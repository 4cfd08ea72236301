/** Deferred requests stand for their directories until they are drained. */
module Deferral {
  import opened Paths
  import opened JobTable
  import opened Coverage

  ghost predicate DeferredAt(env: Setting, row: Deferred, d: Path) {
    && row.path <= d && env.volumeFor(d) == Some(row.volume) && env.acceptsDirectory(row.path)
    && (row.recursive || row.path == d)
  }

  ghost predicate Awaits(env: Setting, rows: seq<Deferred>, d: Path) {
    exists r :: r in rows && DeferredAt(env, r, d)
  }

  predicate NoBaseline(rows: seq<Deferred>) {
    forall r :: r in rows ==> !r.baseline
  }

  lemma UpsertDeferredHas(rows: seq<Deferred>, row: Deferred)
    ensures forall r :: r in rows ==> exists r' :: r' in UpsertDeferred(rows, row) && Grown(r, r')
    ensures exists r' :: r' in UpsertDeferred(rows, row) && r'.path == row.path && (row.recursive ==> r'.recursive)
  {
    if rows == [] {
      assert row in UpsertDeferred(rows, row);
    } else if rows[0].path == row.path {
      var up := rows[0].(recursive := rows[0].recursive || row.recursive, baseline := rows[0].baseline || row.baseline);
      assert UpsertDeferred(rows, row)[0] == up;
      forall r | r in rows ensures exists r' :: r' in UpsertDeferred(rows, row) && Grown(r, r') {
        if r == rows[0] { assert Grown(r, up); } else { assert Grown(r, r) && r in rows[1..]; }
      }
    } else {
      UpsertDeferredHas(rows[1..], row);
      var up := UpsertDeferred(rows, row);
      assert up[0] == rows[0] && up[1..] == UpsertDeferred(rows[1..], row);
      forall r | r in rows ensures exists r' :: r' in up && Grown(r, r') {
        if r == rows[0] {
          assert up[0] in up && Grown(r, r);
        } else {
          assert r in rows[1..];
          var r' :| r' in UpsertDeferred(rows[1..], row) && Grown(r, r');
          assert r' in up;
        }
      }
    }
  }

  lemma UpsertDeferredFrom(rows: seq<Deferred>, row: Deferred)
    ensures forall r' :: r' in UpsertDeferred(rows, row) ==>
              r' == row || r' in rows || exists r :: r in rows && r.path == r'.path == row.path && r.volume == r'.volume
    ensures NoBaseline(rows) && !row.baseline ==> NoBaseline(UpsertDeferred(rows, row))
  {
    if rows != [] && rows[0].path != row.path {
      UpsertDeferredFrom(rows[1..], row);
    }
  }

  predicate Grown(r: Deferred, r': Deferred) {
    r'.path == r.path && r'.volume == r.volume && (r.recursive ==> r'.recursive)
  }

  lemma DropBelowKeeps(rows: seq<Deferred>, key: Key, top: Path)
    ensures forall r :: r in DropBelow(rows, key, top) <==> r in rows && !(r.volume == key && top < r.path)
  {
  }

  lemma DropVolumeKeeps(rows: seq<Deferred>, key: Key)
    ensures forall r :: r in DropVolume(rows, key) <==> r in rows && r.volume != key
  {
  }

  lemma FirstAncestorHas(rows: seq<Deferred>, key: Key, path: Path)
    ensures var f := FirstAncestor(rows, key, path);
            f.Some? ==> f.value <= path && exists r :: r in rows && r.path == f.value && r.volume == key && r.recursive
  {
  }

  lemma RowAccepted(env: Env, r: Deferred, d: Path)
    requires OwnedRow(env, r)
    requires r.path <= d && env.volumeFor(d) == Some(r.volume) && env.acceptsDirectory(d)
    ensures env.acceptsDirectory(r.path)
  {
    var i := RootOf(env, d);
    var roots := env.roots[r.volume];
    if r.path in roots {
      var j :| 0 <= j < |roots| && roots[j] == r.path;
      Comparable(roots[i], roots[j], d);
    }
  }

  lemma RootOf(env: Env, d: Path) returns (i: nat)
    requires env.acceptsDirectory(d)
    ensures env.RootAt(d, i)
  {
    assert env.AcceptedRoot(d);
    i :| env.RootAt(d, i);
  }

  lemma BoundOwned(env: Env, rows: seq<Deferred>, key: Key)
    requires OwnedRows(env, rows)
    ensures OwnedRows(env, BoundDeferred(env, rows, key))
    ensures NoBaseline(rows) ==> NoBaseline(BoundDeferred(env, rows, key))
  {
    DropVolumeKeeps(rows, key);
    if key in env.roots {
      forall r | r in RootRows(env.roots[key], key) ensures OwnedRow(env, r) && !r.baseline {
        var i :| 0 <= i < |env.roots[key]| && RootRows(env.roots[key], key)[i] == r;
        assert env.roots[key][i] == r.path;
      }
    }
  }

  lemma MergeOwned(env: Env, rows: seq<Deferred>, path: Path, key: Key, recursive: bool, baseline: bool)
    requires OwnedRows(env, rows)
    requires env.acceptsDirectory(path) && env.volumeFor(path) == Some(key)
    ensures OwnedRows(env, Merge(rows, path, key, recursive, baseline))
    ensures NoBaseline(rows) && !baseline ==> NoBaseline(Merge(rows, path, key, recursive, baseline))
  {
    var ancestor := FirstAncestor(rows, key, path);
    var top := if ancestor.Some? then ancestor.value else path;
    var row := Deferred(top, key, recursive || ancestor.Some?, baseline);
    FirstAncestorHas(rows, key, path);
    UpsertDeferredFrom(rows, row);
    assert OwnedRow(env, row);
    DropBelowKeeps(UpsertDeferred(rows, row), key, top);
  }

  lemma DeferOwned(env: Env, rows: seq<Deferred>, path: Path, key: Key, recursive: bool, baseline: bool)
    requires OwnedRows(env, rows)
    requires env.acceptsDirectory(path) && env.volumeFor(path) == Some(key)
    ensures OwnedRows(env, Defer(env, rows, path, key, recursive, baseline))
    ensures NoBaseline(rows) && !baseline ==> NoBaseline(Defer(env, rows, path, key, recursive, baseline))
  {
    MergeOwned(env, rows, path, key, recursive, baseline);
    BoundOwned(env, Merge(rows, path, key, recursive, baseline), key);
  }

  ghost predicate Requested(env: Setting, path: Path, key: Key, recursive: bool, d: Path) {
    path <= d && (d == path || recursive) && env.volumeFor(d) == Some(key)
  }

  lemma PrunedAwaits(env: Env, rows: seq<Deferred>, r0: Deferred, key: Key, d: Path)
    requires OwnedRows(env, rows) && env.acceptsDirectory(d)
    requires r0 in rows && r0.recursive && r0.volume == key
    requires Awaits(env, rows, d)
    ensures Awaits(env, DropBelow(rows, key, r0.path), d)
  {
    DropBelowKeeps(rows, key, r0.path);
    var r :| r in rows && DeferredAt(env, r, d);
    if r !in DropBelow(rows, key, r0.path) {
      assert env.volumeFor(r.path) == Some(key) && env.volumeFor(r0.path) == Some(r0.volume);
      RowAccepted(env, r0, d);
      assert DeferredAt(env, r0, d);
    }
  }

  lemma OverflowAwaits(env: Env, rows: seq<Deferred>, key: Key, d: Path)
    requires env.acceptsDirectory(d) && key in env.roots
    requires Awaits(env, rows, d)
    ensures Awaits(env, DropVolume(rows, key) + RootRows(env.roots[key], key), d)
  {
    DropVolumeKeeps(rows, key);
    var r :| r in rows && DeferredAt(env, r, d);
    var result := DropVolume(rows, key) + RootRows(env.roots[key], key);
    if r.volume == key {
      var i := RootOf(env, d);
      var root := Deferred(env.roots[key][i], key, true, false);
      assert RootRows(env.roots[key], key)[i] == root;
      assert root in result && DeferredAt(env, root, d);
    } else {
      assert r in result;
    }
  }

  lemma BoundKeeps(env: Env, rows: seq<Deferred>, key: Key, d: Path)
    requires env.acceptsDirectory(d) && Awaits(env, rows, d)
    ensures Awaits(env, BoundDeferred(env, rows, key), d)
  {
    if CountVolume(rows, key) > MAX_JOBS && key in env.roots {
      OverflowAwaits(env, rows, key, d);
      assert BoundDeferred(env, rows, key) == DropVolume(rows, key) + RootRows(env.roots[key], key);
    } else {
      assert BoundDeferred(env, rows, key) == rows;
    }
  }

  lemma MergeKeeps(env: Env, rows: seq<Deferred>, path: Path, key: Key, recursive: bool, baseline: bool, d: Path)
    requires OwnedRows(env, rows)
    requires env.acceptsDirectory(path) && env.volumeFor(path) == Some(key) && env.acceptsDirectory(d)
    requires Awaits(env, rows, d) || Requested(env, path, key, recursive, d)
    ensures Awaits(env, Merge(rows, path, key, recursive, baseline), d)
  {
    var ancestor := FirstAncestor(rows, key, path);
    var top := if ancestor.Some? then ancestor.value else path;
    var row := Deferred(top, key, recursive || ancestor.Some?, baseline);
    FirstAncestorHas(rows, key, path);
    assert OwnedRow(env, row);
    MergedAwaits(env, rows, row, recursive, path, d);
    if row.recursive {
      var r0 := MergedTop(env, rows, row);
      PrunedAwaits(env, UpsertDeferred(rows, row), r0, key, d);
    }
  }

  /** Deferring loses nothing, and the new request is represented, with its subtree when recursive. */
  lemma DeferKeeps(env: Env, rows: seq<Deferred>, path: Path, key: Key, recursive: bool, baseline: bool, d: Path)
    requires OwnedRows(env, rows)
    requires env.acceptsDirectory(path) && env.volumeFor(path) == Some(key) && env.acceptsDirectory(d)
    requires Awaits(env, rows, d) || Requested(env, path, key, recursive, d)
    ensures Awaits(env, Defer(env, rows, path, key, recursive, baseline), d)
  {
    MergeKeeps(env, rows, path, key, recursive, baseline, d);
    BoundKeeps(env, Merge(rows, path, key, recursive, baseline), key, d);
  }

  lemma MergedOwned(env: Env, rows: seq<Deferred>, row: Deferred)
    requires OwnedRows(env, rows) && OwnedRow(env, row)
    ensures OwnedRows(env, UpsertDeferred(rows, row))
  {
    UpsertDeferredFrom(rows, row);
  }

  lemma MergedTop(env: Env, rows: seq<Deferred>, row: Deferred) returns (r0: Deferred)
    requires OwnedRows(env, rows) && OwnedRow(env, row) && row.recursive
    ensures r0 in UpsertDeferred(rows, row) && r0.path == row.path && r0.recursive && r0.volume == row.volume
    ensures OwnedRows(env, UpsertDeferred(rows, row))
  {
    UpsertDeferredHas(rows, row);
    MergedOwned(env, rows, row);
    r0 :| r0 in UpsertDeferred(rows, row) && r0.path == row.path && r0.recursive;
  }

  lemma MergedAwaits(env: Env, rows: seq<Deferred>, row: Deferred, recursive: bool, path: Path, d: Path)
    requires OwnedRows(env, rows) && OwnedRow(env, row)
    requires env.acceptsDirectory(d)
    requires row.path <= path && (row.path == path || row.recursive) && (recursive ==> row.recursive)
    requires Awaits(env, rows, d) || Requested(env, path, row.volume, recursive, d)
    ensures Awaits(env, UpsertDeferred(rows, row), d)
  {
    UpsertDeferredHas(rows, row);
    if Awaits(env, rows, d) {
      var r :| r in rows && DeferredAt(env, r, d);
      var r' :| r' in UpsertDeferred(rows, row) && Grown(r, r');
      assert DeferredAt(env, r', d);
    } else {
      var r' :| r' in UpsertDeferred(rows, row) && r'.path == row.path && (row.recursive ==> r'.recursive);
      MergedOwned(env, rows, row);
      RowAccepted(env, r', d);
      assert DeferredAt(env, r', d);
    }
  }
}
