/** Recording a directory observation: at once, or in chunks under one scan id. Any split into
    chunks leaves the same entries and directories, and absence counts only at the end. */
module Chunks {
  import opened Paths
  import opened EntryStore

  datatype Item = Item(path: Path, seen: Attributes)

  /** A result for one scope: the entries listed, whether the scope was enumerated to the end, the
      paths of errors. */
  datatype Result = Result(items: seq<Item>, enumerated: bool, errors: seq<Path>)

  predicate Directory(kind: string) { kind == "directory" || kind == "dir" }

  /** Another object took the directory's name. */
  predicate Replaced(was: Attributes, now: Attributes) {
    Directory(was.kind) && (!Directory(now.kind) || was.dev != now.dev || was.ino != now.ino)
  }

  function Forget(f: Flat, path: Path): Flat { f.(directories := f.directories - {path}) }

  function Enumerated(f: Flat, path: Path): Flat { f.(directories := f.directories + {path}) }

  // ---------------------------------------------------------------- roots nested in the scope

  function Protected(nested: seq<Path>, missing: set<Path>): seq<Path> {
    if nested == [] then []
    else
      var rest := Protected(nested[1..], missing);
      if nested[0] in missing then rest else [nested[0]] + rest
  }

  function PruneMissing(f: Flat, nested: seq<Path>, missing: set<Path>): Flat
    decreases |nested|
  {
    if nested == [] then f
    else PruneMissing(if nested[0] in missing then Without(f, nested[0], true, []) else f, nested[1..], missing)
  }

  // ---------------------------------------------------------------- stage_scan and finish_scan

  /** The directory's own contents go when another object is positively seen in its place. */
  function Supplant(f: Flat, was: Attributes, item: Item, protected: seq<Path>): Flat {
    if Replaced(was, item.seen) then Forget(Without(f, item.path, false, protected), item.path) else f
  }

  predicate Staged(accepts: Path -> bool, scope: Path, item: Item) { Parent(item.path) == scope && accepts(item.path) }

  function StageItem(accepts: Path -> bool, f: Flat, scope: Path, item: Item, protected: seq<Path>): Flat {
    if !Staged(accepts, scope, item) then f
    else
      var f1 := if item.path in f.entries then Supplant(f, f.entries[item.path], item, protected) else f;
      With(f1, item.path, item.seen)
  }

  function StageItems(accepts: Path -> bool, f: Flat, scope: Path, items: seq<Item>, protected: seq<Path>): Flat
    decreases |items|
  {
    if items == [] then f
    else StageItems(accepts, StageItem(accepts, f, scope, items[0], protected), scope, items[1..], protected)
  }

  function StagedPaths(accepts: Path -> bool, scope: Path, items: seq<Item>): set<Path> {
    set i | 0 <= i < |items| && Staged(accepts, scope, items[i]) :: items[i].path
  }

  function PruneAll(f: Flat, paths: seq<Path>, protected: seq<Path>): Flat
    decreases |paths|
  {
    if paths == [] then f else PruneAll(Without(f, paths[0], true, protected), paths[1..], protected)
  }

  /** The children of the enumerated scope that this scan has not seen. */
  function Candidates(f: Flat, scope: Path, seen: set<Path>): set<Path> {
    set e | e in f.entries && Parent(e) == scope && e !in seen
  }

  function Elements(paths: seq<Path>): set<Path> { set p | p in paths }

  ghost predicate Lists(paths: seq<Path>, all: set<Path>) {
    (forall i, j :: 0 <= i < j < |paths| ==> paths[i] != paths[j]) && Elements(paths) == all
  }

  /** `finish_scan`: without an error, and only for an accepted scope enumerated to the end, what was
      not seen is pruned, in whatever order the query gives. */
  ghost predicate Finishes(accepts: Path -> bool, f: Flat, f': Flat, scope: Path, r: Result, seen: set<Path>, protected: seq<Path>) {
    if r.errors != [] || !r.enumerated || !accepts(scope) then f' == f
    else exists order :: Lists(order, Candidates(f, scope, seen)) && f' == PruneAll(Enumerated(f, scope), order, protected)
  }

  // ---------------------------------------------------------------- replace

  predicate Related(failed: seq<Path>, path: Path) {
    exists i :: 0 <= i < |failed| && (Within(failed[i], path) || Within(path, failed[i]))
  }

  /** The latest accepted item at `path`. */
  function Latest(accepts: Path -> bool, items: seq<Item>, path: Path): Option<Attributes> {
    if items == [] then None
    else
      var later := Latest(accepts, items[1..], path);
      if later.Some? then later
      else if items[0].path == path && accepts(path) then Some(items[0].seen) else None
  }

  function ReplaceRow(accepts: Path -> bool, f: Flat, row: Item, r: Result, protected: seq<Path>): Flat {
    if Related(r.errors, row.path) then f
    else
      var child := Latest(accepts, r.items, row.path);
      if child.None? then Without(f, row.path, true, protected)
      else Supplant(f, row.seen, Item(row.path, child.value), protected)
  }

  function ReplaceRows(accepts: Path -> bool, f: Flat, rows: seq<Item>, r: Result, protected: seq<Path>): Flat
    decreases |rows|
  {
    if rows == [] then f
    else ReplaceRows(accepts, ReplaceRow(accepts, f, rows[0], r, protected), rows[1..], r, protected)
  }

  /** Next to an error only entries of the enumerated scope are recorded. */
  predicate Recorded(accepts: Path -> bool, scope: Path, r: Result, item: Item) {
    accepts(item.path) && (r.errors == [] || (r.enumerated && Parent(item.path) == scope))
  }

  function PutItems(accepts: Path -> bool, f: Flat, scope: Path, r: Result, items: seq<Item>): Flat
    decreases |items|
  {
    if items == [] then f
    else PutItems(accepts, if Recorded(accepts, scope, r, items[0]) then With(f, items[0].path, items[0].seen) else f,
                  scope, r, items[1..])
  }

  /** The rows of the scope as a query lists them. */
  ghost predicate ListsRows(f: Flat, scope: Path, rows: seq<Item>) {
    && Distinct(rows)
    && (forall i :: 0 <= i < |rows| ==> Row(f, scope, rows[i]))
    && (forall e :: e in f.entries && Parent(e) == scope ==> exists i :: 0 <= i < |rows| && rows[i].path == e)
  }

  predicate Row(f: Flat, scope: Path, row: Item) {
    row.path in f.entries && Parent(row.path) == scope && f.entries[row.path] == row.seen
  }

  predicate Distinct(items: seq<Item>) { forall i, j :: 0 <= i < j < |items| ==> items[i].path != items[j].path }

  /** `replace`, after the nested roots were dealt with. */
  ghost predicate Replaces(accepts: Path -> bool, f: Flat, f': Flat, scope: Path, r: Result, protected: seq<Path>) {
    var f1 := if !r.enumerated && r.errors == [] then Without(f, scope, true, protected) else f;
    if !r.enumerated || !accepts(scope) then f' == PutItems(accepts, f1, scope, r, r.items)
    else exists rows :: ListsRows(f1, scope, rows)
                        && f' == PutItems(accepts, Enumerated(ReplaceRows(accepts, f1, rows, r, protected), scope), scope, r, r.items)
  }

  // ---------------------------------------------------------------- what a replacement may take

  /** `e` is at or below one of the roots. */
  predicate Under(roots: seq<Path>, e: Path) { exists i :: 0 <= i < |roots| && roots[i] <= e }

  /** `e` is at, above or below a path that failed. */
  predicate NearFailure(errors: seq<Path>, e: Path) { exists i :: 0 <= i < |errors| && (errors[i] <= e || e <= errors[i]) }

  /** The last accepted item at `path`. */
  predicate ListedAt(accepts: Path -> bool, items: seq<Item>, path: Path, i: nat) {
    i < |items| && items[i].path == path && accepts(path) && forall j :: i < j < |items| ==> items[j].path != path
  }

  /** The row of the scope takes `e` away: nothing failed near the row, `e` is at or below it and under no
      protected root, and the row was not listed, or a directory is listed as another object by now, which
      takes only what is below. */
  ghost predicate Takes(accepts: Path -> bool, row: Item, r: Result, protected: seq<Path>, e: Path) {
    && !NearFailure(r.errors, row.path) && row.path <= e && !Under(protected, row.path) && !Under(protected, e)
    && forall i: nat :: ListedAt(accepts, r.items, row.path, i) ==>
         OtherObject(row.seen, r.items[i].seen) && (row.path < e || row.path == [])
  }

  /** The row is a directory that is listed as another object by now, and nothing failed near it. */
  ghost predicate Renews(accepts: Path -> bool, row: Item, r: Result, d: Path) {
    row.path == d && !NearFailure(r.errors, d) && exists i: nat :: ListedAt(accepts, r.items, d, i) && OtherObject(row.seen, r.items[i].seen)
  }

  /** A directory was there, and something else is there now. */
  predicate OtherObject(was: Attributes, now: Attributes) {
    && was.kind in {"directory", "dir"}
    && (now.kind !in {"directory", "dir"} || was.dev != now.dev || was.ino != now.ino)
  }

  lemma {:induction false} LatestListed(accepts: Path -> bool, items: seq<Item>, path: Path)
    ensures var latest := Latest(accepts, items, path);
            && (latest.None? <==> forall i: nat :: !ListedAt(accepts, items, path, i))
            && (forall i: nat :: ListedAt(accepts, items, path, i) ==> latest == Some(items[i].seen))
    decreases |items|
  {
    if items != [] {
      LatestListed(accepts, items[1..], path);
      assert forall i :: 0 <= i < |items[1..]| ==> items[1..][i] == items[i + 1];
      forall i: nat | ListedAt(accepts, items, path, i) && i > 0 ensures ListedAt(accepts, items[1..], path, i - 1) { }
      forall i: nat | ListedAt(accepts, items[1..], path, i) ensures ListedAt(accepts, items, path, i + 1) { }
      if Latest(accepts, items[1..], path).None? && items[0].path == path && accepts(path) {
        forall j | 0 < j < |items| ensures items[j].path != path {
          if items[j].path == path {
            var last := LastListing(accepts, items[1..], path, j - 1);
          }
        }
        assert ListedAt(accepts, items, path, 0);
      }
    }
  }

  lemma {:induction false} LastListing(accepts: Path -> bool, items: seq<Item>, path: Path, i: nat) returns (last: nat)
    requires i < |items| && items[i].path == path && accepts(path)
    ensures ListedAt(accepts, items, path, last)
    decreases |items| - i
  {
    if j :| i < j < |items| && items[j].path == path {
      last := LastListing(accepts, items, path, j);
    } else {
      last := i;
    }
  }

  lemma {:induction false} RowsTake(accepts: Path -> bool, f: Flat, rows: seq<Item>, r: Result, protected: seq<Path>, e: Path)
    ensures var f' := ReplaceRows(accepts, f, rows, r, protected);
            && (e in f'.entries <==> e in f.entries && forall i :: 0 <= i < |rows| ==> !Takes(accepts, rows[i], r, protected, e))
            && (e in f'.entries ==> f'.entries[e] == f.entries[e])
            && (e in f'.directories <==> e in f.directories && forall i :: 0 <= i < |rows| ==>
                  !Takes(accepts, rows[i], r, protected, e) && !Renews(accepts, rows[i], r, e))
    decreases |rows|
  {
    if rows != [] {
      RowTakes(accepts, f, rows[0], r, protected, e);
      RowsTake(accepts, ReplaceRow(accepts, f, rows[0], r, protected), rows[1..], r, protected, e);
      assert rows == [rows[0]] + rows[1..];
    }
  }

  lemma RowTakes(accepts: Path -> bool, f: Flat, row: Item, r: Result, protected: seq<Path>, e: Path)
    ensures var f' := ReplaceRow(accepts, f, row, r, protected);
            && (e in f'.entries <==> e in f.entries && !Takes(accepts, row, r, protected, e))
            && (e in f'.entries ==> f'.entries[e] == f.entries[e])
            && (e in f'.directories <==> e in f.directories && !Takes(accepts, row, r, protected, e) && !Renews(accepts, row, r, e))
  {
    assert Related(r.errors, row.path) <==> NearFailure(r.errors, row.path);
    assert Preserved(row.path, protected) <==> Under(protected, row.path);
    assert Preserved(e, protected) <==> Under(protected, e);
    LatestListed(accepts, r.items, row.path);
    if i: nat :| ListedAt(accepts, r.items, row.path, i) {
      assert OtherObject(row.seen, r.items[i].seen) <==> Replaced(row.seen, r.items[i].seen);
    }
  }

  /** The item is recorded: it is accepted, and next to an error a child of the enumerated scope. */
  predicate Puts(accepts: Path -> bool, scope: Path, r: Result, e: Path) {
    accepts(e) && (r.errors != [] ==> r.enumerated && Parent(e) == scope)
  }

  lemma {:induction false} PutsLatest(accepts: Path -> bool, f: Flat, scope: Path, r: Result, items: seq<Item>, e: Path)
    ensures var f' := PutItems(accepts, f, scope, r, items);
            && f'.directories == f.directories
            && (Puts(accepts, scope, r, e) && Latest(accepts, items, e).Some? ==> e in f'.entries && f'.entries[e] == Latest(accepts, items, e).value)
            && (!Puts(accepts, scope, r, e) || Latest(accepts, items, e).None? ==>
                  (e in f'.entries <==> e in f.entries) && (e in f.entries ==> f'.entries[e] == f.entries[e]))
    decreases |items|
  {
    if items != [] {
      PutsLatest(accepts, if Recorded(accepts, scope, r, items[0]) then With(f, items[0].path, items[0].seen) else f, scope, r, items[1..], e);
    }
  }

  /** What a replacement takes away: for a scope enumerated to the end what its rows take, for a scope that
      vanished without an error everything at and below it, and nothing else. */
  ghost predicate Loses(accepts: Path -> bool, f: Flat, scope: Path, r: Result, protected: seq<Path>, e: Path) {
    if r.enumerated then
      accepts(scope) && exists c :: c in f.entries && Parent(c) == scope && Takes(accepts, Item(c, f.entries[c]), r, protected, e)
    else
      r.errors == [] && scope <= e && !Under(protected, scope) && !Under(protected, e)
  }

  ghost predicate LosesDirectory(accepts: Path -> bool, f: Flat, scope: Path, r: Result, protected: seq<Path>, d: Path) {
    || Loses(accepts, f, scope, r, protected, d)
    || (r.enumerated && accepts(scope) && d in f.entries && Parent(d) == scope && Renews(accepts, Item(d, f.entries[d]), r, d))
  }

  /** `e` after the replacement: the last accepted item at it, or what was there and is not lost. */
  ghost predicate EntryIs(accepts: Path -> bool, f: Flat, f': Flat, scope: Path, r: Result, protected: seq<Path>, e: Path) {
    && (forall i: nat :: Puts(accepts, scope, r, e) && ListedAt(accepts, r.items, e, i) ==> e in f'.entries && f'.entries[e] == r.items[i].seen)
    && ((forall i: nat :: !(Puts(accepts, scope, r, e) && ListedAt(accepts, r.items, e, i))) ==>
          && (e in f'.entries <==> e in f.entries && !Loses(accepts, f, scope, r, protected, e))
          && (e in f'.entries ==> f'.entries[e] == f.entries[e]))
  }

  ghost predicate DirectoryIs(accepts: Path -> bool, f: Flat, f': Flat, scope: Path, r: Result, protected: seq<Path>, d: Path) {
    d in f'.directories <==>
      || (d == scope && r.enumerated && accepts(scope))
      || (d in f.directories && !LosesDirectory(accepts, f, scope, r, protected, d))
  }
  /** Every entry and every directory after a replacement, with errors, without them, and of a scope that
      vanished. */
  lemma ReplacedExactly(accepts: Path -> bool, f: Flat, f': Flat, scope: Path, r: Result, protected: seq<Path>, e: Path)
    requires Replaces(accepts, f, f', scope, r, protected)
    ensures EntryIs(accepts, f, f', scope, r, protected, e) && DirectoryIs(accepts, f, f', scope, r, protected, e)
  {
    LatestListed(accepts, r.items, e);
    if r.enumerated && accepts(scope) {
      var rows :| ListsRows(f, scope, rows)
                  && f' == PutItems(accepts, Enumerated(ReplaceRows(accepts, f, rows, r, protected), scope), scope, r, r.items);
      RowsTake(accepts, f, rows, r, protected, e);
      RowsLose(accepts, f, scope, rows, r, protected, e);
      PutsLatest(accepts, Enumerated(ReplaceRows(accepts, f, rows, r, protected), scope), scope, r, r.items, e);
    } else {
      var f1 := if !r.enumerated && r.errors == [] then Without(f, scope, true, protected) else f;
      assert Preserved(scope, protected) <==> Under(protected, scope);
      assert Preserved(e, protected) <==> Under(protected, e);
      PutsLatest(accepts, f1, scope, r, r.items, e);
    }
  }

  lemma RowsLose(accepts: Path -> bool, f: Flat, scope: Path, rows: seq<Item>, r: Result, protected: seq<Path>, e: Path)
    requires ListsRows(f, scope, rows) && r.enumerated && accepts(scope)
    ensures Loses(accepts, f, scope, r, protected, e) <==> exists i :: 0 <= i < |rows| && Takes(accepts, rows[i], r, protected, e)
    ensures LosesDirectory(accepts, f, scope, r, protected, e)
            <==> exists i :: 0 <= i < |rows| && (Takes(accepts, rows[i], r, protected, e) || Renews(accepts, rows[i], r, e))
  {
    forall c | c in f.entries && Parent(c) == scope
      ensures exists i :: 0 <= i < |rows| && rows[i] == Item(c, f.entries[c])
    {
      var i :| 0 <= i < |rows| && rows[i].path == c;
      assert Row(f, scope, rows[i]);
    }
    forall i | 0 <= i < |rows| ensures rows[i].path in f.entries && Parent(rows[i].path) == scope && rows[i] == Item(rows[i].path, f.entries[rows[i].path]) {
      assert Row(f, scope, rows[i]);
    }
  }

  /** An error takes nothing at, above or below its path; if the scope could not be enumerated either, it
      takes nothing at all. */
  lemma ErrorsTakeNothing(accepts: Path -> bool, f: Flat, f': Flat, scope: Path, r: Result, protected: seq<Path>, e: Path)
    requires Replaces(accepts, f, f', scope, r, protected) && r.errors != []
    requires !r.enumerated || NearFailure(r.errors, e)
    ensures e in f.entries ==> e in f'.entries
    ensures e in f.directories ==> e in f'.directories
  {
    ReplacedExactly(accepts, f, f', scope, r, protected, e);
  }

  /** A scope that vanished without an error goes with everything below it, except under protected roots;
      what is listed all the same is recorded. */
  lemma VanishedGoes(accepts: Path -> bool, f: Flat, f': Flat, scope: Path, r: Result, protected: seq<Path>, e: Path)
    requires Replaces(accepts, f, f', scope, r, protected) && r.errors == [] && !r.enumerated
    requires forall i :: 0 <= i < |r.items| ==> r.items[i].path != e
    ensures e in f'.entries <==> e in f.entries && !(scope <= e && !Under(protected, scope) && !Under(protected, e))
    ensures e in f'.directories <==> e in f.directories && !(scope <= e && !Under(protected, scope) && !Under(protected, e))
  {
    ReplacedExactly(accepts, f, f', scope, r, protected, e);
  }

  /** A missing nested root goes with everything below it; the others are protected. */
  lemma {:induction false} NestedRoots(f: Flat, nested: seq<Path>, missing: set<Path>, e: Path)
    ensures var f' := PruneMissing(f, nested, missing);
            var gone := exists i :: 0 <= i < |nested| && nested[i] in missing && nested[i] <= e;
            && (e in f'.entries <==> e in f.entries && !gone)
            && (e in f'.entries ==> f'.entries[e] == f.entries[e])
            && (e in f'.directories <==> e in f.directories && !gone)
    ensures Under(Protected(nested, missing), e) <==> exists i :: 0 <= i < |nested| && nested[i] !in missing && nested[i] <= e
    decreases |nested|
  {
    if nested != [] {
      var root, rest := nested[0], nested[1..];
      NestedRoots(if root in missing then Without(f, root, true, []) else f, rest, missing, e);
      assert nested == [root] + rest;
      if root !in missing {
        var others := Protected(rest, missing);
        assert ([root] + others)[0] == root && forall i :: 0 <= i < |others| ==> ([root] + others)[i + 1] == others[i];
      }
    }
  }

  // ---------------------------------------------------------------- what the end of a scan may take

  /** The end of a scan takes `e` away: the scan had no error, its scope is accepted and was enumerated to the
      end, and a child that was held and not seen, under no protected root, is at or above `e`. */
  ghost predicate FinishTakes(accepts: Path -> bool, f: Flat, scope: Path, r: Result, seen: set<Path>, protected: seq<Path>, e: Path) {
    && r.errors == [] && r.enumerated && accepts(scope) && !Under(protected, e)
    && exists c :: c in f.entries && Parent(c) == scope && c !in seen && c <= e && !Under(protected, c)
  }

  ghost predicate FinishIs(accepts: Path -> bool, f: Flat, f': Flat, scope: Path, r: Result, seen: set<Path>, protected: seq<Path>, e: Path) {
    && (e in f'.entries <==> e in f.entries && !FinishTakes(accepts, f, scope, r, seen, protected, e))
    && (e in f'.entries ==> f'.entries[e] == f.entries[e])
    && (e in f'.directories <==> (e in f.directories || (e == scope && r.errors == [] && r.enumerated && accepts(scope)))
                                 && !FinishTakes(accepts, f, scope, r, seen, protected, e))
  }

  lemma {:induction false} PruneAllTakes(f: Flat, order: seq<Path>, protected: seq<Path>, e: Path)
    ensures var f' := PruneAll(f, order, protected);
            var gone := !Under(protected, e) && exists i :: 0 <= i < |order| && order[i] <= e && !Under(protected, order[i]);
            && (e in f'.entries <==> e in f.entries && !gone)
            && (e in f'.entries ==> f'.entries[e] == f.entries[e])
            && (e in f'.directories <==> e in f.directories && !gone)
    decreases |order|
  {
    if order != [] {
      PruneAllTakes(Without(f, order[0], true, protected), order[1..], protected, e);
      assert order == [order[0]] + order[1..];
      assert Preserved(order[0], protected) <==> Under(protected, order[0]);
      assert Preserved(e, protected) <==> Under(protected, e);
    }
  }

  lemma FinishedExactly(accepts: Path -> bool, f: Flat, f': Flat, scope: Path, r: Result, seen: set<Path>, protected: seq<Path>, e: Path)
    requires Finishes(accepts, f, f', scope, r, seen, protected)
    ensures FinishIs(accepts, f, f', scope, r, seen, protected, e)
  {
    if r.errors == [] && r.enumerated && accepts(scope) {
      var order :| Lists(order, Candidates(f, scope, seen)) && f' == PruneAll(Enumerated(f, scope), order, protected);
      PruneAllTakes(Enumerated(f, scope), order, protected, e);
      forall i | 0 <= i < |order| ensures order[i] in Candidates(f, scope, seen) { assert order[i] in Elements(order); }
      forall c | c in f.entries && Parent(c) == scope && c !in seen ensures exists i :: 0 <= i < |order| && order[i] == c {
        assert c in Elements(order);
      }
    }
  }

  // ---------------------------------------------------------------- what either way amounts to

  /** The entries of one observation by path. */
  type Kids = map<Path, Attributes>

  /** Is `e` lost when the children `done` of the scope have been compared with `kids`? */
  predicate Cut(f: Flat, scope: Path, kids: Kids, done: set<Path>, protected: seq<Path>, e: Path) {
    scope < e &&
    (var c := Toward(scope, e);
     && c in done && c in f.entries
     && (if c in kids then Replaced(f.entries[c], kids[c]) && Pruned(c, false, protected, e)
         else Pruned(c, true, protected, e)))
  }

  predicate Dropped(f: Flat, kids: Kids, done: set<Path>, d: Path) {
    d in done && d in kids && d in f.entries && Replaced(f.entries[d], kids[d])
  }

  function CutEntries(f: Flat, scope: Path, kids: Kids, done: set<Path>, protected: seq<Path>): set<Path> {
    set e | e in f.entries && Cut(f, scope, kids, done, protected, e)
  }

  function CutDirectories(f: Flat, scope: Path, kids: Kids, done: set<Path>, protected: seq<Path>): set<Path> {
    set d | d in f.directories && (Cut(f, scope, kids, done, protected, d) || Dropped(f, kids, done, d))
  }

  function Rest(f: Flat, gone: set<Path>, lost: set<Path>, put: Kids): Flat {
    Flat(f.entries - gone + put, f.directories - lost)
  }

  /** The store when the children `done` have been compared and `put` recorded. */
  function Shape(f: Flat, scope: Path, kids: Kids, done: set<Path>, put: Kids, protected: seq<Path>): Flat {
    Rest(f, CutEntries(f, scope, kids, done, protected), CutDirectories(f, scope, kids, done, protected), put)
  }

  predicate Child(scope: Path, c: Path) { scope < c && Parent(c) == scope }

  lemma ChildToward(scope: Path, c: Path, e: Path)
    requires Child(scope, c)
    ensures c <= e <==> scope < e && Toward(scope, e) == c
  {
    assert |c| == |scope| + 1;
    if c <= e { assert e[..|c|] == c; }
  }

  ghost predicate Shaped(f: Flat, scope: Path, kids: Kids, done: set<Path>, put: Kids) {
    && (forall p :: p in put ==> p in kids && kids[p] == put[p])
    && (forall p :: p in kids ==> Child(scope, p))
    && (forall p :: p in done ==> Child(scope, p))
  }

  lemma CutOne(f: Flat, scope: Path, kids: Kids, done: set<Path>, protected: seq<Path>, c: Path, e: Path)
    requires Child(scope, c) && c in f.entries && c !in done
    ensures Cut(f, scope, kids, done + {c}, protected, e)
            <==> || Cut(f, scope, kids, done, protected, e)
                 || (if c in kids then Replaced(f.entries[c], kids[c]) && Pruned(c, false, protected, e)
                     else Pruned(c, true, protected, e))
  {
    ChildToward(scope, c, e);
    if c in kids && Pruned(c, false, protected, e) { assert c <= e; }
    if c !in kids && Pruned(c, true, protected, e) { assert c <= e; }
  }

  lemma RestWithout(f: Flat, gone: set<Path>, lost: set<Path>, put: Kids, c: Path, self: bool, protected: seq<Path>)
    requires forall p :: p in put ==> !Pruned(c, self, protected, p)
    ensures Without(Rest(f, gone, lost, put), c, self, protected)
            == Rest(f, gone + (set e | e in f.entries && Pruned(c, self, protected, e)),
                    lost + (set d | d in f.directories && Pruned(c, self, protected, d)), put)
  {
  }

  lemma PutSpared(scope: Path, put: Kids, c: Path, self: bool, protected: seq<Path>)
    requires Child(scope, c) && forall p :: p in put ==> Child(scope, p)
    requires self ==> c !in put
    ensures forall p :: p in put ==> !Pruned(c, self, protected, p)
  {
    forall p | p in put ensures !Pruned(c, self, protected, p) {
      ChildToward(scope, c, p);
      ChildToward(scope, p, p);
    }
  }

  lemma RestSupplant(f: Flat, gone: set<Path>, lost: set<Path>, put: Kids, was: Attributes, item: Item, protected: seq<Path>)
    requires forall p :: p in put ==> !Pruned(item.path, false, protected, p)
    ensures var c, r := item.path, Replaced(was, item.seen);
            Supplant(Rest(f, gone, lost, put), was, item, protected)
            == Rest(f, gone + (set e | e in f.entries && r && Pruned(c, false, protected, e)),
                    lost + (set d | d in f.directories && r && (Pruned(c, false, protected, d) || d == c)), put)
  {
    if Replaced(was, item.seen) {
      RestWithout(f, gone, lost, put, item.path, false, protected);
    }
  }

  lemma AbsentSets(f: Flat, scope: Path, kids: Kids, done: set<Path>, protected: seq<Path>, c: Path)
    requires Child(scope, c) && c in f.entries && c !in done && c !in kids
    ensures CutEntries(f, scope, kids, done + {c}, protected)
            == CutEntries(f, scope, kids, done, protected) + set e | e in f.entries && Pruned(c, true, protected, e)
    ensures CutDirectories(f, scope, kids, done + {c}, protected)
            == CutDirectories(f, scope, kids, done, protected) + set d | d in f.directories && Pruned(c, true, protected, d)
  {
    forall e ensures Cut(f, scope, kids, done + {c}, protected, e)
                     <==> Cut(f, scope, kids, done, protected, e) || Pruned(c, true, protected, e)
    {
      CutOne(f, scope, kids, done, protected, c, e);
    }
  }

  lemma SupplantSets(f: Flat, scope: Path, kids: Kids, done: set<Path>, protected: seq<Path>, c: Path)
    requires Child(scope, c) && c in f.entries && c !in done && c in kids
    ensures var r := Replaced(f.entries[c], kids[c]);
            && CutEntries(f, scope, kids, done + {c}, protected)
               == CutEntries(f, scope, kids, done, protected) + (set e | e in f.entries && r && Pruned(c, false, protected, e))
            && CutDirectories(f, scope, kids, done + {c}, protected)
               == CutDirectories(f, scope, kids, done, protected)
                  + (set d | d in f.directories && r && (Pruned(c, false, protected, d) || d == c))
  {
    forall e ensures Cut(f, scope, kids, done + {c}, protected, e)
                     <==> Cut(f, scope, kids, done, protected, e) || (Replaced(f.entries[c], kids[c]) && Pruned(c, false, protected, e))
    {
      CutOne(f, scope, kids, done, protected, c, e);
    }
  }

  /** An absent child goes with everything below it. */
  lemma CutAbsent(f: Flat, scope: Path, kids: Kids, done: set<Path>, put: Kids, protected: seq<Path>, c: Path)
    requires Shaped(f, scope, kids, done, put) && Child(scope, c) && c in f.entries && c !in done && c !in kids
    ensures Without(Shape(f, scope, kids, done, put, protected), c, true, protected)
            == Shape(f, scope, kids, done + {c}, put, protected)
  {
    PutSpared(scope, put, c, true, protected);
    RestWithout(f, CutEntries(f, scope, kids, done, protected), CutDirectories(f, scope, kids, done, protected), put, c, true, protected);
    AbsentSets(f, scope, kids, done, protected, c);
  }

  /** A supplanted child loses what is below it. */
  lemma CutSupplanted(f: Flat, scope: Path, kids: Kids, done: set<Path>, put: Kids, protected: seq<Path>, c: Path)
    requires Shaped(f, scope, kids, done, put) && Child(scope, c) && c in f.entries && c !in done && c in kids
    ensures Supplant(Shape(f, scope, kids, done, put, protected), f.entries[c], Item(c, kids[c]), protected)
            == Shape(f, scope, kids, done + {c}, put, protected)
  {
    PutSpared(scope, put, c, false, protected);
    RestSupplant(f, CutEntries(f, scope, kids, done, protected), CutDirectories(f, scope, kids, done, protected), put,
                 f.entries[c], Item(c, kids[c]), protected);
    SupplantSets(f, scope, kids, done, protected, c);
  }

  lemma SameSets(f: Flat, scope: Path, kids: Kids, done: set<Path>, done': set<Path>, protected: seq<Path>)
    requires forall c :: c in f.entries ==> (c in done <==> c in done')
    ensures CutEntries(f, scope, kids, done, protected) == CutEntries(f, scope, kids, done', protected)
    ensures CutDirectories(f, scope, kids, done, protected) == CutDirectories(f, scope, kids, done', protected)
  {
    forall e ensures Cut(f, scope, kids, done, protected, e) <==> Cut(f, scope, kids, done', protected, e) { }
  }

  // ---------------------------------------------------------------- staging in chunks

  /** What a whole observation lists and accepts. */
  function KidsOf(accepts: Path -> bool, items: seq<Item>): Kids {
    if items == [] then map[]
    else if accepts(items[0].path) then KidsOf(accepts, items[1..])[items[0].path := items[0].seen]
    else KidsOf(accepts, items[1..])
  }

  ghost predicate Kept(accepts: Path -> bool, scope: Path, kids: Kids, items: seq<Item>) {
    forall i :: 0 <= i < |items| ==>
      Child(scope, items[i].path) && (accepts(items[i].path) <==> items[i].path in kids)
      && (accepts(items[i].path) ==> kids[items[i].path] == items[i].seen)
  }

  lemma StageOne(accepts: Path -> bool, f: Flat, scope: Path, kids: Kids, done: set<Path>, put: Kids, item: Item, protected: seq<Path>)
    requires Shaped(f, scope, kids, done, put) && Child(scope, item.path) && accepts(item.path)
    requires item.path in kids && kids[item.path] == item.seen && item.path !in done && item.path !in put
    ensures StageItem(accepts, Shape(f, scope, kids, done, put, protected), scope, item, protected)
            == Shape(f, scope, kids, done + {item.path}, put[item.path := item.seen], protected)
  {
    var g := Shape(f, scope, kids, done, put, protected);
    var c := item.path;
    ChildToward(scope, c, c);
    assert c in g.entries <==> c in f.entries;
    if c in f.entries {
      assert g.entries[c] == f.entries[c];
      CutSupplanted(f, scope, kids, done, put, protected, c);
    } else {
      SameSets(f, scope, kids, done, done + {c}, protected);
    }
    var sets := CutEntries(f, scope, kids, done + {c}, protected);
    assert f.entries - sets + put[c := item.seen] == (f.entries - sets + put)[c := item.seen];
  }

  function PutOne(accepts: Path -> bool, put: Kids, item: Item): Kids {
    if accepts(item.path) then put[item.path := item.seen] else put
  }

  ghost predicate Awaited(put: Kids, items: seq<Item>) { forall i :: 0 <= i < |items| ==> items[i].path !in put }

  lemma StageFirst(accepts: Path -> bool, f: Flat, scope: Path, kids: Kids, put: Kids, items: seq<Item>, protected: seq<Path>)
    requires items != [] && Shaped(f, scope, kids, put.Keys, put)
    requires Distinct(items) && Kept(accepts, scope, kids, items) && Awaited(put, items)
    ensures var put' := PutOne(accepts, put, items[0]);
            && StageItem(accepts, Shape(f, scope, kids, put.Keys, put, protected), scope, items[0], protected)
               == Shape(f, scope, kids, put'.Keys, put', protected)
            && Shaped(f, scope, kids, put'.Keys, put')
            && Distinct(items[1..]) && Kept(accepts, scope, kids, items[1..]) && Awaited(put', items[1..])
  {
    var item := items[0];
    if accepts(item.path) {
      StageOne(accepts, f, scope, kids, put.Keys, put, item, protected);
      assert put[item.path := item.seen].Keys == put.Keys + {item.path};
    }
    forall i | 0 <= i < |items[1..]| ensures items[1..][i].path != item.path && items[1..][i].path !in put {
      assert items[1..][i] == items[i + 1];
    }
  }

  lemma PutRest(accepts: Path -> bool, put: Kids, items: seq<Item>)
    requires items != [] && Distinct(items)
    ensures put + KidsOf(accepts, items) == PutOne(accepts, put, items[0]) + KidsOf(accepts, items[1..])
  {
    PutFirst(accepts, put, items);
  }

  lemma {:induction false} StageMany(accepts: Path -> bool, f: Flat, scope: Path, kids: Kids, put: Kids,
                                     items: seq<Item>, protected: seq<Path>)
    requires Shaped(f, scope, kids, put.Keys, put)
    requires Distinct(items) && Kept(accepts, scope, kids, items) && Awaited(put, items)
    ensures var all := put + KidsOf(accepts, items);
            && StageItems(accepts, Shape(f, scope, kids, put.Keys, put, protected), scope, items, protected)
               == Shape(f, scope, kids, all.Keys, all, protected)
            && Shaped(f, scope, kids, all.Keys, all)
    decreases |items|
  {
    if items == [] {
      assert put + KidsOf(accepts, items) == put;
    } else {
      StageFirst(accepts, f, scope, kids, put, items, protected);
      StageMany(accepts, f, scope, kids, PutOne(accepts, put, items[0]), items[1..], protected);
      PutRest(accepts, put, items);
    }
  }

  lemma {:induction false} KidsPaths(accepts: Path -> bool, items: seq<Item>)
    ensures forall p :: p in KidsOf(accepts, items) <==> accepts(p) && exists i :: 0 <= i < |items| && items[i].path == p
    decreases |items|
  {
    if items != [] {
      KidsPaths(accepts, items[1..]);
      assert items == [items[0]] + items[1..];
    }
  }

  function Flatten(chunks: seq<seq<Item>>): seq<Item> {
    if chunks == [] then [] else chunks[0] + Flatten(chunks[1..])
  }

  function StageChunks(accepts: Path -> bool, f: Flat, scope: Path, chunks: seq<seq<Item>>, protected: seq<Path>): Flat
    decreases |chunks|
  {
    if chunks == [] then f
    else StageChunks(accepts, StageItems(accepts, f, scope, chunks[0], protected), scope, chunks[1..], protected)
  }

  lemma {:induction false} StageAppend(accepts: Path -> bool, f: Flat, scope: Path, a: seq<Item>, b: seq<Item>, protected: seq<Path>)
    ensures StageItems(accepts, f, scope, a + b, protected)
            == StageItems(accepts, StageItems(accepts, f, scope, a, protected), scope, b, protected)
    decreases |a|
  {
    if a == [] {
      assert a + b == b;
    } else {
      assert (a + b)[1..] == a[1..] + b;
      StageAppend(accepts, StageItem(accepts, f, scope, a[0], protected), scope, a[1..], b, protected);
    }
  }

  lemma {:induction false} ChunksAppend(accepts: Path -> bool, f: Flat, scope: Path, chunks: seq<seq<Item>>, protected: seq<Path>)
    ensures StageChunks(accepts, f, scope, chunks, protected) == StageItems(accepts, f, scope, Flatten(chunks), protected)
    decreases |chunks|
  {
    if chunks != [] {
      ChunksAppend(accepts, StageItems(accepts, f, scope, chunks[0], protected), scope, chunks[1..], protected);
      StageAppend(accepts, f, scope, chunks[0], Flatten(chunks[1..]), protected);
    }
  }

  // ---------------------------------------------------------------- absence at the end

  lemma EnumeratedWithout(f: Flat, scope: Path, c: Path, protected: seq<Path>)
    requires Child(scope, c)
    ensures Without(Enumerated(f, scope), c, true, protected) == Enumerated(Without(f, c, true, protected), scope)
  {
  }

  function Absent(f: Flat, scope: Path, kids: Kids): set<Path> {
    set e | e in f.entries && Child(scope, e) && e !in kids
  }

  lemma FirstElement(order: seq<Path>)
    requires order != [] && forall i, j :: 0 <= i < j < |order| ==> order[i] != order[j]
    ensures Elements(order) == {order[0]} + Elements(order[1..]) && order[0] !in Elements(order[1..])
  {
    assert order == [order[0]] + order[1..];
  }

  lemma {:induction false} PruneAbsent(f: Flat, scope: Path, kids: Kids, done: set<Path>, put: Kids, order: seq<Path>, protected: seq<Path>)
    requires Shaped(f, scope, kids, done, put)
    requires (forall i, j :: 0 <= i < j < |order| ==> order[i] != order[j]) && Elements(order) <= Absent(f, scope, kids) - done
    ensures PruneAll(Enumerated(Shape(f, scope, kids, done, put, protected), scope), order, protected)
            == Enumerated(Shape(f, scope, kids, done + Elements(order), put, protected), scope)
    decreases |order|
  {
    if order == [] {
      assert done + Elements(order) == done;
    } else {
      var c := order[0];
      FirstElement(order);
      CutAbsent(f, scope, kids, done, put, protected, c);
      EnumeratedWithout(Shape(f, scope, kids, done, put, protected), scope, c, protected);
      PruneAbsent(f, scope, kids, done + {c}, put, order[1..], protected);
      assert done + Elements(order) == done + {c} + Elements(order[1..]);
    }
  }

  // ---------------------------------------------------------------- replacing in one go

  lemma {:induction false} LatestIsKid(accepts: Path -> bool, items: seq<Item>, p: Path)
    requires Distinct(items)
    ensures Latest(accepts, items, p) == if p in KidsOf(accepts, items) then Some(KidsOf(accepts, items)[p]) else None
    decreases |items|
  {
    if items != [] {
      LatestIsKid(accepts, items[1..], p);
      KidsPaths(accepts, items[1..]);
      assert forall i :: 0 <= i < |items[1..]| ==> items[1..][i] == items[i + 1];
    }
  }

  function RowPaths(rows: seq<Item>): set<Path> { set i | 0 <= i < |rows| :: rows[i].path }

  lemma ReplaceOne(accepts: Path -> bool, f: Flat, scope: Path, done: set<Path>, row: Item, r: Result, protected: seq<Path>)
    requires Distinct(r.items) && r.errors == [] && Shaped(f, scope, KidsOf(accepts, r.items), done, map[])
    requires Row(f, scope, row) && Child(scope, row.path) && row.path !in done
    ensures ReplaceRow(accepts, Shape(f, scope, KidsOf(accepts, r.items), done, map[], protected), row, r, protected)
            == Shape(f, scope, KidsOf(accepts, r.items), done + {row.path}, map[], protected)
  {
    LatestIsKid(accepts, r.items, row.path);
    var kids := KidsOf(accepts, r.items);
    if row.path in kids {
      CutSupplanted(f, scope, kids, done, map[], protected, row.path);
    } else {
      CutAbsent(f, scope, kids, done, map[], protected, row.path);
    }
  }

  lemma {:induction false} ReplaceMany(accepts: Path -> bool, f: Flat, scope: Path, done: set<Path>, rows: seq<Item>, r: Result, protected: seq<Path>)
    requires Distinct(r.items) && r.errors == [] && Shaped(f, scope, KidsOf(accepts, r.items), done, map[])
    requires Distinct(rows) && forall i :: 0 <= i < |rows| ==> Row(f, scope, rows[i]) && Child(scope, rows[i].path) && rows[i].path !in done
    ensures ReplaceRows(accepts, Shape(f, scope, KidsOf(accepts, r.items), done, map[], protected), rows, r, protected)
            == Shape(f, scope, KidsOf(accepts, r.items), done + RowPaths(rows), map[], protected)
    decreases |rows|
  {
    if rows == [] {
      assert done + RowPaths(rows) == done;
    } else {
      ReplaceOne(accepts, f, scope, done, rows[0], r, protected);
      assert forall i :: 0 <= i < |rows[1..]| ==> rows[1..][i] == rows[i + 1];
      ReplaceMany(accepts, f, scope, done + {rows[0].path}, rows[1..], r, protected);
      assert done + RowPaths(rows) == done + {rows[0].path} + RowPaths(rows[1..]) by {
        assert forall i :: 0 < i < |rows| ==> rows[i] == rows[1..][i - 1];
      }
    }
  }

  lemma PutFirst(accepts: Path -> bool, entries: map<Path, Attributes>, items: seq<Item>)
    requires items != [] && Distinct(items)
    ensures (if accepts(items[0].path) then entries[items[0].path := items[0].seen] else entries) + KidsOf(accepts, items[1..])
            == entries + KidsOf(accepts, items)
  {
    if accepts(items[0].path) {
      FirstIsNew(accepts, items);
      PutUnder(entries, KidsOf(accepts, items[1..]), items[0].path, items[0].seen);
    }
  }

  lemma FirstIsNew(accepts: Path -> bool, items: seq<Item>)
    requires items != [] && Distinct(items)
    ensures items[0].path !in KidsOf(accepts, items[1..])
  {
    KidsPaths(accepts, items[1..]);
    assert forall i :: 0 <= i < |items[1..]| ==> items[1..][i] == items[i + 1];
  }

  lemma PutUnder(entries: map<Path, Attributes>, kids: map<Path, Attributes>, p: Path, seen: Attributes)
    requires p !in kids
    ensures entries[p := seen] + kids == entries + kids[p := seen]
  {
  }

  lemma {:induction false} PutMany(accepts: Path -> bool, f: Flat, scope: Path, r: Result, items: seq<Item>)
    requires Distinct(items) && r.errors == []
    ensures PutItems(accepts, f, scope, r, items) == f.(entries := f.entries + KidsOf(accepts, items))
    decreases |items|
  {
    if items != [] {
      PutMany(accepts, if accepts(items[0].path) then With(f, items[0].path, items[0].seen) else f, scope, r, items[1..]);
      PutFirst(accepts, f.entries, items);
    } else {
      assert f.entries + map[] == f.entries;
    }
  }

  // ---------------------------------------------------------------- the two ways agree

  /** A full, error-free observation of an accepted scope: distinct direct children. */
  ghost predicate Clean(accepts: Path -> bool, scope: Path, items: seq<Item>) {
    accepts(scope) && Distinct(items) && forall i :: 0 <= i < |items| ==> Child(scope, items[i].path)
  }

  /** The children of the scope that the store holds. */
  function Held(f: Flat, scope: Path): set<Path> { set e | e in f.entries && Child(scope, e) }

  lemma CleanShaped(accepts: Path -> bool, f: Flat, scope: Path, items: seq<Item>)
    requires Clean(accepts, scope, items)
    ensures Shaped(f, scope, KidsOf(accepts, items), {}, map[]) && Kept(accepts, scope, KidsOf(accepts, items), items)
  {
    KidsPaths(accepts, items);
    forall i | 0 <= i < |items| && accepts(items[i].path) ensures KidsOf(accepts, items)[items[i].path] == items[i].seen {
      KidAt(accepts, items, i);
    }
  }

  lemma {:induction false} KidAt(accepts: Path -> bool, items: seq<Item>, i: nat)
    requires Distinct(items) && i < |items| && accepts(items[i].path)
    ensures items[i].path in KidsOf(accepts, items) && KidsOf(accepts, items)[items[i].path] == items[i].seen
    decreases |items|
  {
    if i > 0 {
      assert items[1..][i - 1] == items[i];
      KidAt(accepts, items[1..], i - 1);
    }
  }

  lemma ShapeStart(f: Flat, scope: Path, kids: Kids, protected: seq<Path>)
    ensures Shape(f, scope, kids, {}, map[], protected) == f
  {
    assert CutEntries(f, scope, kids, {}, protected) == {} && CutDirectories(f, scope, kids, {}, protected) == {};
    assert f.entries - {} + map[] == f.entries;
  }

  /** What a clean observation makes of the store: every child it held compared, every kid recorded. */
  function Outcome(accepts: Path -> bool, f: Flat, scope: Path, items: seq<Item>, protected: seq<Path>): Flat {
    var kids := KidsOf(accepts, items);
    Enumerated(Shape(f, scope, kids, Held(f, scope), kids, protected), scope)
  }

  lemma ReplaceAll(accepts: Path -> bool, f: Flat, scope: Path, rows: seq<Item>, r: Result, protected: seq<Path>)
    requires Clean(accepts, scope, r.items) && r.errors == [] && [] !in f.entries && ListsRows(f, scope, rows)
    ensures ReplaceRows(accepts, f, rows, r, protected)
            == Shape(f, scope, KidsOf(accepts, r.items), Held(f, scope), map[], protected)
  {
    CleanShaped(accepts, f, scope, r.items);
    ShapeStart(f, scope, KidsOf(accepts, r.items), protected);
    assert forall i :: 0 <= i < |rows| ==> Row(f, scope, rows[i]);
    ReplaceMany(accepts, f, scope, {}, rows, r, protected);
    assert {} + RowPaths(rows) == Held(f, scope);
  }

  lemma OneShot(accepts: Path -> bool, f: Flat, f': Flat, scope: Path, items: seq<Item>, protected: seq<Path>)
    requires Clean(accepts, scope, items) && [] !in f.entries
    requires Replaces(accepts, f, f', scope, Result(items, true, []), protected)
    ensures f' == Outcome(accepts, f, scope, items, protected)
  {
    var r := Result(items, true, []);
    var kids := KidsOf(accepts, items);
    var rows :| ListsRows(f, scope, rows) && f' == PutItems(accepts, Enumerated(ReplaceRows(accepts, f, rows, r, protected), scope), scope, r, items);
    ReplaceAll(accepts, f, scope, rows, r, protected);
    PutMany(accepts, Enumerated(Shape(f, scope, kids, Held(f, scope), map[], protected), scope), scope, r, items);
    PutAfter(f.entries - CutEntries(f, scope, kids, Held(f, scope), protected), kids);
  }

  lemma PutAfter(left: map<Path, Attributes>, kids: Kids)
    ensures left + map[] + kids == left + kids
  {
  }

  lemma StageAll(accepts: Path -> bool, f: Flat, scope: Path, items: seq<Item>, protected: seq<Path>)
    requires Clean(accepts, scope, items)
    ensures var kids := KidsOf(accepts, items);
            && StageItems(accepts, f, scope, items, protected) == Shape(f, scope, kids, kids.Keys, kids, protected)
            && Shaped(f, scope, kids, kids.Keys, kids)
  {
    var kids := KidsOf(accepts, items);
    CleanShaped(accepts, f, scope, items);
    ShapeStart(f, scope, kids, protected);
    var none: Kids := map[];
    assert none.Keys == {} && none + kids == kids;
    StageMany(accepts, f, scope, kids, none, items, protected);
  }

  lemma Chunked(accepts: Path -> bool, f: Flat, f': Flat, scope: Path, items: seq<Item>, protected: seq<Path>)
    requires Clean(accepts, scope, items) && [] !in f.entries
    requires Finishes(accepts, StageItems(accepts, f, scope, items, protected), f', scope, Result([], true, []),
                      StagedPaths(accepts, scope, items), protected)
    ensures f' == Outcome(accepts, f, scope, items, protected)
  {
    var kids := KidsOf(accepts, items);
    StageAll(accepts, f, scope, items, protected);
    var g := StageItems(accepts, f, scope, items, protected);
    var order :| Lists(order, Candidates(g, scope, StagedPaths(accepts, scope, items))) && f' == PruneAll(Enumerated(g, scope), order, protected);
    Unseen(accepts, f, scope, items, protected);
    assert Elements(order) == Held(f, scope) - kids.Keys;
    PruneAbsent(f, scope, kids, kids.Keys, kids, order, protected);
    SameSets(f, scope, kids, kids.Keys + Elements(order), Held(f, scope), protected);
  }

  lemma Unseen(accepts: Path -> bool, f: Flat, scope: Path, items: seq<Item>, protected: seq<Path>)
    requires Clean(accepts, scope, items) && [] !in f.entries
    ensures var kids := KidsOf(accepts, items);
            Candidates(Shape(f, scope, kids, kids.Keys, kids, protected), scope, StagedPaths(accepts, scope, items))
            == Held(f, scope) - kids.Keys
  {
    var kids := KidsOf(accepts, items);
    KidsPaths(accepts, items);
    forall e | e in f.entries && Parent(e) == scope && e !in kids
      ensures !Cut(f, scope, kids, kids.Keys, protected, e)
    {
      ChildToward(scope, e, e);
    }
  }

  /** Any split of a clean observation into chunks leaves the entries and directories of one replacement
      of the whole, whatever the orders in which rows are visited. */
  lemma ChunkingRefinesReplacement(accepts: Path -> bool, f: Flat, scope: Path, chunks: seq<seq<Item>>, protected: seq<Path>,
                                   whole: Flat, parts: Flat)
    requires Clean(accepts, scope, Flatten(chunks)) && [] !in f.entries
    requires Replaces(accepts, f, whole, scope, Result(Flatten(chunks), true, []), protected)
    requires Finishes(accepts, StageChunks(accepts, f, scope, chunks, protected), parts, scope, Result([], true, []),
                      StagedPaths(accepts, scope, Flatten(chunks)), protected)
    ensures whole == parts
  {
    ChunksAppend(accepts, f, scope, chunks, protected);
    OneShot(accepts, f, whole, scope, Flatten(chunks), protected);
    Chunked(accepts, f, parts, scope, Flatten(chunks), protected);
  }

  /** Was another object positively seen in place of the directory that leads to `e`? */
  predicate SeenSupplanted(f: Flat, scope: Path, kids: Kids, protected: seq<Path>, e: Path) {
    scope < e &&
    (var c := Toward(scope, e);
     c in kids && c in f.entries && Replaced(f.entries[c], kids[c]) && c < e && !Preserved(c, protected) && !Preserved(e, protected))
  }

  /** Before the last chunk nothing is lost for being absent: entries go only below a directory in
      whose place another object was seen. */
  lemma NothingLostOnAbsence(accepts: Path -> bool, f: Flat, scope: Path, chunks: seq<seq<Item>>, protected: seq<Path>, e: Path)
    requires Clean(accepts, scope, Flatten(chunks)) && e in f.entries
    ensures var kids := KidsOf(accepts, Flatten(chunks));
            e in StageChunks(accepts, f, scope, chunks, protected).entries <==> !SeenSupplanted(f, scope, kids, protected, e)
  {
    var kids := KidsOf(accepts, Flatten(chunks));
    ChunksAppend(accepts, f, scope, chunks, protected);
    StageAll(accepts, f, scope, Flatten(chunks), protected);
    if Child(scope, e) {
      ChildToward(scope, e, e);
    }
  }

  // ---------------------------------------------------------------- the recording methods

  ghost predicate AllParsed(paths: seq<Path>) { forall i :: 0 <= i < |paths| ==> Parsed(paths[i]) }

  ghost predicate ItemsParsed(items: seq<Item>) { forall i :: 0 <= i < |items| ==> Parsed(items[i].path) }

  ghost predicate Stocked(f: Flat) { forall e :: e in f.entries ==> Parsed(e) }

  /** The receipts of chunked scans, `scan_runs` and `scan_seen`, beside the store. */
  class Recorder {
    const store: Store
    const accepts: Path -> bool
    var runs: map<Path, string>
    var seen: map<Path, set<Path>>

    constructor (store: Store, accepts: Path -> bool)
      ensures this.store == store && this.accepts == accepts && runs == map[] && seen == map[]
    {
      this.store, this.accepts := store, accepts;
      runs, seen := map[], map[];
    }

    ghost predicate Valid() reads this, store { store.Valid() && Stocked(store.Contents()) }

    function SeenBy(scope: Path): set<Path> reads `seen { if scope in seen then seen[scope] else {} }

    method ClearScan(scope: Path)
      modifies `runs, `seen
      ensures runs == old(runs) - {scope} && seen == old(seen) - {scope}
    {
      runs, seen := runs - {scope}, seen - {scope};
    }

    method ProtectRoots(nested: seq<Path>, missing: set<Path>) returns (protected: seq<Path>)
      requires Valid() && AllParsed(nested)
      modifies store
      ensures Valid() && store.Contents() == PruneMissing(old(store.Contents()), nested, missing)
      ensures protected == Protected(nested, missing) && AllParsed(protected)
    {
      protected := [];
      for i := 0 to |nested|
        invariant Valid() && AllParsed(protected)
        invariant PruneMissing(store.Contents(), nested[i..], missing) == PruneMissing(old(store.Contents()), nested, missing)
        invariant protected + Protected(nested[i..], missing) == Protected(nested, missing)
      {
        assert nested[i..][1..] == nested[i + 1..];
        if nested[i] in missing {
          store.Prune(nested[i], true, []);
        } else {
          protected := protected + [nested[i]];
        }
      }
    }

    method Displace(was: Attributes, item: Item, protected: seq<Path>)
      requires Valid() && Parsed(item.path) && AllParsed(protected)
      modifies store
      ensures Valid() && store.Contents() == Supplant(old(store.Contents()), was, item, protected)
    {
      if Replaced(was, item.seen) {
        store.Prune(item.path, false, protected);
        store.directories := store.directories - {item.path};
      }
    }

    method StageOne(scope: Path, item: Item, protected: seq<Path>)
      requires Valid() && Parsed(item.path) && AllParsed(protected)
      modifies store
      ensures Valid() && store.Contents() == StageItem(accepts, old(store.Contents()), scope, item, protected)
    {
      if Parent(item.path) == scope && accepts(item.path) {
        var was := store.Find(item.path);
        if was.Some? {
          Displace(was.value, item, protected);
        }
        store.ObserveEntry(item.path, item.seen);
      }
    }

    /** One chunk: a new scan id drops what an earlier scan of the scope had seen. */
    method StageScan(scope: Path, id: string, items: seq<Item>, nested: seq<Path>, missing: set<Path>)
      requires Valid() && ItemsParsed(items) && AllParsed(nested)
      modifies this, store
      ensures Valid() && runs == old(runs)[scope := id]
      ensures store.Contents() == StageItems(accepts, PruneMissing(old(store.Contents()), nested, missing), scope, items, Protected(nested, missing))
      ensures SeenBy(scope) == StagedPaths(accepts, scope, items)
                               + if scope in old(runs) && old(runs)[scope] == id then old(SeenBy(scope)) else {}
      ensures forall other :: other != scope ==> SeenBy(other) == old(SeenBy(other))
    {
      NewScan(scope, id);
      var protected := ProtectRoots(nested, missing);
      StageList(scope, items, protected);
    }

    method NewScan(scope: Path, id: string)
      modifies `runs, `seen
      ensures runs == old(runs)[scope := id]
      ensures SeenBy(scope) == if scope in old(runs) && old(runs)[scope] == id then old(SeenBy(scope)) else {}
      ensures forall other :: other != scope ==> SeenBy(other) == old(SeenBy(other))
    {
      if !(scope in runs && runs[scope] == id) {
        ClearScan(scope);
        runs := runs[scope := id];
      }
    }

    method StageSeen(scope: Path, item: Item, protected: seq<Path>)
      requires Valid() && Parsed(item.path) && AllParsed(protected)
      modifies this`seen, store
      ensures Valid() && store.Contents() == StageItem(accepts, old(store.Contents()), scope, item, protected)
      ensures SeenBy(scope) == old(SeenBy(scope)) + if Staged(accepts, scope, item) then {item.path} else {}
      ensures forall other :: other != scope ==> SeenBy(other) == old(SeenBy(other))
    {
      StageOne(scope, item, protected);
      if Staged(accepts, scope, item) {
        seen := seen[scope := SeenBy(scope) + {item.path}];
      }
    }

    method StageList(scope: Path, items: seq<Item>, protected: seq<Path>)
      requires Valid() && ItemsParsed(items) && AllParsed(protected)
      modifies this`seen, store
      ensures Valid() && store.Contents() == StageItems(accepts, old(store.Contents()), scope, items, protected)
      ensures SeenBy(scope) == old(SeenBy(scope)) + StagedPaths(accepts, scope, items)
      ensures forall other :: other != scope ==> SeenBy(other) == old(SeenBy(other))
    {
      for i := 0 to |items|
        invariant Valid()
        invariant StageItems(accepts, store.Contents(), scope, items[i..], protected)
                  == StageItems(accepts, old(store.Contents()), scope, items, protected)
        invariant SeenBy(scope) == old(SeenBy(scope)) + StagedPaths(accepts, scope, items[..i])
        invariant forall other :: other != scope ==> SeenBy(other) == old(SeenBy(other))
      {
        StagedMore(accepts, scope, items, i);
        StageNext(scope, items, i, protected);
      }
      assert items[..|items|] == items;
    }

    method StageNext(scope: Path, items: seq<Item>, i: nat, protected: seq<Path>)
      requires Valid() && i < |items| && ItemsParsed(items) && AllParsed(protected)
      modifies this`seen, store
      ensures Valid()
      ensures StageItems(accepts, store.Contents(), scope, items[i + 1..], protected)
              == StageItems(accepts, old(store.Contents()), scope, items[i..], protected)
      ensures SeenBy(scope) == old(SeenBy(scope)) + if Staged(accepts, scope, items[i]) then {items[i].path} else {}
      ensures forall other :: other != scope ==> SeenBy(other) == old(SeenBy(other))
    {
      assert items[i..][1..] == items[i + 1..];
      StageSeen(scope, items[i], protected);
    }

    /** Prunes what an enumerated scope no longer lists, once everything listed was staged. */
    method FinishScan(scope: Path, r: Result, nested: seq<Path>, missing: set<Path>)
      requires Valid() && AllParsed(nested)
      modifies store
      ensures Valid()
      ensures if r.errors != [] then store.Contents() == old(store.Contents())
              else Finishes(accepts, PruneMissing(old(store.Contents()), nested, missing), store.Contents(), scope, r,
                            SeenBy(scope), Protected(nested, missing))
      ensures var f := if r.errors != [] then old(store.Contents()) else PruneMissing(old(store.Contents()), nested, missing);
              forall e :: FinishIs(accepts, f, store.Contents(), scope, r, SeenBy(scope), Protected(nested, missing), e)
    {
      if r.errors != [] {
        return;
      }
      var protected := ProtectRoots(nested, missing);
      ghost var start := store.Contents();
      if r.enumerated && accepts(scope) {
        PruneUnseen(scope, protected);
      }
      forall e ensures FinishIs(accepts, start, store.Contents(), scope, r, SeenBy(scope), protected, e) {
        FinishedExactly(accepts, start, store.Contents(), scope, r, SeenBy(scope), protected, e);
      }
    }

    method PruneUnseen(scope: Path, protected: seq<Path>)
      requires Valid() && AllParsed(protected)
      modifies store
      ensures Valid()
      ensures exists order :: && Lists(order, Candidates(old(store.Contents()), scope, SeenBy(scope)))
                              && store.Contents() == PruneAll(Enumerated(old(store.Contents()), scope), order, protected)
    {
      ghost var start := store.Contents();
      var order := Unlisted(scope, SeenBy(scope));
      store.directories := store.directories + {scope};
      for i := 0 to |order|
        invariant Valid()
        invariant PruneAll(store.Contents(), order[i..], protected) == PruneAll(Enumerated(start, scope), order, protected)
      {
        assert order[i..][1..] == order[i + 1..];
        store.Prune(order[i], true, protected);
      }
    }

    /** The candidates of the negative inference, in some order. */
    method Unlisted(scope: Path, listed: set<Path>) returns (order: seq<Path>)
      requires Valid()
      ensures Lists(order, Candidates(store.Contents(), scope, listed)) && AllParsed(order)
    {
      var found := ChildEntries(store.Tables(), scope);
      ChildEntriesAre(store.Tables(), scope);
      order := InSomeOrder(found.Keys - listed);
      assert Elements(order) == Candidates(store.Contents(), scope, listed);
      assert forall i :: 0 <= i < |order| ==> order[i] in Elements(order);
    }

    /** The rows of the scope, in some order. */
    method Rows(scope: Path) returns (rows: seq<Item>)
      requires Valid()
      ensures ListsRows(store.Contents(), scope, rows)
    {
      var found := ChildEntries(store.Tables(), scope);
      ChildEntriesAre(store.Tables(), scope);
      var order := InSomeOrder(found.Keys);
      assert forall i :: 0 <= i < |order| ==> order[i] in Elements(order);
      rows := RowsOf(found, order);
      RowsListed(store.Contents(), scope, found, order);
    }

    /** One whole observation. */
    method Replace(scope: Path, r: Result, nested: seq<Path>, missing: set<Path>)
      requires Valid() && Parsed(scope) && ItemsParsed(r.items) && AllParsed(nested)
      modifies store
      ensures Valid()
      ensures Replaces(accepts, PruneMissing(old(store.Contents()), nested, missing), store.Contents(), scope, r, Protected(nested, missing))
      ensures var f := PruneMissing(old(store.Contents()), nested, missing);
              forall e :: && EntryIs(accepts, f, store.Contents(), scope, r, Protected(nested, missing), e)
                          && DirectoryIs(accepts, f, store.Contents(), scope, r, Protected(nested, missing), e)
    {
      var protected := ProtectRoots(nested, missing);
      ghost var start := store.Contents();
      if !r.enumerated && r.errors == [] {
        store.Prune(scope, true, protected);
      }
      ghost var f1, rows: seq<Item> := store.Contents(), [];
      if r.enumerated && accepts(scope) {
        rows := CompareRows(scope, r, protected);
        store.directories := store.directories + {scope};
      }
      PutAll(scope, r);
      forall e ensures && EntryIs(accepts, start, store.Contents(), scope, r, protected, e)
                       && DirectoryIs(accepts, start, store.Contents(), scope, r, protected, e)
      {
        ReplacedExactly(accepts, start, store.Contents(), scope, r, protected, e);
      }
    }

    method CompareRows(scope: Path, r: Result, protected: seq<Path>) returns (rows: seq<Item>)
      requires Valid() && AllParsed(protected)
      modifies store
      ensures Valid() && ListsRows(old(store.Contents()), scope, rows)
      ensures store.Contents() == ReplaceRows(accepts, old(store.Contents()), rows, r, protected)
    {
      rows := Rows(scope);
      ghost var start := store.Contents();
      for i := 0 to |rows|
        invariant Valid()
        invariant ReplaceRows(accepts, store.Contents(), rows[i..], r, protected) == ReplaceRows(accepts, start, rows, r, protected)
      {
        assert rows[i..][1..] == rows[i + 1..];
        assert Row(start, scope, rows[i]);
        if !Related(r.errors, rows[i].path) {
          var child := Latest(accepts, r.items, rows[i].path);
          if child.None? {
            store.Prune(rows[i].path, true, protected);
          } else {
            Displace(rows[i].seen, Item(rows[i].path, child.value), protected);
          }
        }
      }
    }

    method PutAll(scope: Path, r: Result)
      requires Valid() && ItemsParsed(r.items)
      modifies store
      ensures Valid() && store.Contents() == PutItems(accepts, old(store.Contents()), scope, r, r.items)
    {
      for i := 0 to |r.items|
        invariant Valid()
        invariant PutItems(accepts, store.Contents(), scope, r, r.items[i..]) == PutItems(accepts, old(store.Contents()), scope, r, r.items)
      {
        assert r.items[i..][1..] == r.items[i + 1..];
        if Recorded(accepts, scope, r, r.items[i]) {
          store.ObserveEntry(r.items[i].path, r.items[i].seen);
        }
      }
    }
  }

  /** SELECT path and attributes FROM entries WHERE parent = scope. */
  function ChildEntries(c: Compact, scope: Path): map<Path, Attributes>
    requires c.Sound()
  {
    ChildKeys(c);
    map k | k in c.data && Parent(c.Spot(k)) == scope :: c.Spot(k) := c.data[k]
  }

  lemma ChildEntriesAre(c: Compact, scope: Path)
    requires c.Sound()
    ensures ChildEntries(c, scope) == map e | e in c.View() && Parent(e) == scope :: c.View()[e]
  {
    ChildKeys(c);
    var found, view := ChildEntries(c, scope), c.View();
    forall e | e in view && Parent(e) == scope ensures e in found && found[e] == view[e] {
      var k :| c.At(k, e);
    }
    forall e | e in found ensures e in view && Parent(e) == scope {
      var k :| k in c.data && c.Spot(k) == e;
    }
  }

  lemma ChildKeys(c: Compact)
    requires c.Sound()
    ensures forall k :: k in c.data ==> c.Placed(k)
    ensures forall k, l :: k in c.data && l in c.data && c.Spot(k) == c.Spot(l) ==> k == l
    ensures forall e :: e in c.View() ==> exists k :: c.At(k, e)
  {
    forall k | k in c.data ensures c.Placed(k) { }
    forall k, l | k in c.data && l in c.data && c.Spot(k) == c.Spot(l) ensures k == l { c.SpotIsUnique(k, l); }
    forall e | e in c.View() ensures exists k :: c.At(k, e) { assert c.Stored(e); }
  }

  function RowsOf(found: map<Path, Attributes>, order: seq<Path>): seq<Item>
    requires forall i :: 0 <= i < |order| ==> order[i] in found
  {
    seq(|order|, i requires 0 <= i < |order| => Item(order[i], found[order[i]]))
  }

  lemma RowsListed(f: Flat, scope: Path, found: map<Path, Attributes>, order: seq<Path>)
    requires found == map e | e in f.entries && Parent(e) == scope :: f.entries[e]
    requires Lists(order, found.Keys) && forall i :: 0 <= i < |order| ==> order[i] in found
    ensures ListsRows(f, scope, RowsOf(found, order))
  {
    forall e | e in f.entries && Parent(e) == scope ensures exists i :: 0 <= i < |RowsOf(found, order)| && RowsOf(found, order)[i].path == e {
      assert e in Elements(order);
      var i :| 0 <= i < |order| && order[i] == e;
      assert RowsOf(found, order)[i].path == e;
    }
  }

  method InSomeOrder(all: set<Path>) returns (order: seq<Path>)
    ensures Lists(order, all)
  {
    order := [];
    var rest := all;
    while rest != {}
      invariant rest <= all && Elements(order) == all - rest
      invariant forall i :: 0 <= i < |order| ==> order[i] in Elements(order)
      invariant forall i, j :: 0 <= i < j < |order| ==> order[i] != order[j]
      decreases |rest|
    {
      var p :| p in rest;
      assert Elements(order + [p]) == Elements(order) + {p};
      rest, order := rest - {p}, order + [p];
    }
  }

  lemma StagedMore(accepts: Path -> bool, scope: Path, items: seq<Item>, i: nat)
    requires i < |items|
    ensures StagedPaths(accepts, scope, items[..i + 1])
            == StagedPaths(accepts, scope, items[..i]) + if Staged(accepts, scope, items[i]) then {items[i].path} else {}
  {
    assert forall j :: 0 <= j < i ==> items[..i + 1][j] == items[..i][j];
    assert items[..i + 1][i] == items[i];
    forall p | p in StagedPaths(accepts, scope, items[..i])
      ensures p in StagedPaths(accepts, scope, items[..i + 1])
    {
      var j :| 0 <= j < |items[..i]| && Staged(accepts, scope, items[..i][j]) && items[..i][j].path == p;
      assert items[..i + 1][j] == items[..i][j];
    }
  }

  // ---------------------------------------------------------------- both ways through the recorder

  lemma {:induction false} NoneMissing(f: Flat, nested: seq<Path>)
    ensures PruneMissing(f, nested, {}) == f && Protected(nested, {}) == nested
    decreases |nested|
  {
    if nested != [] {
      NoneMissing(f, nested[1..]);
    }
  }

  lemma FlattenNext(accepts: Path -> bool, scope: Path, chunks: seq<seq<Item>>, i: nat)
    requires i < |chunks|
    ensures StagedPaths(accepts, scope, Flatten(chunks[..i + 1]))
            == StagedPaths(accepts, scope, Flatten(chunks[..i])) + StagedPaths(accepts, scope, chunks[i])
  {
    assert chunks[..i + 1] == chunks[..i] + [chunks[i]];
    FlattenSnoc(chunks[..i], chunks[i]);
    StagedAppend(accepts, scope, Flatten(chunks[..i]), chunks[i]);
  }

  lemma {:induction false} FlattenSnoc(chunks: seq<seq<Item>>, last: seq<Item>)
    ensures Flatten(chunks + [last]) == Flatten(chunks) + last
    decreases |chunks|
  {
    if chunks == [] {
      assert chunks + [last] == [last];
    } else {
      assert (chunks + [last])[1..] == chunks[1..] + [last];
      FlattenSnoc(chunks[1..], last);
    }
  }

  lemma StagedAppend(accepts: Path -> bool, scope: Path, a: seq<Item>, b: seq<Item>)
    ensures StagedPaths(accepts, scope, a + b) == StagedPaths(accepts, scope, a) + StagedPaths(accepts, scope, b)
  {
    assert forall i :: 0 <= i < |a| ==> (a + b)[i] == a[i];
    assert forall i :: 0 <= i < |b| ==> (a + b)[|a| + i] == b[i];
    assert forall i :: |a| <= i < |a + b| ==> (a + b)[i] == b[i - |a|];
  }

  /** All chunks of one scan, none of them the last word. */
  method StageInChunks(recorder: Recorder, scope: Path, id: string, chunks: seq<seq<Item>>, nested: seq<Path>)
    requires recorder.Valid() && AllParsed(nested) && forall i :: 0 <= i < |chunks| ==> ItemsParsed(chunks[i])
    requires chunks != [] && !(scope in recorder.runs && recorder.runs[scope] == id)
    modifies recorder, recorder.store
    ensures recorder.Valid()
    ensures recorder.store.Contents() == StageItems(recorder.accepts, old(recorder.store.Contents()), scope, Flatten(chunks), nested)
    ensures recorder.SeenBy(scope) == StagedPaths(recorder.accepts, scope, Flatten(chunks))
  {
    ghost var start := recorder.store.Contents();
    for i := 0 to |chunks|
      invariant recorder.Valid()
      invariant StageChunks(recorder.accepts, recorder.store.Contents(), scope, chunks[i..], nested)
                == StageChunks(recorder.accepts, start, scope, chunks, nested)
      invariant i == 0 ==> recorder.runs == old(recorder.runs)
      invariant i > 0 ==> scope in recorder.runs && recorder.runs[scope] == id
      invariant i > 0 ==> recorder.SeenBy(scope) == StagedPaths(recorder.accepts, scope, Flatten(chunks[..i]))
    {
      assert chunks[i..][1..] == chunks[i + 1..];
      FlattenNext(recorder.accepts, scope, chunks, i);
      NoneMissing(recorder.store.Contents(), nested);
      recorder.StageScan(scope, id, chunks[i], nested, {});
    }
    assert chunks[..|chunks|] == chunks && chunks[|chunks|..] == [];
    ChunksAppend(recorder.accepts, start, scope, chunks, nested);
  }

  method ScanInChunks(recorder: Recorder, scope: Path, id: string, chunks: seq<seq<Item>>, nested: seq<Path>)
    requires recorder.Valid() && AllParsed(nested) && forall i :: 0 <= i < |chunks| ==> ItemsParsed(chunks[i])
    requires Clean(recorder.accepts, scope, Flatten(chunks)) && [] !in recorder.store.Contents().entries
    requires chunks != [] && !(scope in recorder.runs && recorder.runs[scope] == id)
    modifies recorder, recorder.store
    ensures recorder.Valid()
    ensures recorder.store.Contents() == Outcome(recorder.accepts, old(recorder.store.Contents()), scope, Flatten(chunks), nested)
  {
    ghost var start := recorder.store.Contents();
    StageInChunks(recorder, scope, id, chunks, nested);
    NoneMissing(recorder.store.Contents(), nested);
    recorder.FinishScan(scope, Result([], true, []), nested, {});
    Chunked(recorder.accepts, start, recorder.store.Contents(), scope, Flatten(chunks), nested);
  }
}
