/** Conversion between the legacy `entries` table and the compact tables, both ways, over path
    texts: what is accepted is carried over without changing a spelling. */
module Migration {
  import opened Paths
  import opened EntryStore

  /** `path` is a nullable text primary key. */
  datatype LegacyRow = LegacyRow(path: Option<string>, parent: string, seen: Attributes)

  datatype Interned = Interned(parents: map<Id, string>, data: map<EntryKey, Attributes>)

  /** What the name `entries` is in the schema. */
  datatype Schema = Absent | Table(rows: set<LegacyRow>) | View(revision: Option<string>, interned: Interned) | Other

  datatype Outcome = Changed | Kept | Refused

  function Separator(parent: string): string { if parent == "/" then "" else "/" }

  function Spelled(parent: string, name: string): string { parent + Separator(parent) + name }

  /** substr(text, 1, n), and substr from position n + 1. */
  function Left(text: string, n: nat): string { if n <= |text| then text[..n] else text }
  function From(text: string, n: nat): string { if n <= |text| then text[n..] else "" }

  /** The migration's test for rows it cannot reconstruct. */
  predicate Invalid(row: LegacyRow) {
    row.path.None? ||
    (var path := row.path.value;
     var n := |row.parent| + |Separator(row.parent)|;
     || Left(row.parent, 1) != "/"
     || Left(path, n) != row.parent + Separator(row.parent)
     || From(path, n) == ""
     || '/' in From(path, n))
  }

  predicate Name(name: string) { name != "" && '/' !in name }

  predicate Absolute(parent: string) { parent != "" && parent[0] == '/' }

  /** The row is the entry `name` of an absolute directory, spelled in the one way the view spells it. */
  predicate Spells(row: LegacyRow, name: string) {
    Absolute(row.parent) && Name(name) && row.path == Some(Spelled(row.parent, name))
  }

  /** The test rejects exactly the rows that are no such entry. */
  lemma InvalidExactly(row: LegacyRow)
    ensures !Invalid(row) <==> exists name :: Spells(row, name)
    ensures !Invalid(row) ==> Spells(row, NameOf(row))
  {
    if !Invalid(row) {
      var n := |row.parent| + |Separator(row.parent)|;
      assert row.path.value == Left(row.path.value, n) + From(row.path.value, n);
      assert Spells(row, NameOf(row));
    }
    if name :| Spells(row, name) {
      var n := |row.parent| + |Separator(row.parent)|;
      assert Left(row.path.value, n) == row.parent + Separator(row.parent);
      assert From(row.path.value, n) == name;
      assert Left(row.parent, 1) == "/";
    }
  }

  function NameOf(row: LegacyRow): string {
    if row.path.None? then "" else From(row.path.value, |row.parent| + |Separator(row.parent)|)
  }

  /** The primary key of the legacy table. */
  predicate Keyed(rows: set<LegacyRow>) {
    forall a, b :: a in rows && b in rows && a.path.Some? && a.path == b.path ==> a == b
  }

  // ---------------------------------------------------------------- the interned tables

  predicate Sole(t: Interned, i: Id, j: Id) { i in t.parents && j in t.parents && t.parents[i] == t.parents[j] ==> i == j }

  predicate Entry(t: Interned, k: EntryKey) { k in t.data ==> k.0 in t.parents && Absolute(t.parents[k.0]) && Name(k.1) }

  ghost predicate Sound(t: Interned) { (forall i, j :: Sole(t, i, j)) && (forall k :: Entry(t, k)) }

  function RowAt(t: Interned, k: EntryKey): LegacyRow
    requires k in t.data && k.0 in t.parents
  {
    LegacyRow(Some(Spelled(t.parents[k.0], k.1)), t.parents[k.0], t.data[k])
  }

  /** The rows of the view. */
  ghost function Rows(t: Interned): (rows: set<LegacyRow>)
    requires Sound(t)
    ensures forall k :: k in t.data ==> Entry(t, k) && RowAt(t, k) in rows
  {
    assert forall k :: k in t.data ==> Entry(t, k);
    set k | k in t.data :: RowAt(t, k)
  }

  lemma LastSlash(a: string, x: string)
    requires Name(x)
    ensures var s := a + "/" + x; s[|a|] == '/' && forall i :: |a| < i < |s| ==> s[i] != '/'
  {
    var s := a + "/" + x;
    assert forall i :: |a| < i < |s| ==> s[i] == x[i - |a| - 1];
  }

  lemma CutUnique(a: string, b: string, x: string, y: string)
    requires Name(x) && Name(y) && a + "/" + x == b + "/" + y
    ensures x == y && a == b
  {
    var s := a + "/" + x;
    LastSlash(a, x);
    LastSlash(b, y);
    assert s == b + "/" + y && |a| == |b|;
    assert a == s[..|a|] == b && x == s[|a| + 1..] == y;
  }

  function Stem(parent: string): string { if parent == "/" then "" else parent }

  /** A spelling determines its directory and its name. */
  lemma SpelledApart(a: string, b: string, x: string, y: string)
    requires Absolute(a) && Absolute(b) && Name(x) && Name(y) && Spelled(a, x) == Spelled(b, y)
    ensures a == b && x == y
  {
    assert Spelled(a, x) == Stem(a) + "/" + x;
    assert Spelled(b, y) == Stem(b) + "/" + y;
    CutUnique(Stem(a), Stem(b), x, y);
  }

  lemma RowsApart(t: Interned, k: EntryKey, l: EntryKey)
    requires Sound(t) && k in t.data && l in t.data && k.0 in t.parents && l.0 in t.parents
    requires RowAt(t, k).path == RowAt(t, l).path
    ensures k == l
  {
    assert Entry(t, k) && Entry(t, l);
    SpelledApart(t.parents[k.0], t.parents[l.0], k.1, l.1);
    assert Sole(t, k.0, l.0);
  }

  // ---------------------------------------------------------------- the conversions

  ghost predicate Represents(t: Interned, rows: set<LegacyRow>) { Sound(t) && Rows(t) == rows }

  /** Every interned prefix has an entry. */
  ghost predicate Tight(t: Interned) { forall i :: Carries(t, i) }

  ghost predicate Carries(t: Interned, i: Id) { i in t.parents ==> exists name :: (i, name) in t.data }

  ghost predicate Spelt(rows: set<LegacyRow>) { forall r :: r in rows ==> Spells(r, NameOf(r)) }

  ghost predicate ParentOfSome(rows: set<LegacyRow>, p: string) { exists r :: r in rows && r.parent == p }

  predicate Indexed(parents: map<Id, string>, ids: map<string, Id>, i: Id) {
    i in parents ==> parents[i] in ids && ids[parents[i]] == i
  }

  /** Each distinct parent has its own id. */
  ghost predicate Numbered(rows: set<LegacyRow>, parents: map<Id, string>, ids: map<string, Id>) {
    && (forall p :: ParentOfSome(rows, p) ==> p in ids)
    && (forall p :: p in ids ==> ids[p] in parents && parents[ids[p]] == p)
    && (forall p :: p in ids ==> ParentOfSome(rows, p))
    && (forall i :: Indexed(parents, ids, i))
  }

  predicate KeyOf(ids: map<string, Id>, k: EntryKey, r: LegacyRow) { r.parent in ids && k == (ids[r.parent], NameOf(r)) }

  predicate Held(ids: map<string, Id>, data: map<EntryKey, Attributes>, r: LegacyRow) {
    r.parent in ids && (ids[r.parent], NameOf(r)) in data && data[(ids[r.parent], NameOf(r))] == r.seen
  }

  ghost predicate FromRow(rows: set<LegacyRow>, ids: map<string, Id>, k: EntryKey) { exists r :: r in rows && KeyOf(ids, k, r) }

  /** Each row is one entry, and each entry one row. */
  ghost predicate Copied(rows: set<LegacyRow>, ids: map<string, Id>, data: map<EntryKey, Attributes>) {
    && (forall r :: r in rows ==> Held(ids, data, r))
    && (forall k :: k in data ==> FromRow(rows, ids, k))
  }

  lemma Source(rows: set<LegacyRow>, ids: map<string, Id>, data: map<EntryKey, Attributes>, k: EntryKey) returns (r: LegacyRow)
    requires Copied(rows, ids, data) && k in data
    ensures r in rows && KeyOf(ids, k, r) && data[k] == r.seen
  {
    assert FromRow(rows, ids, k);
    r :| r in rows && KeyOf(ids, k, r);
    assert Held(ids, data, r);
  }

  lemma SameKeySameRow(rows: set<LegacyRow>, ids: map<string, Id>, k: EntryKey, q: LegacyRow, r: LegacyRow)
    requires Keyed(rows) && Spelt(rows) && q in rows && r in rows && KeyOf(ids, k, q) && KeyOf(ids, k, r)
    requires OneToOne(ids)
    ensures q == r
  {
    assert Spells(q, NameOf(q)) && Spells(r, NameOf(r));
  }

  predicate OneToOne(ids: map<string, Id>) { forall p, q :: p in ids && q in ids && ids[p] == ids[q] ==> p == q }

  lemma NotHeldYet(rows: set<LegacyRow>, rest: set<LegacyRow>, ids: map<string, Id>, data: map<EntryKey, Attributes>, r: LegacyRow)
    requires Keyed(rows) && Spelt(rows) && OneToOne(ids) && Copied(rows - rest, ids, data)
    requires r in rest && r in rows && r.parent in ids
    ensures (ids[r.parent], NameOf(r)) !in data
  {
    var k := (ids[r.parent], NameOf(r));
    if k in data {
      var q := Source(rows - rest, ids, data, k);
      SameKeySameRow(rows, ids, k, q, r);
    }
  }

  lemma CopiedOne(rows: set<LegacyRow>, ids: map<string, Id>, data: map<EntryKey, Attributes>, r: LegacyRow)
    requires Copied(rows, ids, data) && r.parent in ids && (ids[r.parent], NameOf(r)) !in data
    ensures Copied(rows + {r}, ids, data[(ids[r.parent], NameOf(r)) := r.seen])
  {
    var k := (ids[r.parent], NameOf(r));
    var data' := data[k := r.seen];
    forall q | q in rows + {r} ensures Held(ids, data', q) {
      assert q in rows ==> Held(ids, data, q);
    }
    forall l | l in data' ensures FromRow(rows + {r}, ids, l) {
      if l == k {
        assert KeyOf(ids, k, r);
      } else {
        var q := Source(rows, ids, data, l);
      }
    }
  }

  lemma CopiedNext(rows: set<LegacyRow>, rest: set<LegacyRow>, ids: map<string, Id>, data: map<EntryKey, Attributes>, r: LegacyRow)
    requires rest <= rows && r in rest && Copied(rows - rest, ids, data)
    requires r.parent in ids && (ids[r.parent], NameOf(r)) !in data
    ensures Copied(rows - (rest - {r}), ids, data[(ids[r.parent], NameOf(r)) := r.seen])
    ensures |data[(ids[r.parent], NameOf(r)) := r.seen]| == |data| + 1 && |rest - {r}| == |rest| - 1
  {
    CopiedOne(rows - rest, ids, data, r);
    assert rows - (rest - {r}) == rows - rest + {r};
    var k := (ids[r.parent], NameOf(r));
    assert data[k := r.seen].Keys == data.Keys + {k};
  }

  class Database {
    var schema: Schema
    var compacting: bool   // the marker that page reclamation is pending

    constructor (schema: Schema)
      ensures this.schema == schema && !compacting
    {
      this.schema := schema;
      compacting := false;
    }

    static method Number(rows: set<LegacyRow>) returns (parents: map<Id, string>, ids: map<string, Id>)
      ensures Numbered(rows, parents, ids)
    {
      parents, ids := map[], map[];
      var rest, next := (set r | r in rows :: r.parent), 0;
      ghost var all := rest;
      while rest != {}
        invariant rest <= all && rest !! ids.Keys && ids.Keys + rest == all
        invariant Numbering(parents, ids, next)
        decreases |rest|
      {
        var p :| p in rest;
        NumberingNext(parents, ids, next, p);
        rest := rest - {p};
        parents, ids := parents[next := p], ids[p := next];
        next := next + 1;
      }
    }

    /** The ids below `next` number the names one to one. */
    static ghost predicate Numbering(parents: map<Id, string>, ids: map<string, Id>, next: Id) {
      && (forall i :: i in parents ==> i < next)
      && (forall i :: Indexed(parents, ids, i))
      && (forall p :: p in ids ==> ids[p] in parents && parents[ids[p]] == p)
    }

    static lemma NumberingNext(parents: map<Id, string>, ids: map<string, Id>, next: Id, p: string)
      requires Numbering(parents, ids, next) && p !in ids
      ensures Numbering(parents[next := p], ids[p := next], next + 1)
    {
      var more, named := parents[next := p], ids[p := next];
      forall i ensures Indexed(more, named, i) { assert Indexed(parents, ids, i); }
    }

    static method Copy(rows: set<LegacyRow>, ids: map<string, Id>) returns (data: map<EntryKey, Attributes>)
      requires Keyed(rows) && Spelt(rows) && forall r :: r in rows ==> r.parent in ids
      requires OneToOne(ids)
      ensures |data| == |rows| && Copied(rows, ids, data)
    {
      data := map[];
      var rest := rows;
      while rest != {}
        invariant rest <= rows && |data| + |rest| == |rows| && Copied(rows - rest, ids, data)
        decreases |rest|
      {
        var r :| r in rest;
        var k := (ids[r.parent], NameOf(r));
        NotHeldYet(rows, rest, ids, data, r);
        CopiedNext(rows, rest, ids, data, r);
        rest := rest - {r};
        data := data[k := r.seen];
      }
      assert rows - {} == rows;
    }

    static method Compact(rows: set<LegacyRow>) returns (t: Option<Interned>)
      requires Keyed(rows)
      ensures t.Some? <==> forall r :: r in rows ==> !Invalid(r)
      ensures t.Some? ==> Represents(t.value, rows) && Tight(t.value)
    {
      if exists r :: r in rows && Invalid(r) {
        return None;
      }
      forall r | r in rows ensures Spells(r, NameOf(r)) { InvalidExactly(r); }
      var parents, ids := Number(rows);
      assert forall r :: r in rows ==> ParentOfSome(rows, r.parent);
      var data := Copy(rows, ids);
      // The entries are counted against the rows; they are as many, so this branch is never taken.
      if |data| != |rows| {
        return None;
      }
      CopySound(rows, Interned(parents, data), ids);
      CopyRepresents(rows, Interned(parents, data), ids);
      return Some(Interned(parents, data));
    }

    /** `initialize_entry_storage`, in the caller's transaction: an error changes nothing. */
    method Initialize() returns (outcome: Outcome)
      requires schema.Table? ==> Keyed(schema.rows)
      modifies this
      ensures outcome != Changed ==> schema == old(schema) && compacting == old(compacting)
      ensures match old(schema)
              case Absent => outcome == Changed && schema == View(Some("1"), Interned(map[], map[])) && compacting == old(compacting)
              case Table(rows) =>
                && (outcome == Changed <==> forall r :: r in rows ==> exists name :: Spells(r, name))
                && (outcome == Changed ==> compacting && schema.View? && schema.revision == Some("1")
                                           && Represents(schema.interned, rows) && Tight(schema.interned))
              case View(revision, _) => outcome == if revision == Some("1") then Kept else Refused
              case Other => outcome == Refused
    {
      match schema
      case View(revision, _) => outcome := if revision == Some("1") then Kept else Refused;
      case Other => outcome := Refused;
      case Absent =>
        schema := View(Some("1"), Interned(map[], map[]));
        outcome := Changed;
      case Table(rows) =>
        forall r | r in rows ensures !Invalid(r) <==> exists name :: Spells(r, name) { InvalidExactly(r); }
        var t := Compact(rows);
        if t.None? {
          return Refused;
        }
        schema := View(Some("1"), t.value);
        compacting := true;
        outcome := Changed;
    }

    /** The rows of the view, each under its own path. */
    static method Reassemble(t: Interned) returns (rows: set<LegacyRow>)
      requires Sound(t)
      ensures rows == Rows(t) && |rows| == |t.data| && Keyed(rows)
    {
      assert forall k :: k in t.data ==> Entry(t, k);
      rows := set k | k in t.data :: RowAt(t, k);
      RowsCounted(t, t.data.Keys);
      RowsKeyed(t);
    }

    /** `restore_legacy_storage`, in one transaction. */
    method Restore() returns (outcome: Outcome)
      requires schema.View? ==> Sound(schema.interned)
      modifies this
      ensures outcome != Changed ==> schema == old(schema) && compacting == old(compacting)
      ensures match old(schema)
              case Absent => outcome == Kept
              case Table(_) => outcome == Kept
              case View(revision, t) =>
                if revision == Some("1") then outcome == Changed && schema == Table(Rows(t)) && !compacting && Keyed(Rows(t))
                else outcome == Refused
              case Other => outcome == Refused
    {
      match schema
      case Absent => outcome := Kept;
      case Table(_) => outcome := Kept;
      case Other => outcome := Refused;
      case View(revision, t) =>
        if revision != Some("1") {
          return Refused;
        }
        var rows := Reassemble(t);
        // No two entries share a path: this branch is never taken.
        if |t.data| != |rows| {
          return Refused;
        }
        schema := Table(rows);
        compacting := false;
        outcome := Changed;
    }
  }

  lemma CopySound(rows: set<LegacyRow>, t: Interned, ids: map<string, Id>)
    requires Numbered(rows, t.parents, ids) && Copied(rows, ids, t.data) && Spelt(rows)
    ensures Sound(t) && Tight(t)
  {
    forall i, j ensures Sole(t, i, j) { assert Indexed(t.parents, ids, i) && Indexed(t.parents, ids, j); }
    forall k ensures Entry(t, k) {
      if k in t.data {
        var r := Source(rows, ids, t.data, k);
        assert Spells(r, NameOf(r));
      }
    }
    forall i ensures Carries(t, i) {
      assert Indexed(t.parents, ids, i);
      if i in t.parents {
        assert ParentOfSome(rows, t.parents[i]);
        var r :| r in rows && r.parent == t.parents[i];
        assert Held(ids, t.data, r);
        assert (i, NameOf(r)) in t.data;
      }
    }
  }

  lemma CopyRepresents(rows: set<LegacyRow>, t: Interned, ids: map<string, Id>)
    requires Numbered(rows, t.parents, ids) && Copied(rows, ids, t.data) && Spelt(rows) && Sound(t)
    ensures Represents(t, rows)
  {
    forall r | r in rows ensures r in Rows(t) {
      assert Held(ids, t.data, r) && Spells(r, NameOf(r));
      assert RowAt(t, (ids[r.parent], NameOf(r))) == r;
    }
    forall r | r in Rows(t) ensures r in rows {
      var k :| k in t.data && k.0 in t.parents && RowAt(t, k) == r;
      var q := Source(rows, ids, t.data, k);
      assert Spells(q, NameOf(q)) && RowAt(t, k) == q;
    }
  }

  lemma {:induction false} RowsCounted(t: Interned, keys: set<EntryKey>)
    requires Sound(t) && keys <= t.data.Keys && forall k :: k in t.data ==> Entry(t, k)
    ensures |set k | k in keys :: RowAt(t, k)| == |keys|
    decreases |keys|
  {
    var rows := set k | k in keys :: RowAt(t, k);
    if keys != {} {
      var k :| k in keys;
      RowsCounted(t, keys - {k});
      var fewer := set l | l in keys - {k} :: RowAt(t, l);
      forall l | l in keys - {k} ensures RowAt(t, l) != RowAt(t, k) {
        if RowAt(t, l) == RowAt(t, k) { RowsApart(t, k, l); }
      }
      assert rows == fewer + {RowAt(t, k)};
    }
  }

  lemma RowsKeyed(t: Interned)
    requires Sound(t)
    ensures Keyed(Rows(t)) && forall r :: r in Rows(t) ==> !Invalid(r)
  {
    forall a, b | a in Rows(t) && b in Rows(t) && a.path.Some? && a.path == b.path ensures a == b {
      var k :| k in t.data && RowAt(t, k) == a;
      var l :| l in t.data && RowAt(t, l) == b;
      RowsApart(t, k, l);
    }
    forall r | r in Rows(t) ensures !Invalid(r) {
      var k :| k in t.data && RowAt(t, k) == r;
      assert Entry(t, k) && Spells(r, k.1);
      InvalidExactly(r);
    }
  }

  /** Compaction and then recovery give the very same legacy table back. */
  method RoundTrip(db: Database)
    requires db.schema.Table? && Keyed(db.schema.rows)
    requires forall r :: r in db.schema.rows ==> exists name :: Spells(r, name)
    modifies db
    ensures db.schema == old(db.schema) && !db.compacting
  {
    var there := db.Initialize();
    var back := db.Restore();
  }

  /** Recovery and then compaction show the same rows again, and every compact table can take the way. */
  method RoundTripBack(db: Database)
    requires db.schema.View? && db.schema.revision == Some("1") && Sound(db.schema.interned)
    modifies db
    ensures db.schema.View? && db.schema.revision == Some("1") && Represents(db.schema.interned, old(Rows(db.schema.interned)))
  {
    RowsKeyed(db.schema.interned);
    forall r | r in Rows(db.schema.interned) ensures exists name :: Spells(r, name) { InvalidExactly(r); }
    var there := db.Restore();
    var back := db.Initialize();
  }
}
