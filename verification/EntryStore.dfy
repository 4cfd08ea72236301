/** The compact entry store: directory prefixes interned once, entries keyed by parent id and name.
    It refines a flat map from paths to observations. */
module EntryStore {
  import opened Paths

  datatype Attributes = Attributes(kind: string, dev: nat, ino: nat, mtime: int, ctime: int, size: nat, mode: nat)

  /** What the store stands for: the `entries` view and the `directories` table. */
  datatype Flat = Flat(entries: map<Path, Attributes>, directories: set<Path>)

  function Base(path: Path): string {
    if path == [] then "" else path[|path| - 1]
  }

  /** The view's path of an entry; only the root directory has the empty name. */
  function Join(parent: Path, name: string): Path {
    if name == "" then parent else parent + [name]
  }

  /** A parsed path has no empty component. */
  predicate Parsed(path: Path) { forall i :: 0 <= i < |path| ==> path[i] != "" }

  predicate Proper(parent: Path, name: string) { name != "" || parent == [] }

  lemma JoinSplits(parent: Path, name: string)
    requires Proper(parent, name)
    ensures Parent(Join(parent, name)) == parent && Base(Join(parent, name)) == name
  {
  }

  lemma SplitJoins(path: Path)
    requires Parsed(path)
    ensures Proper(Parent(path), Base(path)) && Join(Parent(path), Base(path)) == path
  {
  }

  // ---------------------------------------------------------------- the flat map

  predicate Preserved(path: Path, preserve: seq<Path>) {
    exists i :: 0 <= i < |preserve| && Within(path, preserve[i])
  }

  /** What pruning `path` removes: everything below it, and itself when asked (the root directory
      always), except below a preserved root. */
  predicate Pruned(path: Path, self: bool, preserve: seq<Path>, e: Path) {
    && !Preserved(path, preserve) && !Preserved(e, preserve)
    && (path < e || (e == path && (self || path == [])))
  }

  function Without(f: Flat, path: Path, self: bool, preserve: seq<Path>): Flat {
    Flat(map e | e in f.entries && !Pruned(path, self, preserve, e) :: f.entries[e],
         set d | d in f.directories && !Pruned(path, self, preserve, d))
  }

  function With(f: Flat, path: Path, seen: Attributes): Flat {
    f.(entries := f.entries[path := seen])
  }

  // ---------------------------------------------------------------- sequences of changes

  datatype Change = Seen(path: Path, seen: Attributes) | Gone(path: Path, self: bool, preserve: seq<Path>)

  predicate Readable(c: Change) {
    Parsed(c.path) && (c.Gone? ==> forall i :: 0 <= i < |c.preserve| ==> Parsed(c.preserve[i]))
  }

  function Apply(f: Flat, c: Change): Flat {
    match c
    case Seen(path, seen) => With(f, path, seen)
    case Gone(path, self, preserve) => Without(f, path, self, preserve)
  }

  function Replay(f: Flat, changes: seq<Change>): Flat
    decreases |changes|
  {
    if changes == [] then f else Replay(Apply(f, changes[0]), changes[1..])
  }

  predicate Touches(c: Change, e: Path) {
    match c
    case Seen(path, _) => path == e
    case Gone(path, self, preserve) => Pruned(path, self, preserve, e)
  }

  predicate Untouched(changes: seq<Change>, e: Path) { forall i :: 0 <= i < |changes| ==> !Touches(changes[i], e) }

  /** The latest change that touches `e` is an observation of it as `seen`. */
  ghost predicate LastSeen(changes: seq<Change>, e: Path, seen: Attributes) {
    exists i :: SeenAt(changes, e, seen, i)
  }

  predicate SeenAt(changes: seq<Change>, e: Path, seen: Attributes, i: int) {
    0 <= i < |changes| && changes[i] == Seen(e, seen) && Untouched(changes[i + 1..], e)
  }

  /** An entry is present exactly when the latest change touching its path observed it, or nothing
      touched an entry that was there. */
  lemma {:induction false} LatestDecides(f: Flat, changes: seq<Change>, e: Path, seen: Attributes)
    ensures e in Replay(f, changes).entries && Replay(f, changes).entries[e] == seen
            <==> LastSeen(changes, e, seen) || (Untouched(changes, e) && e in f.entries && f.entries[e] == seen)
    decreases |changes|
  {
    if changes != [] {
      var first, rest := changes[0], changes[1..];
      var f1 := Apply(f, first);
      LatestDecides(f1, rest, e, seen);
      assert Untouched(changes, e) <==> !Touches(first, e) && Untouched(rest, e) by {
        assert changes == [first] + rest;
      }
      if i :| SeenAt(rest, e, seen, i) {
        assert changes[i + 1 + 1..] == rest[i + 1..];
        assert SeenAt(changes, e, seen, i + 1);
      }
      if i :| SeenAt(changes, e, seen, i) && i > 0 {
        assert changes[i + 1..] == rest[i - 1 + 1..];
        assert SeenAt(rest, e, seen, i - 1);
      }
      assert first == Seen(e, seen) && Untouched(rest, e) <==> SeenAt(changes, e, seen, 0);
    }
  }

  // ---------------------------------------------------------------- the compact tables

  type Id = nat

  type EntryKey = (Id, string)

  datatype Compact = Compact(parents: map<Id, Path>, data: map<EntryKey, Attributes>)
  {
    predicate Single(i: Id, j: Id) { i in parents && j in parents && parents[i] == parents[j] ==> i == j }

    predicate Placed(k: EntryKey) { k in data ==> k.0 in parents && Proper(parents[k.0], k.1) }

    ghost predicate Used(i: Id) { i in parents ==> exists name :: (i, name) in data }

    /** Each prefix interned once, no dangling id, only the root without a name. */
    ghost predicate Sound() { (forall i, j :: Single(i, j)) && (forall k :: Placed(k)) }

    /** In addition, no interned parent is left without an entry. */
    ghost predicate Valid() { Sound() && forall i :: Used(i) }

    function Spot(k: EntryKey): Path
      requires k in data && Placed(k)
    {
      Join(parents[k.0], k.1)
    }

    lemma SpotIsUnique(k: EntryKey, l: EntryKey)
      requires Sound() && k in data && l in data && Placed(k) && Placed(l) && Spot(k) == Spot(l)
      ensures k == l
    {
      JoinSplits(parents[k.0], k.1);
      JoinSplits(parents[l.0], l.1);
      assert Single(k.0, l.0);
    }

    predicate At(k: EntryKey, p: Path) { k in data && Placed(k) && Spot(k) == p }

    ghost predicate Stored(p: Path) { exists k :: At(k, p) }

    /** The `entries` view. */
    ghost function View(): (view: map<Path, Attributes>)
      requires Sound()
      ensures forall k :: k in data ==> Placed(k) && Spot(k) in view && view[Spot(k)] == data[k]
      ensures forall p :: p in view ==> Stored(p)
    {
      assert forall k :: k in data ==> Placed(k);
      forall k, l | k in data && l in data && Spot(k) == Spot(l) ensures k == l { SpotIsUnique(k, l); }
      var view := map k | k in data :: Spot(k) := data[k];
      assert forall k :: k in data ==> At(k, Spot(k));
      view
    }
  }

  /** The view is determined by the spots of the entries. */
  lemma SameView(c: Compact, view: map<Path, Attributes>)
    requires c.Sound()
    requires forall k :: k in c.data ==> c.Placed(k) && c.Spot(k) in view && view[c.Spot(k)] == c.data[k]
    requires forall p :: p in view ==> c.Stored(p)
    ensures c.View() == view
  {
    var mine := c.View();
    forall p | p in mine ensures p in view && view[p] == mine[p] {
      assert c.Stored(p);
      var k :| c.At(k, p);
    }
    forall p | p in view ensures p in mine {
      var k :| c.At(k, p);
    }
  }

  /** Prefixes may be added; every entry keeps its spot. */
  ghost predicate Extends(was: Compact, now: Compact) {
    forall i :: i in was.parents ==> i in now.parents && now.parents[i] == was.parents[i]
  }

  lemma PutSound(was: Compact, now: Compact, key: EntryKey, path: Path, seen: Attributes)
    requires was.Valid() && Extends(was, now) && Compact(now.parents, was.data).Sound()
    requires forall i :: i in now.parents && i != key.0 ==> i in was.parents
    requires now.data == was.data[key := seen] && key.0 in now.parents
    requires Proper(now.parents[key.0], key.1)
    ensures now.Valid()
  {
    forall i, j ensures now.Single(i, j) { assert Compact(now.parents, was.data).Single(i, j); }
    forall k ensures now.Placed(k) { assert was.Placed(k); }
    forall i ensures now.Used(i) {
      assert was.Used(i);
      if i in was.parents {
        var name :| (i, name) in was.data;
        assert (i, name) in now.data;
      } else if i in now.parents {
        assert (i, key.1) in now.data;
      }
    }
  }

  lemma PutView(was: Compact, now: Compact, key: EntryKey, path: Path, seen: Attributes)
    requires was.Sound() && now.Sound() && Extends(was, now) && now.data == was.data[key := seen]
    requires now.At(key, path)
    ensures now.View() == was.View()[path := seen]
  {
    forall k | k in now.data && k != key ensures was.At(k, now.Spot(k)) && now.Spot(k) != path {
      assert was.Placed(k) && now.Placed(k);
      if now.Spot(k) == path { now.SpotIsUnique(k, key); }
    }
    forall p | p in was.View() && p != path ensures now.Stored(p) {
      assert was.Stored(p);
      var k :| was.At(k, p);
      assert k != key ==> now.At(k, p);
      assert now.Placed(k);
    }
    SameView(now, was.View()[path := seen]);
  }

  /** Entries go, and with them the prefixes they leave empty. */
  ghost predicate Shrinks(was: Compact, now: Compact, gone: set<EntryKey>) {
    && now.data == was.data - gone && Extends(now, was)
    && (forall k :: k in now.data ==> k.0 in now.parents)
    && (forall i :: now.Used(i))
  }

  lemma RemoveView(was: Compact, now: Compact, gone: set<EntryKey>, goes: set<Path>)
    requires was.Valid() && Shrinks(was, now, gone)
    requires forall k :: k in was.data ==> was.Placed(k) && (k in gone <==> was.Spot(k) in goes)
    ensures now.Valid() && now.View() == was.View() - goes
  {
    forall i, j ensures now.Single(i, j) { assert was.Single(i, j); }
    forall k ensures now.Placed(k) { assert was.Placed(k); }
    var view := was.View() - goes;
    forall k | k in now.data ensures now.Spot(k) in view && view[now.Spot(k)] == now.data[k] {
      assert now.Spot(k) == was.Spot(k);
    }
    forall p | p in view ensures now.Stored(p) {
      assert was.Stored(p);
      var k :| was.At(k, p);
      assert now.Placed(k);
      assert now.At(k, p);
    }
    SameView(now, view);
  }

  // ---------------------------------------------------------------- deletion by parent and name

  predicate Named(parent: Path, name: string, preserve: seq<Path>) {
    exists i :: 0 <= i < |preserve| && Parent(preserve[i]) == parent && Base(preserve[i]) == name
  }

  /** The entries that the deletion over the interned prefixes below `path` takes. */
  predicate Below(parent: Path, name: string, path: Path, preserve: seq<Path>) {
    Within(parent, path) && !Preserved(parent, preserve) && !Named(parent, name, preserve)
  }

  predicate Itself(parent: Path, name: string, path: Path) { parent == Parent(path) && name == Base(path) }

  function BelowIn(view: map<Path, Attributes>, path: Path, preserve: seq<Path>): set<Path> {
    set e | e in view && Below(Parent(e), Base(e), path, preserve)
  }

  function ItselfIn(view: map<Path, Attributes>, path: Path): set<Path> {
    set e | e in view && Itself(Parent(e), Base(e), path)
  }

  lemma WithinSplits(e: Path, root: Path)
    ensures Within(e, root) <==> e == root || Within(Parent(e), root)
  {
  }

  /** Prefix and name decide as the path itself does. */
  lemma TakenIsPruned(e: Path, path: Path, self: bool, preserve: seq<Path>)
    requires Join(Parent(e), Base(e)) == e && Proper(Parent(e), Base(e))
    requires Parsed(path) && forall i :: 0 <= i < |preserve| ==> Parsed(preserve[i])
    requires !Preserved(path, preserve)
    ensures Below(Parent(e), Base(e), path, preserve) || (self && Itself(Parent(e), Base(e), path))
            <==> Pruned(path, self, preserve, e)
  {
    SplitJoins(path);
    forall i | 0 <= i < |preserve|
      ensures Within(e, preserve[i]) <==> Within(Parent(e), preserve[i]) || (Parent(preserve[i]) == Parent(e) && Base(preserve[i]) == Base(e))
    {
      SplitJoins(preserve[i]);
      WithinSplits(e, preserve[i]);
    }
    WithinSplits(e, path);
  }

  lemma PruneExact(c: Compact, path: Path, self: bool, preserve: seq<Path>)
    requires c.Sound() && Parsed(path) && forall i :: 0 <= i < |preserve| ==> Parsed(preserve[i])
    requires !Preserved(path, preserve)
    ensures var view := c.View();
            var left := view - BelowIn(view, path, preserve);
            (if self then left - ItselfIn(left, path) else left)
            == map e | e in view && !Pruned(path, self, preserve, e) :: view[e]
  {
    forall e | e in c.View()
      ensures Below(Parent(e), Base(e), path, preserve) || (self && Itself(Parent(e), Base(e), path))
              <==> Pruned(path, self, preserve, e)
    {
      assert c.Stored(e);
      var k :| c.At(k, e);
      JoinSplits(c.parents[k.0], k.1);
      TakenIsPruned(e, path, self, preserve);
    }
  }

  // ---------------------------------------------------------------- the store

  class Store {
    var parents: map<Id, Path>
    var data: map<EntryKey, Attributes>
    var directories: set<Path>

    function Tables(): Compact reads this { Compact(parents, data) }

    ghost predicate Valid() reads this { Tables().Valid() }

    ghost function Contents(): Flat
      requires Valid()
      reads this
    {
      Flat(Tables().View(), directories)
    }

    constructor ()
      ensures Valid() && Contents() == Flat(map[], {})
    {
      parents, data, directories := map[], map[], {};
      new;
      SameView(Tables(), map[]);
    }

    /** INSERT OR IGNORE into the interned prefixes: some unused id. */
    method Intern(path: Path) returns (id: Id)
      requires Tables().Sound()
      modifies `parents
      ensures id in parents && parents[id] == path && Tables().Sound()
      ensures forall i :: i in old(parents) ==> i in parents && parents[i] == old(parents)[i]
      ensures forall i :: i in parents && i != id ==> i in old(parents)
    {
      if i :| i in parents && parents[i] == path {
        return i;
      }
      id := Unused();
      var was := Tables();
      parents := parents[id := path];
      forall i, j ensures Tables().Single(i, j) { assert was.Single(i, j); }
      forall k ensures Tables().Placed(k) { assert was.Placed(k); }
    }

    method Unused() returns (id: Id)
      ensures id !in parents
    {
      var rest := parents.Keys;
      id := 0;
      while rest != {}
        invariant rest <= parents.Keys && forall i :: i in parents && i !in rest ==> i < id
        decreases |rest|
      {
        var i :| i in rest;
        rest := rest - {i};
        if i >= id {
          id := i + 1;
        }
      }
    }

    method ObserveEntry(path: Path, seen: Attributes)
      requires Valid() && Parsed(path)
      modifies `parents, `data
      ensures Valid() && Contents() == With(old(Contents()), path, seen)
    {
      ghost var was := Tables();
      var id := Intern(Parent(path));
      SplitJoins(path);
      data := data[(id, Base(path)) := seen];
      PutSound(was, Tables(), (id, Base(path)), path, seen);
      assert Tables().Placed((id, Base(path)));
      PutView(was, Tables(), (id, Base(path)), path, seen);
    }

    /** Deletes entries, then the prefixes among `cleared` that are left empty. */
    method Delete(gone: set<EntryKey>, cleared: set<Id>, ghost goes: set<Path>)
      requires Valid()
      requires forall k :: k in data ==> Tables().Placed(k) && (k in gone <==> Tables().Spot(k) in goes) && (k in gone ==> k.0 in cleared)
      modifies `parents, `data
      ensures Valid() && Tables().View() == old(Tables().View()) - goes
    {
      ghost var was := Tables();
      data := data - gone;
      parents := map i | i in parents && !(i in cleared && !exists k :: k in data && k.0 == i) :: parents[i];
      forall i ensures Tables().Used(i) {
        assert was.Used(i);
      }
      RemoveView(was, Tables(), gone, goes);
    }

    method DeleteBelow(path: Path, preserve: seq<Path>)
      requires Valid()
      modifies `parents, `data
      ensures Valid()
      ensures Tables().View() == old(Tables().View()) - BelowIn(old(Tables().View()), path, preserve)
    {
      assert forall k :: k in data ==> Tables().Placed(k);
      var gone := set k | k in data && Below(parents[k.0], k.1, path, preserve);
      var cleared := set i | i in parents && Within(parents[i], path) && !Preserved(parents[i], preserve);
      ghost var view := Tables().View();
      forall k | k in data ensures k in gone <==> Tables().Spot(k) in BelowIn(view, path, preserve) {
        JoinSplits(parents[k.0], k.1);
      }
      Delete(gone, cleared, BelowIn(view, path, preserve));
    }

    method DeleteItself(path: Path)
      requires Valid()
      modifies `parents, `data
      ensures Valid()
      ensures Tables().View() == old(Tables().View()) - ItselfIn(old(Tables().View()), path)
    {
      assert forall k :: k in data ==> Tables().Placed(k);
      var gone := set k | k in data && Itself(parents[k.0], k.1, path);
      var cleared := set i | i in parents && parents[i] == Parent(path);
      ghost var view := Tables().View();
      forall k | k in data ensures k in gone <==> Tables().Spot(k) in ItselfIn(view, path) {
        JoinSplits(parents[k.0], k.1);
      }
      Delete(gone, cleared, ItselfIn(view, path));
    }

    method Prune(path: Path, self: bool, preserve: seq<Path>)
      requires Valid() && Parsed(path) && forall i :: 0 <= i < |preserve| ==> Parsed(preserve[i])
      modifies `parents, `data, `directories
      ensures Valid() && Contents() == Without(old(Contents()), path, self, preserve)
    {
      if !Preserved(path, preserve) {
        ghost var was := Tables();
        directories := set d | d in directories && !Pruned(path, self, preserve, d);
        DeleteBelow(path, preserve);
        if self {
          DeleteItself(path);
        }
        PruneExact(was, path, self, preserve);
      } else {
        assert forall e :: !Pruned(path, self, preserve, e);
      }
    }

    method Run(changes: seq<Change>)
      requires Valid() && forall i :: 0 <= i < |changes| ==> Readable(changes[i])
      modifies `parents, `data, `directories
      ensures Valid() && Contents() == Replay(old(Contents()), changes)
    {
      for i := 0 to |changes|
        invariant Valid() && Replay(Contents(), changes[i..]) == Replay(old(Contents()), changes)
      {
        assert changes[i..][1..] == changes[i + 1..];
        match changes[i]
        case Seen(path, seen) => ObserveEntry(path, seen);
        case Gone(path, self, preserve) => Prune(path, self, preserve);
      }
    }

    /** The entry a lookup by parent prefix and name finds. */
    method Find(path: Path) returns (found: Option<Attributes>)
      requires Valid() && Parsed(path)
      ensures found == if path in Contents().entries then Some(Contents().entries[path]) else None
    {
      Lookup(Tables(), path);
      if id :| id in parents && parents[id] == Parent(path) {
        if (id, Base(path)) in data {
          return Some(data[(id, Base(path))]);
        }
      }
      return None;
    }
  }

  lemma LookupAt(c: Compact, path: Path, i: Id)
    requires c.Sound() && Parsed(path) && i in c.parents && c.parents[i] == Parent(path)
    ensures var k := (i, Base(path)); (path in c.View() <==> k in c.data) && (k in c.data ==> c.View()[path] == c.data[k])
  {
    SplitJoins(path);
    if (i, Base(path)) in c.data {
      assert c.Placed((i, Base(path)));
      assert c.Spot((i, Base(path))) == path;
    }
    if path in c.View() {
      assert c.Stored(path);
      var k :| c.At(k, path);
      JoinSplits(c.parents[k.0], k.1);
      assert c.Single(i, k.0);
    }
  }

  lemma Lookup(c: Compact, path: Path)
    requires c.Sound() && Parsed(path)
    ensures path in c.View() ==> exists i :: i in c.parents && c.parents[i] == Parent(path)
    ensures forall i :: i in c.parents && c.parents[i] == Parent(path) ==>
        var k := (i, Base(path));
        (path in c.View() <==> k in c.data) && (k in c.data ==> c.View()[path] == c.data[k])
  {
    if path in c.View() {
      assert c.Stored(path);
      var k :| c.At(k, path);
      JoinSplits(c.parents[k.0], k.1);
    }
    forall i | i in c.parents && c.parents[i] == Parent(path)
      ensures var k := (i, Base(path)); (path in c.View() <==> k in c.data) && (k in c.data ==> c.View()[path] == c.data[k])
    {
      LookupAt(c, path, i);
    }
  }
}
