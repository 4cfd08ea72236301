/** Retry records whose revision tells whether they changed since they were saved: `save` skips its
    write only when the file already holds the current records. */
module Retry {
  import opened Paths

  datatype Record = Record(signature: string, reason: string, count: nat, lastFailure: real, nextRetry: real)

  type Values = map<string, Record>

  /** The process-wide source of revisions. `content` is bookkeeping of the model: the records that
      were saved under a revision. */
  class Counter {
    var next: nat
    ghost var content: map<nat, Values>

    constructor ()
      ensures next == 1 && content == map[]
    {
      next, content := 1, map[];
    }

    ghost predicate Valid() reads this { forall r :: r in content ==> r < next }

    method Next() returns (r: nat)
      requires Valid()
      modifies `next
      ensures r == old(next) && next == r + 1 && Valid() && r !in content
    {
      r := next;
      next := next + 1;
    }
  }

  class RetryEntries {
    const counter: Counter
    var values: Values
    var revision: nat

    /** No one edits; what was saved under this revision is what is here. */
    ghost predicate Settled() reads this, counter {
      && counter.Valid() && revision < counter.next
      && (revision in counter.content ==> counter.content[revision] == values)
    }

    constructor (counter: Counter, values: Values)
      requires counter.Valid()
      modifies counter`next
      ensures Settled() && this.counter == counter && this.values == values
      ensures revision == old(counter.next) && counter.next == revision + 1
    {
      this.counter, this.values := counter, values;
      var r := counter.Next();
      this.revision := r;
    }

    method Insert(path: string, record: Record)
      requires Settled()
      modifies this, counter`next
      ensures Settled() && values == old(values)[path := record] && counter.next >= old(counter.next)
      ensures values == old(values) <==> revision == old(revision)
    {
      if !(path in values && values[path] == record) {
        revision := counter.Next();
      }
      values := values[path := record];
    }

    method Remove(path: string) returns (removed: Option<Record>)
      requires Settled()
      modifies this, counter`next
      ensures Settled() && values == old(values) - {path} && counter.next >= old(counter.next)
      ensures values == old(values) <==> revision == old(revision)
      ensures removed == if path in old(values) then Some(old(values)[path]) else None
    {
      removed := if path in values then Some(values[path]) else None;
      values := values - {path};
      if removed.Some? {
        revision := counter.Next();
      }
    }

    /** Keeps the records that satisfy `keep`; a panic after some of them leaves the rest in place and
        the new revision. */
    method Retain(keep: (string, Record) -> bool, panics: bool)
      requires Settled()
      modifies this, counter`next
      ensures Settled() && counter.next >= old(counter.next)
      ensures !panics ==> values == map p | p in old(values) && keep(p, old(values)[p]) :: old(values)[p]
      ensures !panics ==> (values == old(values) <==> revision == old(revision))
      ensures panics ==> revision != old(revision)
                         && (forall p :: p in values ==> p in old(values) && values[p] == old(values)[p])
                         && (forall p :: p in old(values) && keep(p, old(values)[p]) ==> p in values)
    {
      var count, was := |values|, revision;
      revision := counter.Next();
      ghost var rest := Visit(keep, panics);
      KeptLess(old(values), rest, keep);
      Cardinalities(values, old(values));
      if !panics && |values| == count {
        revision := was;
      }
    }

    /** `HashMap::retain`: `rest` are the records that a panic leaves unvisited. */
    method Visit(keep: (string, Record) -> bool, panics: bool) returns (ghost rest: set<string>)
      modifies `values
      ensures rest <= old(values).Keys && (!panics ==> rest == {}) && values == Kept(old(values), rest, keep)
    {
      ghost var before := values;
      var left := values.Keys;
      var visits: nat := *;
      while left != {} && !(panics && visits == 0)
        invariant left <= before.Keys && values == Kept(before, left, keep)
        decreases |left|
      {
        var p :| p in left;
        left := left - {p};
        visits := if visits == 0 then 0 else visits - 1;
        if !keep(p, values[p]) {
          values := values - {p};
        }
      }
      rest := left;
    }

    /** Mutable access to one record: a new revision first. */
    method GetMut(path: string) returns (edit: RetryEntryEdit?)
      requires Settled()
      modifies this, counter`next
      ensures edit == null ==> path !in values && Settled() && revision == old(revision) && values == old(values)
      ensures edit != null ==> fresh(edit) && edit.Open() && edit.entries == this && edit.path == path
      ensures edit != null ==> edit.was == old(values) == values && edit.revision == old(revision)
      ensures counter.next >= old(counter.next)
    {
      if path !in values {
        return null;
      }
      var was := revision;
      revision := counter.Next();
      edit := new RetryEntryEdit(this, path, was);
    }
  }

  /** The records left when all but `rest` were visited. */
  function Kept(before: Values, rest: set<string>, keep: (string, Record) -> bool): Values {
    map p | p in before && (p in rest || keep(p, before[p])) :: before[p]
  }

  lemma KeptLess(before: Values, rest: set<string>, keep: (string, Record) -> bool)
    ensures var values := Kept(before, rest, keep);
            && values.Keys <= before.Keys && (forall p :: p in values ==> values[p] == before[p])
            && (forall p :: p in before && keep(p, before[p]) ==> p in values)
  {
  }

  lemma Cardinalities(fewer: Values, all: Values)
    requires fewer.Keys <= all.Keys && forall p :: p in fewer ==> fewer[p] == all[p]
    ensures |fewer| <= |all| && (|fewer| == |all| <==> fewer == all)
  {
    assert |fewer| == |fewer.Keys| && |all| == |all.Keys|;
    var gone := all.Keys - fewer.Keys;
    assert all.Keys == fewer.Keys + gone;
    if gone != {} {
      assert |gone| > 0;
    } else {
      assert fewer == all;
    }
  }

  class RetryEntryEdit {
    const entries: RetryEntries
    const path: string
    const before: Record
    const revision: nat
    ghost const was: Values

    /** The edit is in progress, or was abandoned without `Drop`. */
    ghost predicate Open() reads entries, entries.counter {
      && entries.counter.Valid() && entries.revision < entries.counter.next && entries.revision !in entries.counter.content
      && path in was && was[path] == before
      && entries.values.Keys == was.Keys && (forall p :: p in was && p != path ==> entries.values[p] == was[p])
      && revision < entries.revision && (revision in entries.counter.content ==> entries.counter.content[revision] == was)
    }

    constructor (entries: RetryEntries, path: string, revision: nat)
      requires path in entries.values && entries.counter.Valid() && revision < entries.revision < entries.counter.next
      requires entries.revision !in entries.counter.content
      requires revision in entries.counter.content ==> entries.counter.content[revision] == entries.values
      ensures Open() && this.entries == entries && this.path == path && this.revision == revision && was == entries.values
    {
      this.entries, this.path, this.revision := entries, path, revision;
      before := entries.values[path];
      was := entries.values;
    }

    /** `deref_mut`: any change of the record. */
    method Set(record: Record)
      requires Open()
      modifies entries`values
      ensures Open() && entries.values == old(entries.values)[path := record]
    {
      entries.values := entries.values[path := record];
    }

    method Drop()
      requires Open()
      modifies entries`revision
      ensures entries.Settled()
      ensures entries.values == was <==> entries.revision == revision
    {
      if entries.values[path] == before {
        assert entries.values == was;
        entries.revision := revision;
      }
    }
  }

  // ---------------------------------------------------------------- persistence and backoff

  datatype Saved = Saved(path: string, revision: nat)

  /** What a save that wrote nothing found: no path, or a file, if there is one, and the records. */
  datatype Skip = NoPath | Found(file: Option<Values>, values: Values)

  class RetryState {
    var path: Option<string>
    var entries: RetryEntries
    const base: real
    const maximum: real
    var saved: Option<Saved>
    var files: map<string, Values>   // what is persisted
    // Bookkeeping of the model: how often `save` went on to write, and what it found when it did not:
    // the file and the records, if there is a path at all.
    ghost var writes: nat
    ghost var skips: seq<Skip>

    ghost predicate Valid() reads this, entries, entries.counter {
      && 0.0 < base <= maximum && entries.Settled()
      && (saved.Some? ==> saved.value.revision in entries.counter.content && saved.value.path in files
                          && files[saved.value.path] == entries.counter.content[saved.value.revision])
    }

    /** Loaded records count as saved under their first revision. */
    constructor (counter: Counter, path: Option<string>, files: map<string, Values>, base: real, maximum: real)
      requires counter.Valid() && 0.0 < base <= maximum
      modifies counter
      ensures Valid() && fresh(entries) && entries.counter == counter && this.path == path && this.files == files
      ensures entries.values == if path.Some? && path.value in files then files[path.value] else map[]
    {
      this.path, this.files, this.base, this.maximum := path, files, base, maximum;
      writes, skips := 0, [];
      var loaded := path.Some? && path.value in files;
      var e := new RetryEntries(counter, if loaded then files[path.value] else map[]);
      entries := e;
      saved := if loaded then Some(Saved(path.value, e.revision)) else None;
      new;
      if loaded {
        counter.content := counter.content[entries.revision := entries.values];
      }
    }

    /** Writes unless the revision was saved to this path; the write may fail and then changes nothing. */
    method Save(fails: bool) returns (wrote: bool)
      requires Valid()
      modifies this, entries.counter`content
      ensures Valid() && entries == old(entries) && path == old(path)
      ensures !wrote ==> files == old(files)
      ensures wrote ==> path.Some? && files == old(files)[path.value := entries.values]
      ensures path.Some? && old(saved) == Some(Saved(path.value, entries.revision)) ==>
          path.value in files && files[path.value] == entries.values
      ensures path.Some? && !fails ==> path.value in files && files[path.value] == entries.values
      ensures saved == if wrote then Some(Saved(path.value, entries.revision)) else old(saved)
      ensures wrote <==> path.Some? && !fails && old(saved) != Some(Saved(path.value, entries.revision))
      ensures var skipped := path.None? || old(saved) == Some(Saved(path.value, entries.revision));
              && writes == old(writes) + (if skipped then 0 else 1)
              && skips == old(skips) + if skipped then [Skipped()] else []
    {
      wrote := false;
      if path.None? || saved == Some(Saved(path.value, entries.revision)) {
        skips := skips + [Skipped()];
        return;
      }
      writes := writes + 1;
      if !fails {
        files := files[path.value := entries.values];
        saved := Some(Saved(path.value, entries.revision));
        entries.counter.content := entries.counter.content[entries.revision := entries.values];
        wrote := true;
      }
    }

    ghost function Skipped(): Skip reads this, entries {
      if path.None? then NoPath
      else Found(if path.value in files then Some(files[path.value]) else None, entries.values)
    }

    method Replace(values: Values)
      requires Valid()
      modifies this, entries.counter`next
      ensures Valid() && fresh(entries) && entries.values == values && saved == old(saved)
      ensures entries.counter == old(entries.counter) && files == old(files) && path == old(path)
      ensures writes == old(writes) && skips == old(skips)
    {
      entries := new RetryEntries(entries.counter, values);
    }

    method SetPath(path: Option<string>)
      requires Valid()
      modifies `path
      ensures Valid() && this.path == path
    {
      this.path := path;
    }

    /** The delay after the `count`-th failure in a row with one reason. */
    function Delay(count: nat): (d: real)
      requires 0.0 < base <= maximum
      ensures base <= d <= maximum
    {
      PowerGrows(if count < 1 then 0 else if count - 1 < 20 then count - 1 else 20);
      var d := base * Power(if count < 1 then 0 else if count - 1 < 20 then count - 1 else 20);
      if d < maximum then d else maximum
    }

    /** The first delay is the base; each further one is twice as long, up to the maximum and to twenty
        doublings. */
    lemma DelayDoubles(count: nat)
      requires 0.0 < base <= maximum && count >= 1
      ensures Delay(1) == base
      ensures Delay(count + 1) == if count > 20 then Delay(count) else if 2.0 * Delay(count) < maximum then 2.0 * Delay(count) else maximum
    {
      if count <= 20 {
        PowerGrows(count - 1);
        assert Power(count) == 2.0 * Power(count - 1);
        assert base * Power(count) == 2.0 * (base * Power(count - 1));
      }
    }

    method Failure(src: string, signature: string, reason: string, now: real)
      requires Valid()
      modifies entries, entries.counter`next
      ensures Valid() && src in entries.values
      ensures forall p :: p != src ==> (p in entries.values <==> p in old(entries.values))
                                       && (p in entries.values ==> entries.values[p] == old(entries.values)[p])
      ensures var r := entries.values[src];
              && r.signature == signature && r.reason == reason && r.lastFailure == now
              && r.nextRetry == now + Delay(r.count)
              && r.count == if src in old(entries.values) && old(entries.values)[src].signature == signature
                               && old(entries.values)[src].reason == reason
                            then old(entries.values)[src].count + 1 else 1
    {
      var count := 1;
      if src in entries.values && entries.values[src].signature == signature && entries.values[src].reason == reason {
        count := entries.values[src].count + 1;
      }
      entries.Insert(src, Record(signature, reason, count, now, now + Delay(count)));
    }

    /** Is `src` still to wait? A record of another object is dropped; a due time too far ahead, after
        the clock moved back, is drawn in. */
    method Deferred(src: string, signature: string, now: real) returns (wait: bool)
      requires Valid()
      modifies entries, entries.counter`next
      ensures Valid()
      ensures var known := src in old(entries.values) && old(entries.values)[src].signature == signature;
              && (wait <==> known && now < old(entries.values)[src].nextRetry)
              && entries.values == (if !known then old(entries.values) - {src}
                                    else
                                      var r := old(entries.values)[src];
                                      old(entries.values)[src := r.(nextRetry := if r.nextRetry <= now + maximum then r.nextRetry else now + maximum)])
      ensures entries.values == old(entries.values) <==> entries.revision == old(entries.revision)
    {
      var edit := entries.GetMut(src);
      if edit == null {
        return false;
      }
      if entries.values[src].signature != signature {
        edit.Drop();
        var removed := entries.Remove(src);
        return false;
      }
      edit.Set(Drawn(entries.values[src], now));
      wait := now < entries.values[src].nextRetry;
      edit.Drop();
    }

    function Drawn(r: Record, now: real): Record {
      r.(nextRetry := if r.nextRetry < now + maximum then r.nextRetry else now + maximum)
    }
  }

  // ---------------------------------------------------------------- any sequence of operations

  datatype Op =
    | Put(path: string, record: Record)
    | Delete(path: string)
    | Filter(keep: (string, Record) -> bool, panics: bool)
    | Edit(path: string, changes: seq<Record>, forgotten: bool)
    | Swap(values: Values)
    | Move(to: Option<string>)
    | Persist(fails: bool)

  method EditRecord(state: RetryState, path: string, changes: seq<Record>, forgotten: bool)
    requires state.Valid()
    modifies state.entries, state.entries.counter`next
    ensures state.Valid() && state.files == old(state.files)
    ensures state.entries.values == if path in old(state.entries.values) && changes != [] then old(state.entries.values)[path := changes[|changes| - 1]]
                                    else old(state.entries.values)
    ensures path in old(state.entries.values) && forgotten ==> state.entries.revision != old(state.entries.revision)
    ensures !forgotten ==> (state.entries.values == old(state.entries.values) <==> state.entries.revision == old(state.entries.revision))
  {
    var edit := state.entries.GetMut(path);
    if edit != null {
      for i := 0 to |changes|
        invariant edit.Open() && state.entries.counter.next >= old(state.entries.counter.next)
        invariant state.entries.values == if i == 0 then old(state.entries.values) else old(state.entries.values)[path := changes[i - 1]]
        invariant state.entries.revision > old(state.entries.revision)
      {
        edit.Set(changes[i]);
      }
      if !forgotten {
        edit.Drop();
      }
    }
  }

  predicate Harmless(skip: Skip) { skip.Found? ==> skip.file == Some(skip.values) }

  method Perform(state: RetryState, op: Op)
    requires state.Valid()
    modifies state, state.entries, state.entries.counter
    ensures state.Valid() && state.entries.counter == old(state.entries.counter)
    ensures state.entries == old(state.entries) || fresh(state.entries)
    ensures old(state.skips) <= state.skips && (|state.skips| > |old(state.skips)| ==> Harmless(state.skips[|old(state.skips)|]))
    ensures |state.skips| - |old(state.skips)| + state.writes - old(state.writes) == if op.Persist? then 1 else 0
    ensures state.writes >= old(state.writes)
  {
    match op
    case Put(path, record) => state.entries.Insert(path, record);
    case Delete(path) => var removed := state.entries.Remove(path);
    case Filter(keep, panics) => state.entries.Retain(keep, panics);
    case Edit(path, changes, forgotten) => EditRecord(state, path, changes, forgotten);
    case Swap(values) => state.Replace(values);
    case Move(to) => state.SetPath(to);
    case Persist(fails) => var wrote := state.Save(fails);
  }

  function Saves(ops: seq<Op>): nat {
    if ops == [] then 0 else Saves(ops[..|ops| - 1]) + if ops[|ops| - 1].Persist? then 1 else 0
  }

  /** Over any sequence of operations every save either went on to write or is among the skipped ones, and
      each of those found the file equal to the records, or no path to write to. */
  method Run(state: RetryState, ops: seq<Op>)
    requires state.Valid()
    modifies state, state.entries, state.entries.counter
    ensures state.Valid() && old(state.skips) <= state.skips
    ensures |state.skips| - |old(state.skips)| + state.writes - old(state.writes) == Saves(ops)
    ensures forall i :: |old(state.skips)| <= i < |state.skips| ==> Harmless(state.skips[i])
  {
    for i := 0 to |ops|
      invariant state.Valid() && state.entries.counter == old(state.entries.counter)
      invariant state.entries == old(state.entries) || fresh(state.entries)
      invariant old(state.skips) <= state.skips
      invariant |state.skips| - |old(state.skips)| + state.writes - old(state.writes) == Saves(ops[..i])
      invariant forall i :: |old(state.skips)| <= i < |state.skips| ==> Harmless(state.skips[i])
    {
      assert ops[..i + 1][..i] == ops[..i];
      Perform(state, ops[i]);
    }
    assert ops[..|ops|] == ops;
  }

  function Power(n: nat): real { if n == 0 then 1.0 else 2.0 * Power(n - 1) }

  lemma {:induction false} PowerGrows(n: nat)
    ensures Power(n) >= 1.0
  {
    if n > 0 { PowerGrows(n - 1); }
  }
}
