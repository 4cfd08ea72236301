/** Journal retention: a fold keeps the facts of unresolved and protected operations, publishes them
    as the recovery file, and only then deletes expired archives. It may stop after any step. */
module Retention {
  import opened Paths

  type Id = nat

  datatype Status = Renamed | Reverted | Failed | Unsettled

  /** `Failed` is the status "error". `incomplete` is the mark that retention adds. */
  datatype Record = Record(operation: Option<Id>, status: Status, recovery: bool, payload: nat, incomplete: bool)

  predicate Committed(r: Record) { r.status == Renamed || r.status == Reverted }

  /** The protected operations, and the digest that names a record without an operation id. */
  datatype Rules = Rules(protected: set<Id>, digest: Record -> Id)
  {
    function Key(r: Record): Id {
      if r.operation.Some? then r.operation.value else digest(r.(incomplete := false))
    }

    predicate Keeps(r: Record) {
      Key(r) in protected || (!Committed(r) && (r.recovery || r.status != Failed))
    }

    function Mark(r: Record): (m: Record)
      ensures Key(m) == Key(r) && Keeps(m) == Keeps(r) && Committed(m) == Committed(r)
    {
      r.(incomplete := true)
    }

    /** One record of the recovery file or an expired archive. */
    function Fold1(retained: map<Id, Record>, r: Record): map<Id, Record> {
      if !Keeps(r) then retained - {Key(r)}
      else if !Committed(r) && Key(r) in retained && Committed(retained[Key(r)]) then retained
      else retained[Key(r) := Mark(r)]
    }

    function Fold(retained: map<Id, Record>, records: seq<Record>): map<Id, Record> {
      if records == [] then retained
      else Fold1(Fold(retained, records[..|records| - 1]), records[|records| - 1])
    }

    /** Operations that a retained source shows as committed. */
    function Settled(records: seq<Record>): set<Id> {
      set i | 0 <= i < |records| && Committed(records[i]) :: Key(records[i])
    }
  }

  // ---------------------------------------------------------------- the fold

  lemma {:induction false} FoldConcat(rules: Rules, m: map<Id, Record>, a: seq<Record>, b: seq<Record>)
    ensures rules.Fold(m, a + b) == rules.Fold(rules.Fold(m, a), b)
    decreases |b|
  {
    if b == [] {
      assert a + b == a;
    } else {
      assert (a + b)[..|a + b| - 1] == a + b[..|b| - 1];
      FoldConcat(rules, m, a, b[..|b| - 1]);
    }
  }

  /** Everything retained is under its own key, kept by the rules, and marked. */
  predicate Facts(rules: Rules, m: map<Id, Record>) {
    forall id :: id in m ==> rules.Key(m[id]) == id && rules.Keeps(m[id]) && m[id].incomplete
  }

  lemma {:induction false} FoldFacts(rules: Rules, m: map<Id, Record>, records: seq<Record>)
    requires Facts(rules, m)
    ensures Facts(rules, rules.Fold(m, records))
    decreases |records|
  {
    if records != [] {
      FoldFacts(rules, m, records[..|records| - 1]);
    }
  }

  predicate Has(m: map<Id, Record>, id: Id) { id in m && Committed(m[id]) }

  /** A committed fact that a fold brings about is brought about from any start. */
  lemma {:induction false} CommittedAnyway(rules: Rules, m: map<Id, Record>, n: map<Id, Record>, records: seq<Record>, id: Id)
    requires Has(rules.Fold(m, records), id) && !Has(m, id)
    ensures Has(rules.Fold(n, records), id)
    decreases |records|
  {
    if records != [] && !(rules.Key(records[|records| - 1]) == id && rules.Keeps(records[|records| - 1]) && Committed(records[|records| - 1])) {
      CommittedAnyway(rules, m, n, records[..|records| - 1], id);
    }
  }

  function At(m: map<Id, Record>, id: Id): Option<Record> { if id in m then Some(m[id]) else None }

  /** Each operation is folded on its own. */
  lemma {:induction false} FoldAlone(rules: Rules, m: map<Id, Record>, n: map<Id, Record>, records: seq<Record>, id: Id)
    requires At(m, id) == At(n, id)
    ensures At(rules.Fold(m, records), id) == At(rules.Fold(n, records), id)
    decreases |records|
  {
    if records != [] {
      FoldAlone(rules, m, n, records[..|records| - 1], id);
    }
  }

  /** Folding the same records once more changes nothing. */
  lemma {:induction false} FoldTwice(rules: Rules, m: map<Id, Record>, n: map<Id, Record>, records: seq<Record>, id: Id)
    requires At(n, id) == At(rules.Fold(m, records), id)
    ensures At(rules.Fold(n, records), id) == At(n, id)
    decreases |records|
  {
    if records != [] {
      var rest, r := records[..|records| - 1], records[|records| - 1];
      if rules.Key(r) != id {
        FoldTwice(rules, m, n, rest, id);
      } else if rules.Keeps(r) && !Committed(r) {
        if Has(rules.Fold(m, rest), id) {
          FoldTwice(rules, m, n, rest, id);
        } else if Has(rules.Fold(n, rest), id) {
          CommittedAnyway(rules, n, m, rest, id);
        }
      }
    }
  }

  /** A retained fact is a record that was read, but for the mark. */
  lemma {:induction false} FactIsRead(rules: Rules, m: map<Id, Record>, records: seq<Record>, id: Id)
    requires id in rules.Fold(m, records)
    ensures (id in m && rules.Fold(m, records)[id] == m[id])
            || (exists i :: 0 <= i < |records| && rules.Key(records[i]) == id && rules.Fold(m, records)[id] == rules.Mark(records[i]))
    decreases |records|
  {
    if records != [] {
      var rest, r := records[..|records| - 1], records[|records| - 1];
      if rules.Fold(m, records)[id] != rules.Mark(r) || rules.Key(r) != id {
        FactIsRead(rules, m, rest, id);
        assert forall i :: 0 <= i < |rest| ==> rest[i] == records[i];
      }
    }
  }

  /** The last record of an operation, and its last committed one. */
  predicate LastOf(rules: Rules, records: seq<Record>, id: Id, i: nat) {
    i < |records| && rules.Key(records[i]) == id && forall j :: i < j < |records| ==> rules.Key(records[j]) != id
  }

  predicate LastCommit(rules: Rules, records: seq<Record>, id: Id, i: nat) {
    && i < |records| && rules.Key(records[i]) == id && records[i].status in {Renamed, Reverted}
    && forall j :: i < j < |records| && rules.Key(records[j]) == id ==> records[j].status !in {Renamed, Reverted}
  }

  /** The record resolves nothing: no commit, and not an error without a need for recovery. */
  predicate Unresolved(r: Record) {
    && r.status != Renamed && r.status != Reverted
    && (r.recovery || r.status != Failed)
  }

  lemma {:induction false} UnprotectedDecides(rules: Rules, records: seq<Record>, id: Id, last: nat)
    requires LastOf(rules, records, id, last) && id !in rules.protected
    ensures var m := rules.Fold(map[], records);
            (id in m <==> Unresolved(records[last])) && (id in m ==> m[id] == records[last].(incomplete := true))
    decreases |records|
  {
    var rest, r := records[..|records| - 1], records[|records| - 1];
    if rules.Key(r) != id {
      assert forall i :: 0 <= i < |rest| ==> rest[i] == records[i];
      UnprotectedDecides(rules, rest, id, last);
    } else {
      FoldFacts(rules, map[], rest);
    }
  }

  lemma {:induction false} CommittedDecides(rules: Rules, records: seq<Record>, id: Id, c: nat)
    requires LastCommit(rules, records, id, c) && id in rules.protected
    ensures var m := rules.Fold(map[], records); id in m && m[id] == records[c].(incomplete := true)
    decreases |records|
  {
    var rest := records[..|records| - 1];
    if c < |rest| {
      assert forall i :: 0 <= i < |rest| ==> rest[i] == records[i];
      CommittedDecides(rules, rest, id, c);
    }
  }

  lemma {:induction false} UncommittedDecides(rules: Rules, records: seq<Record>, id: Id, last: nat)
    requires LastOf(rules, records, id, last) && id in rules.protected
    requires forall i :: 0 <= i < |records| && rules.Key(records[i]) == id ==> !Committed(records[i])
    ensures var m := rules.Fold(map[], records); id in m && m[id] == records[last].(incomplete := true)
    decreases |records|
  {
    var rest := records[..|records| - 1];
    assert forall i :: 0 <= i < |rest| ==> rest[i] == records[i];
    if last < |rest| {
      UncommittedDecides(rules, rest, id, last);
    } else if p: nat :| LastOf(rules, rest, id, p) {
      UncommittedDecides(rules, rest, id, p);
    } else {
      NeverNamed(rules, rest, id);
    }
  }

  lemma {:induction false} CommitExists(rules: Rules, records: seq<Record>, id: Id, i: nat)
    requires i < |records| && rules.Key(records[i]) == id && Committed(records[i])
    ensures exists c: nat :: LastCommit(rules, records, id, c)
    decreases |records| - i
  {
    if j :| i < j < |records| && rules.Key(records[j]) == id && Committed(records[j]) {
      CommitExists(rules, records, id, j);
    } else {
      assert LastCommit(rules, records, id, i);
    }
  }

  /** What the fold retains of an operation: of an unprotected one its last record, marked, if that is
      unresolved; of a protected one its last committed record, or else its last. */
  lemma FoldDecides(rules: Rules, records: seq<Record>, id: Id, last: nat)
    requires LastOf(rules, records, id, last)
    ensures var m := rules.Fold(map[], records);
            if id !in rules.protected then
              (id in m <==> Unresolved(records[last])) && (id in m ==> m[id] == records[last].(incomplete := true))
            else
              id in m
              && (forall c: nat :: LastCommit(rules, records, id, c) ==> m[id] == records[c].(incomplete := true))
              && ((forall c: nat :: !LastCommit(rules, records, id, c)) ==>
                    m[id] == records[last].(incomplete := true) && m[id].status != Renamed && m[id].status != Reverted)
  {
    if id !in rules.protected {
      UnprotectedDecides(rules, records, id, last);
    } else if c: nat :| LastCommit(rules, records, id, c) {
      forall d: nat | LastCommit(rules, records, id, d) ensures rules.Fold(map[], records)[id] == records[d].(incomplete := true) {
        CommittedDecides(rules, records, id, d);
      }
      CommittedDecides(rules, records, id, c);
    } else {
      forall i: nat | i < |records| && rules.Key(records[i]) == id ensures !Committed(records[i]) {
        if Committed(records[i]) {
          CommitExists(rules, records, id, i);
        }
      }
      UncommittedDecides(rules, records, id, last);
    }
  }

  lemma {:induction false} NeverNamed(rules: Rules, records: seq<Record>, id: Id)
    requires forall p: nat :: !LastOf(rules, records, id, p)
    ensures id !in rules.Fold(map[], records) && forall i :: 0 <= i < |records| ==> rules.Key(records[i]) != id
    decreases |records|
  {
    if records != [] {
      var rest := records[..|records| - 1];
      assert !LastOf(rules, records, id, |records| - 1);
      forall p: nat ensures !LastOf(rules, rest, id, p) {
        assert !LastOf(rules, records, id, p);
      }
      NeverNamed(rules, rest, id);
      assert forall i :: 0 <= i < |rest| ==> rest[i] == records[i];
    }
  }

  // ---------------------------------------------------------------- the recovery file

  predicate Least(keys: set<Id>, id: Id) { id in keys && forall j :: j in keys ==> id <= j }

  lemma {:induction false} SomeLeast(keys: set<Id>)
    requires keys != {}
    ensures exists id :: Least(keys, id)
    decreases keys
  {
    var k :| k in keys;
    if keys == {k} {
      assert Least(keys, k);
    } else {
      SomeLeast(keys - {k});
      var l :| Least(keys - {k}, l);
      assert forall j :: j in keys ==> j == k || j in keys - {k};
      assert Least(keys, if k <= l then k else l);
    }
  }

  /** The retained records in the order of their keys. */
  ghost function Lines(m: map<Id, Record>): seq<Record>
    decreases m.Keys
  {
    if m == map[] then []
    else
      SomeLeast(m.Keys);
      var id :| Least(m.Keys, id);
      [m[id]] + Lines(m - {id})
  }

  /** Reading the recovery file back gives the facts it was written from. */
  lemma {:induction false} LinesFold(rules: Rules, start: map<Id, Record>, m: map<Id, Record>)
    requires Facts(rules, m) && start.Keys !! m.Keys
    ensures rules.Fold(start, Lines(m)) == start + m
    decreases m.Keys
  {
    if m == map[] {
      assert start + m == start;
    } else {
      SomeLeast(m.Keys);
      var id :| Least(m.Keys, id);
      FoldConcat(rules, start, [m[id]], Lines(m - {id}));
      FirstLine(rules, start, m, id);
      LinesFold(rules, start[id := m[id]], m - {id});
      RestAdded(start, m, id);
    }
  }

  lemma FirstLine(rules: Rules, start: map<Id, Record>, m: map<Id, Record>, id: Id)
    requires Facts(rules, m) && start.Keys !! m.Keys && id in m
    ensures rules.Fold(start, [m[id]]) == start[id := m[id]]
  {
    assert [m[id]][..0] == [];
  }

  lemma RestAdded(start: map<Id, Record>, m: map<Id, Record>, id: Id)
    requires id in m
    ensures start[id := m[id]] + (m - {id}) == start + m
  {
  }

  // ---------------------------------------------------------------- what is on disk

  /** A rotated segment, raw, compressed, or both with the same content; `bytes` is the raw size. */
  datatype Segment = Segment(raw: Option<seq<Record>>, gz: Option<seq<Record>>, bytes: nat)
  {
    predicate Valid() { (raw.Some? || gz.Some?) && (raw.Some? && gz.Some? ==> raw == gz) }

    /** The raw file is read when it is there. */
    function Content(): seq<Record>
      requires Valid()
    {
      if raw.Some? then raw.value else gz.value
    }
  }

  /** Recovery file, segments from old to new, active journal. */
  datatype Files = Files(recovery: Option<seq<Record>>, archives: seq<Segment>, active: Option<seq<Record>>)
  {
    predicate Valid() { forall i :: 0 <= i < |archives| ==> archives[i].Valid() }
  }

  const ARCHIVE_BYTES := 16 * 1024 * 1024

  /** How many of the newest segments stay: at most two, within the byte limit together. */
  function Staying(archives: seq<Segment>): (n: nat)
    ensures n <= |archives|
  {
    if archives == [] || archives[|archives| - 1].bytes > ARCHIVE_BYTES then 0
    else if |archives| == 1 || archives[|archives| - 1].bytes + archives[|archives| - 2].bytes > ARCHIVE_BYTES then 1
    else 2
  }

  function Size(archives: seq<Segment>): nat {
    if archives == [] then 0 else archives[0].bytes + Size(archives[1..])
  }

  /** The newest segments that stay are at most two of at most 16 MiB together, and one more would be too
      many or too long. */
  lemma StayingIs(archives: seq<Segment>)
    ensures var n := Staying(archives);
            && n <= 2 && Size(archives[|archives| - n..]) <= 16777216
            && (n == 2 || n == |archives| || Size(archives[|archives| - n - 1..]) > 16777216)
  {
    var k := |archives|;
    if k >= 1 {
      assert archives[k - 1..] == [archives[k - 1]] && archives[k..] == [];
      assert Size([archives[k - 1]]) == archives[k - 1].bytes + Size([archives[k - 1]][1..]);
    }
    if k >= 2 {
      assert archives[k - 2..] == [archives[k - 2], archives[k - 1]];
      assert [archives[k - 2], archives[k - 1]][1..] == [archives[k - 1]];
    }
  }

  function First(archives: seq<Segment>): (n: nat) ensures n <= |archives| { |archives| - Staying(archives) }

  function Contents(archives: seq<Segment>): seq<Record>
    requires forall i :: 0 <= i < |archives| ==> archives[i].Valid()
  {
    if archives == [] then [] else archives[0].Content() + Contents(archives[1..])
  }

  function OrEmpty(records: Option<seq<Record>>): seq<Record> { if records.Some? then records.value else [] }

  function Expired(f: Files): seq<Record>
    requires f.Valid()
  {
    Contents(f.archives[..First(f.archives)])
  }

  function Current(f: Files): seq<Record>
    requires f.Valid()
  {
    Contents(f.archives[First(f.archives)..]) + OrEmpty(f.active)
  }

  /** What the fold over the recovery file and the expired segments retains, less what a retained
      source settles. */
  function Retained(rules: Rules, f: Files): map<Id, Record>
    requires f.Valid()
  {
    Outcome(rules, OrEmpty(f.recovery), Expired(f), rules.Settled(Current(f)))
  }

  /** Where maintenance ends: retained facts in the recovery file, or no such file; the expired
      segments gone. */
  ghost function Settle(rules: Rules, f: Files): Files
    requires f.Valid()
  {
    var m := Retained(rules, f);
    Files(if m == map[] then None else Some(Lines(m)), f.archives[First(f.archives)..], f.active)
  }

  // ---------------------------------------------------------------- after publication

  /** The state after publication and after the deletion of part of the expired segments: `half` says
      whether the raw file of the next one is already gone. */
  function Partly(f: Files, recovery: Option<seq<Record>>, gone: nat, half: bool): Files
    requires Reaches(f, gone, half)
  {
    var rest := f.archives[gone..];
    Files(recovery, if half then [rest[0].(raw := None)] + rest[1..] else rest, f.active)
  }

  lemma StayingPartly(archives: seq<Segment>, gone: nat, half: bool)
    requires gone <= First(archives) && (half ==> gone < First(archives))
    ensures var rest := archives[gone..];
            var now := if half then [rest[0].(raw := None)] + rest[1..] else rest;
            Staying(now) == Staying(archives) && First(now) == First(archives) - gone
  {
  }

  lemma {:induction false} ContentsConcat(a: seq<Segment>, b: seq<Segment>)
    requires forall i :: 0 <= i < |a| ==> a[i].Valid()
    requires forall i :: 0 <= i < |b| ==> b[i].Valid()
    ensures Contents(a + b) == Contents(a) + Contents(b)
    decreases |a|
  {
    if a == [] {
      assert a + b == b;
    } else {
      assert (a + b)[1..] == a[1..] + b;
      ContentsConcat(a[1..], b);
    }
  }

  predicate Sound(archives: seq<Segment>) { forall i :: 0 <= i < |archives| ==> archives[i].Valid() }

  lemma HalfContents(x: Segment, rest: seq<Segment>)
    requires x.Valid() && x.gz.Some? && Sound(rest)
    ensures x.(raw := None).Valid()
    ensures Sound([x.(raw := None)] + rest) && Sound([x] + rest)
    ensures Contents([x.(raw := None)] + rest) == Contents([x] + rest)
  {
    assert ([x] + rest)[1..] == rest && ([x.(raw := None)] + rest)[1..] == rest;
  }

  predicate Reaches(f: Files, gone: nat, half: bool) {
    gone <= First(f.archives) && (half ==> gone < First(f.archives) && f.archives[gone].gz.Some?)
  }

  lemma HalfOfTail(x: Segment, tail: seq<Segment>, k: nat)
    requires x.Valid() && x.gz.Some? && Sound(tail) && k <= |tail|
    ensures var now := [x.(raw := None)] + tail;
            && Sound(now) && Contents(now[..k + 1]) == Contents([x] + tail[..k]) && now[k + 1..] == tail[k..]
  {
    HalfContents(x, tail[..k]);
    assert ([x.(raw := None)] + tail)[..k + 1] == [x.(raw := None)] + tail[..k];
  }

  lemma SplitAt(archives: seq<Segment>, gone: nat, first: nat)
    requires gone < first <= |archives|
    ensures var tail, k := archives[gone + 1..], first - gone - 1;
            && archives[gone..] == [archives[gone]] + tail
            && archives[gone..first] == [archives[gone]] + tail[..k] && archives[first..] == tail[k..]
  {
  }

  lemma HalfPrefix(archives: seq<Segment>, gone: nat, first: nat)
    requires Sound(archives) && gone < first <= |archives| && archives[gone].gz.Some?
    ensures var now := [archives[gone..][0].(raw := None)] + archives[gone..][1..];
            && Sound(now) && |now| == |archives| - gone
            && Contents(now[..first - gone]) == Contents(archives[gone..first])
            && now[first - gone..] == archives[first..]
  {
    SplitAt(archives, gone, first);
    HalfOfTail(archives[gone], archives[gone + 1..], first - gone - 1);
    assert archives[gone..][1..] == archives[gone + 1..];
  }

  lemma WholeContents(f: Files, recovery: Option<seq<Record>>, gone: nat)
    requires f.Valid() && Reaches(f, gone, false)
    ensures var p := Partly(f, recovery, gone, false);
            && p.Valid() && Expired(p) == Contents(f.archives[gone..First(f.archives)])
            && p.archives[First(p.archives)..] == f.archives[First(f.archives)..]
  {
    StayingPartly(f.archives, gone, false);
    assert f.archives[gone..][..First(f.archives) - gone] == f.archives[gone..First(f.archives)];
  }

  lemma HalvedContents(f: Files, recovery: Option<seq<Record>>, gone: nat)
    requires f.Valid() && Reaches(f, gone, true)
    ensures var p := Partly(f, recovery, gone, true);
            && p.Valid() && Expired(p) == Contents(f.archives[gone..First(f.archives)])
            && p.archives[First(p.archives)..] == f.archives[First(f.archives)..]
  {
    StayingPartly(f.archives, gone, true);
    HalfPrefix(f.archives, gone, First(f.archives));
  }

  lemma PartlyContents(f: Files, recovery: Option<seq<Record>>, gone: nat, half: bool)
    requires f.Valid() && Reaches(f, gone, half)
    ensures var p := Partly(f, recovery, gone, half);
            && p.Valid() && Expired(p) == Contents(f.archives[gone..First(f.archives)])
            && p.archives[First(p.archives)..] == f.archives[First(f.archives)..]
  {
    if half { HalvedContents(f, recovery, gone); } else { WholeContents(f, recovery, gone); }
  }

  /** From the published facts and any remaining part of what was folded, the fold retains the same. */
  lemma Refold(rules: Rules, before: seq<Record>, gone: seq<Record>, left: seq<Record>, settled: set<Id>)
    ensures var m := rules.Fold(map[], before + gone + left) - settled;
            rules.Fold(map[], Lines(m) + left) - settled == m
  {
    var all := rules.Fold(map[], before + gone + left);
    var m := all - settled;
    var again := rules.Fold(map[], Lines(m) + left);
    FoldFacts(rules, map[], before + gone + left);
    LinesFold(rules, map[], m);
    FoldConcat(rules, map[], Lines(m), left);
    FoldConcat(rules, map[], before + gone, left);
    assert map[] + m == m;
    forall id | id !in settled ensures At(again, id) == At(m, id) {
      assert At(m, id) == At(all, id);
      FoldTwice(rules, rules.Fold(map[], before + gone), m, left, id);
    }
    assert forall id :: id in again - settled <==> id in m;
  }

  lemma SplitExpired(f: Files, gone: nat)
    requires f.Valid() && gone <= First(f.archives)
    ensures Expired(f) == Contents(f.archives[..gone]) + Contents(f.archives[gone..First(f.archives)])
  {
    var first := First(f.archives);
    assert f.archives[..first] == f.archives[..gone] + f.archives[gone..first];
    ContentsConcat(f.archives[..gone], f.archives[gone..first]);
  }

  /** The fold of one list after another, less what is settled. */
  function Outcome(rules: Rules, before: seq<Record>, expired: seq<Record>, settled: set<Id>): map<Id, Record> {
    rules.Fold(map[], before + expired) - settled
  }

  lemma SameOutcome(rules: Rules, before: seq<Record>, a: seq<Record>, b: seq<Record>, settled: set<Id>)
    ensures var m := Outcome(rules, before, a + b, settled); Outcome(rules, Lines(m), b, settled) == m
  {
    Refold(rules, before, a, b, settled);
    assert before + (a + b) == before + a + b;
  }

  lemma SameRetained(rules: Rules, f: Files, p: Files, a: seq<Record>, b: seq<Record>)
    requires f.Valid() && p.Valid() && p.recovery == Some(Lines(Retained(rules, f)))
    requires Expired(f) == a + b && Expired(p) == b && Current(p) == Current(f)
    ensures Retained(rules, p) == Retained(rules, f)
  {
    SameOutcome(rules, OrEmpty(f.recovery), a, b, rules.Settled(Current(f)));
  }

  lemma PartlyCurrent(f: Files, p: Files)
    requires f.Valid() && p.Valid() && p.active == f.active && p.archives[First(p.archives)..] == f.archives[First(f.archives)..]
    ensures Current(p) == Current(f)
  {
  }

  lemma PartlyRetains(rules: Rules, f: Files, gone: nat, half: bool)
    requires f.Valid() && Reaches(f, gone, half)
    ensures var p := Partly(f, Some(Lines(Retained(rules, f))), gone, half);
            p.Valid() && Retained(rules, p) == Retained(rules, f) && Settle(rules, p) == Settle(rules, f)
  {
    var recovery := Some(Lines(Retained(rules, f)));
    var p := Partly(f, recovery, gone, half);
    PartlyContents(f, recovery, gone, half);
    PartlyCurrent(f, p);
    SplitExpired(f, gone);
    SameRetained(rules, f, p, Contents(f.archives[..gone]), Contents(f.archives[gone..First(f.archives)]));
  }

  // ---------------------------------------------------------------- evidence

  /** All records there are. */
  function All(f: Files): seq<Record>
    requires f.Valid()
  {
    OrEmpty(f.recovery) + Contents(f.archives) + OrEmpty(f.active)
  }

  /** The `i`th record of the recovery file and the expired segments is the one that still speaks for its
      operation: the last unresolved one, or of a protected operation the last committed or else the last.
      No retained source shows the operation as renamed or reverted. */
  ghost predicate Speaks(rules: Rules, f: Files, id: Id, i: nat)
    requires f.Valid()
  {
    var read := OrEmpty(f.recovery) + Expired(f);
    && (if id !in rules.protected then LastOf(rules, read, id, i) && Unresolved(read[i])
        else LastCommit(rules, read, id, i)
             || (LastOf(rules, read, id, i) && forall c: nat :: !LastCommit(rules, read, id, c)))
    && forall j :: 0 <= j < |Current(f)| && rules.Key(Current(f)[j]) == id ==> Current(f)[j].status !in {Renamed, Reverted}
  }

  /** The record is somewhere on disk, but for the mark. */
  predicate OnDisk(f: Files, r: Record)
    requires f.Valid()
  {
    exists j :: 0 <= j < |All(f)| && All(f)[j].(incomplete := true) == r.(incomplete := true)
  }

  ghost predicate KeepsEvidence(rules: Rules, f: Files, f': Files)
    requires f.Valid() && f'.Valid()
  {
    forall id, i: nat :: Speaks(rules, f, id, i) ==> OnDisk(f', (OrEmpty(f.recovery) + Expired(f))[i])
  }

  lemma {:induction false} LastExists(rules: Rules, records: seq<Record>, id: Id, i: nat) returns (last: nat)
    requires i < |records| && rules.Key(records[i]) == id
    ensures LastOf(rules, records, id, last)
    decreases |records| - i
  {
    if j :| i < j < |records| && rules.Key(records[j]) == id {
      last := LastExists(rules, records, id, j);
    } else {
      last := i;
    }
  }

  lemma SpeaksRetained(rules: Rules, f: Files, id: Id, i: nat)
    requires f.Valid() && Speaks(rules, f, id, i)
    ensures var read := OrEmpty(f.recovery) + Expired(f);
            id in Retained(rules, f) && Retained(rules, f)[id] == read[i].(incomplete := true)
  {
    var read := OrEmpty(f.recovery) + Expired(f);
    var last := LastExists(rules, read, id, i);
    FoldDecides(rules, read, id, last);
    assert id !in rules.Settled(Current(f));
  }

  /** What is retained is what speaks for some operation, and nothing else. */
  lemma RetainedExactly(rules: Rules, f: Files, id: Id)
    requires f.Valid()
    ensures id in Retained(rules, f) <==> exists i: nat :: Speaks(rules, f, id, i)
  {
    if i: nat :| Speaks(rules, f, id, i) {
      SpeaksRetained(rules, f, id, i);
    }
    if id in Retained(rules, f) {
      var read := OrEmpty(f.recovery) + Expired(f);
      FactIsRead(rules, map[], read, id);
      var k :| 0 <= k < |read| && rules.Key(read[k]) == id;
      var last := LastExists(rules, read, id, k);
      FoldDecides(rules, read, id, last);
      forall j | 0 <= j < |Current(f)| && rules.Key(Current(f)[j]) == id ensures Current(f)[j].status !in {Renamed, Reverted} {
        assert id !in rules.Settled(Current(f));
      }
      if c: nat :| id in rules.protected && LastCommit(rules, read, id, c) {
        assert Speaks(rules, f, id, c);
      } else {
        assert Speaks(rules, f, id, last);
      }
    }
  }

  lemma {:induction false} LineOf(m: map<Id, Record>, id: Id)
    requires id in m
    ensures m[id] in Lines(m)
    decreases m.Keys
  {
    SomeLeast(m.Keys);
    var least :| Least(m.Keys, least) && Lines(m) == [m[least]] + Lines(m - {least});
    if least != id {
      LineOf(m - {least}, id);
    }
  }

  lemma PublishedKeeps(rules: Rules, f: Files, f': Files)
    requires f.Valid() && f'.Valid() && f'.recovery == Some(Lines(Retained(rules, f)))
    ensures KeepsEvidence(rules, f, f')
  {
    forall id, i: nat | Speaks(rules, f, id, i) ensures OnDisk(f', (OrEmpty(f.recovery) + Expired(f))[i]) {
      SpeaksRetained(rules, f, id, i);
      LineOf(Retained(rules, f), id);
      var j :| 0 <= j < |Lines(Retained(rules, f))| && Lines(Retained(rules, f))[j] == Retained(rules, f)[id];
      assert All(f')[j] == Retained(rules, f)[id];
    }
  }

  lemma EmptyKeeps(rules: Rules, f: Files, f': Files)
    requires f.Valid() && f'.Valid() && Retained(rules, f) == map[]
    ensures KeepsEvidence(rules, f, f')
  {
    forall id, i: nat | Speaks(rules, f, id, i) ensures false {
      SpeaksRetained(rules, f, id, i);
    }
  }

  lemma UntouchedKeeps(rules: Rules, f: Files)
    requires f.Valid()
    ensures KeepsEvidence(rules, f, f)
  {
    SplitAll(f);
    forall id, i: nat | Speaks(rules, f, id, i) ensures OnDisk(f, (OrEmpty(f.recovery) + Expired(f))[i]) {
      assert All(f)[i] == (OrEmpty(f.recovery) + Expired(f))[i];
    }
  }

  lemma ContentsSplit(archives: seq<Segment>, first: nat)
    requires Sound(archives) && first <= |archives|
    ensures Contents(archives) == Contents(archives[..first]) + Contents(archives[first..])
  {
    assert archives == archives[..first] + archives[first..];
    ContentsConcat(archives[..first], archives[first..]);
  }

  lemma SplitAll(f: Files)
    requires f.Valid()
    ensures All(f) == OrEmpty(f.recovery) + Expired(f) + Current(f)
  {
    ContentsSplit(f.archives, First(f.archives));
  }

  lemma NothingToDo(rules: Rules, f: Files)
    requires f.Valid() && f.recovery == None && First(f.archives) == 0
    ensures Retained(rules, f) == map[] && Settle(rules, f) == f
  {
    assert f.archives[..0] == [] && f.archives[0..] == f.archives;
    assert OrEmpty(f.recovery) + Expired(f) == [];
  }

  /** When nothing is retained, the state without the recovery file is settled. */
  lemma Emptied(rules: Rules, f: Files)
    requires f.Valid() && Retained(rules, f) == map[]
    ensures var done := Files(None, f.archives[First(f.archives)..], f.active);
            done.Valid() && Retained(rules, done) == map[] && done == Settle(rules, f) && Settle(rules, done) == done
  {
    StayingPartly(f.archives, First(f.archives), false);
    var done := Files(None, f.archives[First(f.archives)..], f.active);
    NothingToDo(rules, done);
  }

  // ---------------------------------------------------------------- maintenance, which may stop anywhere

  class Disk {
    var files: Files

    constructor (files: Files)
      ensures this.files == files
    {
      this.files := files;
    }

    method FirstRetained() returns (first: nat)
      ensures first == First(files.archives)
    {
      first := |files.archives|;
      var bytes, i := 0, 0;
      while i < 2 && i < |files.archives|
        invariant i <= 2 && i <= |files.archives| && first == |files.archives| - i
        invariant i == 0 ==> bytes == 0
        invariant i == 1 ==> bytes == files.archives[|files.archives| - 1].bytes
        invariant i > 0 ==> bytes <= ARCHIVE_BYTES
        invariant i == 2 ==> Staying(files.archives) == 2
      {
        bytes := bytes + files.archives[|files.archives| - 1 - i].bytes;
        if bytes > ARCHIVE_BYTES {
          break;
        }
        first, i := first - 1, i + 1;
      }
    }

    method FoldSource(rules: Rules, retained: map<Id, Record>, records: seq<Record>) returns (m: map<Id, Record>)
      ensures m == rules.Fold(retained, records)
    {
      m := retained;
      for i := 0 to |records|
        invariant m == rules.Fold(retained, records[..i])
      {
        assert records[..i + 1][..i] == records[..i];
        var r := records[i];
        var id := rules.Key(r);
        if id in rules.protected || (!Committed(r) && (r.recovery || r.status != Failed)) {
          if Committed(r) || id !in m || !Committed(m[id]) {
            m := m[id := r.(incomplete := true)];
          }
        } else {
          m := m - {id};
        }
      }
      assert records[..|records|] == records;
    }

    method DropSettled(rules: Rules, retained: map<Id, Record>, records: seq<Record>) returns (m: map<Id, Record>)
      ensures m == retained - rules.Settled(records)
    {
      m := retained;
      assert rules.Settled(records[..0]) == {};
      for i := 0 to |records|
        invariant m == retained - rules.Settled(records[..i])
      {
        SettledMore(rules, records, i);
        if Committed(records[i]) {
          m := m - {rules.Key(records[i])};
        }
      }
      assert records[..|records|] == records;
    }

    method ReadFacts(rules: Rules, first: nat) returns (m: map<Id, Record>)
      requires files.Valid() && first == First(files.archives)
      ensures m == Retained(rules, files)
    {
      m := FoldSource(rules, map[], OrEmpty(files.recovery));
      assert OrEmpty(files.recovery) + Contents(files.archives[..0]) == OrEmpty(files.recovery);
      for i := 0 to first
        invariant m == rules.Fold(map[], OrEmpty(files.recovery) + Contents(files.archives[..i]))
      {
        NextContents(rules, OrEmpty(files.recovery), files.archives, i);
        m := FoldSource(rules, m, files.archives[i].Content());
      }
      m := DropSettled(rules, m, Contents(files.archives[first..]) + OrEmpty(files.active));
    }

    method Write(m: map<Id, Record>) returns (lines: seq<Record>)
      ensures lines == Lines(m)
    {
      lines := [];
      var rest := m;
      while rest != map[]
        invariant lines + Lines(rest) == Lines(m)
        decreases rest.Keys
      {
        SomeLeast(rest.Keys);
        var id :| Least(rest.Keys, id);
        lines, rest := lines + [rest[id]], rest - {id};
      }
    }

    /** Deletes segment after segment, raw file first; `steps` deletions may still happen. */
    method DeleteExpired(rules: Rules, first: nat, steps: nat, ghost f: Files) returns (left: Option<nat>)
      requires f.Valid() && first == First(f.archives) && files == Partly(f, Some(Lines(Retained(rules, f))), 0, false)
      modifies this
      ensures left.Some? ==> files == Partly(f, Some(Lines(Retained(rules, f))), first, false)
      ensures steps >= 2 * first ==> left.Some? && left.value >= steps - 2 * first
      ensures exists gone, half :: Reaches(f, gone, half) && files == Partly(f, Some(Lines(Retained(rules, f))), gone, half)
    {
      var i, budget: nat := 0, steps;
      while i < first
        invariant i <= first && files == Partly(f, Some(Lines(Retained(rules, f))), i, false)
        invariant budget >= steps - 2 * i
      {
        assert Reaches(f, i, false) && files.archives[0] == f.archives[i];
        if budget == 0 {
          return None;
        }
        budget := budget - 1;
        if files.archives[0].gz.Some? {
          files := files.(archives := [files.archives[0].(raw := None)] + files.archives[1..]);
          assert Reaches(f, i, true);
          if budget == 0 {
            return None;
          }
          budget := budget - 1;
        }
        files := files.(archives := files.archives[1..]);
        i := i + 1;
        assert Reaches(f, i, false);
      }
      assert Reaches(f, first, false);
      return Some(budget);
    }

    /** `maintain_archives`, which may stop before any of its durable steps. */
    method Maintain(rules: Rules, steps: nat) returns (finished: bool)
      requires files.Valid()
      modifies this
      ensures files.Valid()
      ensures Retained(rules, files) == Retained(rules, old(files)) && Settle(rules, files) == Settle(rules, old(files))
      ensures KeepsEvidence(rules, old(files), files)
      ensures finished ==> files == Settle(rules, old(files))
      ensures steps >= 2 * |old(files).archives| + 2 ==> finished
    {
      var first := FirstRetained();
      if first == 0 && files.recovery.None? {
        NothingToDo(rules, files);
        UntouchedKeeps(rules, files);
        return true;
      }
      ghost var f := files;
      UntouchedKeeps(rules, f);
      var m := ReadFacts(rules, first);
      if steps == 0 {
        return false;
      }
      var lines := Write(m);
      if files.recovery != Some(lines) {
        files := files.(recovery := Some(lines));
      }
      assert Reaches(f, 0, false);
      var left := DeleteExpired(rules, first, steps - 1, f);
      ghost var gone, half :| Reaches(f, gone, half) && files == Partly(f, Some(Lines(Retained(rules, f))), gone, half);
      PartlyRetains(rules, f, gone, half);
      PublishedKeeps(rules, f, files);
      if left.None? {
        return false;
      }
      if m != map[] {
        return true;
      }
      if left.value == 0 {
        return false;
      }
      files := files.(recovery := None);
      Emptied(rules, f);
      EmptyKeeps(rules, f, files);
      return true;
    }
  }

  lemma SettledMore(rules: Rules, records: seq<Record>, i: nat)
    requires i < |records|
    ensures rules.Settled(records[..i + 1])
            == rules.Settled(records[..i]) + if Committed(records[i]) then {rules.Key(records[i])} else {}
  {
    assert records[..i + 1] == records[..i] + [records[i]];
    assert forall j :: 0 <= j < i ==> records[..i + 1][j] == records[..i][j];
    forall id | id in rules.Settled(records[..i]) ensures id in rules.Settled(records[..i + 1]) {
      var j :| 0 <= j < i && Committed(records[..i][j]) && rules.Key(records[..i][j]) == id;
      assert records[..i + 1][j] == records[..i][j];
    }
    if Committed(records[i]) {
      assert records[..i + 1][i] == records[i];
    }
  }

  lemma NextContents(rules: Rules, before: seq<Record>, archives: seq<Segment>, i: nat)
    requires Sound(archives) && i < |archives|
    ensures rules.Fold(map[], before + Contents(archives[..i + 1]))
            == rules.Fold(rules.Fold(map[], before + Contents(archives[..i])), archives[i].Content())
  {
    assert archives[..i + 1] == archives[..i] + [archives[i]];
    ContentsConcat(archives[..i], [archives[i]]);
    assert Contents([archives[i]]) == archives[i].Content() + Contents([archives[i]][1..]);
    assert Contents(archives[..i + 1]) == Contents(archives[..i]) + archives[i].Content();
    assert before + (Contents(archives[..i]) + archives[i].Content()) == before + Contents(archives[..i]) + archives[i].Content();
    FoldConcat(rules, map[], before + Contents(archives[..i]), archives[i].Content());
  }

  /** Stopped anywhere and started again with the same protected operations, maintenance ends with the
      recovery file and the segments of an uninterrupted run. */
  method StopAndRestart(disk: Disk, rules: Rules, steps: nat)
    requires disk.files.Valid()
    modifies disk
    ensures disk.files == Settle(rules, old(disk.files)) && disk.files.Valid()
    ensures KeepsEvidence(rules, old(disk.files), disk.files)
  {
    ghost var f := disk.files;
    var stopped := disk.Maintain(rules, steps);
    var finished := disk.Maintain(rules, 2 * |disk.files.archives| + 2);
    if Retained(rules, f) == map[] {
      EmptyKeeps(rules, f, disk.files);
    } else {
      PublishedKeeps(rules, f, disk.files);
    }
  }
}
