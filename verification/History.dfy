/** The history cache: read on from where the growing files were left, it agrees with a rebuild on
    every confirmed fact, although diagnostics are then folded in another order. */
module History {
  import opened Paths

  type Id = string
  type Zone = string

  datatype Status = Renamed | Reverted | Failed | Other

  /** `complete`: the directory, old and new name are all texts. `raw` is the record's own text. */
  datatype Record = Record(operation: Option<Id>, status: Status, complete: bool, restores: Option<Id>, timestamp: string, raw: string)

  /** The day of a timestamp in a time zone, and the digest that names a record without an id. */
  datatype Calendar = Calendar(day: (Zone, string) -> string, digest: string -> Id)

  datatype Row = Row(record: Record, position: int, confirmed: bool, day: string, visible: bool, lastEvent: int, event: Option<Record>)

  datatype Cache = Cache(rows: map<Id, Row>, restores: map<Id, Id>, position: int)

  predicate Listed(r: Record) { r.status != Other && r.complete }

  /** Records that can confirm or restore an operation. */
  predicate Confirming(r: Record) { Listed(r) && (r.status == Renamed || r.status == Reverted) }

  function IdOf(cal: Calendar, r: Record): Id {
    if r.operation.Some? then r.operation.value else cal.digest(r.raw)
  }

  function Upsert(rows: map<Id, Row>, cal: Calendar, zone: Zone, r: Record, position: int): map<Id, Row> {
    var id := IdOf(cal, r);
    var confirmed := r.status == Renamed;
    var visible := r.status != Reverted || r.restores.None?;
    var day := cal.day(zone, r.timestamp);
    if id !in rows then rows[id := Row(r, position, confirmed, day, visible, position, None)]
    else
      var row := rows[id];
      var wins := confirmed || !row.confirmed;
      rows[id := Row(if wins then r else row.record, if wins then position else row.position, row.confirmed || confirmed,
                     if !row.confirmed && confirmed then day else row.day, if wins then visible else row.visible,
                     position, if wins then None else Some(r))]
  }

  function Visit(c: Cache, cal: Calendar, zone: Zone, r: Record): Cache {
    var position := c.position + 1;
    if !Listed(r) then c.(position := position)
    else
      var restores := if r.status == Reverted && r.restores.Some? && r.operation.Some?
                      then c.restores[r.restores.value := r.operation.value] else c.restores;
      Cache(Upsert(c.rows, cal, zone, r, position), restores, position)
  }

  function Fold(c: Cache, cal: Calendar, zone: Zone, records: seq<Record>): Cache
    decreases |records|
  {
    if records == [] then c else Fold(Visit(c, cal, zone, records[0]), cal, zone, records[1..])
  }

  // ---------------------------------------------------------------- agreement on confirmed facts

  predicate Confirmed(c: Cache, id: Id) { id in c.rows && c.rows[id].confirmed }

  predicate SameRow(a: Cache, b: Cache, id: Id) {
    && (Confirmed(a, id) <==> Confirmed(b, id))
    && (Confirmed(a, id) ==> a.rows[id].record == b.rows[id].record && a.rows[id].day == b.rows[id].day
                             && a.rows[id].visible == b.rows[id].visible)
  }

  predicate SameOrder(a: Cache, b: Cache, i: Id, j: Id) {
    Confirmed(a, i) && Confirmed(a, j) && Confirmed(b, i) && Confirmed(b, j) ==>
      (a.rows[i].position < a.rows[j].position <==> b.rows[i].position < b.rows[j].position)
  }

  /** The same confirmed rows, with payload, day, restored mark and undo request, in the same order. */
  ghost predicate Agree(a: Cache, b: Cache) {
    (forall id :: SameRow(a, b, id)) && a.restores == b.restores && (forall i, j :: SameOrder(a, b, i, j))
  }

  predicate Numbered(c: Cache, id: Id) { id in c.rows ==> c.rows[id].position <= c.rows[id].lastEvent <= c.position }

  /** The counter is past every number given out. */
  ghost predicate Counted(c: Cache) { c.position >= 0 && forall id :: Numbered(c, id) }

  lemma VisitCounted(c: Cache, cal: Calendar, zone: Zone, r: Record)
    requires Counted(c)
    ensures Counted(Visit(c, cal, zone, r))
  {
    var c' := Visit(c, cal, zone, r);
    forall id ensures Numbered(c', id) { assert Numbered(c, id); }
  }

  lemma {:induction false} FoldCounted(c: Cache, cal: Calendar, zone: Zone, records: seq<Record>)
    requires Counted(c)
    ensures Counted(Fold(c, cal, zone, records))
    decreases |records|
  {
    if records != [] {
      VisitCounted(c, cal, zone, records[0]);
      FoldCounted(Visit(c, cal, zone, records[0]), cal, zone, records[1..]);
    }
  }

  lemma AgreeChain(a: Cache, b: Cache, c: Cache)
    requires Agree(a, b) && Agree(b, c)
    ensures Agree(a, c)
  {
    forall id ensures SameRow(a, c, id) { assert SameRow(a, b, id) && SameRow(b, c, id); }
    forall i, j ensures SameOrder(a, c, i, j) {
      assert SameOrder(a, b, i, j) && SameOrder(b, c, i, j) && SameRow(a, b, i) && SameRow(a, b, j);
    }
  }

  lemma AgreeBack(a: Cache, b: Cache)
    requires Agree(a, b)
    ensures Agree(b, a)
  {
    forall id ensures SameRow(b, a, id) { assert SameRow(a, b, id); }
    forall i, j ensures SameOrder(b, a, i, j) { assert SameOrder(a, b, i, j); }
  }

  /** A diagnostic changes no confirmed fact. */
  lemma DiagnosticAgrees(c: Cache, cal: Calendar, zone: Zone, r: Record)
    requires !Confirming(r)
    ensures Agree(c, Visit(c, cal, zone, r))
  {
    var c' := Visit(c, cal, zone, r);
    forall id ensures SameRow(c, c', id) { }
    forall i, j ensures SameOrder(c, c', i, j) { assert SameRow(c, c', i) && SameRow(c, c', j); }
  }

  /** A confirming record keeps agreement. */
  lemma ConfirmingAgrees(a: Cache, b: Cache, cal: Calendar, zone: Zone, r: Record)
    requires Agree(a, b) && Counted(a) && Counted(b) && Confirming(r)
    ensures Agree(Visit(a, cal, zone, r), Visit(b, cal, zone, r))
  {
    var a', b' := Visit(a, cal, zone, r), Visit(b, cal, zone, r);
    forall id ensures SameRow(a', b', id) { assert SameRow(a, b, id); }
    forall i, j ensures SameOrder(a', b', i, j) {
      assert SameOrder(a, b, i, j) && SameRow(a, b, i) && SameRow(a, b, j);
      assert Numbered(a, i) && Numbered(a, j) && Numbered(b, i) && Numbered(b, j);
    }
  }

  function Filter(records: seq<Record>): seq<Record> {
    if records == [] then []
    else if Confirming(records[0]) then [records[0]] + Filter(records[1..]) else Filter(records[1..])
  }

  lemma {:induction false} FilterConcat(a: seq<Record>, b: seq<Record>)
    ensures Filter(a + b) == Filter(a) + Filter(b)
    decreases |a|
  {
    if a == [] {
      assert a + b == b;
    } else {
      assert (a + b)[1..] == a[1..] + b;
      FilterConcat(a[1..], b);
    }
  }

  /** Only the confirming records matter. */
  lemma {:induction false} FilterAgrees(a: Cache, b: Cache, cal: Calendar, zone: Zone, records: seq<Record>)
    requires Agree(a, b) && Counted(a) && Counted(b)
    ensures Agree(Fold(a, cal, zone, records), Fold(b, cal, zone, Filter(records)))
    decreases |records|
  {
    if records != [] {
      var r := records[0];
      var a' := Visit(a, cal, zone, r);
      VisitCounted(a, cal, zone, r);
      if Confirming(r) {
        ConfirmingAgrees(a, b, cal, zone, r);
        VisitCounted(b, cal, zone, r);
        FilterAgrees(a', Visit(b, cal, zone, r), cal, zone, records[1..]);
        assert Filter(records)[1..] == Filter(records[1..]);
      } else {
        DiagnosticAgrees(a, cal, zone, r);
        AgreeBack(a, a');
        AgreeChain(a', a, b);
        FilterAgrees(a', b, cal, zone, records[1..]);
      }
    }
  }

  lemma {:induction false} FoldConcat(c: Cache, cal: Calendar, zone: Zone, a: seq<Record>, b: seq<Record>)
    ensures Fold(c, cal, zone, a + b) == Fold(Fold(c, cal, zone, a), cal, zone, b)
    decreases |a|
  {
    if a == [] {
      assert a + b == b;
    } else {
      assert (a + b)[1..] == a[1..] + b;
      FoldConcat(Visit(c, cal, zone, a[0]), cal, zone, a[1..], b);
    }
  }

  predicate Names(cal: Calendar, r: Record, id: Id) { r.status == Renamed && r.complete && IdOf(cal, r) == id }

  predicate Undoes(r: Record, id: Id) { r.status == Reverted && r.complete && r.restores == Some(id) && r.operation.Some? }

  function LastRename(cal: Calendar, records: seq<Record>, id: Id): Option<Record> {
    if records == [] then None
    else
      var later := LastRename(cal, records[1..], id);
      if later.Some? then later else if Names(cal, records[0], id) then Some(records[0]) else None
  }

  function FirstRename(cal: Calendar, records: seq<Record>, id: Id): Option<Record> {
    if records == [] then None
    else if Names(cal, records[0], id) then Some(records[0]) else FirstRename(cal, records[1..], id)
  }

  function LastUndo(records: seq<Record>, id: Id): Option<Id> {
    if records == [] then None
    else
      var later := LastUndo(records[1..], id);
      if later.Some? then later else if Undoes(records[0], id) then records[0].operation else None
  }

  /** What a fold knows of an operation: confirmed by its renames, with the last one's payload and the
      first one's day, and undone by the last record that restores it. */
  lemma {:induction false} FactsOf(c: Cache, cal: Calendar, zone: Zone, records: seq<Record>, id: Id)
    ensures var d := Fold(c, cal, zone, records);
            var last := LastRename(cal, records, id);
            && (Confirmed(d, id) <==> Confirmed(c, id) || last.Some?)
            && (last.Some? <==> FirstRename(cal, records, id).Some?)
            && (Confirmed(d, id) ==> && d.rows[id].record == (if last.Some? then last.value else c.rows[id].record)
                                     && d.rows[id].day == (if Confirmed(c, id) then c.rows[id].day
                                                           else cal.day(zone, FirstRename(cal, records, id).value.timestamp)))
            && (var undo := LastUndo(records, id);
                if undo.Some? then id in d.restores && d.restores[id] == undo.value
                else (id in d.restores <==> id in c.restores) && (id in d.restores ==> d.restores[id] == c.restores[id]))
    decreases |records|
  {
    if records != [] {
      FactsOf(Visit(c, cal, zone, records[0]), cal, zone, records[1..], id);
    }
  }

  /** A confirmed operation has the place of its last rename, counted in records read, and is shown. */
  lemma {:induction false} PlaceOf(c: Cache, cal: Calendar, zone: Zone, records: seq<Record>, id: Id, i: nat)
    requires i < |records| && Names(cal, records[i], id) && forall j :: i < j < |records| ==> !Names(cal, records[j], id)
    ensures var d := Fold(c, cal, zone, records);
            Confirmed(d, id) && d.rows[id].position == c.position + i + 1 && d.rows[id].visible
    decreases |records|
  {
    var c' := Visit(c, cal, zone, records[0]);
    assert forall j :: 0 <= j < |records[1..]| ==> records[1..][j] == records[j + 1];
    if i > 0 {
      PlaceOf(c', cal, zone, records[1..], id, i - 1);
    } else {
      StaysPlaced(c', cal, zone, records[1..], id);
    }
  }

  lemma {:induction false} StaysPlaced(c: Cache, cal: Calendar, zone: Zone, records: seq<Record>, id: Id)
    requires Confirmed(c, id) && forall j :: 0 <= j < |records| ==> !Names(cal, records[j], id)
    ensures var d := Fold(c, cal, zone, records);
            Confirmed(d, id) && d.rows[id].position == c.rows[id].position && d.rows[id].visible == c.rows[id].visible
    decreases |records|
  {
    if records != [] {
      assert forall j :: 0 <= j < |records[1..]| ==> records[1..][j] == records[j + 1];
      StaysPlaced(Visit(c, cal, zone, records[0]), cal, zone, records[1..], id);
    }
  }

  /** A record the history lists under `id`. */
  predicate Tells(cal: Calendar, r: Record, id: Id) {
    r.status in {Renamed, Reverted, Failed} && r.complete && IdOf(cal, r) == id
  }

  function LastTold(cal: Calendar, records: seq<Record>, id: Id): Option<Record> {
    if records == [] then None
    else
      var later := LastTold(cal, records[1..], id);
      if later.Some? then later else if Tells(cal, records[0], id) then Some(records[0]) else None
  }

  /** The latest event of an operation is the last record listed for it. While the operation is not confirmed
      that record is its payload, shown unless it restores another operation. */
  lemma {:induction false} LatestEvent(c: Cache, cal: Calendar, zone: Zone, records: seq<Record>, id: Id)
    ensures var d := Fold(c, cal, zone, records); var last := LastTold(cal, records, id);
            && (id in d.rows <==> id in c.rows || last.Some?)
            && (last.Some? ==>
                  && (if d.rows[id].event.Some? then d.rows[id].event.value else d.rows[id].record) == last.value
                  && (!d.rows[id].confirmed ==>
                        && d.rows[id].record == last.value && d.rows[id].event == None
                        && d.rows[id].visible == !(last.value.status == Reverted && last.value.restores.Some?)))
            && (last.None? && id in c.rows ==> d.rows[id] == c.rows[id])
    decreases |records|
  {
    if records != [] {
      LatestEvent(Visit(c, cal, zone, records[0]), cal, zone, records[1..], id);
    }
  }

  /** How many confirmed operations fall on a day. */
  function CountOn(c: Cache, day: string): nat {
    |set id | id in c.rows && c.rows[id].confirmed && c.rows[id].day == day|
  }

  lemma AgreeOnCounts(a: Cache, b: Cache, day: string)
    requires Agree(a, b)
    ensures CountOn(a, day) == CountOn(b, day)
  {
    assert forall id :: SameRow(a, b, id);
    assert (set id | id in a.rows && a.rows[id].confirmed && a.rows[id].day == day)
        == (set id | id in b.rows && b.rows[id].confirmed && b.rows[id].day == day) by {
      forall id ensures (id in a.rows && a.rows[id].confirmed && a.rows[id].day == day)
                        <==> (id in b.rows && b.rows[id].confirmed && b.rows[id].day == day) {
        assert SameRow(a, b, id);
      }
    }
  }

  // ---------------------------------------------------------------- sources

  datatype Name = Diagnostics(n: nat) | Errors | Recovery | Segment(name: string) | Log

  /** A file as its metadata shows it; `content` are its records, one a line. */
  datatype Source = Source(name: Name, inode: nat, modified: int, content: seq<Record>)

  /** Where `emit` writes: what confirms goes to the journal, never to the diagnostics. */
  predicate Routed(s: Source) { (s.name.Diagnostics? || s.name.Errors?) ==> Filter(s.content) == [] }

  /** The journal that still grows is read last. */
  ghost predicate Arranged(sources: seq<Source>) {
    && (forall i :: 0 <= i < |sources| ==> Routed(sources[i]))
    && (forall i :: 0 <= i < |sources| && sources[i].name.Log? ==> i == |sources| - 1)
  }

  function Contents(sources: seq<Source>): seq<Record> {
    if sources == [] then [] else Contents(sources[..|sources| - 1]) + sources[|sources| - 1].content
  }

  /** The same file, longer: only the journal and the current diagnostics grow in place. */
  predicate Grown(before: Source, now: Source) {
    && now.name == before.name && (now.name.Log? || now.name.Errors?) && now.inode == before.inode
    && |now.content| > |before.content|
  }

  predicate Continues(prior: seq<Source>, current: seq<Source>) {
    |prior| == |current| && forall i :: 0 <= i < |prior| ==> current[i] == prior[i] || Grown(prior[i], current[i])
  }

  /** Files are only appended to. */
  ghost predicate Appended(prior: seq<Source>, current: seq<Source>) {
    |prior| == |current| ==> forall i :: 0 <= i < |prior| ==> AppendedTo(prior[i], current[i])
  }

  /** A growing file that is still the same file was only appended to. */
  predicate AppendedTo(before: Source, now: Source) {
    now.name == before.name && (now.name.Log? || now.name.Errors?) && now.inode == before.inode && |now.content| > |before.content| ==>
      before.content <= now.content
  }

  function NewPart(before: Source, now: Source): seq<Record>
    requires |before.content| <= |now.content|
  {
    now.content[|before.content|..]
  }

  function NewParts(prior: seq<Source>, current: seq<Source>): seq<Record>
    requires Continues(prior, current)
  {
    if prior == [] then []
    else
      var n := |prior| - 1;
      assert forall i :: 0 <= i < n ==> prior[..n][i] == prior[i] && current[..n][i] == current[i];
      NewParts(prior[..n], current[..n]) + NewPart(prior[n], current[n])
  }

  /** Diagnostics that grew confirm nothing; before the journal nothing else grows. */
  lemma {:induction false} EarlierPartsConfirmNothing(prior: seq<Source>, current: seq<Source>)
    requires Continues(prior, current) && Appended(prior, current)
    requires forall i :: 0 <= i < |prior| ==> Routed(prior[i]) && Routed(current[i]) && !current[i].name.Log?
    ensures Filter(NewParts(prior, current)) == [] && Filter(Contents(prior)) == Filter(Contents(current))
    decreases |prior|
  {
    if prior != [] {
      var n := |prior| - 1;
      EarlierPartsConfirmNothing(prior[..n], current[..n]);
      var part := NewPart(prior[n], current[n]);
      FilterConcat(NewParts(prior[..n], current[..n]), part);
      FilterConcat(Contents(prior[..n]), prior[n].content);
      FilterConcat(Contents(current[..n]), current[n].content);
      assert current[n].content == prior[n].content + part;
      FilterConcat(prior[n].content, part);
    }
  }

  lemma LastPartConfirms(a: seq<Record>, b: seq<Record>, more: seq<Record>, before: seq<Record>, part: seq<Record>)
    requires Filter(more) == [] && Filter(a) == Filter(b)
    ensures Filter(a + before) + Filter(more + part) == Filter(b + (before + part))
  {
    var x, y, z := Filter(a), Filter(before), Filter(part);
    assert Filter(a + before) == x + y by { FilterConcat(a, before); }
    assert Filter(more + part) == z by { FilterConcat(more, part); }
    assert Filter(b + (before + part)) == x + (y + z) by {
      FilterConcat(b, before + part);
      FilterConcat(before, part);
    }
    assert x + y + z == x + (y + z);
  }

  /** Reading on confirms what reading everything again confirms, in the same order. */
  lemma ReadOnConfirms(prior: seq<Source>, current: seq<Source>)
    requires Continues(prior, current) && Appended(prior, current) && Arranged(prior) && Arranged(current)
    ensures Filter(Contents(prior)) + Filter(NewParts(prior, current)) == Filter(Contents(current))
  {
    if prior != [] {
      var n := |prior| - 1;
      var part := NewPart(prior[n], current[n]);
      assert current[n].content == prior[n].content + part;
      EarlierPartsConfirmNothing(prior[..n], current[..n]);
      LastPartConfirms(Contents(prior[..n]), Contents(current[..n]), NewParts(prior[..n], current[..n]), prior[n].content, part);
    }
  }

  // ---------------------------------------------------------------- the cache file

  const EMPTY := Cache(map[], map[], 0)

  ghost function Rebuilt(cal: Calendar, zone: Zone, sources: seq<Source>): Cache {
    Fold(EMPTY, cal, zone, Contents(sources))
  }

  class HistoryFile {
    const cal: Calendar
    var rows: map<Id, Row>
    var restores: map<Id, Id>
    var prior: seq<Source>
    var zone: Option<Zone>   // the time zone the days were computed in

    function Facts(): Cache reads this { Cache(rows, restores, HighestEvent(rows)) }

    /** The cache agrees with a rebuild from the sources it was last read from. */
    ghost predicate Valid() reads this {
      && Counted(Facts()) && Arranged(prior)
      && (zone.Some? ==> Agree(Facts(), Rebuilt(cal, zone.value, prior)))
    }

    constructor (cal: Calendar)
      ensures Valid() && this.cal == cal && zone == None && rows == map[]
    {
      this.cal := cal;
      rows, restores, prior, zone := map[], map[], [], None;
    }

    /** Brings the cache up to the current sources: not at all, by reading on, or by a rebuild. */
    method Refresh(current: seq<Source>, now: Zone)
      requires Valid() && Arranged(current) && Appended(prior, current)
      modifies this
      ensures Valid() && prior == current && zone == Some(now)
      ensures Agree(Facts(), Rebuilt(cal, now, current))
      ensures forall day :: CountOn(Facts(), day) == CountOn(Rebuilt(cal, now, current), day)
    {
      if current == prior && zone == Some(now) {
        AgreeOnAllCounts(Facts(), Rebuilt(cal, now, current));
        return;
      }
      var incremental := zone == Some(now) && Continues(prior, current);
      if !incremental {
        rows, restores := map[], map[];
      }
      ghost var start := Facts();
      var cache := Read(current, now, incremental);
      if incremental {
        ReadOnConfirms(prior, current);
        ReadOnAgrees(start, cal, now, Contents(prior), NewParts(prior, current), Contents(current));
      } else {
        assert start == EMPTY;
        Reflexive(cache);
      }
      Settle(start, cache, if incremental then NewParts(prior, current) else Contents(current), now);
      rows, restores, prior, zone := cache.rows, cache.restores, current, Some(now);
      Renumbered(cache, Facts());
      AgreeBack(cache, Facts());
      AgreeChain(Facts(), cache, Rebuilt(cal, now, current));
      AgreeOnAllCounts(Facts(), Rebuilt(cal, now, current));
    }

    ghost method Settle(start: Cache, cache: Cache, read: seq<Record>, now: Zone)
      requires Counted(start) && cache == Fold(start, cal, now, read)
      ensures Counted(cache)
    {
      FoldCounted(start, cal, now, read);
    }

    method Read(current: seq<Source>, now: Zone, incremental: bool) returns (cache: Cache)
      requires incremental ==> Continues(prior, current)
      ensures cache == Fold(Facts(), cal, now, if incremental then NewParts(prior, current) else Contents(current))
    {
      cache := Cache(rows, restores, HighestEvent(rows));
      for i := 0 to |current|
        invariant incremental ==> Continues(prior[..i], current[..i]) && cache == Fold(Facts(), cal, now, NewParts(prior[..i], current[..i]))
        invariant !incremental ==> cache == Fold(Facts(), cal, now, Contents(current[..i]))
      {
        var offset := if incremental then |prior[i].content| else 0;
        cache := Stream(cache, current[i].content[offset..], now);
        assert current[..i + 1][..i] == current[..i];
        if incremental {
          assert prior[..i + 1][..i] == prior[..i];
          FoldConcat(Facts(), cal, now, NewParts(prior[..i], current[..i]), NewPart(prior[i], current[i]));
        } else {
          assert current[i].content[0..] == current[i].content;
          FoldConcat(Facts(), cal, now, Contents(current[..i]), current[i].content);
        }
      }
      assert current[..|current|] == current;
      if incremental {
        assert prior[..|current|] == prior;
      }
    }

    method Stream(start: Cache, records: seq<Record>, now: Zone) returns (cache: Cache)
      ensures cache == Fold(start, cal, now, records)
    {
      cache := start;
      for i := 0 to |records|
        invariant Fold(cache, cal, now, records[i..]) == Fold(start, cal, now, records)
      {
        assert records[i..][1..] == records[i + 1..];
        cache := Visit(cache, cal, now, records[i]);
      }
    }
  }

  /** MAX(event_position), 0 on the empty table. */
  function HighestEvent(rows: map<Id, Row>): int {
    Highest(EventNumbers(rows))
  }

  function EventNumbers(rows: map<Id, Row>): set<int> { set id | id in rows :: rows[id].lastEvent }

  function Highest(numbers: set<int>): (m: int)
    ensures m >= 0 && (forall n :: n in numbers ==> n <= m) && (m == 0 || m in numbers)
  {
    if exists n :: n in numbers && n > 0 && forall k :: k in numbers ==> k <= n then
      var n :| n in numbers && n > 0 && forall k :: k in numbers ==> k <= n;
      n
    else
      AllLow(numbers);
      0
  }

  lemma {:induction false} AllLow(numbers: set<int>)
    ensures (exists n :: n in numbers && n > 0 && forall k :: k in numbers ==> k <= n) || forall n :: n in numbers ==> n <= 0
    decreases numbers
  {
    if n :| n in numbers {
      var rest := numbers - {n};
      AllLow(rest);
      assert numbers == rest + {n};
      if m :| m in rest && m > 0 && forall k :: k in rest ==> k <= m {
        var top := if m >= n then m else n;
        assert top in numbers && top > 0 && forall k :: k in numbers ==> k <= top;
      } else if n > 0 {
        assert forall k :: k in numbers ==> k <= n;
      }
    }
  }

  lemma Reflexive(c: Cache)
    ensures Agree(c, c)
  {
  }

  lemma Renumbered(c: Cache, d: Cache)
    requires Counted(c) && d.rows == c.rows && d.restores == c.restores && d.position == HighestEvent(c.rows)
    ensures Agree(c, d) && Counted(d)
  {
    forall id ensures Numbered(d, id) {
      assert Numbered(c, id);
      assert id in d.rows ==> d.rows[id].lastEvent in EventNumbers(d.rows);
    }
  }

  lemma AgreeOnAllCounts(a: Cache, b: Cache)
    requires Agree(a, b)
    ensures forall day :: CountOn(a, day) == CountOn(b, day)
  {
    forall day ensures CountOn(a, day) == CountOn(b, day) { AgreeOnCounts(a, b, day); }
  }

  /** Folding on from an agreeing cache agrees with folding everything that confirms the same. */
  lemma ReadOnAgrees(start: Cache, cal: Calendar, zone: Zone, before: seq<Record>, more: seq<Record>, all: seq<Record>)
    requires Counted(start) && Agree(start, Fold(EMPTY, cal, zone, before))
    requires Filter(before) + Filter(more) == Filter(all)
    ensures Agree(Fold(start, cal, zone, more), Fold(EMPTY, cal, zone, all))
  {
    var whole := Fold(EMPTY, cal, zone, before);
    FoldCounted(EMPTY, cal, zone, before);
    FilterAgrees(start, whole, cal, zone, more);
    Reflexive(EMPTY);
    FilterAgrees(EMPTY, EMPTY, cal, zone, before);
    var filtered := Fold(EMPTY, cal, zone, Filter(before));
    FoldCounted(EMPTY, cal, zone, Filter(before));
    FilterFilter(more);
    FilterAgrees(whole, filtered, cal, zone, Filter(more));
    FoldConcat(EMPTY, cal, zone, Filter(before), Filter(more));
    FilterAgrees(EMPTY, EMPTY, cal, zone, all);
    AgreeChain(Fold(start, cal, zone, more), Fold(whole, cal, zone, Filter(more)), Fold(EMPTY, cal, zone, Filter(all)));
    AgreeBack(Fold(EMPTY, cal, zone, all), Fold(EMPTY, cal, zone, Filter(all)));
    AgreeChain(Fold(start, cal, zone, more), Fold(EMPTY, cal, zone, Filter(all)), Fold(EMPTY, cal, zone, all));
  }

  lemma {:induction false} FilterFilter(records: seq<Record>)
    ensures Filter(Filter(records)) == Filter(records)
    decreases |records|
  {
    if records != [] {
      FilterFilter(records[1..]);
      if Confirming(records[0]) {
        assert Filter(records)[1..] == Filter(records[1..]);
      }
    }
  }
}
