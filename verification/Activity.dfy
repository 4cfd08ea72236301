/** The worker's in-memory event feed: exact byte accounting, two bounds, contiguous sequence numbers,
    and one unresolved row per issue. */
module Activity {
  import opened Paths

  const MAX_EVENTS := 200
  const EVENT_BYTES := 32 * 1024
  const MAX_STRING_BYTES := 768
  const MAX_RESPONSE_BYTES := 64 * 1024
  const MAX_COUNT := 0xFFFF_FFFF_FFFF_FFFF

  // ---------------------------------------------------------------- bounded text

  /** Bytes of a character in UTF-8. */
  function Width(c: char): (n: nat)
    ensures 1 <= n <= 4
  {
    var code := c as int;
    if code < 0x80 then 1 else if code < 0x800 then 2 else if code < 0x10000 then 3 else 4
  }

  function Bytes(text: string): nat {
    if text == "" then 0 else Width(text[0]) + Bytes(text[1..])
  }

  /** The longest prefix of whole characters within `limit` bytes. */
  function Fits(text: string, limit: nat): (n: nat)
    ensures n <= |text| && Bytes(text[..n]) <= limit
    ensures n == |text| || Bytes(text[..n + 1]) > limit
  {
    if text == "" then 0
    else if Width(text[0]) > limit then
      assert text[..1][1..] == "";
      0
    else
      var n := Fits(text[1..], limit - Width(text[0]));
      assert text[..n + 1][1..] == text[1..][..n];
      assert n + 1 < |text| ==> text[..n + 2][1..] == text[1..][..n + 1];
      n + 1
  }

  function Bounded(text: string): string {
    if Bytes(text) <= MAX_STRING_BYTES then text else text[..Fits(text, MAX_STRING_BYTES - 3)] + "\U{2026}"
  }

  lemma {:induction false} BytesConcat(a: string, b: string)
    ensures Bytes(a + b) == Bytes(a) + Bytes(b)
    decreases |a|
  {
    if a == "" {
      assert a + b == b;
    } else {
      assert (a + b)[1..] == a[1..] + b;
      BytesConcat(a[1..], b);
    }
  }

  /** The display text never exceeds the bound, and is the text itself exactly when that fits. */
  lemma BoundedFits(text: string)
    ensures Bytes(Bounded(text)) <= MAX_STRING_BYTES
    ensures Bounded(text) == text <==> Bytes(text) <= MAX_STRING_BYTES
  {
    if Bytes(text) > MAX_STRING_BYTES {
      var cut := text[..Fits(text, MAX_STRING_BYTES - 3)];
      assert "\U{2026}"[1..] == "" && Bytes("\U{2026}") == 3;
      BytesConcat(cut, "\U{2026}");
    }
  }

  lemma {:induction false} FitsPrefix(text: string, more: string, limit: nat)
    requires Bytes(text) > limit
    ensures Fits(text + more, limit) == Fits(text, limit)
    decreases |text|
  {
    assert (text + more)[0] == text[0];
    if Width(text[0]) <= limit {
      assert (text + more)[1..] == text[1..] + more;
      FitsPrefix(text[1..], more, limit - Width(text[0]));
    }
  }

  /** Truncated texts cannot establish identity: whatever follows, the display is the same. */
  lemma TruncationCollides(text: string, more: string)
    requires Bytes(text) > MAX_STRING_BYTES
    ensures Bounded(text + more) == Bounded(text)
  {
    BytesConcat(text, more);
    FitsPrefix(text, more, MAX_STRING_BYTES - 3);
    assert (text + more)[..Fits(text, MAX_STRING_BYTES - 3)] == text[..Fits(text, MAX_STRING_BYTES - 3)];
  }

  function BoundedOption(text: Option<string>): Option<string> {
    if text.Some? then Some(Bounded(text.value)) else None
  }

  predicate Short(text: Option<string>) { text.None? || Bytes(text.value) <= MAX_STRING_BYTES }

  // ---------------------------------------------------------------- events

  datatype Event = Event(sequence: nat, at: real, firstAt: real, kind: string, phase: string, path: Option<string>,
                         scope: Option<string>, reason: Option<string>, errno: Option<int>, occurrences: nat,
                         resolvedAt: Option<real>, resolution: Option<string>,
                         pathTruncated: bool, phaseTruncated: bool, reasonTruncated: bool)

  predicate IssueKind(kind: string) { kind == "error" || kind == "deferred" }

  /** An unresolved row whose texts are whole: it has an identity. */
  predicate Issue(e: Event) {
    IssueKind(e.kind) && !e.pathTruncated && !e.phaseTruncated && !e.reasonTruncated && e.resolvedAt.None?
  }

  predicate SameIssue(a: Event, b: Event) {
    a.kind == b.kind && a.phase == b.phase && a.path == b.path && a.reason == b.reason && a.errno == b.errno
  }

  predicate Answers(e: Event, kind: string, phase: string, path: Option<string>, reason: Option<string>, errno: Option<int>) {
    Issue(e) && e.kind == kind && e.phase == phase && e.path == path && e.reason == reason && e.errno == errno
  }

  /** What a resolution of `path` in `phase` settles: the reason may be truncated. */
  predicate Settles(e: Event, phase: string, path: Option<string>) {
    IssueKind(e.kind) && e.path == path && !e.pathTruncated && !e.phaseTruncated && e.phase == phase && e.resolvedAt.None?
  }

  function Total(size: Event -> nat, events: seq<Event>): nat {
    if events == [] then 0 else size(events[0]) + Total(size, events[1..])
  }

  lemma {:induction false} TotalUpdate(size: Event -> nat, events: seq<Event>, i: nat, e: Event)
    requires i < |events|
    ensures Total(size, events[i := e]) == Total(size, events) - size(events[i]) + size(e)
    ensures Total(size, events) >= size(events[i])
    decreases |events|
  {
    if i > 0 {
      assert events[i := e][1..] == events[1..][i - 1 := e];
      TotalUpdate(size, events[1..], i - 1, e);
    } else {
      assert events[0 := e][1..] == events[1..];
    }
  }

  lemma {:induction false} TotalAppend(size: Event -> nat, events: seq<Event>, e: Event)
    ensures Total(size, events + [e]) == Total(size, events) + size(e)
    decreases |events|
  {
    if events == [] {
      assert (events + [e])[1..] == [];
    } else {
      assert (events + [e])[1..] == events[1..] + [e];
      TotalAppend(size, events[1..], e);
    }
  }

  predicate NumberedAt(events: seq<Event>, dropped: nat, i: int) {
    0 <= i < |events| ==> events[i].sequence == dropped + 1 + i
  }

  /** Retained rows are numbered without a gap, right after the dropped ones. */
  ghost predicate Numbered(events: seq<Event>, dropped: nat) { forall i :: NumberedAt(events, dropped, i) }

  predicate Apart(events: seq<Event>, i: int, j: int) {
    0 <= i < j < |events| && Issue(events[i]) && Issue(events[j]) ==> !SameIssue(events[i], events[j])
  }

  /** No two unresolved rows are the same issue. */
  ghost predicate Unique(events: seq<Event>) { forall i, j :: Apart(events, i, j) }

  predicate Oversized(size: Event -> nat, events: seq<Event>) { |events| > MAX_EVENTS || Total(size, events) > EVENT_BYTES }

  ghost predicate Consistent(events: seq<Event>, dropped: nat) { Numbered(events, dropped) && Unique(events) }

  lemma DropFirst(events: seq<Event>, dropped: nat)
    requires Consistent(events, dropped) && events != []
    ensures Consistent(events[1..], dropped + 1)
  {
    var rest, after: nat := events[1..], dropped + 1;
    forall i ensures NumberedAt(rest, after, i) { assert NumberedAt(events, dropped, i + 1); }
    forall i, j ensures Apart(rest, i, j) { assert Apart(events, i + 1, j + 1); }
  }

  lemma {:induction false} DropMany(events: seq<Event>, dropped: nat, n: nat)
    requires Consistent(events, dropped) && n <= |events|
    ensures Consistent(events[n..], dropped + n)
    decreases n
  {
    if n > 0 {
      DropFirst(events, dropped);
      DropMany(events[1..], dropped + 1, n - 1);
      assert events[1..][n - 1..] == events[n..];
    } else {
      assert events[0..] == events;
    }
  }

  lemma AppendConsistent(events: seq<Event>, dropped: nat, e: Event)
    requires Consistent(events, dropped) && e.sequence == dropped + |events| + 1
    requires Issue(e) ==> forall i :: 0 <= i < |events| && Issue(events[i]) ==> !SameIssue(events[i], e)
    ensures Consistent(events + [e], dropped)
  {
    forall i ensures NumberedAt(events + [e], dropped, i) { assert NumberedAt(events, dropped, i); }
    forall i, j ensures Apart(events + [e], i, j) { assert Apart(events, i, j); }
  }

  /** A row may change as long as it names no other issue. */
  lemma UpdateConsistent(events: seq<Event>, dropped: nat, i: nat, e: Event)
    requires Consistent(events, dropped) && i < |events| && e.sequence == events[i].sequence
    requires Issue(e) ==> Issue(events[i]) && SameIssue(e, events[i])
    ensures Consistent(events[i := e], dropped)
  {
    var now := events[i := e];
    forall k ensures NumberedAt(now, dropped, k) { assert NumberedAt(events, dropped, k); }
    forall k, l ensures Apart(now, k, l) { assert Apart(events, k, l); }
  }

  datatype Resolution = Checked | WasRenamed | Restored | Absent | NoLongerNeeded | Unknown(text: string)

  function Named(r: Resolution): string {
    match r
    case Checked => "checked"
    case WasRenamed => "renamed"
    case Restored => "restored"
    case Absent => "absent"
    case NoLongerNeeded => "no_longer_needed"
    case Unknown(text) => text
  }

  /** A row resolved now, if the resolution settles it. */
  function Resolved(e: Event, phase: string, path: Option<string>, r: Resolution, time: real): Event {
    if Settles(e, phase, path) then e.(resolvedAt := Some(time), resolution := Some(Named(r))) else e
  }

  /** The first `n` rows resolved. */
  function ResolvedRows(events: seq<Event>, n: int, phase: string, path: Option<string>, r: Resolution, time: real): seq<Event> {
    seq(|events|, i requires 0 <= i < |events| => if i < n then Resolved(events[i], phase, path, r, time) else events[i])
  }

  /** An error or a deferral of exactly this path and phase, neither cut short, that is not resolved. */
  predicate Open(e: Event, phase: string, path: Option<string>) {
    && e.kind in {"error", "deferred"} && e.resolvedAt.None?
    && e.path == path && !e.pathTruncated && e.phase == phase && !e.phaseTruncated
  }

  /** After a resolution no row is left that it would settle; each of them carries the time and the name of
      the resolution now, and is otherwise as it was, like all other rows. */
  lemma ResolvedSettled(events: seq<Event>, phase: string, path: Option<string>, r: Resolution, time: real)
    ensures var now := ResolvedRows(events, |events|, phase, path, r, time);
            && (forall e :: e in now ==> !Open(e, phase, path))
            && |now| == |events|
            && forall i :: 0 <= i < |now| ==>
                 now[i] == if Open(events[i], phase, path) then events[i].(resolvedAt := Some(time), resolution := Some(Named(r))) else events[i]
  {
    var now := ResolvedRows(events, |events|, phase, path, r, time);
    forall i | 0 <= i < |now| ensures !Open(now[i], phase, path) {
      assert now[i] == Resolved(events[i], phase, path, r, time);
    }
  }

  /** The row of an issue that was reported once more. */
  function Again(e: Event, time: real, scope: Option<string>): Event {
    e.(at := time, scope := scope, occurrences := if e.occurrences < MAX_COUNT then e.occurrences + 1 else e.occurrences)
  }

  class State {
    const size: Event -> nat   // length of a row's serialization
    var events: seq<Event>
    var eventBytes: nat
    var dropped: nat
    var next: nat
    var scope: Option<string>

    ghost predicate Accounted() reads this {
      eventBytes == Total(size, events) && Consistent(events, dropped) && next == dropped + |events|
    }

    ghost predicate Valid() reads this { Accounted() && |events| <= MAX_EVENTS && eventBytes <= EVENT_BYTES }

    constructor (size: Event -> nat)
      ensures Valid() && this.size == size && events == [] && dropped == 0
    {
      this.size := size;
      events, eventBytes, dropped, next, scope := [], 0, 0, 0, None;
    }

    /** Drops the oldest rows until both bounds hold. An exact total is what makes this end: no rows
        means no bytes. */
    method TrimEvents()
      requires Accounted()
      modifies `events, `eventBytes, `dropped
      ensures Valid() && TrimmedFrom(old(events), old(dropped))
      ensures forall k :: 0 <= k < dropped - old(dropped) ==> Oversized(size, old(events)[k..])
    {
      while |events| > MAX_EVENTS || eventBytes > EVENT_BYTES
        invariant Accounted() && TrimmedFrom(old(events), old(dropped))
        invariant forall k :: 0 <= k < dropped - old(dropped) ==> Oversized(size, old(events)[k..])
        decreases |events|
      {
        assert Oversized(size, events);
        DropOldest();
      }
    }

    method DropOldest()
      requires Accounted() && events != []
      modifies `events, `eventBytes, `dropped
      ensures Accounted() && events == old(events)[1..] && dropped == old(dropped) + 1
    {
      DropFirst(events, dropped);
      eventBytes := eventBytes - size(events[0]);
      events := events[1..];
      dropped := dropped + 1;
    }

    /** The oldest rows are gone, and counted; the rest is as it was. */
    predicate TrimmedFrom(rows: seq<Event>, before: nat) reads this {
      before <= dropped <= before + |rows| && events == rows[dropped - before..]
    }

    /** The first unresolved row of the same issue. */
    method Existing(kind: string, phase: string, path: Option<string>, reason: Option<string>, errno: Option<int>)
      returns (found: Option<nat>)
      ensures found.Some? ==> found.value < |events| && Answers(events[found.value], kind, phase, path, reason, errno)
                              && forall j :: 0 <= j < found.value ==> !Answers(events[j], kind, phase, path, reason, errno)
      ensures found.None? ==> forall i :: 0 <= i < |events| ==> !Answers(events[i], kind, phase, path, reason, errno)
    {
      for i := 0 to |events|
        invariant forall j :: 0 <= j < i ==> !Answers(events[j], kind, phase, path, reason, errno)
      {
        if Answers(events[i], kind, phase, path, reason, errno) {
          return Some(i);
        }
      }
      return None;
    }

    method Repeat(index: nat, time: real)
      requires Accounted() && index < |events|
      modifies `events, `eventBytes
      ensures Accounted() && events == old(events)[index := Again(old(events)[index], time, scope)]
    {
      var event := events[index];
      var again := Again(event, time, scope);
      TotalUpdate(size, events, index, again);
      UpdateConsistent(events, dropped, index, again);
      eventBytes := eventBytes - size(event) + size(again);
      events := events[index := again];
    }

    method Append(event: Event)
      requires Accounted() && event.sequence == next + 1
      requires Issue(event) ==> forall i :: 0 <= i < |events| && Issue(events[i]) ==> !SameIssue(events[i], event)
      modifies `events, `eventBytes, `next
      ensures Accounted() && events == old(events) + [event]
    {
      TotalAppend(size, events, event);
      AppendConsistent(events, dropped, event);
      next := next + 1;
      eventBytes := eventBytes + size(event);
      events := events + [event];
    }

    function Fresh(kind: string, phase: string, path: Option<string>, reason: Option<string>, errno: Option<int>, time: real): Event
      reads this
    {
      Event(next + 1, time, time, kind, Bounded(phase), BoundedOption(path), scope, BoundedOption(reason), errno, 1,
            None, None, !Short(path), Bytes(phase) > MAX_STRING_BYTES, !Short(reason))
    }

    /** Does a known unresolved issue, one that no truncated text hides, answer the report? */
    ghost predicate Known(kind: string, phase: string, path: Option<string>, reason: Option<string>, errno: Option<int>)
      reads this
    {
      && IssueKind(kind) && Short(path) && Bytes(phase) <= MAX_STRING_BYTES && Short(reason)
      && exists i :: 0 <= i < |events| && Answers(events[i], kind, phase, path, reason, errno)
    }

    /** The row that answers a report: none for a text that truncation would hide. */
    method Recognize(kind: string, phase: string, path: Option<string>, reason: Option<string>, errno: Option<int>)
      returns (found: Option<nat>)
      ensures found.Some? <==> Known(kind, phase, path, reason, errno)
      ensures found.Some? ==> found.value < |events| && Answers(events[found.value], kind, phase, path, reason, errno)
                              && forall j :: 0 <= j < found.value ==> !Answers(events[j], kind, phase, path, reason, errno)
    {
      found := None;
      if IssueKind(kind) && Short(path) && Bytes(phase) <= MAX_STRING_BYTES && Short(reason) {
        found := Existing(kind, phase, path, reason, errno);
      }
    }

    lemma FreshIsOther(kind: string, phase: string, path: Option<string>, reason: Option<string>, errno: Option<int>, time: real, i: nat)
      requires !Known(kind, phase, path, reason, errno) && i < |events| && Issue(events[i])
      ensures var e := Fresh(kind, phase, path, reason, errno, time); Issue(e) ==> !SameIssue(events[i], e)
    {
    }

    /** Reports something: the first row of a known unresolved issue is counted once more, all else gets
        a row; every other row stays, except that the oldest are dropped while a bound is exceeded. */
    method Report(kind: string, phase: string, path: Option<string>, reason: Option<string>, errno: Option<int>, time: real)
      requires Valid()
      modifies `events, `eventBytes, `dropped, `next
      ensures Valid()
      ensures next == old(next) + if old(Known(kind, phase, path, reason, errno)) then 0 else 1
      ensures old(Known(kind, phase, path, reason, errno)) ==>
          exists i :: 0 <= i < |old(events)| && Answers(old(events)[i], kind, phase, path, reason, errno)
                      && (forall j :: 0 <= j < i ==> !Answers(old(events)[j], kind, phase, path, reason, errno))
                      && TrimmedFrom(old(events)[i := Again(old(events)[i], time, scope)], old(dropped))
      ensures !old(Known(kind, phase, path, reason, errno)) ==>
          TrimmedFrom(old(events) + [old(Fresh(kind, phase, path, reason, errno, time))], old(dropped))
    {
      var found := Recognize(kind, phase, path, reason, errno);
      if found.Some? {
        Repeat(found.value, time);
      } else {
        forall i | 0 <= i < |events| && Issue(events[i])
          ensures var e := Fresh(kind, phase, path, reason, errno, time); Issue(e) ==> !SameIssue(events[i], e)
        {
          FreshIsOther(kind, phase, path, reason, errno, time, i);
        }
        Append(Fresh(kind, phase, path, reason, errno, time));
      }
      TrimEvents();
    }

    /** A report never touches a row that is resolved or cut short, or that differs from it in kind, phase, path,
        reason or error number; the row it repeats has one occurrence more. */
    lemma RepeatsAlike(e: Event, kind: string, phase: string, path: Option<string>, reason: Option<string>, errno: Option<int>, time: real)
      ensures Answers(e, kind, phase, path, reason, errno)
              <==> && kind in {"error", "deferred"} && e.resolvedAt.None?
                   && !e.pathTruncated && !e.phaseTruncated && !e.reasonTruncated
                   && (e.kind, e.phase, e.path, e.reason, e.errno) == (kind, phase, path, reason, errno)
      ensures e.occurrences < MAX_COUNT ==> Again(e, time, scope).occurrences == e.occurrences + 1
      ensures Again(e, time, scope).(occurrences := e.occurrences, at := e.at, scope := e.scope) == e
    {
    }

    method ResolveOne(index: nat, phase: string, path: Option<string>, resolution: Resolution, time: real)
      requires Accounted() && index < |events|
      modifies `events, `eventBytes
      ensures Accounted() && events == old(events)[index := Resolved(old(events)[index], phase, path, resolution, time)]
    {
      if Settles(events[index], phase, path) {
        var done := Resolved(events[index], phase, path, resolution, time);
        TotalUpdate(size, events, index, done);
        UpdateConsistent(events, dropped, index, done);
        eventBytes := eventBytes - size(events[index]) + size(done);
        events := events[index := done];
      } else {
        assert events[index := events[index]] == events;
      }
    }

    /** Settles every unresolved error or deferral of `path` in `phase`; an unknown resolution or a text
        too long to identify anything settles nothing. */
    method Resolve(phase: string, path: Option<string>, resolution: Resolution, time: real)
      requires Valid()
      modifies `events, `eventBytes, `dropped
      ensures Valid() && next == old(next)
      ensures if !Short(path) || Bytes(phase) > MAX_STRING_BYTES || resolution.Unknown? then events == old(events)
              else TrimmedFrom(ResolvedRows(old(events), |old(events)|, phase, path, resolution, time), old(dropped))
    {
      if !Short(path) || Bytes(phase) > MAX_STRING_BYTES || resolution.Unknown? {
        return;
      }
      for i := 0 to |events|
        invariant Accounted() && |events| == |old(events)| && dropped == old(dropped)
        invariant events == ResolvedRows(old(events), i, phase, path, resolution, time)
      {
        ResolveOne(i, phase, path, resolution, time);
      }
      TrimEvents();
    }

    /** The reply to a reader: the oldest rows are left out until it is short enough. Reading leaves the
        feed as it is. */
    method Envelope(length: (seq<Event>, nat) -> nat) returns (reply: Reply)
      requires Valid()
      ensures reply.Available? ==>
          && reply.dropped + |reply.events| == next && Consistent(reply.events, reply.dropped)
          && length(reply.events, reply.dropped) < MAX_RESPONSE_BYTES
          && reply.dropped >= dropped && reply.events == events[reply.dropped - dropped..]
          && forall k :: 0 <= k < reply.dropped - dropped ==> TooLong(length, events, dropped, k)
      ensures reply.Unavailable? ==> forall k :: 0 <= k <= |events| ==> TooLong(length, events, dropped, k)
    {
      var k := 0;
      while length(events[k..], dropped + k) >= MAX_RESPONSE_BYTES
        invariant 0 <= k <= |events| && forall i :: 0 <= i < k ==> TooLong(length, events, dropped, i)
        decreases |events| - k
      {
        if events[k..] == [] {
          return Unavailable;
        }
        k := k + 1;
      }
      DropMany(events, dropped, k);
      return Available(events[k..], dropped + k);
    }
  }

  /** With the `k` oldest rows left out the reply still exceeds its bound. */
  predicate TooLong(length: (seq<Event>, nat) -> nat, events: seq<Event>, dropped: nat, k: int) {
    0 <= k <= |events| && length(events[k..], dropped + k) >= MAX_RESPONSE_BYTES
  }

  datatype Reply = Available(events: seq<Event>, dropped: nat) | Unavailable
}
