/** Selection of the next job: four ready classes, two kinds of burst, and two clocks.

    Class 1 is live intake, 2 failed work, 0 baseline work, 3 frontier and saved work. Bursts of
    group 1 (class 1) and group 3 (classes 0 and 3) end by count or by elapsed monotonic time. */
module Scheduler {
  import opened Paths
  import opened JobTable

  const BURST_LIMIT := 256
  const BURST_TIME := 1.0

  type Class = n: nat | n <= 3

  datatype Burst = Idle | Burst(group: Class, started: real, count: nat)

  datatype Place = Place(burst: Burst, next: Class)
  {
    predicate Valid() {
      match burst
      case Idle => next != 2
      case Burst(group, _, count) => 1 <= count <= BURST_LIMIT && (if group == 1 then next == 1 else group == 3 && next in {0, 3})
    }

    /** The clock may go backwards; an elapsed time is never negative. */
    predicate TimedOut(clock: real) { burst.Burst? && clock - burst.started >= BURST_TIME }

    predicate Expired(clock: real) { burst.Burst? && (burst.count >= BURST_LIMIT || TimedOut(clock)) }

    predicate Background(clock: real) { burst.Burst? && burst.group == 3 && !Expired(clock) }

    function First(clock: real): Class {
      if Expired(clock) then (if burst.group == 1 then 2 else 1) else next
    }

    function Rank(clock: real, c: Class): Class {
      if Background(clock) then
        if c == First(clock) then 0 else if c in {0, 3} then 1 else if c == 1 then 2 else 3
      else (c + 4 - First(clock)) % 4
    }

    /** The best ranked ready class. */
    ghost predicate Chooses(clock: real, ready: set<Class>, c: Option<Class>) {
      match c
      case None => ready == {}
      case Some(k) => k in ready && forall d :: d in ready ==> Rank(clock, k) <= Rank(clock, d)
    }

    function Advance(clock: real, c: Option<Class>): Place {
      match c
      case None => Place(Idle, 1)
      case Some(k) =>
        if k == 2 then Place(Idle, 3)
        else
          var group := if k == 1 then 1 else 3;
          var continues := burst.Burst? && !Expired(clock) && burst.group == group;
          Place(Burst(group, if continues then burst.started else clock, if continues then burst.count + 1 else 1),
                if k == 0 then 3 else if k == 3 then 0 else 1)
    }
  }

  const START := Place(Idle, 0)

  // ---------------------------------------------------------------- classes and row order

  function ClassOf(row: Row, startup: int): Class {
    if row.scope > 0 then (if row.rowid > startup then 1 else 3)
    else if row.attempts > 0 && row.failed then 2
    else if row.baseline then 0
    else 3
  }

  function Codes(text: string): seq<real> {
    if text == "" then [] else [text[0] as int as real] + Codes(text[1..])
  }

  /** What a selection reads besides the position. */
  datatype Look = Look(startup: int, inactive: set<Key>, retained: set<Path>, wall: real, clock: real)

  predicate Ready(row: Row, look: Look) { row.due <= look.wall && row.volume !in look.inactive }

  predicate Continues(path: Path, row: Row, look: Look) {
    row.scope == 0 && ClassOf(row, look.startup) in {0, 3} && path in look.retained
  }

  /** The ORDER BY columns of the selection; `retained` empty makes the third column constant. */
  function SortKey(place: Place, path: Path, row: Row, look: Look): seq<real> {
    [place.Rank(look.clock, ClassOf(row, look.startup)) as real,
     if row.scope > 0 then 0.0 else 1.0,
     if Continues(path, row, look) then 0.0 else 1.0,
     if row.scope > 0 then row.rowid as real else row.due,
     if row.recursive then 1.0 else 0.0,
     |Text(path)| as real] + Codes(Text(path))
  }

  predicate Less(a: seq<real>, b: seq<real>) {
    b != [] && (a == [] || a[0] < b[0] || (a[0] == b[0] && Less(a[1..], b[1..])))
  }

  lemma {:induction false} LessTransitive(a: seq<real>, b: seq<real>, c: seq<real>)
    requires Less(a, b) && Less(b, c)
    ensures Less(a, c)
    decreases |a|
  {
    if a != [] && a[0] == b[0] && b[0] == c[0] {
      LessTransitive(a[1..], b[1..], c[1..]);
    }
  }

  lemma {:induction false} LessIrreflexive(a: seq<real>)
    ensures !Less(a, a)
    decreases |a|
  {
    if a != [] {
      LessIrreflexive(a[1..]);
    }
  }

  ghost predicate ReadyAt(jobs: map<Path, Row>, look: Look, p: Path) { p in jobs && Ready(jobs[p], look) }

  /** No ready row sorts before `p`. */
  ghost predicate Best(jobs: map<Path, Row>, place: Place, look: Look, p: Path) {
    && ReadyAt(jobs, look, p)
    && forall q :: ReadyAt(jobs, look, q) ==> !Less(SortKey(place, q, jobs[q], look), SortKey(place, p, jobs[p], look))
  }

  ghost function ReadyClasses(jobs: map<Path, Row>, look: Look): set<Class> {
    set p | p in jobs && Ready(jobs[p], look) :: ClassOf(jobs[p], look.startup)
  }

  function ServedClass(jobs: map<Path, Row>, look: Look, picked: Option<Path>): Option<Class>
    requires picked.Some? ==> picked.value in jobs
  {
    if picked.Some? then Some(ClassOf(jobs[picked.value], look.startup)) else None
  }

  /** `ready_burst` and `next_ready_class`. */
  class Selector {
    var burst: Burst
    var next: Class

    function Here(): Place reads this { Place(burst, next) }

    constructor ()
      ensures Here() == START
    {
      burst, next := Idle, 0;
    }

    method Scan(jobs: map<Path, Row>, look: Look) returns (picked: Option<Path>)
      ensures picked.None? ==> forall p :: !ReadyAt(jobs, look, p)
      ensures picked.Some? ==> Best(jobs, Here(), look, picked.value)
    {
      picked := None;
      var rest := jobs.Keys;
      while rest != {}
        invariant rest <= jobs.Keys
        invariant picked.None? ==> forall q :: ReadyAt(jobs, look, q) ==> q in rest
        invariant picked.Some? ==> ReadyAt(jobs, look, picked.value)
        invariant picked.Some? ==> forall q :: ReadyAt(jobs, look, q) && q !in rest ==>
            !Less(SortKey(Here(), q, jobs[q], look), SortKey(Here(), picked.value, jobs[picked.value], look))
        decreases |rest|
      {
        var p :| p in rest;
        rest := rest - {p};
        if Ready(jobs[p], look) {
          LessIrreflexive(SortKey(Here(), p, jobs[p], look));
          if picked.None? || Less(SortKey(Here(), p, jobs[p], look), SortKey(Here(), picked.value, jobs[picked.value], look)) {
            forall q | picked.Some? && ReadyAt(jobs, look, q) && q !in rest && q != p
              ensures !Less(SortKey(Here(), q, jobs[q], look), SortKey(Here(), p, jobs[p], look))
            {
              if Less(SortKey(Here(), q, jobs[q], look), SortKey(Here(), p, jobs[p], look)) {
                LessTransitive(SortKey(Here(), q, jobs[q], look), SortKey(Here(), p, jobs[p], look),
                               SortKey(Here(), picked.value, jobs[picked.value], look));
              }
            }
            picked := Some(p);
          }
        }
      }
    }

    method Select(jobs: map<Path, Row>, look: Look) returns (picked: Option<Path>)
      requires Here().Valid()
      modifies this
      ensures picked.None? <==> ReadyClasses(jobs, look) == {}
      ensures picked.Some? ==> Best(jobs, old(Here()), look, picked.value)
      ensures old(Here()).Chooses(look.clock, ReadyClasses(jobs, look), ServedClass(jobs, look, picked))
      ensures Here() == old(Here()).Advance(look.clock, ServedClass(jobs, look, picked))
      ensures Here().Valid()
    {
      picked := Scan(jobs, look);
      ghost var was := Here();
      if picked.None? {
        assert forall p :: p in jobs ==> (Ready(jobs[p], look) <==> ReadyAt(jobs, look, p));
        burst, next := Idle, 1;
        return;
      }
      assert ClassOf(jobs[picked.value], look.startup) in ReadyClasses(jobs, look);
      BestClass(jobs, was, look, picked.value);
      var row := jobs[picked.value];
      var c := ClassOf(row, look.startup);
      if c != 2 {
        var group := if c == 1 then 1 else 3;
        var (started, count) :=
          if burst.Burst? && !Here().Expired(look.clock) && burst.group == group then (burst.started, burst.count)
          else (look.clock, 0);
        burst := Burst(group, started, count + 1);
        next := match c case 0 => 3 case 3 => 0 case _ => 1;
      } else {
        burst, next := Idle, (c + 1) % 4;
      }
    }
  }

  /** The first sort column decides: the best row is of the best ranked ready class. */
  lemma BestClass(jobs: map<Path, Row>, place: Place, look: Look, p: Path)
    requires Best(jobs, place, look, p)
    ensures place.Chooses(look.clock, ReadyClasses(jobs, look), Some(ClassOf(jobs[p], look.startup)))
  {
    forall d | d in ReadyClasses(jobs, look)
      ensures place.Rank(look.clock, ClassOf(jobs[p], look.startup)) <= place.Rank(look.clock, d)
    {
      var q :| q in jobs && Ready(jobs[q], look) && d == ClassOf(jobs[q], look.startup);
      assert ReadyAt(jobs, look, q);
      var a, b := SortKey(place, q, jobs[q], look), SortKey(place, p, jobs[p], look);
      assert !Less(a, b);
      assert a[0] == place.Rank(look.clock, d) as real;
    }
  }

  /** Explicit requests of one class are served in rowid order, and before implicit work of it. */
  lemma ExplicitFirstInFirstOut(jobs: map<Path, Row>, place: Place, look: Look, p: Path, q: Path)
    requires Best(jobs, place, look, p) && ReadyAt(jobs, look, q) && jobs[q].scope > 0
    requires ClassOf(jobs[q], look.startup) == ClassOf(jobs[p], look.startup)
    ensures jobs[p].scope > 0 && jobs[p].rowid <= jobs[q].rowid
  {
    var a, b := SortKey(place, q, jobs[q], look), SortKey(place, p, jobs[p], look);
    assert !Less(a, b);
    assert a[0] == b[0] && !Less(a[1..], b[1..]);
    assert a[1..][0] == 0.0;
    assert b[1..][0] == (if jobs[p].scope > 0 then 0.0 else 1.0);
    if jobs[p].scope > 0 {
      assert !Less(a[1..][1..], b[1..][1..]);
      assert a[1..][1..][0] == 1.0 == b[1..][1..][0];
      assert !Less(a[1..][1..][1..], b[1..][1..][1..]);
      assert a[1..][1..][1..][0] == jobs[q].rowid as real && b[1..][1..][1..][0] == jobs[p].rowid as real;
    }
  }

  // ---------------------------------------------------------------- runs of selections

  datatype Turn = Turn(ready: set<Class>, clock: real)

  /** The selections of a run: what each turn serves, for any ready classes and clock readings. */
  ghost predicate Serves(place: Place, turns: seq<Turn>, served: seq<Option<Class>>)
    decreases |turns|
  {
    && |served| == |turns|
    && (turns != [] ==>
          && place.Chooses(turns[0].clock, turns[0].ready, served[0])
          && Serves(place.Advance(turns[0].clock, served[0]), turns[1..], served[1..]))
  }

  function Group(c: Class): Class { if c == 0 then 3 else c }

  predicate GroupReady(ready: set<Class>, g: Class) { g in ready || (g == 3 && 0 in ready) }

  lemma AdvanceValid(place: Place, turn: Turn, c: Option<Class>)
    requires place.Valid() && place.Chooses(turn.clock, turn.ready, c)
    ensures place.Advance(turn.clock, c).Valid()
  {
  }

  /** The longest a ready group can still wait. */
  function GroupWait(place: Place, g: Class): int {
    match place.burst
    case Idle => if g == 2 then 513 else if place.next == g then 1 else if g == 1 then 257 else 258
    case Burst(b, _, count) =>
      if g == 1 then (if b == 3 then 257 - count else 258)
      else if g == 2 then (if b == 3 then 513 - count else 257 - count)
      else (if b == 1 then 258 - count else 258)
  }

  lemma GroupProgress(place: Place, turn: Turn, c: Option<Class>, g: Class)
    requires place.Valid() && g != 0 && GroupReady(turn.ready, g)
    requires place.Chooses(turn.clock, turn.ready, c) && (c.Some? ==> Group(c.value) != g)
    ensures 1 <= GroupWait(place.Advance(turn.clock, c), g) < GroupWait(place, g)
  {
    var k := c.value;
    var m := if g in turn.ready then g else 0;
    assert m in turn.ready && place.Rank(turn.clock, k) <= place.Rank(turn.clock, m);
  }

  ghost predicate ServesGroup(served: seq<Option<Class>>, g: Class, bound: int) {
    exists i :: 0 <= i < |served| && i < bound && served[i].Some? && Group(served[i].value) == g
  }

  lemma {:induction false} GroupWithin(place: Place, turns: seq<Turn>, served: seq<Option<Class>>, g: Class)
    requires place.Valid() && g != 0 && Serves(place, turns, served)
    requires |turns| >= GroupWait(place, g) >= 1
    requires forall i :: 0 <= i < |turns| ==> GroupReady(turns[i].ready, g)
    ensures ServesGroup(served, g, GroupWait(place, g))
    decreases |turns|
  {
    if served[0].Some? && Group(served[0].value) == g {
    } else {
      AdvanceValid(place, turns[0], served[0]);
      GroupProgress(place, turns[0], served[0], g);
      var place' := place.Advance(turns[0].clock, served[0]);
      GroupWithin(place', turns[1..], served[1..], g);
      var i :| 0 <= i < |served[1..]| && i < GroupWait(place', g) && served[1..][i].Some? && Group(served[1..][i].value) == g;
      assert served[i + 1] == served[1..][i];
    }
  }

  /** For any clock readings, a group that is ready at 513 consecutive turns is served at one of them. */
  lemma GroupServed(place: Place, turns: seq<Turn>, served: seq<Option<Class>>, g: Class)
    requires place.Valid() && g != 0 && Serves(place, turns, served) && |turns| >= 513
    requires forall i :: 0 <= i < |turns| ==> GroupReady(turns[i].ready, g)
    ensures ServesGroup(served, g, 513)
  {
    GroupWithin(place, turns, served, g);
    var i :| 0 <= i < |served| && i < GroupWait(place, g) && served[i].Some? && Group(served[i].value) == g;
  }

  // ---------------------------------------------------------------- the bound is reached

  function Steady(ready: set<Class>, n: nat): seq<Turn> { seq(n, i => Turn(ready, 0.0)) }

  /** Failed work, ready throughout, behind a frontier burst and a burst of live intake. */
  lemma {:induction false} FailedWaits(place: Place, n: nat, served: seq<Option<Class>>)
    requires place.Valid() && AtStart(place)
    requires n < GroupWait(place, 2) && Serves(place, Steady({1, 2, 3}, n), served)
    ensures Some(2) !in served
    decreases n
  {
    if n > 0 {
      var turns := Steady({1, 2, 3}, n);
      assert turns[1..] == Steady({1, 2, 3}, n - 1);
      assert turns[0] == Turn({1, 2, 3}, 0.0);
      FailedWaitsOnce(place, served[0]);
      FailedWaits(place.Advance(0.0, served[0]), n - 1, served[1..]);
      assert served == [served[0]] + served[1..];
    }
  }

  /** No time has passed: a burst began now, or failed work was just served. */
  predicate AtStart(place: Place) { if place.burst.Burst? then place.burst.started == 0.0 else place.next == 3 }

  lemma FailedWaitsOnce(place: Place, c: Option<Class>)
    requires place.Valid() && AtStart(place) && GroupWait(place, 2) > 1 && place.Chooses(0.0, {1, 2, 3}, c)
    ensures c != Some(2)
    ensures var next := place.Advance(0.0, c); next.Valid() && AtStart(next) && GroupWait(next, 2) >= GroupWait(place, 2) - 1
  {
    var ready: set<Class> := {1, 2, 3};
    var k := if place.burst.Idle? then 3
             else if place.burst.group == 3 then (if place.burst.count < BURST_LIMIT then 3 else 1) else 1;
    assert k in ready;
  }

  lemma SomeChoice(place: Place, turn: Turn)
    requires place.Valid()
    ensures exists c :: place.Chooses(turn.clock, turn.ready, c)
  {
    var c: Option<Class> := None;
    for k: nat := 0 to 4
      invariant c.Some? ==> c.value in turn.ready
      invariant forall d :: d in turn.ready && d < k ==> c.Some? && place.Rank(turn.clock, c.value) <= place.Rank(turn.clock, d)
    {
      if k in turn.ready && (c.None? || place.Rank(turn.clock, k) < place.Rank(turn.clock, c.value)) {
        c := Some(k);
      }
    }
    assert place.Chooses(turn.clock, turn.ready, c);
  }

  lemma {:induction false} SomeRun(place: Place, turns: seq<Turn>)
    requires place.Valid()
    ensures exists served :: Serves(place, turns, served)
    decreases |turns|
  {
    if turns == [] {
      assert Serves(place, turns, []);
    } else {
      SomeChoice(place, turns[0]);
      var c :| place.Chooses(turns[0].clock, turns[0].ready, c);
      AdvanceValid(place, turns[0], c);
      SomeRun(place.Advance(turns[0].clock, c), turns[1..]);
      var rest :| Serves(place.Advance(turns[0].clock, c), turns[1..], rest);
      assert ([c] + rest)[1..] == rest;
      assert Serves(place, turns, [c] + rest);
    }
  }

  /** The bound of 513 is exact: 512 turns can pass over ready failed work. */
  lemma BoundIsReached()
    ensures exists served :: Serves(Place(Idle, 3), Steady({1, 2, 3}, 512), served) && !ServesGroup(served, 2, 512)
  {
    SomeRun(Place(Idle, 3), Steady({1, 2, 3}, 512));
    var served: seq<Option<Class>> :| Serves(Place(Idle, 3), Steady({1, 2, 3}, 512), served);
    FailedWaits(Place(Idle, 3), 512, served);
    assert forall i :: 0 <= i < |served| && served[i].Some? && Group(served[i].value) == 2 ==> served[i] == Some(2);
  }

  // ---------------------------------------------------------------- each class, when bursts end by count

  /** No burst below its limit has run out of time at any turn. */
  ghost predicate Unhurried(place: Place, turns: seq<Turn>, served: seq<Option<Class>>)
    requires |served| == |turns|
    decreases |turns|
  {
    turns == [] ||
    ((place.TimedOut(turns[0].clock) ==> place.burst.count >= BURST_LIMIT)
     && Unhurried(place.Advance(turns[0].clock, served[0]), turns[1..], served[1..]))
  }

  /** The longest class 0 or 3 can still wait. */
  function ClassWait(place: Place, c: Class): int {
    match place.burst
    case Idle => if place.next == 3 then 2 else 260
    case Burst(b, _, count) =>
      if b == 1 then 259 - count
      else if count >= BURST_LIMIT then 260
      else if place.next == c then 1
      else if count == BURST_LIMIT - 1 then 261
      else 2
  }

  lemma ClassProgress(place: Place, turn: Turn, k: Option<Class>, c: Class)
    requires place.Valid() && c in {0, 3} && c in turn.ready
    requires place.TimedOut(turn.clock) ==> place.burst.count >= BURST_LIMIT
    requires place.Chooses(turn.clock, turn.ready, k) && k != Some(c)
    ensures 1 <= ClassWait(place.Advance(turn.clock, k), c) < ClassWait(place, c)
  {
    assert place.Rank(turn.clock, k.value) <= place.Rank(turn.clock, c);
  }

  lemma {:induction false} ClassWithin(place: Place, turns: seq<Turn>, served: seq<Option<Class>>, c: Class)
    requires place.Valid() && c in {0, 3} && Serves(place, turns, served) && Unhurried(place, turns, served)
    requires |turns| >= ClassWait(place, c) >= 1
    requires forall i :: 0 <= i < |turns| ==> c in turns[i].ready
    ensures exists i :: 0 <= i < |served| && i < ClassWait(place, c) && served[i] == Some(c)
    decreases |turns|
  {
    if served[0] != Some(c) {
      AdvanceValid(place, turns[0], served[0]);
      ClassProgress(place, turns[0], served[0], c);
      ClassWithin(place.Advance(turns[0].clock, served[0]), turns[1..], served[1..], c);
      var i :| 0 <= i < |served[1..]| && i < ClassWait(place.Advance(turns[0].clock, served[0]), c) && served[1..][i] == Some(c);
      assert served[i + 1] == Some(c);
    }
  }

  /** If no burst ends by time, each of the four classes separately is served within 513 turns. */
  lemma ClassServed(place: Place, turns: seq<Turn>, served: seq<Option<Class>>, c: Class)
    requires place.Valid() && Serves(place, turns, served) && Unhurried(place, turns, served) && |turns| >= 513
    requires forall i :: 0 <= i < |turns| ==> c in turns[i].ready
    ensures exists i :: 0 <= i < 513 && served[i] == Some(c)
  {
    if c in {0, 3} {
      ClassWithin(place, turns, served, c);
    } else {
      GroupServed(place, turns, served, c);
      var i :| 0 <= i < |served| && i < 513 && served[i].Some? && Group(served[i].value) == c;
      assert served[i] == Some(c);
    }
  }

  // ---------------------------------------------------------------- why time expiry needs groups

  /** Every turn takes a second: each burst has expired at the next selection. */
  function Slow(n: nat, from: nat): seq<Turn> { seq(n, i requires 0 <= i < n => Turn({0, 1, 2, 3}, (from + i) as real)) }

  predicate Cycling(place: Place, from: nat) {
    || place == Place(Idle, 3)
    || place == Place(Burst(3, from as real - 1.0, 1), 0)
    || place == Place(Burst(1, from as real - 1.0, 1), 1)
  }

  /** With slow turns, class 0 is ready at any number of turns and never served. */
  lemma {:induction false} SlowTurnsStarveAClass(place: Place, n: nat, from: nat, served: seq<Option<Class>>)
    requires Cycling(place, from) && Serves(place, Slow(n, from), served)
    ensures Some(0) !in served
    decreases n
  {
    if n > 0 {
      var turns := Slow(n, from);
      assert turns[1..] == Slow(n - 1, from + 1);
      var k := if place.burst.Idle? then 3 else place.First(turns[0].clock);
      assert k in turns[0].ready;
      SlowTurnsStarveAClass(place.Advance(turns[0].clock, served[0]), n - 1, from + 1, served[1..]);
      assert served == [served[0]] + served[1..];
    }
  }

  /** From the start of the process, with slow turns and all classes ready throughout, class 0 is served
      at the first turn and never again. */
  lemma SlowTurnsFromStart(n: nat, served: seq<Option<Class>>)
    requires n > 0 && Serves(START, Slow(n, 0), served)
    ensures served[0] == Some(0) && Some(0) !in served[1..]
  {
    var turns := Slow(n, 0);
    assert {0, 1, 2, 3} == turns[0].ready && START.Rank(0.0, 0) == 0;
    if n > 1 {
      assert turns[1..] == Slow(n - 1, 1);
      SecondSlowTurn(n - 1, served[1..]);
    }
  }

  /** After the first turn a burst of baseline work has expired, and live intake comes next. */
  lemma SecondSlowTurn(n: nat, served: seq<Option<Class>>)
    requires n > 0 && Serves(Place(Burst(3, 0.0, 1), 3), Slow(n, 1), served)
    ensures Some(0) !in served
  {
    var place, turns := Place(Burst(3, 0.0, 1), 3), Slow(n, 1);
    assert 1 in turns[0].ready && place.First(turns[0].clock) == 1;
    assert turns[1..] == Slow(n - 1, 2);
    SlowTurnsStarveAClass(place.Advance(turns[0].clock, served[0]), n - 1, 2, served[1..]);
    assert served == [served[0]] + served[1..];
  }
}
