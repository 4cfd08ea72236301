/** Which rows are served when: the waiting bounds and the order of the scheduler, said of the columns of
    rows instead of class numbers. */
module Service {
  import opened Paths
  import opened JobTable
  import opened Scheduler

  /** Live intake, failed work, baseline work, and everything else: saved intake and frontier. */
  datatype Kind = Live | Failed | Baseline | Frontier

  predicate Is(kind: Kind, row: Row, startup: int) {
    match kind
    case Live => row.scope > 0 && row.rowid > startup
    case Failed => row.scope == 0 && row.attempts > 0 && row.failed
    case Baseline => row.scope == 0 && row.baseline && !(row.attempts > 0 && row.failed)
    case Frontier => (row.scope > 0 && row.rowid <= startup) || (row.scope == 0 && !row.baseline && !(row.attempts > 0 && row.failed))
  }

  /** One selection over the rows there are at that time. */
  datatype Selection = Selection(jobs: map<Path, Row>, look: Look, picked: Option<Path>)
  {
    /** A row of the kind is due, in a volume that is not inactive. */
    ghost predicate Awaits(kind: Kind) {
      exists p :: p in jobs && jobs[p].due <= look.wall && jobs[p].volume !in look.inactive && Is(kind, jobs[p], look.startup)
    }

    predicate Takes(kind: Kind) { picked.Some? && picked.value in jobs && Is(kind, jobs[picked.value], look.startup) }

    /** What `Selector.Select` ensures. */
    ghost predicate From(place: Place) {
      && (picked.None? ==> ReadyClasses(jobs, look) == {})
      && (picked.Some? ==> Best(jobs, place, look, picked.value))
    }

    function After(place: Place): Place
      requires picked.Some? ==> picked.value in jobs
    {
      place.Advance(look.clock, ServedClass(jobs, look, picked))
    }
  }

  ghost predicate Runs(place: Place, run: seq<Selection>)
    decreases |run|
  {
    run != [] ==> run[0].From(place) && Runs(run[0].After(place), run[1..])
  }

  // ---------------------------------------------------------------- kinds and classes

  function Number(kind: Kind): Class { match kind case Live => 1 case Failed => 2 case Baseline => 0 case Frontier => 3 }

  lemma KindIs(kind: Kind, row: Row, startup: int)
    ensures Is(kind, row, startup) <==> ClassOf(row, startup) == Number(kind)
  {
  }

  lemma ReadyKinds(s: Selection, kind: Kind)
    ensures s.Awaits(kind) <==> Number(kind) in ReadyClasses(s.jobs, s.look)
  {
    if s.Awaits(kind) {
      var p :| p in s.jobs && s.jobs[p].due <= s.look.wall && s.jobs[p].volume !in s.look.inactive && Is(kind, s.jobs[p], s.look.startup);
      KindIs(kind, s.jobs[p], s.look.startup);
      assert Ready(s.jobs[p], s.look);
    }
    if Number(kind) in ReadyClasses(s.jobs, s.look) {
      var p :| p in s.jobs && Ready(s.jobs[p], s.look) && ClassOf(s.jobs[p], s.look.startup) == Number(kind);
      KindIs(kind, s.jobs[p], s.look.startup);
    }
  }

  lemma Chosen(s: Selection, place: Place)
    requires s.From(place)
    ensures place.Chooses(s.look.clock, ReadyClasses(s.jobs, s.look), ServedClass(s.jobs, s.look, s.picked))
  {
    if s.picked.Some? {
      BestClass(s.jobs, place, s.look, s.picked.value);
    }
  }

  ghost function Turns(run: seq<Selection>): seq<Turn> {
    seq(|run|, i requires 0 <= i < |run| => Turn(ReadyClasses(run[i].jobs, run[i].look), run[i].look.clock))
  }

  predicate Placed(run: seq<Selection>) {
    forall i :: 0 <= i < |run| && run[i].picked.Some? ==> run[i].picked.value in run[i].jobs
  }

  function Classes(run: seq<Selection>): seq<Option<Class>>
    requires Placed(run)
  {
    seq(|run|, i requires 0 <= i < |run| => ServedClass(run[i].jobs, run[i].look, run[i].picked))
  }

  lemma {:induction false} RunServes(place: Place, run: seq<Selection>)
    requires place.Valid() && Runs(place, run)
    ensures Placed(run) && Serves(place, Turns(run), Classes(run))
    decreases |run|
  {
    if run != [] {
      Chosen(run[0], place);
      AdvanceValid(place, Turns(run)[0], ServedClass(run[0].jobs, run[0].look, run[0].picked));
      RunServes(run[0].After(place), run[1..]);
      assert Turns(run)[1..] == Turns(run[1..]);
      forall i | 0 < i < |run| ensures run[i] == run[1..][i - 1] { }
      assert Classes(run)[1..] == Classes(run[1..]);
    }
  }

  lemma TookKind(run: seq<Selection>, i: nat, kind: Kind)
    requires Placed(run) && i < |run| && Classes(run)[i] == Some(Number(kind))
    ensures run[i].Takes(kind)
  {
    KindIs(kind, run[i].jobs[run[i].picked.value], run[i].look.startup);
  }

  /** Selection after selection, each over the rows there are at that time. */
  method SelectAll(selector: Selector, tables: seq<(map<Path, Row>, Look)>) returns (run: seq<Selection>)
    requires selector.Here().Valid()
    modifies selector
    ensures Runs(old(selector.Here()), run) && selector.Here().Valid()
    ensures |run| == |tables| && forall i :: 0 <= i < |run| ==> run[i].jobs == tables[i].0 && run[i].look == tables[i].1
    decreases |tables|
  {
    if tables == [] {
      return [];
    }
    var picked := selector.Select(tables[0].0, tables[0].1);
    var rest := SelectAll(selector, tables[1..]);
    run := [Selection(tables[0].0, tables[0].1, picked)] + rest;
    assert run[1..] == rest;
  }

  // ---------------------------------------------------------------- waiting bounds

  /** Whatever the clocks show: if at each of 513 selections in a row some live row is due, or at each some
      failed row, one of those selections takes such a row. */
  lemma LiveAndFailedServed(place: Place, run: seq<Selection>, kind: Kind)
    requires place.Valid() && Runs(place, run) && |run| >= 513 && kind in {Live, Failed}
    requires forall i :: 0 <= i < |run| ==> run[i].Awaits(kind)
    ensures exists i :: 0 <= i < 513 && run[i].Takes(kind)
  {
    RunServes(place, run);
    forall i | 0 <= i < |run| ensures GroupReady(Turns(run)[i].ready, Number(kind)) { ReadyKinds(run[i], kind); }
    GroupServed(place, Turns(run), Classes(run), Number(kind));
    var i :| 0 <= i < |Classes(run)| && i < 513 && Classes(run)[i].Some? && Group(Classes(run)[i].value) == Number(kind);
    TookKind(run, i, kind);
  }

  /** The same for background rows, baseline and frontier together. */
  lemma BackgroundServed(place: Place, run: seq<Selection>)
    requires place.Valid() && Runs(place, run) && |run| >= 513
    requires forall i :: 0 <= i < |run| ==> run[i].Awaits(Baseline) || run[i].Awaits(Frontier)
    ensures exists i :: 0 <= i < 513 && (run[i].Takes(Baseline) || run[i].Takes(Frontier))
  {
    RunServes(place, run);
    forall i | 0 <= i < |run| ensures GroupReady(Turns(run)[i].ready, 3) {
      ReadyKinds(run[i], Baseline);
      ReadyKinds(run[i], Frontier);
    }
    GroupServed(place, Turns(run), Classes(run), 3);
    var i :| 0 <= i < |Classes(run)| && i < 513 && Classes(run)[i].Some? && Group(Classes(run)[i].value) == 3;
    TookBackground(run, i);
  }

  lemma TookBackground(run: seq<Selection>, i: nat)
    requires Placed(run) && i < |run| && Classes(run)[i].Some? && Group(Classes(run)[i].value) == 3
    ensures run[i].Takes(Baseline) || run[i].Takes(Frontier)
  {
    TookKind(run, i, if Classes(run)[i].value == 0 then Baseline else Frontier);
  }

  /** No selection finds a burst below its limit of 256 rows to have lasted a second. */
  ghost predicate Swift(place: Place, run: seq<Selection>)
    requires Placed(run)
    decreases |run|
  {
    run == [] ||
    ((place.burst.Burst? && place.burst.count < 256 ==> run[0].look.clock - place.burst.started < 1.0)
     && (assert forall i :: 0 <= i < |run[1..]| ==> run[1..][i] == run[i + 1]; Swift(run[0].After(place), run[1..])))
  }

  lemma {:induction false} SwiftUnhurried(place: Place, run: seq<Selection>)
    requires Placed(run) && Swift(place, run)
    ensures Unhurried(place, Turns(run), Classes(run))
    decreases |run|
  {
    if run != [] {
      assert forall i :: 0 <= i < |run[1..]| ==> run[1..][i] == run[i + 1];
      SwiftUnhurried(run[0].After(place), run[1..]);
      assert Turns(run)[1..] == Turns(run[1..]) && Classes(run)[1..] == Classes(run[1..]);
    }
  }

  /** If no burst ends by time, each of the four kinds is served within 513 selections. */
  lemma EachKindServed(place: Place, run: seq<Selection>, kind: Kind)
    requires place.Valid() && Runs(place, run) && |run| >= 513
    requires Placed(run) && Swift(place, run) && forall i :: 0 <= i < |run| ==> run[i].Awaits(kind)
    ensures exists i :: 0 <= i < 513 && run[i].Takes(kind)
  {
    RunServes(place, run);
    SwiftUnhurried(place, run);
    forall i | 0 <= i < |run| ensures Number(kind) in Turns(run)[i].ready { ReadyKinds(run[i], kind); }
    ClassServed(place, Turns(run), Classes(run), Number(kind));
    var i :| 0 <= i < 513 && Classes(run)[i] == Some(Number(kind));
    TookKind(run, i, kind);
  }

  // ---------------------------------------------------------------- the order of kinds

  lemma Takes(s: Selection, place: Place, kind: Kind)
    requires s.From(place) && s.Awaits(kind)
    requires forall k: Kind :: k != kind ==> place.Rank(s.look.clock, Number(k)) > place.Rank(s.look.clock, Number(kind))
    ensures s.Takes(kind)
  {
    ReadyKinds(s, kind);
    Chosen(s, place);
    var c := ClassOf(s.jobs[s.picked.value], s.look.startup);
    var k := if c == 0 then Baseline else if c == 1 then Live else if c == 2 then Failed else Frontier;
    KindIs(k, s.jobs[s.picked.value], s.look.startup);
  }

  /** The first row of a process is a baseline row, if one is due. */
  lemma BaselineFirst(s: Selection)
    requires s.From(START) && s.Awaits(Baseline)
    ensures s.Takes(Baseline)
  {
    Takes(s, START, Baseline);
  }

  predicate Lasts(place: Place, clock: real) {
    place.burst.Burst? && place.burst.count < 256 && clock - place.burst.started < 1.0
  }

  /** While a burst of background work lasts, baseline and frontier rows take turns, ahead of live ones. */
  lemma BackgroundAlternates(place: Place, s: Selection, next: Selection, kind: Kind)
    requires place.Valid() && s.From(place) && s.Takes(kind) && kind in {Baseline, Frontier}
    requires next.From(s.After(place)) && Lasts(s.After(place), next.look.clock)
    ensures var other := if kind == Baseline then Frontier else Baseline;
            && (next.Awaits(other) ==> next.Takes(other))
            && (next.Awaits(kind) && !next.Awaits(other) ==> next.Takes(kind))
  {
    var other := if kind == Baseline then Frontier else Baseline;
    KindIs(kind, s.jobs[s.picked.value], s.look.startup);
    if next.Awaits(other) {
      Takes(next, s.After(place), other);
    } else if next.Awaits(kind) {
      ReadyKinds(next, kind);
      ReadyKinds(next, other);
      Chosen(next, s.After(place));
      KindIs(kind, next.jobs[next.picked.value], next.look.startup);
    }
  }

  /** A burst of live rows goes on while one is due; when it is over failed work comes first, and after a
      burst of background work live rows do. */
  lemma BurstsInTurn(place: Place, s: Selection, next: Selection, kind: Kind)
    requires place.Valid() && s.From(place) && s.Takes(kind) && next.From(s.After(place))
    ensures kind == Live && Lasts(s.After(place), next.look.clock) && next.Awaits(Live) ==> next.Takes(Live)
    ensures kind == Live && !Lasts(s.After(place), next.look.clock) && next.Awaits(Failed) ==> next.Takes(Failed)
    ensures kind in {Baseline, Frontier} && !Lasts(s.After(place), next.look.clock) && next.Awaits(Live) ==> next.Takes(Live)
    ensures kind == Failed && next.Awaits(Frontier) ==> next.Takes(Frontier)
  {
    KindIs(kind, s.jobs[s.picked.value], s.look.startup);
    var after := s.After(place);
    var first := match kind
      case Live => if Lasts(after, next.look.clock) then Live else Failed
      case Failed => Frontier
      case _ => Live;
    if next.Awaits(first) && (kind in {Baseline, Frontier} ==> !Lasts(after, next.look.clock)) {
      Takes(next, after, first);
    }
  }

  // ---------------------------------------------------------------- the order within a kind

  /** Among implicit rows of one kind a retained background scan goes on first; otherwise the least due
      time decides, then a row without its subtree, then the shorter path, then the texts of the paths. */
  lemma ImplicitOrder(s: Selection, place: Place, kind: Kind, q: Path)
    requires s.From(place) && s.Takes(kind) && s.jobs[s.picked.value].scope == 0
    requires q in s.jobs && s.jobs[q].due <= s.look.wall && s.jobs[q].volume !in s.look.inactive && Is(kind, s.jobs[q], s.look.startup)
    ensures s.jobs[q].scope == 0
    ensures var p := s.picked.value; var retained := s.look.retained;
            && (kind in {Baseline, Frontier} && q in retained ==> p in retained)
            && ((q in retained <==> p in retained) || kind == Failed ==>
                  && s.jobs[p].due <= s.jobs[q].due
                  && (s.jobs[p].due == s.jobs[q].due ==>
                        && (s.jobs[p].recursive ==> s.jobs[q].recursive)
                        && (s.jobs[p].recursive == s.jobs[q].recursive ==>
                              && |Text(p)| <= |Text(q)|
                              && (|Text(p)| == |Text(q)| ==> NotAfter(Text(p), Text(q))))))
  {
    var p := s.picked.value;
    KindIs(kind, s.jobs[p], s.look.startup);
    KindIs(kind, s.jobs[q], s.look.startup);
    assert ReadyAt(s.jobs, s.look, q);
    if s.jobs[q].scope > 0 {
      ExplicitFirstInFirstOut(s.jobs, place, s.look, p, q);
    }
    var a, b := SortKey(place, q, s.jobs[q], s.look), SortKey(place, p, s.jobs[p], s.look);
    assert !Less(a, b) && a[0] == b[0];
    assert !Less(a[1..], b[1..]) && a[1..][0] == 1.0 == b[1..][0];
    Columns(a, b);
    if a[2] == b[2] && a[3] == b[3] && a[4] == b[4] && a[5] == b[5] {
      SixColumns(a, b);
      assert a[6..] == Codes(Text(q)) && b[6..] == Codes(Text(p));
      CodesDecide(Text(p), Text(q));
    }
  }

  /** At the first difference the character of `a` is the smaller one. */
  predicate NotAfter(a: string, b: string) {
    forall i :: 0 <= i < |a| && i < |b| && a[..i] == b[..i] ==> a[i] <= b[i]
  }

  lemma {:induction false} CodesDecide(a: string, b: string)
    requires |a| == |b| && !Less(Codes(b), Codes(a))
    ensures NotAfter(a, b)
    decreases |a|
  {
    if a != "" && a[0] == b[0] {
      CodesDecide(a[1..], b[1..]);
      forall i | 0 < i < |a| && a[..i] == b[..i] ensures a[i] <= b[i] {
        assert a[1..][..i - 1] == a[..i][1..] && b[1..][..i - 1] == b[..i][1..];
        assert a[1..][i - 1] <= b[1..][i - 1];
      }
    } else if a != "" {
      forall i | 0 < i < |a| ensures a[..i] != b[..i] { assert a[..i][0] == a[0] && b[..i][0] == b[0]; }
    }
  }

  lemma SixColumns(a: seq<real>, b: seq<real>)
    requires |a| >= 6 && |b| >= 6 && !Less(a, b) && forall k :: 0 <= k < 6 ==> a[k] == b[k]
    ensures !Less(a[6..], b[6..])
  {
    NextColumn(a, b);
    NextColumn(a[1..], b[1..]);
    NextColumn(a[2..], b[2..]);
    NextColumn(a[3..], b[3..]);
    NextColumn(a[4..], b[4..]);
    assert a[5..][1..] == a[6..] && b[5..][1..] == b[6..] && a[5..][0] == b[5..][0];
  }

  /** Equal in the first two columns and not less: the next four decide one after another. */
  lemma Columns(a: seq<real>, b: seq<real>)
    requires |a| >= 6 && |b| >= 6 && !Less(a, b) && a[0] == b[0] && a[1] == b[1]
    ensures b[2] <= a[2]
    ensures b[2] == a[2] ==> b[3] <= a[3]
    ensures b[2] == a[2] && b[3] == a[3] ==> b[4] <= a[4]
    ensures b[2] == a[2] && b[3] == a[3] && b[4] == a[4] ==> b[5] <= a[5]
  {
    NextColumn(a, b);
    NextColumn(a[1..], b[1..]);
    if a[2] == b[2] {
      NextColumn(a[2..], b[2..]);
      if a[3] == b[3] {
        NextColumn(a[3..], b[3..]);
        if a[4] == b[4] {
          NextColumn(a[4..], b[4..]);
        }
      }
    }
  }

  lemma NextColumn(a: seq<real>, b: seq<real>)
    requires |a| >= 2 && |b| >= 2 && !Less(a, b) && a[0] == b[0]
    ensures !Less(a[1..], b[1..]) && b[1] <= a[1]
    ensures forall k :: 1 <= k <= |a| ==> a[1..][k - 1..] == a[k..]
  {
    assert a[1..][0] == a[1] && b[1..][0] == b[1];
  }
}
