/** Every interleaving of threads, cancellation and the watchdog over the table of `DirectoryIo`. */
module Deadlines {
  import opened Paths
  import opened DirectoryIo

  /** The watchdog about to take the mutex, holding it (with its pass done or not), or asleep, with
      the mutex released in the same instant, until some time or until a notice. */
  datatype Watch = Awake | Holding(swept: bool) | Asleep(until: Option<real>)

  /** `owing` are tokens set but not yet announced, `announcing` threads that entered but did not yet
      notify; `owner` is the thread-local record of a generation; `guards` counts the guards that will
      still be dropped; `time` is the latest reading of the monotonic clock. */
  datatype System = System(table: Table, cancelled: set<Token>, owing: set<Token>, announcing: set<Thread>, watch: Watch,
                           owner: map<Thread, nat>, alive: set<Thread>, guards: map<Thread, nat>, signalled: set<Thread>, time: real)

  datatype Step =
    | Spawn(t: Thread)
    | Begin(t: Thread, timeout: real, scope: Option<Token>, now: real)
    | Announce(t: Thread)
    | Update(t: Thread, progress: bool, now: real)
    | Drop(t: Thread)
    | Forget(t: Thread)
    | Exit(t: Thread)
    | Cancel(token: Token)
    | Notify(token: Token)
    | TakeLock
    | Pass(now: real)
    | Sleep(until: Option<real>)
    | Wake

  function Guards(s: System, t: Thread): nat { if t in s.guards then s.guards[t] else 0 }

  /** The mutex is free unless the watchdog holds it. */
  predicate Free(s: System) { !s.watch.Holding? }

  /** Which steps are possible: a thread runs only while it is alive, drops only guards it has, and
      ends after its guards were dropped or forgotten; critical sections need the mutex. */
  ghost predicate Enabled(s: System, step: Step) {
    match step
    case Spawn(t) => t !in s.alive
    case Begin(t, _, _, now) => t in s.alive && Free(s) && now >= s.time
    case Announce(t) => t in s.announcing
    case Update(t, _, now) => Guards(s, t) > 0 && Free(s) && now >= s.time
    case Drop(t) => Guards(s, t) > 0 && Free(s)
    case Forget(t) => Guards(s, t) > 0
    case Exit(t) => t in s.alive && Guards(s, t) == 0 && t !in s.announcing && Free(s)
    case Cancel(_) => true
    case Notify(token) => token in s.owing && Free(s)
    case TakeLock => s.watch.Awake?
    case Pass(now) => s.watch == Holding(false) && now >= s.time
    case Sleep(until) => s.watch == Holding(true) && Until(s.table, until)
    case Wake => s.watch.Asleep?
  }

  function Woken(watch: Watch): Watch { if watch.Asleep? then Awake else watch }

  function Ended(s: System, t: Thread): System {
    if t in s.owner then s.(table := Finished(s.table, t, s.owner[t], true), owner := s.owner - {t}, watch := Woken(s.watch))
    else s
  }

  ghost function Next(s: System, step: Step): System {
    match step
    case Spawn(t) => s.(alive := s.alive + {t}, owner := s.owner - {t}, guards := s.guards[t := 0])
    case Begin(t, timeout, token, now) =>
      var table := Entered(s.table, t, timeout, now, token);
      s.(table := table, announcing := s.announcing + {t}, owner := s.owner[t := table.active[t].generation],
         guards := s.guards[t := Guards(s, t) + 1], time := now)
    case Announce(t) => s.(announcing := s.announcing - {t}, watch := Woken(s.watch))
    case Update(t, progress, now) =>
      if t in s.table.active then
        s.(table := Updated(s.table, t, s.cancelled, progress, now),
           watch := if Passes(s.table.active[t], s.cancelled, now) then s.watch else Woken(s.watch), time := now)
      else s
    case Drop(t) =>
      var generation := if t in s.owner then s.owner[t] else 0;
      s.(table := Finished(s.table, t, generation, false),
         owner := if Removes(s.table, t, generation, false) then s.owner - {t} else s.owner,
         guards := s.guards[t := if Guards(s, t) > 0 then Guards(s, t) - 1 else 0], watch := Woken(s.watch))
    case Forget(t) => s.(guards := s.guards[t := if Guards(s, t) > 0 then Guards(s, t) - 1 else 0])
    case Exit(t) => Ended(s, t).(alive := s.alive - {t})
    case Cancel(token) => s.(cancelled := s.cancelled + {token}, owing := s.owing + {token})
    case Notify(token) => s.(owing := s.owing - {token}, watch := Woken(s.watch))
    case TakeLock => s.(watch := Holding(false))
    case Pass(now) =>
      s.(table := Swept(s.table, s.cancelled, now), signalled := s.signalled + Targets(s.table, s.cancelled, now), watch := Holding(true), time := now)
    case Sleep(until) => s.(watch := Asleep(until))
    case Wake => s.(watch := Awake)
  }

  // ---------------------------------------------------------------- what every run keeps

  predicate Owned(s: System, t: Thread) {
    && (t in s.table.active ==>
          && t in s.alive && t in s.owner && s.owner[t] == s.table.active[t].generation
          && s.table.active[t].generation <= s.table.generation && 1 <= s.table.active[t].depth && Guards(s, t) <= s.table.active[t].depth)
    && (Guards(s, t) > 0 ==> t in s.table.active)
    && (t in s.announcing ==> t in s.alive)
  }

  /** No notice is lost: a scope whose token was set is doomed already, or the notice is still to come. */
  predicate Noticed(s: System, t: Thread) {
    t in s.table.active && Cancelled(s.table.active[t], s.cancelled) && !s.table.active[t].expired ==>
      match s.watch
      case Awake => true
      case Holding(swept) => !swept || s.table.active[t].token.value in s.owing
      case Asleep(_) => s.table.active[t].token.value in s.owing || t in s.announcing
  }

  /** The watchdog does not oversleep: it wakes by the time any scope is to be interrupted. */
  predicate InTime(s: System, t: Thread) {
    t in s.table.active && s.watch.Asleep? ==>
      t in s.announcing || (s.watch.until.Some? && s.watch.until.value <= s.table.active[t].next)
  }

  /** A scope that has not expired is due at its deadline, one timeout after its latest progress. */
  predicate Due(s: System, t: Thread) {
    t in s.table.active && !s.table.active[t].expired ==>
      s.table.active[t].next == s.table.active[t].deadline <= s.time + s.table.active[t].timeout
  }

  ghost predicate Invariant(s: System) {
    && (forall t :: Owned(s, t)) && (forall t :: Noticed(s, t)) && (forall t :: InTime(s, t)) && (forall t :: Due(s, t))
    && s.owing <= s.cancelled
  }

  const START := System(Table(0, map[]), {}, {}, {}, Awake, map[], {}, map[], {}, 0.0)

  lemma StartKept()
    ensures Invariant(START)
  {
  }

  lemma OwnedStep(s: System, step: Step, t: Thread)
    requires Invariant(s) && Enabled(s, step)
    ensures Owned(Next(s, step), t)
  {
    assert Owned(s, t);
    match step
    case Drop(u) => assert Owned(s, u);
    case Exit(u) => assert Owned(s, u);
    case Begin(u, _, _, _) => assert Owned(s, u);
    case Update(u, _, _) => assert Owned(s, u);
    case _ =>
  }

  lemma NoticedStep(s: System, step: Step, t: Thread)
    requires Invariant(s) && Enabled(s, step)
    ensures Noticed(Next(s, step), t)
  {
    assert Noticed(s, t) && Owned(s, t);
  }

  lemma InTimeStep(s: System, step: Step, t: Thread)
    requires Invariant(s) && Enabled(s, step)
    ensures InTime(Next(s, step), t)
  {
    assert InTime(s, t) && Owned(s, t) && Due(s, t);
  }

  lemma DueStep(s: System, step: Step, t: Thread)
    requires Invariant(s) && Enabled(s, step)
    ensures Due(Next(s, step), t)
  {
    assert Due(s, t);
  }

  lemma InvariantStep(s: System, step: Step)
    requires Invariant(s) && Enabled(s, step)
    ensures Invariant(Next(s, step))
  {
    var s' := Next(s, step);
    forall t ensures Owned(s', t) { OwnedStep(s, step, t); }
    forall t ensures Noticed(s', t) { NoticedStep(s, step, t); }
    forall t ensures InTime(s', t) { InTimeStep(s, step, t); }
    forall t ensures Due(s', t) { DueStep(s, step, t); }
  }

  ghost predicate Run(s: System, steps: seq<Step>)
    decreases |steps|
  {
    steps == [] || (Enabled(s, steps[0]) && Run(Next(s, steps[0]), steps[1..]))
  }

  ghost function After(s: System, steps: seq<Step>): System
    decreases |steps|
  {
    if steps == [] then s else After(Next(s, steps[0]), steps[1..])
  }

  /** Over every interleaving: a live guard has its entry, an entry its living thread, no cancellation
      notice is lost between the watchdog's check and its sleep, and no deadline is overslept. */
  lemma {:induction false} Always(s: System, steps: seq<Step>)
    requires Invariant(s) && Run(s, steps)
    ensures Invariant(After(s, steps))
    decreases |steps|
  {
    if steps != [] {
      InvariantStep(s, steps[0]);
      Always(Next(s, steps[0]), steps[1..]);
    }
  }

  /** The same from the start of the process. */
  lemma FromStart(steps: seq<Step>)
    requires Run(START, steps)
    ensures Invariant(After(START, steps))
  {
    StartKept();
    Always(START, steps);
  }

  // ---------------------------------------------------------------- expiry is sticky

  /** Scope `g` of thread `t` is over, or can no longer succeed. */
  predicate Sunk(s: System, t: Thread, g: nat) {
    && g <= s.table.generation
    && (t in s.table.active && s.table.active[t].generation == g ==> Doomed(s.table.active[t], s.cancelled))
  }

  lemma SunkStep(s: System, step: Step, t: Thread, g: nat)
    requires Sunk(s, t, g) && Enabled(s, step)
    ensures Sunk(Next(s, step), t, g)
  {
  }

  lemma {:induction false} SunkRun(s: System, steps: seq<Step>, t: Thread, g: nat)
    requires Sunk(s, t, g) && Run(s, steps)
    ensures Sunk(After(s, steps), t, g)
    decreases |steps|
  {
    if steps != [] {
      SunkStep(s, steps[0], t, g);
      SunkRun(Next(s, steps[0]), steps[1..], t, g);
    }
  }

  /** Once a scope has expired or was cancelled, every later check and progress report in it fails, at
      any time and whatever nests in between. */
  lemma ExpiryIsSticky(s: System, steps: seq<Step>, t: Thread, now: real)
    requires Invariant(s) && Run(s, steps) && t in s.table.active && Doomed(s.table.active[t], s.cancelled)
    ensures var s' := After(s, steps);
            t in s'.table.active && s'.table.active[t].generation == s.table.active[t].generation ==>
              !Passes(s'.table.active[t], s'.cancelled, now)
  {
    assert Owned(s, t);
    SunkRun(s, steps, t, s.table.active[t].generation);
  }

  /** Scope `g` of thread `t` is over, or still has the token it began with. */
  predicate Bound(s: System, t: Thread, g: nat, k: Token) {
    && g <= s.table.generation
    && (t in s.table.active && s.table.active[t].generation == g ==> s.table.active[t].token == Some(k))
  }

  lemma BoundStep(s: System, step: Step, t: Thread, g: nat, k: Token)
    requires Bound(s, t, g, k) && Enabled(s, step)
    ensures Bound(Next(s, step), t, g, k)
  {
  }

  lemma {:induction false} BoundRun(s: System, steps: seq<Step>, t: Thread, g: nat, k: Token)
    requires Bound(s, t, g, k) && Run(s, steps)
    ensures Bound(After(s, steps), t, g, k)
    decreases |steps|
  {
    if steps != [] {
      BoundStep(s, steps[0], t, g, k);
      BoundRun(Next(s, steps[0]), steps[1..], t, g, k);
    }
  }

  /** A scope that begins under a token fails every check once that token was cancelled, however long it
      lives and whatever nests in it. */
  lemma CancellationReaches(s: System, steps: seq<Step>, t: Thread, timeout: real, k: Token, began: real, now: real)
    requires Enabled(s, Begin(t, timeout, Some(k), began)) && t !in s.table.active
    requires Run(Next(s, Begin(t, timeout, Some(k), began)), steps)
    ensures var s1 := Next(s, Begin(t, timeout, Some(k), began)); var s2 := After(s1, steps);
            && t in s1.table.active
            && (t in s2.table.active && s2.table.active[t].generation == s1.table.active[t].generation && k in s2.cancelled ==>
                  !Passes(s2.table.active[t], s2.cancelled, now))
  {
    var s1 := Next(s, Begin(t, timeout, Some(k), began));
    BoundRun(s1, steps, t, s1.table.active[t].generation, k);
  }

  /** A scope ends only with its last guard, or with its thread. */
  lemma ScopeEnds(s: System, step: Step, t: Thread)
    requires Invariant(s) && Enabled(s, step) && t in s.table.active
    requires t !in Next(s, step).table.active || Next(s, step).table.active[t].generation != s.table.active[t].generation
    ensures t !in Next(s, step).table.active
    ensures step == Exit(t) || (step == Drop(t) && s.table.active[t].depth == 1 && Guards(s, t) == 1)
  {
    assert Owned(s, t);
    match step
    case Drop(u) => assert Owned(s, u);
    case Exit(u) => assert Owned(s, u);
    case _ =>
  }

  // ---------------------------------------------------------------- signals and thread exit

  /** Only the watchdog's pass signals, and only threads that are registered and alive then. */
  lemma SignalsReachRegistered(s: System, step: Step)
    requires Invariant(s) && Enabled(s, step)
    ensures forall t :: t in Next(s, step).signalled && t !in s.signalled ==> step.Pass? && t in s.table.active && t in s.alive
  {
    forall t | t in Next(s, step).signalled && t !in s.signalled ensures step.Pass? && t in s.table.active && t in s.alive {
      assert Owned(s, t);
    }
  }

  /** A thread that ends leaves no entry behind, even when it forgot its guards. */
  lemma ExitClears(s: System, t: Thread)
    requires Invariant(s) && Enabled(s, Exit(t))
    ensures t !in Next(s, Exit(t)).table.active && t !in Next(s, Exit(t)).alive
  {
    assert Owned(s, t);
  }

  // ---------------------------------------------------------------- the runtime takes these steps

  /** Entering a scope is the step `Begin` on the table, and gives the thread its generation. */
  method Open(runtime: Runtime, ghost s: System, t: Thread, timeout: real, token: Option<Token>, now: real) returns (mine: nat)
    requires runtime.Inside() == s.table && Enabled(s, Begin(t, timeout, token, now))
    modifies runtime
    ensures var s' := Next(s, Begin(t, timeout, token, now));
            runtime.Inside() == s'.table && t in s'.owner && mine == s'.owner[t]
  {
    mine := runtime.Enter(t, timeout, now, token);
  }

  /** One turn of the watchdog under the mutex is the step `Pass`, and what it then waits for enables the
      step `Sleep`. */
  method Watching(runtime: Runtime, ghost s: System, cancelled: set<Token>, now: real)
    returns (signalled: set<Thread>, until: Option<real>)
    requires runtime.Inside() == s.table && cancelled == s.cancelled && Enabled(s, Pass(now))
    modifies runtime
    ensures var s' := Next(s, Pass(now));
            && runtime.Inside() == s'.table && s'.signalled == s.signalled + signalled && Enabled(s', Sleep(until))
  {
    signalled := runtime.Sweep(cancelled, now);
    until := runtime.NextWake();
  }
}
