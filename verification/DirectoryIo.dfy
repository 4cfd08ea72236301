/** Deadlines for read-only directory calls: guards of many threads, one watchdog, and cancellation
    tokens, interleaved at the granularity of the mutex that protects the table of active threads. */
module DirectoryIo {
  import opened Paths

  type Thread = nat
  type Token = nat

  const INTERRUPT_INTERVAL := 0.05

  /** A thread's outermost scope and how many guards nest in it. */
  datatype Active = Active(generation: nat, depth: nat, timeout: real, deadline: real, next: real, expired: bool, token: Option<Token>)

  /** What the mutex protects. */
  datatype Table = Table(generation: nat, active: map<Thread, Active>)

  predicate Cancelled(a: Active, cancelled: set<Token>) { a.token.Some? && a.token.value in cancelled }

  /** A scope in which nothing can succeed any more. */
  predicate Doomed(a: Active, cancelled: set<Token>) { a.expired || Cancelled(a, cancelled) }

  // ---------------------------------------------------------------- critical sections

  /** Nested guards share the outer scope: its deadline, its token, its expiry. */
  function Entered(table: Table, t: Thread, timeout: real, now: real, token: Option<Token>): Table {
    if t in table.active then table.(active := table.active[t := table.active[t].(depth := table.active[t].depth + 1)])
    else
      Table(table.generation + 1,
            table.active[t := Active(table.generation + 1, 1, timeout, now + timeout, now + timeout, false, token)])
  }

  /** Does a check or a progress report succeed? */
  predicate Passes(a: Active, cancelled: set<Token>, now: real) { !Doomed(a, cancelled) && now < a.deadline }

  function Updated(table: Table, t: Thread, cancelled: set<Token>, progress: bool, now: real): Table
    requires t in table.active
  {
    var a := table.active[t];
    table.(active := table.active[t :=
      if !Passes(a, cancelled, now) then a.(expired := true)
      else if progress then a.(deadline := now + a.timeout, next := now + a.timeout)
      else a])
  }

  predicate Removes(table: Table, t: Thread, generation: nat, all: bool) {
    t in table.active && table.active[t].generation == generation && (all || table.active[t].depth <= 1)
  }

  function Finished(table: Table, t: Thread, generation: nat, all: bool): Table {
    if Removes(table, t, generation, all) then table.(active := table.active - {t})
    else if t in table.active && table.active[t].generation == generation && table.active[t].depth > 0 then
      table.(active := table.active[t := table.active[t].(depth := table.active[t].depth - 1)])
    else table
  }

  /** Is the thread to be interrupted in this pass of the watchdog? */
  predicate Interrupts(a: Active, cancelled: set<Token>, now: real) {
    now >= a.next || (!a.expired && Cancelled(a, cancelled))
  }

  function Struck(a: Active, cancelled: set<Token>, now: real): Active {
    if Interrupts(a, cancelled, now) then a.(expired := true, next := now + INTERRUPT_INTERVAL) else a
  }

  function Swept(table: Table, cancelled: set<Token>, now: real): Table {
    table.(active := map t | t in table.active :: Struck(table.active[t], cancelled, now))
  }

  /** The entries when all but `rest` were visited. */
  function SweptBut(active: map<Thread, Active>, rest: set<Thread>, cancelled: set<Token>, now: real): map<Thread, Active> {
    map t | t in active :: if t in rest then active[t] else Struck(active[t], cancelled, now)
  }

  function Targets(table: Table, cancelled: set<Token>, now: real): set<Thread> {
    set t | t in table.active && Interrupts(table.active[t], cancelled, now)
  }

  lemma SweptOne(table: Table, rest: set<Thread>, cancelled: set<Token>, now: real, t: Thread)
    requires t in rest && rest <= table.active.Keys
    ensures SweptBut(table.active, rest - {t}, cancelled, now)
            == SweptBut(table.active, rest, cancelled, now)[t := Struck(table.active[t], cancelled, now)]
    ensures SweptBut(table.active, rest, cancelled, now)[t] == table.active[t]
    ensures Targets(table, cancelled, now) - (rest - {t})
            == Targets(table, cancelled, now) - rest + if Interrupts(table.active[t], cancelled, now) then {t} else {}
  {
  }

  lemma SweptAll(table: Table, cancelled: set<Token>, now: real)
    ensures SweptBut(table.active, {}, cancelled, now) == Swept(table, cancelled, now).active
    ensures Targets(table, cancelled, now) - {} == Targets(table, cancelled, now)
  {
  }

  /** The earliest time at which the watchdog has something to do. */
  ghost predicate Until(table: Table, until: Option<real>) {
    match until
    case None => table.active == map[]
    case Some(time) => (forall t :: t in table.active ==> time <= table.active[t].next)
                       && exists t :: t in table.active && table.active[t].next == time
  }

  /** The runtime whose methods are the critical sections. */
  class Runtime {
    var generation: nat
    var active: map<Thread, Active>

    function Inside(): Table reads this { Table(generation, active) }

    constructor ()
      ensures Inside() == Table(0, map[])
    {
      generation, active := 0, map[];
    }

    method Enter(t: Thread, timeout: real, now: real, token: Option<Token>) returns (mine: nat)
      modifies this
      ensures Inside() == Entered(old(Inside()), t, timeout, now, token)
      ensures t in active && mine == active[t].generation && active - {t} == old(active) - {t}
      ensures t in old(active) ==> active[t] == old(active)[t].(depth := old(active)[t].depth + 1)
      ensures t !in old(active) ==>
          && mine == generation == old(generation) + 1 && active[t].depth == 1 && !active[t].expired && active[t].token == token
          && active[t].timeout == timeout && active[t].deadline == active[t].next == now + timeout
    {
      if t in active {
        active := active[t := active[t].(depth := active[t].depth + 1)];
      } else {
        generation := generation + 1;
        active := active[t := Active(generation, 1, timeout, now + timeout, now + timeout, false, token)];
      }
      mine := active[t].generation;
    }

    method Update(t: Thread, cancelled: set<Token>, progress: bool, now: real) returns (ok: bool)
      requires t in active
      modifies this
      ensures Inside() == Updated(old(Inside()), t, cancelled, progress, now)
      ensures ok == Passes(old(active)[t], cancelled, now)
      ensures var a := old(active)[t];
              && t in active && active - {t} == old(active) - {t}
              && (ok <==> !a.expired && !(a.token.Some? && a.token.value in cancelled) && now < a.deadline)
              && active[t] == (if !ok then a.(expired := true)
                               else if progress then a.(deadline := now + a.timeout, next := now + a.timeout) else a)
    {
      var a := active[t];
      if Cancelled(a, cancelled) || a.expired || now >= a.deadline {
        active := active[t := a.(expired := true)];
        return false;
      }
      if progress {
        a := a.(deadline := now + a.timeout, next := now + a.timeout);
      }
      active := active[t := a];
      return true;
    }

    method Finish(t: Thread, mine: nat, all: bool) returns (removed: bool)
      modifies this
      ensures Inside() == Finished(old(Inside()), t, mine, all)
      ensures removed == Removes(old(Inside()), t, mine, all)
      ensures removed ==> t in old(active) && active == old(active) - {t}
      ensures !removed && active != old(active) ==>
          t in old(active) && active == old(active)[t := old(active)[t].(depth := old(active)[t].depth - 1)]
      ensures t !in old(active) || old(active)[t].generation != mine ==> !removed && active == old(active)
      ensures t in old(active) && old(active)[t].generation == mine ==> (removed <==> all || old(active)[t].depth <= 1)
      ensures t in old(active) && old(active)[t].generation == mine && !removed ==> active != old(active)
    {
      removed := false;
      if t in active && active[t].generation == mine {
        var depth := if all || active[t].depth == 0 then 0 else active[t].depth - 1;
        if depth == 0 {
          active := active - {t};
          removed := true;
        } else {
          active := active[t := active[t].(depth := depth)];
        }
      }
    }

    /** One entry of a pass. */
    method Strike(t: Thread, cancelled: set<Token>, now: real) returns (due: bool)
      requires t in active
      modifies `active
      ensures due == Interrupts(old(active)[t], cancelled, now) && active == old(active)[t := Struck(old(active)[t], cancelled, now)]
    {
      due := Interrupts(active[t], cancelled, now);
      if due {
        active := active[t := active[t].(expired := true, next := now + INTERRUPT_INTERVAL)];
      }
    }

    /** One pass of the watchdog over the table, with the signals it sends. */
    method Sweep(cancelled: set<Token>, now: real) returns (signalled: set<Thread>)
      modifies `active
      ensures Inside() == Swept(old(Inside()), cancelled, now)
      ensures signalled == Targets(old(Inside()), cancelled, now)
      ensures active.Keys == old(active).Keys && signalled <= active.Keys
      ensures forall t :: t in active ==>
          var a := old(active)[t];
          && (t in signalled <==> now >= a.next || (!a.expired && a.token.Some? && a.token.value in cancelled))
          && active[t] == if t in signalled then a.(expired := true, next := now + INTERRUPT_INTERVAL) else a
    {
      signalled := {};
      var rest := active.Keys;
      while rest != {}
        invariant rest <= old(active).Keys
        invariant active == SweptBut(old(active), rest, cancelled, now)
        invariant signalled == Targets(old(Inside()), cancelled, now) - rest
        decreases |rest|
      {
        var t :| t in rest;
        SweptOne(old(Inside()), rest, cancelled, now, t);
        rest := rest - {t};
        var due := Strike(t, cancelled, now);
        signalled := signalled + if due then {t} else {};
      }
      SweptAll(old(Inside()), cancelled, now);
    }

    method NextWake() returns (until: Option<real>)
      ensures Until(Inside(), until)
    {
      until := None;
      var rest := active.Keys;
      while rest != {}
        invariant rest <= active.Keys
        invariant until.None? ==> rest == active.Keys
        invariant until.Some? ==> (forall t :: t in active && t !in rest ==> until.value <= active[t].next)
                                  && exists t :: t in active && active[t].next == until.value
        decreases |rest|
      {
        var t :| t in rest;
        rest := rest - {t};
        if until.None? || active[t].next < until.value {
          until := Some(active[t].next);
        }
      }
    }
  }
}
