/** The launch jobs: stopping, starting and login settings, over calls that may fail. A registration
    stays visible for a while after it was booted out. */
module Lifecycle {
  import opened Paths

  datatype Label = Worker | Menu

  /** A loaded job runs the property list it was bootstrapped from. */
  datatype Registration = Gone | Loaded(plist: string) | Departing

  /** How a bootout is answered: a denied call may have taken effect, and a job that is taken down may
      linger as a departing registration. */
  datatype Reply = Accepted(lingers: bool) | Denied(effective: bool, lingers: bool)

  /** A denied bootout took a job down. */
  predicate Undercuts(reply: Reply, before: Registration) { reply.Denied? && reply.effective && before != Gone }

  const POLLS := 150

  class LaunchHost {
    var registration: map<Label, Registration>
    var disabled: map<Label, bool>
    var plists: map<Label, Option<string>>
    var lockHeld: bool   // the runtime lock, held by this process
    const calm: bool     // no other call is refused, and no registration vanishes
    // Bookkeeping of the model: refused calls and timed-out waits, and polls.
    ghost var faults: nat
    ghost var polls: nat
    // Departing registrations that no pending removal accounts for: those on their way out before, and
    // those that a denied bootout took down.
    ghost var strays: set<Label>

    ghost predicate Valid() reads this {
      forall l: Label :: l in registration && l in disabled && l in plists
    }

    predicate Visible(l: Label)
      requires l in registration
      reads this
    {
      registration[l] != Gone
    }

    constructor (registration: map<Label, Registration>, disabled: map<Label, bool>, plists: map<Label, Option<string>>, calm: bool)
      requires forall l: Label :: l in registration && l in disabled && l in plists
      ensures Valid() && this.registration == registration && this.disabled == disabled && this.plists == plists && !lockHeld
      ensures this.calm == calm && faults == 0 && polls == 0 && strays == Leaving()
    {
      this.registration, this.disabled, this.plists, lockHeld, this.calm := registration, disabled, plists, false, calm;
      faults, polls := 0, 0;
      strays := set l: Label | l in registration && registration[l] == Departing;
    }

    function Leaving(): set<Label> reads this { set l | l in registration && registration[l] == Departing }

    predicate AllGone() reads `registration { forall l: Label :: l in registration && registration[l] == Gone }

    /** Counts a call that was refused, or a wait that timed out. */
    ghost method Count(refused: bool)
      modifies `faults
      ensures faults == old(faults) + if refused then 1 else 0
    {
      faults := faults + if refused then 1 else 0;
    }

    /** Only a departing registration changes on its own: it vanishes. */
    twostate predicate Settles() reads this {
      && (forall l: Label :: l in old(registration) && l in registration ==>
            registration[l] == old(registration)[l] || (old(registration)[l] == Departing && registration[l] == Gone))
      && disabled == old(disabled) && plists == old(plists) && lockHeld == old(lockHeld)
    }

    method Settle(l: Label)
      requires Valid()
      modifies `registration
      ensures Valid() && Settles() && forall other :: other != l ==> registration[other] == old(registration)[other]
      ensures calm ==> registration == old(registration)
    {
      var vanishes: bool := *;
      if vanishes && !calm && registration[l] == Departing {
        registration := registration[l := Gone];
      }
    }

    /** launchctl print. */
    method IsLoaded(l: Label) returns (loaded: Option<bool>)
      requires Valid()
      modifies `registration, `faults, `polls
      ensures Valid() && Settles() && forall other :: other != l ==> registration[other] == old(registration)[other]
      ensures loaded.Some? ==> loaded.value == (registration[l] != Gone)
      ensures faults == old(faults) + (if loaded.None? then 1 else 0) && polls == old(polls) + 1
      ensures calm ==> loaded.Some? && registration == old(registration)
    {
      Settle(l);
      var fails: bool := *;
      fails := fails && !calm;
      Count(fails);
      polls := polls + 1;
      loaded := if fails then None else Some(Visible(l));
    }

    /** launchctl bootout: accepted for a loaded, departing or missing job. */
    method BootOut(l: Label, reply: Reply) returns (accepted: bool)
      requires Valid()
      modifies `registration, `faults, `strays
      ensures Valid() && forall other :: other != l ==> registration[other] == old(registration)[other]
      ensures accepted == reply.Accepted? && faults == old(faults) + if accepted then 0 else 1
      ensures var down := old(registration)[l] != Gone && (accepted || reply.effective);
              && registration[l] == (if down then if reply.lingers then Departing else Gone else old(registration)[l])
              && strays == old(strays) + if down && !accepted then {l} else {}
    {
      accepted := reply.Accepted?;
      Count(!accepted);
      if registration[l] != Gone && (accepted || reply.effective) {
        registration := registration[l := if reply.lingers then Departing else Gone];
        strays := strays + if accepted then {} else {l};
      }
    }

    /** launchctl enable or disable; a failed call may have taken effect. */
    method SetDisabled(l: Label, off: bool) returns (ok: bool)
      requires Valid()
      modifies `disabled, `faults
      ensures Valid() && forall other :: other != l ==> disabled[other] == old(disabled)[other]
      ensures faults == old(faults) + if ok then 0 else 1
      ensures ok ==> disabled[l] == off
      ensures disabled[l] == off || disabled[l] == old(disabled)[l]
      ensures calm ==> ok
    {
      var fails, effective: bool := *, *;
      fails := fails && !calm;
      ok := !fails;
      Count(fails);
      if ok || effective {
        disabled := disabled[l := off];
      }
    }

    /** launchctl bootstrap; a failed call may have taken effect. Callers must not hold the runtime lock, must
        have enabled the job, and must not let a departing registration of it be around. */
    method Bootstrap(l: Label) returns (ok: bool)
      requires Valid() && !lockHeld && !disabled[l] && registration[l] != Departing
      modifies `registration, `faults
      ensures Valid() && forall other :: other != l ==> registration[other] == old(registration)[other]
      ensures ok ==> old(registration)[l] == Gone && plists[l].Some? && registration[l] == Loaded(plists[l].value)
      ensures !ok ==> registration[l] == old(registration)[l] || (plists[l].Some? && registration[l] == Loaded(plists[l].value))
      ensures registration[l] != Departing
      ensures ok ==> faults == old(faults)
      ensures !ok ==> faults > old(faults) || old(registration)[l] != Gone || plists[l].None?
    {
      var fails, effective: bool := *, *;
      Count(fails);
      ok := !fails && registration[l] == Gone && plists[l].Some?;
      if ok || (effective && registration[l] == Gone && plists[l].Some?) {
        registration := registration[l := Loaded(plists[l].value)];
      }
    }

    method Kickstart(l: Label) returns (ok: bool)
      modifies `faults
      ensures faults == old(faults) + if ok then 0 else 1
    {
      ok := *;
      Count(!ok);
    }

    /** print-disabled. */
    method ReadDisabled() returns (read: Option<map<Label, bool>>)
      requires Valid()
      modifies `faults
      ensures read.Some? ==> read.value == disabled
      ensures faults == old(faults) + if read.Some? then 0 else 1
    {
      var fails: bool := *;
      Count(fails);
      read := if fails then None else Some(disabled);
    }

    // -------------------------------------------------------------- stopping

    /** Polls at most 150 times until the registration is gone; a timeout or a failed poll is an error. */
    method WaitForAbsence(l: Label) returns (absent: bool)
      requires Valid()
      modifies `registration, `faults, `polls
      ensures Valid() && Settles() && forall other :: other != l ==> registration[other] == old(registration)[other]
      ensures absent ==> registration[l] == Gone
      ensures faults == old(faults) + if absent then 0 else 1
      ensures 1 <= polls - old(polls) <= POLLS
    {
      for attempt := 0 to POLLS
        invariant Valid() && Settles() && forall other :: other != l ==> registration[other] == old(registration)[other]
        invariant faults == old(faults) && polls == old(polls) + attempt
      {
        var loaded := IsLoaded(l);
        if loaded.None? {
          return false;
        }
        if !loaded.value {
          return true;
        }
        if attempt < POLLS - 1 {
          Settle(l);
        }
      }
      Count(true);
      return false;
    }

    /** Every departing registration is among the pending removals, or a stray. */
    ghost predicate Tracked(pending: set<Label>) reads this {
      forall l: Label :: l in registration && registration[l] == Departing ==> l in pending || l in strays
    }

    /** Only an accepted bootout makes a removal pending. */
    method StopWith(l: Label, pending: set<Label>, reply: Reply) returns (stopped: bool, still: set<Label>)
      requires Valid() && Tracked(pending)
      modifies `registration, `faults, `polls, `strays
      ensures faults == old(faults) + if stopped then 0 else 1
      ensures Valid() && Tracked(still) && forall other :: other != l ==> registration[other] == old(registration)[other]
      ensures stopped ==> reply.Accepted? && registration[l] == Gone && still == pending - {l}
      ensures !stopped && reply.Accepted? ==> still == pending + {l}
      ensures reply.Denied? ==> !stopped && still == pending
      ensures registration[l] == old(registration)[l] || registration[l] == Gone || registration[l] == Departing
      ensures strays == old(strays) + (if Undercuts(reply, old(registration)[l]) then {l} else {})
      ensures Undercuts(reply, old(registration)[l]) ==> registration[l] == (if reply.lingers then Departing else Gone)
      ensures reply.Denied? && !Undercuts(reply, old(registration)[l]) ==> registration[l] == old(registration)[l]
    {
      still := pending;
      var accepted := BootOut(l, reply);
      if !accepted {
        return false, still;
      }
      still := still + {l};
      stopped := WaitForAbsence(l);
      if stopped {
        still := still - {l};
      }
    }

    method Stop(l: Label, pending: set<Label>) returns (stopped: bool, still: set<Label>)
      requires Valid() && Tracked(pending)
      modifies `registration, `faults, `polls, `strays
      ensures faults == old(faults) + if stopped then 0 else 1
      ensures Valid() && Tracked(still) && forall other :: other != l ==> registration[other] == old(registration)[other]
      ensures stopped ==> registration[l] == Gone && still == pending - {l} && strays == old(strays)
      ensures !stopped ==> still == pending || still == pending + {l}
      ensures registration[l] == old(registration)[l] || registration[l] == Gone || registration[l] == Departing
      ensures old(strays) <= strays <= old(strays) + {l}
      ensures !stopped && l !in still && l !in strays ==> registration[l] == old(registration)[l]
    {
      var denied, effective, lingers: bool := *, *, *;
      stopped, still := StopWith(l, pending, if denied then Denied(effective, lingers) else Accepted(lingers));
    }

    // -------------------------------------------------------------- starting

    /** Starts the worker and puts its login setting back as it was. A registration that is still visible
        is kicked, also when it is on its way out: then nothing may be left of the job after success. */
    method Start() returns (ok: bool)
      requires Valid() && !lockHeld
      modifies `registration, `disabled, `faults, `polls
      ensures ok ==> faults == old(faults)
      ensures !ok ==> faults > old(faults) || plists[Worker].None?
      ensures Valid() && forall other :: other != Worker ==> registration[other] == old(registration)[other] && disabled[other] == old(disabled)[other]
      ensures ok ==> disabled == old(disabled) && (registration[Worker].Loaded? || registration[Worker] == old(registration)[Worker] == Departing)
      ensures ok && old(registration)[Worker] == Gone ==> registration[Worker].Loaded? && plists[Worker] == Some(registration[Worker].plist)
    {
      if plists[Worker].None? {
        return false;
      }
      var read := ReadDisabled();
      if read.None? {
        return false;
      }
      var off := read.value[Worker];
      if off {
        var enabled := SetDisabled(Worker, false);
        if !enabled {
          return false;
        }
      }
      var started := Launch();
      var restored := true;
      if off {
        restored := SetDisabled(Worker, true);
      }
      ok := started && restored;
      if ok {
        SameSettings(disabled, old(disabled));
      }
    }

    /** Kicks a visible worker, bootstraps a missing one. */
    method Launch() returns (ok: bool)
      requires Valid() && !lockHeld && !disabled[Worker] && plists[Worker].Some?
      modifies `registration, `faults, `polls
      ensures Valid() && forall other :: other != Worker ==> registration[other] == old(registration)[other]
      ensures faults >= old(faults) && (ok <==> faults == old(faults))
      ensures ok ==> registration[Worker].Loaded? || registration[Worker] == old(registration)[Worker] == Departing
      ensures ok && old(registration)[Worker] == Gone ==> registration[Worker] == Loaded(plists[Worker].value)
    {
      var loaded := IsLoaded(Worker);
      ok := false;
      if loaded.Some? {
        if loaded.value {
          ok := Kickstart(Worker);
        } else {
          ok := Bootstrap(Worker);
        }
      }
    }

    static lemma SameSettings(a: map<Label, bool>, b: map<Label, bool>)
      requires forall l: Label :: l in a && l in b && a[l] == b[l]
      ensures a == b
    {
    }

    /** Stop, then start: never on top of the departing registration. */
    method Restart() returns (ok: bool)
      requires Valid() && !lockHeld && Tracked({})
      modifies `registration, `disabled, `faults, `polls, `strays
      ensures Valid()
      ensures ok ==> faults == old(faults)
      ensures !ok ==> faults > old(faults) || plists[Worker].None?
      ensures ok ==> plists[Worker].Some? && registration[Worker] == Loaded(plists[Worker].value) && disabled == old(disabled)
    {
      if plists[Worker].None? {
        return false;
      }
      var stopped, still := Stop(Worker, {});
      if !stopped {
        return false;
      }
      ok := Start();
    }

    // -------------------------------------------------------------- login setting

    /** Turns the login setting on or off. An unconfirmed change is undone. */
    method SetStartup(off: bool) returns (outcome: Startup)
      requires Valid()
      modifies `disabled, `faults
      ensures Valid()
      ensures outcome == Applied <==> faults == old(faults) && plists[Worker].Some?
      ensures outcome == Stuck ==> faults >= old(faults) + 2
      ensures outcome == Applied ==> disabled[Worker] == off
      ensures outcome == Undone || outcome == Untouched ==> disabled[Worker] == old(disabled)[Worker]
      ensures disabled[Menu] == old(disabled)[Menu]
    {
      var before := ReadDisabled();
      if before.None? || plists[Worker].None? {
        return Untouched;
      }
      var applied := SetDisabled(Worker, off);
      if applied {
        var after := ReadDisabled();
        if after.Some? && after.value[Worker] == off {
          return Applied;
        }
      }
      var restored := SetDisabled(Worker, before.value[Worker]);
      return if restored then Undone else Stuck;
    }
  }

  datatype Startup = Applied | Undone | Untouched | Stuck
}
