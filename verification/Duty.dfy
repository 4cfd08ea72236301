/** Exactly which directories still wait for the baseline walk after a commit: what the flag is worth
    when the row to delete was re-created. */
module Duty {
  import opened Paths
  import opened JobTable
  import opened Coverage
  import opened Deferral
  import opened Queueing
  import opened Worker
  import opened Commits
  import opened Losses

  ghost predicate BaselineBelow(t: Tables, target: Path, key: Key) {
    exists p :: p in t.jobs && target < p && t.jobs[p].volume == key && t.jobs[p].baseline
  }

  /** Is the row at `target` baseline work once a request has landed there: handed on as such, before,
      or by absorption of baseline rows below? */
  ghost predicate OnDuty(t: Tables, target: Path, key: Key, deep: bool, handed: bool) {
    handed || (target in t.jobs && t.jobs[target].baseline) || (deep && BaselineBelow(t, target, key))
  }

  /** A request lands in a row that stands for `d` and is baseline work from then on. */
  ghost predicate TakesDuty(env: Setting, t: Tables, r: Request, d: Path) {
    var intent := IntentOf(r.recursive, r.baseline, r.due, r.preserve);
    var target := TargetOf(env, t, r.path, r.key, intent);
    var deep := DeepIntent(env, t, r.path, r.key, intent);
    && env.acceptsDirectory(r.path)
    && Stands(env, t, target, env.VolumeOr(r.path, r.key), deep, d)
    && OnDuty(t, target, env.VolumeOr(r.path, r.key), deep, r.baseline)
  }

  lemma AbsorbDuty(jobs: map<Path, Row>, target: Path, key: Key)
    requires target in jobs && target != []
    ensures var jobs' := Absorb(jobs, target, key);
            && target in jobs'
            && (jobs'[target].baseline <==>
                  jobs[target].baseline || exists p :: p in jobs && jobs[p].volume == key && target < p && jobs[p].baseline)
  {
    if p :| p in jobs && jobs[p].volume == key && target < p && jobs[p].baseline {
      assert InRange(p, target);
    }
  }

  lemma LandedDuty(t: Tables, target: Path, key: Key, deep: bool, intent: Intent)
    requires target != []
    ensures var t1 := Upsert(t, target, key, deep, intent);
            var t2 := if Promotes(t, target, intent) then MoveToTail(t1, target) else t1;
            && (t2.jobs[target].baseline <==> intent.baseline || (target in t.jobs && t.jobs[target].baseline))
            && (BaselineBelow(t2, target, key) <==> BaselineBelow(t, target, key))
  {
    var t1 := Upsert(t, target, key, deep, intent);
    var t2 := if Promotes(t, target, intent) then MoveToTail(t1, target) else t1;
    assert forall p :: target < p ==> (p in t2.jobs <==> p in t.jobs) && (p in t.jobs ==> t2.jobs[p] == t.jobs[p]);
  }

  lemma QueueDuty(env: Env, t: Tables, r: Request)
    requires Owned(env, t) && env.acceptsDirectory(r.path)
    ensures var intent := IntentOf(r.recursive, r.baseline, r.due, r.preserve);
            var target := TargetOf(env, t, r.path, r.key, intent);
            var t' := QueueRequest(env, None, t, r);
            target in t'.jobs && (t'.jobs[target].baseline <==>
              OnDuty(t, target, env.VolumeOr(r.path, r.key), DeepIntent(env, t, r.path, r.key, intent), r.baseline))
  {
    var intent := IntentOf(r.recursive, r.baseline, r.due, r.preserve);
    var target := TargetOf(env, t, r.path, r.key, intent);
    var key := env.VolumeOr(r.path, r.key);
    var deep := DeepIntent(env, t, r.path, r.key, intent);
    TargetInVolume(env, t, r.path, r.key, intent);
    PlacedDuty(t, target, key, deep, intent);
  }

  lemma PlacedDuty(t: Tables, target: Path, key: Key, deep: bool, intent: Intent)
    requires target != []
    ensures var t1 := Upsert(t, target, key, deep, intent);
            var t2 := if Promotes(t, target, intent) then MoveToTail(t1, target) else t1;
            var jobs := if deep then Absorb(t2.jobs, target, key) else t2.jobs;
            target in jobs && (jobs[target].baseline <==> OnDuty(t, target, key, deep, intent.baseline))
  {
    LandedDuty(t, target, key, deep, intent);
    var t1 := Upsert(t, target, key, deep, intent);
    AbsorbDuty(if Promotes(t, target, intent) then MoveToTail(t1, target).jobs else t1.jobs, target, key);
  }

  lemma QueueDutyIff(env: Env, t: Tables, r: Request, d: Path)
    requires Sound(env, t, None) && env.acceptsDirectory(d)
    ensures Covered(env, QueueRequest(env, None, t, r), true, None, d) <==> Covered(env, t, true, None, d) || TakesDuty(env, t, r, d)
  {
    if env.acceptsDirectory(r.path) {
      var intent := IntentOf(r.recursive, r.baseline, r.due, r.preserve);
      QueueDuty(env, t, r);
      QueueEffect(env, None, t, r.path, r.key, intent);
      LandingIff(env, t, QueueRequest(env, None, t, r), TargetOf(env, t, r.path, r.key, intent), env.VolumeOr(r.path, r.key),
                 DeepIntent(env, t, r.path, r.key, intent), r.baseline, d);
    }
  }

  lemma LandingIff(env: Env, t: Tables, t': Tables, target: Path, key: Key, deep: bool, added: bool, d: Path)
    requires Effect(t, t', target, key, deep, added)
    requires t'.jobs[target].baseline <==> OnDuty(t, target, key, deep, added)
    ensures Covered(env, t', true, None, d)
            <==> Covered(env, t, true, None, d) || (Stands(env, t, target, key, deep, d) && OnDuty(t, target, key, deep, added))
  {
    if Covered(env, t', true, None, d) {
      EffectAddsOnly(env, t, t', target, key, deep, added, true, d);
    }
    if Covered(env, t, true, None, d) {
      EffectKeeps(env, t, t', target, key, deep, added, true, None, d);
    } else if Stands(env, t, target, key, deep, d) && OnDuty(t, target, key, deep, added) {
      assert CoverAt(env, t', true, None, target, d);
    }
  }

  // ---------------------------------------------------------------- through a whole commit

  /** One of the requests, queued in order, takes duty for `d`. */
  ghost predicate TakeDuty(env: Setting, t: Tables, rs: seq<Request>, d: Path)
    decreases |rs|
  {
    rs != [] && (TakesDuty(env, t, rs[0], d) || TakeDuty(env, QueueRequest(env, None, t, rs[0]), rs[1..], d))
  }

  lemma {:induction false} AllDutyIff(env: Env, t: Tables, rs: seq<Request>, d: Path)
    requires Sound(env, t, None) && env.acceptsDirectory(d)
    ensures Covered(env, QueueAll(env, None, t, rs), true, None, d) <==> Covered(env, t, true, None, d) || TakeDuty(env, t, rs, d)
    decreases |rs|
  {
    if rs != [] {
      QueueDutyIff(env, t, rs[0], d);
      QueueKeeps(env, None, t, rs[0], true, None, d);
      AllDutyIff(env, QueueRequest(env, None, t, rs[0]), rs[1..], d);
    }
  }

  /** One of the retried errors takes duty for `d`. */
  ghost predicate ErrorsTakeDuty(env: Setting, t: Tables, job: Job, o: Observation, errors: seq<Path>, now: real, d: Path)
    decreases |errors|
  {
    errors != [] &&
    (|| TakesDuty(env, t, ErrorRequest(env, job, o, errors[0], now), d)
     || ErrorsTakeDuty(env, RetryError(env, t, job, o, errors[0], now), job, o, errors[1..], now, d))
  }

  lemma ErrorDutyIff(env: Env, t: Tables, job: Job, o: Observation, f: Path, now: real, d: Path)
    requires Sound(env, t, None) && env.acceptsDirectory(d)
    ensures Covered(env, RetryError(env, t, job, o, f, now), true, None, d)
            <==> Covered(env, t, true, None, d) || TakesDuty(env, t, ErrorRequest(env, job, o, f, now), d)
  {
    var r := ErrorRequest(env, job, o, f, now);
    QueueDutyIff(env, t, r, d);
    MarkKeeps(env, QueueRequest(env, None, t, r), r.path, job.attempts + 1, r.due, true, None, d);
  }

  lemma {:induction false} ErrorsDutyIff(env: Env, t: Tables, job: Job, o: Observation, errors: seq<Path>, now: real, d: Path)
    requires Sound(env, t, None) && env.acceptsDirectory(d)
    ensures Covered(env, RetryErrors(env, t, job, o, errors, now), true, None, d)
            <==> Covered(env, t, true, None, d) || ErrorsTakeDuty(env, t, job, o, errors, now, d)
    decreases |errors|
  {
    if errors != [] {
      ErrorDutyIff(env, t, job, o, errors[0], now, d);
      RetryErrorKeeps(env, t, job, o, errors[0], now, true, None, d);
      ErrorsDutyIff(env, RetryError(env, t, job, o, errors[0], now), job, o, errors[1..], now, d);
    }
  }

  /** What the commit queues after its acknowledgement takes duty for `d`: the parent of a vanished
      scope, the children, the retried errors, or the deferred requests, each in the table it meets. */
  ghost predicate CommitTakesDuty(env: Setting, t: Tables, job: Job, o: Observation, now: real, d: Path) {
    var t1 := Acknowledge(t, job, o.errors == []);
    var t2 := QueueAll(env, None, t1, ParentRequests(env, job, o));
    var t3 := Before(env, t, job, o);
    var t4 := RetryErrors(env, t3, job, o, o.errors, now);
    || TakeDuty(env, t1, ParentRequests(env, job, o), d)
    || TakeDuty(env, t2, ChildRequests(env, job, o, o.children), d)
    || ErrorsTakeDuty(env, t3, job, o, o.errors, now, d)
    || TakeDuty(env, t4.(deferred := []), DeferredRequests(t4.deferred), d)
  }

  lemma BeforeDutyIff(env: Env, t: Tables, job: Job, o: Observation, d: Path)
    requires Sound(env, t, None) && env.acceptsDirectory(d)
    ensures var t1 := Acknowledge(t, job, o.errors == []);
            var t2 := QueueAll(env, None, t1, ParentRequests(env, job, o));
            Covered(env, Before(env, t, job, o), true, None, d)
            <==> || Covered(env, t1, true, None, d)
                 || TakeDuty(env, t1, ParentRequests(env, job, o), d)
                 || TakeDuty(env, t2, ChildRequests(env, job, o, o.children), d)
  {
    var t1 := Acknowledge(t, job, o.errors == []);
    AcknowledgeSound(env, t, job, o.errors == [], None);
    AllDutyIff(env, t1, ParentRequests(env, job, o), d);
    QueueAllKeeps(env, None, t1, ParentRequests(env, job, o), true, None, d);
    AllDutyIff(env, QueueAll(env, None, t1, ParentRequests(env, job, o)), ChildRequests(env, job, o, o.children), d);
  }

  lemma DrainDutyIff(env: Env, t: Tables, d: Path)
    requires Sound(env, t, None) && env.acceptsDirectory(d)
    ensures Covered(env, Drain(env, t), true, None, d)
            <==> Covered(env, t, true, None, d) || TakeDuty(env, t.(deferred := []), DeferredRequests(t.deferred), d)
  {
    var t0 := t.(deferred := []);
    SameJobs(env, t, t0, true, None, d);
    AllDutyIff(env, t0, DeferredRequests(t.deferred), d);
  }

  /** After any complete observation a directory waits for the baseline walk if and only if a baseline
      row other than the deleted one stands for it, or the commit hands it on as baseline work, or a row
      that stands for it takes baseline duty by coalescing or absorption in that commit. */
  lemma BaselineKeptIff(env: Env, t: Tables, job: Job, o: Observation, now: real, d: Path)
    requires Sound(env, t, None) && env.acceptsDirectory(d)
    ensures Represented(env, Finish(env, t, job, o, now), true, None, d)
            <==> Remains(env, t, job, true, d) || CommitTakesDuty(env, t, job, o, now, d)
  {
    var t3 := Before(env, t, job, o);
    AcknowledgeKeepsIff(env, t, job, o.errors == [], true, d);
    BeforeKeeps(env, t, job, o, true, None, d);
    BeforeDutyIff(env, t, job, o, d);
    ErrorsDutyIff(env, t3, job, o, o.errors, now, d);
    RetryErrorsKeep(env, t3, job, o, o.errors, now, true, None, d);
    DrainDutyIff(env, RetryErrors(env, t3, job, o, o.errors, now), d);
  }

  ghost predicate StaysDue(env: Setting, t: Tables, job: Job, o: Observation, now: real, d: Path) {
    Remains(env, t, job, true, d) || CommitTakesDuty(env, t, job, o, now, d)
  }
}
