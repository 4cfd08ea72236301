/** When a row may be tried: its due time, its attempts, and the mark of a failure. */
module Delays {
  import opened Paths
  import opened JobTable
  import opened Coverage
  import opened Deferral
  import opened Scheduler
  import opened Worker

  // ---------------------------------------------------------------- one queue operation

  predicate SameTrouble(a: Row, b: Row) { a.attempts == b.attempts && a.failed == b.failed }

  /** What a request does to the times: a new row takes its due time, an existing row at or above it
      may, unless the request preserves; attempts and failures stay, and no failed row goes. */
  ghost predicate Timed(t: Tables, t': Tables, path: Path, due: real, preserve: bool) {
    && (forall p :: p in t'.jobs && p !in t.jobs ==>
          p == path && t'.jobs[p].due == due && t'.jobs[p].attempts == 0 && !t'.jobs[p].failed)
    && (forall p :: p in t'.jobs && p in t.jobs ==>
          && SameTrouble(t.jobs[p], t'.jobs[p])
          && (t'.jobs[p].due == t.jobs[p].due || (!preserve && p <= path && t'.jobs[p].due == due)))
    && (forall p :: p in t.jobs && t.jobs[p].failed ==> p in t'.jobs)
  }

  lemma UpsertTimed(t: Tables, target: Path, key: Key, deep: bool, intent: Intent, path: Path)
    requires target <= path && (target in t.jobs || target == path)
    ensures Timed(t, Upsert(t, target, key, deep, intent), path, intent.due, intent.preserve)
  {
  }

  lemma MoveTimed(t: Tables, t1: Tables, target: Path, path: Path, due: real, preserve: bool)
    requires Timed(t, t1, path, due, preserve) && target in t1.jobs
    ensures Timed(t, MoveToTail(t1, target), path, due, preserve)
  {
  }

  lemma AbsorbTimed(t: Tables, t1: Tables, target: Path, key: Key, path: Path, due: real, preserve: bool)
    requires Timed(t, t1, path, due, preserve) && target in t1.jobs
    ensures Timed(t, t1.(jobs := Absorb(t1.jobs, target, key)), path, due, preserve)
  {
  }

  lemma QueueTimed(env: Setting, active: Option<Job>, t: Tables, path: Path, key0: Key, intent: Intent)
    ensures Timed(t, QueueIntent(env, active, t, path, key0, intent), path, intent.due, intent.preserve)
  {
    if env.acceptsDirectory(path) && !Defers(env, active, path, key0) {
      var key := env.VolumeOr(path, key0);
      FindTargetIsAbove(t.jobs, key, path, intent, path);
      var found := FindTarget(t.jobs, key, path, intent, path);
      var target := if found.Some? then found.value else path;
      var deep := intent.recursive || found.Some?;
      UpsertTimed(t, target, key, deep, intent, path);
      var t1 := Upsert(t, target, key, deep, intent);
      if Promotes(t, target, intent) {
        MoveTimed(t, t1, target, path, intent.due, intent.preserve);
      }
      var t2 := if Promotes(t, target, intent) then MoveToTail(t1, target) else t1;
      if deep {
        AbsorbTimed(t, t2, target, key, path, intent.due, intent.preserve);
      }
    }
  }

  /** Every due time and every place is as it was; a new row has the due time given, and neither a new row nor
      one that failed or has no baseline work became live. If the request waits, or is baseline work, no row
      became live at all. */
  predicate Incidental(t: Tables, t': Tables, due: real, waits: bool) {
    forall p :: p in t'.jobs ==>
      if p in t.jobs then
        && t'.jobs[p].due == t.jobs[p].due && t'.jobs[p].rowid == t.jobs[p].rowid
        && (t.jobs[p].failed || !t.jobs[p].baseline || waits ==> t'.jobs[p].scope == t.jobs[p].scope)
      else t'.jobs[p].due == due && t'.jobs[p].scope == 0
  }

  lemma UpsertIncidental(t: Tables, target: Path, key: Key, deep: bool, intent: Intent)
    requires intent.preserve
    ensures Incidental(t, Upsert(t, target, key, deep, intent), intent.due, intent.scope == 0)
  {
  }

  lemma AbsorbIncidental(t: Tables, t1: Tables, target: Path, key: Key, due: real, waits: bool)
    requires Incidental(t, t1, due, waits) && target in t1.jobs
    ensures Incidental(t, t1.(jobs := Absorb(t1.jobs, target, key)), due, waits)
  {
  }

  /** A request that preserves is incidental to the rows there are. */
  lemma PreservedDue(env: Setting, active: Option<Job>, t: Tables, r: Request)
    requires r.preserve
    ensures Incidental(t, QueueRequest(env, active, t, r), r.due, r.due != 0.0 || r.baseline)
  {
    var intent := IntentOf(r.recursive, r.baseline, r.due, r.preserve);
    if env.acceptsDirectory(r.path) && !Defers(env, active, r.path, r.key) {
      var key := env.VolumeOr(r.path, r.key);
      var found := FindTarget(t.jobs, key, r.path, intent, r.path);
      var target := if found.Some? then found.value else r.path;
      var deep := r.recursive || found.Some?;
      UpsertIncidental(t, target, key, deep, intent);
      AbsorbIncidental(t, Upsert(t, target, key, deep, intent), target, key, r.due, intent.scope == 0);
    }
  }

  // ---------------------------------------------------------------- live requests

  /** A row that can take a live request for `path` over: its own recursive row, or a recursive row above
      without baseline work, behind which the request would have to wait. */
  predicate CanTake(t: Tables, key: Key, path: Path, b: Path) {
    b in t.jobs && t.jobs[b].volume == key && t.jobs[b].recursive && b <= path && (b == path || !t.jobs[b].baseline)
  }

  /** The row `a` in which a live request for `path` ended: due at once, live, everything else as it was. */
  ghost predicate LiveAt(t: Tables, t': Tables, path: Path, recursive: bool, a: Path) {
    && a in t'.jobs && a <= path && (a == path || t'.jobs[a].recursive) && (recursive ==> t'.jobs[a].recursive)
    && t'.jobs[a].due == 0.0 && t'.jobs[a].scope >= (if recursive then 2 else 1)
    && t'.jobs[a].generation == (if a in t.jobs then t.jobs[a].generation + 1 else 1)
    && (a in t.jobs ==> SameTrouble(t.jobs[a], t'.jobs[a]))
    && forall p :: p in t'.jobs && p != a ==> p in t.jobs && t'.jobs[p] == t.jobs[p]
  }

  lemma Lands(env: Setting, active: Option<Job>, t: Tables, path: Path, key: Key, recursive: bool) returns (a: Path)
    requires env.acceptsDirectory(path) && !Defers(env, active, path, key)
    ensures LiveAt(t, Queue(env, active, t, path, key, recursive, false, 0.0, false), path, recursive, a)
    ensures LivePlace(t, Queue(env, active, t, path, key, recursive, false, 0.0, false), a)
    ensures a == path || CanTake(t, env.VolumeOr(path, key), path, a)
    ensures forall b :: CanTake(t, env.VolumeOr(path, key), path, b) ==> b <= a
  {
    var intent, volume := IntentOf(recursive, false, 0.0, false), env.VolumeOr(path, key);
    FindTargetIsAbove(t.jobs, volume, path, intent, path);
    Nearest(t, volume, path, intent, path);
    var found := FindTarget(t.jobs, volume, path, intent, path);
    a := if found.Some? then found.value else path;
    var deep := recursive || found.Some?;
    var t1 := Upsert(t, a, volume, deep, intent);
    UpsertLive(t, path, recursive, a, volume, deep, intent);
    var t2 := if Promotes(t, a, intent) then MoveToTail(t1, a) else t1;
    UpsertPlace(t, a, volume, deep, intent);
    if Promotes(t, a, intent) {
      MoveLive(t, t1, path, recursive, a);
    }
    if deep {
      AbsorbLive(t, t2, path, recursive, a, volume);
      AbsorbPlace(t, t2, a, volume);
    }
  }

  lemma {:induction false} Nearest(t: Tables, key: Key, path: Path, intent: Intent, ancestor: Path)
    requires intent.scope > 0 && intent.due == 0.0 && ancestor <= path
    ensures var f := FindTarget(t.jobs, key, path, intent, ancestor);
            && (f.Some? ==> CanTake(t, key, path, f.value))
            && (forall b :: CanTake(t, key, path, b) && b <= ancestor ==> f.Some? && b <= f.value)
    decreases |ancestor|
  {
    if ancestor != [] {
      Nearest(t, key, path, intent, Parent(ancestor));
      forall b | CanTake(t, key, path, b) && b <= ancestor && b != ancestor ensures b <= Parent(ancestor) { }
    }
  }

  lemma UpsertLive(t: Tables, path: Path, recursive: bool, a: Path, key: Key, deep: bool, intent: Intent)
    requires intent == IntentOf(recursive, false, 0.0, false) && a <= path && (recursive ==> deep)
    requires a == path || (a in t.jobs && t.jobs[a].recursive)
    ensures LiveAt(t, Upsert(t, a, key, deep, intent), path, recursive, a)
  {
  }

  lemma MoveLive(t: Tables, t1: Tables, path: Path, recursive: bool, a: Path)
    requires LiveAt(t, t1, path, recursive, a)
    ensures LiveAt(t, MoveToTail(t1, a), path, recursive, a)
  {
  }

  /** The row `a` is live intake of this process now: at its old place if it was before, or else last. */
  ghost predicate LivePlace(t: Tables, t': Tables, a: Path) {
    && a in t'.jobs && t'.startup == t.startup && t'.jobs[a].scope > 0 && t'.jobs[a].rowid > t.startup
    && (if a in t.jobs && t.jobs[a].scope > 0 && t.jobs[a].rowid > t.startup then t'.jobs[a].rowid == t.jobs[a].rowid
        else t'.jobs[a].rowid > t.highWater && forall p :: p in t'.jobs ==> t'.jobs[p].rowid <= t'.jobs[a].rowid)
  }

  lemma UpsertPlace(t: Tables, a: Path, key: Key, deep: bool, intent: Intent)
    requires intent.scope > 0 && !intent.preserve
    ensures var t1 := Upsert(t, a, key, deep, intent);
            LivePlace(t, if Promotes(t, a, intent) then MoveToTail(t1, a) else t1, a)
  {
  }

  lemma AbsorbPlace(t: Tables, t1: Tables, a: Path, key: Key)
    requires LivePlace(t, t1, a)
    ensures LivePlace(t, t1.(jobs := Absorb(t1.jobs, a, key)), a)
  {
  }

  lemma AbsorbLive(t: Tables, t1: Tables, path: Path, recursive: bool, a: Path, key: Key)
    requires LiveAt(t, t1, path, recursive, a)
    ensures LiveAt(t, t1.(jobs := Absorb(t1.jobs, a, key)), path, recursive, a)
  {
  }

  /** A recursive observation at or above `path` in its volume is under way. */
  predicate UnderWay(env: Setting, active: Option<Job>, path: Path, key: Key) {
    && active.Some? && active.value.path <= path && (active.value.scope == 2 || (active.value.scope == 0 && active.value.recursive))
    && active.value.volume == if env.volumeFor(path).Some? then env.volumeFor(path).value else key
  }

  lemma SetsAside(env: Setting, active: Option<Job>, t: Tables, path: Path, key: Key, recursive: bool)
    requires env.acceptsDirectory(path) && UnderWay(env, active, path, key)
    ensures Queue(env, active, t, path, key, recursive, false, 0.0, false)
            == t.(deferred := Defer(env, t.deferred, path, env.VolumeOr(path, key), recursive, false))
  {
  }

  lemma HasVolume(env: Env, path: Path, key: Key)
    requires env.acceptsDirectory(path)
    ensures env.volumeFor(path) == Some(env.VolumeOr(path, key))
  {
    assert env.AcceptedRoot(path);
  }

  /** While such an observation is under way a request of an event changes no row; what is set aside stands for
      its directory, and with its subtree for every accepted directory below. */
  lemma IntakeIsSetAside(env: Env, tree: set<Path>, s: State, path: Path, key: Key, recursive: bool, d: Path)
    requires Owned(env, s.t) && env.acceptsDirectory(path) && UnderWay(env, s.active, path, key)
    requires env.acceptsDirectory(d) && env.volumeFor(d) == env.volumeFor(path) && (d == path || (recursive && path <= d))
    ensures var t' := Next(env, tree, s, Intake(path, key, recursive)).t; t'.jobs == s.t.jobs && Awaits(env, t'.deferred, d)
  {
    SetsAside(env, s.active, s.t, path, key, recursive);
    HasVolume(env, path, key);
    DeferKeeps(env, s.t.deferred, path, env.VolumeOr(path, key), recursive, false, d);
  }

  /** A request of an event that is not set aside ends in the nearest row that can take it over, or else
      in a row of its own. That row is live intake and due at once: every selection of its volume sees it,
      however long it was to wait before. */
  lemma IntakeIsDue(env: Setting, tree: set<Path>, s: State, path: Path, key: Key, recursive: bool) returns (a: Path)
    requires env.acceptsDirectory(path) && !UnderWay(env, s.active, path, key)
    ensures var t' := Next(env, tree, s, Intake(path, key, recursive)).t;
            && LiveAt(s.t, t', path, recursive, a) && LivePlace(s.t, t', a)
            && (a == path || CanTake(s.t, env.VolumeOr(path, key), path, a))
            && (forall b :: CanTake(s.t, env.VolumeOr(path, key), path, b) ==> b <= a)
            && forall look: Look :: look.wall >= 0.0 && t'.jobs[a].volume !in look.inactive ==> Ready(t'.jobs[a], look)
  {
    a := Lands(env, s.active, s.t, path, key, recursive);
  }

  // ---------------------------------------------------------------- sequences of requests

  /** A failed row with at least `n` attempts that is not due before `due`, unless it was asked for. */
  predicate Stands(t: Tables, p: Path, n: nat, due: real, asked: bool) {
    p in t.jobs && t.jobs[p].failed && t.jobs[p].attempts >= n && (t.jobs[p].due >= due || asked)
  }

  /** Some live request is for `p` or for something below it. */
  predicate AskedFor(requests: seq<Request>, p: Path) {
    exists i :: 0 <= i < |requests| && !requests[i].preserve && p <= requests[i].path
  }

  lemma QueueStands(env: Setting, active: Option<Job>, t: Tables, r: Request, p: Path, n: nat, due: real, asked: bool)
    requires Stands(t, p, n, due, asked)
    ensures Stands(QueueRequest(env, active, t, r), p, n, due, asked || (!r.preserve && p <= r.path))
  {
    QueueTimed(env, active, t, r.path, r.key, IntentOf(r.recursive, r.baseline, r.due, r.preserve));
  }

  lemma {:induction false} QueueAllStands(env: Setting, active: Option<Job>, t: Tables, requests: seq<Request>,
                                          p: Path, n: nat, due: real, asked: bool)
    requires Stands(t, p, n, due, asked)
    ensures Stands(QueueAll(env, active, t, requests), p, n, due, asked || AskedFor(requests, p))
    decreases |requests|
  {
    if requests != [] {
      var r := requests[0];
      QueueStands(env, active, t, r, p, n, due, asked);
      QueueAllStands(env, active, QueueRequest(env, active, t, r), requests[1..], p, n, due, asked || (!r.preserve && p <= r.path));
      assert forall i :: 0 <= i < |requests[1..]| ==> requests[1..][i] == requests[i + 1];
    }
  }

  /** A request set aside is live again when it is drained. */
  predicate SetAside(rows: seq<Deferred>, p: Path) { exists i :: 0 <= i < |rows| && p <= rows[i].path }

  lemma DrainStands(env: Setting, t: Tables, p: Path, n: nat, due: real, asked: bool)
    requires Stands(t, p, n, due, asked)
    ensures Stands(Drain(env, t), p, n, due, asked || SetAside(t.deferred, p))
  {
    QueueAllStands(env, None, t.(deferred := []), DeferredRequests(t.deferred), p, n, due, asked);
  }

  lemma NothingSetAside(env: Setting, t: Tables, r: Request)
    ensures QueueRequest(env, None, t, r).deferred == t.deferred
  {
  }

  // ---------------------------------------------------------------- errors of an observation

  /** Two to the number of attempts, and five minutes at most. */
  function Delay(attempts: nat): real {
    match attempts
    case 0 => 2.0 case 1 => 4.0 case 2 => 8.0 case 3 => 16.0
    case 4 => 32.0 case 5 => 64.0 case 6 => 128.0 case 7 => 256.0
    case _ => 300.0
  }

  lemma BackoffIs(attempts: nat)
    ensures Backoff(attempts + 1) == Delay(attempts)
  {
    assert Power(9) == 512 by {
      assert Power(3) == 8 && Power(5) == 32 && Power(7) == 128;
    }
    assert Power(4) == 16 && Power(6) == 64 && Power(8) == 256;
  }

  lemma RetryStands(env: Setting, t: Tables, job: Job, o: Observation, f: Path, now: real, p: Path, n: nat, due: real, asked: bool)
    requires Stands(t, p, n, due, asked)
    ensures var t' := RetryError(env, t, job, o, f, now); Stands(t', p, n, due, asked) && t'.deferred == t.deferred
  {
    QueueStands(env, None, t, ErrorRequest(env, job, o, f, now), p, n, due, asked);
    NothingSetAside(env, t, ErrorRequest(env, job, o, f, now));
  }

  lemma {:induction false} RetriesStand(env: Setting, t: Tables, job: Job, o: Observation, errors: seq<Path>, now: real,
                                        p: Path, n: nat, due: real, asked: bool)
    requires Stands(t, p, n, due, asked)
    ensures var t' := RetryErrors(env, t, job, o, errors, now); Stands(t', p, n, due, asked) && t'.deferred == t.deferred
    decreases |errors|
  {
    if errors != [] {
      RetryStands(env, t, job, o, errors[0], now, p, n, due, asked);
      RetriesStand(env, RetryError(env, t, job, o, errors[0], now), job, o, errors[1..], now, p, n, due, asked);
    }
  }

  /** A retried error marks the row at its path, which exists from then on. */
  lemma RetryMarks(env: Env, t: Tables, job: Job, o: Observation, f: Path, now: real)
    requires now >= 0.0 && env.acceptsDirectory(FailedAt(env, job, o, f).0)
    ensures var t' := RetryError(env, t, job, o, f, now);
            && Stands(t', FailedAt(env, job, o, f).0, job.attempts + 1, now + Delay(job.attempts), false)
            && t'.deferred == t.deferred
  {
    BackoffIs(job.attempts);
    var r := ErrorRequest(env, job, o, f, now);
    OwnRow(env, t, r);
    NothingSetAside(env, t, r);
  }

  lemma NotTop(env: Env, path: Path)
    requires env.acceptsDirectory(path)
    ensures path != []
  {
    assert env.AcceptedRoot(path);
    env.TopHasNoVolume();
  }

  lemma AbsorbKeepsTarget(jobs: map<Path, Row>, target: Path, key: Key)
    requires target in jobs && target != []
    ensures target in Absorb(jobs, target, key)
  {
  }

  lemma LandsAt(env: Setting, t: Tables, path: Path, key0: Key, intent: Intent)
    requires env.acceptsDirectory(path) && path != []
    requires FindTarget(t.jobs, env.VolumeOr(path, key0), path, intent, path) in {None, Some(path)}
    ensures path in QueueIntent(env, None, t, path, key0, intent).jobs
  {
    var key := env.VolumeOr(path, key0);
    var deep := intent.recursive || FindTarget(t.jobs, key, path, intent, path).Some?;
    var t1 := Upsert(t, path, key, deep, intent);
    var t2 := if Promotes(t, path, intent) then MoveToTail(t1, path) else t1;
    assert path in t2.jobs;
    AbsorbKeepsTarget(t2.jobs, path, key);
  }

  /** A delayed request gets a row of its own. */
  lemma OwnRow(env: Env, t: Tables, r: Request)
    requires r.due > 0.0 && env.acceptsDirectory(r.path)
    ensures r.path in QueueRequest(env, None, t, r).jobs
  {
    var intent := IntentOf(r.recursive, r.baseline, r.due, r.preserve);
    NotTop(env, r.path);
    OnlyItself(t.jobs, env.VolumeOr(r.path, r.key), r.path, intent, r.path);
    LandsAt(env, t, r.path, r.key, intent);
  }

  lemma {:induction false} OnlyItself(jobs: map<Path, Row>, key: Key, path: Path, intent: Intent, ancestor: Path)
    requires intent.due != 0.0 && ancestor <= path
    ensures FindTarget(jobs, key, path, intent, ancestor) in {None, Some(path)}
    decreases |ancestor|
  {
    if ancestor != [] {
      OnlyItself(jobs, key, path, intent, Parent(ancestor));
    }
  }

  lemma {:induction false} RetriesMark(env: Env, t: Tables, job: Job, o: Observation, errors: seq<Path>, now: real, i: nat)
    requires now >= 0.0 && i < |errors| && env.acceptsDirectory(FailedAt(env, job, o, errors[i]).0)
    ensures var t' := RetryErrors(env, t, job, o, errors, now);
            && Stands(t', FailedAt(env, job, o, errors[i]).0, job.attempts + 1, now + Delay(job.attempts), false)
            && (t'.deferred == t.deferred)
    decreases |errors|
  {
    var t1 := RetryError(env, t, job, o, errors[0], now);
    NothingSetAside(env, t, ErrorRequest(env, job, o, errors[0], now));
    if i == 0 {
      RetryMarks(env, t, job, o, errors[0], now);
      RetriesStand(env, t1, job, o, errors[1..], now, FailedAt(env, job, o, errors[0]).0, job.attempts + 1, now + Delay(job.attempts), false);
    } else {
      RetriesMark(env, t1, job, o, errors[1..], now, i - 1);
    }
  }

  /** What a commit has done before it turns to the errors. */
  ghost function Turned(env: Setting, t: Tables, job: Job, o: Observation): Tables {
    QueueAll(env, None, QueueAll(env, None, Acknowledge(t, job, o.errors == []), ParentRequests(env, job, o)),
             ChildRequests(env, job, o, o.children))
  }

  lemma {:induction false} NoneSetAside(env: Setting, t: Tables, requests: seq<Request>)
    ensures QueueAll(env, None, t, requests).deferred == t.deferred
    decreases |requests|
  {
    if requests != [] {
      NothingSetAside(env, t, requests[0]);
      NoneSetAside(env, QueueRequest(env, None, t, requests[0]), requests[1..]);
    }
  }

  lemma TurnedDeferred(env: Setting, t: Tables, job: Job, o: Observation)
    ensures Turned(env, t, job, o).deferred == t.deferred
  {
    var t1 := Acknowledge(t, job, o.errors == []);
    NoneSetAside(env, t1, ParentRequests(env, job, o));
    NoneSetAside(env, QueueAll(env, None, t1, ParentRequests(env, job, o)), ChildRequests(env, job, o, o.children));
  }

  lemma FinishFromTurned(env: Setting, t: Tables, job: Job, o: Observation, now: real)
    ensures Finish(env, t, job, o, now) == Drain(env, RetryErrors(env, Turned(env, t, job, o), job, o, o.errors, now))
  {
  }

  /** After a complete observation each reported error that is accepted is failed work at its retry path,
      with one attempt more than the observed row had. It is not due before the delay for that attempt
      is over, unless a request that was set aside during the observation asks for it. */
  lemma ErrorIsRetried(env: Env, s: State, o: Observation, now: real, i: nat)
    requires s.active.Some? && o.complete && !o.skipped && i < |o.errors| && now >= 0.0
    requires env.acceptsDirectory(FailedAt(env, Staged(s, o), o, o.errors[i]).0)
    ensures var job := Staged(s, o); var q := FailedAt(env, job, o, o.errors[i]).0;
            Stands(CommitStep(env, s, o, now).t, q, job.attempts + 1, now + Delay(job.attempts), SetAside(s.t.deferred, q))
  {
    var job := Staged(s, o);
    var t := Turned(env, s.t, job, o);
    TurnedDeferred(env, s.t, job, o);
    RetriesMark(env, t, job, o, o.errors, now, i);
    DrainStands(env, RetryErrors(env, t, job, o, o.errors, now), FailedAt(env, job, o, o.errors[i]).0, job.attempts + 1,
                now + Delay(job.attempts), false);
    FinishFromTurned(env, s.t, job, o, now);
  }

  // ---------------------------------------------------------------- a clean ordinary turn

  /** No failure is recorded of `p`, and it does not wait. */
  predicate Untroubled(t: Tables, p: Path) {
    p in t.jobs ==> t.jobs[p].attempts == 0 && !t.jobs[p].failed && t.jobs[p].due == 0.0
  }

  predicate AtOnce(requests: seq<Request>) { forall i :: 0 <= i < |requests| ==> requests[i].due == 0.0 }

  lemma {:induction false} QueueAllUntroubled(env: Setting, active: Option<Job>, t: Tables, requests: seq<Request>, p: Path)
    requires Untroubled(t, p) && AtOnce(requests)
    ensures Untroubled(QueueAll(env, active, t, requests), p)
    decreases |requests|
  {
    if requests != [] {
      var r := requests[0];
      QueueTimed(env, active, t, r.path, r.key, IntentOf(r.recursive, r.baseline, r.due, r.preserve));
      assert forall i :: 0 <= i < |requests[1..]| ==> requests[1..][i] == requests[i + 1];
      QueueAllUntroubled(env, active, QueueRequest(env, active, t, r), requests[1..], p);
    }
  }

  lemma {:induction false} ChildrenAtOnce(env: Setting, job: Job, o: Observation, children: seq<Path>)
    ensures AtOnce(ChildRequests(env, job, o, children))
    decreases |children|
  {
    if children != [] {
      ChildrenAtOnce(env, job, o, children[1..]);
    }
  }

  /** A clean ordinary turn leaves the baseline row it acknowledges without a trace of former failures. */
  lemma CleanTurnResets(env: Setting, s: State, o: Observation, now: real)
    requires s.active.Some? && o.complete && !o.skipped && o.errors == []
    requires var job := Staged(s, o);
             job.baseline && job.scope > 0 && job.path in s.t.jobs && s.t.jobs[job.path].generation == job.generation
    ensures Untroubled(CommitStep(env, s, o, now).t, Staged(s, o).path)
  {
    var job := Staged(s, o);
    var t1 := Acknowledge(s.t, job, true);
    QueueAllUntroubled(env, None, t1, ParentRequests(env, job, o), job.path);
    ChildrenAtOnce(env, job, o, o.children);
    var t2 := QueueAll(env, None, t1, ParentRequests(env, job, o));
    QueueAllUntroubled(env, None, t2, ChildRequests(env, job, o, o.children), job.path);
    var t3 := Turned(env, s.t, job, o);
    QueueAllUntroubled(env, None, t3.(deferred := []), DeferredRequests(t3.deferred), job.path);
  }

  // ---------------------------------------------------------------- an ordinary turn is over

  /** A row of `p` is no live request, and has baseline work, unless it was asked for. */
  predicate Implicit(t: Tables, p: Path, asked: bool) { p in t.jobs && !asked ==> t.jobs[p].scope == 0 && t.jobs[p].baseline }

  predicate Spares(t: Tables, t': Tables, p: Path) { p in t'.jobs ==> p in t.jobs && t'.jobs[p] == t.jobs[p] }

  lemma UpsertSpares(t: Tables, target: Path, key: Key, deep: bool, intent: Intent, p: Path)
    requires p != target
    ensures Spares(t, Upsert(t, target, key, deep, intent), p)
  {
  }

  lemma MoveSpares(t: Tables, t1: Tables, target: Path, p: Path)
    requires p != target && target in t1.jobs && Spares(t, t1, p)
    ensures Spares(t, MoveToTail(t1, target), p)
  {
  }

  lemma AbsorbSpares(t: Tables, t1: Tables, target: Path, key: Key, p: Path)
    requires p != target && target in t1.jobs && Spares(t, t1, p)
    ensures Spares(t, t1.(jobs := Absorb(t1.jobs, target, key)), p)
  {
  }

  /** Only the row a request ends in changes. */
  lemma OthersStay(env: Setting, active: Option<Job>, t: Tables, r: Request, p: Path)
    requires p != TargetOf(env, t, r.path, r.key, IntentOf(r.recursive, r.baseline, r.due, r.preserve))
    ensures Spares(t, QueueRequest(env, active, t, r), p)
  {
    var intent := IntentOf(r.recursive, r.baseline, r.due, r.preserve);
    if env.acceptsDirectory(r.path) && !Defers(env, active, r.path, r.key) {
      var key := env.VolumeOr(r.path, r.key);
      var target := TargetOf(env, t, r.path, r.key, intent);
      var deep := DeepIntent(env, t, r.path, r.key, intent);
      var t1 := Upsert(t, target, key, deep, intent);
      UpsertSpares(t, target, key, deep, intent, p);
      var t2 := if Promotes(t, target, intent) then MoveToTail(t1, target) else t1;
      if Promotes(t, target, intent) {
        MoveSpares(t, t1, target, p);
      }
      if deep {
        AbsorbSpares(t, t2, target, key, p);
      }
    }
  }

  lemma {:induction false} NotBehindBaseline(jobs: map<Path, Row>, key: Key, path: Path, intent: Intent, ancestor: Path, p: Path)
    requires intent.scope > 0 && p in jobs && jobs[p].baseline && p != path
    ensures FindTarget(jobs, key, path, intent, ancestor) != Some(p)
    decreases |ancestor|
  {
    if ancestor != [] {
      NotBehindBaseline(jobs, key, path, intent, Parent(ancestor), p);
    }
  }

  lemma LiveImplicit(env: Setting, t: Tables, r: Request, p: Path, asked: bool)
    requires Implicit(t, p, asked)
    ensures Implicit(QueueRequest(env, None, t, r), p, asked || p <= r.path)
  {
    var intent := IntentOf(r.recursive, r.baseline, r.due, r.preserve);
    FindTargetIsAbove(t.jobs, env.VolumeOr(r.path, r.key), r.path, intent, r.path);
    if !(p <= r.path) && p in QueueRequest(env, None, t, r).jobs {
      OthersStay(env, None, t, r, p);
    }
  }

  lemma {:induction false} LiveAllImplicit(env: Setting, t: Tables, requests: seq<Request>, p: Path, asked: bool)
    requires Implicit(t, p, asked) && forall i :: 0 <= i < |requests| ==> !requests[i].preserve
    ensures Implicit(QueueAll(env, None, t, requests), p, asked || AskedFor(requests, p))
    decreases |requests|
  {
    if requests != [] {
      LiveImplicit(env, t, requests[0], p, asked);
      assert forall i :: 0 <= i < |requests[1..]| ==> requests[1..][i] == requests[i + 1];
      LiveAllImplicit(env, QueueRequest(env, None, t, requests[0]), requests[1..], p, asked || p <= requests[0].path);
    }
  }

  lemma ChildImplicit(env: Setting, t: Tables, r: Request, p: Path, asked: bool)
    requires Implicit(t, p, asked) && r == Request(r.path, r.key, true, false, 0.0, true) && r.path != p
    ensures Implicit(QueueRequest(env, None, t, r), p, asked)
  {
    var intent := IntentOf(true, false, 0.0, true);
    if !asked && p in QueueRequest(env, None, t, r).jobs {
      if p in t.jobs {
        NotBehindBaseline(t.jobs, env.VolumeOr(r.path, r.key), r.path, intent, r.path, p);
      } else {
        FindTargetIsAbove(t.jobs, env.VolumeOr(r.path, r.key), r.path, intent, r.path);
      }
      OthersStay(env, None, t, r, p);
    }
  }

  lemma {:induction false} ChildrenImplicit(env: Setting, t: Tables, job: Job, o: Observation, children: seq<Path>, p: Path, asked: bool)
    requires Implicit(t, p, asked) && !job.ScansBaseline() && p !in children
    ensures Implicit(QueueAll(env, None, t, ChildRequests(env, job, o, children)), p, asked)
    decreases |children|
  {
    if children != [] {
      var c, rest := children[0], ChildRequests(env, job, o, children[1..]);
      assert c in children && forall k :: k in children[1..] ==> k in children;
      if Descends(env, job, o.known, c) {
        var r := Request(c, job.volume, true, false, 0.0, true);
        ChildImplicit(env, t, r, p, asked);
        assert ([r] + rest)[1..] == rest;
        ChildrenImplicit(env, QueueRequest(env, None, t, r), job, o, children[1..], p, asked);
      } else {
        ChildrenImplicit(env, t, job, o, children[1..], p, asked);
      }
    }
  }

  lemma ErrorImplicit(env: Setting, t: Tables, job: Job, o: Observation, f: Path, now: real, p: Path, asked: bool)
    requires Implicit(t, p, asked) && now >= 0.0 && job.baseline
    ensures Implicit(RetryError(env, t, job, o, f, now), p, asked)
  {
    var r := ErrorRequest(env, job, o, f, now);
    PreservedDue(env, None, t, r);
    if !asked && p in QueueRequest(env, None, t, r).jobs {
      QueueBaseline(env, t, r, p);
    }
  }

  /** A request for baseline work leaves baseline work where it was, and makes rows with baseline work. */
  lemma QueueBaseline(env: Setting, t: Tables, r: Request, p: Path)
    requires r.baseline && p in QueueRequest(env, None, t, r).jobs && (p in t.jobs ==> t.jobs[p].baseline)
    ensures QueueRequest(env, None, t, r).jobs[p].baseline
  {
    var intent := IntentOf(r.recursive, r.baseline, r.due, r.preserve);
    if p != TargetOf(env, t, r.path, r.key, intent) {
      OthersStay(env, None, t, r, p);
    }
  }

  lemma {:induction false} ErrorsImplicit(env: Setting, t: Tables, job: Job, o: Observation, errors: seq<Path>, now: real, p: Path, asked: bool)
    requires Implicit(t, p, asked) && now >= 0.0 && job.baseline
    ensures Implicit(RetryErrors(env, t, job, o, errors, now), p, asked)
    decreases |errors|
  {
    if errors != [] {
      ErrorImplicit(env, t, job, o, errors[0], now, p, asked);
      ErrorsImplicit(env, RetryError(env, t, job, o, errors[0], now), job, o, errors[1..], now, p, asked);
    }
  }

  /** An ordinary turn of a baseline row takes the live request from the row it acknowledges, also next to
      errors: what is left is baseline work, unless a vanished scope's parent or something that was set aside
      asks for the row again. */
  lemma OrdinaryTurnEnds(env: Setting, s: State, o: Observation, now: real)
    requires s.active.Some? && o.complete && !o.skipped && now >= 0.0 && Staged(s, o).path !in o.children
    requires var job := Staged(s, o);
             && job.baseline && job.scope > 0 && job.path in s.t.jobs && s.t.jobs[job.path].generation == job.generation
             && s.t.jobs[job.path].baseline
    ensures var p := Staged(s, o).path;
            Implicit(CommitStep(env, s, o, now).t, p, AskedFor(ParentRequests(env, Staged(s, o), o), p) || SetAside(s.t.deferred, p))
  {
    var job := Staged(s, o);
    var p, t1 := job.path, Acknowledge(s.t, job, o.errors == []);
    var parents := ParentRequests(env, job, o);
    LiveAllImplicit(env, t1, parents, p, false);
    ChildrenImplicit(env, QueueAll(env, None, t1, parents), job, o, o.children, p, AskedFor(parents, p));
    var t3 := Turned(env, s.t, job, o);
    TurnedDeferred(env, s.t, job, o);
    ErrorsImplicit(env, t3, job, o, o.errors, now, p, AskedFor(parents, p));
    RetriesDeferred(env, t3, job, o, o.errors, now);
    var t4 := RetryErrors(env, t3, job, o, o.errors, now);
    LiveAllImplicit(env, t4.(deferred := []), DeferredRequests(t4.deferred), p, AskedFor(parents, p));
    FinishFromTurned(env, s.t, job, o, now);
  }

  lemma {:induction false} RetriesDeferred(env: Setting, t: Tables, job: Job, o: Observation, errors: seq<Path>, now: real)
    ensures RetryErrors(env, t, job, o, errors, now).deferred == t.deferred
    decreases |errors|
  {
    if errors != [] {
      NothingSetAside(env, t, ErrorRequest(env, job, o, errors[0], now));
      RetriesDeferred(env, RetryError(env, t, job, o, errors[0], now), job, o, errors[1..], now);
    }
  }

  // ---------------------------------------------------------------- a turn that goes on

  /** If there is a row of `p`, it has these attempts and this due time, unless it was asked for. */
  predicate Expects(t: Tables, p: Path, attempts: nat, due: real, asked: bool) {
    p in t.jobs && !asked ==> t.jobs[p].attempts == attempts && t.jobs[p].due == due
  }

  lemma {:induction false} DrainExpects(env: Setting, t: Tables, requests: seq<Request>, p: Path, attempts: nat, due: real, asked: bool)
    requires Expects(t, p, attempts, due, asked) && forall i :: 0 <= i < |requests| ==> !requests[i].preserve
    ensures Expects(QueueAll(env, None, t, requests), p, attempts, due, asked || AskedFor(requests, p))
    decreases |requests|
  {
    if requests != [] {
      var r := requests[0];
      QueueTimed(env, None, t, r.path, r.key, IntentOf(r.recursive, r.baseline, r.due, r.preserve));
      assert forall i :: 0 <= i < |requests[1..]| ==> requests[1..][i] == requests[i + 1];
      DrainExpects(env, QueueRequest(env, None, t, r), requests[1..], p, attempts, due, asked || p <= r.path);
    }
  }

  /** One turn of an observation that goes on lets all rows that are due now go first: its row is not due
      before this moment and has the last place. A row with failed attempts keeps its due time. What was set
      aside may ask for the row again. */
  lemma PartialTurnYields(env: Setting, s: State, o: Observation, now: real)
    requires s.active.Some? && !o.complete && !o.skipped && o.scan.Some? && Staged(s, o).path in s.t.jobs
    ensures var p := Staged(s, o).path; var row := s.t.jobs[p]; var t' := CommitStep(env, s, o, now).t;
            && Expects(t', p, row.attempts, if row.attempts == 0 && row.due < now then now else row.due, SetAside(s.t.deferred, p))
            && (s.t.deferred == [] ==> p in t'.jobs && forall q :: q in t'.jobs && q != p ==> t'.jobs[q].rowid <= t'.jobs[p].rowid)
  {
    var p := Staged(s, o).path;
    var t1 := Resume(s.t, Staged(s, o), now);
    var due := if s.t.jobs[p].attempts == 0 && s.t.jobs[p].due < now then now else s.t.jobs[p].due;
    DrainExpects(env, t1.(deferred := []), DeferredRequests(t1.deferred), p, s.t.jobs[p].attempts, due, false);
  }

  // ---------------------------------------------------------------- a failure lasts

  /** The step acknowledges the row of `p`: by a refused or complete observation of its generation, and for
      an ordinary turn of a baseline row by one without errors. */
  predicate Acknowledged(s: State, step: Step, p: Path) {
    step.Commit? && s.active.Some? && (step.seen.complete || (step.seen.skipped && step.seen.scan.Some?)) &&
    (var job := Staged(s, step.seen);
     && job.path == p && p in s.t.jobs && s.t.jobs[p].generation == job.generation
     && (!step.seen.skipped && job.baseline && job.scope > 0 ==> step.seen.errors == []))
  }

  /** The requests of a step that are not retries. */
  function Live(env: Setting, s: State, step: Step): seq<Request> {
    match step
    case Intake(path, key, recursive) => [Request(path, key, recursive, false, 0.0, false)]
    case Bootstrap => BootstrapRequests(s.pending)
    case Commit(o, _) => if s.active.Some? && o.complete && !o.skipped then ParentRequests(env, Staged(s, o), o) else []
    case _ => []
  }

  /** A live request of the step is for `p` or for something below it. */
  predicate Wakes(env: Setting, s: State, step: Step, p: Path) {
    AskedFor(Live(env, s, step), p) || (!step.Intake? && !step.Bound? && !step.Bootstrap? && SetAside(s.t.deferred, p))
  }

  lemma MoveStands(t: Tables, q: Path, p: Path, n: nat, due: real, asked: bool)
    requires Stands(t, p, n, due, asked) && q in t.jobs
    ensures Stands(MoveToTail(t, q), p, n, due, asked) && MoveToTail(t, q).deferred == t.deferred
  {
  }

  lemma AcknowledgeStands(t: Tables, job: Job, clean: bool, p: Path, n: nat, due: real, asked: bool)
    requires Stands(t, p, n, due, asked)
    requires job.path == p && t.jobs[p].generation == job.generation ==> job.baseline && job.scope > 0 && !clean
    ensures Stands(Acknowledge(t, job, clean), p, n, due, asked)
  {
  }

  lemma RetireStands(t: Tables, job: Job, p: Path, n: nat, due: real, asked: bool)
    requires Stands(t, p, n, due, asked) && !(job.path == p && t.jobs[p].generation == job.generation)
    ensures Stands(Retire(t, job), p, n, due, asked) && Retire(t, job).deferred == t.deferred
  {
  }

  lemma ResumeStands(t: Tables, job: Job, now: real, p: Path, n: nat, due: real, asked: bool)
    requires Stands(t, p, n, due, asked) && job.path in t.jobs
    ensures Stands(Resume(t, job, now), p, n, due, asked) && Resume(t, job, now).deferred == t.deferred
  {
    MoveStands(t, job.path, p, n, due, asked);
  }

  lemma {:induction false} RetryPathsStand(env: Setting, t: Tables, retries: seq<Path>, p: Path, n: nat, due: real, asked: bool)
    requires Stands(t, p, n, due, asked)
    ensures Stands(QueueRetries(env, t, retries), p, n, due, asked)
    decreases |retries|
  {
    if retries != [] {
      var path := retries[0];
      if env.volumeFor(path).Some? && env.accepts(path) && !HasTicket(t.jobs, path, env.volumeFor(path).value, path) {
        var r := Request(path, env.volumeFor(path).value, false, false, 0.0, true);
        QueueStands(env, None, t, r, p, n, due, asked);
        RetryPathsStand(env, QueueRequest(env, None, t, r), retries[1..], p, n, due, asked);
      } else {
        RetryPathsStand(env, t, retries[1..], p, n, due, asked);
      }
    }
  }

  lemma {:induction false} ChildrenPreserve(env: Setting, job: Job, o: Observation, children: seq<Path>)
    ensures forall i :: 0 <= i < |ChildRequests(env, job, o, children)| ==> ChildRequests(env, job, o, children)[i].preserve
    decreases |children|
  {
    if children != [] {
      ChildrenPreserve(env, job, o, children[1..]);
    }
  }

  lemma FinishStands(env: Setting, t: Tables, job: Job, o: Observation, now: real, p: Path, n: nat, due: real, asked: bool)
    requires Stands(t, p, n, due, asked)
    requires job.path == p && t.jobs[p].generation == job.generation ==> job.baseline && job.scope > 0 && o.errors != []
    ensures Stands(Finish(env, t, job, o, now), p, n, due, asked || AskedFor(ParentRequests(env, job, o), p) || SetAside(t.deferred, p))
  {
    var t1 := Acknowledge(t, job, o.errors == []);
    AcknowledgeStands(t, job, o.errors == [], p, n, due, asked);
    QueueAllStands(env, None, t1, ParentRequests(env, job, o), p, n, due, asked);
    var t2, asked2 := QueueAll(env, None, t1, ParentRequests(env, job, o)), asked || AskedFor(ParentRequests(env, job, o), p);
    ChildrenPreserve(env, job, o, o.children);
    QueueAllStands(env, None, t2, ChildRequests(env, job, o, o.children), p, n, due, asked2);
    TurnedDeferred(env, t, job, o);
    var t3 := Turned(env, t, job, o);
    RetriesStand(env, t3, job, o, o.errors, now, p, n, due, asked2);
    DrainStands(env, RetryErrors(env, t3, job, o, o.errors, now), p, n, due, asked2);
    FinishFromTurned(env, t, job, o, now);
  }

  lemma BoundStands(env: Setting, active: Option<Job>, t: Tables, key: Key, p: Path, n: nat, due: real, asked: bool)
    requires Stands(t, p, n, due, asked)
    ensures Stands(BoundQueue(env, active, t, key), p, n, due, asked)
  {
    if key in env.roots {
      QueueAllStands(env, active, t.(jobs := Collapse(t.jobs, key)), RootRequests(env.roots[key], key), p, n, due, asked);
    }
  }

  lemma CommitStands(env: Setting, s: State, o: Observation, now: real, p: Path, n: nat, due: real, asked: bool)
    requires s.active.Some? && Stands(s.t, p, n, due, asked) && !Acknowledged(s, Commit(o, now), p)
    ensures Stands(CommitStep(env, s, o, now).t, p, n, due, asked || Wakes(env, s, Commit(o, now), p))
  {
    var job, wakes := Staged(s, o), asked || Wakes(env, s, Commit(o, now), p);
    if o.scan.None? && !o.complete {
    } else if o.skipped {
      RetireStands(s.t, job, p, n, due, asked);
      DrainStands(env, Retire(s.t, job), p, n, due, asked);
    } else if o.complete {
      FinishStands(env, s.t, job, o, now, p, n, due, asked);
    } else if job.path in s.t.jobs {
      ResumeStands(s.t, job, now, p, n, due, asked);
      DrainStands(env, Resume(s.t, job, now), p, n, due, asked);
    }
  }

  /** A failed row keeps its failure and its attempts over every step but the acknowledgement of the row,
      and its due time over every step without a live request for it or for something below it. */
  lemma FailureStays(env: Setting, tree: set<Path>, s: State, step: Step, p: Path, n: nat, due: real, asked: bool)
    requires Stands(s.t, p, n, due, asked) && !Acknowledged(s, step, p)
    ensures Stands(Next(env, tree, s, step).t, p, n, due, asked || Wakes(env, s, step, p))
  {
    match step
    case Intake(path, key, recursive) =>
      var r := Request(path, key, recursive, false, 0.0, false);
      assert Live(env, s, step)[0] == r;
      QueueStands(env, s.active, s.t, r, p, n, due, asked);
    case Bound(key) => BoundStands(env, s.active, s.t, key, p, n, due, asked);
    case Bootstrap => QueueAllStands(env, s.active, s.t, BootstrapRequests(s.pending), p, n, due, asked);
    case Select(_, retries, _) =>
      if s.active.None? {
        DrainStands(env, s.t, p, n, due, asked);
        RetryPathsStand(env, Drain(env, s.t), retries, p, n, due, asked || SetAside(s.t.deferred, p));
      }
    case Commit(o, now) =>
      if s.active.Some? {
        CommitStands(env, s, o, now, p, n, due, asked);
      }
    case Abort =>
    case Restart => DrainStands(env, s.t.(startup := 0), p, n, due, asked);
  }

  /** Over a run: is the row of `p` acknowledged, and does a live request come in for it? */
  ghost predicate EverAcknowledged(env: Setting, tree: set<Path>, s: State, steps: seq<Step>, p: Path)
    decreases |steps|
  {
    steps != [] && (Acknowledged(s, steps[0], p) || EverAcknowledged(env, tree, Next(env, tree, s, steps[0]), steps[1..], p))
  }

  ghost predicate EverWoken(env: Setting, tree: set<Path>, s: State, steps: seq<Step>, p: Path)
    decreases |steps|
  {
    steps != [] && (Wakes(env, s, steps[0], p) || EverWoken(env, tree, Next(env, tree, s, steps[0]), steps[1..], p))
  }

  /** Over every run a failed row stays failed, with no attempt forgotten, until its row is acknowledged; and
      it is not due earlier than it was, unless something asks for it. */
  lemma {:induction false} FailureLasts(env: Setting, tree: set<Path>, s: State, steps: seq<Step>, p: Path, n: nat, due: real, asked: bool)
    requires Stands(s.t, p, n, due, asked) && !EverAcknowledged(env, tree, s, steps, p)
    ensures Stands(Ran(env, tree, s, steps).t, p, n, due, asked || EverWoken(env, tree, s, steps, p))
    decreases |steps|
  {
    if steps != [] {
      FailureStays(env, tree, s, steps[0], p, n, due, asked);
      FailureLasts(env, tree, Next(env, tree, s, steps[0]), steps[1..], p, n, due, asked || Wakes(env, s, steps[0], p));
    }
  }
}
