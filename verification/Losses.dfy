/** Exactly what a commit stops representing, for observations of every kind. */
module Losses {
  import opened Paths
  import opened JobTable
  import opened Coverage
  import opened Deferral
  import opened Queueing
  import opened Worker
  import opened Commits

  // ---------------------------------------------------------------- a request represents only what it asks for

  /** Does the row at `target` stand for `d` once a request has landed there? */
  predicate Stands(env: Setting, t: Tables, target: Path, key: Key, deep: bool, d: Path) {
    && target <= d && env.volumeFor(d) == Some(key)
    && (target == d || deep || (target in t.jobs && t.jobs[target].recursive))
  }

  lemma EffectAddsOnly(env: Env, t: Tables, t': Tables, target: Path, key: Key, deep: bool, added: bool, base: bool, d: Path)
    requires Effect(t, t', target, key, deep, added)
    requires Covered(env, t', base, None, d)
    ensures Covered(env, t, base, None, d) || (Stands(env, t, target, key, deep, d) && (base ==> t'.jobs[target].baseline))
  {
    var a :| CoverAt(env, t', base, None, a, d);
    if a != target {
      assert CoverAt(env, t, base, None, a, d);
    }
  }

  lemma StandsAsks(env: Env, t: Tables, r: Request, d: Path)
    requires Owned(env, t) && env.acceptsDirectory(r.path)
    requires var intent := IntentOf(r.recursive, r.baseline, r.due, r.preserve);
             Stands(env, t, TargetOf(env, t, r.path, r.key, intent), env.VolumeOr(r.path, r.key),
                    DeepIntent(env, t, r.path, r.key, intent), d)
    ensures Asks(env, r, d) || Covered(env, t, false, None, d)
  {
    var intent := IntentOf(r.recursive, r.baseline, r.due, r.preserve);
    var target := TargetOf(env, t, r.path, r.key, intent);
    FindTargetIsAbove(t.jobs, env.VolumeOr(r.path, r.key), r.path, intent, r.path);
    TargetInVolume(env, t, r.path, r.key, intent);
    if target in t.jobs && t.jobs[target].recursive {
      assert CoverAt(env, t, false, None, target, d);
    }
  }

  lemma QueueAddsNothing(env: Env, t: Tables, r: Request, d: Path)
    requires Sound(env, t, None) && env.acceptsDirectory(d)
    requires !Asks(env, r, d) && !Covered(env, t, false, None, d)
    ensures !Covered(env, QueueRequest(env, None, t, r), false, None, d)
  {
    var t' := QueueRequest(env, None, t, r);
    if env.acceptsDirectory(r.path) && Covered(env, t', false, None, d) {
      var intent := IntentOf(r.recursive, r.baseline, r.due, r.preserve);
      QueueEffect(env, None, t, r.path, r.key, intent);
      EffectAddsOnly(env, t, t', TargetOf(env, t, r.path, r.key, intent), env.VolumeOr(r.path, r.key),
                     DeepIntent(env, t, r.path, r.key, intent), r.baseline, false, d);
      StandsAsks(env, t, r, d);
    }
  }

  lemma {:induction false} QueueAllAddsNothing(env: Env, t: Tables, rs: seq<Request>, d: Path)
    requires Sound(env, t, None) && env.acceptsDirectory(d)
    requires !Covered(env, t, false, None, d) && forall i :: 0 <= i < |rs| ==> !Asks(env, rs[i], d)
    ensures !Covered(env, QueueAll(env, None, t, rs), false, None, d)
    decreases |rs|
  {
    if rs != [] {
      QueueAddsNothing(env, t, rs[0], d);
      QueueKeeps(env, None, t, rs[0], false, None, d);
      QueueAllAddsNothing(env, QueueRequest(env, None, t, rs[0]), rs[1..], d);
    }
  }

  lemma DrainAddsNothing(env: Env, t: Tables, d: Path)
    requires Sound(env, t, None) && env.acceptsDirectory(d)
    requires !Represented(env, t, false, None, d)
    ensures !Represented(env, Drain(env, t), false, None, d)
  {
    var t0 := t.(deferred := []);
    SameJobs(env, t, t0, false, None, d);
    NoDeferredAsks(env, t, d);
    QueueAllAddsNothing(env, t0, DeferredRequests(t.deferred), d);
    DrainKeeps(env, t, false, None, d);
  }

  lemma NoDeferredAsks(env: Env, t: Tables, d: Path)
    requires Owned(env, t) && !Awaits(env, t.deferred, d)
    ensures var rs := DeferredRequests(t.deferred); forall i :: 0 <= i < |rs| ==> !Asks(env, rs[i], d)
  {
    var rs := DeferredRequests(t.deferred);
    forall i | 0 <= i < |rs| ensures !Asks(env, rs[i], d) {
      assert t.deferred[i] in t.deferred && !DeferredAt(env, t.deferred[i], d) && OwnedRow(env, t.deferred[i]);
    }
  }

  lemma AskedAddsOnly(env: Env, t: Tables, rs: seq<Request>, d: Path)
    requires Sound(env, t, None) && env.acceptsDirectory(d)
    requires !AskedBy(env, rs, false, d) && !Represented(env, t, false, None, d)
    ensures !Represented(env, QueueAll(env, None, t, rs), false, None, d)
  {
    forall i | 0 <= i < |rs| ensures !Asks(env, rs[i], d) {
      assert !Claims(env, rs[i], false, d);
    }
    QueueAllAddsNothing(env, t, rs, d);
    QueueAllKeeps(env, None, t, rs, false, None, d);
  }

  lemma ErrorAddsOnly(env: Env, t: Tables, job: Job, o: Observation, f: Path, now: real, d: Path)
    requires Sound(env, t, None) && env.acceptsDirectory(d)
    requires !Claims(env, ErrorRequest(env, job, o, f, now), false, d) && !Represented(env, t, false, None, d)
    ensures !Represented(env, RetryError(env, t, job, o, f, now), false, None, d)
  {
    var r := ErrorRequest(env, job, o, f, now);
    QueueAddsNothing(env, t, r, d);
    QueueKeeps(env, None, t, r, false, None, d);
    MarkKeeps(env, QueueRequest(env, None, t, r), r.path, job.attempts + 1, r.due, false, None, d);
  }

  lemma {:induction false} ErrorsAddOnly(env: Env, t: Tables, job: Job, o: Observation, errors: seq<Path>, now: real, d: Path)
    requires Sound(env, t, None) && env.acceptsDirectory(d)
    requires !ErrorClaims(env, job, o, errors, now, false, d) && !Represented(env, t, false, None, d)
    ensures !Represented(env, RetryErrors(env, t, job, o, errors, now), false, None, d)
    decreases |errors|
  {
    if errors != [] {
      ErrorAddsOnly(env, t, job, o, errors[0], now, d);
      RetryErrorKeeps(env, t, job, o, errors[0], now, false, None, d);
      ErrorsAddOnly(env, RetryError(env, t, job, o, errors[0], now), job, o, errors[1..], now, d);
    }
  }

  lemma BeforeAddsOnly(env: Env, t: Tables, job: Job, o: Observation, now: real, d: Path)
    requires Sound(env, t, None) && env.acceptsDirectory(d)
    requires !HandedOn(env, job, o, now, false, d) && !Represented(env, Acknowledge(t, job, o.errors == []), false, None, d)
    ensures !Represented(env, Before(env, t, job, o), false, None, d)
  {
    var t1 := Acknowledge(t, job, o.errors == []);
    AcknowledgeSound(env, t, job, o.errors == [], None);
    QueueAllKeeps(env, None, t1, ParentRequests(env, job, o), false, None, d);
    AskedAddsOnly(env, t1, ParentRequests(env, job, o), d);
    AskedAddsOnly(env, QueueAll(env, None, t1, ParentRequests(env, job, o)), ChildRequests(env, job, o, o.children), d);
  }

  lemma FinishAddsOnly(env: Env, t: Tables, job: Job, o: Observation, now: real, d: Path)
    requires Sound(env, t, None) && env.acceptsDirectory(d)
    requires !HandedOn(env, job, o, now, false, d) && !Represented(env, Acknowledge(t, job, o.errors == []), false, None, d)
    ensures !Represented(env, Finish(env, t, job, o, now), false, None, d)
  {
    var t3 := Before(env, t, job, o);
    BeforeKeeps(env, t, job, o, false, None, d);
    BeforeAddsOnly(env, t, job, o, now, d);
    ErrorsAddOnly(env, t3, job, o, o.errors, now, d);
    RetryErrorsKeep(env, t3, job, o, o.errors, now, false, None, d);
    DrainAddsNothing(env, RetryErrors(env, t3, job, o, o.errors, now), d);
  }

  // ---------------------------------------------------------------- exactly what a commit keeps

  /** Represented without the row that the turn deletes, if it deletes one. */
  ghost predicate Remains(env: Setting, t: Tables, job: Job, base: bool, d: Path) {
    if Deletes(t, job) then Spared(env, t, base, None, job.path, d) else Represented(env, t, base, None, d)
  }

  lemma AcknowledgeKeepsIff(env: Env, t: Tables, job: Job, clean: bool, base: bool, d: Path)
    ensures Represented(env, Acknowledge(t, job, clean), base, None, d) <==> Remains(env, t, job, base, d)
  {
    var t1 := Acknowledge(t, job, clean);
    AcknowledgeLeaves(t, job, clean, job.path);
    forall a ensures CoverAt(env, t1, base, None, a, d) <==> CoverAt(env, t, base, None, a, d) && (Deletes(t, job) ==> a != job.path) {
      AcknowledgeLeaves(t, job, clean, a);
    }
  }

  /** After any complete observation, with or without errors, a directory is represented if and only
      if it was without the deleted row, or the commit itself asks for it. */
  lemma CommitKeepsIff(env: Env, t: Tables, job: Job, o: Observation, now: real, d: Path)
    requires Sound(env, t, None) && env.acceptsDirectory(d)
    ensures Represented(env, Finish(env, t, job, o, now), false, None, d)
            <==> Remains(env, t, job, false, d) || HandedOn(env, job, o, now, false, d)
  {
    AcknowledgeKeepsIff(env, t, job, o.errors == [], false, d);
    if HandedOn(env, job, o, now, false, d) {
      HandedOnRepresents(env, t, job, o, now, false, None, d);
    } else if Remains(env, t, job, false, d) {
      BeforeKeeps(env, t, job, o, false, None, d);
      FinishFrom(env, t, job, o, now, false, None, d);
    } else {
      FinishAddsOnly(env, t, job, o, now, d);
    }
  }

  /** A request newer than an observation of its directory survives that observation exactly when
      the row to delete was not inserted again with the same generation, or something else represents
      the directory, or the commit asks for it again. */
  lemma NewerRequestKeptIff(env: Env, t: Tables, job: Job, o: Observation, now: real)
    requires Sound(env, t, Some(job)) && env.acceptsDirectory(job.path)
    requires Represented(env, t, false, Some(job), job.path)
    ensures Represented(env, Finish(env, t, job, o, now), false, None, job.path)
            <==> !(Deletes(t, job) && Recreated(t, job)) || Answered(env, t, job, o, now, false, None, job.path)
  {
    var d := job.path;
    CommitKeepsIff(env, t, job, o, now, d);
    Unread(env, t, job, d);
  }

  /** What represents a directory beside the row that was read is still there unless that row was
      re-created. */
  lemma Unread(env: Env, t: Tables, job: Job, d: Path)
    requires Represented(env, t, false, Some(job), d)
    ensures Represented(env, t, false, None, d)
    ensures !Recreated(t, job) && Deletes(t, job) ==> Spared(env, t, false, None, job.path, d)
  {
    if a :| CoverAt(env, t, false, Some(job), a, d) {
      assert CoverAt(env, t, false, None, a, d);
    }
  }

  lemma DeletedKeepsIff(env: Env, t: Tables, t': Tables, job: Job, o: Observation, now: real, d: Path)
    requires Sound(env, t, None) && env.acceptsDirectory(d) && Deletes(t, job) && t' == Finish(env, t, job, o, now)
    ensures Represented(env, t', false, None, d) <==> Answered(env, t, job, o, now, false, None, d)
  {
    CommitKeepsIff(env, t, job, o, now, d);
  }

  // ---------------------------------------------------------------- shallow turns

  /** A shallow turn deletes its row, whatever that row has become since it was read: a directory
      below stays represented exactly when something else represents it, the child towards it is
      listed and was not recorded before, or an error at it or above it is retried with its subtree. */
  lemma ShallowTurnKeepsIff(env: Env, tree: set<Path>, t: Tables, job: Job, o: Observation, now: real, d: Path)
    requires Sound(env, t, None) && Tree(env, tree) && d in tree && job.path < d && env.volumeFor(job.path) == env.volumeFor(d)
    requires Deletes(t, job) && !job.ScansRecursively() && Exhaustive(env, tree, job, o)
    requires forall k :: k in o.children ==> job.path < k && Parent(k) == job.path
    ensures var c := Toward(job.path, d);
            Represented(env, Finish(env, t, job, o, now), false, None, d)
            <==> || Spared(env, t, false, None, job.path, d)
                 || (c in o.children && c !in o.known)
                 || ErrorClaims(env, job, o, o.errors, now, false, d)
  {
    var c := Toward(job.path, d);
    TreeStep(env, tree, job.path, d);
    CommitKeepsIff(env, t, job, o, now, d);
    ParentAsksAbove(env, job, o, d);
    if c in o.children && c !in o.known {
      ChildHandsOn(env, job, o, c, false, d);
    } else {
      NoChildAsks(env, job, o, o.children, d);
    }
  }

  lemma ParentAsksAbove(env: Env, job: Job, o: Observation, d: Path)
    requires o.scope == job.path && job.path < d
    ensures !AskedBy(env, ParentRequests(env, job, o), false, d)
  {
  }

  lemma {:induction false} NoChildAsks(env: Env, job: Job, o: Observation, children: seq<Path>, d: Path)
    requires job.path < d && !job.ScansRecursively()
    requires forall k :: k in children ==> job.path < k && Parent(k) == job.path
    requires Toward(job.path, d) in children ==> Toward(job.path, d) in o.known
    ensures !AskedBy(env, ChildRequests(env, job, o, children), false, d)
    decreases |children|
  {
    if children != [] {
      assert children[0] in children && forall c :: c in children[1..] ==> c in children;
      NoChildAsks(env, job, o, children[1..], d);
      var rs := ChildRequests(env, job, o, children);
      forall i | 0 <= i < |rs| ensures !Claims(env, rs[i], false, d) {
        NotToward(env, job, o, children, i, d);
      }
    }
  }

  lemma NotToward(env: Env, job: Job, o: Observation, children: seq<Path>, i: nat, d: Path)
    requires children != [] && job.path < d && !job.ScansRecursively() && job.path < children[0] && Parent(children[0]) == job.path
    requires children[0] == Toward(job.path, d) ==> children[0] in o.known
    requires i < |ChildRequests(env, job, o, children)|
    requires !AskedBy(env, ChildRequests(env, job, o, children[1..]), false, d)
    ensures !Claims(env, ChildRequests(env, job, o, children)[i], false, d)
  {
    var rest := ChildRequests(env, job, o, children[1..]);
    OnlyToward(job.path, children[0], d);
    if Descends(env, job, o.known, children[0]) {
      if i > 0 {
        assert !Claims(env, rest[i - 1], false, d);
      }
    } else {
      assert !Claims(env, rest[i], false, d);
    }
  }
}
