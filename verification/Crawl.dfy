/** Safety over whole runs of the index: the baseline flag is honest and no request is lost. */
module Crawl {
  import opened Paths
  import opened JobTable
  import opened Coverage
  import opened Deferral
  import opened Queueing
  import opened Worker
  import opened Commits
  import opened Losses
  import opened Duty

  ghost predicate InFlight(s: State, x: Job) {
    s.active == Some(x) || (x.path in s.receipts && s.receipts[x.path].job == x)
  }

  ghost predicate Shaped(env: Setting, s: State) {
    && Owned(env, s.t) && NoBaseline(s.t.deferred)
    && (forall x :: InFlight(s, x) ==> Older(s.t, x) && x.began <= s.clock)
    && (forall p :: p in s.receipts ==> s.receipts[p].job.path == p)
    && (forall d :: d in s.owed ==> s.owed[d] <= s.clock)
  }

  // ---------------------------------------------------------------- which steps a run may take

  /** The oracle keeps its promise, and bootstrap does not run during a recursive observation. */
  ghost predicate Fair(env: Setting, tree: set<Path>, s: State, step: Step) {
    match step
    case Bootstrap => !Deferring(s.active)
    case Commit(o, now) => s.active.Some? ==> Exhaustive(env, tree, Staged(s, o), o)
    case _ => true
  }

  /** Does the step end an observation and delete a row that it did not read, or that reaches deeper
      than the observation went? */
  predicate Risky(s: State, step: Step, base: bool) {
    Ends(s, step) && Deletes(s.t, Staged(s, step.seen)) && !Matched(s.t, Staged(s, step.seen), base)
  }

  predicate Matched(t: Tables, job: Job, base: bool) {
    !Recreated(t, job) && (base || !ShallowTurnOfRecursiveRow(job))
  }

  ghost predicate AnsweredBy(env: Setting, s: State, step: Step, base: bool, x: Option<Job>, d: Path)
    requires Ends(s, step)
  {
    Answered(env, s.t, Staged(s, step.seen), step.seen, step.now, base, x, d)
  }

  /** A risky step keeps all baseline work: everything the deleted row stood for, other than its own
      directory when that was just observed, still waits for the walk by `Duty.BaselineKeptIff`. */
  ghost predicate SparesBaseline(env: Setting, tree: set<Path>, s: State, step: Step) {
    Risky(s, step, true) ==>
      var job := Staged(s, step.seen);
      forall d :: d in tree && Represented(env, s.t, true, None, d) && (d == job.path ==> Erred(env, job, step.seen))
        ==> StaysDue(env, s.t, job, step.seen, step.now, d)
  }

  /** The request for `d` is still open after the observation of `job`. */
  predicate StaysOpen(env: Setting, s: State, job: Job, o: Observation, d: Path) {
    d in s.owed && (d == job.path && !Erred(env, job, o) ==> s.owed[d] > job.began)
  }

  predicate NewerThan(s: State, x: Job) { x.path in s.owed && s.owed[x.path] > x.began }

  /** A risky step answers for all open requests, also against the other observations in flight. */
  ghost predicate SparesRequests(env: Setting, s: State, step: Step) {
    Risky(s, step, false) ==>
      var job := Staged(s, step.seen);
      && (forall d :: StaysOpen(env, s, job, step.seen, d) ==> AnsweredBy(env, s, step, false, None, d))
      && (forall x :: InFlight(s, x) && x.path != job.path && NewerThan(s, x) ==> AnsweredBy(env, s, step, false, Some(x), x.path))
  }

  ghost predicate Spares(env: Setting, tree: set<Path>, s: State, step: Step, base: bool) {
    if base then SparesBaseline(env, tree, s, step) else SparesRequests(env, s, step)
  }

  ghost predicate Run(env: Setting, tree: set<Path>, s: State, steps: seq<Step>, base: bool)
    decreases |steps|
  {
    steps == [] ||
    (Fair(env, tree, s, steps[0]) && Spares(env, tree, s, steps[0], base) && Run(env, tree, Next(env, tree, s, steps[0]), steps[1..], base))
  }

  ghost function After(env: Setting, tree: set<Path>, s: State, steps: seq<Step>): State
    decreases |steps|
  {
    if steps == [] then s else After(env, tree, Next(env, tree, s, steps[0]), steps[1..])
  }

  // ---------------------------------------------------------------- one step, one directory

  /** A commit that ends an observation: everything else keeps all that is represented. */
  predicate Ends(s: State, step: Step) {
    step.Commit? && s.active.Some? && step.seen.complete && !step.seen.skipped
  }

  lemma {:induction false} RetriesKeep(env: Env, t: Tables, retries: seq<Path>, base: bool, x: Option<Job>, d: Path)
    requires Sound(env, t, x) && env.acceptsDirectory(d)
    ensures var t' := QueueRetries(env, t, retries);
            && Sound(env, t', x) && t'.deferred == t.deferred
            && (Represented(env, t, base, x, d) ==> Represented(env, t', base, x, d))
    decreases |retries|
  {
    if retries != [] {
      var path := retries[0];
      if env.volumeFor(path).Some? && env.accepts(path) && !HasTicket(t.jobs, path, env.volumeFor(path).value, path) {
        var r := Request(path, env.volumeFor(path).value, false, false, 0.0, true);
        QueueKeeps(env, None, t, r, base, x, d);
        RetriesKeep(env, QueueRequest(env, None, t, r), retries[1..], base, x, d);
      } else {
        RetriesKeep(env, t, retries[1..], base, x, d);
      }
    }
  }

  lemma SelectKeeps(env: Env, t: Tables, retries: seq<Path>, base: bool, x: Option<Job>, d: Path)
    requires Sound(env, t, x) && env.acceptsDirectory(d)
    ensures var t' := QueueRetries(env, Drain(env, t), retries);
            && Sound(env, t', x) && t'.deferred == []
            && (Represented(env, t, base, x, d) ==> Represented(env, t', base, x, d))
  {
    DrainKeeps(env, t, base, x, d);
    RetriesKeep(env, Drain(env, t), retries, base, x, d);
  }

  lemma RestartKeeps(env: Env, t: Tables, base: bool, x: Option<Job>, d: Path)
    requires Sound(env, t, x) && env.acceptsDirectory(d)
    ensures var t' := RestartTables(env, t);
            && Sound(env, t', x) && t'.deferred == []
            && (Represented(env, t, base, x, d) ==> Represented(env, t', base, x, d))
  {
    var t0 := t.(startup := 0);
    ShapeKeeps(env, t, t0, base, x, d);
    DrainKeeps(env, t0, base, x, d);
    ShapeKeeps(env, Drain(env, t0), RestartTables(env, t), base, x, d);
  }

  lemma ResumeKeeps(env: Env, t: Tables, job: Job, now: real, base: bool, x: Option<Job>, d: Path)
    requires Sound(env, t, x) && env.acceptsDirectory(d) && job.path in t.jobs
    ensures var t' := Drain(env, Resume(t, job, now));
            && Sound(env, t', x) && t'.deferred == []
            && (Represented(env, t, base, x, d) ==> Represented(env, t', base, x, d))
  {
    ResumeShape(t, job, now);
    ShapeKeeps(env, t, Resume(t, job, now), base, x, d);
    DrainKeeps(env, Resume(t, job, now), base, x, d);
  }

  lemma ResumeShape(t: Tables, job: Job, now: real)
    requires job.path in t.jobs
    ensures SameShape(t, Resume(t, job, now))
  {
  }

  lemma RetireShrinks(t: Tables, job: Job)
    ensures Shrinks(t, Retire(t, job))
    ensures forall a :: a in t.jobs && a != job.path ==> a in Retire(t, job).jobs
  {
    assert Shrinks(t, YieldNewer(t, job));
  }

  /** Rows of the tree that are left still stand for what they stood for. */
  lemma ShrinkKeeps(env: Env, tree: set<Path>, t: Tables, t1: Tables, gone: Path, base: bool, x: Option<Job>, d: Path)
    requires Shrinks(t, t1) && Tree(env, tree) && d in tree && gone !in tree
    requires forall a :: a in t.jobs && a != gone ==> a in t1.jobs
    requires forall p :: p in t.jobs ==> env.volumeFor(p) == Some(t.jobs[p].volume)
    requires Covered(env, t, base, x, d)
    ensures Covered(env, t1, base, x, d)
  {
    var a :| CoverAt(env, t, base, x, a, d);
    assert a in tree;
    SameCover(env, t, t1, base, x, a, d);
  }

  lemma RetireKeeps(env: Env, tree: set<Path>, t: Tables, job: Job, base: bool, x: Option<Job>, d: Path)
    requires Sound(env, t, x) && Tree(env, tree) && d in tree && job.path !in tree
    ensures var t1 := Retire(t, job);
            Sound(env, t1, x) && (Represented(env, t, base, x, d) ==> Represented(env, t1, base, x, d))
  {
    RetireShrinks(t, job);
    ShrinkSound(env, t, Retire(t, job), x);
    if Covered(env, t, base, x, d) {
      ShrinkKeeps(env, tree, t, Retire(t, job), job.path, base, x, d);
    }
  }

  /** A refused scope is not in the tree, so nothing in the tree relied on its row. */
  lemma SkipKeeps(env: Env, tree: set<Path>, t: Tables, job: Job, base: bool, x: Option<Job>, d: Path)
    requires Sound(env, t, x) && Tree(env, tree) && d in tree && job.path !in tree
    ensures var t' := Drain(env, Retire(t, job));
            && Sound(env, t', x) && t'.deferred == []
            && (Represented(env, t, base, x, d) ==> Represented(env, t', base, x, d))
  {
    RetireKeeps(env, tree, t, job, base, x, d);
    DrainKeeps(env, Retire(t, job), base, x, d);
  }

  /** A commit that does not end an observation. */
  lemma PartialKeeps(env: Env, tree: set<Path>, s: State, o: Observation, now: real, base: bool, x: Option<Job>, d: Path)
    requires Sound(env, s.t, x) && Tree(env, tree) && d in tree && s.active.Some?
    requires Fair(env, tree, s, Commit(o, now)) && !Ends(s, Commit(o, now))
    ensures var s' := CommitStep(env, s, o, now);
            && Sound(env, s'.t, x)
            && (NoBaseline(s.t.deferred) ==> NoBaseline(s'.t.deferred))
            && (Represented(env, s.t, base, x, d) ==> Represented(env, s'.t, base, x, d))
  {
    var job := Staged(s, o);
    if o.skipped {
      SkipKeeps(env, tree, s.t, job, base, x, d);
    } else if job.path in s.t.jobs {
      ResumeKeeps(env, s.t, job, now, base, x, d);
    }
  }

  lemma StepKeeps(env: Env, tree: set<Path>, s: State, step: Step, base: bool, x: Option<Job>, d: Path)
    requires Sound(env, s.t, x) && Tree(env, tree) && d in tree
    requires Fair(env, tree, s, step) && !Ends(s, step)
    ensures var s' := Next(env, tree, s, step);
            && Sound(env, s'.t, x)
            && (NoBaseline(s.t.deferred) ==> NoBaseline(s'.t.deferred))
            && (Represented(env, s.t, base, x, d) ==> Represented(env, s'.t, base, x, d))
  {
    match step
    case Intake(path, key, recursive) =>
      QueueKeeps(env, s.active, s.t, Request(path, key, recursive, false, 0.0, false), base, x, d);
    case Bound(key) =>
      OverflowKeeps(env, s.active, s.t, key, base, x, d);
    case Bootstrap =>
      QueueAllKeeps(env, s.active, s.t, BootstrapRequests(s.pending), base, x, d);
    case Select(withdrawn, retries, picked) =>
      SelectKeeps(env, s.t, retries, base, x, d);
    case Commit(o, now) =>
      if s.active.Some? { PartialKeeps(env, tree, s, o, now, base, x, d); }
    case Abort =>
    case Restart =>
      RestartKeeps(env, s.t, base, x, d);
  }

  lemma EndKeeps(env: Env, tree: set<Path>, s: State, o: Observation, now: real, base: bool, x: Option<Job>, d: Path)
    requires Shaped(env, s) && Tree(env, tree) && d in tree && s.active.Some? && o.complete && !o.skipped
    requires Fair(env, tree, s, Commit(o, now))
    requires Risky(s, Commit(o, now), base) ==> AnsweredBy(env, s, Commit(o, now), base, x, d)
    requires x.Some? ==> Older(s.t, x.value) && d != Staged(s, o).path
    ensures var s' := CommitStep(env, s, o, now);
            var job := Staged(s, o);
            && Sound(env, s'.t, x) && s'.t.deferred == []
            && (Represented(env, s.t, base, x, d) ==>
                  || Represented(env, s'.t, base, x, d)
                  || (d == job.path && d in s'.done && !Erred(env, job, o) && !Represented(env, s.t, base, Some(job), d)))
  {
    var job := Staged(s, o);
    EndTables(env, s, o, now);
    FinishFrom(env, s.t, job, o, now, base, x, d);
    if Represented(env, s.t, base, x, d) {
      EndRegular(env, tree, s, o, now, base, x, d);
      FinishKeeps(env, tree, s.t, job, o, now, base, x, d);
      if !Erred(env, job, o) {
        EndDone(env, s, o, now);
      }
    }
  }

  lemma EndRegular(env: Env, tree: set<Path>, s: State, o: Observation, now: real, base: bool, x: Option<Job>, d: Path)
    requires Shaped(env, s) && s.active.Some? && o.complete && !o.skipped && Fair(env, tree, s, Commit(o, now))
    requires Risky(s, Commit(o, now), base) ==> AnsweredBy(env, s, Commit(o, now), base, x, d)
    ensures var job := Staged(s, o);
            && Exhaustive(env, tree, job, o)
            && (Deletes(s.t, job) ==> Regular(s.t, job, base) || Answered(env, s.t, job, o, now, base, x, d))
  {
    assert InFlight(s, Staged(s, o));
  }

  lemma EndDone(env: Env, s: State, o: Observation, now: real)
    requires s.active.Some? && o.complete && !o.skipped && !Erred(env, Staged(s, o), o)
    ensures Staged(s, o).path in CommitStep(env, s, o, now).done
  {
  }

  lemma SnapshotOlder(env: Env, t: Tables, path: Path, clock: nat)
    requires Owned(env, t) && path in t.jobs
    ensures Older(t, Snapshot(t, path, clock))
  {
  }

  lemma CommitFlight(env: Env, s: State, o: Observation, now: real, x: Job)
    requires Shaped(env, s) && s.active.Some? && InFlight(CommitStep(env, s, o, now), x)
    ensures InFlight(s, x) && (o.complete && !o.skipped ==> x.path != Staged(s, o).path)
  {
    var s' := CommitStep(env, s, o, now);
    assert s'.active == None && (s'.receipts == s.receipts || s'.receipts == Receipts(s, o));
    assert InFlight(s, Staged(s, o));
  }

  lemma SelectFlight(env: Env, s: State, withdrawn: set<Path>, retries: seq<Path>, picked: Option<Path>, x: Job)
    requires Shaped(env, s) && s.active == None && InFlight(SelectStep(env, s, withdrawn, retries, picked), x)
    ensures var s' := SelectStep(env, s, withdrawn, retries, picked);
            InFlight(s, x) || (x.path in s'.t.jobs && x == Snapshot(s'.t, x.path, s.clock))
  {
  }

  /** Every observation in flight after a step was in flight before it, or was just selected. */
  lemma FlightOrigin(env: Env, tree: set<Path>, s: State, step: Step, x: Job)
    requires Shaped(env, s) && InFlight(Next(env, tree, s, step), x)
    ensures || (InFlight(s, x) && (Ends(s, step) ==> x.path != Staged(s, step.seen).path))
            || (step.Select? && s.active == None && x.path in Next(env, tree, s, step).t.jobs
                && x == Snapshot(Next(env, tree, s, step).t, x.path, s.clock))
  {
    match step
    case Commit(o, now) => if s.active.Some? { CommitFlight(env, s, o, now, x); }
    case Select(withdrawn, retries, picked) => if s.active == None { SelectFlight(env, s, withdrawn, retries, picked, x); }
    case _ =>
  }

  lemma EndOlder(env: Env, s: State, o: Observation, now: real, x: Job, d: Path)
    requires Sound(env, s.t, Some(x)) && s.active.Some? && o.complete && !o.skipped && env.acceptsDirectory(d)
    ensures Older(CommitStep(env, s, o, now).t, x)
  {
    EndTables(env, s, o, now);
    FinishFrom(env, s.t, Staged(s, o), o, now, true, Some(x), d);
  }

  lemma EndTables(env: Env, s: State, o: Observation, now: real)
    requires s.active.Some? && o.complete && !o.skipped
    ensures CommitStep(env, s, o, now).t == Finish(env, s.t, Staged(s, o), o, now)
  {
  }

  lemma FlightOlder(env: Env, tree: set<Path>, s: State, step: Step, x: Job, d: Path)
    requires Shaped(env, s) && Tree(env, tree) && d in tree && Fair(env, tree, s, step)
    requires InFlight(s, x)
    ensures Older(Next(env, tree, s, step).t, x)
  {
    if Ends(s, step) {
      EndOlder(env, s, step.seen, step.now, x, d);
    } else {
      StepKeeps(env, tree, s, step, true, Some(x), d);
    }
  }

  lemma EndOwned(env: Env, s: State, o: Observation, now: real, d: Path)
    requires Shaped(env, s) && s.active.Some? && o.complete && !o.skipped && env.acceptsDirectory(d)
    ensures var s' := CommitStep(env, s, o, now); Owned(env, s'.t) && s'.t.deferred == []
  {
    EndTables(env, s, o, now);
    FinishFrom(env, s.t, Staged(s, o), o, now, true, None, d);
  }

  lemma TablesStep(env: Env, tree: set<Path>, s: State, step: Step, d: Path)
    requires Shaped(env, s) && Tree(env, tree) && d in tree && Fair(env, tree, s, step)
    ensures var s' := Next(env, tree, s, step); Owned(env, s'.t) && NoBaseline(s'.t.deferred)
  {
    if Ends(s, step) {
      EndOwned(env, s, step.seen, step.now, d);
    } else {
      StepKeeps(env, tree, s, step, true, None, d);
    }
  }

  lemma CommitBooks(env: Env, s: State, o: Observation, now: real)
    requires s.active.Some?
    ensures var s' := CommitStep(env, s, o, now);
            && s'.clock == s.clock && s'.pending == s.pending && s.done <= s'.done
            && (s'.owed == s.owed || s'.owed == s.owed - {Staged(s, o).path})
            && (s'.receipts == s.receipts || s'.receipts == Receipts(s, o))
  {
  }

  lemma StampsStep(env: Env, tree: set<Path>, s: State, step: Step)
    requires Shaped(env, s)
    ensures var s' := Next(env, tree, s, step);
            && (forall p :: p in s'.receipts ==> s'.receipts[p].job.path == p)
            && (forall d :: d in s'.owed ==> s'.owed[d] <= s'.clock)
            && s.clock <= s'.clock && s.done <= s'.done && (step.Bootstrap? || s'.pending == s.pending)
  {
    if step.Commit? && s.active.Some? {
      CommitBooks(env, s, step.seen, step.now);
      assert InFlight(s, Staged(s, step.seen));
    }
  }

  lemma ShapedStep(env: Env, tree: set<Path>, s: State, step: Step, d: Path)
    requires Shaped(env, s) && Tree(env, tree) && d in tree && Fair(env, tree, s, step)
    ensures Shaped(env, Next(env, tree, s, step))
  {
    var s' := Next(env, tree, s, step);
    TablesStep(env, tree, s, step, d);
    StampsStep(env, tree, s, step);
    forall x | InFlight(s', x) ensures Older(s'.t, x) && x.began <= s'.clock {
      FlightOrigin(env, tree, s, step, x);
      if InFlight(s, x) {
        FlightOlder(env, tree, s, step, x, d);
      } else {
        SnapshotOlder(env, s'.t, x.path, s.clock);
      }
    }
  }

  // ---------------------------------------------------------------- baseline completeness

  ghost predicate PendingFor(env: Setting, p: Pending, d: Path) {
    p.root <= d && env.volumeFor(p.root) == env.volumeFor(d) && env.acceptsDirectory(p.root)
  }

  ghost predicate Waits(env: Setting, pending: seq<Pending>, d: Path) {
    exists i :: 0 <= i < |pending| && PendingFor(env, pending[i], d)
  }

  /** A directory of the tree was observed, waits for bootstrap, or has a baseline row at itself or
      a recursive baseline row above it. */
  ghost predicate Tracked(env: Setting, s: State, d: Path) {
    || d in s.done
    || Waits(env, s.pending, d)
    || Represented(env, s.t, true, None, d)
  }

  ghost predicate BaselineKept(env: Setting, tree: set<Path>, s: State) {
    && Shaped(env, s)
    && (forall d :: d in tree ==> Tracked(env, s, d))
    && (s.baselineComplete ==> tree <= s.done)
  }

  lemma BootstrapTracks(env: Env, s: State, i: nat, d: Path)
    requires Shaped(env, s) && env.acceptsDirectory(d) && !Deferring(s.active)
    requires i < |s.pending| && PendingFor(env, s.pending[i], d)
    ensures Represented(env, QueueAll(env, s.active, s.t, BootstrapRequests(s.pending)), true, None, d)
  {
    var rs := BootstrapRequests(s.pending);
    assert rs[i].path == s.pending[i].root && rs[i].recursive && rs[i].baseline;
    QueueAllAdds(env, s.active, s.t, rs, i, true, None, d);
  }

  lemma TrackedStep(env: Env, tree: set<Path>, s: State, step: Step, d: Path)
    requires Shaped(env, s) && Tree(env, tree) && d in tree && Fair(env, tree, s, step) && SparesBaseline(env, tree, s, step)
    requires Tracked(env, s, d)
    ensures Tracked(env, Next(env, tree, s, step), d)
  {
    StampsStep(env, tree, s, step);
    if d in s.done {
    } else if Represented(env, s.t, true, None, d) {
      RepresentedStep(env, tree, s, step, d);
    } else {
      var i :| 0 <= i < |s.pending| && PendingFor(env, s.pending[i], d);
      if step.Bootstrap? {
        BootstrapTracks(env, s, i, d);
      }
    }
  }

  lemma DueAfterEnd(env: Env, s: State, o: Observation, now: real, d: Path)
    requires Shaped(env, s) && env.acceptsDirectory(d) && s.active.Some? && o.complete && !o.skipped
    requires StaysDue(env, s.t, Staged(s, o), o, now, d)
    ensures Represented(env, CommitStep(env, s, o, now).t, true, None, d)
  {
    EndTables(env, s, o, now);
    BaselineKeptIff(env, s.t, Staged(s, o), o, now, d);
  }

  lemma RepresentedStep(env: Env, tree: set<Path>, s: State, step: Step, d: Path)
    requires Shaped(env, s) && Tree(env, tree) && d in tree && Fair(env, tree, s, step) && SparesBaseline(env, tree, s, step)
    requires Represented(env, s.t, true, None, d)
    ensures d in Next(env, tree, s, step).done || Represented(env, Next(env, tree, s, step).t, true, None, d)
  {
    if Ends(s, step) {
      var job := Staged(s, step.seen);
      if d != job.path || Erred(env, job, step.seen) {
        if Risky(s, step, true) {
          DueAfterEnd(env, s, step.seen, step.now, d);
        } else {
          EndKeeps(env, tree, s, step.seen, step.now, true, None, d);
        }
      }
    } else {
      StepKeeps(env, tree, s, step, true, None, d);
    }
  }

  lemma NothingLeft(env: Env, s: State, tree: set<Path>)
    requires forall d :: d in tree ==> Tracked(env, s, d)
    requires !BaselineLeft(s.t, s.pending)
    ensures tree <= s.done
  {
    forall d | d in tree ensures d in s.done {
      assert !Covered(env, s.t, true, None, d);
    }
  }

  lemma BaselineStep(env: Env, tree: set<Path>, s: State, step: Step, d: Path)
    requires BaselineKept(env, tree, s) && Tree(env, tree) && d in tree && Fair(env, tree, s, step) && SparesBaseline(env, tree, s, step)
    ensures BaselineKept(env, tree, Next(env, tree, s, step))
  {
    var s' := Next(env, tree, s, step);
    ShapedStep(env, tree, s, step, d);
    forall q | q in tree ensures Tracked(env, s', q) {
      TrackedStep(env, tree, s, step, q);
    }
    FlagStep(env, tree, s, step);
    StampsStep(env, tree, s, step);
    if s'.baselineComplete && !BaselineLeft(s'.t, s'.pending) {
      NothingLeft(env, s', tree);
    }
  }

  /** The flag is only ever set when nothing of the baseline is left. */
  lemma FlagStep(env: Env, tree: set<Path>, s: State, step: Step)
    ensures var s' := Next(env, tree, s, step);
            s'.baselineComplete ==> s.baselineComplete || !BaselineLeft(s'.t, s'.pending)
  {
    if step.Commit? && s.active.Some? {
      FlagCommit(env, s, step.seen, step.now);
    }
  }

  lemma FlagCommit(env: Env, s: State, o: Observation, now: real)
    requires s.active.Some?
    ensures var s' := CommitStep(env, s, o, now);
            s'.baselineComplete ==> s.baselineComplete || !BaselineLeft(s'.t, s'.pending)
  {
  }

  /** A staged baseline: nothing in flight, every directory of the tree below a pending root. */
  ghost predicate Staging(env: Setting, tree: set<Path>, s: State) {
    && Owned(env, s.t) && NoBaseline(s.t.deferred)
    && s.active == None && s.receipts == map[] && s.owed == map[] && !s.baselineComplete
    && forall d :: d in tree ==> Waits(env, s.pending, d)
  }

  lemma StagingKept(env: Env, tree: set<Path>, s: State)
    requires Staging(env, tree, s)
    ensures BaselineKept(env, tree, s)
  {
  }

  lemma {:induction false} BaselineRun(env: Env, tree: set<Path>, s: State, steps: seq<Step>, d: Path)
    requires BaselineKept(env, tree, s) && Tree(env, tree) && d in tree && Run(env, tree, s, steps, true)
    ensures BaselineKept(env, tree, After(env, tree, s, steps))
    decreases |steps|
  {
    if steps != [] {
      BaselineStep(env, tree, s, steps[0], d);
      BaselineRun(env, tree, Next(env, tree, s, steps[0]), steps[1..], d);
    }
  }

  /** Over every fair run from a staged baseline whose risky commits answer for all baseline work
      (`SparesBaseline`), `baseline_complete` holds only when every
      directory of the tree was observed to the end without an error at itself; until then each
      one waits for bootstrap, has a baseline row, or lies below a recursive baseline row. */
  lemma BaselineComplete(env: Env, tree: set<Path>, s: State, steps: seq<Step>)
    requires Staging(env, tree, s) && Tree(env, tree) && Run(env, tree, s, steps, true)
    ensures var s' := After(env, tree, s, steps);
            && (s'.baselineComplete ==> tree <= s'.done)
            && (forall d :: d in tree ==> Tracked(env, s', d))
  {
    if d :| d in tree {
      StagingKept(env, tree, s);
      BaselineRun(env, tree, s, steps, d);
    }
  }
}
