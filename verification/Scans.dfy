/** Observations in several turns: all turns of one scan, and its end, are made for the row as it was when the
    scan began, whatever happens to the tables in between. */
module Scans {
  import opened Paths
  import opened JobTable
  import opened Worker

  /** The scan `n` of `path` is under way, begun for `job`. */
  predicate Scanning(s: State, path: Path, n: nat, job: Job) {
    job.path == path && path in s.receipts && s.receipts[path] == Receipt(n, job)
  }

  /** The commit is one more turn of scan `n`, or of none. */
  predicate GoesOn(o: Observation, n: nat) { !o.complete && (o.scan.None? || (!o.skipped && o.scan == Some(n))) }

  /** The step ends scan `n` of `path`: an observation of it arrives that is complete, refused or of another
      scan, or the reconciler has dropped the scan and the row is gone. */
  predicate Ends(s: State, step: Step, path: Path, n: nat) {
    || (step.Commit? && s.active.Some? && s.active.value.path == path && !GoesOn(step.seen, n))
    || (step.Select? && s.active.None? && path in step.withdrawn && path !in s.t.jobs)
  }

  /** A turn that goes on records the job it was made for; without a record of its scan that is the job the
      selection has just read. */
  lemma ScanBegins(env: Setting, s: State, o: Observation, now: real, n: nat)
    requires s.active.Some? && o.scan == Some(n) && !o.complete && !o.skipped && s.active.value.path in s.t.jobs
    requires forall job :: !Scanning(s, s.active.value.path, n, job)
    requires forall p :: p in s.receipts ==> s.receipts[p].job.path == p
    ensures Staged(s, o) == s.active.value
    ensures Scanning(CommitStep(env, s, o, now), s.active.value.path, n, s.active.value)
  {
    var path := s.active.value.path;
    if path in s.receipts {
      assert s.receipts[path] == Receipt(s.receipts[path].scan, s.receipts[path].job);
      assert !Scanning(s, path, n, s.receipts[path].job);
    }
  }

  lemma ScanStep(env: Setting, tree: set<Path>, s: State, step: Step, path: Path, n: nat, job: Job)
    requires Scanning(s, path, n, job) && !Ends(s, step, path, n)
    ensures Scanning(Next(env, tree, s, step), path, n, job)
  {
    match step
    case Commit(o, now) =>
      if s.active.Some? {
        CommitScans(env, s, o, now, path, n, job);
      }
    case _ =>
  }

  lemma CommitScans(env: Setting, s: State, o: Observation, now: real, path: Path, n: nat, job: Job)
    requires s.active.Some? && Scanning(s, path, n, job) && (s.active.value.path == path ==> GoesOn(o, n))
    ensures Scanning(CommitStep(env, s, o, now), path, n, job)
  {
    if o.scan.Some? || o.complete {
      assert Scanning(s.(receipts := Receipts(s, o)), path, n, job);
    }
  }

  ghost predicate NeverEnds(env: Setting, tree: set<Path>, s: State, steps: seq<Step>, path: Path, n: nat)
    decreases |steps|
  {
    steps == [] || (!Ends(s, steps[0], path, n) && NeverEnds(env, tree, Next(env, tree, s, steps[0]), steps[1..], path, n))
  }

  lemma {:induction false} ScanRun(env: Setting, tree: set<Path>, s: State, steps: seq<Step>, path: Path, n: nat, job: Job)
    requires Scanning(s, path, n, job) && NeverEnds(env, tree, s, steps, path, n)
    ensures Scanning(Ran(env, tree, s, steps), path, n, job)
    decreases |steps|
  {
    if steps != [] {
      ScanStep(env, tree, s, steps[0], path, n, job);
      ScanRun(env, tree, Next(env, tree, s, steps[0]), steps[1..], path, n, job);
    }
  }

  /** However the tables change while a scan is under way, its last observation is committed for the job it
      began with, and not for the row as it is selected then. */
  lemma TurnsShareJob(env: Setting, tree: set<Path>, s: State, steps: seq<Step>, path: Path, n: nat, job: Job, o: Observation)
    requires Scanning(s, path, n, job) && NeverEnds(env, tree, s, steps, path, n)
    ensures var s' := Ran(env, tree, s, steps);
            s'.active.Some? && s'.active.value.path == path && o.scan == Some(n) ==> Staged(s', o) == job
  {
    ScanRun(env, tree, s, steps, path, n, job);
  }

  /** An observation of another scan, or without a scan, is committed for the row as it was selected; a scan that
      was dropped together with its row leaves no record. */
  lemma OtherScans(env: Setting, tree: set<Path>, s: State, o: Observation, path: Path, n: nat, job: Job, step: Step)
    requires Scanning(s, path, n, job)
    ensures s.active.Some? && s.active.value.path == path && o.scan != Some(n) ==> Staged(s, o) == s.active.value
    ensures step.Select? && s.active.None? && path in step.withdrawn && path !in s.t.jobs ==> path !in Next(env, tree, s, step).receipts
    ensures step.Commit? && s.active.Some? && s.active.value.path == path && (step.seen.complete || (step.seen.skipped && step.seen.scan.Some?))
            ==> path !in Next(env, tree, s, step).receipts
  {
  }
}
