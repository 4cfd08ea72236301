/** No accepted request is lost: each stays represented until an observation of its directory
    that began after the request ends without an error there. */
module Requests {
  import opened Paths
  import opened JobTable
  import opened Coverage
  import opened Deferral
  import opened Queueing
  import opened Worker
  import opened Commits
  import opened Crawl

  /** A request newer than the observation in flight is held by something that observation did not read. */
  ghost predicate Shielded(env: Setting, s: State, x: Job) {
    x.path in s.owed && s.owed[x.path] > x.began ==> Represented(env, s.t, false, Some(x), x.path)
  }

  ghost predicate RequestsKept(env: Setting, tree: set<Path>, s: State) {
    && Shaped(env, s) && s.owed.Keys <= tree
    && (forall d :: d in s.owed ==> Represented(env, s.t, false, None, d))
    && (forall x :: InFlight(s, x) ==> Shielded(env, s, x))
  }

  lemma IntakeRepresents(env: Env, tree: set<Path>, s: State, step: Step, x: Option<Job>, d: Path)
    requires Shaped(env, s) && Tree(env, tree) && d in tree && step.Intake?
    requires x.Some? ==> InFlight(s, x.value)
    requires d in Asked(env, tree, step.path, step.recursive) || Represented(env, s.t, false, x, d)
    ensures Represented(env, Next(env, tree, s, step).t, false, x, d)
  {
    var r := Request(step.path, step.key, step.recursive, false, 0.0, false);
    if d in Asked(env, tree, step.path, step.recursive) {
      QueueAdds(env, s.active, s.t, r, false, x, d);
    } else {
      QueueKeeps(env, s.active, s.t, r, false, x, d);
    }
  }

  lemma OwedStep(env: Env, tree: set<Path>, s: State, step: Step)
    ensures var s' := Next(env, tree, s, step);
            && s'.owed.Keys <= s.owed.Keys + tree
            && (!step.Intake? ==> s'.owed.Keys <= s.owed.Keys && forall d :: d in s'.owed ==> s'.owed[d] == s.owed[d])
            && (step.Intake? ==> forall d :: d in s'.owed ==>
                  d in Asked(env, tree, step.path, step.recursive) || (d in s.owed && s'.owed[d] == s.owed[d]))
  {
    if step.Commit? && s.active.Some? {
      CommitBooks(env, s, step.seen, step.now);
    }
  }

  lemma CommitOwed(env: Env, s: State, o: Observation, now: real, d: Path)
    requires s.active.Some? && o.complete && !o.skipped && d in CommitStep(env, s, o, now).owed
    ensures d in s.owed && (d == Staged(s, o).path && !Erred(env, Staged(s, o), o) ==> s.owed[d] > Staged(s, o).began)
  {
  }

  lemma StagedShield(env: Env, tree: set<Path>, s: State, o: Observation)
    requires RequestsKept(env, tree, s) && s.active.Some?
    ensures Shielded(env, s, Staged(s, o))
  {
    assert InFlight(s, Staged(s, o));
  }

  lemma KeptOwedAtEnd(env: Env, tree: set<Path>, s: State, o: Observation, now: real, d: Path)
    requires RequestsKept(env, tree, s) && Tree(env, tree) && d in tree
    requires Ends(s, Commit(o, now)) && Fair(env, tree, s, Commit(o, now)) && SparesRequests(env, s, Commit(o, now))
    requires d in s.owed && d in Next(env, tree, s, Commit(o, now)).owed
    ensures Represented(env, Next(env, tree, s, Commit(o, now)).t, false, None, d)
  {
    CommitOwed(env, s, o, now, d);
    EndKeeps(env, tree, s, o, now, false, None, d);
    StagedShield(env, tree, s, o);
  }

  lemma KeptOwed(env: Env, tree: set<Path>, s: State, step: Step, d: Path)
    requires RequestsKept(env, tree, s) && Tree(env, tree) && d in tree
    requires Fair(env, tree, s, step) && SparesRequests(env, s, step)
    requires d in Next(env, tree, s, step).owed
    ensures Represented(env, Next(env, tree, s, step).t, false, None, d)
  {
    OwedStep(env, tree, s, step);
    if step.Intake? {
      IntakeRepresents(env, tree, s, step, None, d);
    } else if Ends(s, step) {
      KeptOwedAtEnd(env, tree, s, step.seen, step.now, d);
    } else {
      StepKeeps(env, tree, s, step, false, None, d);
    }
  }

  lemma KeptShield(env: Env, tree: set<Path>, s: State, step: Step, x: Job)
    requires RequestsKept(env, tree, s) && Tree(env, tree)
    requires Fair(env, tree, s, step) && SparesRequests(env, s, step)
    requires InFlight(s, x) && (Ends(s, step) ==> x.path != Staged(s, step.seen).path)
    ensures Shielded(env, Next(env, tree, s, step), x)
  {
    var s' := Next(env, tree, s, step);
    OwedStep(env, tree, s, step);
    if x.path in s'.owed && s'.owed[x.path] > x.began {
      if step.Intake? {
        IntakeRepresents(env, tree, s, step, Some(x), x.path);
      } else if Ends(s, step) {
        EndShields(env, tree, s, step, x);
      } else {
        StepKeeps(env, tree, s, step, false, Some(x), x.path);
      }
    }
  }

  lemma EndShields(env: Env, tree: set<Path>, s: State, step: Step, x: Job)
    requires Shaped(env, s) && Tree(env, tree) && x.path in tree && Older(s.t, x) && NewerThan(s, x)
    requires Fair(env, tree, s, step) && SparesRequests(env, s, step) && Ends(s, step)
    requires InFlight(s, x) && x.path != Staged(s, step.seen).path && Represented(env, s.t, false, Some(x), x.path)
    ensures Represented(env, Next(env, tree, s, step).t, false, Some(x), x.path)
  {
    EndKeeps(env, tree, s, step.seen, step.now, false, Some(x), x.path);
  }

  lemma RequestsStep(env: Env, tree: set<Path>, s: State, step: Step, d: Path)
    requires RequestsKept(env, tree, s) && Tree(env, tree) && d in tree
    requires Fair(env, tree, s, step) && SparesRequests(env, s, step)
    ensures RequestsKept(env, tree, Next(env, tree, s, step))
  {
    var s' := Next(env, tree, s, step);
    ShapedStep(env, tree, s, step, d);
    OwedStep(env, tree, s, step);
    forall q | q in s'.owed ensures Represented(env, s'.t, false, None, q) {
      KeptOwed(env, tree, s, step, q);
    }
    forall x | InFlight(s', x) ensures Shielded(env, s', x) {
      FlightOrigin(env, tree, s, step, x);
      if InFlight(s, x) && (Ends(s, step) ==> x.path != Staged(s, step.seen).path) {
        KeptShield(env, tree, s, step, x);
      }
    }
  }

  lemma {:induction false} RequestsRun(env: Env, tree: set<Path>, s: State, steps: seq<Step>, d: Path)
    requires RequestsKept(env, tree, s) && Tree(env, tree) && d in tree && Run(env, tree, s, steps, false)
    ensures RequestsKept(env, tree, After(env, tree, s, steps))
    decreases |steps|
  {
    if steps != [] {
      RequestsStep(env, tree, s, steps[0], d);
      RequestsRun(env, tree, Next(env, tree, s, steps[0]), steps[1..], d);
    }
  }

  /** A start with no request outstanding and no observation in flight. */
  ghost predicate Quiet(env: Setting, s: State) {
    Owned(env, s.t) && NoBaseline(s.t.deferred) && s.active == None && s.receipts == map[] && s.owed == map[]
  }

  /** Over every fair run whose risky commits answer for all open requests (`SparesRequests`), every owed
      request is held by a job or deferred row at its directory or by a recursive one above it. */
  lemma RequestsSurvive(env: Env, tree: set<Path>, s: State, steps: seq<Step>)
    requires Quiet(env, s) && Tree(env, tree) && Run(env, tree, s, steps, false)
    ensures var s' := After(env, tree, s, steps);
            forall d :: d in s'.owed && d in tree ==> Represented(env, s'.t, false, None, d)
  {
    if d :| d in tree {
      assert RequestsKept(env, tree, s);
      RequestsRun(env, tree, s, steps, d);
    }
  }

  /** What takes a request off the books: only a clean observation of its directory that began no
      earlier than the request. */
  lemma OwedUntilObserved(env: Env, tree: set<Path>, s: State, step: Step, d: Path)
    requires d in s.owed && d !in Next(env, tree, s, step).owed
    ensures Ends(s, step)
    ensures var job := Staged(s, step.seen);
            d == job.path && s.owed[d] <= job.began && !Erred(env, job, step.seen) && d in Next(env, tree, s, step).done
  {
  }
}
