/** What the run theorems exclude is lost: their conditions on single commits are exact. */
module Tightness {
  import opened Paths
  import opened JobTable
  import opened Coverage
  import opened Deferral
  import opened Queueing
  import opened Worker
  import opened Commits
  import opened Losses
  import opened Duty
  import opened Crawl

  /** What `Crawl.SparesRequests` excludes is lost: an open request is still represented in the state
      `s'` after a commit that deletes its row if and only if it is answered. */
  lemma OpenRequestKeptIff(env: Env, s: State, s': State, o: Observation, now: real, d: Path)
    requires Shaped(env, s) && env.acceptsDirectory(d) && s.active.Some? && o.complete && !o.skipped
    requires s' == CommitStep(env, s, o, now) && Deletes(s.t, Staged(s, o)) && StaysOpen(env, s, Staged(s, o), o, d)
    ensures d in s'.owed
    ensures Represented(env, s'.t, false, None, d) <==> Answered(env, s.t, Staged(s, o), o, now, false, None, d)
  {
    EndOwed(env, s, o, now, d);
    EndTables(env, s, o, now);
    DeletedKeepsIff(env, s.t, s'.t, Staged(s, o), o, now, d);
  }

  lemma EndOwed(env: Env, s: State, o: Observation, now: real, d: Path)
    requires s.active.Some? && o.complete && !o.skipped && StaysOpen(env, s, Staged(s, o), o, d)
    ensures d in CommitStep(env, s, o, now).owed
  {
  }

  /** The same for the whole state `s'` after a commit: exactly what the flag still stands for. */
  lemma TrackedIff(env: Env, s: State, s': State, o: Observation, now: real, d: Path)
    requires Shaped(env, s) && env.acceptsDirectory(d) && s.active.Some? && o.complete && !o.skipped
    requires s' == CommitStep(env, s, o, now)
    ensures var job := Staged(s, o);
            Tracked(env, s', d)
            <==> || d in s.done || (d == job.path && !Erred(env, job, o)) || Waits(env, s.pending, d)
                 || StaysDue(env, s.t, job, o, now, d)
  {
    var job := Staged(s, o);
    EndTables(env, s, o, now);
    EndBooks(env, s, o, now);
    TrackedFrom(env, s, s', job, o, now, if Erred(env, job, o) then {} else {job.path}, d);
  }

  lemma TrackedFrom(env: Env, s: State, s': State, job: Job, o: Observation, now: real, added: set<Path>, d: Path)
    requires Sound(env, s.t, None) && env.acceptsDirectory(d)
    requires s'.pending == s.pending && s'.done == s.done + added && s'.t == Finish(env, s.t, job, o, now)
    ensures Tracked(env, s', d) <==> d in s.done || d in added || Waits(env, s.pending, d) || StaysDue(env, s.t, job, o, now, d)
  {
    BaselineKeptIff(env, s.t, job, o, now, d);
    TrackedOf(env, s, s', added, d, StaysDue(env, s.t, job, o, now, d));
  }

  lemma TrackedOf(env: Env, s: State, s': State, added: set<Path>, d: Path, kept: bool)
    requires s'.pending == s.pending && s'.done == s.done + added && Represented(env, s'.t, true, None, d) == kept
    ensures Tracked(env, s', d) <==> d in s.done || d in added || Waits(env, s.pending, d) || kept
  {
  }

  lemma EndBooks(env: Env, s: State, o: Observation, now: real)
    requires s.active.Some? && o.complete && !o.skipped
    ensures var s' := CommitStep(env, s, o, now); var job := Staged(s, o);
            s'.pending == s.pending && s'.done == s.done + (if Erred(env, job, o) then {} else {job.path})
  {
  }
}
