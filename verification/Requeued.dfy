/** What is queued again: a request newer than the observation that ends, and paths the reconciler finds again. */
module Requeued {
  import opened Paths
  import opened JobTable
  import opened Queueing
  import opened Worker

  // ---------------------------------------------------------------- a newer request

  /** A live row of `p` at place `n` or behind it. */
  predicate Behind(t: Tables, p: Path, n: int) { p in t.jobs && t.jobs[p].scope > 0 && t.jobs[p].rowid >= n }

  lemma UpsertBehind(t: Tables, target: Path, key: Key, deep: bool, intent: Intent, p: Path, n: int)
    requires Behind(t, p, n)
    ensures Behind(Upsert(t, target, key, deep, intent), p, n)
  {
  }

  lemma MoveBehind(t: Tables, target: Path, p: Path, n: int)
    requires Behind(t, p, n) && target in t.jobs
    ensures Behind(MoveToTail(t, target), p, n)
  {
  }

  lemma AbsorbBehind(t: Tables, target: Path, key: Key, p: Path, n: int)
    requires Behind(t, p, n) && target in t.jobs
    ensures Behind(t.(jobs := Absorb(t.jobs, target, key)), p, n)
  {
  }

  lemma QueueBehind(env: Setting, active: Option<Job>, t: Tables, r: Request, p: Path, n: int)
    requires Behind(t, p, n)
    ensures Behind(QueueRequest(env, active, t, r), p, n)
  {
    var intent := IntentOf(r.recursive, r.baseline, r.due, r.preserve);
    if env.acceptsDirectory(r.path) && !Defers(env, active, r.path, r.key) {
      var key := env.VolumeOr(r.path, r.key);
      var found := FindTarget(t.jobs, key, r.path, intent, r.path);
      var target := if found.Some? then found.value else r.path;
      var deep := r.recursive || found.Some?;
      var t1 := Upsert(t, target, key, deep, intent);
      UpsertBehind(t, target, key, deep, intent, p, n);
      var t2 := if Promotes(t, target, intent) then MoveToTail(t1, target) else t1;
      if Promotes(t, target, intent) {
        MoveBehind(t1, target, p, n);
      }
      if deep {
        AbsorbBehind(t2, target, key, p, n);
      }
    }
  }

  lemma {:induction false} QueueAllBehind(env: Setting, active: Option<Job>, t: Tables, requests: seq<Request>, p: Path, n: int)
    requires Behind(t, p, n)
    ensures Behind(QueueAll(env, active, t, requests), p, n)
    decreases |requests|
  {
    if requests != [] {
      QueueBehind(env, active, t, requests[0], p, n);
      QueueAllBehind(env, active, QueueRequest(env, active, t, requests[0]), requests[1..], p, n);
    }
  }

  lemma {:induction false} ErrorsBehind(env: Setting, t: Tables, job: Job, o: Observation, errors: seq<Path>, now: real, p: Path, n: int)
    requires Behind(t, p, n)
    ensures Behind(RetryErrors(env, t, job, o, errors, now), p, n)
    decreases |errors|
  {
    if errors != [] {
      QueueBehind(env, None, t, ErrorRequest(env, job, o, errors[0], now), p, n);
      ErrorsBehind(env, RetryError(env, t, job, o, errors[0], now), job, o, errors[1..], now, p, n);
    }
  }

  lemma FinishBehind(env: Setting, t: Tables, job: Job, o: Observation, now: real, p: Path, n: int)
    requires Behind(Acknowledge(t, job, o.errors == []), p, n)
    ensures Behind(Finish(env, t, job, o, now), p, n)
  {
    var t1 := Acknowledge(t, job, o.errors == []);
    QueueAllBehind(env, None, t1, ParentRequests(env, job, o), p, n);
    var t2 := QueueAll(env, None, t1, ParentRequests(env, job, o));
    QueueAllBehind(env, None, t2, ChildRequests(env, job, o, o.children), p, n);
    var t3 := QueueAll(env, None, t2, ChildRequests(env, job, o, o.children));
    ErrorsBehind(env, t3, job, o, o.errors, now, p, n);
    var t4 := RetryErrors(env, t3, job, o, o.errors, now);
    QueueAllBehind(env, None, t4.(deferred := []), DeferredRequests(t4.deferred), p, n);
  }

  /** When an observation ends, or is refused, that a live request for its row has overtaken, the row stays and goes
      behind all rows there were. */
  lemma NewerRequestYields(env: Setting, s: State, o: Observation, now: real, q: Path)
    requires s.active.Some? && (o.complete || (o.skipped && o.scan.Some?))
    requires var job := Staged(s, o);
             job.path in s.t.jobs && s.t.jobs[job.path].generation != job.generation && s.t.jobs[job.path].scope > 0
    ensures var p := Staged(s, o).path; var t' := CommitStep(env, s, o, now).t;
            && p in t'.jobs && t'.jobs[p].scope > 0
            && (q in s.t.jobs ==> s.t.jobs[q].rowid <= t'.jobs[p].rowid)
  {
    var job := Staged(s, o);
    var t1 := MoveToTail(s.t, job.path);
    var n := if q in s.t.jobs then s.t.jobs[q].rowid else t1.jobs[job.path].rowid;
    assert Behind(t1, job.path, n);
    if o.skipped {
      QueueAllBehind(env, None, t1.(deferred := []), DeferredRequests(t1.deferred), job.path, n);
    } else {
      FinishBehind(env, s.t, job, o, now, job.path, n);
    }
  }

  /** The acknowledgement moves no other row, and not the row itself unless a live request has overtaken its
      observation. */
  lemma AcknowledgementMoves(t: Tables, job: Job, clean: bool, q: Path)
    requires q in Acknowledge(t, job, clean).jobs
    ensures q in t.jobs
    ensures q != job.path || t.jobs[q].generation == job.generation || t.jobs[q].scope == 0 ==>
              Acknowledge(t, job, clean).jobs[q].rowid == t.jobs[q].rowid
  {
  }

  // ---------------------------------------------------------------- a path found again

  /** A row owns the retry of `path` already: its own row if it is live, failed or without baseline work, or a
      recursive row without baseline work at it or above. */
  ghost predicate Owns(jobs: map<Path, Row>, key: Key, path: Path, a: Path) {
    && a in jobs && a <= path && jobs[a].volume == key
    && ((a == path && (jobs[a].scope > 0 || jobs[a].failed || !jobs[a].baseline)) || (jobs[a].recursive && !jobs[a].baseline))
  }

  lemma {:induction false} TicketIs(jobs: map<Path, Row>, path: Path, key: Key, ancestor: Path)
    requires ancestor <= path
    ensures HasTicket(jobs, path, key, ancestor) <==> exists a :: a <= ancestor && Owns(jobs, key, path, a)
    decreases |ancestor|
  {
    if ancestor != [] {
      TicketIs(jobs, path, key, Parent(ancestor));
      forall a | a <= ancestor && a != ancestor && Owns(jobs, key, path, a) ensures a <= Parent(ancestor) { }
    }
    assert Owns(jobs, key, path, ancestor) <==>
      && ancestor in jobs && jobs[ancestor].volume == key
      && ((ancestor == path && (jobs[ancestor].scope > 0 || !jobs[ancestor].baseline || jobs[ancestor].failed))
          || (jobs[ancestor].recursive && !jobs[ancestor].baseline));
  }

  lemma OneRetry(env: Setting, t: Tables, path: Path)
    ensures QueueRetries(env, t, [path])
            == if env.volumeFor(path).Some? && env.accepts(path) && !HasTicket(t.jobs, path, env.volumeFor(path).value, path)
               then QueueRequest(env, None, t, Request(path, env.volumeFor(path).value, false, false, 0.0, true)) else t
  {
    assert [path][0] == path && [path][1..] == [];
  }

  /** A path that the reconciler finds again changes nothing if it is not accepted, or if a row owns its retry. */
  lemma FoundOwned(env: Setting, t: Tables, path: Path)
    requires env.volumeFor(path).Some? && env.accepts(path) ==> exists a :: Owns(t.jobs, env.volumeFor(path).value, path, a)
    ensures QueueRetries(env, t, [path]) == t
  {
    OneRetry(env, t, path);
    if env.volumeFor(path).Some? {
      TicketIs(t.jobs, path, env.volumeFor(path).value, path);
    }
  }

  /** Otherwise it is represented from then on. */
  lemma FoundAgain(env: Env, t: Tables, path: Path)
    requires Sound(env, t, None) && env.volumeFor(path).Some? && env.accepts(path) && env.acceptsDirectory(path)
    requires forall a :: !Owns(t.jobs, env.volumeFor(path).value, path, a)
    ensures Represented(env, QueueRetries(env, t, [path]), false, None, path)
  {
    OneRetry(env, t, path);
    TicketIs(t.jobs, path, env.volumeFor(path).value, path);
    QueueAdds(env, None, t, Request(path, env.volumeFor(path).value, false, false, 0.0, true), false, None, path);
  }
}
