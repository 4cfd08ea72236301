/** The index as the object whose methods update its tables in place, proved step by step to
    take the transitions of module Worker. Every method runs inside one transaction. */
module IndexState {
  import opened Paths
  import opened JobTable
  import opened Scheduler
  import opened Worker

  lemma RootRowsNext(roots: seq<Path>, key: Key, i: nat)
    requires i < |roots|
    ensures RootRows(roots, key)[..i] + [Deferred(roots[i], key, true, false)] == RootRows(roots, key)[..i + 1]
  {
  }

  class Index {
    const env: Setting
    const selector: Selector
    var jobs: map<Path, Row>
    var deferred: seq<Deferred>
    var highWater: int
    var startup: int
    var births: nat
    var active: Option<Job>
    var receipts: map<Path, Receipt>
    var pending: seq<Pending>
    var baselineComplete: bool
    // Bookkeeping of the model, as in `State`: no decision reads it.
    var clock: nat
    var owed: map<Path, nat>
    var done: set<Path>

    constructor (env: Setting)
      ensures this.env == env && fresh(selector) && selector.Here() == START
      ensures Whole() == State(Tables(map[], [], 0, 0, 0), None, map[], [], false, 0, map[], {})
    {
      this.env := env;
      selector := new Selector();
      jobs, deferred, highWater, startup, births := map[], [], 0, 0, 0;
      active, receipts, pending, baselineComplete := None, map[], [], false;
      clock, owed, done := 0, map[], {};
    }

    ghost function Table(): Tables reads this {
      Tables(jobs, deferred, highWater, startup, births)
    }

    ghost function Whole(): State reads this {
      State(Table(), active, receipts, pending, baselineComplete, clock, owed, done)
    }

    // -------------------------------------------------------------- rows

    method Highest() returns (m: int)
      ensures m == MaxRowid(jobs)
    {
      m := 0;
      var rest := jobs.Keys;
      while rest != {}
        invariant rest <= jobs.Keys
        invariant m >= 0 && forall p :: p in jobs && p !in rest ==> jobs[p].rowid <= m
        invariant m == 0 || exists p :: p in jobs && jobs[p].rowid == m
        decreases |rest|
      {
        var p :| p in rest;
        rest := rest - {p};
        if jobs[p].rowid > m {
          m := jobs[p].rowid;
        }
      }
    }

    method MoveToTail(path: Path)
      requires path in jobs
      modifies `jobs, `highWater
      ensures Table() == JobTable.MoveToTail(old(Table()), path)
    {
      var current := jobs[path].rowid;
      var tail := Highest();
      var floor := if startup > highWater then startup else highWater;
      if floor > tail {
        tail := floor;
      }
      var place := current;
      if current != tail || current <= floor {
        place := tail + 1;
        jobs := jobs[path := jobs[path].(rowid := place)];
      }
      assert old(jobs)[path := old(jobs)[path].(rowid := place)] == jobs;
      if place > highWater {
        highWater := place;
      }
    }

    // -------------------------------------------------------------- deferral

    method Ancestor(key: Key, path: Path) returns (found: Option<Path>)
      ensures found == FirstAncestor(deferred, key, path)
    {
      var i := 0;
      while i < |deferred|
        invariant i <= |deferred| && FirstAncestor(deferred[i..], key, path) == FirstAncestor(deferred, key, path)
      {
        if deferred[i].volume == key && deferred[i].recursive && Within(path, deferred[i].path) {
          return Some(deferred[i].path);
        }
        i := i + 1;
      }
      return None;
    }

    method DeleteBelow(key: Key, top: Path)
      modifies `deferred
      ensures deferred == DropBelow(old(deferred), key, top)
    {
      ghost var was := deferred;
      var i, kept := 0, [];
      while i < |deferred|
        invariant deferred == was
        invariant i <= |deferred| && kept + DropBelow(deferred[i..], key, top) == DropBelow(deferred, key, top)
      {
        if !(deferred[i].volume == key && top < deferred[i].path) {
          kept := kept + [deferred[i]];
        }
        i := i + 1;
      }
      deferred := kept;
    }

    method ReplaceByRoots(key: Key)
      requires key in env.roots
      modifies `deferred
      ensures deferred == DropVolume(old(deferred), key) + RootRows(env.roots[key], key)
    {
      deferred := DropVolume(deferred, key);
      ghost var others := deferred;
      for i := 0 to |env.roots[key]|
        invariant deferred == others + RootRows(env.roots[key], key)[..i]
      {
        RootRowsNext(env.roots[key], key, i);
        deferred := deferred + [Deferred(env.roots[key][i], key, true, false)];
      }
    }

    method Defer(path: Path, key: Key, recursive: bool, baseline: bool)
      modifies `deferred
      ensures deferred == JobTable.Defer(env, old(deferred), path, key, recursive, baseline)
    {
      var ancestor := Ancestor(key, path);
      var top := if ancestor.Some? then ancestor.value else path;
      var deep := recursive || ancestor.Some?;
      deferred := UpsertDeferred(deferred, Deferred(top, key, deep, baseline));
      if deep {
        DeleteBelow(key, top);
      }
      assert deferred == Merge(old(deferred), path, key, recursive, baseline);
      if CountVolume(deferred, key) > MAX_JOBS && key in env.roots {
        ReplaceByRoots(key);
      }
    }

    // -------------------------------------------------------------- queueing

    method Target(key: Key, path: Path, intent: Intent) returns (found: Option<Path>)
      ensures found == FindTarget(jobs, key, path, intent, path)
    {
      var ancestor := path;
      while true
        invariant FindTarget(jobs, key, path, intent, ancestor) == FindTarget(jobs, key, path, intent, path)
        decreases |ancestor|
      {
        if && ancestor in jobs && jobs[ancestor].volume == key && jobs[ancestor].recursive
           && (ancestor == path || (!(jobs[ancestor].baseline && intent.scope > 0) && intent.due == 0.0)) {
          return Some(ancestor);
        }
        if Parent(ancestor) == ancestor {
          return None;
        }
        ancestor := Parent(ancestor);
      }
    }

    method Insert(target: Path, key: Key, recursive: bool, intent: Intent)
      modifies `jobs, `births
      ensures Table() == Upsert(old(Table()), target, key, recursive, intent)
    {
      var scope := EffectiveScope(jobs, target, intent);
      if target in jobs {
        var row := jobs[target];
        row := row.(recursive := row.recursive || recursive, baseline := row.baseline || intent.baseline,
                    generation := row.generation + 1, scope := if row.scope > scope then row.scope else scope);
        if !intent.preserve {
          row := row.(due := intent.due);
        }
        jobs := jobs[target := row];
      } else {
        var last := Highest();
        jobs := jobs[target := Row(key, recursive, intent.baseline, 1, 0, intent.due, false, scope, last + 1, births)];
        births := births + 1;
      }
    }

    /** A recursive row takes the baseline duty of the clean baseline rows below it over. */
    method TakeOver(target: Path, key: Key)
      requires target in jobs
      modifies `jobs
      ensures jobs == Absorb(old(jobs), target, key)
    {
      if exists p :: p in jobs && jobs[p].volume == key && InRange(p, target) && jobs[p].baseline {
        jobs := jobs[target := jobs[target].(baseline := true)];
      }
      DeleteAbsorbed(target, key);
    }

    method DeleteAbsorbed(target: Path, key: Key)
      modifies `jobs
      ensures jobs == map p | p in old(jobs) && !Absorbed(old(jobs), target, key, p) :: old(jobs)[p]
    {
      var rest, marked := jobs.Keys, jobs;
      while rest != {}
        invariant rest <= marked.Keys
        invariant jobs == map p | p in marked && (p in rest || !Absorbed(marked, target, key, p)) :: marked[p]
        decreases |rest|
      {
        var p :| p in rest;
        rest := rest - {p};
        if Absorbed(marked, target, key, p) {
          jobs := jobs - {p};
        }
      }
    }

    method QueueIntent(path: Path, key0: Key, intent: Intent)
      modifies `jobs, `deferred, `highWater, `births
      ensures Table() == JobTable.QueueIntent(env, active, old(Table()), path, key0, intent)
    {
      if !env.acceptsDirectory(path) {
        return;
      }
      var key := env.VolumeOr(path, key0);
      if Defers(env, active, path, key0) {
        Defer(path, key, intent.recursive, intent.baseline);
        return;
      }
      Land(path, key0, key, intent);
    }

    /** A request that is not set aside: into its target row, to the tail, and over the rows below. */
    method Land(path: Path, ghost key0: Key, key: Key, intent: Intent)
      requires env.acceptsDirectory(path) && !Defers(env, active, path, key0) && key == env.VolumeOr(path, key0)
      modifies `jobs, `highWater, `births
      ensures Table() == JobTable.QueueIntent(env, active, old(Table()), path, key0, intent)
    {
      var found := Target(key, path, intent);
      var target := if found.Some? then found.value else path;
      var deep := intent.recursive || found.Some?;
      var promotes := Promotes(Tables(jobs, deferred, highWater, startup, births), target, intent);
      Insert(target, key, deep, intent);
      if promotes {
        MoveToTail(target);
      }
      if deep {
        TakeOver(target, key);
      }
    }

    method Enqueue(r: Request)
      modifies `jobs, `deferred, `highWater, `births
      ensures Table() == QueueRequest(env, active, old(Table()), r)
    {
      QueueIntent(r.path, r.key, IntentOf(r.recursive, r.baseline, r.due, r.preserve));
    }

    method EnqueueAll(requests: seq<Request>)
      modifies `jobs, `deferred, `highWater, `births
      ensures Table() == QueueAll(env, active, old(Table()), requests)
    {
      for i := 0 to |requests|
        invariant QueueAll(env, active, Table(), requests[i..]) == QueueAll(env, active, old(Table()), requests)
      {
        assert requests[i..][1..] == requests[i + 1..];
        Enqueue(requests[i]);
      }
    }

    method DrainDeferred()
      requires active.None?
      modifies `jobs, `deferred, `highWater, `births
      ensures Table() == Drain(env, old(Table()))
    {
      var requests := DeferredRequests(deferred);
      deferred := [];
      EnqueueAll(requests);
    }

    method BoundQueue(key: Key)
      modifies `jobs, `deferred, `highWater, `births
      ensures Table() == JobTable.BoundQueue(env, active, old(Table()), key)
    {
      if |set p | p in jobs && BoundedIntake(jobs[p], key)| > MAX_JOBS && key in env.roots {
        jobs := Collapse(jobs, key);
        EnqueueAll(RootRequests(env.roots[key], key));
      }
    }

    // -------------------------------------------------------------- selection

    method Ticket(path: Path, key: Key) returns (held: bool)
      ensures held == HasTicket(jobs, path, key, path)
    {
      var ancestor := path;
      while true
        invariant HasTicket(jobs, path, key, ancestor) == HasTicket(jobs, path, key, path)
        decreases |ancestor|
      {
        if && ancestor in jobs && jobs[ancestor].volume == key
           && ((ancestor == path && (jobs[ancestor].scope > 0 || !jobs[ancestor].baseline || jobs[ancestor].failed))
               || (jobs[ancestor].recursive && !jobs[ancestor].baseline)) {
          return true;
        }
        if Parent(ancestor) == ancestor {
          return false;
        }
        ancestor := Parent(ancestor);
      }
    }

    method RetryPath(path: Path)
      requires active.None?
      modifies `jobs, `deferred, `highWater, `births
      ensures Table() == if env.volumeFor(path).Some? && env.accepts(path) && !HasTicket(old(jobs), path, env.volumeFor(path).value, path)
                         then Queue(env, None, old(Table()), path, env.volumeFor(path).value, false, false, 0.0, true)
                         else old(Table())
    {
      if env.volumeFor(path).Some? && env.accepts(path) {
        var held := Ticket(path, env.volumeFor(path).value);
        if !held {
          Enqueue(Request(path, env.volumeFor(path).value, false, false, 0.0, true));
        }
      }
    }

    method RetryPaths(retries: seq<Path>)
      requires active.None?
      modifies `jobs, `deferred, `highWater, `births
      ensures Table() == QueueRetries(env, old(Table()), retries)
    {
      for i := 0 to |retries|
        invariant QueueRetries(env, Table(), retries[i..]) == QueueRetries(env, old(Table()), retries)
      {
        assert retries[i..][1..] == retries[i + 1..];
        RetryPath(retries[i]);
      }
    }

    /** Scans of removed jobs lose their receipts; set-aside requests and due retries are queued. */
    method Prepare(withdrawn: set<Path>, retries: seq<Path>)
      requires active.None?
      modifies `jobs, `deferred, `highWater, `births, `receipts
      ensures Table() == QueueRetries(env, Drain(env, old(Table())), retries)
      ensures receipts == map p | p in old(receipts) && !(p in withdrawn && p !in old(jobs)) :: old(receipts)[p]
    {
      receipts := map p | p in receipts && !(p in withdrawn && p !in jobs) :: receipts[p];
      DrainDeferred();
      RetryPaths(retries);
    }

    method Activate(path: Path)
      requires path in jobs
      modifies `active
      ensures active == Some(Snapshot(Table(), path, clock))
    {
      var row := jobs[path];
      active := Some(Job(path, row.volume, row.recursive, row.baseline, row.generation, row.attempts, row.scope,
                         row.birth, clock));
    }

    /** The first half of `work`: the scheduler's best ready row becomes the active job. */
    method Select(withdrawn: set<Path>, retries: seq<Path>, inactive: set<Key>, retained: set<Path>, wall: real, now: real)
      returns (picked: Option<Path>)
      requires active.None? && selector.Here().Valid()
      modifies this, selector
      ensures picked.Some? ==> picked.value in jobs
      ensures Whole() == SelectStep(env, old(Whole()), withdrawn, retries, picked)
      ensures var look := Look(startup, inactive, retained, wall, now);
              && (picked.None? <==> ReadyClasses(jobs, look) == {})
              && (picked.Some? ==> Best(jobs, old(selector.Here()), look, picked.value))
              && selector.Here() == old(selector.Here()).Advance(now, ServedClass(jobs, look, picked))
              && selector.Here().Valid()
    {
      Prepare(withdrawn, retries);
      picked := Choose(Look(startup, inactive, retained, wall, now));
    }

    method Choose(look: Look) returns (picked: Option<Path>)
      requires active.None? && selector.Here().Valid()
      modifies `active, selector
      ensures picked.Some? ==> picked.value in jobs
      ensures active == if picked.Some? then Some(Snapshot(Table(), picked.value, clock)) else None
      ensures picked.None? <==> ReadyClasses(jobs, look) == {}
      ensures picked.Some? ==> Best(jobs, old(selector.Here()), look, picked.value)
      ensures selector.Here() == old(selector.Here()).Advance(look.clock, ServedClass(jobs, look, picked))
      ensures selector.Here().Valid()
    {
      picked := selector.Select(jobs, look);
      if picked.Some? {
        assert ReadyAt(jobs, look, picked.value);
        Activate(picked.value);
      }
    }

    // -------------------------------------------------------------- commit

    /** `yield_newer_request`, when nothing was acknowledged. */
    method YieldNewerRequest(job: Job)
      modifies `jobs, `highWater
      ensures Table() == YieldNewer(old(Table()), job)
    {
      if job.path in jobs && jobs[job.path].generation != job.generation && jobs[job.path].scope > 0 {
        MoveToTail(job.path);
      }
    }

    method DeleteAcknowledged(job: Job)
      modifies `jobs, `highWater
      ensures Table() == Retire(old(Table()), job)
    {
      if job.path in jobs && jobs[job.path].generation == job.generation {
        jobs := jobs - {job.path};
      } else {
        YieldNewerRequest(job);
      }
    }

    method AcknowledgeTurn(job: Job, clean: bool)
      modifies `jobs, `highWater
      ensures Table() == Acknowledge(old(Table()), job, clean)
    {
      if job.baseline && job.scope > 0 {
        if job.path in jobs && jobs[job.path].generation == job.generation {
          var row := jobs[job.path].(scope := 0);
          if clean {
            row := row.(attempts := 0, failed := false, due := 0.0);
          }
          jobs := jobs[job.path := row];
        } else {
          YieldNewerRequest(job);
        }
      } else {
        DeleteAcknowledged(job);
      }
    }

    /** The children from the `i`th on, the first of them queued. */
    method QueueChild(job: Job, o: Observation, i: nat)
      requires active.None? && i < |o.children|
      modifies `jobs, `deferred, `highWater, `births
      ensures QueueAll(env, None, Table(), ChildRequests(env, job, o, o.children[i + 1..]))
              == QueueAll(env, None, old(Table()), ChildRequests(env, job, o, o.children[i..]))
    {
      assert o.children[i..][1..] == o.children[i + 1..];
      if Descends(env, job, o.known, o.children[i]) {
        ghost var rest := ChildRequests(env, job, o, o.children[i + 1..]);
        var r := Request(o.children[i], job.volume, true, job.ScansBaseline(), 0.0, true);
        assert ([r] + rest)[1..] == rest;
        Enqueue(r);
      }
    }

    method QueueChildren(job: Job, o: Observation)
      requires active.None?
      modifies `jobs, `deferred, `highWater, `births
      ensures Table() == QueueAll(env, None, old(Table()), ChildRequests(env, job, o, o.children))
    {
      for i := 0 to |o.children|
        invariant QueueAll(env, None, Table(), ChildRequests(env, job, o, o.children[i..]))
                  == QueueAll(env, None, old(Table()), ChildRequests(env, job, o, o.children))
      {
        QueueChild(job, o, i);
      }
    }

    method MarkFailure(path: Path, attempt: nat, due: real)
      modifies `jobs
      ensures Table() == MarkFailed(old(Table()), path, attempt, due)
    {
      if path in jobs {
        var row := jobs[path];
        row := row.(attempts := if row.attempts > attempt then row.attempts else attempt, failed := true);
        if due > row.due {
          row := row.(due := due);
        }
        jobs := jobs[path := row];
      }
    }

    method RetryFailure(job: Job, o: Observation, error: Path, now: real)
      requires active.None?
      modifies `jobs, `deferred, `highWater, `births
      ensures Table() == RetryError(env, old(Table()), job, o, error, now)
    {
      var r := ErrorRequest(env, job, o, error, now);
      Enqueue(r);
      MarkFailure(r.path, job.attempts + 1, r.due);
    }

    method RetryFailures(job: Job, o: Observation, now: real)
      requires active.None?
      modifies `jobs, `deferred, `highWater, `births
      ensures Table() == RetryErrors(env, old(Table()), job, o, o.errors, now)
    {
      for i := 0 to |o.errors|
        invariant RetryErrors(env, Table(), job, o, o.errors[i..], now)
                  == RetryErrors(env, old(Table()), job, o, o.errors, now)
      {
        assert o.errors[i..][1..] == o.errors[i + 1..];
        RetryFailure(job, o, o.errors[i], now);
      }
    }

    /** Acknowledge the parent before its children are queued, or they would coalesce into it. */
    method FinishTurn(job: Job, o: Observation, now: real)
      requires active.None?
      modifies `jobs, `deferred, `highWater, `births
      ensures Table() == Finish(env, old(Table()), job, o, now)
    {
      AcknowledgeTurn(job, o.errors == []);
      if o.listed == {} && o.errors == [] && Parent(o.scope) != o.scope && env.accepts(Parent(o.scope)) {
        EnqueueAll([Request(Parent(o.scope), job.volume, false, false, 0.0, false)]);
      }
      QueueChildren(job, o);
      RetryFailures(job, o, now);
      DrainDeferred();
    }

    method ResumeTurn(job: Job, now: real)
      requires job.path in jobs
      modifies `jobs, `highWater
      ensures Table() == Resume(old(Table()), job, now)
    {
      MoveToTail(job.path);
      if jobs[job.path].attempts == 0 && jobs[job.path].due < now {
        jobs := jobs[job.path := jobs[job.path].(due := now)];
      }
    }

    method RefreshBaseline()
      modifies `baselineComplete
      ensures baselineComplete == !BaselineLeft(Table(), pending)
    {
      var unfinished := pending != [];
      unfinished := unfinished || exists p :: p in jobs && jobs[p].baseline;
      unfinished := unfinished || exists r :: r in deferred && r.baseline;
      baselineComplete := !unfinished;
    }

    method Stage(o: Observation) returns (job: Job)
      requires active.Some?
      modifies `receipts, `active
      ensures job == Staged(old(Whole()), o) && receipts == Receipts(old(Whole()), o) && active == None
    {
      var path := active.value.path;
      job := if o.scan.Some? && path in receipts && receipts[path].scan == o.scan.value then receipts[path].job
             else active.value;
      if o.scan.Some? && !o.complete && !o.skipped {
        receipts := receipts[path := Receipt(o.scan.value, job)];
      } else {
        receipts := receipts - {path};
      }
      active := None;
    }

    method CommitSkipped(o: Observation)
      requires active.Some? && o.skipped && (o.scan.Some? || o.complete)
      modifies `jobs, `deferred, `highWater, `births, `receipts, `active, `baselineComplete
      ensures Whole() == SkipStep(env, old(Whole()), o)
    {
      var job := Stage(o);
      Refuse(job);
    }

    method Refuse(job: Job)
      requires active.None?
      modifies `jobs, `deferred, `highWater, `births, `baselineComplete
      ensures Table() == Drain(env, Retire(old(Table()), job)) && baselineComplete == !BaselineLeft(Table(), pending)
    {
      DeleteAcknowledged(job);
      DrainDeferred();
      RefreshBaseline();
    }

    method CommitPartial(o: Observation, now: real)
      requires active.Some? && !o.skipped && !o.complete && o.scan.Some?
      modifies `jobs, `deferred, `highWater, `births, `receipts, `active
      ensures Whole() == PartStep(env, old(Whole()), o, now)
    {
      var before := receipts;
      var job := Stage(o);
      Proceed(job, before, now);
      GoesOn(env, old(Whole()), Whole(), o, now);
    }

    /** Goes on with the job, or forgets its staged receipt when its row is gone. */
    method Proceed(job: Job, before: map<Path, Receipt>, now: real)
      requires active.None?
      modifies `jobs, `deferred, `highWater, `births, `receipts
      ensures Table() == (if job.path in old(Table()).jobs then Drain(env, Resume(old(Table()), job, now)) else old(Table()))
      ensures receipts == if job.path in old(Table()).jobs then old(receipts) else before
    {
      if job.path in jobs {
        GoOn(job, now);
      } else {
        receipts := before;
      }
    }

    static lemma GoesOn(env: Setting, s: State, s': State, o: Observation, now: real)
      requires s.active.Some? && s'.active == None
      requires var on := Staged(s, o).path in s.t.jobs;
               && s'.t == (if on then Drain(env, Resume(s.t, Staged(s, o), now)) else s.t)
               && s'.receipts == if on then Receipts(s, o) else s.receipts
      requires s'.baselineComplete == s.baselineComplete && s'.done == s.done && s'.owed == s.owed
      requires s'.pending == s.pending && s'.clock == s.clock
      ensures s' == PartStep(env, s, o, now)
    {
    }

    method GoOn(job: Job, now: real)
      requires active.None? && job.path in jobs
      modifies `jobs, `deferred, `highWater, `births
      ensures Table() == Drain(env, Resume(old(Table()), job, now))
    {
      ResumeTurn(job, now);
      DrainDeferred();
    }

    method Record(job: Job, o: Observation)
      modifies `done, `owed
      ensures var clean := !Erred(env, job, o);
              && done == (if clean then old(done) + {job.path} else old(done))
              && owed == (if clean then Paid(old(owed), job) else old(owed))
    {
      if !Erred(env, job, o) {
        done := done + {job.path};
        if job.path in owed && owed[job.path] <= job.began {
          owed := owed - {job.path};
        }
      }
    }

    method CommitComplete(o: Observation, now: real)
      requires active.Some? && !o.skipped && o.complete
      modifies `jobs, `deferred, `highWater, `births, `receipts, `active, `baselineComplete, `done, `owed
      ensures Whole() == EndStep(env, old(Whole()), o, now)
    {
      var job := Stage(o);
      End(job, o, now);
      EndsIn(env, old(Whole()), Whole(), o, now);
    }

    method End(job: Job, o: Observation, now: real)
      requires active.None?
      modifies `jobs, `deferred, `highWater, `births, `baselineComplete, `done, `owed
      ensures Table() == Finish(env, old(Table()), job, o, now) && baselineComplete == !BaselineLeft(Table(), pending)
      ensures done == (if Erred(env, job, o) then old(done) else old(done) + {job.path})
      ensures owed == (if Erred(env, job, o) then old(owed) else Paid(old(owed), job))
    {
      Conclude(job, o, now);
      Record(job, o);
    }

    static lemma EndsIn(env: Setting, s: State, s': State, o: Observation, now: real)
      requires s.active.Some? && s'.active == None && s'.receipts == Receipts(s, o)
      requires s'.t == Finish(env, s.t, Staged(s, o), o, now) && s'.baselineComplete == !BaselineLeft(s'.t, s.pending)
      requires s'.done == (if Erred(env, Staged(s, o), o) then s.done else s.done + {Staged(s, o).path})
      requires s'.owed == (if Erred(env, Staged(s, o), o) then s.owed else Paid(s.owed, Staged(s, o)))
      requires s'.pending == s.pending && s'.clock == s.clock
      ensures s' == EndStep(env, s, o, now)
    {
    }

    method Conclude(job: Job, o: Observation, now: real)
      requires active.None?
      modifies `jobs, `deferred, `highWater, `births, `baselineComplete
      ensures Table() == Finish(env, old(Table()), job, o, now) && baselineComplete == !BaselineLeft(Table(), pending)
    {
      FinishTurn(job, o, now);
      RefreshBaseline();
    }

    /** The second half of `work`: an observation of the active job arrives. Where the source returns
        an error its transaction leaves the tables as they were. */
    method Commit(o: Observation, now: real)
      requires active.Some?
      modifies this
      ensures Whole() == CommitStep(env, old(Whole()), o, now)
    {
      if o.scan.None? && !o.complete {
        active := None;
      } else if o.skipped {
        CommitSkipped(o);
      } else if o.complete {
        CommitComplete(o, now);
      } else {
        CommitPartial(o, now);
      }
    }

    // -------------------------------------------------------------- intake, bootstrap, start

    method Intake(tree: set<Path>, path: Path, key: Key, recursive: bool)
      modifies `jobs, `deferred, `highWater, `births, `clock, `owed
      ensures Whole() == Next(env, tree, old(Whole()), Step.Intake(path, key, recursive))
    {
      TakeIn(tree, path, key, recursive);
    }

    method TakeIn(tree: set<Path>, path: Path, key: Key, recursive: bool)
      modifies `jobs, `deferred, `highWater, `births, `clock, `owed
      ensures Whole() == IntakeStep(env, tree, old(Whole()), path, key, recursive)
    {
      Ask(path, key, recursive);
      Owe(tree, path, recursive);
    }

    method Ask(path: Path, key: Key, recursive: bool)
      modifies `jobs, `deferred, `highWater, `births
      ensures Table() == Queue(env, active, old(Table()), path, key, recursive, false, 0.0, false)
    {
      QueueIntent(path, key, IntentOf(recursive, false, 0.0, false));
    }

    /** Bookkeeping: the request is owed from now on. */
    method Owe(tree: set<Path>, path: Path, recursive: bool)
      modifies `clock, `owed
      ensures clock == old(clock) + 1
      ensures owed == old(owed) + Stamped(Asked(env, tree, path, recursive), old(clock) + 1)
    {
      clock := clock + 1;
      owed := owed + Stamped(Asked(env, tree, path, recursive), clock);
    }

    /** After a batch of events: intake that grew beyond its bound. */
    method Overflow(key: Key)
      modifies `jobs, `deferred, `highWater, `births
      ensures Whole() == Next(env, {}, old(Whole()), Step.Bound(key))
    {
      BoundQueue(key);
    }

    method Bootstrap()
      modifies `jobs, `deferred, `highWater, `births, `pending, `baselineComplete
      ensures Whole() == Next(env, {}, old(Whole()), Step.Bootstrap)
      ensures selector.Here() == old(selector.Here())
    {
      EnqueueAll(BootstrapRequests(pending));
      pending := [];
      RefreshBaseline();
    }

    /** An observation that ended in an error other than one of the file system. */
    method Abort()
      modifies `active
      ensures Whole() == Next(env, {}, old(Whole()), Step.Abort)
    {
      active := None;
    }

    /** A new process: what it had in memory is gone. */
    method Restart()
      modifies `jobs, `deferred, `highWater, `startup, `births, `active
      ensures Whole() == Next(env, {}, old(Whole()), Step.Restart)
    {
      Renew();
    }

    method Renew()
      modifies `jobs, `deferred, `highWater, `startup, `births, `active
      ensures Whole() == RestartStep(env, old(Whole()))
    {
      active := None;
      Reopen();
    }

    /** Saved intake is drained before the startup floor is read. */
    method Reopen()
      requires active.None?
      modifies `jobs, `deferred, `highWater, `startup, `births
      ensures Table() == RestartTables(env, old(Table()))
    {
      startup := 0;
      DrainDeferred();
      startup := Highest();
      if startup > highWater {
        highWater := startup;
      }
    }
  }
}
