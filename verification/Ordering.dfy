/** Explicit requests are first in, first out: a row that became live earlier keeps its place ahead
    of every row that became live later, until its own observation ends.

    `Ledger` is bookkeeping of the model: `live` stamps each row that external intake, or the end
    of its own turn, placed at the tail, with the count of operations at that moment. */
module Ordering {
  import opened Paths
  import opened JobTable
  import opened Worker
  import opened Scheduler

  datatype Ledger = Ledger(t: Tables, live: map<Path, nat>, clock: nat)

  /** What the worker's steps are made of: a queue operation, a tail move at the end of a turn, or a
      change that deletes rows, ends their explicit scope, or alters what has no part in the order. */
  datatype Op = Enqueue(active: Option<Job>, request: Request) | Tail(path: Path) | Alter(after: Tables)

  function Explicit(t: Tables, path: Path): bool { path in t.jobs && t.jobs[path].scope > 0 }

  function Still(t: Tables, live: map<Path, nat>): map<Path, nat> {
    map p | p in live && Explicit(t, p) :: live[p]
  }

  /** The row a request promotes to the tail, if it does. */
  ghost function Promoted(env: Setting, active: Option<Job>, t: Tables, r: Request): Option<Path> {
    var intent := IntentOf(r.recursive, r.baseline, r.due, r.preserve);
    var found := FindTarget(t.jobs, env.VolumeOr(r.path, r.key), r.path, intent, r.path);
    var target := if found.Some? then found.value else r.path;
    if env.acceptsDirectory(r.path) && !Defers(env, active, r.path, r.key) && Promotes(t, target, intent)
    then Some(target) else None
  }

  ghost predicate Alters(t: Tables, t': Tables) {
    && t'.highWater == t.highWater && t'.startup == t.startup
    && forall p :: p in t'.jobs ==>
         p in t.jobs && t'.jobs[p].rowid == t.jobs[p].rowid && (t'.jobs[p].scope == t.jobs[p].scope || t'.jobs[p].scope == 0)
  }

  ghost predicate Enabled(l: Ledger, op: Op) {
    match op
    case Enqueue(_, _) => true
    case Tail(path) => path in l.t.jobs
    case Alter(after) => Alters(l.t, after)
  }

  ghost function Apply(env: Setting, l: Ledger, op: Op): Ledger
    requires Enabled(l, op)
  {
    match op
    case Enqueue(active, r) =>
      var t := QueueRequest(env, active, l.t, r);
      var moved := Promoted(env, active, l.t, r);
      Ledger(t, if moved.Some? then Still(t, l.live)[moved.value := l.clock] else Still(t, l.live), l.clock + 1)
    case Tail(path) =>
      var t := MoveToTail(l.t, path);
      Ledger(t, if Explicit(t, path) then Still(t, l.live)[path := l.clock] else Still(t, l.live), l.clock + 1)
    case Alter(after) => Ledger(after, Still(after, l.live), l.clock + 1)
  }

  predicate Apart(t: Tables, p: Path, q: Path) {
    p in t.jobs && q in t.jobs && p != q ==> t.jobs[p].rowid != t.jobs[q].rowid
  }

  /** The rowid is a key. */
  ghost predicate Distinct(t: Tables) { forall p, q :: Apart(t, p, q) }

  predicate LiveRow(l: Ledger, p: Path) {
    p in l.live ==> Explicit(l.t, p) && l.t.startup < l.t.jobs[p].rowid <= l.t.highWater && l.live[p] < l.clock
  }

  predicate InOrder(l: Ledger, p: Path, q: Path) {
    p in l.live && q in l.live && p in l.t.jobs && q in l.t.jobs && l.live[p] < l.live[q]
    ==> l.t.jobs[p].rowid < l.t.jobs[q].rowid
  }

  ghost predicate Ordered(l: Ledger) {
    Distinct(l.t) && (forall p :: LiveRow(l, p)) && (forall p, q :: InOrder(l, p, q))
  }

  // ---------------------------------------------------------------- the effect of one operation

  /** All rows keep their place, except that `moved` goes behind every row, the startup floor and
      every earlier mark. */
  ghost predicate Moves(t: Tables, t': Tables, moved: Option<Path>) {
    && t'.startup == t.startup && t'.highWater >= t.highWater
    && (forall p :: p in t'.jobs && p in t.jobs && Some(p) != moved ==> t'.jobs[p].rowid == t.jobs[p].rowid)
    && (moved.Some? ==>
          && moved.value in t'.jobs && t'.jobs[moved.value].rowid == t'.highWater
          && t'.highWater > t.highWater && t'.highWater > t.startup
          && forall p :: p in t'.jobs && p != moved.value ==> t'.jobs[p].rowid < t'.highWater)
  }

  /** The row has the last place already. */
  predicate IsLast(t: Tables, path: Path) {
    && path in t.jobs && t.jobs[path].rowid > 0 && t.jobs[path].rowid > t.startup && t.jobs[path].rowid > t.highWater
    && forall p :: p in t.jobs ==> t.jobs[p].rowid <= t.jobs[path].rowid
  }

  lemma TailIsLast(t: Tables, path: Path)
    requires Distinct(t) && path in t.jobs
    ensures var t' := MoveToTail(t, path);
            && Moves(t, t', Some(path)) && t'.jobs.Keys == t.jobs.Keys
            && t'.jobs[path] == t.jobs[path].(rowid := t'.jobs[path].rowid)
            && forall p :: p in t.jobs && p != path ==> t'.jobs[p] == t.jobs[p]
    ensures IsLast(t, path) ==> MoveToTail(t, path).jobs == t.jobs
  {
    if IsLast(t, path) {
      var jobs' := MoveToTail(t, path).jobs;
      assert jobs'[path] == t.jobs[path];
      assert jobs' == t.jobs;
    }
    forall p | p in t.jobs && p != path ensures t.jobs[p].rowid < MoveToTail(t, path).jobs[path].rowid {
      assert Apart(t, p, path);
    }
  }

  lemma MovesDistinct(t: Tables, t': Tables, moved: Option<Path>)
    requires Distinct(t) && Moves(t, t', moved) && t'.jobs.Keys <= t.jobs.Keys
    ensures Distinct(t')
  {
    forall p, q ensures Apart(t', p, q) {
      assert Apart(t, p, q);
    }
  }

  /** The stamps after an operation: rows still explicit keep theirs, the moved row gets a new one. */
  ghost predicate Restamps(l: Ledger, l': Ledger, moved: Option<Path>) {
    && l'.clock == l.clock + 1
    && (forall p :: p in l'.live ==> Explicit(l'.t, p))
    && (forall p :: p in l'.live && Some(p) != moved ==> p in l.live && l'.live[p] == l.live[p])
    && (moved.Some? && moved.value in l'.live ==> l'.live[moved.value] == l.clock)
  }

  lemma MovesOrdered(l: Ledger, l': Ledger, moved: Option<Path>)
    requires Ordered(l) && Distinct(l'.t) && Moves(l.t, l'.t, moved) && Restamps(l, l', moved)
    ensures Ordered(l')
  {
    forall p ensures LiveRow(l', p) {
      assert LiveRow(l, p);
    }
    forall p, q ensures InOrder(l', p, q) {
      assert InOrder(l, p, q) && LiveRow(l, p) && LiveRow(l, q);
    }
  }

  lemma TailOrdered(env: Setting, l: Ledger, path: Path)
    requires Ordered(l) && path in l.t.jobs
    ensures Ordered(Apply(env, l, Tail(path)))
  {
    TailIsLast(l.t, path);
    MovesDistinct(l.t, MoveToTail(l.t, path), Some(path));
    MovesOrdered(l, Apply(env, l, Tail(path)), Some(path));
  }

  lemma AlterOrdered(env: Setting, l: Ledger, after: Tables)
    requires Ordered(l) && Alters(l.t, after)
    ensures Ordered(Apply(env, l, Alter(after)))
  {
    MovesDistinct(l.t, after, None);
    MovesOrdered(l, Apply(env, l, Alter(after)), None);
  }

  // ---------------------------------------------------------------- queueing

  lemma UpsertPlaces(t: Tables, target: Path, key: Key, deep: bool, intent: Intent)
    requires Distinct(t)
    ensures var t' := Upsert(t, target, key, deep, intent);
            && Distinct(t') && target in t'.jobs && Moves(t, t', None) && t'.highWater == t.highWater
            && (target in t.jobs ==> t'.jobs[target].scope >= t.jobs[target].scope)
            && (forall p :: p in t.jobs && p != target ==> p in t'.jobs && t'.jobs[p] == t.jobs[p])
            && t'.jobs[target].scope >= EffectiveScope(t.jobs, target, intent)
  {
    forall p, q ensures Apart(Upsert(t, target, key, deep, intent), p, q) {
      assert Apart(t, p, q);
    }
  }

  lemma AbsorbAlters(t: Tables, target: Path, key: Key)
    requires target in t.jobs
    ensures var t' := t.(jobs := Absorb(t.jobs, target, key));
            Alters(t, t') && t'.jobs.Keys <= t.jobs.Keys && forall p :: Explicit(t, p) ==> Explicit(t', p)
  {
  }

  /** The effect of a queue operation on the order: explicit rows stay explicit, and the promoted row
      was not live already. */
  ghost predicate Places(t: Tables, t': Tables, moved: Option<Path>) {
    && Distinct(t') && Moves(t, t', moved)
    && (forall p :: Explicit(t, p) ==> Explicit(t', p))
    && (moved.Some? ==> Explicit(t', moved.value) && (Explicit(t, moved.value) ==> t.jobs[moved.value].rowid <= t.startup))
  }

  lemma PromotePlaces(t: Tables, t1: Tables, target: Path)
    requires Distinct(t1) && Moves(t, t1, None) && t1.highWater == t.highWater && Explicit(t1, target)
    requires forall p :: Explicit(t, p) ==> Explicit(t1, p)
    requires Explicit(t, target) ==> t.jobs[target].rowid <= t.startup
    ensures Places(t, MoveToTail(t1, target), Some(target))
  {
    TailIsLast(t1, target);
    MovesDistinct(t1, MoveToTail(t1, target), Some(target));
  }

  lemma AbsorbPlaces(t: Tables, t2: Tables, target: Path, key: Key, moved: Option<Path>)
    requires Places(t, t2, moved) && target in t2.jobs
    ensures Places(t, t2.(jobs := Absorb(t2.jobs, target, key)), moved)
  {
    AbsorbAlters(t2, target, key);
    MovesDistinct(t2, t2.(jobs := Absorb(t2.jobs, target, key)), None);
  }

  lemma PlacesOne(t: Tables, target: Path, key: Key, deep: bool, intent: Intent)
    requires Distinct(t)
    ensures var t1 := Upsert(t, target, key, deep, intent);
            var t2 := if Promotes(t, target, intent) then MoveToTail(t1, target) else t1;
            Places(t, if deep then t2.(jobs := Absorb(t2.jobs, target, key)) else t2,
                   if Promotes(t, target, intent) then Some(target) else None)
  {
    var t1 := Upsert(t, target, key, deep, intent);
    UpsertPlaces(t, target, key, deep, intent);
    var promoted := Promotes(t, target, intent);
    if promoted {
      PromotePlaces(t, t1, target);
    }
    AbsorbPlaces(t, if promoted then MoveToTail(t1, target) else t1, target, key, if promoted then Some(target) else None);
  }

  lemma QueuePlaces(env: Setting, active: Option<Job>, t: Tables, r: Request)
    requires Distinct(t)
    ensures Places(t, QueueRequest(env, active, t, r), Promoted(env, active, t, r))
  {
    var intent := IntentOf(r.recursive, r.baseline, r.due, r.preserve);
    if env.acceptsDirectory(r.path) && !Defers(env, active, r.path, r.key) {
      var key := env.VolumeOr(r.path, r.key);
      var found := FindTarget(t.jobs, key, r.path, intent, r.path);
      var target := if found.Some? then found.value else r.path;
      PlacesOne(t, target, key, intent.recursive || found.Some?, intent);
    } else {
      var t' := QueueRequest(env, active, t, r);
      assert t'.jobs == t.jobs;
      MovesDistinct(t, t', None);
    }
  }

  lemma EnqueueOrdered(env: Setting, l: Ledger, active: Option<Job>, r: Request)
    requires Ordered(l)
    ensures Ordered(Apply(env, l, Enqueue(active, r)))
  {
    QueuePlaces(env, active, l.t, r);
    MovesOrdered(l, Apply(env, l, Enqueue(active, r)), Promoted(env, active, l.t, r));
  }

  lemma OpOrdered(env: Setting, l: Ledger, op: Op)
    requires Ordered(l) && Enabled(l, op)
    ensures Ordered(Apply(env, l, op))
  {
    match op
    case Enqueue(active, r) => EnqueueOrdered(env, l, active, r);
    case Tail(path) => TailOrdered(env, l, path);
    case Alter(after) => AlterOrdered(env, l, after);
  }

  /** Coalescing onto a live row, and every move of another row, keep its stamp and its place. */
  lemma KeepsPlace(env: Setting, l: Ledger, op: Op, p: Path)
    requires Ordered(l) && Enabled(l, op) && p in l.live && op != Tail(p)
    ensures var l' := Apply(env, l, op);
            && (Explicit(l'.t, p) ==> p in l'.live && p in l.t.jobs && l'.live[p] == l.live[p] && l'.t.jobs[p].rowid == l.t.jobs[p].rowid)
            && (op.Enqueue? ==> Explicit(l'.t, p))
  {
    assert LiveRow(l, p);
    match op
    case Enqueue(active, r) => QueuePlaces(env, active, l.t, r);
    case Tail(path) => TailIsLast(l.t, path);
    case Alter(after) =>
  }

  // ---------------------------------------------------------------- runs of operations

  ghost predicate Playable(env: Setting, l: Ledger, ops: seq<Op>)
    decreases |ops|
  {
    ops == [] || (Enabled(l, ops[0]) && Playable(env, Apply(env, l, ops[0]), ops[1..]))
  }

  ghost function Play(env: Setting, l: Ledger, ops: seq<Op>): Ledger
    requires Playable(env, l, ops)
    decreases |ops|
  {
    if ops == [] then l else Play(env, Apply(env, l, ops[0]), ops[1..])
  }

  lemma {:induction false} PlayOrdered(env: Setting, l: Ledger, ops: seq<Op>)
    requires Ordered(l) && Playable(env, l, ops)
    ensures Ordered(Play(env, l, ops)) && Play(env, l, ops).clock == l.clock + |ops|
    decreases |ops|
  {
    if ops != [] {
      OpOrdered(env, l, ops[0]);
      PlayOrdered(env, Apply(env, l, ops[0]), ops[1..]);
    }
  }

  lemma {:induction false} PlayConcat(env: Setting, l: Ledger, a: seq<Op>, b: seq<Op>)
    requires Playable(env, l, a) && Playable(env, Play(env, l, a), b)
    ensures Playable(env, l, a + b) && Play(env, l, a + b) == Play(env, Play(env, l, a), b)
    decreases |a|
  {
    if a == [] {
      assert a + b == b;
    } else {
      assert (a + b)[1..] == a[1..] + b;
      PlayConcat(env, Apply(env, l, a[0]), a[1..], b);
    }
  }

  // ---------------------------------------------------------------- the worker's steps are such runs

  /** From any ledger of table `t`, operations that move only `tail` to the tail lead to `t'`. */
  ghost predicate Steps(env: Setting, tail: Option<Path>, t: Tables, t': Tables) {
    forall l: Ledger :: l.t == t ==> Reaches(env, tail, l, t')
  }

  ghost predicate Reaches(env: Setting, tail: Option<Path>, l: Ledger, t': Tables) {
    exists ops :: Leads(env, tail, l, ops, t')
  }

  ghost predicate Leads(env: Setting, tail: Option<Path>, l: Ledger, ops: seq<Op>, t': Tables) {
    Playable(env, l, ops) && Play(env, l, ops).t == t' && forall op :: op in ops && op.Tail? ==> Some(op.path) == tail
  }

  lemma StepsChain(env: Setting, tail: Option<Path>, t: Tables, t1: Tables, t2: Tables)
    requires Steps(env, tail, t, t1) && Steps(env, tail, t1, t2)
    ensures Steps(env, tail, t, t2)
  {
    forall l: Ledger | l.t == t ensures Reaches(env, tail, l, t2) {
      var a :| Leads(env, tail, l, a, t1);
      var l1 := Play(env, l, a);
      assert Reaches(env, tail, l1, t2);
      var b :| Leads(env, tail, l1, b, t2);
      PlayConcat(env, l, a, b);
      assert Leads(env, tail, l, a + b, t2);
    }
  }

  lemma StepsNone(env: Setting, tail: Option<Path>, t: Tables)
    ensures Steps(env, tail, t, t)
  {
    forall l: Ledger | l.t == t ensures Reaches(env, tail, l, t) {
      assert Leads(env, tail, l, [], t);
    }
  }

  lemma StepsOne(env: Setting, tail: Option<Path>, t: Tables, op: Op, t': Tables)
    requires forall l: Ledger :: l.t == t ==> Enabled(l, op) && Apply(env, l, op).t == t'
    requires op.Tail? ==> Some(op.path) == tail
    ensures Steps(env, tail, t, t')
  {
    forall l: Ledger | l.t == t ensures Reaches(env, tail, l, t') {
      assert [op][1..] == [];
      assert Playable(env, Apply(env, l, op), []);
      assert Leads(env, tail, l, [op], t');
    }
  }

  lemma StepsAlter(env: Setting, tail: Option<Path>, t: Tables, t': Tables)
    requires Alters(t, t')
    ensures Steps(env, tail, t, t')
  {
    StepsOne(env, tail, t, Alter(t'), t');
  }

  lemma StepsTail(env: Setting, t: Tables, path: Path)
    requires path in t.jobs
    ensures Steps(env, Some(path), t, MoveToTail(t, path))
  {
    StepsOne(env, Some(path), t, Tail(path), MoveToTail(t, path));
  }

  lemma StepsQueue(env: Setting, tail: Option<Path>, active: Option<Job>, t: Tables, r: Request)
    ensures Steps(env, tail, t, QueueRequest(env, active, t, r))
  {
    StepsOne(env, tail, t, Enqueue(active, r), QueueRequest(env, active, t, r));
  }

  lemma {:induction false} StepsQueueAll(env: Setting, tail: Option<Path>, active: Option<Job>, t: Tables, rs: seq<Request>)
    ensures Steps(env, tail, t, QueueAll(env, active, t, rs))
    decreases |rs|
  {
    if rs == [] {
      StepsNone(env, tail, t);
    } else {
      StepsQueue(env, tail, active, t, rs[0]);
      StepsQueueAll(env, tail, active, QueueRequest(env, active, t, rs[0]), rs[1..]);
      StepsChain(env, tail, t, QueueRequest(env, active, t, rs[0]), QueueAll(env, active, t, rs));
    }
  }

  lemma StepsDrain(env: Setting, tail: Option<Path>, t: Tables)
    ensures Steps(env, tail, t, Drain(env, t))
  {
    StepsAlter(env, tail, t, t.(deferred := []));
    StepsQueueAll(env, tail, None, t.(deferred := []), DeferredRequests(t.deferred));
    StepsChain(env, tail, t, t.(deferred := []), Drain(env, t));
  }

  lemma StepsBound(env: Setting, tail: Option<Path>, active: Option<Job>, t: Tables, key: Key)
    ensures Steps(env, tail, t, BoundQueue(env, active, t, key))
  {
    StepsNone(env, tail, t);
    if Overflows(t, key) && key in env.roots {
      var t1 := t.(jobs := Collapse(t.jobs, key));
      StepsAlter(env, tail, t, t1);
      StepsQueueAll(env, tail, active, t1, RootRequests(env.roots[key], key));
      StepsChain(env, tail, t, t1, BoundQueue(env, active, t, key));
    }
  }

  lemma {:induction false} StepsRetries(env: Setting, tail: Option<Path>, t: Tables, retries: seq<Path>)
    ensures Steps(env, tail, t, QueueRetries(env, t, retries))
    decreases |retries|
  {
    StepsNone(env, tail, t);
    if retries != [] {
      var path := retries[0];
      if env.volumeFor(path).Some? && env.accepts(path) && !HasTicket(t.jobs, path, env.volumeFor(path).value, path) {
        var r := Request(path, env.volumeFor(path).value, false, false, 0.0, true);
        StepsQueue(env, tail, None, t, r);
        StepsRetries(env, tail, QueueRequest(env, None, t, r), retries[1..]);
        StepsChain(env, tail, t, QueueRequest(env, None, t, r), QueueRetries(env, t, retries));
      } else {
        StepsRetries(env, tail, t, retries[1..]);
      }
    }
  }

  lemma {:induction false} StepsErrors(env: Setting, tail: Option<Path>, t: Tables, job: Job, o: Observation, errors: seq<Path>, now: real)
    ensures Steps(env, tail, t, RetryErrors(env, t, job, o, errors, now))
    decreases |errors|
  {
    if errors == [] {
      StepsNone(env, tail, t);
    } else {
      var r := ErrorRequest(env, job, o, errors[0], now);
      var t1 := QueueRequest(env, None, t, r);
      var t2 := RetryError(env, t, job, o, errors[0], now);
      StepsQueue(env, tail, None, t, r);
      StepsAlter(env, tail, t1, t2);
      StepsChain(env, tail, t, t1, t2);
      StepsErrors(env, tail, t2, job, o, errors[1..], now);
      StepsChain(env, tail, t, t2, RetryErrors(env, t, job, o, errors, now));
    }
  }

  lemma StepsYield(env: Setting, t: Tables, job: Job)
    ensures Steps(env, Some(job.path), t, YieldNewer(t, job))
  {
    StepsNone(env, Some(job.path), t);
    if job.path in t.jobs {
      StepsTail(env, t, job.path);
    }
  }

  lemma StepsAcknowledge(env: Setting, t: Tables, job: Job, clean: bool)
    ensures Steps(env, Some(job.path), t, Retire(t, job)) && Steps(env, Some(job.path), t, Acknowledge(t, job, clean))
  {
    StepsYield(env, t, job);
    if Acknowledges(t, job) {
      StepsAlter(env, Some(job.path), t, Retire(t, job));
      StepsAlter(env, Some(job.path), t, Acknowledge(t, job, clean));
    }
  }

  lemma StepsFinish(env: Setting, t: Tables, job: Job, o: Observation, now: real)
    ensures Steps(env, Some(job.path), t, Finish(env, t, job, o, now))
  {
    var tail := Some(job.path);
    var t1 := Acknowledge(t, job, o.errors == []);
    var t2 := QueueAll(env, None, t1, ParentRequests(env, job, o));
    var t3 := QueueAll(env, None, t2, ChildRequests(env, job, o, o.children));
    var t4 := RetryErrors(env, t3, job, o, o.errors, now);
    StepsAcknowledge(env, t, job, o.errors == []);
    StepsQueueAll(env, tail, None, t1, ParentRequests(env, job, o));
    StepsChain(env, tail, t, t1, t2);
    StepsQueueAll(env, tail, None, t2, ChildRequests(env, job, o, o.children));
    StepsChain(env, tail, t, t2, t3);
    StepsErrors(env, tail, t3, job, o, o.errors, now);
    StepsChain(env, tail, t, t3, t4);
    StepsDrain(env, tail, t4);
    StepsChain(env, tail, t, t4, Drain(env, t4));
  }

  lemma StepsResume(env: Setting, t: Tables, job: Job, now: real)
    requires job.path in t.jobs
    ensures Steps(env, Some(job.path), t, Drain(env, Resume(t, job, now)))
  {
    var t1 := MoveToTail(t, job.path);
    var t2 := Resume(t, job, now);
    StepsTail(env, t, job.path);
    StepsAlter(env, Some(job.path), t1, t2);
    StepsChain(env, Some(job.path), t, t1, t2);
    StepsDrain(env, Some(job.path), t2);
    StepsChain(env, Some(job.path), t, t2, Drain(env, t2));
  }

  /** The row whose turn a step ends. */
  ghost function Ended(s: State, step: Step): Option<Path> {
    if step.Commit? && s.active.Some? then Some(Staged(s, step.seen).path) else None
  }

  lemma StepsCommit(env: Setting, s: State, o: Observation, now: real)
    requires s.active.Some?
    ensures Steps(env, Some(Staged(s, o).path), s.t, CommitStep(env, s, o, now).t)
  {
    var job := Staged(s, o);
    StepsNone(env, Some(job.path), s.t);
    if o.skipped {
      StepsRefuse(env, s.t, job);
    } else if !o.complete {
      if job.path in s.t.jobs {
        StepsResume(env, s.t, job, now);
      }
    } else {
      StepsFinish(env, s.t, job, o, now);
    }
  }

  lemma StepsRefuse(env: Setting, t: Tables, job: Job)
    ensures Steps(env, Some(job.path), t, Drain(env, Retire(t, job)))
  {
    StepsAcknowledge(env, t, job, true);
    StepsDrain(env, Some(job.path), Retire(t, job));
    StepsChain(env, Some(job.path), t, Retire(t, job), Drain(env, Retire(t, job)));
  }

  lemma StepsSelect(env: Setting, t: Tables, retries: seq<Path>)
    ensures Steps(env, None, t, QueueRetries(env, Drain(env, t), retries))
  {
    StepsDrain(env, None, t);
    StepsRetries(env, None, Drain(env, t), retries);
    StepsChain(env, None, t, Drain(env, t), QueueRetries(env, Drain(env, t), retries));
  }

  lemma StepsIntake(env: Setting, active: Option<Job>, t: Tables, path: Path, key: Key, recursive: bool)
    ensures Steps(env, None, t, Queue(env, active, t, path, key, recursive, false, 0.0, false))
  {
    StepsQueue(env, None, active, t, Request(path, key, recursive, false, 0.0, false));
  }

  lemma IntakeSteps(env: Setting, tree: set<Path>, s: State, step: Step)
    requires step.Intake?
    ensures Steps(env, None, s.t, Next(env, tree, s, step).t)
  {
    StepsIntake(env, s.active, s.t, step.path, step.key, step.recursive);
  }

  lemma BoundSteps(env: Setting, tree: set<Path>, s: State, step: Step)
    requires step.Bound?
    ensures Steps(env, None, s.t, Next(env, tree, s, step).t)
  {
    StepsBound(env, None, s.active, s.t, step.bounded);
  }

  lemma BootstrapSteps(env: Setting, tree: set<Path>, s: State, step: Step)
    requires step.Bootstrap?
    ensures Steps(env, None, s.t, Next(env, tree, s, step).t)
  {
    StepsQueueAll(env, None, s.active, s.t, BootstrapRequests(s.pending));
  }

  lemma SelectSteps(env: Setting, tree: set<Path>, s: State, step: Step)
    requires step.Select?
    ensures Steps(env, None, s.t, Next(env, tree, s, step).t)
  {
    StepsNone(env, None, s.t);
    StepsSelect(env, s.t, step.retries);
  }

  lemma CommitSteps(env: Setting, tree: set<Path>, s: State, step: Step)
    requires step.Commit?
    ensures Steps(env, Ended(s, step), s.t, Next(env, tree, s, step).t)
  {
    if s.active.Some? {
      StepsCommit(env, s, step.seen, step.now);
    } else {
      StepsNone(env, None, s.t);
    }
  }

  /** Every step of the worker but a restart is made of order-keeping operations, and the only row it
      moves to the tail without promoting it is the one whose turn it ends. */
  lemma WorkerSteps(env: Setting, tree: set<Path>, s: State, step: Step)
    requires !step.Restart?
    ensures Steps(env, Ended(s, step), s.t, Next(env, tree, s, step).t)
  {
    match step
    case Intake(_, _, _) => IntakeSteps(env, tree, s, step);
    case Bound(_) => BoundSteps(env, tree, s, step);
    case Bootstrap => BootstrapSteps(env, tree, s, step);
    case Select(_, _, _) => SelectSteps(env, tree, s, step);
    case Commit(_, _) => CommitSteps(env, tree, s, step);
    case Abort => StepsNone(env, None, s.t);
  }

  // ---------------------------------------------------------------- first in, first out

  /** The row keeps its stamp through operations that leave it explicit and do not end its turn. */
  ghost predicate Waits(env: Setting, l: Ledger, ops: seq<Op>, p: Path)
    requires Playable(env, l, ops)
    decreases |ops|
  {
    ops == [] || (ops[0] != Tail(p) && Explicit(Apply(env, l, ops[0]).t, p) && Waits(env, Apply(env, l, ops[0]), ops[1..], p))
  }

  lemma {:induction false} WaitsInPlace(env: Setting, l: Ledger, ops: seq<Op>, p: Path)
    requires Ordered(l) && p in l.live && Playable(env, l, ops) && Waits(env, l, ops, p)
    ensures var l' := Play(env, l, ops); Ordered(l') && p in l'.live && l'.live[p] == l.live[p]
    decreases |ops|
  {
    if ops != [] {
      OpOrdered(env, l, ops[0]);
      KeepsPlace(env, l, ops[0], p);
      WaitsInPlace(env, Apply(env, l, ops[0]), ops[1..], p);
    }
  }

  /** A due request that waits is never passed over by a row that became live later: not by a row
      that was behind it, and not by one whose request came in while it waited. */
  lemma FirstInFirstOut(env: Setting, l: Ledger, ops: seq<Op>, place: Place, look: Look, p: Path, q: Path)
    requires Ordered(l) && p in l.live && Playable(env, l, ops) && Waits(env, l, ops, p)
    requires var l' := Play(env, l, ops);
             && look.startup == l'.t.startup && ReadyAt(l'.t.jobs, look, p)
             && q in l'.live && l'.live[q] > l.live[p]
    ensures !Best(Play(env, l, ops).t.jobs, place, look, q)
  {
    WaitsInPlace(env, l, ops, p);
    NeverOvertaken(Play(env, l, ops), place, look, p, q);
  }

  /** The selection never passes over an older live request: of two due live rows of one place in
      the order, the one stamped later is not the best. */
  lemma NeverOvertaken(l: Ledger, place: Place, look: Look, p: Path, q: Path)
    requires Ordered(l) && look.startup == l.t.startup && p in l.live && q in l.live && l.live[p] < l.live[q]
    requires ReadyAt(l.t.jobs, look, p)
    ensures !Best(l.t.jobs, place, look, q)
  {
    if Best(l.t.jobs, place, look, q) {
      assert LiveRow(l, p) && LiveRow(l, q) && InOrder(l, p, q);
      ExplicitFirstInFirstOut(l.t.jobs, place, look, q, p);
    }
  }

  // ---------------------------------------------------------------- over a run of the worker

  ghost predicate NoRestart(steps: seq<Step>) { forall i :: 0 <= i < |steps| ==> !steps[i].Restart? }

  /** Some step of the run ends the turn of `p`. */
  ghost predicate Turned(env: Setting, tree: set<Path>, s: State, steps: seq<Step>, p: Path)
    decreases |steps|
  {
    steps != [] && (Ended(s, steps[0]) == Some(p) || Turned(env, tree, Next(env, tree, s, steps[0]), steps[1..], p))
  }

  /** `ops` play the run on the ledger: they lead to its tables, and besides promotions they move only
      rows to the tail whose turn ended. */
  ghost predicate Plays(env: Setting, tree: set<Path>, s: State, steps: seq<Step>, l: Ledger, ops: seq<Op>) {
    && Playable(env, l, ops) && Play(env, l, ops).t == Ran(env, tree, s, steps).t
    && forall op :: op in ops && op.Tail? ==> Turned(env, tree, s, steps, op.path)
  }

  /** Every run of the worker without a restart is played by order-keeping operations. */
  lemma {:induction false} RunPlays(env: Setting, tree: set<Path>, s: State, steps: seq<Step>, l: Ledger) returns (ops: seq<Op>)
    requires l.t == s.t && NoRestart(steps)
    ensures Plays(env, tree, s, steps, l, ops)
    decreases |steps|
  {
    if steps == [] {
      ops := [];
    } else {
      var s1 := Next(env, tree, s, steps[0]);
      WorkerSteps(env, tree, s, steps[0]);
      assert Reaches(env, Ended(s, steps[0]), l, s1.t);
      var a :| Leads(env, Ended(s, steps[0]), l, a, s1.t);
      var b := RunPlays(env, tree, s1, steps[1..], Play(env, l, a));
      PlayConcat(env, l, a, b);
      TailsOf(env, tree, s, steps, a, b);
      ops := a + b;
    }
  }

  lemma TailsOf(env: Setting, tree: set<Path>, s: State, steps: seq<Step>, a: seq<Op>, b: seq<Op>)
    requires steps != []
    requires forall op :: op in a && op.Tail? ==> Some(op.path) == Ended(s, steps[0])
    requires forall op :: op in b && op.Tail? ==> Turned(env, tree, Next(env, tree, s, steps[0]), steps[1..], op.path)
    ensures forall op :: op in a + b && op.Tail? ==> Turned(env, tree, s, steps, op.path)
  {
  }

  function Blank(t: Tables): Ledger { Ledger(t, map[], 0) }

  /** After a restart no row counts as live: the floor is the highest rowid there is, and at most the mark, which
      never falls. */
  lemma RestartSaves(env: Setting, s: State)
    ensures var t := RestartStep(env, s).t;
            && (forall p :: p in t.jobs ==> t.jobs[p].rowid <= t.startup)
            && (t.startup == 0 || exists p :: p in t.jobs && t.jobs[p].rowid == t.startup)
            && t.startup <= t.highWater && Drain(env, s.t.(startup := 0)).highWater <= t.highWater
  {
    var t1 := Drain(env, s.t.(startup := 0));
    assert RestartStep(env, s).t.jobs == t1.jobs && RestartStep(env, s).t.startup == MaxRowid(t1.jobs);
  }

  /** A restart ends in an ordered ledger: no row is live, and the rowid still is a key. */
  lemma RestartOrdered(env: Setting, s: State)
    requires Distinct(s.t)
    ensures Ordered(Blank(RestartStep(env, s).t))
  {
    var t0 := s.t.(startup := 0);
    var t1 := Drain(env, t0);
    var l0 := Blank(t0);
    SameRowids(s.t, t0);
    StepsDrain(env, None, t0);
    assert Reaches(env, None, l0, t1);
    var ops :| Leads(env, None, l0, ops, t1);
    PlayOrdered(env, l0, ops);
    SameRowids(t1, RestartTables(env, s.t));
  }

  lemma SameRowids(t: Tables, t': Tables)
    requires Distinct(t) && t'.jobs == t.jobs
    ensures Distinct(t')
  {
    forall p, q ensures Apart(t', p, q) { assert Apart(t, p, q); }
  }

  /** A process that starts with a restart, and runs up to a selection: the ledger of its operations is
      ordered, and of two due live rows the one that became live later is not served. */
  lemma WorkerFirstInFirstOut(env: Setting, tree: set<Path>, s: State, steps: seq<Step>) returns (ops: seq<Op>)
    requires Distinct(s.t) && NoRestart(steps)
    ensures var s0 := Next(env, tree, s, Restart);
            Plays(env, tree, s0, steps, Blank(s0.t), ops) && Ordered(Play(env, Blank(s0.t), ops))
    ensures var s0 := Next(env, tree, s, Restart); var l := Play(env, Blank(s0.t), ops);
            forall place, look, p, q :: Overtakes(l, place, look, p, q) ==> !Best(l.t.jobs, place, look, q)
  {
    var s0 := Next(env, tree, s, Restart);
    RestartOrdered(env, s);
    ops := RunPlays(env, tree, s0, steps, Blank(s0.t));
    PlayOrdered(env, Blank(s0.t), ops);
    var l := Play(env, Blank(s0.t), ops);
    forall place, look, p, q | Overtakes(l, place, look, p, q) ensures !Best(l.t.jobs, place, look, q) {
      NeverOvertaken(l, place, look, p, q);
    }
  }

  /** `p` is due and became live before `q`. */
  ghost predicate Overtakes(l: Ledger, place: Place, look: Look, p: Path, q: Path) {
    look.startup == l.t.startup && p in l.live && q in l.live && l.live[p] < l.live[q] && ReadyAt(l.t.jobs, look, p)
  }

  /** A row that is live in the middle of a run and waits through the rest of it keeps its stamp, so that
      no request that comes in meanwhile overtakes it. */
  lemma WaitingRowLeads(env: Setting, tree: set<Path>, s: State, steps: seq<Step>, l: Ledger, place: Place, look: Look, p: Path, q: Path)
    returns (ops: seq<Op>)
    requires l.t == s.t && Ordered(l) && NoRestart(steps) && p in l.live
    ensures Plays(env, tree, s, steps, l, ops)
    ensures var l' := Play(env, l, ops);
            Waits(env, l, ops, p) && look.startup == l'.t.startup && ReadyAt(l'.t.jobs, look, p) && q in l'.live && l'.live[q] > l.live[p]
            ==> !Best(l'.t.jobs, place, look, q)
  {
    ops := RunPlays(env, tree, s, steps, l);
    var l' := Play(env, l, ops);
    if Waits(env, l, ops, p) && look.startup == l'.t.startup && ReadyAt(l'.t.jobs, look, p) && q in l'.live && l'.live[q] > l.live[p] {
      FirstInFirstOut(env, l, ops, place, look, p, q);
    }
  }
}
