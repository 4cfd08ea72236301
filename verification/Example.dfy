/** One volume with one root, for runs written out step by step. */
module Example {
  import opened Paths
  import opened JobTable
  import opened Coverage
  import opened Deferral
  import opened Queueing
  import opened Worker
  import opened Commits
  import opened Crawl

  const KEY: Key := "k"

  /** Everything at and below `root`, and nothing else, belongs to the volume and is accepted. */
  ghost predicate Whole(env: Setting, root: Path) {
    && root != [] && env.roots == map[KEY := [root]]
    && forall p :: Belongs(env, root, p)
  }

  predicate Belongs(env: Setting, root: Path, p: Path) {
    && env.volumeFor(p) == (if root <= p then Some(KEY) else None)
    && env.accepts(p) == (root <= p) && env.acceptsDirectory(p) == (root <= p) && !env.package(p)
  }

  /** There is such a configuration for every root below `/`. */
  lemma Configured(root: Path) returns (env: Env)
    requires root != []
    ensures Whole(env, root)
  {
    var owner := (path: Path) => if root <= path then Some(KEY) else None;
    var c := Configuration(map[KEY := [root]], owner, path => root <= path, path => root <= path, path => false);
    forall path: Path | root <= path ensures c.HasBest(path, KEY) && c.AcceptedRoot(path) {
      assert c.Best(path, KEY, 0);
      assert c.RootAt(path, 0);
    }
    env := c;
    forall p ensures Belongs(env, root, p) { }
  }

  predicate ClosedAt(tree: set<Path>, root: Path, d: Path, p: Path) {
    d in tree ==> root <= d && (root <= p <= d ==> p in tree)
  }

  lemma IsTree(env: Env, root: Path, tree: set<Path>)
    requires Whole(env, root) && forall d, p :: ClosedAt(tree, root, d, p)
    ensures Tree(env, tree)
  {
    forall d, p | d in tree && p <= d && env.volumeFor(p) == env.volumeFor(d) ensures p in tree {
      assert Belongs(env, root, p) && Belongs(env, root, d) && ClosedAt(tree, root, d, p);
    }
    forall d | d in tree ensures env.acceptsDirectory(d) && env.accepts(d) && !env.package(d) {
      assert Belongs(env, root, d) && ClosedAt(tree, root, d, d);
    }
  }

  // ---------------------------------------------------------------- runs

  /** Every step is one the index may take; nothing is said about what it keeps. */
  ghost predicate Takes(env: Setting, tree: set<Path>, s: State, steps: seq<Step>, s': State)
    decreases |steps|
  {
    if steps == [] then s' == s
    else Fair(env, tree, s, steps[0]) && Takes(env, tree, Next(env, tree, s, steps[0]), steps[1..], s')
  }

  lemma {:induction false} TakesChain(env: Setting, tree: set<Path>, s: State, a: seq<Step>, s1: State, b: seq<Step>, s2: State)
    requires Takes(env, tree, s, a, s1) && Takes(env, tree, s1, b, s2)
    ensures Takes(env, tree, s, a + b, s2)
    decreases |a|
  {
    if a == [] {
      assert a + b == b;
    } else {
      assert (a + b)[1..] == a[1..] + b;
      TakesChain(env, tree, Next(env, tree, s, a[0]), a[1..], s1, b, s2);
    }
  }

  lemma TakesOne(env: Setting, tree: set<Path>, s: State, step: Step, s': State)
    requires Fair(env, tree, s, step) && s' == Next(env, tree, s, step)
    ensures Takes(env, tree, s, [step], s')
  {
    assert [step][1..] == [];
  }

  lemma TakesThen(env: Setting, tree: set<Path>, s: State, a: seq<Step>, s1: State, step: Step, s2: State)
    requires Takes(env, tree, s, a, s1) && Fair(env, tree, s1, step) && s2 == Next(env, tree, s1, step)
    ensures Takes(env, tree, s, a + [step], s2)
  {
    TakesOne(env, tree, s1, step, s2);
    TakesChain(env, tree, s, a, s1, [step], s2);
  }

  lemma {:induction false} TakesIsAfter(env: Setting, tree: set<Path>, s: State, steps: seq<Step>, s': State)
    requires Takes(env, tree, s, steps, s')
    ensures s' == After(env, tree, s, steps)
    decreases |steps|
  {
    if steps != [] {
      TakesIsAfter(env, tree, Next(env, tree, s, steps[0]), steps[1..], s');
    }
  }

  // ---------------------------------------------------------------- single steps

  /** No row at or above `p` takes a request for `p` over. */
  predicate Free(jobs: map<Path, Row>, p: Path) {
    forall a :: a in jobs && a <= p ==> !jobs[a].recursive
  }

  lemma {:induction false} NoTarget(jobs: map<Path, Row>, p: Path, intent: Intent, a: Path)
    requires Free(jobs, p) && a <= p
    ensures FindTarget(jobs, KEY, p, intent, a) == None
    decreases |a|
  {
    if a != [] {
      NoTarget(jobs, p, intent, Parent(a));
    }
  }

  /** A request for `p` gets a row of its own or stays in that row. */
  ghost predicate Gains(t: Tables, t': Tables, p: Path, r: Request) {
    && t'.deferred == t.deferred && t'.jobs.Keys == t.jobs.Keys + {p}
    && (forall q :: q in t.jobs && q != p ==> t'.jobs[q] == t.jobs[q])
    && t'.jobs[p].volume == (if p in t.jobs then t.jobs[p].volume else KEY)
    && t'.jobs[p].generation == (if p in t.jobs then t.jobs[p].generation + 1 else 1)
    && t'.jobs[p].recursive == (r.recursive || (p in t.jobs && t.jobs[p].recursive))
    && t'.jobs[p].baseline == (r.baseline || (p in t.jobs && t.jobs[p].baseline))
    && t'.jobs[p].failed == (p in t.jobs && t.jobs[p].failed)
    && t'.jobs[p].attempts == (if p in t.jobs then t.jobs[p].attempts else 0)
  }

  ghost function Placed(t: Tables, p: Path, deep: bool, intent: Intent): Tables {
    var t1 := Upsert(t, p, KEY, deep, intent);
    if Promotes(t, p, intent) then MoveToTail(t1, p) else t1
  }

  lemma PlacedGains(t: Tables, p: Path, r: Request)
    requires r.path == p
    ensures var intent := IntentOf(r.recursive, r.baseline, r.due, r.preserve); var t' := Placed(t, p, r.recursive, intent);
            && Gains(t, t', p, r) && t'.jobs[p].scope >= EffectiveScope(t.jobs, p, intent)
            && (p !in t.jobs ==> t'.jobs[p].scope == EffectiveScope(t.jobs, p, intent))
            && (p in t.jobs && t.jobs[p].scope <= EffectiveScope(t.jobs, p, intent) ==> t'.jobs[p].scope == EffectiveScope(t.jobs, p, intent))
  {
  }

  lemma ShallowGains(env: Setting, root: Path, active: Option<Job>, t: Tables, p: Path)
    requires Whole(env, root) && !Deferring(active) && root <= p && Free(t.jobs, p)
    ensures var r := Request(p, KEY, false, false, 0.0, false); var t' := QueueRequest(env, active, t, r);
            Gains(t, t', p, r) && t'.jobs[p].scope >= 1 && (p !in t.jobs ==> t'.jobs[p].scope == 1)
  {
    assert Belongs(env, root, p);
    NoTarget(t.jobs, p, IntentOf(false, false, 0.0, false), p);
    PlacedGains(t, p, Request(p, KEY, false, false, 0.0, false));
  }

  lemma RecursiveGains(env: Setting, root: Path, t: Tables, p: Path, baseline: bool, preserve: bool)
    requires Whole(env, root) && root <= p && Free(t.jobs, p) && p !in t.jobs && (forall q :: q in t.jobs ==> !(p < q))
    ensures var r := Request(p, KEY, true, baseline, 0.0, preserve); var t' := QueueRequest(env, None, t, r);
            Gains(t, t', p, r) && t'.jobs[p].scope == (if baseline || preserve then 0 else 2)
  {
    var intent := IntentOf(true, baseline, 0.0, preserve);
    assert Belongs(env, root, p);
    NoTarget(t.jobs, p, intent, p);
    PlacedGains(t, p, Request(p, KEY, true, baseline, 0.0, preserve));
    NothingToAbsorb(Placed(t, p, true, intent).jobs, p);
  }

  /** A shallow request coalesces into the recursive row at its own directory. */
  lemma CoalesceGains(env: Setting, root: Path, t: Tables, p: Path)
    requires Whole(env, root) && root <= p && p in t.jobs && t.jobs[p].volume == KEY && t.jobs[p].recursive && t.jobs[p].scope == 0
    requires forall q :: q in t.jobs ==> !(p < q)
    ensures var r := Request(p, KEY, false, false, 0.0, false); var t' := QueueRequest(env, None, t, r);
            Gains(t, t', p, r) && t'.jobs[p].scope == 1
  {
    var intent := IntentOf(false, false, 0.0, false);
    assert Belongs(env, root, p);
    assert FindTarget(t.jobs, KEY, p, intent, p) == Some(p);
    PlacedGains(t, p, Request(p, KEY, false, false, 0.0, false));
    assert Placed(t, p, true, intent) == Placed(t, p, false, intent);
    NothingToAbsorb(Placed(t, p, true, intent).jobs, p);
  }

  lemma NothingToAbsorb(jobs: map<Path, Row>, p: Path)
    requires p in jobs && p != [] && forall q :: q in jobs ==> !(p < q)
    ensures Absorb(jobs, p, KEY) == jobs
  {
  }

  lemma DrainNothing(env: Setting, t: Tables)
    requires t.deferred == []
    ensures Drain(env, t) == t
  {
    assert t.(deferred := []) == t && DeferredRequests(t.deferred) == [];
  }

  /** A selection with nothing set aside and nothing to retry. */
  lemma Selects(env: Setting, tree: set<Path>, s: State, p: Path)
    requires s.active == None && s.receipts == map[] && s.t.deferred == [] && p in s.t.jobs
    ensures Next(env, tree, s, Select({}, [], Some(p))) == s.(active := Some(Snapshot(s.t, p, s.clock)))
  {
    DrainNothing(env, s.t);
    var s' := SelectStep(env, s, {}, [], Some(p));
    assert s'.receipts == map[];
  }

  /** An error-free observation, in one turn, of the directory of `job`: one listed child. */
  function Turn(p: Path, child: Path, known: set<Path>): Observation {
    Observation(p, None, true, false, [child], {p}, known, {}, [])
  }

  lemma TurnRequests(env: Setting, root: Path, job: Job, child: Path, known: set<Path>)
    requires Whole(env, root) && root <= child
    ensures var o := Turn(job.path, child, known);
            && ParentRequests(env, job, o) == []
            && ChildRequests(env, job, o, o.children)
               == if job.ScansRecursively() || child !in known
                  then [Request(child, job.volume, true, job.ScansBaseline(), 0.0, true)] else []
  {
    assert Belongs(env, root, child);
    assert [child][1..] == [];
    assert ChildRequests(env, job, Turn(job.path, child, known), []) == [];
  }

  /** The turn deletes its row and queues its child, if it does. */
  lemma TurnFinishes(env: Setting, root: Path, t: Tables, job: Job, child: Path, known: set<Path>)
    requires Whole(env, root) && t.deferred == [] && root <= child && Deletes(t, job)
    ensures var t1 := t.(jobs := t.jobs - {job.path});
            var t' := Finish(env, t, job, Turn(job.path, child, known), 0.0);
            if job.ScansRecursively() || child !in known
            then var t2 := QueueRequest(env, None, t1, Request(child, job.volume, true, job.ScansBaseline(), 0.0, true));
                 t2.deferred == [] ==> t' == t2
            else t' == t1
  {
    var o := Turn(job.path, child, known);
    var t1 := t.(jobs := t.jobs - {job.path});
    TurnRequests(env, root, job, child, known);
    assert Acknowledge(t, job, true) == t1;
    if job.ScansRecursively() || child !in known {
      var r := Request(child, job.volume, true, job.ScansBaseline(), 0.0, true);
      QueueOne(env, None, t1, r);
      if QueueRequest(env, None, t1, r).deferred == [] {
        DrainNothing(env, QueueRequest(env, None, t1, r));
      }
    } else {
      DrainNothing(env, t1);
    }
  }

  lemma TurnIsClean(env: Setting, job: Job, child: Path, known: set<Path>)
    ensures !Erred(env, job, Turn(job.path, child, known))
  {
  }

  /** A turn without a receipt: the active job is the one observed. */
  lemma TurnCommits(env: Setting, tree: set<Path>, s: State, child: Path, known: set<Path>)
    requires s.active.Some? && s.receipts == map[]
    ensures var job := s.active.value; var o := Turn(job.path, child, known);
            var s' := Next(env, tree, s, Commit(o, 0.0)); var t' := Finish(env, s.t, job, o, 0.0);
            && s'.t == t' && s'.active == None && s'.receipts == map[] && s'.pending == s.pending && s'.clock == s.clock
            && s'.baselineComplete == !BaselineLeft(t', s.pending) && s'.done == s.done + {job.path}
            && s'.owed == (if job.path in s.owed && s.owed[job.path] <= job.began then s.owed - {job.path} else s.owed)
  {
    TurnIsClean(env, s.active.value, child, known);
    assert s.receipts - {s.active.value.path} == map[];
  }

  /** The tree of the example satisfies what the reconciler promises about a turn that lists its child. */
  lemma TurnIsFair(env: Setting, tree: set<Path>, s: State, child: Path, known: set<Path>)
    requires s.active.Some? && s.receipts == map[]
    requires forall c :: c in tree && s.active.value.path < c && Parent(c) == s.active.value.path ==> c == child
    ensures Fair(env, tree, s, Commit(Turn(s.active.value.path, child, known), 0.0))
  {
    assert Staged(s, Turn(s.active.value.path, child, known)) == s.active.value;
  }

  lemma Intakes(env: Setting, tree: set<Path>, s: State, p: Path, recursive: bool)
    ensures var s' := Next(env, tree, s, Intake(p, KEY, recursive));
            && s'.t == QueueRequest(env, s.active, s.t, Request(p, KEY, recursive, false, 0.0, false))
            && s' == s.(t := s'.t, clock := s.clock + 1, owed := s'.owed)
            && (forall d :: d in s.owed && d !in Asked(env, tree, p, recursive) ==> d in s'.owed && s'.owed[d] == s.owed[d])
            && (forall d :: d in Asked(env, tree, p, recursive) ==> d in s'.owed && s'.owed[d] == s.clock + 1)
  {
  }
}
