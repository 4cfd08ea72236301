/** A quiet baseline walk: with one volume, a static tree and no other work, `work` observes every
    directory exactly once and then reports that nothing is left. */
module Walk {
  import opened Paths
  import opened JobTable
  import opened Scheduler
  import opened Worker
  import opened IndexState

  /** What the disk shows: the directories to crawl and the subdirectories each one lists. */
  datatype Disk = Disk(tree: set<Path>, lists: Path -> seq<Path>)

  predicate Unrelated(p: Path, q: Path) { !(p <= q) && !(q <= p) }

  ghost predicate Crawlable(env: Setting, key: Key, p: Path) {
    env.volumeFor(p) == Some(key) && env.acceptsDirectory(p)
  }

  function Elements(due: seq<Path>): set<Path> { set p | p in due }

  predicate Hangs(tree: set<Path>, roots: set<Path>, p: Path) { p in tree ==> p in roots || (p != [] && Parent(p) in tree) }

  predicate Alone(roots: set<Path>, p: Path, q: Path) { p in roots && q in roots && p <= q ==> p == q }

  /** The tree hangs on the roots, and no root lies below another. */
  ghost predicate Rooted(tree: set<Path>, roots: set<Path>) {
    roots <= tree && (forall p :: Hangs(tree, roots, p)) && (forall p, q :: Alone(roots, p, q))
  }

  ghost predicate Shown(env: Setting, key: Key, disk: Disk, p: Path) {
    p in disk.tree ==> Crawlable(env, key, p) && ListsTree(env, disk, p)
  }

  ghost predicate Static(env: Setting, key: Key, disk: Disk) {
    env.BelowTop() && key in env.roots && Rooted(disk.tree, Elements(env.roots[key])) && forall p :: Shown(env, key, disk, p)
  }

  /** Listed subdirectories that are accepted and no package are exactly the tree's children. */
  ghost predicate ListsTree(env: Setting, disk: Disk, p: Path) {
    && (forall i :: 0 <= i < |disk.lists(p)| ==> p < disk.lists(p)[i] && Parent(disk.lists(p)[i]) == p)
    && (forall i, j :: 0 <= i < j < |disk.lists(p)| ==> disk.lists(p)[i] != disk.lists(p)[j])
    && (forall c :: c in disk.lists(p) && env.accepts(c) && !env.package(c) ==> c in disk.tree)
    && (forall c :: c in disk.tree && p < c && Parent(c) == p ==> c in disk.lists(p) && env.accepts(c) && !env.package(c))
  }

  predicate Plain(row: Row, key: Key) {
    row.volume == key && row.recursive && row.baseline && !row.failed && row.attempts == 0 && row.scope == 0 && row.due == 0.0
  }

  /** One observation in one turn, without an error: what it lists, and nothing recorded before. */
  function Seen(disk: Disk, known: set<Path>, p: Path): Observation {
    Observation(p, None, true, false, disk.lists(p), {p}, known, {}, [])
  }

  ghost predicate Rows(t: Tables, key: Key) { t.deferred == [] && forall p :: p in t.jobs ==> Plain(t.jobs[p], key) }

  predicate Clear(front: set<Path>, p: Path, q: Path) { p in front && q in front && p != q ==> Unrelated(p, q) }

  /** No directory of the frontier lies below another. */
  ghost predicate Spread(front: set<Path>) { forall p, q :: Clear(front, p, q) }

  predicate Under(front: set<Path>, d: Path) { exists p :: p in front && p <= d }

  /** Nothing at or below the frontier was observed, and everything else of the tree was. */
  ghost predicate Front(disk: Disk, front: set<Path>, seen: set<Path>) {
    && front <= disk.tree && seen <= disk.tree && Spread(front)
    && forall d :: d in disk.tree ==> (d in seen <==> !Under(front, d))
  }

  ghost predicate NoRepeats(trace: seq<Path>) { forall i, j :: 0 <= i < j < |trace| ==> trace[i] != trace[j] }

  // ---------------------------------------------------------------- a directory joins the frontier

  lemma {:induction false} NoTarget(t: Tables, key: Key, path: Path, intent: Intent, ancestor: Path)
    requires ancestor <= path && forall p :: p in t.jobs ==> Unrelated(p, path)
    ensures FindTarget(t.jobs, key, path, intent, ancestor) == None
    decreases |ancestor|
  {
    if ancestor != [] {
      NoTarget(t, key, path, intent, Parent(ancestor));
    }
  }

  lemma InsertsAlone(t: Tables, key: Key, path: Path, intent: Intent)
    requires path !in t.jobs && forall p :: p in t.jobs ==> Unrelated(p, path)
    requires intent.recursive && intent.baseline && intent.scope == 0 && intent.due == 0.0 && Rows(t, key)
    requires path != []
    ensures var t1 := Upsert(t, path, key, true, intent);
            && Absorb(t1.jobs, path, key) == t1.jobs && Rows(t1, key) && t1.jobs.Keys == t.jobs.Keys + {path}
  {
    var t1 := Upsert(t, path, key, true, intent);
    forall p | p in t1.jobs && p != path ensures !(path < p) {
      assert Unrelated(p, path);
    }
  }

  lemma Joins(env: Env, key: Key, t: Tables, path: Path, front: set<Path>, preserve: bool)
    requires Rows(t, key) && Crawlable(env, key, path)
    requires path !in t.jobs && t.jobs.Keys + {path} <= front && Spread(front)
    ensures var t' := QueueRequest(env, None, t, Request(path, key, true, true, 0.0, preserve));
            Rows(t', key) && t'.jobs.Keys == t.jobs.Keys + {path}
  {
    var intent := IntentOf(true, true, 0.0, preserve);
    forall p | p in t.jobs ensures Unrelated(p, path) {
      assert Clear(front, p, path);
    }
    NoTarget(t, key, path, intent, path);
    env.TopHasNoVolume();
    InsertsAlone(t, key, path, intent);
  }

  /** The children of an observed directory, or the roots at bootstrap. */
  ghost function Requests(due: seq<Path>, key: Key, preserve: seq<bool>): seq<Request>
    requires |preserve| == |due|
  {
    seq(|due|, i requires 0 <= i < |due| => Request(due[i], key, true, true, 0.0, preserve[i]))
  }

  lemma {:induction false} AllJoin(env: Env, key: Key, t: Tables, due: seq<Path>, preserve: seq<bool>, front: set<Path>)
    requires Rows(t, key) && |preserve| == |due| && NoRepeats(due) && Spread(front)
    requires front == t.jobs.Keys + Elements(due) && t.jobs.Keys !! Elements(due)
    requires forall p :: p in due ==> Crawlable(env, key, p)
    ensures var t' := QueueAll(env, None, t, Requests(due, key, preserve)); Rows(t', key) && t'.jobs.Keys == front
    decreases |due|
  {
    if due == [] {
      assert Requests(due, key, preserve) == [];
    } else {
      FirstOf(due);
      Joins(env, key, t, due[0], front, preserve[0]);
      var t1 := QueueRequest(env, None, t, Request(due[0], key, true, true, 0.0, preserve[0]));
      AllJoin(env, key, t1, due[1..], preserve[1..], front);
      RequestsTail(due, key, preserve);
    }
  }

  lemma RequestsTail(due: seq<Path>, key: Key, preserve: seq<bool>)
    requires due != [] && |preserve| == |due|
    ensures Requests(due, key, preserve)[1..] == Requests(due[1..], key, preserve[1..])
  {
  }

  lemma FirstOf(due: seq<Path>)
    requires due != [] && NoRepeats(due)
    ensures Elements(due) == {due[0]} + Elements(due[1..]) && due[0] !in Elements(due[1..]) && NoRepeats(due[1..])
    ensures forall p :: p in due[1..] ==> p in due
  {
    assert due == [due[0]] + due[1..];
  }

  // ---------------------------------------------------------------- one turn of the walk

  function Accepted(env: Setting, children: seq<Path>): seq<Path> {
    if children == [] then []
    else
      var rest := Accepted(env, children[1..]);
      if env.accepts(children[0]) && !env.package(children[0]) then [children[0]] + rest else rest
  }

  lemma {:induction false} AcceptedMembers(env: Env, children: seq<Path>)
    ensures forall c :: c in Accepted(env, children) <==> c in children && env.accepts(c) && !env.package(c)
    ensures (forall i, j :: 0 <= i < j < |children| ==> children[i] != children[j]) ==>
              forall i, j :: 0 <= i < j < |Accepted(env, children)| ==> Accepted(env, children)[i] != Accepted(env, children)[j]
    decreases |children|
  {
    if children != [] {
      AcceptedMembers(env, children[1..]);
      assert children == [children[0]] + children[1..];
    }
  }

  lemma {:induction false} ChildrenAreRequests(env: Env, job: Job, o: Observation, children: seq<Path>)
    requires job.recursive && job.baseline && job.scope == 0
    ensures var due := Accepted(env, children);
            ChildRequests(env, job, o, children) == Requests(due, job.volume, seq(|due|, i => true))
    decreases |children|
  {
    if children != [] {
      ChildrenAreRequests(env, job, o, children[1..]);
    }
  }

  /** No root lies below another directory of the tree. */
  lemma {:induction false} RootNotBelow(tree: set<Path>, roots: set<Path>, p: Path, d: Path)
    requires Rooted(tree, roots) && p in tree && d in roots
    ensures !(p < d)
    decreases |p|
  {
    assert Hangs(tree, roots, p) && Alone(roots, p, d);
    if p !in roots {
      RootNotBelow(tree, roots, Parent(p), d);
    }
  }

  /** Below a directory of the tree, parents are in the tree. */
  ghost predicate Joined(tree: set<Path>) { forall p, d :: Linked(tree, p, d) }

  predicate Linked(tree: set<Path>, p: Path, d: Path) { p in tree && d in tree && p < d ==> Parent(d) in tree }

  lemma TreeJoined(tree: set<Path>, roots: set<Path>)
    requires Rooted(tree, roots)
    ensures Joined(tree)
  {
    forall p, d ensures Linked(tree, p, d) {
      assert Hangs(tree, roots, d);
      if p in tree && d in roots {
        RootNotBelow(tree, roots, p, d);
      }
    }
  }

  predicate Child(tree: set<Path>, p: Path, c: Path) { c in tree && p < c && Parent(c) == p }

  /** Whatever the tree holds below `p` hangs on a child of `p` in the tree. */
  lemma {:induction false} ChildTowards(tree: set<Path>, p: Path, d: Path)
    requires Joined(tree) && p in tree && d in tree && p < d
    ensures Child(tree, p, Toward(p, d))
    decreases |d|
  {
    assert Linked(tree, p, d);
    if Parent(d) != p {
      assert p < Parent(d) && Toward(p, Parent(d)) == Toward(p, d);
      ChildTowards(tree, p, Parent(d));
    } else {
      assert Toward(p, d) == d;
    }
  }

  lemma DueAreChildren(env: Env, disk: Disk, p: Path)
    requires ListsTree(env, disk, p)
    ensures var due := Accepted(env, disk.lists(p)); NoRepeats(due) && forall c :: c in due <==> Child(disk.tree, p, c)
  {
    AcceptedMembers(env, disk.lists(p));
  }

  lemma ChildrenReplace(front: set<Path>, p: Path, due: seq<Path>)
    requires Spread(front) && p in front && NoRepeats(due) && forall c :: c in due ==> p < c && Parent(c) == p
    ensures Spread(Opened(front, p, due)) && front !! Elements(due)
  {
    var front' := Opened(front, p, due);
    forall c | c in due ensures c !in front {
      assert Clear(front, p, c);
    }
    forall q, c ensures Clear(front', q, c) {
      assert Clear(front, q, c) && Clear(front, q, p) && Clear(front, p, c);
    }
  }

  function Opened(front: set<Path>, p: Path, due: seq<Path>): set<Path> { front - {p} + Elements(due) }

  lemma PassesDown(tree: set<Path>, front: set<Path>, p: Path, due: seq<Path>, d: Path)
    requires Joined(tree) && front <= tree && p in front && d in tree && d != p && Under(front, d)
    requires forall c :: Child(tree, p, c) ==> c in due
    ensures Under(Opened(front, p, due), d)
  {
    var q :| q in front && q <= d;
    if q == p {
      ChildTowards(tree, p, d);
      assert Toward(p, d) in Opened(front, p, due);
    } else {
      assert q in Opened(front, p, due);
    }
  }

  lemma PassesUp(front: set<Path>, p: Path, due: seq<Path>, d: Path)
    requires Spread(front) && p in front && Under(Opened(front, p, due), d)
    requires forall c :: c in due ==> p < c
    ensures Under(front, d) && d != p
  {
    var q :| q in Opened(front, p, due) && q <= d;
    if q in due {
      assert p <= d;
    } else {
      assert q in front && Clear(front, p, q);
    }
  }

  lemma FrontMoves(disk: Disk, front: set<Path>, seen: set<Path>, p: Path, due: seq<Path>)
    requires Joined(disk.tree) && Front(disk, front, seen) && p in front
    requires NoRepeats(due) && forall c :: c in due <==> Child(disk.tree, p, c)
    ensures Front(disk, Opened(front, p, due), seen + {p}) && p !in seen
  {
    var front' := Opened(front, p, due);
    ChildrenReplace(front, p, due);
    assert Under(front, p);
    forall d | d in disk.tree ensures d in seen + {p} <==> !Under(front', d) {
      if Under(front', d) {
        PassesUp(front, p, due, d);
      } else if d != p && Under(front, d) {
        PassesDown(disk.tree, front, p, due, d);
      }
    }
  }

  lemma TurnWalks(env: Env, key: Key, disk: Disk, t: Tables, seen: set<Path>, known: set<Path>, p: Path, clock: nat, now: real)
    requires Static(env, key, disk) && Rows(t, key) && Front(disk, t.jobs.Keys, seen) && p in t.jobs
    ensures var t' := Finish(env, t, Snapshot(t, p, clock), Seen(disk, known, p), now);
            Rows(t', key) && Front(disk, t'.jobs.Keys, seen + {p}) && p !in seen
  {
    var job := Snapshot(t, p, clock);
    var o := Seen(disk, known, p);
    var t1 := t.(jobs := t.jobs - {p});
    var due := Accepted(env, disk.lists(p));
    assert Shown(env, key, disk, p);
    DueAreChildren(env, disk, p);
    assert forall c :: c in due ==> Shown(env, key, disk, c);
    TreeJoined(disk.tree, Elements(env.roots[key]));
    FrontMoves(disk, t.jobs.Keys, seen, p, due);
    ChildrenReplace(t.jobs.Keys, p, due);
    AllJoin(env, key, t1, due, seq(|due|, i => true), Opened(t.jobs.Keys, p, due));
    ChildrenAreRequests(env, job, o, o.children);
    FinishIsQueueing(env, t, job, o, now);
  }

  lemma FinishIsQueueing(env: Env, t: Tables, job: Job, o: Observation, now: real)
    requires o.errors == [] && o.listed != {} && !OrdinaryTurn(job) && Acknowledges(t, job)
    requires QueueAll(env, None, t.(jobs := t.jobs - {job.path}), ChildRequests(env, job, o, o.children)).deferred == []
    ensures Finish(env, t, job, o, now)
            == QueueAll(env, None, t.(jobs := t.jobs - {job.path}), ChildRequests(env, job, o, o.children))
  {
    var t3 := QueueAll(env, None, t.(jobs := t.jobs - {job.path}), ChildRequests(env, job, o, o.children));
    assert ParentRequests(env, job, o) == [];
    assert t3.(deferred := []) == t3 && DeferredRequests([]) == [];
  }

  // ---------------------------------------------------------------- the whole walk

  /** Nothing but the volume's roots is pending. */
  ghost predicate Untouched(env: Setting, key: Key, t: Tables, pending: seq<Pending>) {
    && key in env.roots && t.jobs == map[] && t.deferred == []
    && |pending| == |env.roots[key]| && NoRepeats(env.roots[key])
    && forall i :: 0 <= i < |pending| ==> pending[i].root == env.roots[key][i] && pending[i].key == key
  }

  ghost predicate Fresh(env: Setting, key: Key, s: State) { Untouched(env, key, s.t, s.pending) && s.active == None && s.receipts == map[] }

  lemma RootsFront(disk: Disk, roots: set<Path>)
    requires Rooted(disk.tree, roots)
    ensures Front(disk, roots, {})
  {
    forall p, q ensures Clear(roots, p, q) {
      assert Alone(roots, p, q) && Alone(roots, q, p);
    }
    forall d | d in disk.tree ensures Under(roots, d) {
      BelowARoot(disk.tree, roots, d);
    }
  }

  lemma {:induction false} BelowARoot(tree: set<Path>, roots: set<Path>, d: Path)
    requires Rooted(tree, roots) && d in tree
    ensures Under(roots, d)
    decreases |d|
  {
    assert Hangs(tree, roots, d);
    if d !in roots {
      BelowARoot(tree, roots, Parent(d));
    }
  }

  function Preserves(pending: seq<Pending>): seq<bool> {
    seq(|pending|, i requires 0 <= i < |pending| => pending[i].preserve)
  }

  lemma PendingRequests(pending: seq<Pending>, due: seq<Path>, key: Key)
    requires |pending| == |due| && forall i :: 0 <= i < |pending| ==> pending[i].root == due[i] && pending[i].key == key
    ensures BootstrapRequests(pending) == Requests(due, key, Preserves(pending))
  {
  }

  lemma RootsCrawlable(env: Env, key: Key, disk: Disk)
    requires Static(env, key, disk)
    ensures forall p :: p in env.roots[key] ==> Crawlable(env, key, p)
  {
    forall p | p in env.roots[key] ensures Crawlable(env, key, p) {
      assert p in Elements(env.roots[key]) && Shown(env, key, disk, p);
    }
  }

  lemma Bootstraps(env: Env, key: Key, disk: Disk, t: Tables, pending: seq<Pending>)
    requires Static(env, key, disk) && Untouched(env, key, t, pending)
    ensures var t' := QueueAll(env, None, t, BootstrapRequests(pending));
            Rows(t', key) && Front(disk, t'.jobs.Keys, {})
  {
    var due := env.roots[key];
    RootsFront(disk, Elements(due));
    RootsCrawlable(env, key, disk);
    AllJoin(env, key, t, due, Preserves(pending), Elements(due));
    PendingRequests(pending, due, key);
  }

  /** Plain rows are due at once, so nothing ready means an empty table. */
  lemma SomethingReady(t: Tables, key: Key, look: Look)
    requires Rows(t, key) && look.wall >= 0.0 && look.inactive == {}
    ensures t.jobs != map[] ==> ReadyClasses(t.jobs, look) != {}
  {
    if t.jobs != map[] {
      var p :| p in t.jobs;
      assert ClassOf(t.jobs[p], look.startup) in ReadyClasses(t.jobs, look);
    }
  }

  lemma IdleSelect(env: Setting, t: Tables)
    requires t.deferred == []
    ensures QueueRetries(env, Drain(env, t), []) == t
  {
    assert t.(deferred := []) == t && DeferredRequests([]) == [];
  }

  lemma LeftExactly(t: Tables, key: Key)
    requires Rows(t, key)
    ensures BaselineLeft(t, []) <==> t.jobs != map[]
  {
    if t.jobs != map[] {
      var p :| p in t.jobs;
      assert Plain(t.jobs[p], key);
    }
  }

  ghost predicate Honest(index: Index) reads index { index.baselineComplete <==> index.jobs == map[] }

  ghost predicate Resting(index: Index) reads index { index.active == None && index.pending == [] }

  ghost predicate Selected(index: Index, p: Path) reads index {
    p in index.jobs && index.active == Some(Snapshot(index.Table(), p, index.clock))
  }

  method Pick(index: Index, key: Key) returns (picked: Option<Path>)
    requires Rows(index.Table(), key) && index.selector.Here().Valid() && Resting(index) && Honest(index)
    modifies index, index.selector
    ensures index.selector.Here().Valid() && Honest(index) && index.pending == []
    ensures index.jobs == old(index.jobs) && Rows(index.Table(), key)
    ensures picked.None? ==> index.jobs == map[]
    ensures picked.Some? ==> Selected(index, picked.value)
  {
    var wall :| wall >= 0.0;
    var now: real := *;
    IdleSelect(index.env, index.Table());
    SomethingReady(index.Table(), key, Look(index.startup, {}, {}, wall, now));
    picked := index.Select({}, [], {}, {}, wall, now);
  }

  method Observe(index: Index, key: Key, disk: Disk, known: set<Path>, p: Path, trace: seq<Path>) returns (longer: seq<Path>)
    requires Static(index.env, key, disk) && index.pending == [] && Selected(index, p)
    requires Rows(index.Table(), key) && Front(disk, index.jobs.Keys, Elements(trace)) && NoRepeats(trace)
    modifies index
    ensures Rows(index.Table(), key) && Front(disk, index.jobs.Keys, Elements(longer)) && NoRepeats(longer)
    ensures disk.tree - Elements(longer) < disk.tree - Elements(trace)
    ensures Resting(index) && Honest(index) && index.selector.Here() == old(index.selector.Here())
  {
    var later: real := *;
    TurnWalks(index.env, key, disk, index.Table(), Elements(trace), known, p, index.clock, later);
    index.Commit(Seen(disk, known, p), later);
    LeftExactly(index.Table(), key);
    Longer(trace, p);
    longer := trace + [p];
  }

  method Start(index: Index, key: Key, disk: Disk)
    requires Static(index.env, key, disk) && Fresh(index.env, key, index.Whole())
    modifies index
    ensures Rows(index.Table(), key) && Front(disk, index.jobs.Keys, {})
    ensures Resting(index) && Honest(index) && index.selector.Here() == old(index.selector.Here())
  {
    ghost var t := QueueAll(index.env, None, index.Table(), BootstrapRequests(index.pending));
    Bootstraps(index.env, key, disk, index.Table(), index.pending);
    index.Bootstrap();
    assert index.Table() == t;
    assert index.jobs == t.jobs;
    LeftExactly(index.Table(), key);
  }

  ghost predicate Walks(index: Index, key: Key, disk: Disk, trace: seq<Path>, picked: Option<Path>)
    reads index, index.selector
  {
    && index.selector.Here().Valid() && index.pending == [] && Honest(index)
    && Rows(index.Table(), key) && Front(disk, index.jobs.Keys, Elements(trace)) && NoRepeats(trace)
    && (if picked.Some? then Selected(index, picked.value) else index.jobs == map[])
  }

  /** The observation of the selected directory, and the next selection. */
  method Turn(index: Index, key: Key, disk: Disk, known: set<Path>, trace: seq<Path>, p: Path)
    returns (longer: seq<Path>, picked: Option<Path>)
    requires Static(index.env, key, disk) && Walks(index, key, disk, trace, Some(p))
    modifies index, index.selector
    ensures Walks(index, key, disk, longer, picked) && disk.tree - Elements(longer) < disk.tree - Elements(trace)
  {
    longer := Observe(index, key, disk, known, p, trace);
    picked := Pick(index, key);
  }

  /** `work` until it reports that nothing is left, for any clock readings and any tie in the order:
      the trace holds every directory of the tree once, the table is empty, the baseline complete. */
  method QuietWalk(index: Index, key: Key, disk: Disk, known: set<Path>) returns (trace: seq<Path>)
    requires Static(index.env, key, disk) && Fresh(index.env, key, index.Whole()) && index.selector.Here().Valid()
    modifies index, index.selector
    ensures NoRepeats(trace) && Elements(trace) == disk.tree
    ensures index.jobs == map[] && index.deferred == [] && index.baselineComplete
  {
    Start(index, key, disk);
    trace := [];
    var picked := Pick(index, key);
    while picked.Some?
      invariant Walks(index, key, disk, trace, picked)
      decreases disk.tree - Elements(trace)
    {
      trace, picked := Turn(index, key, disk, known, trace, picked.value);
    }
    Emptied(disk, index.jobs.Keys, Elements(trace));
  }

  lemma Emptied(disk: Disk, front: set<Path>, seen: set<Path>)
    requires Front(disk, front, seen) && front == {}
    ensures seen == disk.tree
  {
    forall d | d in disk.tree ensures d in seen {
      assert !Under(front, d);
    }
  }

  lemma Longer(trace: seq<Path>, p: Path)
    requires NoRepeats(trace) && p !in Elements(trace)
    ensures NoRepeats(trace + [p]) && Elements(trace + [p]) == Elements(trace) + {p}
  {
  }
}
