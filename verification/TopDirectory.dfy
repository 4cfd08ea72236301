/** `/` as a root. The range below `/` holds `/` itself (`Paths.InRange`), so a queue operation that
    lands there deletes its own row when that is clean baseline work. */
module TopDirectory {
  import opened Paths
  import opened JobTable
  import opened Coverage
  import opened Queueing
  import opened Worker

  const TOP: Path := []

  /** Baseline work without a request of its own and without an error. */
  predicate Clean(row: Row) { row.baseline && row.scope == 0 && !row.failed }

  /** The row a recursive queue operation leaves at its target before it deletes what it takes over. */
  ghost function Landed(t: Tables, target: Path, key: Key, intent: Intent): Row {
    var row := Upsert(t, target, key, true, intent).jobs[target];
    row.(baseline := row.baseline || Inherits(t.jobs, target, key))
  }

  lemma OwnRange(jobs: map<Path, Row>, target: Path, key: Key)
    requires target in jobs && jobs[target].volume == key
    ensures target in Absorb(jobs, target, key)
            <==> target != TOP || !Clean(jobs[target].(baseline := jobs[target].baseline || Inherits(jobs, target, key)))
  {
  }

  predicate Inherits(jobs: map<Path, Row>, target: Path, key: Key) {
    exists p :: p in jobs && jobs[p].volume == key && InRange(p, target) && jobs[p].baseline
  }

  lemma UpsertInherits(t: Tables, target: Path, key: Key, intent: Intent)
    requires target in t.jobs ==> t.jobs[target].volume == key
    ensures var t1 := Upsert(t, target, key, true, intent);
            && t1.jobs[target].volume == key
            && (t1.jobs[target].baseline || Inherits(t1.jobs, target, key)
                <==> t1.jobs[target].baseline || Inherits(t.jobs, target, key))
  {
    var t1 := Upsert(t, target, key, true, intent);
    assert forall p :: p in t.jobs && p != target ==> p in t1.jobs && t1.jobs[p] == t.jobs[p];
    assert target in t.jobs && t.jobs[target].baseline ==> t1.jobs[target].baseline;
  }

  lemma TailInherits(t: Tables, target: Path, key: Key)
    requires target in t.jobs
    ensures var t' := MoveToTail(t, target);
            && t'.jobs[target] == t.jobs[target].(rowid := t'.jobs[target].rowid)
            && Inherits(t'.jobs, target, key) == Inherits(t.jobs, target, key)
  {
    var t' := MoveToTail(t, target);
    assert t'.jobs.Keys == t.jobs.Keys && forall p :: p in t.jobs ==> t'.jobs[p].volume == t.jobs[p].volume && t'.jobs[p].baseline == t.jobs[p].baseline;
  }

  lemma UpsertLands(t: Tables, target: Path, key: Key, intent: Intent)
    requires target in t.jobs ==> t.jobs[target].volume == key
    ensures var t1 := Upsert(t, target, key, true, intent);
            var t2 := if Promotes(t, target, intent) then MoveToTail(t1, target) else t1;
            target in Absorb(t2.jobs, target, key) <==> target != TOP || !Clean(Landed(t, target, key, intent))
  {
    var t1 := Upsert(t, target, key, true, intent);
    UpsertInherits(t, target, key, intent);
    TailInherits(t1, target, key);
    OwnRange(if Promotes(t, target, intent) then MoveToTail(t1, target).jobs else t1.jobs, target, key);
  }

  /** After a recursive queue operation its own row is in the table if and only if it lies below `/`
      or is not clean baseline work. */
  lemma LandsIff(env: Setting, active: Option<Job>, t: Tables, path: Path, key0: Key, intent: Intent)
    requires env.acceptsDirectory(path) && !Defers(env, active, path, key0)
    requires DeepIntent(env, t, path, key0, intent) && Owned(env, t)
    ensures var target := TargetOf(env, t, path, key0, intent);
            target in QueueIntent(env, active, t, path, key0, intent).jobs
            <==> target != TOP || !Clean(Landed(t, target, env.VolumeOr(path, key0), intent))
  {
    assert env.AcceptedRoot(path);
    FindTargetIsAbove(t.jobs, env.VolumeOr(path, key0), path, intent, path);
    UpsertLands(t, TargetOf(env, t, path, key0, intent), env.VolumeOr(path, key0), intent);
  }

  /** Bootstrap into an empty table keeps its root's row if and only if the root is not `/`; for `/`
      the flag reports a complete baseline although nothing was observed. */
  lemma BootstrapKeepsIff(env: Setting, tree: set<Path>, s: State, root: Path, key: Key, preserve: bool)
    requires env.acceptsDirectory(root) && s.active == None && s.t.jobs == map[] && s.t.deferred == []
    requires s.pending == [Pending(root, key, preserve)]
    ensures var s' := Next(env, tree, s, Bootstrap);
            && (root in s'.t.jobs <==> root != TOP) && (s'.baselineComplete <==> root == TOP) && s'.done == s.done
  {
    var rs := BootstrapRequests(s.pending);
    assert rs == [Request(root, key, true, true, 0.0, preserve)];
    QueueOne(env, None, s.t, rs[0]);
    FirstRow(env, s.t, root, key, preserve);
  }

  lemma FirstRow(env: Setting, t: Tables, root: Path, key: Key, preserve: bool)
    requires env.acceptsDirectory(root) && t.jobs == map[] && t.deferred == []
    ensures var t' := QueueRequest(env, None, t, Request(root, key, true, true, 0.0, preserve));
            && (root in t'.jobs <==> root != TOP) && t'.jobs.Keys <= {root} && t'.deferred == []
            && (root in t'.jobs ==> t'.jobs[root].baseline)
  {
    var intent := IntentOf(true, true, 0.0, preserve);
    NoRowAbove(t.jobs, env.VolumeOr(root, key), root, intent, root);
    LandsIff(env, None, t, root, key, intent);
    OnlyRow(env, t, root, key, intent);
  }

  lemma OnlyRow(env: Setting, t: Tables, root: Path, key: Key, intent: Intent)
    requires t.jobs == map[] && t.deferred == [] && env.acceptsDirectory(root) && intent.recursive && intent.baseline
    requires FindTarget(t.jobs, env.VolumeOr(root, key), root, intent, root) == None
    ensures var t' := QueueIntent(env, None, t, root, key, intent);
            t'.jobs.Keys <= {root} && t'.deferred == [] && (root in t'.jobs ==> t'.jobs[root].baseline)
  {
  }

  lemma {:induction false} NoRowAbove(jobs: map<Path, Row>, key: Key, path: Path, intent: Intent, ancestor: Path)
    requires jobs == map[]
    ensures FindTarget(jobs, key, path, intent, ancestor) == None
    decreases |ancestor|
  {
    if ancestor != [] {
      NoRowAbove(jobs, key, path, intent, Parent(ancestor));
    }
  }

  /** An overflow of a volume whose root is `/` deletes the whole pending baseline except failed rows,
      unless `/` itself has baseline work pending. */
  lemma OverflowDropsBaseline(env: Setting, active: Option<Job>, t: Tables, key: Key, p: Path)
    requires Owned(env, t) && key in env.roots && env.roots[key] == [TOP] && env.acceptsDirectory(TOP)
    requires !Defers(env, active, TOP, key) && Overflows(t, key)
    requires TOP in t.jobs ==> !t.jobs[TOP].baseline || t.jobs[TOP].failed
    ensures var t' := BoundQueue(env, active, t, key);
            p in t'.jobs && t'.jobs[p].volume == key && t'.jobs[p].baseline ==> t'.jobs[p].failed
  {
    var t0 := t.(jobs := Collapse(t.jobs, key));
    assert env.roots[key][0] == TOP;
    QueuedAtTop(env, active, t0, key, p);
    OneRoot(env, active, t, t0, key);
  }

  lemma OneRoot(env: Setting, active: Option<Job>, t: Tables, t0: Tables, key: Key)
    requires key in env.roots && env.roots[key] == [TOP] && Overflows(t, key) && t0 == t.(jobs := Collapse(t.jobs, key))
    ensures BoundQueue(env, active, t, key) == QueueIntent(env, active, t0, TOP, key, IntentOf(true, false, 0.0, true))
  {
    var rs := RootRequests(env.roots[key], key);
    var r := Request(TOP, key, true, false, 0.0, true);
    assert rs == [r];
    QueueOne(env, active, t0, r);
  }

  lemma QueuedAtTop(env: Setting, active: Option<Job>, t: Tables, key: Key, p: Path)
    requires env.volumeFor(TOP) == Some(key) && env.acceptsDirectory(TOP) && !Defers(env, active, TOP, key)
    requires forall p :: p in t.jobs && t.jobs[p].volume == key ==> t.jobs[p].scope == 0
    requires TOP in t.jobs ==> t.jobs[TOP].volume == key && (!t.jobs[TOP].baseline || t.jobs[TOP].failed)
    ensures var t' := QueueIntent(env, active, t, TOP, key, IntentOf(true, false, 0.0, true));
            p in t'.jobs && t'.jobs[p].volume == key && t'.jobs[p].baseline ==> t'.jobs[p].failed
  {
    var intent := IntentOf(true, false, 0.0, true);
    var t1 := Upsert(t, TOP, key, true, intent);
    assert t1.jobs[TOP].scope == 0;
    TakesAll(t1.jobs, key, p);
  }

  lemma TakesAll(jobs: map<Path, Row>, key: Key, p: Path)
    requires TOP in jobs && jobs[TOP].volume == key
    requires forall q :: q in jobs && jobs[q].volume == key ==> jobs[q].scope == 0
    ensures var jobs' := Absorb(jobs, TOP, key); p in jobs' && jobs'[p].volume == key && jobs'[p].baseline ==> jobs'[p].failed
  {
    var jobs' := Absorb(jobs, TOP, key);
    if p in jobs' && jobs'[p].volume == key && jobs'[p].baseline {
      assert p in jobs && jobs[p].volume == key;
      assert jobs'[p].scope == 0 && InRange(p, TOP);
      assert !Absorbed(jobs, TOP, key, p) || !Absorbed(jobs', TOP, key, p);
    }
  }

  // ---------------------------------------------------------------- instances

  const KEY: Key := "k"

  /** A configuration whose one volume has the root `/` and accepts everything. */
  lemma TopConfigured() returns (env: Setting)
    ensures env.roots == map[KEY := [TOP]] && env.acceptsDirectory(TOP)
    ensures forall path :: env.volumeFor(path) == Some(KEY)
  {
    var c := Configuration(map[KEY := [TOP]], path => Some(KEY), path => true, path => true, path => false);
    forall path ensures c.HasBest(path, KEY) && c.AcceptedRoot(path) {
      assert c.Best(path, KEY, 0);
      assert c.RootAt(path, 0);
    }
    env := c;
  }

  function File(i: nat): Path { [seq(i + 1, _ => 'n')] }

  const PENDING: Path := ["b"]

  /** More shallow requests than intake holds, and one directory that waits for the baseline walk. */
  ghost function Flooded(): Tables {
    var files := set i: nat | i <= MAX_JOBS :: File(i);
    Tables((map p | p in files :: Row(KEY, false, false, 1, 0, 0.0, false, 1, |p[0]|, |p[0]|))
             + map[PENDING := Row(KEY, true, true, 1, 0, 0.0, false, 0, MAX_JOBS + 2, MAX_JOBS + 2)],
           [], MAX_JOBS + 2, 0, MAX_JOBS + 3)
  }

  lemma {:induction false} FileCount(n: nat)
    ensures |set i: nat | i < n :: File(i)| == n
  {
    var files := set i: nat | i < n :: File(i);
    if n == 0 {
      assert files == {};
    } else {
      FileCount(n - 1);
      var fewer := set i: nat | i < n - 1 :: File(i);
      assert files == fewer + {File(n - 1)};
      forall i: nat | i < n - 1 ensures File(i) != File(n - 1) { assert |File(i)[0]| == i + 1 && |File(n - 1)[0]| == n; }
    }
  }

  lemma FilesApart(i: nat)
    ensures File(i) != PENDING
  {
    assert File(i)[0][0] == 'n' && PENDING[0][0] == 'b';
  }

  lemma FloodedHas(i: nat)
    requires i <= MAX_JOBS
    ensures File(i) in Flooded().jobs && BoundedIntake(Flooded().jobs[File(i)], KEY)
  {
    FilesApart(i);
  }

  lemma FloodedRow(p: Path)
    requires p in Flooded().jobs
    ensures Flooded().jobs[p].volume == KEY && !Flooded().jobs[p].failed && Flooded().jobs[p].birth < Flooded().births && p != TOP
  {
    if p != PENDING {
      var i: nat :| i <= MAX_JOBS && p == File(i);
      assert |p[0]| == i + 1;
    }
  }

  lemma FloodedOverflows()
    ensures Overflows(Flooded(), KEY)
  {
    var files := set i: nat | i < MAX_JOBS + 1 :: File(i);
    var bounded := set p | p in Flooded().jobs && BoundedIntake(Flooded().jobs[p], KEY);
    FileCount(MAX_JOBS + 1);
    forall p | p in files ensures p in bounded {
      var i: nat :| i < MAX_JOBS + 1 && p == File(i);
      FloodedHas(i);
    }
    assert bounded == files + (bounded - files);
  }

  /** An overflow of a table over `/` that leaves no baseline work at all: the flag says complete. */
  lemma OverflowAtTop() returns (env: Setting)
    ensures Owned(env, Flooded()) && PENDING in Flooded().jobs && Flooded().jobs[PENDING].baseline
    ensures !BaselineLeft(BoundQueue(env, None, Flooded(), KEY), [])
  {
    env := TopConfigured();
    FloodedOverflows();
    FloodedOwned(env);
    FloodedPlain();
    NothingLeft(env, Flooded());
  }

  lemma FloodedPlain()
    ensures PlainRows(Flooded().jobs) && TOP !in Flooded().jobs && Flooded().deferred == []
  {
    forall p | p in Flooded().jobs ensures Flooded().jobs[p].volume == KEY && !Flooded().jobs[p].failed && p != TOP {
      FloodedRow(p);
    }
  }

  lemma NothingLeft(env: Setting, t: Tables)
    requires env.roots == map[KEY := [TOP]] && env.acceptsDirectory(TOP) && env.volumeFor(TOP) == Some(KEY)
    requires Owned(env, t) && Overflows(t, KEY) && PlainRows(t.jobs) && TOP !in t.jobs && t.deferred == []
    ensures !BaselineLeft(BoundQueue(env, None, t, KEY), [])
  {
    var t0, t' := t.(jobs := Collapse(t.jobs, KEY)), BoundQueue(env, None, t, KEY);
    OneRoot(env, None, t, t0, KEY);
    StaysPlain(env, t0, IntentOf(true, false, 0.0, true));
    forall p | p in t'.jobs ensures !t'.jobs[p].baseline {
      OverflowDropsBaseline(env, None, t, KEY, p);
    }
  }

  /** Rows of the volume without an error. */
  predicate PlainRows(jobs: map<Path, Row>) { forall p :: p in jobs ==> jobs[p].volume == KEY && !jobs[p].failed }

  lemma StaysPlain(env: Setting, t: Tables, intent: Intent)
    requires env.volumeFor(TOP) == Some(KEY) && PlainRows(t.jobs) && t.deferred == [] && intent.recursive
    ensures var t' := QueueIntent(env, None, t, TOP, KEY, intent); PlainRows(t'.jobs) && t'.deferred == []
  {
    if env.acceptsDirectory(TOP) {
      var found := FindTarget(t.jobs, KEY, TOP, intent, TOP);
      FindTargetIsAbove(t.jobs, KEY, TOP, intent, TOP);
      var t1 := Upsert(t, TOP, KEY, true, intent);
      PlainUpsert(t, intent);
      var t2 := if Promotes(t, TOP, intent) then MoveToTail(t1, TOP) else t1;
      assert PlainRows(t2.jobs);
      PlainAbsorb(t2.jobs);
    }
  }

  lemma PlainUpsert(t: Tables, intent: Intent)
    requires PlainRows(t.jobs)
    ensures PlainRows(Upsert(t, TOP, KEY, true, intent).jobs)
  {
  }

  lemma PlainAbsorb(jobs: map<Path, Row>)
    requires PlainRows(jobs) && TOP in jobs
    ensures PlainRows(Absorb(jobs, TOP, KEY))
  {
  }

  lemma FloodedOwned(env: Setting)
    requires forall path :: env.volumeFor(path) == Some(KEY)
    ensures Owned(env, Flooded())
  {
    forall p | p in Flooded().jobs
      ensures env.volumeFor(p) == Some(Flooded().jobs[p].volume) && Flooded().jobs[p].birth < Flooded().births
    {
      FloodedRow(p);
    }
  }
}
