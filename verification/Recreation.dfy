/** A run in which a re-created row is acknowledged: an overflow during a shallow turn of the root
    drops all intake and the whole baseline frontier, a request is lost, and the flag says complete. */
module Recreation {
  import opened Paths
  import opened JobTable
  import opened Coverage
  import opened Deferral
  import opened Queueing
  import opened Worker
  import opened Commits
  import opened Crawl
  import opened Example

  /** A root with one subdirectory, and more files below it than intake holds. */
  datatype Disk = Disk(root: Path, sub: Path, file: nat -> Path)
  {
    ghost predicate Valid() {
      && root != [] && root < sub && Parent(sub) == root
      && (forall i: nat :: root < file(i) && !(sub <= file(i)))
      && (forall i: nat, j: nat :: i != j ==> file(i) != file(j))
    }

    function Tree(): set<Path> { {root, sub} }

    function Files(n: nat): set<Path> { set i: nat | i < n :: file(i) }

    ghost function Start(): State {
      State(Tables(map[], [], 0, 0, 0), None, map[], [Pending(root, KEY, false)], false, 0, map[], {})
    }
  }

  lemma DiskExists() returns (disk: Disk)
    ensures disk.Valid()
  {
    disk := Disk(["r"], ["r", "b"], (i: nat) => ["r", seq(i + 1, _ => 'n')]);
    forall i: nat, j: nat | i != j ensures disk.file(i) != disk.file(j) {
      assert |disk.file(i)[1]| == i + 1 && |disk.file(j)[1]| == j + 1;
    }
    forall i: nat ensures !(disk.sub <= disk.file(i)) {
      assert disk.file(i)[1][0] == 'n' && disk.sub[1][0] == 'b';
    }
  }

  lemma TreeHolds(env: Env, disk: Disk)
    requires Whole(env, disk.root) && disk.Valid()
    ensures Tree(env, disk.Tree())
  {
    forall d, p ensures ClosedAt(disk.Tree(), disk.root, d, p) {
      if d in disk.Tree() && disk.root <= p <= d {
        Between(disk.root, disk.sub, p);
      }
    }
    IsTree(env, disk.root, disk.Tree());
  }

  lemma Between(root: Path, sub: Path, p: Path)
    requires root < sub && Parent(sub) == root && root <= p <= sub
    ensures p == root || p == sub
  {
    assert p == sub[..|p|] && root == sub[..|root|] && |sub| == |root| + 1;
  }

  lemma StagesTree(env: Env, disk: Disk)
    requires Whole(env, disk.root) && disk.Valid()
    ensures Staging(env, disk.Tree(), disk.Start())
  {
    forall d | d in disk.Tree() ensures Waits(env, disk.Start().pending, d) {
      RootWaits(env, disk.root, d);
    }
    NothingYet(env, disk);
  }

  lemma NothingYet(env: Env, disk: Disk)
    ensures var s := disk.Start();
            && Owned(env, s.t) && NoBaseline(s.t.deferred)
            && s.active == None && s.receipts == map[] && s.owed == map[] && !s.baselineComplete
  {
  }

  lemma RootWaits(env: Env, root: Path, d: Path)
    requires Whole(env, root) && root <= d
    ensures Waits(env, [Pending(root, KEY, false)], d)
  {
    assert Belongs(env, root, d) && Belongs(env, root, root);
    assert PendingFor(env, [Pending(root, KEY, false)][0], d);
  }

  // ---------------------------------------------------------------- up to the shallow turn of the root

  /** One row, of clean baseline work. */
  ghost predicate Frontier(t: Tables, p: Path) {
    && t.deferred == [] && t.jobs.Keys == {p} && t.jobs[p].volume == KEY && t.jobs[p].recursive && t.jobs[p].baseline
    && t.jobs[p].scope == 0 && !t.jobs[p].failed
  }

  ghost predicate Idle(s: State) { s.active == None && s.receipts == map[] && s.pending == [] }

  lemma Bootstraps(env: Env, disk: Disk)
    requires Whole(env, disk.root) && disk.Valid()
    ensures var s' := Next(env, disk.Tree(), disk.Start(), Bootstrap); Idle(s') && Frontier(s'.t, disk.root) && s'.done == {}
  {
    var s := disk.Start();
    var r := Request(disk.root, KEY, true, true, 0.0, false);
    assert BootstrapRequests(s.pending) == [r];
    QueueOne(env, None, s.t, r);
    RecursiveGains(env, disk.root, s.t, disk.root, true, false);
  }

  lemma Descended(env: Env, root: Path, sub: Path, t: Tables, job: Job)
    requires Whole(env, root) && root < sub && Frontier(t, root) && job == Snapshot(t, root, job.began)
    ensures Frontier(Finish(env, t, job, Turn(root, sub, {}), 0.0), sub)
  {
    var t1 := t.(jobs := t.jobs - {root});
    assert t1.jobs == map[];
    FirstOfEmpty(env, root, sub, t1);
    TurnFinishes(env, root, t, job, sub, {});
  }

  lemma FirstOfEmpty(env: Env, root: Path, sub: Path, t: Tables)
    requires Whole(env, root) && root < sub && t.jobs == map[] && t.deferred == []
    ensures Frontier(QueueRequest(env, None, t, Request(sub, KEY, true, true, 0.0, true)), sub)
  {
    RecursiveGains(env, root, t, sub, true, true);
  }

  lemma RootWalked(env: Env, disk: Disk, s: State)
    requires Whole(env, disk.root) && disk.Valid() && Idle(s.(active := None)) && Frontier(s.t, disk.root) && s.done == {}
    requires s.active == Some(Snapshot(s.t, disk.root, s.clock))
    ensures var s' := Next(env, disk.Tree(), s, Commit(Turn(disk.root, disk.sub, {}), 0.0));
            Idle(s') && Frontier(s'.t, disk.sub) && s'.done == {disk.root}
  {
    TurnCommits(env, disk.Tree(), s, disk.sub, {});
    Descended(env, disk.root, disk.sub, s.t, s.active.value);
  }

  /** Shallow requests at the root and at `files`, and the frontier at `sub`. */
  ghost predicate Filled(t: Tables, root: Path, sub: Path, files: set<Path>, generation: nat) {
    && t.deferred == [] && t.jobs.Keys == {root, sub} + files && t.jobs[root].generation == generation
    && forall p :: p in t.jobs ==>
         && t.jobs[p].volume == KEY && !t.jobs[p].failed && t.jobs[p].recursive == (p == sub) && t.jobs[p].baseline == (p == sub)
         && (p == sub ==> t.jobs[p].scope == 0)
  }

  /** The shallow turn of the root is running; requests for it may be newer. */
  ghost predicate Running(s: State, root: Path) {
    && s.active.Some? && s.active.value.path == root && !s.active.value.recursive && !s.active.value.baseline
    && s.active.value.generation == 1 && s.active.value.scope == 1 && s.active.value.began <= s.clock
    && s.receipts == map[] && s.pending == [] && s.done == {root}
  }

  lemma RootRequested(env: Env, disk: Disk, s: State)
    requires Whole(env, disk.root) && disk.Valid() && Idle(s) && Frontier(s.t, disk.sub)
    ensures var s' := Next(env, disk.Tree(), s, Intake(disk.root, KEY, false));
            Idle(s') && Filled(s'.t, disk.root, disk.sub, {}, 1) && s'.t.jobs[disk.root].scope == 1 && s'.done == s.done
  {
    Intakes(env, disk.Tree(), s, disk.root, false);
    FirstRow(env, disk.root, disk.sub, s.t);
  }

  lemma FirstRow(env: Env, root: Path, sub: Path, t: Tables)
    requires Whole(env, root) && root < sub && Frontier(t, sub)
    ensures var t' := QueueRequest(env, None, t, Request(root, KEY, false, false, 0.0, false));
            Filled(t', root, sub, {}, 1) && t'.jobs[root].scope == 1
  {
    ShallowGains(env, root, None, t, root);
  }

  lemma RootSelected(env: Env, disk: Disk, s: State)
    requires Idle(s) && Filled(s.t, disk.root, disk.sub, {}, 1) && s.t.jobs[disk.root].scope == 1 && s.done == {disk.root}
    requires disk.root != disk.sub
    ensures var s' := Next(env, disk.Tree(), s, Select({}, [], Some(disk.root)));
            Running(s', disk.root) && Filled(s'.t, disk.root, disk.sub, {}, 1)
  {
    Selects(env, disk.Tree(), s, disk.root);
  }

  // ---------------------------------------------------------------- the flood

  lemma FilledFree(t: Tables, root: Path, sub: Path, files: set<Path>, generation: nat, p: Path)
    requires Filled(t, root, sub, files, generation) && !(sub <= p)
    ensures Free(t.jobs, p)
  {
  }

  lemma FileArrives(env: Env, disk: Disk, s: State, files: set<Path>, p: Path, generation: nat)
    requires Whole(env, disk.root) && disk.Valid() && Running(s, disk.root) && Filled(s.t, disk.root, disk.sub, files, generation)
    requires disk.root < p && !(disk.sub <= p) && p !in s.t.jobs
    ensures var s' := Next(env, disk.Tree(), s, Intake(p, KEY, false));
            && Running(s', disk.root) && Filled(s'.t, disk.root, disk.sub, files + {p}, generation)
            && s'.active == s.active && (disk.root in s.owed ==> disk.root in s'.owed && s'.owed[disk.root] == s.owed[disk.root])
  {
    Intakes(env, disk.Tree(), s, p, false);
    FileRow(env, disk.root, disk.sub, s.active, s.t, files, p, generation);
    assert disk.root !in Asked(env, disk.Tree(), p, false);
  }

  lemma FileRow(env: Env, root: Path, sub: Path, active: Option<Job>, t: Tables, files: set<Path>, p: Path, generation: nat)
    requires Whole(env, root) && !Deferring(active) && Filled(t, root, sub, files, generation)
    requires root < p && !(sub <= p) && root < sub && p !in t.jobs
    ensures Filled(QueueRequest(env, active, t, Request(p, KEY, false, false, 0.0, false)), root, sub, files + {p}, generation)
  {
    FilledFree(t, root, sub, files, generation, p);
    ShallowGains(env, root, active, t, p);
    RowAdded(t, QueueRequest(env, active, t, Request(p, KEY, false, false, 0.0, false)), root, sub, files, p, generation);
  }

  lemma RowAdded(t: Tables, t': Tables, root: Path, sub: Path, files: set<Path>, p: Path, generation: nat)
    requires Filled(t, root, sub, files, generation) && p !in t.jobs && Gains(t, t', p, Request(p, KEY, false, false, 0.0, false))
    ensures Filled(t', root, sub, files + {p}, generation)
  {
    assert {root, sub} + (files + {p}) == {root, sub} + files + {p};
  }

  lemma RootRow(env: Env, root: Path, sub: Path, active: Option<Job>, t: Tables, files: set<Path>)
    requires Whole(env, root) && !Deferring(active) && Filled(t, root, sub, files, 1) && root < sub
    ensures Filled(QueueRequest(env, active, t, Request(root, KEY, false, false, 0.0, false)), root, sub, files, 2)
  {
    FilledFree(t, root, sub, files, 1, root);
    ShallowGains(env, root, active, t, root);
  }

  /** The request that is lost. */
  lemma RootArrives(env: Env, disk: Disk, s: State, files: set<Path>)
    requires Whole(env, disk.root) && disk.Valid() && Running(s, disk.root) && Filled(s.t, disk.root, disk.sub, files, 1)
    ensures var s' := Next(env, disk.Tree(), s, Intake(disk.root, KEY, false));
            && Running(s', disk.root) && Filled(s'.t, disk.root, disk.sub, files, 2)
            && disk.root in s'.owed && s'.owed[disk.root] > s'.active.value.began
  {
    Intakes(env, disk.Tree(), s, disk.root, false);
    RootRow(env, disk.root, disk.sub, s.active, s.t, files);
    assert Belongs(env, disk.root, disk.root);
    assert disk.root in Asked(env, disk.Tree(), disk.root, false);
  }

  /** Intake within its bound. */
  lemma WithinBound(t: Tables, root: Path, sub: Path, files: set<Path>, generation: nat)
    requires Filled(t, root, sub, files, generation) && |files| < MAX_JOBS
    ensures !Overflows(t, KEY)
  {
    var bounded := set p | p in t.jobs && BoundedIntake(t.jobs[p], KEY);
    assert bounded <= files + {root};
    SubsetSize(bounded, files + {root});
    assert |files + {root}| <= |files| + 1;
  }

  lemma {:induction false} Flood(env: Env, disk: Disk, before: seq<Step>, s: State, n: nat) returns (steps: seq<Step>, s': State)
    requires Whole(env, disk.root) && disk.Valid() && Running(s, disk.root) && Filled(s.t, disk.root, disk.sub, {}, 1)
    requires Reaches(env, disk, before, s) && n < MAX_JOBS
    ensures Reaches(env, disk, steps, s')
    ensures Running(s', disk.root) && Filled(s'.t, disk.root, disk.sub, disk.Files(n), 1)
    decreases n
  {
    if n == 0 {
      steps, s' := before, s;
      assert disk.Files(0) == {};
    } else {
      var s1;
      steps, s1 := Flood(env, disk, before, s, n - 1);
      FilesGrow(disk, n);
      FileArrives(env, disk, s1, disk.Files(n - 1), disk.file(n - 1), 1);
      s' := Next(env, disk.Tree(), s1, Intake(disk.file(n - 1), KEY, false));
      FileCount(disk, n);
      WithinBound(s'.t, disk.root, disk.sub, disk.Files(n), 1);
      steps := QuietEvent(env, disk, steps, s1, disk.file(n - 1), s');
    }
  }

  lemma FilesGrow(disk: Disk, n: nat)
    requires n > 0 && disk.Valid()
    ensures disk.Files(n) == disk.Files(n - 1) + {disk.file(n - 1)} && disk.file(n - 1) !in disk.Files(n - 1)
    ensures disk.file(n - 1) != disk.root && disk.file(n - 1) != disk.sub
  {
  }

  lemma {:induction false} FileCount(disk: Disk, n: nat)
    requires disk.Valid()
    ensures |disk.Files(n)| == n
  {
    if n > 0 {
      FileCount(disk, n - 1);
      FilesGrow(disk, n);
    }
  }

  lemma SubsetSize(a: set<Path>, b: set<Path>)
    requires a <= b
    ensures |a| <= |b|
  {
    assert b == a + (b - a);
  }

  // ---------------------------------------------------------------- overflow and commit

  lemma IntakeOverflows(disk: Disk, t: Tables)
    requires disk.Valid() && Filled(t, disk.root, disk.sub, disk.Files(MAX_JOBS), 2)
    ensures Overflows(t, KEY)
  {
    var files := disk.Files(MAX_JOBS);
    FileCount(disk, MAX_JOBS);
    FilesApart(disk, MAX_JOBS);
    ShallowAreBounded(t, disk.root, disk.sub, files);
    SubsetSize(files + {disk.root}, set p | p in t.jobs && BoundedIntake(t.jobs[p], KEY));
  }

  lemma FilesApart(disk: Disk, n: nat)
    requires disk.Valid()
    ensures disk.root !in disk.Files(n) && disk.sub !in disk.Files(n)
  {
  }

  lemma ShallowAreBounded(t: Tables, root: Path, sub: Path, files: set<Path>)
    requires Filled(t, root, sub, files, 2) && root != sub && sub !in files
    ensures files + {root} <= set p | p in t.jobs && BoundedIntake(t.jobs[p], KEY)
  {
  }

  /** The overflow deletes every shallow row and leaves the frontier. */
  lemma CollapseLeavesFrontier(t: Tables, root: Path, sub: Path, files: set<Path>)
    requires root != sub && Filled(t, root, sub, files, 2)
    ensures Frontier(t.(jobs := Collapse(t.jobs, KEY)), sub)
  {
    assert Collapse(t.jobs, KEY).Keys == {sub};
  }

  /** The root takes the frontier over, in a row of generation 1. */
  lemma RootTakesOver(env: Env, root: Path, sub: Path, active: Option<Job>, t: Tables)
    requires Whole(env, root) && root < sub && Frontier(t, sub) && !Deferring(active)
    ensures var t' := QueueRequest(env, active, t, Request(root, KEY, true, false, 0.0, true));
            t'.deferred == [] && t'.jobs.Keys == {root} && t'.jobs[root].generation == 1 && t'.jobs[root].volume == KEY
  {
    var r := Request(root, KEY, true, false, 0.0, true);
    var intent := IntentOf(true, false, 0.0, true);
    assert Belongs(env, root, root);
    NoTarget(t.jobs, root, intent, root);
    PlacedGains(t, root, r);
    FrontierAbsorbed(Placed(t, root, true, intent).jobs, root, sub);
  }

  lemma FrontierAbsorbed(jobs: map<Path, Row>, root: Path, sub: Path)
    requires root != [] && root < sub && jobs.Keys == {root, sub} && jobs[sub].volume == KEY && jobs[sub].baseline
    requires jobs[sub].scope == 0 && !jobs[sub].failed
    ensures Absorb(jobs, root, KEY).Keys == {root} && Absorb(jobs, root, KEY)[root] == jobs[root].(baseline := true)
  {
    assert InRange(sub, root);
  }

  ghost predicate Reborn(s: State, root: Path) {
    s.t.deferred == [] && s.t.jobs.Keys == {root} && s.t.jobs[root].generation == 1
  }

  lemma Overflowed(env: Env, disk: Disk, s: State)
    requires Whole(env, disk.root) && disk.Valid() && Running(s, disk.root)
    requires Filled(s.t, disk.root, disk.sub, disk.Files(MAX_JOBS), 2)
    ensures var s' := Next(env, disk.Tree(), s, Bound(KEY)); s' == s.(t := s'.t) && Reborn(s', disk.root)
  {
    IntakeOverflows(disk, s.t);
    CollapseLeavesFrontier(s.t, disk.root, disk.sub, disk.Files(MAX_JOBS));
    RootTakesOver(env, disk.root, disk.sub, s.active, s.t.(jobs := Collapse(s.t.jobs, KEY)));
    OneRoot(env, disk.root, s);
  }

  lemma OneRoot(env: Env, root: Path, s: State)
    requires Whole(env, root) && Overflows(s.t, KEY)
    ensures BoundQueue(env, s.active, s.t, KEY)
            == QueueRequest(env, s.active, s.t.(jobs := Collapse(s.t.jobs, KEY)), Request(root, KEY, true, false, 0.0, true))
  {
    assert RootRequests(env.roots[KEY], KEY) == [Request(root, KEY, true, false, 0.0, true)];
    QueueOne(env, s.active, s.t.(jobs := Collapse(s.t.jobs, KEY)), Request(root, KEY, true, false, 0.0, true));
  }

  lemma TurnEmpties(env: Env, root: Path, sub: Path, t: Tables, job: Job)
    requires Whole(env, root) && root < sub && t.deferred == [] && t.jobs.Keys == {root} && t.jobs[root].generation == 1
    requires job.path == root && job.generation == 1 && !job.baseline && !job.ScansRecursively()
    ensures var t' := Finish(env, t, job, Turn(root, sub, {sub}), 0.0); t'.jobs == map[] && t'.deferred == []
  {
    TurnFinishes(env, root, t, job, sub, {sub});
  }

  lemma Emptied(env: Env, disk: Disk, s: State)
    requires Whole(env, disk.root) && disk.Valid() && Running(s, disk.root) && Reborn(s, disk.root)
    requires disk.root in s.owed && s.owed[disk.root] > s.active.value.began
    ensures var s' := Next(env, disk.Tree(), s, Commit(Turn(disk.root, disk.sub, {disk.sub}), 0.0));
            s'.t.jobs == map[] && s'.t.deferred == [] && s'.baselineComplete && s'.done == {disk.root} && disk.root in s'.owed
  {
    TurnCommits(env, disk.Tree(), s, disk.sub, {disk.sub});
    TurnEmpties(env, disk.root, disk.sub, s.t, s.active.value);
  }

  // ---------------------------------------------------------------- the run

  /** As in the source, intake is bounded after each event. */
  predicate BoundedEvents(steps: seq<Step>) {
    forall i :: 0 <= i < |steps| && steps[i].Intake? ==> i + 1 < |steps| && steps[i + 1] == Bound(KEY)
  }

  /** A run of the index from the staged baseline. */
  ghost predicate Reaches(env: Env, disk: Disk, steps: seq<Step>, s: State) {
    Takes(env, disk.Tree(), disk.Start(), steps, s) && BoundedEvents(steps)
  }

  lemma Then(env: Env, disk: Disk, before: seq<Step>, s: State, step: Step, s': State) returns (steps: seq<Step>)
    requires Reaches(env, disk, before, s) && Fair(env, disk.Tree(), s, step) && !step.Intake? && s' == Next(env, disk.Tree(), s, step)
    ensures Reaches(env, disk, steps, s')
  {
    TakesThen(env, disk.Tree(), disk.Start(), before, s, step, s');
    steps := before + [step];
  }

  lemma Event(env: Env, disk: Disk, before: seq<Step>, s: State, p: Path, s1: State, s2: State) returns (steps: seq<Step>)
    requires Reaches(env, disk, before, s) && s1 == Next(env, disk.Tree(), s, Intake(p, KEY, false))
    requires s2 == Next(env, disk.Tree(), s1, Bound(KEY))
    ensures Reaches(env, disk, steps, s2)
  {
    TakesThen(env, disk.Tree(), disk.Start(), before, s, Intake(p, KEY, false), s1);
    TakesThen(env, disk.Tree(), disk.Start(), before + [Intake(p, KEY, false)], s1, Bound(KEY), s2);
    steps := before + [Intake(p, KEY, false)] + [Bound(KEY)];
  }

  /** An event that leaves intake within its bound. */
  lemma QuietEvent(env: Env, disk: Disk, before: seq<Step>, s: State, p: Path, s': State) returns (steps: seq<Step>)
    requires Reaches(env, disk, before, s) && s' == Next(env, disk.Tree(), s, Intake(p, KEY, false)) && !Overflows(s'.t, KEY)
    ensures Reaches(env, disk, steps, s')
  {
    assert Next(env, disk.Tree(), s', Bound(KEY)) == s';
    steps := Event(env, disk, before, s, p, s', s');
  }

  lemma FirstTurn(env: Env, disk: Disk) returns (steps: seq<Step>, s: State)
    requires Whole(env, disk.root) && disk.Valid()
    ensures Reaches(env, disk, steps, s) && Idle(s) && Frontier(s.t, disk.sub) && s.done == {disk.root}
  {
    var (tree, start, select) := (disk.Tree(), disk.Start(), Select({}, [], Some(disk.root)));
    Bootstraps(env, disk);
    var s1 := Next(env, tree, start, Bootstrap);
    steps := Then(env, disk, [], start, Bootstrap, s1);
    Selects(env, tree, s1, disk.root);
    var s2 := Next(env, tree, s1, select);
    steps := Then(env, disk, steps, s1, select, s2);
    RootWalked(env, disk, s2);
    steps, s := Observes(env, disk, steps, s2, {});
  }

  lemma Observes(env: Env, disk: Disk, before: seq<Step>, s: State, known: set<Path>) returns (steps: seq<Step>, s': State)
    requires disk.Valid() && Reaches(env, disk, before, s)
    requires s.active.Some? && s.active.value.path == disk.root && s.receipts == map[]
    ensures Reaches(env, disk, steps, s')
    ensures s' == Next(env, disk.Tree(), s, Commit(Turn(disk.root, disk.sub, known), 0.0))
  {
    var step := Commit(Turn(disk.root, disk.sub, known), 0.0);
    TurnIsFair(env, disk.Tree(), s, disk.sub, known);
    s' := Next(env, disk.Tree(), s, step);
    steps := Then(env, disk, before, s, step, s');
  }

  lemma ShallowTurn(env: Env, disk: Disk, before: seq<Step>, s: State) returns (steps: seq<Step>, s': State)
    requires Whole(env, disk.root) && disk.Valid() && Reaches(env, disk, before, s)
    requires Idle(s) && Frontier(s.t, disk.sub) && s.done == {disk.root}
    ensures Reaches(env, disk, steps, s')
    ensures Running(s', disk.root) && Filled(s'.t, disk.root, disk.sub, {}, 1)
  {
    var select := Select({}, [], Some(disk.root));
    RootRequested(env, disk, s);
    var s1 := Next(env, disk.Tree(), s, Intake(disk.root, KEY, false));
    WithinBound(s1.t, disk.root, disk.sub, {}, 1);
    steps := QuietEvent(env, disk, before, s, disk.root, s1);
    RootSelected(env, disk, s1);
    s' := Next(env, disk.Tree(), s1, select);
    steps := Then(env, disk, steps, s1, select, s');
  }

  /** The root is requested again while its turn runs: the table is one row short of overflowing. */
  lemma SecondRequest(env: Env, disk: Disk, before: seq<Step>, s: State) returns (steps: seq<Step>, s': State)
    requires Whole(env, disk.root) && disk.Valid() && Reaches(env, disk, before, s)
    requires Running(s, disk.root) && Filled(s.t, disk.root, disk.sub, disk.Files(MAX_JOBS - 1), 1)
    ensures Reaches(env, disk, steps, s')
    ensures Running(s', disk.root) && Filled(s'.t, disk.root, disk.sub, disk.Files(MAX_JOBS - 1), 2)
    ensures disk.root in s'.owed && s'.owed[disk.root] > s'.active.value.began
  {
    RootArrives(env, disk, s, disk.Files(MAX_JOBS - 1));
    s' := Next(env, disk.Tree(), s, Intake(disk.root, KEY, false));
    FileCount(disk, MAX_JOBS - 1);
    WithinBound(s'.t, disk.root, disk.sub, disk.Files(MAX_JOBS - 1), 2);
    steps := QuietEvent(env, disk, before, s, disk.root, s');
  }

  /** One more file: the overflow. */
  lemma LastEvent(env: Env, disk: Disk, before: seq<Step>, s: State) returns (steps: seq<Step>, s': State)
    requires Whole(env, disk.root) && disk.Valid() && Reaches(env, disk, before, s)
    requires Running(s, disk.root) && Filled(s.t, disk.root, disk.sub, disk.Files(MAX_JOBS - 1), 2)
    requires disk.root in s.owed && s.owed[disk.root] > s.active.value.began
    ensures Reaches(env, disk, steps, s') && Running(s', disk.root) && Reborn(s', disk.root)
    ensures disk.root in s'.owed && s'.owed[disk.root] > s'.active.value.began
  {
    var p := disk.file(MAX_JOBS - 1);
    FilesGrow(disk, MAX_JOBS);
    FileArrives(env, disk, s, disk.Files(MAX_JOBS - 1), p, 2);
    var s1 := Next(env, disk.Tree(), s, Intake(p, KEY, false));
    Overflowed(env, disk, s1);
    s' := Next(env, disk.Tree(), s1, Bound(KEY));
    steps := Event(env, disk, before, s, p, s1, s');
  }

  /** From a staged baseline, steps that the reconciler's promise allows lead to an empty table that
      reports a complete baseline, although the subdirectory was never observed; a request for the
      root newer than its last observation is lost with it. */
  lemma OverflowDuringRootTurn(env: Env, disk: Disk) returns (steps: seq<Step>, s: State)
    requires Whole(env, disk.root) && disk.Valid()
    ensures Staging(env, disk.Tree(), disk.Start()) && Tree(env, disk.Tree())
    ensures Takes(env, disk.Tree(), disk.Start(), steps, s) && BoundedEvents(steps)
    ensures s.t.jobs == map[] && s.t.deferred == [] && s.baselineComplete && disk.sub in disk.Tree() && disk.sub !in s.done
    ensures disk.root in s.owed && !Represented(env, s.t, false, None, disk.root)
  {
    StagesTree(env, disk);
    TreeHolds(env, disk);
    steps, s := FirstTurn(env, disk);
    steps, s := ShallowTurn(env, disk, steps, s);
    steps, s := Flood(env, disk, steps, s, MAX_JOBS - 1);
    steps, s := SecondRequest(env, disk, steps, s);
    steps, s := LastEvent(env, disk, steps, s);
    Emptied(env, disk, s);
    steps, s := Observes(env, disk, steps, s, {disk.sub});
  }

  /** There is such a configuration with such a disk. */
  lemma LosingRunExists() returns (env: Env, disk: Disk, steps: seq<Step>, s: State)
    ensures Staging(env, disk.Tree(), disk.Start()) && Reaches(env, disk, steps, s)
    ensures s.t.jobs == map[] && s.baselineComplete && !(disk.Tree() <= s.done)
  {
    disk := DiskExists();
    env := Configured(disk.root);
    steps, s := OverflowDuringRootTurn(env, disk);
  }
}
