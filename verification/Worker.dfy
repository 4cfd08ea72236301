/** The worker's steps over the job table: intake, selection, and the commit of an observation.

    The reconciler is an oracle: an `Observation` is any result it may return. `began`, `clock`,
    `owed` and `done` are bookkeeping of this model and decide nothing: `owed` stamps each directory
    with its latest request, `done` collects the directories observed without an error at themselves. */
module Worker {
  import opened Paths
  import opened JobTable

  /** `children` are the directories listed below the scope, `listed` the directories enumerated to
      the end, `known` the recorded directories, `plain` the entries recorded as no directory. */
  datatype Observation = Observation(scope: Path, scan: Option<nat>, complete: bool, skipped: bool,
                                     children: seq<Path>, listed: set<Path>, known: set<Path>,
                                     plain: set<Path>, errors: seq<Path>)

  datatype Receipt = Receipt(scan: nat, job: Job)

  datatype Pending = Pending(root: Path, key: Key, preserve: bool)

  datatype State = State(t: Tables, active: Option<Job>, receipts: map<Path, Receipt>, pending: seq<Pending>,
                         baselineComplete: bool, clock: nat, owed: map<Path, nat>, done: set<Path>)

  datatype Step =
    | Intake(path: Path, key: Key, recursive: bool)
    | Bound(bounded: Key)
    | Bootstrap
    | Select(withdrawn: set<Path>, retries: seq<Path>, picked: Option<Path>)
    | Commit(seen: Observation, now: real)
    | Abort
    | Restart

  // ---------------------------------------------------------------- selection

  function Snapshot(t: Tables, path: Path, clock: nat): Job
    requires path in t.jobs
  {
    var row := t.jobs[path];
    Job(path, row.volume, row.recursive, row.baseline, row.generation, row.attempts, row.scope, row.birth, clock)
  }

  predicate HasTicket(jobs: map<Path, Row>, path: Path, key: Key, ancestor: Path)
    decreases |ancestor|
  {
    || (&& ancestor in jobs && jobs[ancestor].volume == key
        && ((ancestor == path && (jobs[ancestor].scope > 0 || !jobs[ancestor].baseline || jobs[ancestor].failed))
            || (jobs[ancestor].recursive && !jobs[ancestor].baseline)))
    || (ancestor != [] && HasTicket(jobs, path, key, Parent(ancestor)))
  }

  ghost function QueueRetries(env: Setting, t: Tables, retries: seq<Path>): Tables
    decreases |retries|
  {
    if retries == [] then t
    else
      var path := retries[0];
      var t1 := if env.volumeFor(path).Some? && env.accepts(path) && !HasTicket(t.jobs, path, env.volumeFor(path).value, path)
                then Queue(env, None, t, path, env.volumeFor(path).value, false, false, 0.0, true)
                else t;
      QueueRetries(env, t1, retries[1..])
  }

  // ---------------------------------------------------------------- commit

  predicate Acknowledges(t: Tables, job: Job) {
    job.path in t.jobs && t.jobs[job.path].generation == job.generation
  }

  /** A request newer than the observation stays, behind the other ordinary work. */
  ghost function YieldNewer(t: Tables, job: Job): Tables {
    if job.path in t.jobs && t.jobs[job.path].generation != job.generation && t.jobs[job.path].scope > 0
    then MoveToTail(t, job.path) else t
  }

  /** Does this turn leave the row's own baseline traversal pending? */
  predicate OrdinaryTurn(job: Job) { job.baseline && job.scope > 0 }

  ghost function Retire(t: Tables, job: Job): Tables {
    if Acknowledges(t, job) then t.(jobs := t.jobs - {job.path}) else YieldNewer(t, job)
  }

  ghost function Acknowledge(t: Tables, job: Job, clean: bool): Tables {
    if OrdinaryTurn(job) then
      if Acknowledges(t, job) then
        var row := t.jobs[job.path].(scope := 0);
        t.(jobs := t.jobs[job.path := if clean then row.(attempts := 0, failed := false, due := 0.0) else row])
      else YieldNewer(t, job)
    else Retire(t, job)
  }

  /** Where an error is retried, and whether its subtree is. */
  function FailedAt(env: Setting, job: Job, o: Observation, f: Path): (Path, bool) {
    var failed := if !Within(f, o.scope) || !env.accepts(f) then o.scope else f;
    if Parent(failed) in o.listed && failed !in o.listed && failed in o.plain then (Parent(failed), false)
    else (failed, job.recursive)
  }

  function Backoff(attempt: nat): real
  {
    var n := if attempt < 9 then attempt else 9;
    if Power(n) < 300 then Power(n) as real else 300.0
  }

  function Power(n: nat): (p: nat)
    ensures p > 0
  {
    if n == 0 then 1 else 2 * Power(n - 1)
  }

  function MarkFailed(t: Tables, path: Path, attempt: nat, due: real): Tables {
    if path in t.jobs then
      var row := t.jobs[path];
      t.(jobs := t.jobs[path := row.(attempts := if row.attempts > attempt then row.attempts else attempt,
                                     due := if row.due > due then row.due else due, failed := true)])
    else t
  }

  function ErrorRequest(env: Setting, job: Job, o: Observation, f: Path, now: real): Request {
    var (path, deep) := FailedAt(env, job, o, f);
    Request(path, job.volume, deep, job.baseline, now + Backoff(job.attempts + 1), true)
  }

  ghost function RetryError(env: Setting, t: Tables, job: Job, o: Observation, f: Path, now: real): Tables {
    var r := ErrorRequest(env, job, o, f, now);
    MarkFailed(QueueRequest(env, None, t, r), r.path, job.attempts + 1, r.due)
  }

  ghost function RetryErrors(env: Setting, t: Tables, job: Job, o: Observation, errors: seq<Path>, now: real): Tables
    decreases |errors|
  {
    if errors == [] then t
    else RetryErrors(env, RetryError(env, t, job, o, errors[0], now), job, o, errors[1..], now)
  }

  predicate Descends(env: Setting, job: Job, known: set<Path>, child: Path) {
    env.accepts(child) && !env.package(child) && (job.ScansRecursively() || child !in known)
  }

  function ChildRequests(env: Setting, job: Job, o: Observation, children: seq<Path>): seq<Request> {
    if children == [] then []
    else
      var rest := ChildRequests(env, job, o, children[1..]);
      if Descends(env, job, o.known, children[0])
      then [Request(children[0], job.volume, true, job.ScansBaseline(), 0.0, true)] + rest
      else rest
  }

  /** A vanished scope is looked up again through its parent. */
  function ParentRequests(env: Setting, job: Job, o: Observation): seq<Request> {
    if o.listed == {} && o.errors == [] && Parent(o.scope) != o.scope && env.accepts(Parent(o.scope))
    then [Request(Parent(o.scope), job.volume, false, false, 0.0, false)] else []
  }

  ghost function Finish(env: Setting, t: Tables, job: Job, o: Observation, now: real): Tables {
    var t1 := Acknowledge(t, job, o.errors == []);
    var t2 := QueueAll(env, None, t1, ParentRequests(env, job, o));
    var t3 := QueueAll(env, None, t2, ChildRequests(env, job, o, o.children));
    Drain(env, RetryErrors(env, t3, job, o, o.errors, now))
  }

  ghost function Resume(t: Tables, job: Job, now: real): Tables
    requires job.path in t.jobs
  {
    var t1 := MoveToTail(t, job.path);
    var row := t1.jobs[job.path];
    t1.(jobs := t1.jobs[job.path := if row.attempts == 0 && row.due < now then row.(due := now) else row])
  }

  /** The observation's job: the one saved when its scan began, or the current selection. */
  function Staged(s: State, o: Observation): Job
    requires s.active.Some?
  {
    var path := s.active.value.path;
    if o.scan.Some? && path in s.receipts && s.receipts[path].scan == o.scan.value
    then s.receipts[path].job else s.active.value
  }

  function Receipts(s: State, o: Observation): map<Path, Receipt>
    requires s.active.Some?
  {
    var path := s.active.value.path;
    if o.scan.Some? && !o.complete && !o.skipped
    then s.receipts[path := Receipt(o.scan.value, Staged(s, o))] else s.receipts - {path}
  }

  predicate Erred(env: Setting, job: Job, o: Observation) {
    exists i :: 0 <= i < |o.errors| && FailedAt(env, job, o, o.errors[i]).0 == job.path
  }

  ghost predicate BaselineLeft(t: Tables, pending: seq<Pending>) {
    || pending != [] || (exists p :: p in t.jobs && t.jobs[p].baseline) || (exists r :: r in t.deferred && r.baseline)
  }

  /** A refused scope. */
  ghost function SkipStep(env: Setting, s: State, o: Observation): State
    requires s.active.Some?
  {
    var t := Drain(env, Retire(s.t, Staged(s, o)));
    s.(active := None, receipts := Receipts(s, o), t := t, baselineComplete := !BaselineLeft(t, s.pending))
  }

  /** One turn of an observation that goes on. */
  ghost function PartStep(env: Setting, s: State, o: Observation, now: real): State
    requires s.active.Some?
  {
    var job := Staged(s, o);
    if job.path in s.t.jobs then s.(active := None, receipts := Receipts(s, o), t := Drain(env, Resume(s.t, job, now)))
    else s.(active := None)
  }

  /** The end of an observation. */
  ghost function EndStep(env: Setting, s: State, o: Observation, now: real): State
    requires s.active.Some?
  {
    var job := Staged(s, o);
    var t := Finish(env, s.t, job, o, now);
    var clean := !Erred(env, job, o);
    s.(active := None, receipts := Receipts(s, o), t := t, baselineComplete := !BaselineLeft(t, s.pending),
       done := if clean then s.done + {job.path} else s.done, owed := if clean then Paid(s.owed, job) else s.owed)
  }

  /** What is owed once the directory of `job` was observed. */
  function Paid(owed: map<Path, nat>, job: Job): map<Path, nat> {
    if job.path in owed && owed[job.path] <= job.began then owed - {job.path} else owed
  }

  ghost function CommitStep(env: Setting, s: State, o: Observation, now: real): State
    requires s.active.Some?
  {
    if o.scan.None? && !o.complete then s.(active := None)
    else if o.skipped then SkipStep(env, s, o)
    else if !o.complete then PartStep(env, s, o, now)
    else EndStep(env, s, o, now)
  }

  // ---------------------------------------------------------------- steps

  function BootstrapRequests(pending: seq<Pending>): seq<Request> {
    seq(|pending|, i requires 0 <= i < |pending| =>
      Request(pending[i].root, pending[i].key, true, true, 0.0, pending[i].preserve))
  }

  ghost function RestartStep(env: Setting, s: State): State { s.(t := RestartTables(env, s.t), active := None) }

  ghost function RestartTables(env: Setting, t: Tables): Tables {
    var t1 := Drain(env, t.(startup := 0));
    var floor := MaxRowid(t1.jobs);
    t1.(startup := floor, highWater := if floor > t1.highWater then floor else t1.highWater)
  }

  /** The directories a request asks for: itself, and its volume's tree below when recursive. */
  function Asked(env: Setting, tree: set<Path>, path: Path, recursive: bool): set<Path> {
    set d | d in tree && env.acceptsDirectory(path) && path <= d && (d == path || recursive) && env.volumeFor(d) == env.volumeFor(path)
  }

  function Stamped(directories: set<Path>, stamp: nat): map<Path, nat> { map d | d in directories :: stamp }

  ghost function IntakeStep(env: Setting, tree: set<Path>, s: State, path: Path, key: Key, recursive: bool): State {
    s.(t := Queue(env, s.active, s.t, path, key, recursive, false, 0.0, false), clock := s.clock + 1,
       owed := s.owed + Stamped(Asked(env, tree, path, recursive), s.clock + 1))
  }

  /** One selection; `picked` is the row the scheduler chose, if any was ready. */
  ghost function SelectStep(env: Setting, s: State, withdrawn: set<Path>, retries: seq<Path>, picked: Option<Path>): State {
    var t := QueueRetries(env, Drain(env, s.t), retries);
    s.(t := t,
       receipts := map p | p in s.receipts && !(p in withdrawn && p !in s.t.jobs) :: s.receipts[p],
       active := if picked.Some? && picked.value in t.jobs then Some(Snapshot(t, picked.value, s.clock)) else None)
  }

  ghost function Next(env: Setting, tree: set<Path>, s: State, step: Step): State
  {
    match step
    case Intake(path, key, recursive) => IntakeStep(env, tree, s, path, key, recursive)
    case Bound(key) => s.(t := BoundQueue(env, s.active, s.t, key))
    case Bootstrap =>
      var t := QueueAll(env, s.active, s.t, BootstrapRequests(s.pending));
      s.(t := t, pending := [], baselineComplete := !BaselineLeft(t, []))
    case Select(withdrawn, retries, picked) => if s.active.Some? then s else SelectStep(env, s, withdrawn, retries, picked)
    case Commit(o, now) => if s.active.Some? then CommitStep(env, s, o, now) else s
    case Abort => s.(active := None)
    case Restart => RestartStep(env, s)
  }

  /** The state after a run. */
  ghost function Ran(env: Setting, tree: set<Path>, s: State, steps: seq<Step>): State
    decreases |steps|
  {
    if steps == [] then s else Ran(env, tree, Next(env, tree, s, steps[0]), steps[1..])
  }
}
