/** The durable job table of the reconciliation index: rows, deferred rows, coalescing.

    `birth` and `births` are bookkeeping of this model: every inserted row gets a fresh
    birth stamp, so that a row can be told from a later row at the same path. No decision
    below reads them. */
module JobTable {
  import opened Paths

  const MAX_JOBS := 4096

  type Key = string

  /** ordinary_scope: 0 none, 1 shallow, 2 subtree. */
  type Scope = n: nat | n <= 2

  datatype Row = Row(volume: Key, recursive: bool, baseline: bool, generation: nat, attempts: nat,
                     due: real, failed: bool, scope: Scope, rowid: int, birth: nat)

  datatype Deferred = Deferred(path: Path, volume: Key, recursive: bool, baseline: bool)

  datatype Tables = Tables(jobs: map<Path, Row>, deferred: seq<Deferred>, highWater: int,
                           startup: int, births: nat)

  datatype Intent = Intent(recursive: bool, baseline: bool, scope: Scope, due: real, preserve: bool)

  /** The job being observed: the row as it was read, plus what `active_job` needs. */
  datatype Job = Job(path: Path, volume: Key, recursive: bool, baseline: bool, generation: nat,
                     attempts: nat, scope: Scope, birth: nat, began: nat)
  {
    predicate ScansBaseline() { baseline && scope == 0 }

    predicate ScansRecursively() { if scope > 0 then scope == 2 else recursive }
  }

  /** What does not change during a run: configured volumes and policy. */
  datatype Configuration = Configuration(roots: map<Key, seq<Path>>, volumeFor: Path -> Option<Key>,
                                         accepts: Path -> bool, acceptsDirectory: Path -> bool,
                                         package: Path -> bool)
  {
    /** `volumeFor` is the volume of the most specific root, roots of one volume do not nest,
        and an accepted directory has an accepted root (proved of the policy in module Policies). */
    ghost predicate Valid() {
      && (forall k, i :: k in roots && 0 <= i < |roots[k]| ==> volumeFor(roots[k][i]) == Some(k))
      && (forall k, i, j :: k in roots && 0 <= i < |roots[k]| && 0 <= j < |roots[k]| && roots[k][i] <= roots[k][j]
            ==> roots[k][i] == roots[k][j])
      && (forall path :: volumeFor(path).Some? ==> HasBest(path, volumeFor(path).value))
      && (forall path, k, i :: k in roots && 0 <= i < |roots[k]| && roots[k][i] <= path ==> volumeFor(path).Some?)
      && (forall path :: acceptsDirectory(path) ==> AcceptedRoot(path))
    }

    ghost predicate HasBest(path: Path, key: Key) {
      key in roots && exists i :: Best(path, key, i)
    }

    ghost predicate Best(path: Path, key: Key, i: int) {
      && key in roots && 0 <= i < |roots[key]| && roots[key][i] <= path
      && forall k, j :: k in roots && 0 <= j < |roots[k]| && roots[k][j] <= path ==> roots[k][j] <= roots[key][i]
    }

    ghost predicate AcceptedRoot(path: Path) {
      && volumeFor(path).Some? && volumeFor(path).value in roots
      && exists i :: RootAt(path, i)
    }

    ghost predicate RootAt(path: Path, i: int) {
      && volumeFor(path).Some? && volumeFor(path).value in roots
      && 0 <= i < |roots[volumeFor(path).value]|
      && roots[volumeFor(path).value][i] <= path
      && acceptsDirectory(roots[volumeFor(path).value][i])
    }

    ghost predicate BelowTop() {
      forall k, i :: k in roots && 0 <= i < |roots[k]| ==> roots[k][i] != []
    }

    lemma TopHasNoVolume()
      requires Valid()
      ensures BelowTop() ==> volumeFor([]) == None
    {
      if volumeFor([]).Some? {
        var k := volumeFor([]).value;
        assert HasBest([], k);
        var i :| Best([], k, i);
        assert roots[k][i] == [];
      }
    }

    function VolumeOr(path: Path, key: Key): Key {
      if volumeFor(path).Some? then volumeFor(path).value else key
    }

    /** Paths between two paths of one volume belong to that volume. */
    lemma Between(above: Path, path: Path, below: Path)
      requires Valid()
      requires above <= path <= below
      requires volumeFor(above).Some? && volumeFor(above) == volumeFor(below)
      ensures volumeFor(path) == volumeFor(above)
    {
      var k := volumeFor(above).value;
      assert HasBest(above, k) && HasBest(below, k);
      var i :| Best(above, k, i);
      var j :| Best(below, k, j);
      assert roots[k][i] <= roots[k][j];
      assert roots[k][i] <= path;
      var k' := volumeFor(path).value;
      assert HasBest(path, k');
      var l :| Best(path, k', l);
      assert roots[k][i] <= roots[k'][l] <= roots[k][j];
      assert roots[k'][l] == roots[k][i];
      assert volumeFor(roots[k'][l]) == Some(k') && volumeFor(roots[k][i]) == Some(k);
    }
  }

  /** What the index accepts. */
  type Setting = c: Configuration | c.Valid()
    ghost witness Configuration(map[], path => None, path => false, path => false, path => false)

  /** A setting in which `/` is no root (see module TopDirectory for one in which it is). */
  type Env = c: Configuration | c.Valid() && c.BelowTop()
    ghost witness Configuration(map[], path => None, path => false, path => false, path => false)

  // ---------------------------------------------------------------- row order

  /** SELECT MAX(rowid): 0 on the empty table. */
  ghost function MaxRowid(jobs: map<Path, Row>): (m: int)
    ensures forall p :: p in jobs ==> jobs[p].rowid <= m
    ensures m >= 0
    ensures m == 0 || exists p :: p in jobs && jobs[p].rowid == m
  {
    if jobs == map[] then 0
    else
      var p :| p in jobs;
      var m := MaxRowid(jobs - {p});
      assert forall q :: q in jobs && q != p ==> q in jobs - {p} && (jobs - {p})[q] == jobs[q];
      if jobs[p].rowid > m then jobs[p].rowid else m
  }

  ghost function MoveToTail(t: Tables, path: Path): Tables
    requires path in t.jobs
  {
    var current := t.jobs[path].rowid;
    var floor := if t.startup > t.highWater then t.startup else t.highWater;
    var tail := if MaxRowid(t.jobs) > floor then MaxRowid(t.jobs) else floor;
    var place := if current != tail || current <= floor then tail + 1 else current;
    t.(jobs := t.jobs[path := t.jobs[path].(rowid := place)],
       highWater := if place > t.highWater then place else t.highWater)
  }

  // ---------------------------------------------------------------- deferral

  function FirstAncestor(rows: seq<Deferred>, key: Key, path: Path): Option<Path> {
    if rows == [] then None
    else if rows[0].volume == key && rows[0].recursive && Within(path, rows[0].path) then Some(rows[0].path)
    else FirstAncestor(rows[1..], key, path)
  }

  function UpsertDeferred(rows: seq<Deferred>, row: Deferred): seq<Deferred> {
    if rows == [] then [row]
    else if rows[0].path == row.path then
      [rows[0].(recursive := rows[0].recursive || row.recursive, baseline := rows[0].baseline || row.baseline)]
      + rows[1..]
    else [rows[0]] + UpsertDeferred(rows[1..], row)
  }

  function DropBelow(rows: seq<Deferred>, key: Key, top: Path): seq<Deferred> {
    if rows == [] then []
    else
      var rest := DropBelow(rows[1..], key, top);
      if rows[0].volume == key && top < rows[0].path then rest else [rows[0]] + rest
  }

  function DropVolume(rows: seq<Deferred>, key: Key): seq<Deferred> {
    if rows == [] then []
    else
      var rest := DropVolume(rows[1..], key);
      if rows[0].volume == key then rest else [rows[0]] + rest
  }

  function CountVolume(rows: seq<Deferred>, key: Key): nat {
    if rows == [] then 0 else (if rows[0].volume == key then 1 else 0) + CountVolume(rows[1..], key)
  }

  function RootRows(roots: seq<Path>, key: Key): seq<Deferred> {
    seq(|roots|, i requires 0 <= i < |roots| => Deferred(roots[i], key, true, false))
  }

  /** A recursive row above takes the request over; a recursive request drops the rows below it. */
  function Merge(rows: seq<Deferred>, path: Path, key: Key, recursive: bool, baseline: bool): seq<Deferred> {
    var ancestor := FirstAncestor(rows, key, path);
    var top := if ancestor.Some? then ancestor.value else path;
    var deep := recursive || ancestor.Some?;
    var merged := UpsertDeferred(rows, Deferred(top, key, deep, baseline));
    if deep then DropBelow(merged, key, top) else merged
  }

  function BoundDeferred(env: Setting, rows: seq<Deferred>, key: Key): seq<Deferred> {
    if CountVolume(rows, key) > MAX_JOBS && key in env.roots
    then DropVolume(rows, key) + RootRows(env.roots[key], key)
    else rows
  }

  function Defer(env: Setting, rows: seq<Deferred>, path: Path, key: Key, recursive: bool, baseline: bool): seq<Deferred> {
    BoundDeferred(env, Merge(rows, path, key, recursive, baseline), key)
  }

  // ---------------------------------------------------------------- coalescing

  function FindTarget(jobs: map<Path, Row>, key: Key, path: Path, intent: Intent, ancestor: Path): Option<Path>
    decreases |ancestor|
  {
    if && ancestor in jobs && jobs[ancestor].volume == key && jobs[ancestor].recursive
       && (ancestor == path || (!(jobs[ancestor].baseline && intent.scope > 0) && intent.due == 0.0))
    then Some(ancestor)
    else if ancestor == [] then None
    else FindTarget(jobs, key, path, intent, Parent(ancestor))
  }

  function EffectiveScope(jobs: map<Path, Row>, target: Path, intent: Intent): Scope {
    if intent.preserve && (target !in jobs || !jobs[target].baseline || jobs[target].failed) then 0 else intent.scope
  }

  ghost function Upsert(t: Tables, target: Path, key: Key, recursive: bool, intent: Intent): Tables {
    var scope := EffectiveScope(t.jobs, target, intent);
    if target in t.jobs then
      var row := t.jobs[target];
      t.(jobs := t.jobs[target := row.(recursive := row.recursive || recursive,
                                       baseline := row.baseline || intent.baseline,
                                       generation := row.generation + 1,
                                       scope := if row.scope > scope then row.scope else scope,
                                       due := if intent.preserve then row.due else intent.due)])
    else
      t.(jobs := t.jobs[target := Row(key, recursive, intent.baseline, 1, 0, intent.due, false, scope,
                                      MaxRowid(t.jobs) + 1, t.births)],
         births := t.births + 1)
  }

  /** External intake that makes a row live again takes the tail of the ordinary queue. */
  predicate Promotes(t: Tables, target: Path, intent: Intent) {
    && EffectiveScope(t.jobs, target, intent) > 0 && !intent.preserve
    && (target !in t.jobs || t.jobs[target].scope == 0 || t.jobs[target].rowid <= t.startup)
  }

  predicate Absorbed(jobs: map<Path, Row>, target: Path, key: Key, path: Path) {
    && path in jobs && jobs[path].volume == key && InRange(path, target)
    && jobs[path].baseline && jobs[path].scope == 0 && !jobs[path].failed
  }

  ghost function Absorb(jobs: map<Path, Row>, target: Path, key: Key): map<Path, Row>
    requires target in jobs
  {
    var inherits := exists p :: p in jobs && jobs[p].volume == key && InRange(p, target) && jobs[p].baseline;
    var marked := if inherits then jobs[target := jobs[target].(baseline := true)] else jobs;
    map p | p in marked && !Absorbed(marked, target, key, p) :: marked[p]
  }

  /** Is the request set aside because a recursive observation above it is running? */
  predicate Defers(env: Setting, active: Option<Job>, path: Path, key: Key) {
    && active.Some? && active.value.ScansRecursively() && active.value.volume == env.VolumeOr(path, key)
    && Within(path, active.value.path)
  }

  ghost function QueueIntent(env: Setting, active: Option<Job>, t: Tables, path: Path, key0: Key, intent: Intent): Tables {
    if !env.acceptsDirectory(path) then t
    else
      var key := env.VolumeOr(path, key0);
      if Defers(env, active, path, key0) then
        t.(deferred := Defer(env, t.deferred, path, key, intent.recursive, intent.baseline))
      else
        var found := FindTarget(t.jobs, key, path, intent, path);
        var target := if found.Some? then found.value else path;
        var deep := intent.recursive || found.Some?;
        var t1 := Upsert(t, target, key, deep, intent);
        var t2 := if Promotes(t, target, intent) then MoveToTail(t1, target) else t1;
        if deep then t2.(jobs := Absorb(t2.jobs, target, key)) else t2
  }

  function IntentOf(recursive: bool, baseline: bool, due: real, preserve: bool): Intent {
    Intent(recursive, baseline, if !baseline && due == 0.0 then (if recursive then 2 else 1) else 0, due, preserve)
  }

  ghost function Queue(env: Setting, active: Option<Job>, t: Tables, path: Path, key: Key,
                       recursive: bool, baseline: bool, due: real, preserve: bool): Tables
  {
    QueueIntent(env, active, t, path, key, IntentOf(recursive, baseline, due, preserve))
  }

  datatype Request = Request(path: Path, key: Key, recursive: bool, baseline: bool, due: real, preserve: bool)

  ghost function QueueRequest(env: Setting, active: Option<Job>, t: Tables, r: Request): Tables {
    Queue(env, active, t, r.path, r.key, r.recursive, r.baseline, r.due, r.preserve)
  }

  ghost function QueueAll(env: Setting, active: Option<Job>, t: Tables, requests: seq<Request>): Tables
    decreases |requests|
  {
    if requests == [] then t
    else QueueAll(env, active, QueueRequest(env, active, t, requests[0]), requests[1..])
  }

  // ---------------------------------------------------------------- draining and bounding

  function DeferredRequests(rows: seq<Deferred>): seq<Request> {
    seq(|rows|, i requires 0 <= i < |rows| =>
      Request(rows[i].path, rows[i].volume, rows[i].recursive, rows[i].baseline, 0.0, false))
  }

  /** Every caller of drain_deferred runs with no active job. */
  ghost function Drain(env: Setting, t: Tables): Tables {
    QueueAll(env, None, t.(deferred := []), DeferredRequests(t.deferred))
  }

  predicate BoundedIntake(row: Row, key: Key) {
    row.volume == key && (row.scope > 0 || (!row.recursive && !row.baseline && !row.failed))
  }

  predicate Collapsible(row: Row, key: Key) {
    row.volume == key && !row.recursive && !row.baseline && !row.failed
  }

  function Collapse(jobs: map<Path, Row>, key: Key): map<Path, Row> {
    map p | p in jobs && !Collapsible(jobs[p], key) ::
      if jobs[p].volume == key then jobs[p].(scope := 0) else jobs[p]
  }

  function RootRequests(roots: seq<Path>, key: Key): seq<Request> {
    seq(|roots|, i requires 0 <= i < |roots| => Request(roots[i], key, true, false, 0.0, true))
  }

  predicate Overflows(t: Tables, key: Key) {
    |set p | p in t.jobs && BoundedIntake(t.jobs[p], key)| > MAX_JOBS
  }

  ghost function BoundQueue(env: Setting, active: Option<Job>, t: Tables, key: Key): Tables {
    if Overflows(t, key) && key in env.roots
    then QueueAll(env, active, t.(jobs := Collapse(t.jobs, key)), RootRequests(env.roots[key], key))
    else t
  }
}
