/** What one queue operation does to the table, and that it never uncovers a directory. */
module Coverage {
  import opened Paths
  import opened JobTable

  ghost predicate Owned(env: Setting, t: Tables) {
    && (forall p :: p in t.jobs ==> env.volumeFor(p) == Some(t.jobs[p].volume) && t.jobs[p].birth < t.births)
    && OwnedRows(env, t.deferred)
  }

  ghost predicate OwnedRows(env: Setting, rows: seq<Deferred>) {
    forall r :: r in rows ==> OwnedRow(env, r)
  }

  /** Deferred rows are accepted requests, or roots put there by an overflow. */
  ghost predicate OwnedRow(env: Setting, r: Deferred) {
    && env.volumeFor(r.path) == Some(r.volume)
    && (env.acceptsDirectory(r.path) || (r.volume in env.roots && r.path in env.roots[r.volume]))
  }

  /** Is `row` exactly what the observation of `x` read? */
  predicate Matches(t: Tables, x: Job) {
    x.path in t.jobs && t.jobs[x.path].birth == x.birth && t.jobs[x.path].generation == x.generation
  }

  /** Row `a` stands for directory `d`: its own row, or a recursive row above it in the same
      volume. With `base` only baseline rows count; with `x` the row that observation already
      read does not count. */
  ghost predicate CoverAt(env: Setting, t: Tables, base: bool, x: Option<Job>, a: Path, d: Path) {
    && a in t.jobs && a <= d && env.volumeFor(d) == Some(t.jobs[a].volume)
    && (base ==> t.jobs[a].baseline)
    && (a == d || t.jobs[a].recursive)
    && (x.Some? && x.value.path == a ==> !Matches(t, x.value))
  }

  ghost predicate Covered(env: Setting, t: Tables, base: bool, x: Option<Job>, d: Path) {
    exists a :: CoverAt(env, t, base, x, a, d)
  }

  /** A recursive row at or above `d`: it stands for `d` and everything below in the volume. */
  ghost predicate DeepAt(env: Setting, t: Tables, base: bool, x: Option<Job>, a: Path, d: Path) {
    CoverAt(env, t, base, x, a, d) && t.jobs[a].recursive
  }

  ghost predicate DeepCovered(env: Setting, t: Tables, base: bool, x: Option<Job>, d: Path) {
    exists a :: DeepAt(env, t, base, x, a, d)
  }

  lemma DeepCoversBelow(env: Env, t: Tables, base: bool, x: Option<Job>, d: Path, below: Path)
    requires DeepCovered(env, t, base, x, d) && d <= below && env.volumeFor(below) == env.volumeFor(d)
    ensures DeepCovered(env, t, base, x, below) && Covered(env, t, base, x, below)
  {
    var a :| DeepAt(env, t, base, x, a, d);
    assert DeepAt(env, t, base, x, a, below) && CoverAt(env, t, base, x, a, below);
  }

  /** An observation in flight is older than the table it will be committed to. */
  predicate Older(t: Tables, x: Job) {
    && x.birth < t.births
    && (x.path in t.jobs && t.jobs[x.path].birth == x.birth ==>
          && t.jobs[x.path].generation >= x.generation
          && (t.jobs[x.path].generation == x.generation ==>
                t.jobs[x.path].recursive == x.recursive && t.jobs[x.path].baseline == x.baseline))
  }

  // ---------------------------------------------------------------- effect of one queue operation

  ghost predicate Effect(t: Tables, t': Tables, target: Path, key: Key, deep: bool, base: bool) {
    && target in t'.jobs
    && t'.deferred == t.deferred
    && t'.births >= t.births
    && t'.jobs[target].volume == key
    && (deep ==> t'.jobs[target].recursive)
    && (base ==> t'.jobs[target].baseline)
    && (t'.jobs[target].recursive ==> deep || (target in t.jobs && t.jobs[target].recursive))
    && (target in t.jobs ==>
          && t.jobs[target].volume == key
          && t'.jobs[target].birth == t.jobs[target].birth
          && t'.jobs[target].generation == t.jobs[target].generation + 1
          && (t.jobs[target].recursive ==> t'.jobs[target].recursive)
          && (t.jobs[target].baseline ==> t'.jobs[target].baseline))
    && (target !in t.jobs ==> t'.jobs[target].birth == t.births && t'.births == t.births + 1)
    && (forall p :: p in t.jobs && p != target ==>
          || (p in t'.jobs && t'.jobs[p] == t.jobs[p])
          || (p !in t'.jobs && target < p && deep && t.jobs[p].volume == key && t.jobs[p].baseline && t'.jobs[target].baseline))
    && (forall p :: p in t'.jobs && p != target ==> p in t.jobs && t'.jobs[p] == t.jobs[p])
  }

  lemma FindTargetIsAbove(jobs: map<Path, Row>, key: Key, path: Path, intent: Intent, ancestor: Path)
    requires ancestor <= path
    ensures var f := FindTarget(jobs, key, path, intent, ancestor);
            f.Some? ==> f.value <= ancestor && f.value in jobs && jobs[f.value].volume == key && jobs[f.value].recursive
    decreases |ancestor|
  {
    if ancestor != [] {
      FindTargetIsAbove(jobs, key, path, intent, Parent(ancestor));
    }
  }

  /** The row a request ends up in. */
  ghost function TargetOf(env: Setting, t: Tables, path: Path, key0: Key, intent: Intent): Path {
    var f := FindTarget(t.jobs, env.VolumeOr(path, key0), path, intent, path);
    if f.Some? then f.value else path
  }

  ghost predicate DeepIntent(env: Setting, t: Tables, path: Path, key0: Key, intent: Intent) {
    intent.recursive || FindTarget(t.jobs, env.VolumeOr(path, key0), path, intent, path).Some?
  }

  lemma UpsertEffect(t: Tables, target: Path, key: Key, deep: bool, intent: Intent)
    requires target in t.jobs ==> t.jobs[target].volume == key
    ensures Effect(t, Upsert(t, target, key, deep, intent), target, key, deep, intent.baseline)
  {
  }

  lemma PromoteEffect(t: Tables, t1: Tables, target: Path, key: Key, deep: bool, base: bool)
    requires Effect(t, t1, target, key, deep, base)
    ensures Effect(t, MoveToTail(t1, target), target, key, deep, base)
  {
  }

  lemma EffectOwned(env: Env, t: Tables, t': Tables, target: Path, key: Key, deep: bool, base: bool)
    requires Owned(env, t) && Effect(t, t', target, key, deep, base)
    requires env.volumeFor(target) == Some(key)
    ensures Owned(env, t')
  {
    forall p | p in t'.jobs
      ensures env.volumeFor(p) == Some(t'.jobs[p].volume) && t'.jobs[p].birth < t'.births
    {
      if p != target {
        assert p in t.jobs && t'.jobs[p] == t.jobs[p];
      }
    }
  }

  lemma TargetInVolume(env: Env, t: Tables, path: Path, key0: Key, intent: Intent)
    requires Owned(env, t) && env.acceptsDirectory(path)
    ensures var target := TargetOf(env, t, path, key0, intent);
            && target != [] && target <= path && env.volumeFor(target) == env.volumeFor(path) == Some(env.VolumeOr(path, key0))
            && (target in t.jobs ==> t.jobs[target].volume == env.VolumeOr(path, key0))
            && (target == path || DeepIntent(env, t, path, key0, intent))
  {
    assert env.AcceptedRoot(path);
    env.TopHasNoVolume();
    FindTargetIsAbove(t.jobs, env.VolumeOr(path, key0), path, intent, path);
  }

  lemma QueueEffect(env: Env, active: Option<Job>, t: Tables, path: Path, key0: Key, intent: Intent)
    requires Owned(env, t)
    requires env.acceptsDirectory(path) && !Defers(env, active, path, key0)
    ensures var t' := QueueIntent(env, active, t, path, key0, intent);
            && Effect(t, t', TargetOf(env, t, path, key0, intent), env.VolumeOr(path, key0),
                      DeepIntent(env, t, path, key0, intent), intent.baseline)
            && Owned(env, t')
  {
    var key := env.VolumeOr(path, key0);
    var target := TargetOf(env, t, path, key0, intent);
    var deep := DeepIntent(env, t, path, key0, intent);
    TargetInVolume(env, t, path, key0, intent);
    var t1 := Upsert(t, target, key, deep, intent);
    UpsertEffect(t, target, key, deep, intent);
    var t2 := if Promotes(t, target, intent) then MoveToTail(t1, target) else t1;
    PromoteEffect(t, t1, target, key, deep, intent.baseline);
    var t3 := if deep then t2.(jobs := Absorb(t2.jobs, target, key)) else t2;
    if deep {
      AbsorbEffect(t, t2, target, key, intent.baseline);
    }
    EffectOwned(env, t, t3, target, key, deep, intent.baseline);
  }

  lemma AbsorbEffect(t: Tables, t2: Tables, target: Path, key: Key, base: bool)
    requires target != []
    requires Effect(t, t2, target, key, true, base)
    requires forall p :: p in t.jobs && p != target ==> p in t2.jobs
    ensures Effect(t, t2.(jobs := Absorb(t2.jobs, target, key)), target, key, true, base)
  {
    var jobs' := Absorb(t2.jobs, target, key);
    forall p | p in t.jobs && p != target && p !in jobs'
      ensures target < p && t.jobs[p].volume == key && t.jobs[p].baseline && jobs'[target].baseline
    {
      assert p in t2.jobs && t2.jobs[p] == t.jobs[p];
    }
  }

  // ---------------------------------------------------------------- coverage survives

  lemma EffectKeeps(env: Env, t: Tables, t': Tables, target: Path, key: Key, deep: bool, added: bool,
                    base: bool, x: Option<Job>, d: Path)
    requires Effect(t, t', target, key, deep, added)
    requires x.Some? ==> Older(t, x.value)
    requires Covered(env, t, base, x, d)
    ensures Covered(env, t', base, x, d)
  {
    var a :| CoverAt(env, t, base, x, a, d);
    if a == target || a in t'.jobs {
      assert CoverAt(env, t', base, x, a, d);
    } else {
      assert CoverAt(env, t', base, x, target, d);
    }
  }

  lemma EffectOlder(t: Tables, t': Tables, target: Path, key: Key, deep: bool, added: bool, x: Job)
    requires Effect(t, t', target, key, deep, added) && Older(t, x)
    ensures Older(t', x)
  {
  }

  /** A queued request is represented by the row it lands in. */
  lemma EffectAdds(env: Env, t: Tables, t': Tables, target: Path, key: Key, deep: bool, added: bool,
                   base: bool, x: Option<Job>, path: Path)
    requires Effect(t, t', target, key, deep, added)
    requires x.Some? ==> Older(t, x.value)
    requires target <= path && env.volumeFor(path) == Some(key)
    requires target == path || deep
    requires base ==> added
    ensures Covered(env, t', base, x, path)
    ensures deep ==> DeepCovered(env, t', base, x, path)
  {
    assert CoverAt(env, t', base, x, target, path);
    if deep {
      assert DeepAt(env, t', base, x, target, path);
    }
  }
}
