/** Queue operations, one or many, keep what is represented and represent what they add. */
module Queueing {
  import opened Paths
  import opened JobTable
  import opened Coverage
  import opened Deferral

  /** `d` is represented: by a job row (not the one `x` read, if given) or by a deferred row.
      With `base` only baseline job rows count. */
  ghost predicate Represented(env: Setting, t: Tables, base: bool, x: Option<Job>, d: Path) {
    Covered(env, t, base, x, d) || (!base && Awaits(env, t.deferred, d))
  }

  ghost predicate Sound(env: Setting, t: Tables, x: Option<Job>) {
    Owned(env, t) && (x.Some? ==> Older(t, x.value))
  }

  /** Does a recursive observation, which sets requests below it aside, run? */
  predicate Deferring(active: Option<Job>) {
    active.Some? && active.value.ScansRecursively()
  }

  lemma DeferredOwned(env: Env, active: Option<Job>, t: Tables, r: Request, x: Option<Job>)
    requires Sound(env, t, x) && env.acceptsDirectory(r.path) && Defers(env, active, r.path, r.key)
    ensures var t' := QueueRequest(env, active, t, r);
            && Sound(env, t', x) && t'.jobs == t.jobs
            && t'.deferred == Defer(env, t.deferred, r.path, env.VolumeOr(r.path, r.key), r.recursive, r.baseline)
            && (NoBaseline(t.deferred) && !r.baseline ==> NoBaseline(t'.deferred))
  {
    assert env.AcceptedRoot(r.path);
    DeferOwned(env, t.deferred, r.path, env.VolumeOr(r.path, r.key), r.recursive, r.baseline);
  }

  lemma DeferredKeeps(env: Env, active: Option<Job>, t: Tables, r: Request, base: bool, x: Option<Job>, d: Path)
    requires Sound(env, t, x) && env.acceptsDirectory(d)
    requires env.acceptsDirectory(r.path) && Defers(env, active, r.path, r.key)
    ensures var t' := QueueRequest(env, active, t, r);
            && Sound(env, t', x)
            && (Represented(env, t, base, x, d) ==> Represented(env, t', base, x, d))
            && (NoBaseline(t.deferred) && !r.baseline ==> NoBaseline(t'.deferred))
  {
    DeferredOwned(env, active, t, r, x);
    if Awaits(env, t.deferred, d) {
      assert env.AcceptedRoot(r.path);
      DeferKeeps(env, t.deferred, r.path, env.VolumeOr(r.path, r.key), r.recursive, r.baseline, d);
    }
    SameJobs(env, t, QueueRequest(env, active, t, r), base, x, d);
  }

  lemma QueuedKeeps(env: Env, active: Option<Job>, t: Tables, r: Request, base: bool, x: Option<Job>, d: Path)
    requires Sound(env, t, x) && env.acceptsDirectory(d)
    requires env.acceptsDirectory(r.path) && !Defers(env, active, r.path, r.key)
    ensures var t' := QueueRequest(env, active, t, r);
            && Sound(env, t', x)
            && (Represented(env, t, base, x, d) ==> Represented(env, t', base, x, d))
            && t'.deferred == t.deferred
  {
    var intent := IntentOf(r.recursive, r.baseline, r.due, r.preserve);
    var t' := QueueRequest(env, active, t, r);
    var key := env.VolumeOr(r.path, r.key);
    QueueEffect(env, active, t, r.path, r.key, intent);
    var target := TargetOf(env, t, r.path, r.key, intent);
    var deep := DeepIntent(env, t, r.path, r.key, intent);
    if x.Some? {
      EffectOlder(t, t', target, key, deep, r.baseline, x.value);
    }
    if Covered(env, t, base, x, d) {
      EffectKeeps(env, t, t', target, key, deep, r.baseline, base, x, d);
    }
  }

  lemma QueueKeeps(env: Env, active: Option<Job>, t: Tables, r: Request, base: bool, x: Option<Job>, d: Path)
    requires Sound(env, t, x) && env.acceptsDirectory(d)
    ensures var t' := QueueRequest(env, active, t, r);
            && Sound(env, t', x)
            && (Represented(env, t, base, x, d) ==> Represented(env, t', base, x, d))
            && (!Deferring(active) ==> t'.deferred == t.deferred)
            && (NoBaseline(t.deferred) && !r.baseline ==> NoBaseline(t'.deferred))
  {
    if env.acceptsDirectory(r.path) {
      if Defers(env, active, r.path, r.key) {
        DeferredKeeps(env, active, t, r, base, x, d);
      } else {
        QueuedKeeps(env, active, t, r, base, x, d);
      }
    }
  }

  lemma SameJobs(env: Env, t: Tables, t': Tables, base: bool, x: Option<Job>, d: Path)
    requires t'.jobs == t.jobs
    ensures Covered(env, t, base, x, d) == Covered(env, t', base, x, d)
  {
    forall a ensures CoverAt(env, t, base, x, a, d) == CoverAt(env, t', base, x, a, d) { }
  }

  ghost predicate Asks(env: Setting, r: Request, d: Path) {
    && env.acceptsDirectory(r.path) && r.path <= d && (d == r.path || r.recursive)
    && env.volumeFor(d) == env.volumeFor(r.path)
  }

  /** A request is represented once queued, its whole subtree when it is recursive. */
  lemma QueueAdds(env: Env, active: Option<Job>, t: Tables, r: Request, base: bool, x: Option<Job>, d: Path)
    requires Sound(env, t, x) && env.acceptsDirectory(d)
    requires Asks(env, r, d) && (base ==> r.baseline && !Defers(env, active, r.path, r.key))
    ensures Represented(env, QueueRequest(env, active, t, r), base, x, d)
  {
    var intent := IntentOf(r.recursive, r.baseline, r.due, r.preserve);
    var t' := QueueRequest(env, active, t, r);
    var key := env.VolumeOr(r.path, r.key);
    assert env.AcceptedRoot(r.path);
    if Defers(env, active, r.path, r.key) {
      DeferKeeps(env, t.deferred, r.path, key, r.recursive, r.baseline, d);
    } else {
      QueueEffect(env, active, t, r.path, r.key, intent);
      TargetInVolume(env, t, r.path, r.key, intent);
      EffectAdds(env, t, t', TargetOf(env, t, r.path, r.key, intent), key,
                 DeepIntent(env, t, r.path, r.key, intent), r.baseline, base, x, r.path);
      if d != r.path {
        DeepCoversBelow(env, t', base, x, r.path, d);
      }
    }
  }

  lemma QueueOne(env: Setting, active: Option<Job>, t: Tables, r: Request)
    ensures QueueAll(env, active, t, [r]) == QueueRequest(env, active, t, r)
  {
    assert [r][1..] == [];
  }

  lemma {:induction false} QueueAllKeeps(env: Env, active: Option<Job>, t: Tables, rs: seq<Request>,
                                         base: bool, x: Option<Job>, d: Path)
    requires Sound(env, t, x) && env.acceptsDirectory(d)
    ensures var t' := QueueAll(env, active, t, rs);
            && Sound(env, t', x)
            && (Represented(env, t, base, x, d) ==> Represented(env, t', base, x, d))
            && (!Deferring(active) ==> t'.deferred == t.deferred)
            && (NoBaseline(t.deferred) && (forall i :: 0 <= i < |rs| ==> !rs[i].baseline) ==> NoBaseline(t'.deferred))
    decreases |rs|
  {
    if rs != [] {
      QueueKeeps(env, active, t, rs[0], base, x, d);
      QueueAllKeeps(env, active, QueueRequest(env, active, t, rs[0]), rs[1..], base, x, d);
    }
  }

  lemma {:induction false} QueueAllAdds(env: Env, active: Option<Job>, t: Tables, rs: seq<Request>, i: nat,
                                        base: bool, x: Option<Job>, d: Path)
    requires Sound(env, t, x) && env.acceptsDirectory(d)
    requires i < |rs| && Asks(env, rs[i], d)
    requires base ==> rs[i].baseline && !Defers(env, active, rs[i].path, rs[i].key)
    ensures Represented(env, QueueAll(env, active, t, rs), base, x, d)
    decreases |rs|
  {
    var t1 := QueueRequest(env, active, t, rs[0]);
    QueueKeeps(env, active, t, rs[0], base, x, d);
    if i == 0 {
      QueueAdds(env, active, t, rs[0], base, x, d);
      QueueAllKeeps(env, active, t1, rs[1..], base, x, d);
    } else {
      QueueAllAdds(env, active, t1, rs[1..], i - 1, base, x, d);
    }
  }

  // ---------------------------------------------------------------- draining and overflow

  lemma DeferredRowAsks(env: Env, r: Deferred, d: Path)
    requires OwnedRow(env, r) && DeferredAt(env, r, d)
    ensures Asks(env, Request(r.path, r.volume, r.recursive, r.baseline, 0.0, false), d)
  {
  }

  lemma DeferredAsks(env: Env, rows: seq<Deferred>, d: Path) returns (i: nat)
    requires OwnedRows(env, rows) && Awaits(env, rows, d)
    ensures i < |rows| && Asks(env, DeferredRequests(rows)[i], d)
  {
    var r :| r in rows && DeferredAt(env, r, d);
    i :| 0 <= i < |rows| && rows[i] == r;
    DeferredRowAsks(env, r, d);
    assert DeferredRequests(rows)[i] == Request(r.path, r.volume, r.recursive, r.baseline, 0.0, false);
  }

  lemma DrainKeeps(env: Env, t: Tables, base: bool, x: Option<Job>, d: Path)
    requires Sound(env, t, x) && env.acceptsDirectory(d)
    ensures var t' := Drain(env, t);
            && Sound(env, t', x) && t'.deferred == []
            && (Represented(env, t, base, x, d) ==> Represented(env, t', base, x, d))
  {
    var t0 := t.(deferred := []);
    SameJobs(env, t, t0, base, x, d);
    assert Sound(env, t0, x);
    QueueAllKeeps(env, None, t0, DeferredRequests(t.deferred), base, x, d);
    if !base && Awaits(env, t.deferred, d) {
      var i := DeferredAsks(env, t.deferred, d);
      QueueAllAdds(env, None, t0, DeferredRequests(t.deferred), i, base, x, d);
    }
  }

  lemma CollapsedAdds(env: Env, active: Option<Job>, t: Tables, t0: Tables, key: Key, base: bool, x: Option<Job>, d: Path)
    requires Sound(env, t0, x) && env.acceptsDirectory(d) && key in env.roots
    requires t0.jobs == Collapse(t.jobs, key)
    requires Covered(env, t, base, x, d)
    ensures Represented(env, QueueAll(env, active, t0, RootRequests(env.roots[key], key)), base, x, d)
  {
    var rs := RootRequests(env.roots[key], key);
    var a :| CoverAt(env, t, base, x, a, d);
    if a in t0.jobs {
      assert CoverAt(env, t0, base, x, a, d);
      QueueAllKeeps(env, active, t0, rs, base, x, d);
    } else {
      var i := RootOf(env, d);
      assert rs[i].path == env.roots[key][i] && rs[i].recursive;
      assert Asks(env, rs[i], d);
      QueueAllAdds(env, active, t0, rs, i, base, x, d);
    }
  }

  lemma CollapsedKeeps(env: Env, active: Option<Job>, t: Tables, t0: Tables, key: Key, base: bool, x: Option<Job>, d: Path)
    requires Sound(env, t0, x) && env.acceptsDirectory(d) && key in env.roots
    requires t0.jobs == Collapse(t.jobs, key) && t0.deferred == t.deferred
    ensures var t' := QueueAll(env, active, t0, RootRequests(env.roots[key], key));
            && Sound(env, t', x)
            && (Represented(env, t, base, x, d) ==> Represented(env, t', base, x, d))
            && (NoBaseline(t.deferred) ==> NoBaseline(t'.deferred))
  {
    QueueAllKeeps(env, active, t0, RootRequests(env.roots[key], key), base, x, d);
    if Covered(env, t, base, x, d) {
      CollapsedAdds(env, active, t, t0, key, base, x, d);
    }
  }

  /** Overflow replaces shallow requests by recursive roots: nothing stops being represented. */
  lemma OverflowKeeps(env: Env, active: Option<Job>, t: Tables, key: Key, base: bool, x: Option<Job>, d: Path)
    requires Sound(env, t, x) && env.acceptsDirectory(d)
    ensures var t' := BoundQueue(env, active, t, key);
            && Sound(env, t', x)
            && (Represented(env, t, base, x, d) ==> Represented(env, t', base, x, d))
            && (NoBaseline(t.deferred) ==> NoBaseline(t'.deferred))
  {
    if Overflows(t, key) && key in env.roots {
      CollapseSound(env, t, key, x);
      CollapsedKeeps(env, active, t, t.(jobs := Collapse(t.jobs, key)), key, base, x, d);
    }
  }

  lemma CollapseSound(env: Env, t: Tables, key: Key, x: Option<Job>)
    requires Sound(env, t, x)
    ensures Sound(env, t.(jobs := Collapse(t.jobs, key)), x)
  {
  }
}
