/** What the end of an observation asks for, said of the observation itself: the parent of a vanished scope,
    the children to go on with, and the paths that failed. */
module HandedOver {
  import opened Paths
  import opened JobTable
  import opened Coverage
  import opened Deferral
  import opened Queueing
  import opened Worker
  import opened Commits

  /** A request for `path`, with its subtree or without, asks for `d`. */
  ghost predicate Reaches(env: Setting, path: Path, deep: bool, d: Path) {
    env.acceptsDirectory(path) && env.volumeFor(path) == env.volumeFor(d) && (d == path || (deep && path <= d))
  }

  /** Nothing was enumerated and nothing failed, so that the scope is gone: its accepted parent is asked for,
      alone and not as baseline work. */
  ghost predicate ParentLooks(env: Setting, o: Observation, base: bool, d: Path) {
    && !base && o.listed == {} && o.errors == [] && o.scope != []
    && env.accepts(o.scope[..|o.scope| - 1]) && Reaches(env, o.scope[..|o.scope| - 1], false, d)
  }

  /** An accepted child that is no package and that a recursive turn found, or that is new, is asked for with
      its subtree, as baseline work by a turn of the baseline walk. */
  ghost predicate ChildGoesOn(env: Setting, job: Job, o: Observation, base: bool, c: Path, d: Path) {
    && c in o.children && env.accepts(c) && !env.package(c) && Reaches(env, c, true, d)
    && (job.scope == 2 || (job.scope == 0 && job.recursive) || c !in o.known)
    && (base ==> job.baseline && job.scope == 0)
  }

  /** A failed path is asked for with its subtree if the row was recursive, as baseline work if the row had
      some. A path that is outside the scope or not accepted stands for the scope; one that is recorded as
      something else than a directory, below an enumerated directory, is looked up in that directory. */
  ghost predicate FailureGoesOn(env: Setting, job: Job, o: Observation, base: bool, f: Path, d: Path) {
    && f in o.errors && (base ==> job.baseline)
    && var at := if o.scope <= f && env.accepts(f) then f else o.scope;
       if Parent(at) in o.listed && at in o.plain && at !in o.listed then Reaches(env, Parent(at), false, d)
       else Reaches(env, at, job.recursive, d)
  }

  lemma AsksReaches(env: Env, r: Request, base: bool, d: Path)
    requires env.acceptsDirectory(d)
    ensures Claims(env, r, base, d) <==> Reaches(env, r.path, r.recursive, d) && (base ==> r.baseline)
  {
  }

  lemma AskedFirst(env: Env, r: Request, rest: seq<Request>, base: bool, d: Path)
    ensures AskedBy(env, [r] + rest, base, d) <==> Claims(env, r, base, d) || AskedBy(env, rest, base, d)
  {
    var all := [r] + rest;
    assert all[0] == r && forall i :: 0 <= i < |rest| ==> all[i + 1] == rest[i];
    if i :| 0 <= i < |rest| && Claims(env, rest[i], base, d) {
      assert Claims(env, all[i + 1], base, d);
    }
  }

  ghost predicate Follows(env: Setting, job: Job, o: Observation, base: bool, c: Path, d: Path) {
    Descends(env, job, o.known, c) && Reaches(env, c, true, d) && (base ==> job.ScansBaseline())
  }

  lemma {:induction false} ChildrenAsk(env: Env, job: Job, o: Observation, children: seq<Path>, base: bool, d: Path)
    requires env.acceptsDirectory(d)
    ensures AskedBy(env, ChildRequests(env, job, o, children), base, d) <==> exists c :: c in children && Follows(env, job, o, base, c, d)
    decreases |children|
  {
    if children != [] {
      var c, rest := children[0], ChildRequests(env, job, o, children[1..]);
      ChildrenAsk(env, job, o, children[1..], base, d);
      assert c in children && forall k :: k in children[1..] ==> k in children;
      assert forall k :: k in children && Follows(env, job, o, base, k, d) ==> k == c || k in children[1..];
      if Descends(env, job, o.known, c) {
        var r := Request(c, job.volume, true, job.ScansBaseline(), 0.0, true);
        AsksReaches(env, r, base, d);
        AskedFirst(env, r, rest, base, d);
        assert Claims(env, r, base, d) <==> Follows(env, job, o, base, c, d);
      } else {
        assert !Follows(env, job, o, base, c, d);
      }
    }
  }

  lemma ErrorAsks(env: Env, job: Job, o: Observation, f: Path, now: real, base: bool, d: Path)
    requires env.acceptsDirectory(d) && f in o.errors
    ensures Claims(env, ErrorRequest(env, job, o, f, now), base, d) <==> FailureGoesOn(env, job, o, base, f, d)
  {
    AsksReaches(env, ErrorRequest(env, job, o, f, now), base, d);
  }

  /** Exactly what the end of an observation asks for. */
  lemma HandedOnIff(env: Env, job: Job, o: Observation, now: real, base: bool, d: Path)
    requires env.acceptsDirectory(d)
    ensures HandedOn(env, job, o, now, base, d)
            <==> || ParentLooks(env, o, base, d)
                 || (exists c :: ChildGoesOn(env, job, o, base, c, d))
                 || (exists f :: FailureGoesOn(env, job, o, base, f, d))
  {
    ParentIs(env, job, o, base, d);
    ChildrenAsk(env, job, o, o.children, base, d);
    forall c ensures ChildGoesOn(env, job, o, base, c, d) <==> c in o.children && Follows(env, job, o, base, c, d) { }
    forall f | f in o.errors ensures Claims(env, ErrorRequest(env, job, o, f, now), base, d) <==> FailureGoesOn(env, job, o, base, f, d) {
      ErrorAsks(env, job, o, f, now, base, d);
    }
  }

  lemma ParentIs(env: Env, job: Job, o: Observation, base: bool, d: Path)
    requires env.acceptsDirectory(d)
    ensures AskedBy(env, ParentRequests(env, job, o), base, d) <==> ParentLooks(env, o, base, d)
  {
    AsksReaches(env, Request(Parent(o.scope), job.volume, false, false, 0.0, false), base, d);
    assert Parent(o.scope) == o.scope <==> o.scope == [];
    var rs := ParentRequests(env, job, o);
    if rs != [] {
      assert Claims(env, rs[0], base, d) <==> AskedBy(env, rs, base, d);
    }
  }
}
