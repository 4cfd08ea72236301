/** A committed observation hands every directory its row stood for to other rows. */
module Commits {
  import opened Paths
  import opened JobTable
  import opened Coverage
  import opened Deferral
  import opened Queueing
  import opened Worker

  /** Same rows up to scheduling columns. */
  ghost predicate SameShape(t: Tables, t': Tables) {
    && t'.deferred == t.deferred && t'.births == t.births && t'.jobs.Keys == t.jobs.Keys
    && forall p :: p in t.jobs ==> SameRow(t.jobs[p], t'.jobs[p])
  }

  predicate SameRow(r: Row, r': Row) {
    && r'.volume == r.volume && r'.recursive == r.recursive && r'.baseline == r.baseline
    && r'.generation == r.generation && r'.birth == r.birth
  }

  lemma ShapeKeeps(env: Env, t: Tables, t': Tables, base: bool, x: Option<Job>, d: Path)
    requires SameShape(t, t')
    ensures Sound(env, t, x) ==> Sound(env, t', x)
    ensures Represented(env, t, base, x, d) == Represented(env, t', base, x, d)
  {
    forall a ensures CoverAt(env, t, base, x, a, d) == CoverAt(env, t', base, x, a, d) { }
  }

  // ---------------------------------------------------------------- what the oracle promises

  /** The static tree: accepted directories, closed under ancestors of the same volume. */
  ghost predicate Tree(env: Setting, tree: set<Path>) {
    && (forall d :: d in tree ==> env.acceptsDirectory(d) && env.accepts(d) && !env.package(d))
    && (forall d, p :: d in tree && p <= d && env.volumeFor(p) == env.volumeFor(d) ==> p in tree)
  }

  /** A complete observation of a directory of the tree names each of its subdirectories, as a
      listed child or as an error, or reports an error at the directory itself. */
  ghost predicate Exhaustive(env: Setting, tree: set<Path>, job: Job, o: Observation) {
    job.path in tree ==>
      && !o.skipped && o.scope == job.path
      && (forall q :: q in tree ==> q !in o.plain)
      && (o.complete ==>
            || SelfError(env, job, o)
            || forall c :: c in tree && job.path < c && Parent(c) == job.path && env.volumeFor(c) == env.volumeFor(job.path)
                 ==> c in o.children || c in o.errors)
  }

  ghost predicate SelfError(env: Setting, job: Job, o: Observation) {
    exists i :: 0 <= i < |o.errors| && FailedAt(env, job, o, o.errors[i]) == (job.path, job.recursive)
  }

  // ---------------------------------------------------------------- single stages

  /** Rows only disappear or change scheduling columns. */
  ghost predicate Shrinks(t: Tables, t': Tables) {
    && t'.deferred == t.deferred && t'.births == t.births
    && forall p :: p in t'.jobs ==> p in t.jobs && SameRow(t.jobs[p], t'.jobs[p])
  }

  lemma ShrinkSound(env: Env, t: Tables, t': Tables, x: Option<Job>)
    requires Sound(env, t, x) && Shrinks(t, t')
    ensures Sound(env, t', x)
  {
  }

  lemma AcknowledgeShrinks(t: Tables, job: Job, clean: bool)
    ensures Shrinks(t, Acknowledge(t, job, clean))
  {
    assert Shrinks(t, YieldNewer(t, job));
  }

  lemma AcknowledgeSound(env: Env, t: Tables, job: Job, clean: bool, x: Option<Job>)
    requires Sound(env, t, x)
    ensures Sound(env, Acknowledge(t, job, clean), x)
    ensures Acknowledge(t, job, clean).deferred == t.deferred
  {
    AcknowledgeShrinks(t, job, clean);
    ShrinkSound(env, t, Acknowledge(t, job, clean), x);
  }

  lemma AcknowledgeCovers(env: Env, t: Tables, job: Job, clean: bool, base: bool, x: Option<Job>, d: Path)
    requires Covered(env, t, base, x, d)
    ensures || Covered(env, Acknowledge(t, job, clean), base, x, d)
            || (Acknowledges(t, job) && !OrdinaryTurn(job) && CoverAt(env, t, base, x, job.path, d))
  {
    var a :| CoverAt(env, t, base, x, a, d);
    if a != job.path || OrdinaryTurn(job) || !Acknowledges(t, job) {
      assert CoverAt(env, Acknowledge(t, job, clean), base, x, a, d);
    }
  }

  lemma MarkKeeps(env: Env, t: Tables, path: Path, attempt: nat, due: real, base: bool, x: Option<Job>, d: Path)
    ensures var t' := MarkFailed(t, path, attempt, due);
            && t'.deferred == t.deferred
            && (Sound(env, t, x) ==> Sound(env, t', x))
            && Represented(env, t, base, x, d) == Represented(env, t', base, x, d)
  {
    ShapeKeeps(env, t, MarkFailed(t, path, attempt, due), base, x, d);
  }

  ghost predicate Claims(env: Setting, r: Request, base: bool, d: Path) {
    Asks(env, r, d) && (base ==> r.baseline)
  }

  lemma RetryErrorKeeps(env: Env, t: Tables, job: Job, o: Observation, f: Path, now: real,
                        base: bool, x: Option<Job>, d: Path)
    requires Sound(env, t, x) && env.acceptsDirectory(d)
    ensures var t' := RetryError(env, t, job, o, f, now);
            && Sound(env, t', x) && t'.deferred == t.deferred
            && ((Represented(env, t, base, x, d) || Claims(env, ErrorRequest(env, job, o, f, now), base, d))
                  ==> Represented(env, t', base, x, d))
  {
    var r := ErrorRequest(env, job, o, f, now);
    QueueKeepsOrAdds(env, t, r, base, x, d);
    var t1 := QueueRequest(env, None, t, r);
    MarkKeeps(env, t1, r.path, job.attempts + 1, r.due, base, x, d);
    assert RetryError(env, t, job, o, f, now) == MarkFailed(t1, r.path, job.attempts + 1, r.due);
  }

  lemma QueueKeepsOrAdds(env: Env, t: Tables, r: Request, base: bool, x: Option<Job>, d: Path)
    requires Sound(env, t, x) && env.acceptsDirectory(d)
    ensures var t' := QueueRequest(env, None, t, r);
            && Sound(env, t', x) && t'.deferred == t.deferred
            && ((Represented(env, t, base, x, d) || Claims(env, r, base, d)) ==> Represented(env, t', base, x, d))
  {
    QueueKeeps(env, None, t, r, base, x, d);
    if Claims(env, r, base, d) {
      QueueAdds(env, None, t, r, base, x, d);
    }
  }

  ghost predicate ErrorClaims(env: Setting, job: Job, o: Observation, errors: seq<Path>, now: real, base: bool, d: Path) {
    exists f :: f in errors && Claims(env, ErrorRequest(env, job, o, f, now), base, d)
  }

  lemma {:induction false} RetryErrorsKeep(env: Env, t: Tables, job: Job, o: Observation, errors: seq<Path>, now: real,
                                           base: bool, x: Option<Job>, d: Path)
    requires Sound(env, t, x) && env.acceptsDirectory(d)
    ensures var t' := RetryErrors(env, t, job, o, errors, now);
            && Sound(env, t', x) && t'.deferred == t.deferred
            && ((Represented(env, t, base, x, d) || ErrorClaims(env, job, o, errors, now, base, d))
                  ==> Represented(env, t', base, x, d))
    decreases |errors|
  {
    if errors != [] {
      RetryErrorKeeps(env, t, job, o, errors[0], now, base, x, d);
      RetryErrorsKeep(env, RetryError(env, t, job, o, errors[0], now), job, o, errors[1..], now, base, x, d);
      if ErrorClaims(env, job, o, errors, now, base, d) {
        FirstOrRest(env, job, o, errors, now, base, d);
      }
    }
  }

  lemma FirstOrRest(env: Env, job: Job, o: Observation, errors: seq<Path>, now: real, base: bool, d: Path)
    requires errors != [] && ErrorClaims(env, job, o, errors, now, base, d)
    ensures Claims(env, ErrorRequest(env, job, o, errors[0], now), base, d) || ErrorClaims(env, job, o, errors[1..], now, base, d)
  {
    var f :| f in errors && Claims(env, ErrorRequest(env, job, o, f, now), base, d);
    assert f == errors[0] || f in errors[1..];
  }

  lemma {:induction false} ChildRequestAt(env: Env, job: Job, o: Observation, children: seq<Path>, c: Path) returns (i: nat)
    requires c in children && Descends(env, job, o.known, c)
    ensures var rs := ChildRequests(env, job, o, children);
            i < |rs| && rs[i] == Request(c, job.volume, true, job.ScansBaseline(), 0.0, true)
    decreases |children|
  {
    if children[0] == c {
      i := 0;
    } else {
      var j := ChildRequestAt(env, job, o, children[1..], c);
      i := if Descends(env, job, o.known, children[0]) then j + 1 else j;
    }
  }

  // ---------------------------------------------------------------- the whole commit

  ghost function Before(env: Setting, t: Tables, job: Job, o: Observation): Tables {
    QueueAll(env, None, QueueAll(env, None, Acknowledge(t, job, o.errors == []), ParentRequests(env, job, o)),
             ChildRequests(env, job, o, o.children))
  }

  lemma BeforeKeeps(env: Env, t: Tables, job: Job, o: Observation, base: bool, x: Option<Job>, d: Path)
    requires Sound(env, t, x) && env.acceptsDirectory(d)
    ensures var t3 := Before(env, t, job, o);
            && Sound(env, t3, x) && t3.deferred == t.deferred
            && (Represented(env, Acknowledge(t, job, o.errors == []), base, x, d) ==> Represented(env, t3, base, x, d))
  {
    var t1 := Acknowledge(t, job, o.errors == []);
    AcknowledgeSound(env, t, job, o.errors == [], x);
    QueueAllKeeps(env, None, t1, ParentRequests(env, job, o), base, x, d);
    QueueAllKeeps(env, None, QueueAll(env, None, t1, ParentRequests(env, job, o)), ChildRequests(env, job, o, o.children), base, x, d);
  }

  lemma FinishFrom(env: Env, t: Tables, job: Job, o: Observation, now: real, base: bool, x: Option<Job>, d: Path)
    requires Sound(env, t, x) && env.acceptsDirectory(d)
    ensures Sound(env, Finish(env, t, job, o, now), x) && Finish(env, t, job, o, now).deferred == []
    ensures (Represented(env, Before(env, t, job, o), base, x, d) || ErrorClaims(env, job, o, o.errors, now, base, d))
            ==> Represented(env, Finish(env, t, job, o, now), base, x, d)
  {
    var t3 := Before(env, t, job, o);
    BeforeKeeps(env, t, job, o, base, x, d);
    RetryErrorsKeep(env, t3, job, o, o.errors, now, base, x, d);
    var t4 := RetryErrors(env, t3, job, o, o.errors, now);
    DrainKeeps(env, t4, base, x, d);
    assert Finish(env, t, job, o, now) == Drain(env, t4);
  }

  lemma ErrorCovers(env: Env, t: Tables, job: Job, o: Observation, now: real, i: nat,
                    base: bool, x: Option<Job>, d: Path)
    requires Sound(env, t, x) && env.acceptsDirectory(d)
    requires i < |o.errors| && Claims(env, ErrorRequest(env, job, o, o.errors[i], now), base, d)
    ensures Represented(env, Finish(env, t, job, o, now), base, x, d)
  {
    FinishFrom(env, t, job, o, now, base, x, d);
    assert ErrorClaims(env, job, o, o.errors, now, base, d);
  }

  lemma TreeStep(env: Env, tree: set<Path>, above: Path, d: Path)
    requires Tree(env, tree) && d in tree && above < d && env.volumeFor(above) == env.volumeFor(d)
    ensures var c := Toward(above, d); c in tree && env.volumeFor(c) == env.volumeFor(d) && above in tree
  {
    assert env.AcceptedRoot(d);
    env.Between(above, Toward(above, d), d);
  }

  /** The turn deletes the row at its directory. */
  predicate Deletes(t: Tables, job: Job) { Acknowledges(t, job) && !OrdinaryTurn(job) }

  /** The row a commit acknowledges was deleted and inserted again since the observation began. */
  predicate Recreated(t: Tables, job: Job) {
    Acknowledges(t, job) && t.jobs[job.path].birth != job.birth
  }

  /** Shape S: scanned as a shallow turn although the row is recursive. */
  predicate ShallowTurnOfRecursiveRow(job: Job) {
    job.recursive && !job.baseline && job.scope == 1
  }

  /** The row to delete is the one that was read, and the turn went as deep as it reaches. */
  predicate Regular(t: Tables, job: Job, base: bool) {
    && !Recreated(t, job) && (base || !ShallowTurnOfRecursiveRow(job))
    && (Acknowledges(t, job) ==> t.jobs[job.path].recursive == job.recursive && t.jobs[job.path].baseline == job.baseline)
  }

  /** Something other than the row at `p` represents `d`. */
  ghost predicate Spared(env: Setting, t: Tables, base: bool, x: Option<Job>, p: Path, d: Path) {
    (exists a :: a != p && CoverAt(env, t, base, x, a, d)) || (!base && Awaits(env, t.deferred, d))
  }

  ghost predicate AskedBy(env: Setting, rs: seq<Request>, base: bool, d: Path) {
    exists i :: 0 <= i < |rs| && Claims(env, rs[i], base, d)
  }

  /** A request of this commit asks for `d`: for the parent, for a child, or for a failed directory. */
  ghost predicate HandedOn(env: Setting, job: Job, o: Observation, now: real, base: bool, d: Path) {
    || AskedBy(env, ParentRequests(env, job, o), base, d)
    || AskedBy(env, ChildRequests(env, job, o, o.children), base, d)
    || ErrorClaims(env, job, o, o.errors, now, base, d)
  }

  ghost predicate Answered(env: Setting, t: Tables, job: Job, o: Observation, now: real, base: bool, x: Option<Job>, d: Path) {
    Spared(env, t, base, x, job.path, d) || HandedOn(env, job, o, now, base, d)
  }

  /** A complete recursive turn hands on everything of the tree below its directory, and does so as
      baseline work when it was a baseline turn. */
  lemma RecursiveTurnHandsOn(env: Env, tree: set<Path>, job: Job, o: Observation, now: real, base: bool, d: Path)
    requires Tree(env, tree) && d in tree && job.path < d && env.volumeFor(job.path) == env.volumeFor(d)
    requires Exhaustive(env, tree, job, o) && o.complete
    requires job.recursive && job.ScansRecursively() && (base ==> job.ScansBaseline())
    ensures HandedOn(env, job, o, now, base, d)
  {
    var c := Toward(job.path, d);
    TreeStep(env, tree, job.path, d);
    Named(env, tree, job, o, c);
    if SelfError(env, job, o) {
      SelfHandsOn(env, job, o, now, base, d);
    } else if c in o.children {
      ChildHandsOn(env, job, o, c, base, d);
    } else {
      ErrorBelow(env, tree, job, o, now, c, base, d);
    }
  }

  /** A subdirectory is listed or reported as an error, unless the directory itself failed. */
  lemma Named(env: Env, tree: set<Path>, job: Job, o: Observation, c: Path)
    requires Exhaustive(env, tree, job, o) && o.complete && job.path in tree
    requires c in tree && job.path < c && Parent(c) == job.path && env.volumeFor(c) == env.volumeFor(job.path)
    ensures SelfError(env, job, o) || c in o.children || c in o.errors
    ensures o.scope == job.path && c !in o.plain
  {
  }

  lemma SelfHandsOn(env: Env, job: Job, o: Observation, now: real, base: bool, d: Path)
    requires SelfError(env, job, o) && job.recursive && (base ==> job.baseline)
    requires env.acceptsDirectory(job.path) && job.path <= d && env.volumeFor(job.path) == env.volumeFor(d)
    ensures ErrorClaims(env, job, o, o.errors, now, base, d)
  {
    var i :| 0 <= i < |o.errors| && FailedAt(env, job, o, o.errors[i]) == (job.path, job.recursive);
    assert Claims(env, ErrorRequest(env, job, o, o.errors[i], now), base, d);
  }

  lemma ChildHandsOn(env: Env, job: Job, o: Observation, c: Path, base: bool, d: Path)
    requires c in o.children && Descends(env, job, o.known, c) && (base ==> job.ScansBaseline())
    requires env.acceptsDirectory(c) && c <= d && env.volumeFor(c) == env.volumeFor(d)
    ensures AskedBy(env, ChildRequests(env, job, o, o.children), base, d)
  {
    var i := ChildRequestAt(env, job, o, o.children, c);
    assert Claims(env, ChildRequests(env, job, o, o.children)[i], base, d);
  }

  lemma ErrorBelow(env: Env, tree: set<Path>, job: Job, o: Observation, now: real, c: Path, base: bool, d: Path)
    requires Tree(env, tree) && c in tree && job.path < c <= d && env.volumeFor(c) == env.volumeFor(d)
    requires c in o.errors && c !in o.plain && o.scope == job.path && job.recursive && (base ==> job.baseline)
    ensures ErrorClaims(env, job, o, o.errors, now, base, d)
  {
    var i :| 0 <= i < |o.errors| && o.errors[i] == c;
    assert FailedAt(env, job, o, o.errors[i]) == (c, job.recursive);
    assert Claims(env, ErrorRequest(env, job, o, o.errors[i], now), base, d);
  }

  lemma AskedAdds(env: Env, t: Tables, rs: seq<Request>, base: bool, x: Option<Job>, d: Path)
    requires Sound(env, t, x) && env.acceptsDirectory(d) && AskedBy(env, rs, base, d)
    ensures Represented(env, QueueAll(env, None, t, rs), base, x, d)
  {
    var i :| 0 <= i < |rs| && Claims(env, rs[i], base, d);
    QueueAllAdds(env, None, t, rs, i, base, x, d);
  }

  lemma HandedOnRepresents(env: Env, t: Tables, job: Job, o: Observation, now: real, base: bool, x: Option<Job>, d: Path)
    requires Sound(env, t, x) && env.acceptsDirectory(d) && HandedOn(env, job, o, now, base, d)
    ensures Represented(env, Finish(env, t, job, o, now), base, x, d)
  {
    var t1 := Acknowledge(t, job, o.errors == []);
    var t2 := QueueAll(env, None, t1, ParentRequests(env, job, o));
    AcknowledgeSound(env, t, job, o.errors == [], x);
    QueueAllKeeps(env, None, t1, ParentRequests(env, job, o), base, x, d);
    if AskedBy(env, ParentRequests(env, job, o), base, d) {
      AskedAdds(env, t1, ParentRequests(env, job, o), base, x, d);
    }
    QueueAllKeeps(env, None, t2, ChildRequests(env, job, o, o.children), base, x, d);
    if AskedBy(env, ChildRequests(env, job, o, o.children), base, d) {
      AskedAdds(env, t2, ChildRequests(env, job, o, o.children), base, x, d);
    }
    FinishFrom(env, t, job, o, now, base, x, d);
  }

  lemma AnsweredKeeps(env: Env, t: Tables, job: Job, o: Observation, now: real, base: bool, x: Option<Job>, d: Path)
    requires Sound(env, t, x) && env.acceptsDirectory(d) && Answered(env, t, job, o, now, base, x, d)
    ensures Represented(env, Finish(env, t, job, o, now), base, x, d)
  {
    if HandedOn(env, job, o, now, base, d) {
      HandedOnRepresents(env, t, job, o, now, base, x, d);
    } else {
      SparedStays(env, t, job, o.errors == [], base, x, d);
      BeforeKeeps(env, t, job, o, base, x, d);
      FinishFrom(env, t, job, o, now, base, x, d);
    }
  }

  lemma AcknowledgeLeaves(t: Tables, job: Job, clean: bool, a: Path)
    ensures var t1 := Acknowledge(t, job, clean);
            && t1.deferred == t.deferred
            && (a != job.path ==> (a in t1.jobs <==> a in t.jobs) && (a in t.jobs ==> SameRow(t.jobs[a], t1.jobs[a])))
  {
  }

  lemma SparedStays(env: Env, t: Tables, job: Job, clean: bool, base: bool, x: Option<Job>, d: Path)
    requires Spared(env, t, base, x, job.path, d)
    ensures Represented(env, Acknowledge(t, job, clean), base, x, d)
  {
    if a :| a != job.path && CoverAt(env, t, base, x, a, d) {
      AcknowledgeLeaves(t, job, clean, a);
      SameCover(env, t, Acknowledge(t, job, clean), base, x, a, d);
    } else {
      AcknowledgeLeaves(t, job, clean, job.path);
    }
  }

  lemma SameCover(env: Env, t: Tables, t': Tables, base: bool, x: Option<Job>, a: Path, d: Path)
    requires CoverAt(env, t, base, x, a, d) && a in t'.jobs && SameRow(t.jobs[a], t'.jobs[a])
    ensures CoverAt(env, t', base, x, a, d)
  {
  }

  /** What an acknowledged row stood for passes to its children, its failed entries or its parent. */
  lemma HandsOver(env: Env, tree: set<Path>, t: Tables, job: Job, o: Observation, now: real,
                  base: bool, x: Option<Job>, d: Path)
    requires Sound(env, t, x) && Tree(env, tree) && d in tree
    requires Exhaustive(env, tree, job, o) && o.complete
    requires Deletes(t, job) && CoverAt(env, t, base, x, job.path, d)
    requires Regular(t, job, base) || Answered(env, t, job, o, now, base, x, d)
    ensures Represented(env, Finish(env, t, job, o, now), base, x, d) || (d == job.path && !Erred(env, job, o))
  {
    if Answered(env, t, job, o, now, base, x, d) {
      AnsweredKeeps(env, t, job, o, now, base, x, d);
    } else if d != job.path {
      RecursiveTurnHandsOn(env, tree, job, o, now, base, d);
    } else if Erred(env, job, o) {
      var i :| 0 <= i < |o.errors| && FailedAt(env, job, o, o.errors[i]).0 == job.path;
      ErrorCovers(env, t, job, o, now, i, base, x, d);
    }
  }

  lemma AcknowledgeKeepsOthers(env: Env, t: Tables, job: Job, clean: bool, base: bool, d: Path)
    requires !Recreated(t, job) && Represented(env, t, base, Some(job), d)
    ensures Represented(env, Acknowledge(t, job, clean), base, None, d)
  {
    if Covered(env, t, base, Some(job), d) {
      var a :| CoverAt(env, t, base, Some(job), a, d);
      assert CoverAt(env, Acknowledge(t, job, clean), base, None, a, d);
    }
  }

  /** A commit keeps every directory of the tree represented, except its own when that was observed
      without error and nothing newer than the observation stands for it. If it deletes a row that
      was re-created or that reaches deeper than the turn went, it keeps what is answered. */
  lemma FinishKeeps(env: Env, tree: set<Path>, t: Tables, job: Job, o: Observation, now: real,
                    base: bool, x: Option<Job>, d: Path)
    requires Sound(env, t, x) && Tree(env, tree) && d in tree
    requires Exhaustive(env, tree, job, o) && o.complete
    requires Deletes(t, job) ==> Regular(t, job, base) || Answered(env, t, job, o, now, base, x, d)
    requires x.Some? ==> d != job.path
    requires Represented(env, t, base, x, d)
    ensures || Represented(env, Finish(env, t, job, o, now), base, x, d)
            || (d == job.path && !Erred(env, job, o) && !Represented(env, t, base, Some(job), d))
  {
    if Answered(env, t, job, o, now, base, x, d) {
      AnsweredKeeps(env, t, job, o, now, base, x, d);
    } else if Represented(env, Acknowledge(t, job, o.errors == []), base, x, d) {
      BeforeKeeps(env, t, job, o, base, x, d);
      FinishFrom(env, t, job, o, now, base, x, d);
    } else {
      LetGo(env, t, job, o.errors == [], base, x, d);
      HandsOver(env, tree, t, job, o, now, base, x, d);
    }
  }

  lemma LetGo(env: Env, t: Tables, job: Job, clean: bool, base: bool, x: Option<Job>, d: Path)
    requires Sound(env, t, x) && Represented(env, t, base, x, d) && !Represented(env, Acknowledge(t, job, clean), base, x, d)
    requires x.Some? ==> d != job.path
    ensures Deletes(t, job) && CoverAt(env, t, base, x, job.path, d)
    ensures Recreated(t, job) || d != job.path || !Represented(env, t, base, Some(job), d)
  {
    AcknowledgeSound(env, t, job, clean, x);
    AcknowledgeCovers(env, t, job, clean, base, x, d);
    if d == job.path {
      NotNewer(env, t, job, clean, base, d);
    }
  }

  lemma NotNewer(env: Env, t: Tables, job: Job, clean: bool, base: bool, d: Path)
    requires !Represented(env, Acknowledge(t, job, clean), base, None, d)
    ensures Recreated(t, job) || !Represented(env, t, base, Some(job), d)
  {
    if !Recreated(t, job) && Represented(env, t, base, Some(job), d) {
      AcknowledgeKeepsOthers(env, t, job, clean, base, d);
    }
  }
}
