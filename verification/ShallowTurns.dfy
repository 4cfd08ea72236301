/** A run that loses a request: a shallow request coalesces into a recursive continuation, the next
    turn is shallow, and the recursive row is deleted with it (`Losses.ShallowTurnKeepsIff`). */
module ShallowTurns {
  import opened Paths
  import opened JobTable
  import opened Coverage
  import opened Deferral
  import opened Queueing
  import opened Worker
  import opened Commits
  import opened Crawl
  import opened Requests
  import opened Example

  const IDLE := State(Tables(map[], [], 0, 0, 0), None, map[], [], false, 0, map[], {})

  /** A root with one subdirectory, which has one subdirectory: this is all there is. */
  datatype Chain = Chain(root: Path, sub: Path, leaf: Path)
  {
    predicate Valid() { root < sub < leaf && Parent(sub) == root && Parent(leaf) == sub }

    function Tree(): set<Path> { {root, sub, leaf} }
  }

  /** One row in the table, recursive and no baseline work. */
  ghost predicate Alone(t: Tables, p: Path, scope: Scope) {
    && t.deferred == [] && t.jobs.Keys == {p} && t.jobs[p].volume == KEY && t.jobs[p].recursive && !t.jobs[p].baseline
    && t.jobs[p].scope == scope
  }

  /** That row, and no observation in flight. */
  ghost predicate OnlyRow(s: State, p: Path, scope: Scope) {
    s.active == None && s.receipts == map[] && Alone(s.t, p, scope)
  }

  ghost predicate Owes(s: State, d: Path) { d in s.owed && s.owed[d] <= s.clock }

  lemma TreeHolds(env: Env, chain: Chain)
    requires Whole(env, chain.root) && chain.Valid()
    ensures Tree(env, chain.Tree())
  {
    forall d, p ensures ClosedAt(chain.Tree(), chain.root, d, p) {
      if d in chain.Tree() && chain.root <= p <= d {
        Between(chain, d, p);
      }
    }
    IsTree(env, chain.root, chain.Tree());
  }

  lemma Between(chain: Chain, d: Path, p: Path)
    requires chain.Valid() && d in chain.Tree() && chain.root <= p <= d
    ensures p in chain.Tree()
  {
    var (root, sub, leaf) := (chain.root, chain.sub, chain.leaf);
    assert |sub| == |root| + 1 && |leaf| == |sub| + 1;
    assert p <= leaf && p == leaf[..|p|] && root == leaf[..|root|] && sub == leaf[..|sub|];
    assert p == root || p == sub || p == leaf;
  }

  /** Everything below the root is requested. */
  lemma Requested(env: Env, chain: Chain) returns (s: State)
    requires Whole(env, chain.root) && chain.Valid()
    ensures s == Next(env, chain.Tree(), IDLE, Intake(chain.root, KEY, true)) && OnlyRow(s, chain.root, 2) && Owes(s, chain.leaf)
  {
    s := Next(env, chain.Tree(), IDLE, Intake(chain.root, KEY, true));
    Intakes(env, chain.Tree(), IDLE, chain.root, true);
    RecursiveGains(env, chain.root, IDLE.t, chain.root, false, false);
    AsksLeaf(env, chain);
  }

  lemma AsksLeaf(env: Env, chain: Chain)
    requires Whole(env, chain.root) && chain.Valid()
    ensures chain.leaf in Asked(env, chain.Tree(), chain.root, true) && chain.leaf !in Asked(env, chain.Tree(), chain.sub, false)
  {
    assert Belongs(env, chain.root, chain.leaf) && Belongs(env, chain.root, chain.root);
  }

  ghost predicate Observing(s: State, p: Path, scope: Scope) {
    && OnlyRow(s.(active := None), p, scope) && s.active == Some(Snapshot(s.t, p, s.clock))
  }

  lemma Taken(env: Env, tree: set<Path>, s: State, p: Path, scope: Scope)
    requires OnlyRow(s, p, scope)
    ensures var s' := Next(env, tree, s, Select({}, [], Some(p)));
            Observing(s', p, scope) && s'.owed == s.owed && s'.clock == s.clock
  {
    Selects(env, tree, s, p);
  }

  /** The recursive turn of the root leaves a continuation at its child. */
  lemma Continued(env: Env, tree: set<Path>, root: Path, sub: Path, d: Path, s: State)
    requires Whole(env, root) && root < sub < d && Observing(s, root, 2) && Owes(s, d)
    ensures var s' := Next(env, tree, s, Commit(Turn(root, sub, {}), 0.0)); OnlyRow(s', sub, 0) && Owes(s', d)
  {
    TurnCommits(env, tree, s, sub, {});
    ContinuedTable(env, root, sub, s.t, s.active.value);
  }

  lemma ContinuedTable(env: Env, root: Path, sub: Path, t: Tables, job: Job)
    requires Whole(env, root) && root < sub && Alone(t, root, 2) && job == Snapshot(t, root, job.began)
    ensures Alone(Finish(env, t, job, Turn(root, sub, {}), 0.0), sub, 0)
  {
    var t1 := t.(jobs := t.jobs - {root});
    TurnFinishes(env, root, t, job, sub, {});
    assert t1.jobs == map[];
    RecursiveGains(env, root, t1, sub, false, true);
  }

  /** A shallow request for the child coalesces into it. */
  lemma Coalesced(env: Env, tree: set<Path>, root: Path, sub: Path, d: Path, s: State)
    requires Whole(env, root) && root <= sub && OnlyRow(s, sub, 0) && Owes(s, d) && d !in Asked(env, tree, sub, false)
    ensures var s' := Next(env, tree, s, Intake(sub, KEY, false)); OnlyRow(s', sub, 1) && Owes(s', d)
  {
    Intakes(env, tree, s, sub, false);
    CoalescedTable(env, root, sub, s.t);
  }

  lemma CoalescedTable(env: Env, root: Path, sub: Path, t: Tables)
    requires Whole(env, root) && root <= sub && Alone(t, sub, 0)
    ensures Alone(QueueRequest(env, None, t, Request(sub, KEY, false, false, 0.0, false)), sub, 1)
  {
    CoalesceGains(env, root, t, sub);
  }

  /** The shallow turn of the child deletes the only row; its known child is not queued. */
  lemma Dropped(env: Env, tree: set<Path>, root: Path, sub: Path, leaf: Path, s: State)
    requires Whole(env, root) && root <= sub < leaf && Observing(s, sub, 1) && Owes(s, leaf)
    ensures var s' := Next(env, tree, s, Commit(Turn(sub, leaf, {leaf}), 0.0));
            s'.t.jobs == map[] && s'.t.deferred == [] && Owes(s', leaf)
    ensures ShallowTurnOfRecursiveRow(s.active.value)
  {
    TurnCommits(env, tree, s, leaf, {leaf});
    TurnFinishes(env, root, s.t, s.active.value, leaf, {leaf});
  }

  lemma FirstTurn(env: Env, chain: Chain, before: seq<Step>, s: State) returns (steps: seq<Step>, s': State)
    requires Whole(env, chain.root) && chain.Valid()
    requires Takes(env, chain.Tree(), IDLE, before, s) && OnlyRow(s, chain.root, 2) && Owes(s, chain.leaf)
    ensures Takes(env, chain.Tree(), IDLE, steps, s') && OnlyRow(s', chain.sub, 0) && Owes(s', chain.leaf)
  {
    var tree := chain.Tree();
    var s1 := Selected(env, tree, before, s, chain.root, 2);
    Continued(env, tree, chain.root, chain.sub, chain.leaf, s1);
    steps, s' := Committed(env, tree, before + [Select({}, [], Some(chain.root))], s1, chain.sub, {});
  }

  lemma Selected(env: Env, tree: set<Path>, before: seq<Step>, s: State, p: Path, scope: Scope) returns (s': State)
    requires Takes(env, tree, IDLE, before, s) && OnlyRow(s, p, scope)
    ensures Takes(env, tree, IDLE, before + [Select({}, [], Some(p))], s') && Observing(s', p, scope)
    ensures s'.owed == s.owed && s'.clock == s.clock
  {
    Taken(env, tree, s, p, scope);
    s' := Next(env, tree, s, Select({}, [], Some(p)));
    TakesThen(env, tree, IDLE, before, s, Select({}, [], Some(p)), s');
  }

  lemma Committed(env: Env, tree: set<Path>, before: seq<Step>, s: State, child: Path, known: set<Path>)
    returns (steps: seq<Step>, s': State)
    requires Takes(env, tree, IDLE, before, s) && s.active.Some? && s.receipts == map[]
    requires forall c :: c in tree && s.active.value.path < c && Parent(c) == s.active.value.path ==> c == child
    ensures Takes(env, tree, IDLE, steps, s') && s' == Next(env, tree, s, Commit(Turn(s.active.value.path, child, known), 0.0))
  {
    var step := Commit(Turn(s.active.value.path, child, known), 0.0);
    TurnIsFair(env, tree, s, child, known);
    s' := Next(env, tree, s, step);
    TakesThen(env, tree, IDLE, before, s, step, s');
    steps := before + [step];
  }

  lemma SecondTurn(env: Env, chain: Chain, before: seq<Step>, s: State) returns (steps: seq<Step>, s': State)
    requires Whole(env, chain.root) && chain.Valid()
    requires Takes(env, chain.Tree(), IDLE, before, s) && OnlyRow(s, chain.sub, 0) && Owes(s, chain.leaf)
    ensures Takes(env, chain.Tree(), IDLE, steps, s') && chain.leaf in s'.owed && s'.t.jobs == map[] && s'.t.deferred == []
  {
    var tree, intake := chain.Tree(), Intake(chain.sub, KEY, false);
    AsksLeaf(env, chain);
    Coalesced(env, tree, chain.root, chain.sub, chain.leaf, s);
    var s1 := Next(env, tree, s, intake);
    TakesThen(env, tree, IDLE, before, s, intake, s1);
    steps, s' := LastTurn(env, chain, before + [intake], s1);
  }

  lemma LastTurn(env: Env, chain: Chain, before: seq<Step>, s: State) returns (steps: seq<Step>, s': State)
    requires Whole(env, chain.root) && chain.Valid()
    requires Takes(env, chain.Tree(), IDLE, before, s) && OnlyRow(s, chain.sub, 1) && Owes(s, chain.leaf)
    ensures Takes(env, chain.Tree(), IDLE, steps, s') && chain.leaf in s'.owed && s'.t.jobs == map[] && s'.t.deferred == []
  {
    var tree := chain.Tree();
    var s1 := Selected(env, tree, before, s, chain.sub, 1);
    Dropped(env, tree, chain.root, chain.sub, chain.leaf, s1);
    steps, s' := Committed(env, tree, before + [Select({}, [], Some(chain.sub))], s1, chain.leaf, {chain.leaf});
  }

  lemma Nothing(env: Env)
    ensures Quiet(env, IDLE)
  {
  }

  /** From a quiet start, steps that the reconciler's promise allows leave a requested directory of the
      tree without any row at it or above it. */
  lemma RequestIsLost(env: Env, chain: Chain) returns (steps: seq<Step>, s: State)
    requires Whole(env, chain.root) && chain.Valid()
    ensures Quiet(env, IDLE) && Tree(env, chain.Tree()) && Takes(env, chain.Tree(), IDLE, steps, s)
    ensures chain.leaf in s.owed && !Represented(env, s.t, false, None, chain.leaf)
  {
    TreeHolds(env, chain);
    Nothing(env);
    var s1 := Requested(env, chain);
    TakesOne(env, chain.Tree(), IDLE, Intake(chain.root, KEY, true), s1);
    var s3;
    steps, s3 := FirstTurn(env, chain, [Intake(chain.root, KEY, true)], s1);
    steps, s := SecondTurn(env, chain, steps, s3);
  }

  /** There is such a configuration with such directories. */
  lemma LosingRunExists() returns (env: Env, chain: Chain, steps: seq<Step>, s: State)
    ensures Quiet(env, IDLE) && Takes(env, chain.Tree(), IDLE, steps, s)
    ensures chain.leaf in s.owed && !Represented(env, s.t, false, None, chain.leaf)
  {
    chain := Chain(["r"], ["r", "b"], ["r", "b", "c"]);
    env := Configured(chain.root);
    steps, s := RequestIsLost(env, chain);
  }
}
