/** When intake is bounded, and what is left of it then. */
module Bounds {
  import opened Paths
  import opened JobTable
  import opened Coverage
  import opened Delays

  /** Live requests, and rows of single directories without baseline work or an error, of the volume. */
  function Intake(jobs: map<Path, Row>, key: Key): set<Path> {
    set p | p in jobs && jobs[p].volume == key
            && (jobs[p].scope > 0 || (!jobs[p].recursive && !jobs[p].baseline && !jobs[p].failed))
  }

  /** What is left of the intake is recursive. */
  ghost predicate Condensed(jobs: map<Path, Row>, key: Key) { forall p :: p in Intake(jobs, key) ==> jobs[p].recursive }

  lemma UpsertCondenses(t: Tables, target: Path, key0: Key, intent: Intent, key: Key)
    requires Condensed(t.jobs, key)
    ensures Condensed(Upsert(t, target, key0, true, intent).jobs, key)
  {
    var jobs' := Upsert(t, target, key0, true, intent).jobs;
    forall p | p in Intake(jobs', key) ensures jobs'[p].recursive {
      assert p != target ==> p in Intake(t.jobs, key);
    }
  }

  lemma MoveCondenses(t: Tables, target: Path, key: Key)
    requires Condensed(t.jobs, key) && target in t.jobs
    ensures Condensed(MoveToTail(t, target).jobs, key)
  {
    var jobs' := MoveToTail(t, target).jobs;
    forall p | p in Intake(jobs', key) ensures jobs'[p].recursive { assert p in Intake(t.jobs, key); }
  }

  lemma AbsorbCondenses(jobs: map<Path, Row>, target: Path, key0: Key, key: Key)
    requires Condensed(jobs, key) && target in jobs && jobs[target].recursive
    ensures Condensed(Absorb(jobs, target, key0), key)
  {
    var jobs' := Absorb(jobs, target, key0);
    forall p | p in Intake(jobs', key) ensures jobs'[p].recursive {
      assert p != target ==> p in Intake(jobs, key);
    }
  }

  lemma QueueCondenses(env: Setting, active: Option<Job>, t: Tables, r: Request, key: Key)
    requires r.recursive && Condensed(t.jobs, key)
    ensures Condensed(QueueRequest(env, active, t, r).jobs, key)
  {
    var intent := IntentOf(r.recursive, r.baseline, r.due, r.preserve);
    if env.acceptsDirectory(r.path) && !Defers(env, active, r.path, r.key) {
      var key0 := env.VolumeOr(r.path, r.key);
      var found := FindTarget(t.jobs, key0, r.path, intent, r.path);
      var target := if found.Some? then found.value else r.path;
      var t1 := Upsert(t, target, key0, true, intent);
      UpsertCondenses(t, target, key0, intent, key);
      var t2 := if Promotes(t, target, intent) then MoveToTail(t1, target) else t1;
      if Promotes(t, target, intent) {
        MoveCondenses(t1, target, key);
      }
      AbsorbCondenses(t2.jobs, target, key0, key);
    }
  }

  lemma {:induction false} QueueAllCondenses(env: Setting, active: Option<Job>, t: Tables, requests: seq<Request>, key: Key)
    requires (forall i :: 0 <= i < |requests| ==> requests[i].recursive) && Condensed(t.jobs, key)
    ensures Condensed(QueueAll(env, active, t, requests).jobs, key)
    decreases |requests|
  {
    if requests != [] {
      QueueCondenses(env, active, t, requests[0], key);
      assert forall i :: 0 <= i < |requests[1..]| ==> requests[1..][i] == requests[i + 1];
      QueueAllCondenses(env, active, QueueRequest(env, active, t, requests[0]), requests[1..], key);
    }
  }

  /** Intake of at most 4096 rows is left as it is. Of more, only recursive rows are left: no request for a
      single directory stays, unless it failed or has baseline work and is no live request any more. */
  lemma IntakeIsBounded(env: Setting, active: Option<Job>, t: Tables, key: Key)
    requires key in env.roots
    ensures |Intake(t.jobs, key)| <= 4096 ==> BoundQueue(env, active, t, key) == t
    ensures |Intake(t.jobs, key)| > 4096 ==> Condensed(BoundQueue(env, active, t, key).jobs, key)
  {
    assert Intake(t.jobs, key) == set p | p in t.jobs && BoundedIntake(t.jobs[p], key);
    var jobs' := Collapse(t.jobs, key);
    forall p | p in Intake(jobs', key) ensures jobs'[p].recursive { assert p in t.jobs; }
    QueueAllCondenses(env, active, t.(jobs := jobs'), RootRequests(env.roots[key], key), key);
  }
}
