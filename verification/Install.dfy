/** Installation as a transaction over launch jobs, files, the runtime lock and two applications: a
    failure at any step is rolled back to exactly the state before. */
module Install {
  import opened Paths
  import opened Applications
  import opened Lifecycle

  /** What an installation may change, as it is before any step. */
  datatype Shot = Shot(registration: map<Label, Registration>, disabled: map<Label, bool>, plists: map<Label, Option<string>>,
                       config: Option<string>, application: Option<Entry>, legacy: Option<Entry>)

  datatype Ending = Installed | RolledBack | Broken | Refused

  datatype Job = Job(name: Label, loaded: bool, disabled: bool)

  class Machine {
    const host: LaunchHost
    const application: Folder   // the public application and the staged copy beside it
    const legacy: Folder        // the application of the per-user folder and its backup name
    var config: Option<string>
    // Bookkeeping of the model: renames not done whose outcome could not be read, and failed removals.
    ghost var blind: nat
    ghost var litter: nat

    constructor (host: LaunchHost, application: Folder, legacy: Folder, config: Option<string>)
      ensures this.host == host && this.application == application && this.legacy == legacy && this.config == config
    {
      this.host, this.application, this.legacy, this.config := host, application, legacy, config;
      blind, litter := 0, 0;
    }

    ghost function Now(): Shot reads this, host, application, legacy {
      Shot(host.registration, host.disabled, host.plists, config, application.public, legacy.public)
    }

    ghost predicate Sound() reads this, host, application, legacy {
      host.Valid() && application.Valid() && legacy.Valid() && application != legacy && application.quiet && legacy.quiet
    }

    /** Before an installation: no lock of ours, every registration on its way out among the strays, the
        copy staged, no other program at work on the applications. */
    ghost predicate Ready(copy: Entry) reads this, host, application, legacy {
      && Sound() && !host.lockHeld && host.Tracked({})
      && application.private == Some(copy) && copy.id in application.ours
      && (application.public.Some? ==> application.public.value.id in application.ours)
      && legacy.private == None
    }

    // -------------------------------------------------------------- single steps

    /** The saved files change under the runtime lock alone. */
    method WriteConfig(text: Option<string>) returns (ok: bool)
      requires host.lockHeld
      modifies `config, host`faults
      ensures ok ==> config == text
      ensures host.faults == old(host.faults) + if ok then 0 else 1
    {
      var fails, effective: bool := *, *;
      ok := !fails;
      host.Count(fails);
      if ok || effective {
        config := text;
      }
    }

    method WritePlist(l: Label, text: Option<string>) returns (ok: bool)
      requires host.Valid() && host.lockHeld
      modifies host`plists, host`faults
      ensures host.Valid() && forall other :: other != l ==> host.plists[other] == old(host.plists)[other]
      ensures host.faults == old(host.faults) + if ok then 0 else 1
      ensures ok ==> host.plists[l] == text
    {
      var fails, effective: bool := *, *;
      ok := !fails;
      host.Count(fails);
      if ok || effective {
        host.plists := host.plists[l := text];
      }
    }

    method Lock() returns (ok: bool)
      modifies host`lockHeld, host`faults
      ensures ok ==> host.lockHeld
      ensures !ok ==> host.lockHeld == old(host.lockHeld)
      ensures host.faults == old(host.faults) + if ok then 0 else 1
    {
      ok := *;
      host.Count(!ok);
      if ok {
        host.lockHeld := true;
      }
    }

    method Unlock()
      modifies host`lockHeld
      ensures !host.lockHeld
    {
      host.lockHeld := false;
    }

    /** A step outside this model: stopping or restoring the menu, a backup file, the index. */
    method Elsewhere() returns (ok: bool)
      modifies host`faults
      ensures host.faults == old(host.faults) + if ok then 0 else 1
      ensures host.calm ==> ok
    {
      ok := *;
      ok := ok || host.calm;
      host.Count(!ok);
    }

    /** Counts what went wrong with a rename: not done, reported as failed, or not readable. */
    ghost method CountRename(wish: Applications.Outcome, sight: Sight)
      modifies `blind, host`faults
      ensures host.faults == old(host.faults) + if wish == Done && sight == Clear then 0 else 1
      ensures blind == old(blind) + if wish == NotDone && sight == BlindAfter then 1 else 0
    {
      host.Count(wish != Done || sight != Clear);
      if wish == NotDone && sight == BlindAfter {
        blind := blind + 1;
      }
    }

    // -------------------------------------------------------------- putting the jobs back

    /** A registration on its way out is recorded as loaded as long as it is visible. */
    method SnapshotJob(l: Label) returns (job: Option<Job>)
      requires host.Valid() && host.Tracked({})
      modifies host`registration, host`faults, host`polls
      ensures host.Valid() && host.Tracked({}) && Settled(old(host.registration))
      ensures forall other :: other != l ==> host.registration[other] == old(host.registration)[other]
      ensures host.faults == old(host.faults) + if job.Some? then 0 else 1
      ensures job.Some? ==> job.value == Job(l, host.registration[l] != Gone, host.disabled[l])
    {
      var loaded := host.IsLoaded(l);
      job := if loaded.None? then None else Some(Job(l, loaded.value, host.disabled[l]));
    }

    /** Registrations on their way out may have vanished; nothing else changed. */
    predicate Settled(was: map<Label, Registration>) reads host`registration { SettledTo(was, host.registration) }

    predicate SettledTo(was: map<Label, Registration>, now: map<Label, Registration>) {
      && now.Keys == was.Keys
      && forall l :: l in was ==> now[l] == was[l] || (was[l] == Departing && now[l] == Gone)
    }

    /** A departing registration is drained first; it proves nothing about the old job. */
    method Drain(l: Label, pending: set<Label>) returns (ok: bool, still: set<Label>)
      requires host.Valid() && host.Tracked(pending)
      modifies host`registration, host`faults, host`polls
      ensures host.faults == old(host.faults) + if ok then 0 else 1
      ensures l !in pending ==> ok && still == pending && host.registration == old(host.registration)
      ensures host.Valid() && host.Tracked(still) && (ok ==> l !in still)
      ensures forall other :: other != l ==> host.registration[other] == old(host.registration)[other]
      ensures host.registration[l] == old(host.registration)[l] || host.registration[l] == Gone
    {
      ok, still := true, pending;
      if l in still {
        ok := host.WaitForAbsence(l);
        if ok {
          still := still - {l};
        }
      }
    }

    /** A registration still on its way out is a stray. */
    ghost predicate Accounted(l: Label) reads host`registration, host`strays {
      l in host.registration && host.registration[l] == Departing ==> l in host.strays
    }

    /** A job passes for restored when it is as visible as it was. */
    predicate Seems(job: Job)
      requires host.Valid()
      reads host
    {
      job.loaded <==> host.registration[job.name] != Gone
    }

    method Reload(job: Job, pending: set<Label>) returns (ok: bool, still: set<Label>)
      requires host.Valid() && host.Tracked(pending) && !host.lockHeld && job.name !in pending
      modifies host`registration, host`disabled, host`faults, host`polls, host`strays
      ensures ok ==> host.faults == old(host.faults)
      ensures !ok ==> host.faults > old(host.faults) || (job.loaded && host.plists[job.name].None?)
      ensures host.Valid() && host.Tracked(still)
      ensures forall other :: other != job.name ==> host.registration[other] == old(host.registration)[other]
                                                     && host.disabled[other] == old(host.disabled)[other]
      ensures ok && !job.loaded ==> host.registration[job.name] == Gone
      ensures ok && job.loaded ==>
          || (host.plists[job.name].Some? && host.registration[job.name] == Loaded(host.plists[job.name].value))
          || (host.registration[job.name] == old(host.registration)[job.name] && host.registration[job.name] != Gone)
      ensures old(host.strays) <= host.strays && (ok ==> Accounted(job.name))
      ensures host.calm && old(Seems(job)) ==> ok && still == pending && host.registration == old(host.registration)
    {
      ok, still := true, pending;
      var l := job.name;
      var loaded := host.IsLoaded(l);
      if loaded.None? {
        ok := false;
      } else if job.loaded && !loaded.value {
        ok := host.SetDisabled(l, false);
        if ok {
          ok := host.Bootstrap(l);
        }
      } else if !job.loaded && loaded.value {
        ok, still := host.Stop(l, still);
      }
    }

    /** Loads or stops one job as it was, and restores its login setting, whatever fails. */
    method RestoreJob(job: Job, pending: set<Label>) returns (ok: bool, still: set<Label>)
      requires host.Valid() && host.Tracked(pending) && !host.lockHeld
      modifies host`registration, host`disabled, host`faults, host`polls, host`strays
      ensures ok ==> host.faults == old(host.faults)
      ensures !ok ==> host.faults > old(host.faults) || (job.loaded && host.plists[job.name].None?)
      ensures host.Valid() && host.Tracked(still)
      ensures forall other :: other != job.name ==> host.registration[other] == old(host.registration)[other]
                                                     && host.disabled[other] == old(host.disabled)[other]
      ensures ok ==> host.disabled[job.name] == job.disabled
      ensures ok && !job.loaded ==> host.registration[job.name] == Gone
      ensures ok && job.loaded ==>
          || (host.plists[job.name].Some? && host.registration[job.name] == Loaded(host.plists[job.name].value))
          || (host.registration[job.name] == old(host.registration)[job.name] && host.registration[job.name] != Gone)
      ensures old(host.strays) <= host.strays && (ok ==> Accounted(job.name))
      ensures host.calm && job.name !in pending && old(Seems(job)) ==> ok && still == pending && host.registration == old(host.registration)
    {
      ok, still := Drain(job.name, pending);
      if ok {
        ok, still := Reload(job, still);
      }
      var setting := host.SetDisabled(job.name, job.disabled);
      ok := ok && setting;
    }

    method RestoreJobs(worker: Job, menu: Job, pending: set<Label>) returns (ok: bool)
      requires host.Valid() && host.Tracked(pending) && !host.lockHeld && worker.name == Worker && menu.name == Menu
      modifies host`registration, host`disabled, host`faults, host`polls, host`strays
      ensures ok ==> host.faults == old(host.faults)
      ensures !ok ==> || host.faults > old(host.faults) || (worker.loaded && host.plists[Worker].None?)
                      || (menu.loaded && host.plists[Menu].None?)
      ensures host.Valid()
      ensures ok ==> JobBack(worker, old(host.registration)) && JobBack(menu, old(host.registration))
      ensures ok ==> Accounted(Worker) && Accounted(Menu)
      ensures host.calm && pending == {} && old(Seems(worker) && Seems(menu)) ==> ok && host.registration == old(host.registration)
    {
      var first, still := RestoreJob(worker, pending);
      var second, rest := RestoreJob(menu, still);
      ok := first && second;
    }

    /** The job is loaded from its property list, or as visible as it was, or gone if it was not loaded; its
        login setting is the old one. */
    predicate JobBack(job: Job, before: map<Label, Registration>)
      requires host.Valid()
      reads host
    {
      && host.disabled[job.name] == job.disabled
      && (if !job.loaded then host.registration[job.name] == Gone
          else || (host.plists[job.name].Some? && host.registration[job.name] == Loaded(host.plists[job.name].value))
               || (job.name in before && host.registration[job.name] == before[job.name] && before[job.name] != Gone))
    }

    /** How the rename back will go, if there is anything to undo. */
    method AnyRestore(swap: ApplicationSwap) returns (wish: Applications.Outcome, sight: Sight)
      modifies host`faults
      ensures host.faults == old(host.faults)
        + if swap.published && (wish != Done || sight == BlindBefore || sight == BlindAfter) then 1 else 0
    {
      wish, sight := *, *;
      host.Count(swap.published && (wish != Done || sight == BlindBefore || sight == BlindAfter));
    }

    /** The saved files and the application, each attempted whatever fails, while no job is loaded. */
    method RestoreArtifacts(before: Shot, swap: ApplicationSwap) returns (ok: bool)
      requires host.Valid() && host.lockHeld && host.AllGone() && swap.folder == application && swap.Safe() && !swap.finished
      requires Worker in before.plists && Menu in before.plists && before.plists.Keys == host.plists.Keys
      modifies `config, host`plists, host`faults, application, swap`published
      ensures host.Valid() && swap.Safe()
      ensures ok ==> host.faults == old(host.faults) && (application.quiet && old(swap.published) ==> old(swap.Exchanged()))
      ensures host.faults >= old(host.faults)
      ensures !ok && application.quiet ==> host.faults > old(host.faults) || old(swap.published && !swap.Exchanged())
      ensures ok ==> host.plists == before.plists && config == before.config && !swap.published
      ensures ok && old(swap.published) && application.quiet ==>
          application.public == old(application.private) && Identity(application.public) == swap.original
      ensures ok && !old(swap.published) ==> application.public == old(application.public)
    {
      var files := RestoreFiles(before);
      var wish, sight := AnyRestore(swap);
      var swapped := swap.Restore(wish, sight);
      ok := files && swapped;
    }

    method RestoreFiles(before: Shot) returns (ok: bool)
      requires host.Valid() && host.lockHeld && Worker in before.plists && Menu in before.plists && before.plists.Keys == host.plists.Keys
      modifies `config, host`plists, host`faults
      ensures host.Valid() && host.faults >= old(host.faults) && (ok <==> host.faults == old(host.faults))
      ensures ok ==> host.plists == before.plists && config == before.config
    {
      var worker := WritePlist(Worker, before.plists[Worker]);
      var menu := WritePlist(Menu, before.plists[Menu]);
      var file := WriteConfig(before.config);
      ok := worker && menu && file;
      if ok {
        assert forall l: Label :: host.plists[l] == before.plists[l];
      }
    }

    // -------------------------------------------------------------- the way forward

    /** A job keeps its registration or has been taken down. */
    ghost predicate KeptOrDown(before: map<Label, Registration>)
      requires host.Valid()
      reads host
    {
      forall l: Label :: l in before ==> host.registration[l] == before[l] || host.registration[l] == Gone || host.registration[l] == Departing
    }

    method StopAll() returns (ok: bool, pending: set<Label>)
      requires host.Valid() && host.Tracked({})
      modifies host`registration, host`faults, host`polls, host`strays
      ensures host.faults == old(host.faults) + if ok then 0 else 1
      ensures host.Valid() && host.Tracked(pending) && KeptOrDown(old(host.registration))
      ensures ok ==> pending == {} && forall l: Label :: host.registration[l] == Gone
    {
      pending := {};
      ok := Elsewhere();
      if ok {
        ok, pending := host.Stop(Worker, pending);
      }
      if ok {
        ok, pending := host.Stop(Menu, pending);
        if ok {
          forall l: Label ensures host.registration[l] == Gone {
            match l case Worker => case Menu =>
          }
        }
      }
    }

    method WriteFiles(plist: string, text: string) returns (ok: bool)
      requires host.lockHeld && host.Valid()
      modifies `config, host`plists, host`faults
      ensures host.Valid() && host.faults == old(host.faults) + if ok then 0 else 1
      ensures ok ==> config == Some(text) && host.plists[Worker] == Some(plist) && host.plists[Menu] == None
    {
      ok := WriteConfig(Some(text));
      if ok {
        ok := WritePlist(Worker, Some(plist));
      }
      if ok {
        ok := WritePlist(Menu, None);
      }
    }

    /** Backups first; then configuration, property lists and the application, while no job is loaded. */
    method Replace(plist: string, text: string, swap: ApplicationSwap) returns (ok: bool, changed: bool)
      requires host.lockHeld && host.AllGone() && Sound() && swap.folder == application && swap.Safe() && swap.Prepared()
      modifies `config, `blind, host`plists, host`faults, application, swap`published
      ensures Sound() && swap.Safe()
      ensures host.faults == old(host.faults) + if ok then 0 else 1
      ensures blind >= old(blind) && (swap.published && !swap.Exchanged() ==> blind > old(blind))
      ensures !changed ==> !ok && config == old(config) && host.plists == old(host.plists) && application.public == old(application.public)
                           && !swap.published
      ensures !swap.published ==> application.public == old(application.public)
      ensures swap.published ==>
          || (application.public == Some(swap.stagedCopy) && application.private == old(application.public))
          || (application.public == old(application.public) && application.private == old(application.private))
      ensures ok ==> config == Some(text) && host.plists[Worker] == Some(plist) && host.plists[Menu] == None
                     && swap.published && application.public == Some(swap.stagedCopy) && application.private == old(application.public)
    {
      changed := false;
      var saved := Elsewhere();
      if !saved {
        return false, false;
      }
      changed := true;
      ok := WriteFiles(plist, text);
      if ok {
        var wish: Applications.Outcome, sight: Sight := *, *;
        CountRename(wish, sight);
        ok := swap.Publish(wish, sight);
      }
    }

    /** The temporary enablement must not change the saved login setting. */
    method StartNew(worker: Job) returns (ok: bool)
      requires host.Valid() && !host.lockHeld && host.registration[Worker] == Gone && host.plists[Worker].Some?
      modifies host`registration, host`disabled, host`faults
      ensures host.faults >= old(host.faults) && (ok <==> host.faults == old(host.faults))
      ensures host.Valid() && host.registration[Worker] != Departing
      ensures host.registration[Menu] == old(host.registration)[Menu] && host.disabled[Menu] == old(host.disabled)[Menu]
      ensures ok ==> host.plists[Worker].Some? && host.registration[Worker] == Loaded(host.plists[Worker].value)
                     && host.disabled[Worker] == worker.disabled
    {
      ok := host.SetDisabled(Worker, false);
      if ok {
        ok := host.Bootstrap(Worker);
      }
      if ok && worker.disabled {
        ok := host.SetDisabled(Worker, true);
      }
    }

    // -------------------------------------------------------------- the way back

    /** What holds of the jobs and their lists wherever the way forward may fail. */
    ghost predicate HostUndo(before: Shot, changed: bool, pending: set<Label>) reads host {
      && host.Valid() && host.Tracked(pending)
      && before.plists.Keys == host.plists.Keys && before.disabled.Keys == host.disabled.Keys
      && before.registration.Keys == host.registration.Keys
      && (!changed ==> KeptOrDown(before.registration) && host.plists == before.plists)
      && (changed ==> host.registration[Menu] == Gone)
    }

    predicate ConfigUndo(before: Shot, changed: bool) reads `config { !changed ==> config == before.config }

    /** Of the application: published or not, the old entry is at one of the two names. */
    ghost predicate SwapUndo(before: Shot, copy: Entry, swap: ApplicationSwap) reads application, swap, swap.folder {
      && application.Valid() && application.quiet && swap.folder == application && swap.Safe() && !swap.finished
      && swap.stagedCopy == copy && swap.original == Identity(before.application)
      && (!swap.published ==> application.public == before.application)
      && (swap.published ==>
            || (application.public == Some(copy) && application.private == before.application)
            || (application.public == before.application && application.private == Some(copy)))
    }

    /** Of the per-user application. */
    ghost predicate LegacyUndo(before: Shot, moved: bool) reads legacy {
      && legacy.Valid() && legacy.quiet
      && (if moved then MovedAside(before) || (legacy.public == before.legacy && legacy.private == None)
          else legacy.public == before.legacy)
    }

    predicate MovedAside(before: Shot) reads legacy { legacy.public == None && legacy.private == before.legacy }

    /** Every rename the way forward set out to do was done. */
    ghost predicate Confirmed(before: Shot, swap: ApplicationSwap, moved: bool) reads legacy, swap, swap.folder {
      (swap.published ==> swap.Exchanged()) && (moved ==> MovedAside(before))
    }

    /** The recorded jobs are those of `before`; each visible one has a property list. */
    ghost predicate Recorded(before: Shot, worker: Job, menu: Job) {
      && (forall l: Label :: l in before.registration && l in before.plists && l in before.disabled)
      && (forall l: Label :: before.registration[l] != Gone ==> before.plists[l].Some?)
      && worker == Job(Worker, before.registration[Worker] != Gone, before.disabled[Worker])
      && menu == Job(Menu, before.registration[Menu] != Gone, before.disabled[Menu])
    }

    /** The registration of a job after a rollback that reports success: as it was, or loaded from its
        property list, or on its way out as a stray. */
    ghost predicate BackAt(before: Shot, l: Label) reads host`registration, host`strays {
      l in host.registration && l in before.registration && l in before.plists &&
      (|| host.registration[l] == before.registration[l]
       || (before.registration[l] != Gone && before.plists[l].Some? && host.registration[l] == Loaded(before.plists[l].value))
       || (before.registration[l] != Gone && host.registration[l] == Departing && l in host.strays))
    }

    ghost predicate Back(before: Shot) reads host`registration, host`strays {
      host.registration.Keys == before.registration.Keys && forall l: Label :: BackAt(before, l)
    }

    /** Everything but the registrations is as it was. */
    ghost predicate Same(before: Shot) reads this, host, application, legacy {
      Now() == before.(registration := host.registration)
    }

    /** The new worker stopped, the lock taken, and the steps outside this model. */
    method StopNew(before: Shot, pending: set<Label>) returns (ok: bool, still: set<Label>)
      requires HostUndo(before, true, pending)
      modifies host`registration, host`lockHeld, host`faults, host`polls, host`strays
      ensures host.Valid() && host.Tracked(still) && host.registration.Keys == old(host.registration.Keys)
      ensures host.faults == old(host.faults) + if ok then 0 else 1
      ensures ok ==> host.lockHeld && host.AllGone()
    {
      ok, still := host.Stop(Worker, pending);
      if ok {
        forall l: Label ensures l in host.registration && host.registration[l] == Gone { match l case Worker => case Menu => }
        ok := Secure();
      }
    }

    method Secure() returns (ok: bool)
      modifies host`lockHeld, host`faults
      ensures host.faults == old(host.faults) + if ok then 0 else 1
      ensures ok ==> host.lockHeld
    {
      ok := Elsewhere();
      if ok && !host.lockHeld {
        ok := Lock();
      }
      if ok {
        ok := Elsewhere();
      }
    }

    method UndoArtifacts(before: Shot, copy: Entry, swap: ApplicationSwap, pending: set<Label>) returns (ok: bool, still: set<Label>)
      requires HostUndo(before, true, pending) && SwapUndo(before, copy, swap)
      requires Worker in before.plists && Menu in before.plists
      modifies `config, host`registration, host`plists, host`lockHeld, host`faults, host`polls, host`strays, application, swap`published
      ensures host.faults >= old(host.faults)
      ensures ok <==> host.faults == old(host.faults) && old(swap.published ==> swap.Exchanged())
      ensures host.Valid() && host.Tracked(still) && swap.Safe() && swap.folder == application
      ensures host.disabled == old(host.disabled) && host.registration.Keys == old(host.registration.Keys)
      ensures ok ==> forall l: Label :: host.registration[l] == Gone
      ensures ok ==> host.plists == before.plists && config == before.config && application.public == before.application && !swap.published
    {
      ok, still := StopNew(before, pending);
      if ok {
        ok := RestoreArtifacts(before, swap);
      }
    }

    method UndoJobs(before: Shot, worker: Job, menu: Job, pending: set<Label>) returns (ok: bool)
      requires host.Valid() && host.Tracked(pending) && !host.lockHeld && Recorded(before, worker, menu)
      requires before.disabled.Keys == host.disabled.Keys && before.registration.Keys == host.registration.Keys
      requires host.plists == before.plists
      requires KeptOrDown(before.registration)
      modifies host`registration, host`disabled, host`faults, host`polls, host`strays
      ensures host.Valid() && host.faults >= old(host.faults) && (ok <==> host.faults == old(host.faults))
      ensures ok ==> Back(before) && host.disabled == before.disabled
      ensures host.calm && pending == {} && old(Seems(worker) && Seems(menu)) ==> ok && host.registration == old(host.registration)
    {
      ok := RestoreJobs(worker, menu, pending);
      if ok {
        JobIsBack(before, worker, old(host.registration));
        JobIsBack(before, menu, old(host.registration));
        BothBack(before);
      }
    }

    lemma JobIsBack(before: Shot, job: Job, start: map<Label, Registration>)
      requires host.Valid() && host.plists == before.plists && JobBack(job, start) && Accounted(job.name)
      requires job.name in before.registration && job.name in before.disabled && job.name in before.plists && job.name in start
      requires job == Job(job.name, before.registration[job.name] != Gone, before.disabled[job.name])
      requires before.registration[job.name] != Gone ==> before.plists[job.name].Some?
      requires start[job.name] == before.registration[job.name] || start[job.name] == Gone || start[job.name] == Departing
      ensures BackAt(before, job.name) && host.disabled[job.name] == before.disabled[job.name]
    {
    }

    lemma BothBack(before: Shot)
      requires host.Valid() && BackAt(before, Worker) && BackAt(before, Menu)
      requires before.disabled.Keys == host.disabled.Keys && before.registration.Keys == host.registration.Keys
      requires Worker in before.disabled && Menu in before.disabled
      requires host.disabled[Worker] == before.disabled[Worker] && host.disabled[Menu] == before.disabled[Menu]
      ensures Back(before) && host.disabled == before.disabled
    {
      forall l: Label ensures BackAt(before, l) && l in host.disabled && l in before.disabled && host.disabled[l] == before.disabled[l] {
        match l case Worker => case Menu =>
      }
    }

    method UndoLegacy(before: Shot, retired: LegacyApplication?) returns (ok: bool)
      requires retired != null ==> retired.folder == legacy
      requires LegacyUndo(before, Aside(retired)) && before.legacy.Some? == (retired != null)
      modifies legacy, retired, host`faults
      ensures ok ==> legacy.public == before.legacy && host.faults == old(host.faults) && old(Aside(retired) ==> MovedAside(before))
      ensures host.faults >= old(host.faults)
      ensures !ok ==> host.faults > old(host.faults) || old(Aside(retired) && !MovedAside(before))
      ensures !old(Aside(retired)) ==> ok
    {
      ok := true;
      if retired != null {
        var wish: Applications.Outcome := *;
        host.Count(retired.moved && wish != Done);
        ok := retired.Restore(wish);
      }
    }

    method UndoFiles(before: Shot, copy: Entry, swap: ApplicationSwap, changed: bool, pending: set<Label>)
      returns (ok: bool, still: set<Label>)
      requires HostUndo(before, changed, pending) && ConfigUndo(before, changed) && SwapUndo(before, copy, swap)
      requires Worker in before.plists && Menu in before.plists && (!changed ==> !swap.published)
      modifies `config, host`registration, host`plists, host`lockHeld, host`faults, host`polls, host`strays, application, swap`published
      ensures host.faults >= old(host.faults)
      ensures ok <==> host.faults == old(host.faults) && old(swap.published ==> swap.Exchanged())
      ensures !changed ==> ok && still == pending && host.registration == old(host.registration)
      ensures host.Valid() && host.Tracked(still) && swap.Safe() && swap.folder == application && !host.lockHeld
      ensures host.disabled == old(host.disabled) && host.registration.Keys == old(host.registration.Keys)
      ensures ok ==> KeptOrDown(before.registration)
      ensures ok ==> host.plists == before.plists && config == before.config && application.public == before.application && !swap.published
    {
      ok, still := true, pending;
      if changed {
        ok, still := UndoArtifacts(before, copy, swap, pending);
      }
      Unlock();
    }

    method UndoInstalled(before: Shot, copy: Entry, worker: Job, menu: Job, swap: ApplicationSwap, changed: bool, pending: set<Label>)
      returns (ok: bool)
      requires Recorded(before, worker, menu)
      requires HostUndo(before, changed, pending) && ConfigUndo(before, changed) && SwapUndo(before, copy, swap)
      requires !changed ==> !swap.published
      modifies `config, host`registration, host`disabled, host`plists, host`lockHeld, host`faults, host`polls, host`strays, application, swap`published
      ensures host.faults >= old(host.faults)
      ensures ok <==> host.faults == old(host.faults) && old(swap.published ==> swap.Exchanged())
      ensures !host.lockHeld && swap.Safe()
      ensures ok ==> Back(before) && host.disabled == before.disabled && host.plists == before.plists
                     && config == before.config && application.public == before.application && !swap.published
      ensures host.calm && !changed && pending == {} && old(Seems(worker) && Seems(menu)) ==> host.registration == old(host.registration) && ok
    {
      var still;
      ok, still := UndoFiles(before, copy, swap, changed, pending);
      if ok {
        ok := UndoLaunch(before, worker, menu, still);
      }
    }

    /** The menu, and then the jobs, whatever fails. */
    method UndoLaunch(before: Shot, worker: Job, menu: Job, pending: set<Label>) returns (ok: bool)
      requires host.Valid() && host.Tracked(pending) && !host.lockHeld && Recorded(before, worker, menu)
      requires before.disabled.Keys == host.disabled.Keys && before.registration.Keys == host.registration.Keys
      requires host.plists == before.plists && KeptOrDown(before.registration)
      modifies host`registration, host`disabled, host`faults, host`polls, host`strays
      ensures host.Valid() && host.faults >= old(host.faults) && (ok <==> host.faults == old(host.faults))
      ensures ok ==> Back(before) && host.disabled == before.disabled
      ensures host.calm && pending == {} && old(Seems(worker) && Seems(menu)) ==> ok && host.registration == old(host.registration)
    {
      var menus := Elsewhere();
      ok := UndoJobs(before, worker, menu, pending);
      ok := ok && menus;
    }

    method Undo(before: Shot, copy: Entry, worker: Job, menu: Job, swap: ApplicationSwap, retired: LegacyApplication?,
                changed: bool, pending: set<Label>) returns (ok: bool)
      requires Recorded(before, worker, menu) && (retired != null ==> retired.folder == legacy)
      requires HostUndo(before, changed, pending) && ConfigUndo(before, changed) && SwapUndo(before, copy, swap)
      requires LegacyUndo(before, Aside(retired)) && (!changed ==> !swap.published) && application != legacy
      requires before.legacy.Some? == (retired != null)
      modifies `config, host, application, legacy, swap`published, retired
      ensures swap.Safe() && host.faults >= old(host.faults)
      ensures ok ==> Same(before) && Back(before) && !swap.published && host.faults == old(host.faults) && old(Confirmed(before, swap, Aside(retired)))
      ensures !ok ==> host.faults > old(host.faults) || !old(Confirmed(before, swap, Aside(retired)))
      ensures host.calm && !changed && pending == {} && old(!Aside(retired) && Seems(worker) && Seems(menu)) ==>
          ok && host.registration == old(host.registration)
    {
      ok := UndoLegacy(before, retired);
      if ok {
        ok := UndoInstalled(before, copy, worker, menu, swap, changed, pending);
      }
    }

    /** An unfinished swap is dropped; whether its copy could be removed changes nothing else. */
    method Discard(swap: ApplicationSwap)
      requires swap.Safe() && swap.folder == application
      modifies `litter, application
      ensures application.public == old(application.public) && litter >= old(litter)
      ensures !swap.published && litter == old(litter) ==> application.private == None
    {
      var fails: bool := *;
      litter := litter + if fails then 1 else 0;
      swap.Drop(fails);
    }

    /** The rollback reports success if and only if none of its calls was refused or timed out and every
        rename of the way forward was done. Then all files and settings are as they were, and so are the
        registrations, except that a registration the way forward left on its way out, untracked, passes
        for a loaded job and vanishes later. */
    method RollBack(before: Shot, copy: Entry, worker: Job, menu: Job, swap: ApplicationSwap, retired: LegacyApplication?,
                    changed: bool, pending: set<Label>) returns (ok: bool)
      requires Recorded(before, worker, menu) && (retired != null ==> retired.folder == legacy)
      requires HostUndo(before, changed, pending) && ConfigUndo(before, changed) && SwapUndo(before, copy, swap)
      requires LegacyUndo(before, Aside(retired)) && (!changed ==> !swap.published) && application != legacy
      requires before.legacy.Some? == (retired != null)
      modifies `config, `litter, host, application, legacy, swap, retired
      ensures !host.lockHeld && (ok ==> Same(before) && Back(before))
      ensures litter >= old(litter) && (ok && litter == old(litter) ==> application.private == None)
      ensures ok && AsListed(before) ==> (Now() == before <==> host.Leaving() == {})
      ensures host.calm && !changed && pending == {} && old(!Aside(retired) && Seems(worker) && Seems(menu)) ==>
          ok && host.registration == old(host.registration)
      ensures host.faults >= old(host.faults)
      ensures ok <==> host.faults == old(host.faults) && old(Confirmed(before, swap, Aside(retired)))
    {
      ok := Undo(before, copy, worker, menu, swap, retired, changed, pending);
      Unlock();
      Discard(swap);
      if ok {
        ExactlyBack(before);
      }
    }

    lemma ExactlyBack(before: Shot)
      requires Same(before) && Back(before)
      ensures AsListed(before) ==> (Now() == before <==> host.Leaving() == {})
    {
      if AsListed(before) {
        BackExactly(before);
      }
    }

    /** Every visible registration is that of a job running its property list. */
    ghost predicate AsListed(before: Shot) {
      forall l :: l in before.registration && before.registration[l] != Gone ==>
        l in before.plists && before.plists[l].Some? && before.registration[l] == Loaded(before.plists[l].value)
    }

    lemma BackExactly(before: Shot)
      requires Back(before) && AsListed(before)
      ensures host.registration == before.registration <==> host.Leaving() == {}
    {
      if host.Leaving() == {} {
        forall l: Label | l in host.registration && l in before.registration ensures host.registration[l] == before.registration[l] {
          assert BackAt(before, l) && l !in host.Leaving();
        }
      }
    }

    // -------------------------------------------------------------- the transaction

    /** A visible job without a property list cannot be restored. */
    predicate Unlisted() reads host {
      exists l :: l in host.registration && l in host.plists && host.registration[l] != Gone && host.plists[l].None?
    }

    method Prepare(copy: Entry) returns (jobs: Option<(Job, Job)>)
      requires Ready(copy)
      modifies host`registration, host`faults, host`polls
      ensures Ready(copy) && Settled(old(host.registration)) && host.faults >= old(host.faults)
      ensures jobs.Some? <==> host.faults == old(host.faults) && !Unlisted()
      ensures jobs.Some? ==> Recorded(Now(), jobs.value.0, jobs.value.1)
    {
      jobs := Snapshots();
      if jobs.Some? {
        var fit := Judge(jobs.value.0, jobs.value.1);
        if !fit {
          jobs := None;
        }
      }
    }

    /** The jobs as they are recorded, and what else has to be read. */
    method Snapshots() returns (jobs: Option<(Job, Job)>)
      requires host.Valid() && host.Tracked({})
      modifies host`registration, host`faults, host`polls
      ensures host.Valid() && host.Tracked({}) && Settled(old(host.registration)) && host.faults >= old(host.faults)
      ensures jobs.Some? <==> host.faults == old(host.faults)
      ensures jobs.Some? ==> jobs.value.0 == Job(Worker, host.registration[Worker] != Gone, host.disabled[Worker])
                             && jobs.value.1 == Job(Menu, host.registration[Menu] != Gone, host.disabled[Menu])
    {
      var worker := SnapshotJob(Worker);
      var menu := SnapshotJob(Menu);
      var readable := Elsewhere();
      jobs := if readable && worker.Some? && menu.Some? then Some((worker.value, menu.value)) else None;
    }

    method Judge(worker: Job, menu: Job) returns (fit: bool)
      requires host.Valid() && worker == Job(Worker, host.registration[Worker] != Gone, host.disabled[Worker])
      requires menu == Job(Menu, host.registration[Menu] != Gone, host.disabled[Menu])
      ensures fit <==> !Unlisted()
      ensures fit ==> Recorded(Now(), worker, menu)
    {
      fit := !Missing(worker) && !Missing(menu);
      if fit {
        forall l: Label ensures host.registration[l] == Gone || host.plists[l].Some? { match l case Worker => case Menu => }
      } else {
        assert Unlisted();
      }
    }

    predicate Missing(job: Job)
      requires host.Valid()
      reads host
    {
      job.loaded && host.plists[job.name].None?
    }

    method Down(ghost before: Shot) returns (ok: bool, pending: set<Label>)
      requires host.Valid() && host.Tracked({}) && before.registration == host.registration && before.plists == host.plists
      requires before.disabled == host.disabled && !host.lockHeld
      modifies host`registration, host`lockHeld, host`faults, host`polls, host`strays
      ensures host.faults == old(host.faults) + if ok then 0 else 1
      ensures HostUndo(before, false, pending) && host.disabled == before.disabled
      ensures ok ==> pending == {} && host.lockHeld && host.AllGone()
    {
      ok, pending := StopAll();
      if ok {
        ok := Lock();
      }
    }

    method Put(ghost before: Shot, copy: Entry, plist: string, text: string, swap: ApplicationSwap) returns (ok: bool, changed: bool)
      requires HostUndo(before, false, {}) && ConfigUndo(before, false) && SwapUndo(before, copy, swap) && Sound()
      requires swap.Prepared() && host.lockHeld && host.AllGone()
      modifies `config, `blind, host`plists, host`faults, application, swap`published
      ensures host.faults == old(host.faults) + if ok then 0 else 1
      ensures blind >= old(blind) && (swap.published && !swap.Exchanged() ==> blind > old(blind))
      ensures HostUndo(before, changed, {}) && ConfigUndo(before, changed) && SwapUndo(before, copy, swap)
      ensures !changed ==> !swap.published
      ensures ok ==> changed && swap.published && application.private == before.application && application.public == Some(copy)
                     && config == Some(text) && host.plists[Worker] == Some(plist) && host.plists[Menu] == None
    {
      ok, changed := Replace(plist, text, swap);
    }

    method Up(ghost before: Shot, worker: Job) returns (ok: bool)
      requires HostUndo(before, true, {}) && host.registration[Worker] == Gone && host.plists[Worker].Some?
      modifies host`registration, host`disabled, host`lockHeld, host`faults
      ensures host.faults >= old(host.faults) && (ok <==> host.faults == old(host.faults))
      ensures HostUndo(before, true, {}) && host.plists == old(host.plists) && !host.lockHeld
      ensures ok ==> host.plists[Worker].Some? && host.registration[Worker] == Loaded(host.plists[Worker].value)
                     && host.disabled[Worker] == worker.disabled
    {
      Unlock();
      ok := StartNew(worker);
      forall l: Label ensures host.registration[l] != Departing { match l case Worker => case Menu => }
    }

    method RetireOld(ghost before: Shot, retired: LegacyApplication?) returns (ok: bool)
      requires LegacyUndo(before, false) && legacy.private == None && (retired == null ==> legacy.public == None)
      requires retired != null ==> retired.folder == legacy && !retired.moved && legacy.public == Some(retired.classified)
      modifies `blind, host`faults, legacy, retired
      ensures LegacyUndo(before, Aside(retired)) && (ok ==> Set(retired))
      ensures host.faults == old(host.faults) + if ok then 0 else 1
      ensures blind >= old(blind) && (Aside(retired) && !MovedAside(before) ==> blind > old(blind))
      ensures ok ==> legacy.public == None
    {
      ok := true;
      if retired != null {
        var wish: Applications.Outcome, sight: Sight := *, *;
        CountRename(wish, sight);
        ok := retired.Retire(wish, sight);
      }
    }

    /** The legacy application, if there is one, is at its backup. */
    predicate Set(retired: LegacyApplication?) reads legacy, retired {
      if retired == null then legacy.private == None
      else retired.folder == legacy && retired.moved && legacy.private == Some(retired.classified)
    }

    /** Until the new files are in place. */
    method Exchange(ghost before: Shot, copy: Entry, plist: string, text: string, swap: ApplicationSwap)
      returns (ok: bool, changed: bool, pending: set<Label>)
      requires Ready(copy) && before == Now() && SwapUndo(before, copy, swap) && swap.Prepared()
      modifies `config, `blind, host`registration, host`plists, host`lockHeld, host`faults, host`polls, host`strays, application, swap`published
      ensures host.faults == old(host.faults) + if ok then 0 else 1
      ensures blind >= old(blind) && (swap.published && !swap.Exchanged() ==> blind > old(blind))
      ensures HostUndo(before, changed, pending) && ConfigUndo(before, changed) && SwapUndo(before, copy, swap)
      ensures (!changed ==> !swap.published) && host.disabled == before.disabled
      ensures ok ==> changed && pending == {} && Exchanged(before, copy, plist, text, swap)
    {
      changed := false;
      ok, pending := Down(before);
      if ok {
        ok, changed := Put(before, copy, plist, text, swap);
      }
    }

    predicate Aside(retired: LegacyApplication?) reads retired { retired != null && retired.moved }

    /** The new files are in place, and both jobs are down. */
    ghost predicate Exchanged(before: Shot, copy: Entry, plist: string, text: string, swap: ApplicationSwap)
      reads this, host, application, swap, swap.folder
    {
      && HostUndo(before, true, {}) && SwapUndo(before, copy, swap) && swap.published && swap.Exchanged()
      && application.public == Some(copy) && application.private == before.application && config == Some(text)
      && host.plists[Worker] == Some(plist) && host.plists[Menu] == None && host.registration[Worker] == Gone
    }

    /** The new worker, and then the legacy application. */
    method Launch(ghost before: Shot, copy: Entry, plist: string, text: string, worker: Job,
                  swap: ApplicationSwap, retired: LegacyApplication?) returns (ok: bool)
      requires Exchanged(before, copy, plist, text, swap) && LegacyUndo(before, false) && legacy.private == None && Standing(retired)
      requires application != legacy
      modifies `blind, host`registration, host`disabled, host`lockHeld, host`faults, legacy, retired
      ensures HostUndo(before, true, {}) && SwapUndo(before, copy, swap) && LegacyUndo(before, Aside(retired))
      ensures host.faults >= old(host.faults) && (ok <==> host.faults == old(host.faults))
      ensures blind >= old(blind) && (Aside(retired) && !MovedAside(before) ==> blind > old(blind))
      ensures ok ==> !host.lockHeld && Moved(copy, plist, text, worker.disabled) && legacy.public == None && Set(retired)
    {
      ok := Up(before, worker);
      if ok {
        ok := RetireOld(before, retired);
      }
    }

    method Forward(ghost before: Shot, copy: Entry, plist: string, text: string, worker: Job,
                   swap: ApplicationSwap, retired: LegacyApplication?)
      returns (ok: bool, changed: bool, pending: set<Label>)
      requires Ready(copy) && before == Now() && SwapUndo(before, copy, swap) && swap.Prepared()
      requires Standing(retired)
      modifies `config, `blind, host`registration, host`disabled, host`plists, host`lockHeld, host`faults, host`polls, host`strays
      modifies application, legacy, swap`published, retired
      ensures host.faults >= old(host.faults) && (ok <==> host.faults == old(host.faults))
      ensures !Confirmed(before, swap, Aside(retired)) ==> blind > old(blind)
      ensures HostUndo(before, changed, pending) && ConfigUndo(before, changed) && SwapUndo(before, copy, swap)
      ensures LegacyUndo(before, Aside(retired)) && (!changed ==> !swap.published)
      ensures ok ==> !host.lockHeld && Moved(copy, plist, text, worker.disabled) && legacy.public == None && Set(retired)
      ensures ok ==> swap.published && application.private == before.application
    {
      ok, changed, pending := Exchange(before, copy, plist, text, swap);
      if ok {
        ok := Launch(before, copy, plist, text, worker, swap, retired);
      }
    }

    /** The new state of an installed machine. */
    ghost predicate Moved(copy: Entry, plist: string, text: string, off: bool)
      requires host.Valid()
      reads this, host, application
    {
      && host.registration[Worker] == Loaded(plist) && host.registration[Menu] == Gone
      && host.disabled[Worker] == off
      && host.plists[Worker] == Some(plist) && host.plists[Menu] == None && config == Some(text)
      && application.public == Some(copy)
    }

    method Attempt(before: Shot, copy: Entry, plist: string, text: string, worker: Job, menu: Job,
                   swap: ApplicationSwap, retired: LegacyApplication?) returns (ending: Ending, ghost failed: nat, ghost known: bool)
      requires Ready(copy) && before == Now() && Recorded(before, worker, menu) && SwapUndo(before, copy, swap) && swap.Prepared()
      requires Standing(retired)
      modifies this, host, application, legacy, swap, retired
      ensures !host.lockHeld && ending != Refused && (!known ==> blind > old(blind))
      ensures old(host.faults) <= failed <= host.faults && (ending == Installed <==> failed == old(host.faults))
      ensures ending == Installed ==> host.faults == failed
      ensures ending == Broken <==> failed > old(host.faults) && (host.faults > failed || !known)
      ensures ending == RolledBack ==> Same(before) && Back(before)
      ensures ending == Installed ==> host.Valid() && Moved(copy, plist, text, worker.disabled) && legacy.public == None
      ensures litter >= old(litter) && (ending != Broken && litter == old(litter) ==> application.private == None)
      ensures ending == Installed && litter == old(litter) ==> legacy.private == None
    {
      var ok, changed, pending := Forward(before, copy, plist, text, worker, swap, retired);
      failed, known := host.faults, Confirmed(before, swap, Aside(retired));
      if ok {
        Commit(swap, retired);
        ending := Installed;
      } else {
        ok := RollBack(before, copy, worker, menu, swap, retired, changed, pending);
        ending := if ok then RolledBack else Broken;
      }
    }

    /** `activate`: afterwards the new version is installed, or everything is exactly as before, or the
        caller is told that the rollback failed. The runtime lock is free in any case. The outcome is
        decided by what was refused or timed out, or by a visible job without a property list: `prepared` and `failed` count that up to the end of
        the preparation and up to the start of the rollback, and `known` says that no rename was left
        undone with an outcome that could not be read. */
    method Activate(copy: Entry, plist: string, text: string)
      returns (ending: Ending, ghost prepared: nat, ghost failed: nat, ghost known: bool)
      requires Ready(copy) && host.strays == host.Leaving()
      modifies this, host, application, legacy
      ensures !host.lockHeld
      ensures old(host.faults) <= prepared <= failed <= host.faults && (!known ==> blind > old(blind))
      ensures ending == Refused ==> prepared > old(host.faults) || old(Unlisted())
      ensures prepared > old(host.faults) || old(UnlistedJob()) ==> ending == Refused
      ensures ending == Installed <==> ending != Refused && host.faults == old(host.faults)
      ensures ending == Broken <==> ending != Refused && failed > prepared && (host.faults > failed || !known)
      ensures ending == Refused ==> Same(old(Now())) && Settled(old(host.registration))
      ensures ending == RolledBack ==> Same(old(Now())) && Restored(old(Now()))
      ensures ending == Installed ==> host.Valid() && legacy.public == None && Moved(copy, plist, text, old(host.disabled)[Worker])
      ensures ending != Broken && litter == old(litter) ==> application.private == None
      ensures ending == Installed && litter == old(litter) ==> legacy.private == None
      ensures old(AsListed(Now())) && ending == RolledBack ==> (Now() == old(Now()) <==> host.Leaving() == {})
      ensures old(AsListed(Now())) && ending == RolledBack && host.strays == {} ==> Now() == old(Now())
      ensures old(AsListed(Now())) && ending == Refused ==> Now() == old(Now())
    {
      ghost var before := Now();
      var swap, retired := Begin(copy);
      ending, prepared, failed, known := Transact(copy, plist, text, swap, retired);
      if AsListed(before) {
        if ending == RolledBack {
          RestoredExactly(before);
        } else if ending == Refused {
          RefusedExactly(before);
        }
      }
    }

    /** A job of the state at entry: one that was on its way out may also be gone by now. */
    ghost predicate RestoredAt(before: Shot, l: Label) reads host`registration, host`strays {
      BackAt(before, l)
      || (l in host.registration && l in before.registration && before.registration[l] == Departing && host.registration[l] == Gone)
    }

    ghost predicate Restored(before: Shot) reads host`registration, host`strays {
      host.registration.Keys == before.registration.Keys && forall l: Label :: RestoredAt(before, l)
    }

    lemma SettledThenBack(was: Shot, before: Shot)
      requires Back(before) && SettledTo(was.registration, before.registration) && was.plists == before.plists
      ensures Restored(was)
    {
      forall l: Label ensures RestoredAt(was, l) {
        assert BackAt(before, l);
      }
    }

    predicate UnlistedJob() reads host {
      exists l :: l in host.registration && l in host.plists && host.registration[l].Loaded? && host.plists[l].None?
    }

    lemma RefusedExactly(before: Shot)
      requires SettledTo(before.registration, host.registration) && AsListed(before)
      ensures host.registration == before.registration
    {
      assert forall l :: l in before.registration ==> host.registration[l] == before.registration[l];
    }

    lemma RestoredExactly(before: Shot)
      requires Restored(before) && AsListed(before)
      ensures host.registration == before.registration <==> host.Leaving() == {}
      ensures host.strays == {} ==> host.Leaving() == {}
    {
      assert forall l: Label :: RestoredAt(before, l) ==> BackAt(before, l);
      BackExactly(before);
      forall l | l in host.Leaving() ensures l in host.strays {
        assert BackAt(before, l);
      }
    }

    /** The swap of the applications and the retirement of the legacy one, prepared. */
    method Begin(copy: Entry) returns (swap: ApplicationSwap, retired: LegacyApplication?)
      requires Ready(copy)
      ensures Ready(copy) && fresh(swap) && (retired != null ==> fresh(retired)) && swap.folder == application
      ensures SwapUndo(Now(), copy, swap) && swap.Prepared() && Standing(retired)
    {
      swap := new ApplicationSwap(application, copy);
      retired := null;
      if legacy.public.Some? {
        retired := new LegacyApplication(legacy);
      }
    }

    /** The legacy application, if there is one, is where it was classified. */
    predicate Standing(retired: LegacyApplication?) reads legacy, retired {
      if retired == null then legacy.public == None
      else retired.folder == legacy && !retired.moved && legacy.public == Some(retired.classified)
    }

    method Transact(copy: Entry, plist: string, text: string, swap: ApplicationSwap, retired: LegacyApplication?)
      returns (ending: Ending, ghost prepared: nat, ghost failed: nat, ghost known: bool)
      requires Ready(copy) && SwapUndo(Now(), copy, swap) && swap.Prepared() && Standing(retired)
      modifies this, host, application, legacy, swap, retired
      ensures !host.lockHeld
      ensures old(host.faults) <= prepared <= failed <= host.faults && (!known ==> blind > old(blind))
      ensures ending == Refused ==> prepared > old(host.faults) || old(Unlisted())
      ensures prepared > old(host.faults) || old(UnlistedJob()) ==> ending == Refused
      ensures ending == Installed <==> ending != Refused && host.faults == old(host.faults)
      ensures ending == Broken <==> ending != Refused && failed > prepared && (host.faults > failed || !known)
      ensures ending == Refused ==> Same(old(Now())) && Settled(old(host.registration))
      ensures ending == RolledBack ==> Same(old(Now())) && Restored(old(Now()))
      ensures ending == Installed ==> host.Valid() && legacy.public == None && Moved(copy, plist, text, old(host.disabled)[Worker])
      ensures ending != Broken && litter == old(litter) ==> application.private == None
      ensures ending == Installed && litter == old(litter) ==> legacy.private == None
    {
      var jobs := Prepare(copy);
      var before := ReadFiles();
      prepared, failed, known := host.faults, host.faults, true;
      if jobs.None? {
        Discard(swap);
        ending := Refused;
      } else {
        ending, failed, known := Attempt(before, copy, plist, text, jobs.value.0, jobs.value.1, swap, retired);
        if ending == RolledBack {
          SettledThenBack(old(Now()), before);
        }
      }
    }

    /** The displaced applications go; cleanup failures undo nothing. */
    method Commit(swap: ApplicationSwap, retired: LegacyApplication?)
      requires swap.folder == application && swap.Safe() && swap.published && !swap.finished
      requires Identity(application.private) == swap.original && application != legacy
      requires legacy.Valid() && Set(retired)
      modifies `litter, application, legacy, swap, retired
      ensures application.public == old(application.public) && legacy.public == old(legacy.public)
      ensures litter >= old(litter) && (litter == old(litter) ==> application.private == None && legacy.private == None)
    {
      var fails: bool := *;
      litter := litter + if fails then 1 else 0;
      swap.Finish(fails);
      if retired != null {
        retired.Finish(fails);
      }
    }

    method ReadFiles() returns (shot: Shot)
      ensures shot == Now()
    {
      shot := Shot(host.registration, host.disabled, host.plists, config, application.public, legacy.public);
    }

    /** An installation that fails at once, and a rollback that reports success over a job on its way out:
        the bootout of the loaded worker is denied, but takes effect, and nothing else goes wrong. */
    method DeniedStop(copy: Entry, worker: Job, menu: Job) returns (ok: bool)
      requires Ready(copy) && host.calm && AsListed(Now()) && Recorded(Now(), worker, menu) && worker.loaded
      modifies this, host, application, legacy
      ensures ok && host.Valid() && host.registration[Worker] == Departing && Now() != old(Now())
      ensures host.faults == old(host.faults) + 1
    {
      var before := ReadFiles();
      var swap, retired := Begin(copy);
      ok := UndercutAndBack(before, copy, worker, menu, swap, retired);
    }

    method UndercutAndBack(before: Shot, copy: Entry, worker: Job, menu: Job, swap: ApplicationSwap, retired: LegacyApplication?)
      returns (ok: bool)
      requires Sound() && host.Tracked({}) && host.calm && before == Now() && Recorded(before, worker, menu)
      requires host.registration[Worker].Loaded? && SwapUndo(before, copy, swap) && swap.Prepared() && Standing(retired)
      modifies `config, `litter, host, application, legacy, swap, retired
      ensures ok && host.Valid() && host.registration[Worker] == Departing
      ensures host.faults == old(host.faults) + 1
    {
      var pending := Undercut(before);
      ok := RollBack(before, copy, worker, menu, swap, retired, false, pending);
    }

    /** The way forward up to the denied bootout. */
    method Undercut(ghost before: Shot) returns (pending: set<Label>)
      requires host.Valid() && host.Tracked({}) && before.registration == host.registration && before.plists == host.plists
      requires before.disabled == host.disabled && host.registration[Worker].Loaded?
      modifies host`registration, host`faults, host`polls, host`strays
      ensures HostUndo(before, false, pending) && pending == {} && host.faults == old(host.faults) + 1
      ensures host.registration == old(host.registration)[Worker := Departing]
    {
      var stopped;
      stopped, pending := host.StopWith(Worker, {}, Denied(true, true));
      assert forall l: Label :: host.registration[l] == old(host.registration)[Worker := Departing][l];
    }
  }

  /** A machine on which this can happen. */
  method Sample(copy: Entry) returns (machine: Machine)
    ensures fresh(machine) && machine.Ready(copy) && machine.host.calm && machine.AsListed(machine.Now())
    ensures machine.Recorded(machine.Now(), Job(Worker, true, false), Job(Menu, false, false))
  {
    var registration := map[Worker := Loaded("worker"), Menu := Gone];
    var disabled := map[Worker := false, Menu := false];
    var plists := map[Worker := Some("worker"), Menu := None];
    forall l: Label ensures l in registration && l in disabled && l in plists { match l case Worker => case Menu => }
    var host := new LaunchHost(registration, disabled, plists, true);
    var application := new Folder(true, None, Some(copy), {copy.id});
    var legacy := new Folder(true, None, None, {});
    machine := new Machine(host, application, legacy, None);
  }
}
