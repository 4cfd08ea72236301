/** Exchanging the public application with a staged copy, and retiring a legacy one. A rename may be
    done, not done, or done and reported as failed; between any two calls another program may
    replace the public entry. */
module Applications {
  import opened Paths

  /** An entry of a directory: its device and inode as one number, and the digest of its contents. */
  datatype Entry = Entry(id: nat, digest: string)

  datatype Outcome = NotDone | Done | DoneButFailed

  /** Where an entry could not be read: before the rename, right after it, or when its contents are
      verified at last. */
  datatype Sight = Clear | BlindBefore | BlindAfter | BlindLast

  function Identity(entry: Option<Entry>): Option<nat> { if entry.Some? then Some(entry.value.id) else None }

  /** The public name and one private name beside it. `deleted` and `taken` are bookkeeping of the
      model: what this program removed, and what another program took away from the public name. */
  class Folder {
    const quiet: bool   // no other program touches the public name
    var public: Option<Entry>
    var private: Option<Entry>
    var ours: set<nat>
    ghost var deleted: set<nat>
    ghost var taken: set<nat>

    constructor (quiet: bool, public: Option<Entry>, private: Option<Entry>, ours: set<nat>)
      requires Identity(public).Some? && Identity(private).Some? ==> Identity(public) != Identity(private)
      ensures this.public == public && this.private == private && this.ours == ours && deleted == {} && taken == {}
      ensures Valid() && this.quiet == quiet
    {
      this.quiet, this.public, this.private, this.ours := quiet, public, private, ours;
      deleted, taken := {}, {};
    }

    ghost predicate Valid() reads this {
      public.Some? && private.Some? ==> public.value.id != private.value.id
    }

    function Places(): set<nat> reads this {
      (if public.Some? then {public.value.id} else {}) + (if private.Some? then {private.value.id} else {})
    }

    /** Nothing that was in the folder is gone, except what another program took. */
    twostate predicate Conserves() reads this {
      && deleted == old(deleted) && old(taken) <= taken && old(Places()) <= Places() + taken
      && ours == old(ours)
    }

    /** Another program may put anything of its own under the public name, or nothing. */
    method Interfere()
      requires Valid()
      modifies this
      ensures Valid() && Conserves() && private == old(private)
      ensures public == old(public) || (!quiet && (public.Some? ==> public.value.id !in ours))
    {
      var strikes: bool := *;
      if strikes && !quiet {
        var id: nat := *;
        var digest: string := *;
        if public.Some? {
          taken := taken + {public.value.id};
        }
        public := if id in ours || (private.Some? && private.value.id == id) then None else Some(Entry(id, digest));
      }
    }

    /** RENAME_SWAP: both names must exist. */
    method Exchange(wish: Outcome) returns (ok: bool)
      requires Valid()
      modifies `public, `private
      ensures Valid() && Conserves()
      ensures ok <==> wish == Done && old(public.Some? && private.Some?)
      ensures if wish != NotDone && old(public.Some? && private.Some?) then public == old(private) && private == old(public)
              else public == old(public) && private == old(private)
    {
      var outcome := if public.Some? && private.Some? then wish else NotDone;
      if outcome != NotDone {
        public, private := private, public;
      }
      ok := outcome == Done;
    }

    /** RENAME_EXCL from the private to the public name, which must be free. */
    method MoveOut(wish: Outcome) returns (ok: bool)
      requires Valid()
      modifies `public, `private
      ensures Valid() && Conserves()
      ensures ok <==> wish == Done && old(public.None? && private.Some?)
      ensures if wish != NotDone && old(public.None? && private.Some?) then public == old(private) && private == None
              else public == old(public) && private == old(private)
    {
      var outcome := if public.None? && private.Some? then wish else NotDone;
      if outcome != NotDone {
        public, private := private, None;
      }
      ok := outcome == Done;
    }

    /** RENAME_EXCL from the public to the private name, which must be free. */
    method MoveIn(wish: Outcome) returns (ok: bool)
      requires Valid()
      modifies `public, `private
      ensures Valid() && Conserves()
      ensures ok <==> wish == Done && old(private.None? && public.Some?)
      ensures if wish != NotDone && old(private.None? && public.Some?) then private == old(public) && public == None
              else public == old(public) && private == old(private)
    {
      var outcome := if private.None? && public.Some? then wish else NotDone;
      if outcome != NotDone {
        public, private := None, public;
      }
      ok := outcome == Done;
    }

    /** Removes whatever the private name holds; the removal may fail. */
    method RemovePrivate(fails: bool)
      requires Valid()
      modifies `private, `deleted
      ensures Valid()
      ensures deleted == old(deleted) + if !fails && old(private).Some? then {old(private).value.id} else {}
      ensures private == if fails then old(private) else None
    {
      if !fails {
        ghost var gone := if private.Some? then {private.value.id} else {};
        deleted := deleted + gone;
        private := None;
      }
    }
  }

  // ---------------------------------------------------------------- ApplicationSwap

  class ApplicationSwap {
    const folder: Folder
    const original: Option<nat>
    const originalDigest: Option<string>
    const stagedCopy: Entry
    var published: bool
    var finished: bool

    /** As long as nothing is published, the staged name holds nothing but the staged copy. */
    ghost predicate Safe() reads this, folder {
      && folder.Valid() && stagedCopy.id in folder.ours && original != Some(stagedCopy.id)
      && (original.Some? ==> original.value in folder.ours)
      && (!published && !finished ==> folder.private.None? || folder.private.value.id == stagedCopy.id)
    }

    /** Nothing was published, and both entries are as prepared. */
    ghost predicate Prepared() reads this, folder {
      && !published && !finished && folder.private == Some(stagedCopy) && original == Identity(folder.public)
      && originalDigest == (if folder.public.Some? then Some(folder.public.value.digest) else None)
    }

    /** Both entries are exchanged, as far as their identities show. */
    ghost predicate Exchanged() reads this, folder {
      Identity(folder.public) == Some(stagedCopy.id) && Identity(folder.private) == original
    }

    /** The state after preparation: the copy is staged beside the classified application. */
    constructor (folder: Folder, copy: Entry)
      requires folder.Valid() && folder.private == Some(copy) && copy.id in folder.ours
      requires folder.public.Some? ==> folder.public.value.id in folder.ours
      ensures Safe() && Prepared() && this.folder == folder
      ensures original == Identity(folder.public) && stagedCopy == copy
    {
      this.folder, stagedCopy := folder, copy;
      original := Identity(folder.public);
      originalDigest := if folder.public.Some? then Some(folder.public.value.digest) else None;
      published, finished := false, false;
    }

    method Publish(wish: Outcome, sight: Sight) returns (ok: bool)
      requires Safe() && !published && !finished
      modifies folder, `published
      ensures Safe() && folder.Conserves()
      ensures ok ==> wish == Done && sight == Clear
      ensures folder.quiet && old(Prepared()) && wish == Done && sight == Clear ==> ok
      ensures folder.quiet && published && !Exchanged() ==> sight == BlindAfter && wish == NotDone
      ensures folder.quiet && old(Prepared()) && wish == NotDone && sight == BlindAfter ==> published && !Exchanged()
      ensures ok ==> published && folder.public == Some(stagedCopy) && Identity(folder.private) == original
      ensures folder.quiet && !published ==> folder.public == old(folder.public) && folder.private == old(folder.private)
      ensures folder.quiet && ok ==> folder.private == old(folder.public)
      ensures folder.quiet && published ==>
          || (folder.public == Some(stagedCopy) && folder.private == old(folder.public))
          || (folder.public == old(folder.public) && folder.private == old(folder.private))
    {
      folder.Interfere();
      if sight == BlindBefore || Identity(folder.public) != original || folder.private != Some(stagedCopy) {
        return false;
      }
      if originalDigest.Some? && (folder.public.None? || folder.public.value.digest != originalDigest.value) {
        return false;
      }
      published := true;
      folder.Interfere();
      var renamed: bool;
      if original.Some? {
        renamed := folder.Exchange(wish);
      } else {
        renamed := folder.MoveOut(wish);
      }
      folder.Interfere();
      if sight == BlindAfter {
        return false;
      }
      var destination, displaced := Identity(folder.public), Identity(folder.private);
      if destination == original && displaced == Some(stagedCopy.id) {
        published := false;
      }
      if !renamed || destination != Some(stagedCopy.id) || displaced != original {
        return false;
      }
      return sight == Clear && folder.public == Some(stagedCopy);
    }

    method Restore(wish: Outcome, sight: Sight) returns (ok: bool)
      requires Safe() && !finished
      modifies folder, `published
      ensures Safe() && folder.Conserves()
      ensures ok && old(published) ==> wish == Done && sight != BlindBefore && sight != BlindAfter && old(Exchanged() || !folder.quiet)
      ensures folder.quiet && old(Exchanged()) && wish == Done && sight != BlindBefore && sight != BlindAfter ==> ok
      ensures !old(published) ==> ok
      ensures ok ==> !published
      ensures ok && old(published) ==> Identity(folder.public) == original && Identity(folder.private) == Some(stagedCopy.id)
      ensures ok && !old(published) ==> folder.public == old(folder.public) && folder.private == old(folder.private)
      ensures folder.quiet && ok && old(published) ==> folder.public == old(folder.private)
    {
      if !published {
        return true;
      }
      folder.Interfere();
      if sight == BlindBefore || Identity(folder.public) != Some(stagedCopy.id) || Identity(folder.private) != original {
        return false;
      }
      folder.Interfere();
      var restored: bool;
      if original.Some? {
        restored := folder.Exchange(wish);
      } else {
        restored := folder.MoveIn(wish);
      }
      folder.Interfere();
      if sight == BlindAfter {
        return false;
      }
      if Identity(folder.public) == original && Identity(folder.private) == Some(stagedCopy.id) {
        published := false;
      }
      return restored && !published;
    }

    /** After the installation committed: the displaced application goes. */
    method Finish(fails: bool)
      requires Safe() && published && !finished && Identity(folder.private) == original
      modifies folder, `published, `finished
      ensures Safe() && finished
      ensures folder.deleted == old(folder.deleted) + (if !fails && original.Some? then {original.value} else {})
      ensures folder.public == old(folder.public) && folder.private == if fails then old(folder.private) else None
    {
      published, finished := false, true;
      folder.RemovePrivate(fails);
    }

    /** Dropping a swap that was not finished never deletes the original or a foreign entry. */
    method Drop(fails: bool)
      requires Safe()
      modifies folder
      ensures !finished ==> folder.deleted <= old(folder.deleted) + {stagedCopy.id}
      ensures !finished ==> old(folder.Places()) <= folder.Places() + {stagedCopy.id} && folder.taken == old(folder.taken)
      ensures folder.public == old(folder.public)
      ensures published ==> folder.private == old(folder.private) && folder.deleted == old(folder.deleted)
      ensures !published ==> folder.private == if fails then old(folder.private) else None
    {
      if !published {
        folder.RemovePrivate(fails);
      }
    }
  }

  /** A failed installation: publish, restore and drop in the face of any outcome and interference. The
      original and every foreign entry stay, unless another program takes them; after a successful
      restore the original is under its public name. */
  method FailedInstallation(folder: Folder, copy: Entry, publish: Outcome, seen: Sight, restore: Outcome, sight: Sight, fails: bool)
    returns (published: bool, restored: bool)
    requires folder.Valid() && folder.private == Some(copy) && copy.id in folder.ours
    requires folder.public.Some? ==> folder.public.value.id in folder.ours
    modifies folder
    ensures folder.deleted <= old(folder.deleted) + {copy.id}
    ensures var original := Identity(old(folder.public));
            && (original.Some? ==> original.value in folder.Places() || original.value in folder.taken)
            && (published && restored ==> Identity(folder.public) == original)
  {
    var swap := new ApplicationSwap(folder, copy);
    published := swap.Publish(publish, seen);
    restored := swap.Restore(restore, sight);
    swap.Drop(fails);
  }

  // ---------------------------------------------------------------- LegacyApplication

  class LegacyApplication {
    const folder: Folder
    const classified: Entry
    var moved: bool

    constructor (folder: Folder)
      requires folder.Valid() && folder.public.Some?
      ensures this.folder == folder && classified == folder.public.value && !moved
    {
      this.folder := folder;
      classified := folder.public.value;
      moved := false;
    }

    /** Moves the classified application, and only it, to a fresh backup name. */
    method Retire(wish: Outcome, sight: Sight) returns (ok: bool)
      requires folder.Valid() && !moved
      modifies folder, `moved
      ensures folder.Valid() && folder.Conserves()
      ensures ok ==> wish == Done && sight == Clear
      ensures folder.quiet && old(folder.public) == Some(classified) && old(folder.private) == None && wish == Done && sight == Clear ==> ok
      ensures folder.quiet && moved && !(folder.public == None && folder.private == old(folder.public)) ==>
          sight == BlindAfter && wish == NotDone && folder.public == old(folder.public) && folder.private == None
      ensures ok ==> moved && folder.private == Some(classified) && folder.public == None
      ensures !moved ==> folder.private == old(folder.private)
      ensures folder.quiet && !moved ==> folder.public == old(folder.public)
    {
      folder.Interfere();
      if sight == BlindBefore || folder.public != Some(classified) || folder.private.Some? {
        return false;
      }
      moved := true;
      folder.Interfere();
      var renamed := folder.MoveIn(wish);
      folder.Interfere();
      if sight == BlindAfter {
        return false;
      }
      if Identity(folder.public) == Some(classified.id) && folder.private.None? {
        moved := false;
      }
      return sight == Clear && renamed && folder.public.None? && folder.private == Some(classified);
    }

    /** Puts back what was moved; anything created under the public name since then stays. */
    method Restore(wish: Outcome) returns (ok: bool)
      requires folder.Valid()
      modifies folder, `moved
      ensures folder.Valid() && folder.Conserves()
      ensures ok ==> !moved
      ensures ok && old(moved) ==> folder.public == old(folder.private) && folder.private == None
      ensures ok && !old(moved) ==> folder.public == old(folder.public)
      ensures !ok ==> moved && old(moved)
      ensures ok && old(moved) ==> wish == Done && (folder.quiet ==> old(folder.public) == None && old(folder.private).Some?)
      ensures folder.quiet && old(moved) && old(folder.public) == None && old(folder.private).Some? && wish == Done ==> ok
    {
      if !moved {
        return true;
      }
      folder.Interfere();
      ok := folder.MoveOut(wish);
      if ok {
        moved := false;
      }
    }

    /** Deletes the backup only if it is the classified application, unchanged. */
    method Finish(fails: bool)
      requires folder.Valid()
      modifies folder, `moved
      ensures folder.deleted <= old(folder.deleted) + {classified.id}
      ensures folder.deleted != old(folder.deleted) ==> old(moved) && old(folder.private) == Some(classified)
      ensures folder.public == old(folder.public)
      ensures var goes := old(moved && folder.private == Some(classified));
              && folder.private == (if goes && !fails then None else old(folder.private))
              && moved == (old(moved) && !goes)
    {
      if moved && folder.private == Some(classified) {
        folder.RemovePrivate(fails);
        moved := false;
      }
    }
  }
}
