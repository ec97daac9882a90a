/** The guarded patch transaction.  A catchable signal or one other fault may arrive
    between any two effects (Point), or the fault right behind the last byte of the success
    record (severs); other processes may interfere at the three hooks. */
module PatchTransaction {
  import opened WorkTree
  import opened PatchRecovery

  datatype Disposition = Original | Handler | Ignored

  datatype GitResult = Applied | Rejected(marked: bool) | Interrupted

  /** The text a recovery step reports: whether it carries one of the two stop words. */
  datatype Repair = Restored | Reported(stops: bool)

  /** The state recovery found, and whether it ran without being interrupted itself. */
  datatype Tried = Tried(found: Snapshot, known: set<Tree>, effect: Option<States>, calm: bool)

  datatype Outcome = Success | AlreadyThere | Failed(restored: bool)

  /** What another process does at the last hook, and whether it makes the hook fail. */
  datatype Visit = Visit(edit: Snapshot -> Snapshot, fails: bool)

  class Repository {
    var names: map<Path, Ino>
    var inodes: map<Ino, Inode>
    var index: Tree
    var known: set<Tree>             // tree objects in the object database
    var bound: bool                  // root, .git, branch and HEAD are still those declared
    var parents: map<Path, seq<Ino>> // parent chain of every patch path
    var disposition: Disposition     // of the guarded signals
    var faults: nat                  // non-signal faults still to come
    var written: nat                 // bytes of the success record on the output
    var committed: bool
    const signals: bool              // catchable signals may arrive
    const foreign: bool              // other processes interfere at the first two hooks
    const late: Option<Visit>        // and at the hook before the status is written
    const drifts: bool               // git apply may recreate a blob with the other regular mode
    const tears: bool                // git apply may be stopped between unlinking and creating a name
    const visible: Visibility        // worktree names that no rule of the ignore files hides
    const severs: bool               // a fault arrives between the last byte of the record and the commit flag
    const recordLength: nat
    ghost var interruptions: nat
    ghost var drifted: bool          // a finished git apply left a mode drift not yet normalised
    ghost var driftLost: bool        // an interruption arrived while drifted
    ghost var checked: Snapshot      // the last state that the final check accepted

    constructor (names: map<Path, Ino>, inodes: map<Ino, Inode>, index: Tree, parents: map<Path, seq<Ino>>,
                 signals: bool, faults: nat, foreign: bool, late: Option<Visit>, drifts: bool, tears: bool,
                 visible: Visibility, severs: bool, recordLength: nat)
      ensures Snap() == Snapshot(names, inodes, index) && known == {index} && bound && this.parents == parents
      ensures this.signals == signals && this.faults == faults && this.foreign == foreign && this.late == late
      ensures this.drifts == drifts && this.tears == tears && this.severs == severs
      ensures this.visible == visible && this.recordLength == recordLength
      ensures disposition == Original && written == 0 && !committed && !drifted && !driftLost
    {
      this.names, this.inodes, this.index, this.parents := names, inodes, index, parents;
      this.signals, this.faults, this.foreign, this.late := signals, faults, foreign, late;
      this.drifts, this.tears, this.visible, this.severs := drifts, tears, visible, severs;
      this.recordLength := recordLength;
      known, bound, disposition, written, committed := {index}, true, Original, 0, false;
      interruptions, drifted, driftLost, checked := 0, false, false, Snapshot(names, inodes, index);
    }

    function Snap(): Snapshot
      reads `names, `inodes, `index
    {
      Snapshot(names, inodes, index)
    }

    predicate Armed()
      reads `disposition, `faults
    {
      (signals && disposition == Handler) || faults > 0
    }

    /** No other process interferes. */
    predicate Alone() {
      !foreign && late.None?
    }

    /** git apply of this image cannot drift, and git apply of this patch cannot be caught
        between unlinking and creating a name. */
    predicate Steady(patch: Patch) {
      !drifts || NoRegular(patch.post, patch.scope)
    }

    predicate Whole(patch: Patch) {
      !tears || NoModified(patch.pre, patch.post, patch.scope)
    }

    /** The last hook does not make publication fail. */
    predicate HookPasses() {
      late.Some? ==> !late.value.fails
    }

    /** What the last hook makes of a state. */
    function Visited(s: Snapshot): Snapshot {
      if late.Some? && LinkCounts(late.value.edit(s)) then late.value.edit(s) else s
    }

    /** Any number of signals and no other fault, or at most one other fault and no signal;
        a mode drift only where git apply may drift. */
    ghost predicate Scenario()
      reads `faults, `drifted, `driftLost
    {
      && faults <= 1 && (signals ==> faults == 0) && (severs ==> !signals && faults == 0)
      && (!drifts ==> !drifted && !driftLost)
    }

    // ----- interruptions -----

    /** How a stretch of code without publication moves the interruption state: at most one
        interruption arrives, and none can follow it. */
    twostate predicate Stepped()
      reads `disposition, `faults, `interruptions, `driftLost, `drifted
    {
      && Scenario() && faults <= old(faults) && (old(driftLost) ==> driftLost)
      && old(interruptions) <= interruptions <= old(interruptions) + 1
      && (interruptions == old(interruptions) ==>
            disposition == old(disposition) && faults == old(faults) && driftLost == old(driftLost))
      && (interruptions > old(interruptions) ==>
            old(Armed()) && !Armed())
    }

    /** An interruption records whether it found an unnormalised drift. */
    twostate predicate DriftNoted()
      reads `interruptions, `driftLost, `drifted
    {
      interruptions > old(interruptions) ==> driftLost == (old(driftLost) || old(drifted))
    }

    method Point() returns (interrupted: bool)
      requires Scenario()
      modifies `disposition, `faults, `interruptions, `driftLost
      ensures Stepped() && DriftNoted()
      ensures interrupted <==> interruptions > old(interruptions)
    {
      interrupted := false;
      if signals && disposition == Handler {
        if * {
          disposition := Ignored;  // the handler ignores the guarded signals before it raises
          interrupted := true;
        }
      } else if faults > 0 {
        if * {
          faults := faults - 1;
          interrupted := true;
        }
      }
      if interrupted {
        interruptions := interruptions + 1;
        driftLost := driftLost || drifted;
      }
    }

    /** What other processes may do at a hook: rename, replace, link and edit anything, and
        make the hook fail. */
    method Hook() returns (failed: bool)
      requires LinkCounts(Snap())
      modifies `names, `inodes, `index, `known, `bound, `parents
      ensures LinkCounts(Snap()) && old(known) <= known
      ensures !foreign ==>
                !failed && Snap() == old(Snap()) && known == old(known) && bound == old(bound)
                && parents == old(parents)
    {
      failed := false;
      if foreign {
        failed := *;
        var s: Snapshot := *;
        var more: set<Tree> := *;
        if LinkCounts(s) {
          names, inodes, index := s.names, s.inodes, s.index;
        }
        known := known + more;
        bound := *;
        parents := *;
      }
    }

    /** The hook before the status is written: nothing is checked after it. */
    method StatusHook() returns (failed: bool)
      requires LinkCounts(Snap())
      modifies `names, `inodes, `index, `known, `bound, `parents
      ensures LinkCounts(Snap()) && old(known) <= known && Snap() == Visited(old(Snap()))
      ensures late.None? ==> known == old(known) && bound == old(bound) && parents == old(parents)
      ensures failed <==> late.Some? && late.value.fails
    {
      failed := false;
      if late.Some? {
        var s := Visited(Snap());
        var more: set<Tree> := *;
        names, inodes, index := s.names, s.inodes, s.index;
        known := known + more;
        bound := *;
        parents := *;
        failed := late.value.fails;
      }
    }

    // ----- effects on one name -----

    method FreshInode() returns (i: Ino)
      ensures i !in inodes
    {
      i := 0;
      ghost var free := inodes.Keys;
      while i in inodes
        invariant forall k | k in inodes :: k in free || k < i
        decreases free
      {
        assert i in free;
        free := free - {i};
        i := i + 1;
      }
    }

    /** Unlink the name if it exists and bind it to a fresh inode if an entry is wanted. */
    method Replace(p: Path, e: Option<Entry>)
      requires LinkCounts(Snap()) && (StateOf(Snap(), p).Present? ==> IsLeaf(StateOf(Snap(), p).kind))
      modifies `names, `inodes
      ensures LinkCounts(Snap()) && TouchesOnly(old(Snap()), Snap(), p)
      ensures StateMatches(StateOf(Snap(), p), e) && index == old(index)
    {
      ghost var s := Snap();
      if p in names {
        UnlinkKeeps(s, p);
        var i := names[p];
        inodes := inodes[i := inodes[i].(nlink := inodes[i].nlink - 1)];
        names := names - {p};
        assert Snap() == Unlinked(s, p);
      }
      ghost var t := Snap();
      if e.Some? {
        var i := FreshInode();
        CreateKeeps(t, p, i, e.value);
        names := names[p := i];
        inodes := inodes[i := Inode(KindOf(e.value.mode), BitsOf(e.value.mode), e.value.blob, 1)];
        assert Snap() == Created(t, p, i, e.value);
        TouchTwice(s, t, Snap(), p);
      }
    }

    /** git restore of one path: a regular file is written through its existing inode. */
    method WriteBack(p: Path, e: Entry)
      requires LinkCounts(Snap()) && Replaceable(StateOf(Snap(), p))
      modifies `names, `inodes
      ensures LinkCounts(Snap()) && TouchesOnly(old(Snap()), Snap(), p)
      ensures StateMatches(StateOf(Snap(), p), Some(e)) && index == old(index)
    {
      if p in names && inodes[names[p]].kind == Regular && e.mode != Link {
        RewriteKeeps(Snap(), p, e);
        ghost var s := Snap();
        var i := names[p];
        inodes := inodes[i := inodes[i].(mode := BitsOf(e.mode), content := e.blob)];
        assert Snap() == Rewritten(s, p, e);
      } else {
        Replace(p, Some(e));
      }
    }

    // ----- Git operations -----

    method WriteTree() returns (t: Tree)
      modifies `known
      ensures t == index && known == old(known) + {index}
    {
      t := index;
      known := known + {index};
    }

    method ExactTreeState(t: Tree) returns (exact: bool)
      requires Scenario()
      modifies `known, `disposition, `faults, `interruptions, `driftLost
      ensures Stepped() && DriftNoted()
      ensures old(known) <= known <= old(known) + {index}
      ensures interruptions == old(interruptions) ==> exact == ExactTree(Snap(), t, visible) && index in known
      ensures interruptions > old(interruptions) ==> !exact
    {
      var interrupted := Point();
      if interrupted {
        return false;
      }
      var observed := WriteTree();
      interrupted := Point();
      exact := !interrupted && ExactTree(Snap(), t, visible);
    }

    /** A git apply that is stopped: any subset of the scope already carries the post-image,
        and a modified name may be caught unlinked. */
    method ApplyStopped(post: Tree, paths: seq<Path>)
      requires LinkCounts(Snap()) && NoDuplicates(paths) && Leaves(Snap(), paths)
      modifies `names, `inodes, `index
      ensures LinkCounts(Snap()) && OutsideKept(old(Snap()), Snap(), paths)
      ensures Soles(old(Snap()), paths) && (tears ==> forall p | p in paths && p in post :: p !in old(names)) ==>
                PartialEffect(old(Snap()), Snap(), post, paths)
    {
      ghost var s := Snap();
      ghost var torn := tears && exists p | p in paths && p in post :: p in names;
      StoppedStart(s, post, paths);
      for k := 0 to |paths|
        invariant !torn ==> Stopped(s, Snap(), post, paths, k)
        invariant LinkCounts(Snap()) && OutsideKept(s, Snap(), paths) && Leaves(Snap(), paths)
        invariant forall p | p in paths[k..] :: p in names ==> p in s.names
      {
        hide OutsideKept, TouchesOnly, LinkCounts, Soles, Stopped;
        var p := paths[k];
        ghost var t := Snap();
        SplitAt(paths, k);
        LeafAt(t, paths, k);
        NoStep(t, p);
        var tear := *;
        if tears && p in names && p in post && tear {
          Replace(p, None);
        } else {
          var write := *;
          if write {
            Replace(p, EntryOf(post, p));
          }
        }
        ghost var u := Snap();
        if * {
          IndexStep(t, u, p, EntryOf(post, p));
          index := WithEntry(index, p, EntryOf(post, p));
        }
        StoppedFrame(s, t, Snap(), paths, k);
        if !torn {
          StoppedStep(s, t, Snap(), post, paths, k);
        }
      }
      StoppedEnd(s, Snap(), post, paths);
    }

    /** A git apply that finishes: every scope path carries the post-image, up to mode drift. */
    method ApplyFinished(post: Tree, paths: seq<Path>)
      requires LinkCounts(Snap()) && NoDuplicates(paths) && Leaves(Snap(), paths)
      modifies `names, `inodes, `index
      ensures Finished(old(Snap()), Snap(), post, paths, |paths|, drifts)
    {
      ghost var s := Snap();
      for k := 0 to |paths|
        invariant Finished(s, Snap(), post, paths, k, drifts)
      {
        hide OutsideKept, TouchesOnly, LinkCounts, Leaves;
        var p := paths[k];
        ghost var t := Snap();
        var e := MaybeDrift(EntryOf(post, p));
        Replace(p, e);
        ghost var u := Snap();
        var f := MaybeDrift(EntryOf(post, p));
        IndexStep(t, u, p, f);
        index := WithEntry(index, p, f);
        FinishedStep(s, t, Snap(), post, paths, k, drifts, e);
      }
    }

    method MaybeDrift(e: Option<Entry>) returns (r: Option<Entry>)
      ensures r == e || (drifts && r == Flip(e) && ModeDrift(r, e))
    {
      r := e;
      if drifts && e.Some? && e.value.mode != Link {
        if * {
          r := Flip(e);
        }
      }
    }

    /** git apply --index, with or without --check. */
    method GitApply(pre: Tree, post: Tree, paths: seq<Path>, checkOnly: bool) returns (r: GitResult)
      requires LinkCounts(Snap()) && Scenario() && NoDuplicates(paths)
      modifies `names, `inodes, `index, `disposition, `faults, `interruptions, `driftLost, `drifted
      ensures LinkCounts(Snap()) && Stepped() && DriftNoted()
      ensures r.Interrupted? <==> interruptions > old(interruptions)
      ensures !r.Interrupted? ==> (r.Rejected? <==> PreimageRejected(old(Snap()), pre, paths))
      ensures r.Rejected? ==> r.marked == RejectionMarked(old(Snap()), pre, paths)
      ensures checkOnly || r.Rejected? ==> Snap() == old(Snap())
      ensures drifted == (if r.Applied? && !checkOnly then old(drifted) || !ScopeMatches(Snap(), post, paths)
                          else old(drifted))
      ensures OutsideKept(old(Snap()), Snap(), paths)
      ensures r.Interrupted? && Soles(old(Snap()), paths) && (tears ==> NoModified(pre, post, paths)) ==>
                PartialEffect(old(Snap()), Snap(), post, paths)
      ensures r.Applied? && !checkOnly ==>
                && FinishedEffect(old(Snap()), Snap(), post, paths)
                && (!drifts || NoRegular(post, paths) ==> ScopeMatches(Snap(), post, paths))
    {
      var interrupted := Point();
      if interrupted {
        return Interrupted;
      }
      if PreimageRejected(Snap(), pre, paths) {
        return Rejected(RejectionMarked(Snap(), pre, paths));
      }
      PreimageIsLeaf(Snap(), pre, paths);
      if checkOnly {
        return Applied;
      }
      interrupted := Point();
      if interrupted {
        ApplyStopped(post, paths);
        return Interrupted;
      }
      ghost var s := Snap();
      ApplyFinished(post, paths);
      FinishedEnd(s, Snap(), post, paths, drifts);
      drifted := drifted || !ScopeMatches(Snap(), post, paths);
      r := Applied;
    }

    // ----- restoring an exact tree -----

    /** Detach owned names that other processes hard-linked: the aliases keep inode and bytes. */
    method DetachAliases(paths: seq<Path>, effect: States) returns (interrupted: bool)
      requires LinkCounts(Snap()) && Scenario() && NoDuplicates(paths) && SoleStates(effect, paths)
      requires OwnedEffect(Snap(), paths, effect)
      modifies `names, `inodes, `disposition, `faults, `interruptions, `driftLost
      ensures LinkCounts(Snap()) && Stepped() && DriftNoted() && (interrupted <==> interruptions > old(interruptions))
      ensures index == old(index) && OutsideKept(old(Snap()), Snap(), paths)
      ensures !interrupted ==> Soles(Snap(), paths)
      ensures effect == Capture(old(Snap()), paths) ==> Snap() == old(Snap())
    {
      hide Detached, OutsideKept, TouchesOnly, LinkCounts, SoleStates, Soles;
      ghost var s := Snap();
      DetachedEnds(s, s, paths, 0);
      interrupted := false;
      for k := 0 to |paths|
        invariant Detached(s, Snap(), paths, k) && index == old(index)
        invariant effect == Capture(s, paths) ==> Snap() == s
        invariant unchanged(`disposition, `faults, `interruptions, `driftLost)
      {
        DetachedEnds(s, Snap(), paths, k);
        interrupted := Point();
        if interrupted {
          return;
        }
        var p := paths[k];
        ghost var t := Snap();
        if OwnedWithAddedLinks(StateOf(Snap(), p), effect[p]) {
          DetachStep(s, t, paths, k, effect);
          var i := names[p];
          inodes := inodes[i := inodes[i].(nlink := inodes[i].nlink - 1)];
          names := names - {p};
          assert Snap() == Unlinked(t, p);
        } else {
          DetachSkip(s, t, paths, k, effect);
        }
      }
      DetachedEnds(s, Snap(), paths, |paths|);
    }

    /** Write every path of the scope that the desired tree holds, or remove those it does not. */
    method SettlePaths(desired: Tree, paths: seq<Path>, holding: bool) returns (interrupted: bool)
      requires LinkCounts(Snap()) && Scenario() && NoDuplicates(paths) && Soles(Snap(), paths)
      modifies `names, `inodes, `index, `disposition, `faults, `interruptions, `driftLost
      ensures LinkCounts(Snap()) && Stepped() && DriftNoted() && (interrupted <==> interruptions > old(interruptions))
      ensures OutsideKept(old(Snap()), Snap(), paths)
      ensures !interrupted ==> Settled(old(Snap()), Snap(), desired, paths, |paths|, holding)
      ensures PartialEffect(old(Snap()), Snap(), desired, paths)
    {
      hide Settled, OutsideKept, TouchesOnly, LinkCounts, Soles, Replaceable, PartialEffect, StateMatches;
      ghost var s := Snap();
      SettledEnds(s, s, desired, paths, 0, holding);
      interrupted := false;
      for k := 0 to |paths|
        invariant Settled(s, Snap(), desired, paths, k, holding)
        invariant unchanged(`disposition, `faults, `interruptions, `driftLost)
      {
        SettledEnds(s, Snap(), desired, paths, k, holding);
        SettledIsPartial(s, Snap(), desired, paths, k, holding);
        interrupted := Point();
        if interrupted {
          return;
        }
        var p := paths[k];
        ghost var t := Snap();
        if (p in desired) == holding {
          SolesAt(t, paths, k);
          if p in desired {
            WriteBack(p, desired[p]);
          } else {
            Replace(p, None);
          }
          ghost var u := Snap();
          interrupted := Point();
          if interrupted {
            TouchInside(s, t, u, p, paths);
            SettlingIsPartial(s, t, u, desired, paths, p);
            return;
          }
          IndexStep(t, u, p, EntryOf(desired, p));
          index := WithEntry(index, p, EntryOf(desired, p));
          SettleStep(s, t, Snap(), desired, paths, k, holding);
        } else {
          SettleSkip(s, t, desired, paths, k, holding);
        }
      }
      SettledEnds(s, Snap(), desired, paths, |paths|, holding);
      SettledIsPartial(s, Snap(), desired, paths, |paths|, holding);
    }

    method RestoreExactTree(desired: Tree, alternate: Tree, paths: seq<Path>,
                            before: Option<States>, effect: Option<States>) returns (r: Repair)
      requires LinkCounts(Snap()) && Scenario() && NoDuplicates(paths)
      requires effect.Some? ==> SoleStates(effect.value, paths)
      requires before.Some? ==> forall p | p in paths && p in before.value :: Replaceable(before.value[p])
      modifies `names, `inodes, `index, `known, `disposition, `faults, `interruptions, `driftLost
      ensures LinkCounts(Snap()) && Stepped() && DriftNoted() && OutsideKept(old(Snap()), Snap(), paths)
      ensures old(known) <= known
      ensures !Guard(old(Snap()), old(known), paths, desired, alternate, before, effect, true) ==>
                r != Restored && Snap() == old(Snap()) && known == old(known)
      ensures known <= old(known) + {index}
      ensures interruptions > old(interruptions) ==> r != Restored
      ensures r == Restored ==> ScopeMatches(Snap(), desired, paths)
      ensures effect == Some(Capture(old(Snap()), paths)) ==> PartialEffect(old(Snap()), Snap(), desired, paths)
      ensures interruptions == old(interruptions)
              && Guard(old(Snap()), old(known), paths, desired, alternate, before, effect, true) ==>
                && ScopeMatches(Snap(), desired, paths)
                && (r == Restored <==> bound && ExactTree(Snap(), desired, visible))
    {
      hide OutsideKept, LinkCounts, Guard, Soles, SoleStates, Settled, OwnedEffect, ScopeMatches, ExactTree,
           PartialEffect, Capture;
      OutsideKeptSelf(Snap(), paths);
      NothingYet(Snap(), desired, paths);
      var interrupted := Point();
      if interrupted {
        return Reported(false);
      }
      if !Guard(Snap(), known, paths, desired, alternate, before, effect, true) {
        return Reported(true);
      }
      ghost var s := Snap();
      GuardGives(s, known, paths, desired, alternate, before, effect);
      if effect.Some? {
        interrupted := DetachAliases(paths, effect.value);
        if interrupted {
          return Reported(false);
        }
      }
      ghost var t := Snap();
      interrupted := SettlePaths(desired, paths, true);
      OutsideKeptTransitive(s, t, Snap(), paths);
      if interrupted {
        return Reported(false);
      }
      ghost var u := Snap();
      SettledEnds(t, u, desired, paths, |paths|, true);
      interrupted := SettlePaths(desired, paths, false);
      OutsideKeptTransitive(s, u, Snap(), paths);
      PartialTwice(t, u, Snap(), desired, paths);
      if interrupted {
        return Reported(false);
      }
      SettledTwice(t, u, Snap(), desired, paths);
      if !bound {
        return Reported(false);
      }
      var exact := ExactTreeState(desired);
      r := if exact then Restored else Reported(true);
    }

    /** Normalise a finished git apply, forward or inverse, to the exact tree if it drifted. */
    method Normalise(target: Tree, source: Tree, paths: seq<Path>, effect: States) returns (r: Repair)
      requires LinkCounts(Snap()) && Scenario() && NoDuplicates(paths) && SoleStates(effect, paths)
      modifies `names, `inodes, `index, `known, `disposition, `faults, `interruptions, `driftLost
      ensures LinkCounts(Snap()) && Stepped() && DriftNoted() && OutsideKept(old(Snap()), Snap(), paths)
      ensures old(known) <= known
      ensures r == Restored ==> interruptions == old(interruptions) && ScopeMatches(Snap(), target, paths)
      ensures effect == Capture(old(Snap()), paths) ==>
                && Underway(old(Snap()), Snap(), target, paths)
                && (target in known && target !in old(known) ==> index == target)
      ensures old(index) == target && ScopeMatches(old(Snap()), target, paths) ==>
                Snap() == old(Snap()) && (r == Restored || interruptions > old(interruptions))
      ensures interruptions == old(interruptions) && !(old(index) == target && ScopeMatches(old(Snap()), target, paths))
              && !Guard(old(Snap()), old(known) + {old(index)}, paths, target, source, None, Some(effect), true) ==>
                Snap() == old(Snap()) && r != Restored
      ensures interruptions == old(interruptions)
              && Guard(old(Snap()), old(known) + {old(index)}, paths, target, source, None, Some(effect), true) ==>
                ScopeMatches(Snap(), target, paths) && (bound && ExactTree(Snap(), target, visible) ==> r == Restored)
    {
      hide OutsideKept, LinkCounts, Guard, SoleStates, ExactTree, ScopeMatches, PartialEffect, Capture, NoDuplicates,
           Replaceable, Underway;
      ghost var t := Snap();
      OutsideKeptSelf(t, paths);
      UnderwaySelf(t, target, paths);
      var interrupted := Point();
      if interrupted {
        return Reported(false);
      }
      var observed := WriteTree();
      if observed == target && ScopeMatches(Snap(), target, paths) {
        return Restored;
      }
      GuardNeeds(t, known, paths, target, source, None, Some(effect));
      r := RestoreExactTree(target, source, paths, None, Some(effect));
      if effect == Capture(t, paths) {
        PartialIndex(t, Snap(), target, paths);
        PartialIsUnderway(t, Snap(), target, paths);
      }
    }

    /** After a finished inverse: normalise it, then decide whether the tree is exact. */
    method NormaliseInverse(post: Tree, expected: Tree, alternate: Tree, paths: seq<Path>) returns (r: Repair)
      requires LinkCounts(Snap()) && Scenario() && NoDuplicates(paths) && Soles(Snap(), paths)
      modifies `names, `inodes, `index, `known, `disposition, `faults, `interruptions, `driftLost
      ensures LinkCounts(Snap()) && Stepped() && OutsideKept(old(Snap()), Snap(), paths)
      ensures old(known) <= known
      ensures r == Restored ==> ExactTree(Snap(), expected, visible) && ScopeMatches(Snap(), expected, paths)
      ensures (&& interruptions == old(interruptions) && AgreesOn(paths, post, expected)
               && expected in old(known) && alternate in old(known)
               && IndexDrifts(old(index), post, paths)) ==>
                && ScopeMatches(Snap(), expected, paths)
                && (r == Restored <==> bound && ExactTree(Snap(), expected, visible))
    {
      hide OutsideKept, LinkCounts, Guard, Soles, SoleStates, ExactTree, ScopeMatches, AgreesOn, IndexDrifts, Capture;
      var inverse := Capture(Snap(), paths);
      CaptureIsSole(Snap(), paths);
      if AgreesOn(paths, post, expected) && expected in known && alternate in known && IndexDrifts(index, post, paths) {
        FinishedIsGuarded(Snap(), known + {index}, paths, post, expected, alternate);
      }
      r := Normalise(expected, alternate, paths, inverse);
      if r == Restored {
        var exact := ExactTreeState(expected);
        r := if !bound then Reported(false) else if exact then Restored else Reported(true);
      }
    }

    /** The exact inverse through git apply, normalised if it drifted. */
    method RestoreWithInverse(patch: Patch, expected: Tree, alternate: Tree,
                              before: Option<States>, effect: Option<States>) returns (r: Repair)
      requires LinkCounts(Snap()) && Scenario() && NoDuplicates(patch.scope)
      requires effect.Some? ==> SoleStates(effect.value, patch.scope)
      requires index == alternate
      modifies `names, `inodes, `index, `known, `disposition, `faults, `interruptions, `driftLost, `drifted
      ensures LinkCounts(Snap()) && Stepped() && OutsideKept(old(Snap()), Snap(), patch.scope)
      ensures old(known) <= known
      ensures r == Restored ==> ExactTree(Snap(), expected, visible) && ScopeMatches(Snap(), expected, patch.scope)
      ensures interruptions == old(interruptions) && Turns(patch, alternate, expected) ==>
                if !Guard(old(Snap()), old(known), patch.scope, expected, alternate, before, effect, true) then
                  Snap() == old(Snap()) && known == old(known) && r == Reported(true)
                else if PreimageRejected(old(Snap()), alternate, patch.scope) then
                  Snap() == old(Snap()) && known == old(known)
                    && r == Reported(RejectionMarked(old(Snap()), alternate, patch.scope))
                else
                  && ScopeMatches(Snap(), expected, patch.scope)
                  && (r == Restored <==> bound && ExactTree(Snap(), expected, visible))
    {
      hide OutsideKept, LinkCounts, Guard, Soles, SoleStates, ExactTree, ScopeMatches, PreimageRejected,
           RejectionMarked, AgreesOn, IsDiff, IndexDrifts;
      var paths := patch.scope;
      ghost var s := Snap();
      OutsideKeptSelf(s, paths);
      if Turns(patch, alternate, expected) {
        SamePreimage(s, patch.pre, alternate, paths);
      }
      var interrupted := Point();
      if interrupted {
        return Reported(false);
      }
      GuardOnAlternate(s, known, paths, expected, alternate, before, effect);
      if !Guard(Snap(), known, paths, expected, alternate, before, effect, false) {
        return Reported(true);
      }
      GuardKnows(s, known, paths, expected, alternate, before, effect, false);
      var g := GitApply(patch.pre, patch.post, paths, true);
      if !g.Applied? {
        return Reported(g.Rejected? && g.marked);
      }
      g := GitApply(patch.pre, patch.post, paths, false);
      if !g.Applied? {
        return Reported(false);
      }
      ghost var t := Snap();
      FinishedGives(s, t, patch.post, paths);
      r := NormaliseInverse(patch.post, expected, alternate, paths);
      OutsideKeptTransitive(s, t, Snap(), paths);
    }

    /** Recovery of a state that is not the exact desired tree: the inverse first, then a
        restore of the scope unless the inverse reported one of the stop words. */
    method RecoverInexact(patch: Patch, desired: Tree, alternate: Tree, before: States, effect: Option<States>)
      returns (restored: bool)
      requires LinkCounts(Snap()) && Scenario() && NoDuplicates(patch.scope)
      requires effect.Some? ==> SoleStates(effect.value, patch.scope)
      requires forall p | p in patch.scope && p in before :: Replaceable(before[p])
      modifies `names, `inodes, `index, `known, `disposition, `faults, `interruptions, `driftLost, `drifted
      ensures LinkCounts(Snap()) && Stepped() && OutsideKept(old(Snap()), Snap(), patch.scope)
      ensures old(known) <= known
      ensures restored ==> ExactTree(Snap(), desired, visible) && ScopeMatches(Snap(), desired, patch.scope)
      ensures interruptions == old(interruptions) && Turns(patch, alternate, desired) ==>
                if Recovers(old(Snap()), old(known), patch.scope, desired, alternate, Some(before), effect) then
                  && ScopeMatches(Snap(), desired, patch.scope)
                  && (restored <==> bound && ExactTree(Snap(), desired, visible))
                else
                  !restored && Snap() == old(Snap())
    {
      hide OutsideKept, LinkCounts, Guard, SoleStates, ExactTree, ScopeMatches, PreimageRejected, RejectionMarked,
           Turns, PartialEffect, Capture, Replaceable, NoDuplicates, Recovers;
      ghost var s := Snap();
      OutsideKeptSelf(s, patch.scope);
      RecoversMeans(s, known, patch.scope, desired, alternate, Some(before), effect);
      restored := false;
      var interrupted := Point();
      if interrupted {
        return;
      }
      var current := WriteTree();
      if current == alternate {
        MarkedIsRejected(s, alternate, patch.scope);
        var inverse := RestoreWithInverse(patch, desired, alternate, Some(before), effect);
        if inverse == Restored {
          return true;
        }
        if inverse.stops {
          return;
        }
      }
      ghost var t := Snap();
      var r := RestoreExactTree(desired, alternate, patch.scope, Some(before), effect);
      OutsideKeptTransitive(s, t, Snap(), patch.scope);
      restored := r == Restored;
    }

    /** Recovery is all or nothing: an unowned scope is left untouched, an owned one is
        restored as a whole, and nothing outside the scope is changed in either case. */
    method RecoverAfterEffect(patch: Patch, desired: Tree, alternate: Tree, before: States, effect: Option<States>)
      returns (restored: bool)
      requires LinkCounts(Snap()) && Scenario() && NoDuplicates(patch.scope)
      requires effect.Some? ==> SoleStates(effect.value, patch.scope)
      requires forall p | p in patch.scope && p in before :: Replaceable(before[p])
      modifies `names, `inodes, `index, `known, `disposition, `faults, `interruptions, `driftLost, `drifted
      ensures LinkCounts(Snap()) && Stepped() && OutsideKept(old(Snap()), Snap(), patch.scope)
      ensures old(known) <= known
      ensures restored ==> ExactTree(Snap(), desired, visible)
      ensures restored && Discerned(old(Snap()), old(known) + {old(index)}, patch.scope, desired, alternate, before,
                                    effect, visible) ==>
                ScopeMatches(Snap(), desired, patch.scope)
      ensures interruptions == old(interruptions) && Turns(patch, alternate, desired) ==>
                if ExactTree(old(Snap()), desired, visible) then
                  restored && Snap() == old(Snap())
                else if Recovers(old(Snap()), old(known), patch.scope, desired, alternate, Some(before), effect) then
                  && ScopeMatches(Snap(), desired, patch.scope)
                  && (restored <==> bound && ExactTree(Snap(), desired, visible))
                else
                  !restored && Snap() == old(Snap())
    {
      hide OutsideKept, LinkCounts, Guard, SoleStates, ExactTree, ScopeMatches, PreimageRejected, RejectionMarked,
           Turns;
      ghost var s := Snap();
      OutsideKeptSelf(s, patch.scope);
      restored := ExactTreeState(desired);
      if restored {
        if Discerned(s, old(known) + {old(index)}, patch.scope, desired, alternate, before, effect, visible) {
          OwnedAndCleanIsExact(s, old(known) + {old(index)}, patch.scope, desired, alternate, before, effect, visible);
        }
        return;
      }
      assert known + {index} == old(known) + {index};
      restored := RecoverInexact(patch, desired, alternate, before, effect);
    }

    // ----- the forward mutation -----

    /** The check-only pass, the hook behind it, and the bindings every patch path must keep. */
    method PreEffect(patch: Patch, before: States, chains: map<Path, seq<Ino>>) returns (ok: bool)
      requires LinkCounts(Snap()) && Scenario() && NoDuplicates(patch.scope) && !drifted
      requires before == Capture(Snap(), patch.scope) && chains == parents
      modifies `names, `inodes, `index, `known, `bound, `parents, `disposition, `faults, `interruptions, `driftLost,
               `drifted
      ensures LinkCounts(Snap()) && Stepped() && DriftNoted() && old(known) <= known && !drifted
      ensures ok ==>
                interruptions == old(interruptions) && bound && parents == chains
                && Capture(Snap(), patch.scope) == before
      ensures !foreign ==>
                Snap() == old(Snap()) && known == old(known) && bound == old(bound) && parents == old(parents)
      ensures !foreign && bound && !PreimageRejected(old(Snap()), patch.pre, patch.scope) ==>
                ok || interruptions > old(interruptions)
    {
      hide OutsideKept, LinkCounts, ScopeMatches, PartialEffect, Soles, Capture, IndexDrifts, PreimageRejected;
      ok := false;
      var g := GitApply(patch.pre, patch.post, patch.scope, true);
      if g.Applied? {
        var interrupted := Point();
        if !interrupted {
          var failed := Hook();
          ok := !failed && bound && parents == chains && Capture(Snap(), patch.scope) == before;
        }
      }
    }

    /** The bound, mutating git apply. */
    method ApplyBound(patch: Patch, ghost source: Tree, ghost target: Tree, before: States, chains: map<Path, seq<Ino>>)
      returns (applied: bool)
      requires LinkCounts(Snap()) && Scenario() && NoDuplicates(patch.scope) && !drifted
      requires before == Capture(Snap(), patch.scope) && chains == parents
      modifies `names, `inodes, `index, `known, `bound, `parents, `disposition, `faults, `interruptions, `driftLost,
               `drifted
      ensures LinkCounts(Snap()) && Stepped() && DriftNoted() && old(known) <= known
      ensures drifted <==> applied && !ScopeMatches(Snap(), patch.post, patch.scope)
      ensures applied ==> interruptions == old(interruptions)
      ensures Steady(patch) ==> !drifted
      ensures applied ==> Soles(Snap(), patch.scope) && IndexDrifts(index, patch.post, patch.scope)
      ensures !foreign ==>
                OutsideKept(old(Snap()), Snap(), patch.scope) && bound == old(bound) && parents == old(parents)
      ensures !foreign ==>
                known == old(known) && (applied ==> FinishedEffect(old(Snap()), Snap(), patch.post, patch.scope))
      ensures !foreign && Ready(old(Snap()), old(known), patch, source, target, visible) && old(bound) ==>
                && (applied || interruptions > old(interruptions))
                && (!applied && Whole(patch) ==> PartialEffect(old(Snap()), Snap(), patch.post, patch.scope))
    {
      hide OutsideKept, LinkCounts, ScopeMatches, Turns, Ready, PartialEffect, FinishedEffect, Soles, Capture,
           IndexDrifts, PreimageRejected, NoRegular, NoModified;
      ghost var s := Snap();
      OutsideKeptSelf(s, patch.scope);
      NothingYet(s, patch.post, patch.scope);
      if Ready(s, known, patch, source, target, visible) {
        ReadyGives(s, known, patch, source, target, visible);
        SourceHoldsPreimage(s, patch, source, target);
        MatchedAreSoles(s, source, patch.scope);
      }
      applied := PreEffect(patch, before, chains);
      if applied {
        ghost var t := Snap();
        var g := GitApply(patch.pre, patch.post, patch.scope, false);
        applied := g.Applied?;
        if applied {
          FinishedGives(t, Snap(), patch.post, patch.scope);
        }
      }
    }

    /** Capture the effect of a finished git apply and normalise it to the target. */
    method CaptureEffect(patch: Patch, source: Tree, target: Tree) returns (ok: bool, effect: Option<States>)
      requires LinkCounts(Snap()) && Scenario() && NoDuplicates(patch.scope) && Soles(Snap(), patch.scope)
      modifies `names, `inodes, `index, `known, `disposition, `faults, `interruptions, `driftLost, `drifted
      ensures LinkCounts(Snap()) && Stepped() && DriftNoted() && old(known) <= known && (drifted ==> old(drifted))
      ensures OutsideKept(old(Snap()), Snap(), patch.scope)
      ensures effect.Some? ==> SoleStates(effect.value, patch.scope)
      ensures ok ==> interruptions == old(interruptions) && !drifted && effect.Some?
      ensures ok ==> effect.value == Capture(Snap(), patch.scope) && ScopeMatches(Snap(), target, patch.scope)
      ensures effect.None? ==> Snap() == old(Snap()) && interruptions > old(interruptions)
      ensures effect.Some? && !ok ==> effect.value == Capture(old(Snap()), patch.scope)
      ensures Underway(old(Snap()), Snap(), target, patch.scope)
      ensures target in known && target !in old(known) ==> index == target
      ensures !(old(index) == target && ScopeMatches(old(Snap()), target, patch.scope))
              && !Guard(old(Snap()), old(known) + {old(index)}, patch.scope, target, source, None,
                        Some(Capture(old(Snap()), patch.scope)), true)
              && interruptions == old(interruptions) ==>
                Snap() == old(Snap()) && !ok
      ensures old(index) == target && ScopeMatches(old(Snap()), target, patch.scope) ==>
                && Snap() == old(Snap()) && (ok || interruptions > old(interruptions))
                && (effect.Some? ==> effect.value == Capture(Snap(), patch.scope))
      ensures interruptions == old(interruptions)
              && Guard(old(Snap()), old(known) + {old(index)}, patch.scope, target, source, None,
                       Some(Capture(old(Snap()), patch.scope)), true) ==>
                ScopeMatches(Snap(), target, patch.scope) && (bound && ExactTree(Snap(), target, visible) ==> ok)
    {
      hide OutsideKept, LinkCounts, Guard, SoleStates, ExactTree, ScopeMatches, Soles, Capture, Underway;
      OutsideKeptSelf(Snap(), patch.scope);
      UnderwaySelf(Snap(), target, patch.scope);
      ok, effect := false, None;
      var interrupted := Point();
      if interrupted {
        return;
      }
      effect := Some(Capture(Snap(), patch.scope));
      CaptureIsSole(Snap(), patch.scope);
      var r := Normalise(target, source, patch.scope, effect.value);
      ok := r == Restored;
      if ok {
        MatchedAreSoles(Snap(), target, patch.scope);
        effect := Some(Capture(Snap(), patch.scope));
        CaptureIsSole(Snap(), patch.scope);
        drifted := false;
      }
    }

    /** The region before the after-effect hook: git apply, then normalisation. */
    method Mutate(patch: Patch, source: Tree, target: Tree, before: States, chains: map<Path, seq<Ino>>)
      returns (ok: bool, effect: Option<States>)
      requires LinkCounts(Snap()) && Scenario() && NoDuplicates(patch.scope) && !drifted && !driftLost
      requires before == Capture(Snap(), patch.scope) && chains == parents
      modifies `names, `inodes, `index, `known, `bound, `parents, `disposition, `faults, `interruptions, `driftLost,
               `drifted
      ensures LinkCounts(Snap()) && Stepped() && old(known) <= known
      ensures effect.Some? ==> SoleStates(effect.value, patch.scope)
      ensures ok ==> interruptions == old(interruptions) && !drifted && effect.Some?
      ensures ok ==> effect.value == Capture(Snap(), patch.scope) && ScopeMatches(Snap(), target, patch.scope)
      ensures Steady(patch) ==> !drifted && !driftLost
      ensures !foreign ==>
                OutsideKept(old(Snap()), Snap(), patch.scope) && bound == old(bound) && parents == old(parents)
      ensures !foreign && Ready(old(Snap()), old(known), patch, source, target, visible) && old(bound)
              && (Steady(patch) || (target in old(known) && StaysHidden(old(Snap()), target, patch.scope, visible))) ==>
                && (ok || interruptions > old(interruptions))
                && (Whole(patch) && !driftLost ==> Undoable(old(Snap()), Snap(), patch, target, effect))
      ensures !foreign && target in known && target !in old(known) ==> index == target
      ensures !foreign && Ready(old(Snap()), old(known), patch, source, target, visible) && old(bound)
              && Whole(patch) ==>
                Reached(old(Snap()), old(known), Snap(), patch, target, effect, visible, driftLost)
    {
      hide OutsideKept, LinkCounts, Guard, SoleStates, ExactTree, ScopeMatches, Ready, PartialEffect, Soles, Capture,
           IndexDrifts, Undoable, StaysHidden, NoRegular, NoModified, FinishedEffect, Underway;
      ghost var s, k := Snap(), known;
      ghost var ready := !foreign && Ready(s, k, patch, source, target, visible) && bound;
      ok, effect := false, None;
      var applied := ApplyBound(patch, source, target, before, chains);
      if !applied {
        if ready && Whole(patch) {
          PartialIsUndoable(s, Snap(), patch, target);
        }
        return;
      }
      ghost var t := Snap();
      if ready {
        FinishedIsRepairable(s, t, k, known, patch, source, target, visible);
      }
      ok, effect := CaptureEffect(patch, source, target);
      if !foreign {
        OutsideKeptTransitive(s, t, Snap(), patch.scope);
      }
      if ready && ScopeMatches(Snap(), target, patch.scope) {
        SettledIsUndoable(s, t, Snap(), k, patch, source, target, visible, effect);
      }
      if ready {
        CapturedIsReached(s, t, Snap(), k, patch, source, target, visible, effect, ok, driftLost);
      }
    }

    // ----- publication -----

    /** Ignore the guarded signals, run the last hook, then write the success record piece by
        piece.  A failure before the commit flag is set puts the signal handlers back, even if
        the record is complete by then.  Nothing is checked again behind the hook. */
    method Publish() returns (done: bool)
      requires Scenario() && LinkCounts(Snap()) && written == 0 && !committed && recordLength > 0
      modifies `names, `inodes, `index, `known, `bound, `parents, `disposition, `faults, `interruptions, `driftLost,
               `written, `committed
      ensures Scenario() && LinkCounts(Snap()) && faults <= old(faults) && old(known) <= known
      ensures written <= recordLength && (done <==> written == recordLength && !severs) && (committed <==> done)
      ensures done ==> disposition == Ignored
      ensures written == recordLength ==>
                interruptions == old(interruptions) && driftLost == old(driftLost) && Snap() == Visited(old(Snap()))
      ensures Snap() == old(Snap()) || Snap() == Visited(old(Snap()))
      ensures !done ==>
                if interruptions == old(interruptions) then
                  && (written == recordLength || !HookPasses())
                  && disposition == old(disposition) && faults == old(faults) && driftLost == old(driftLost)
                else
                  interruptions == old(interruptions) + 1 && old(Armed()) && !Armed() && DriftNoted()
      ensures !HookPasses() ==> written < recordLength
      ensures late.None? ==> known == old(known) && bound == old(bound) && parents == old(parents)
    {
      hide LinkCounts;
      done := false;
      var interrupted := Point();
      if interrupted {
        return;
      }
      var previous := disposition;
      disposition := Ignored;
      var failed := StatusHook();
      if failed {
        disposition := previous;
        return;
      }
      while written < recordLength
        invariant Scenario() && written <= recordLength && !committed && disposition == Ignored
        invariant interruptions == old(interruptions) && driftLost == old(driftLost) && faults == old(faults)
        modifies `disposition, `faults, `interruptions, `driftLost, `written
      {
        interrupted := Point();
        if interrupted {
          disposition := previous;
          return;
        }
        var count: int := *;
        if count < 1 || count > recordLength - written {
          count := 1;
        }
        written := written + count;
      }
      if severs {
        disposition := previous;
        return;
      }
      committed := true;
      done := true;
    }

    // ----- the whole transaction -----

    /** The exact source (or target) state: bindings, index, worktree and patch-path topology. */
    method CheckState(t: Tree, paths: seq<Path>) returns (ok: bool)
      requires Scenario()
      modifies `known, `disposition, `faults, `interruptions, `driftLost
      ensures Stepped() && DriftNoted() && old(known) <= known <= old(known) + {index}
      ensures interruptions == old(interruptions) ==>
                ok == (bound && ExactTree(Snap(), t, visible) && ScopeMatches(Snap(), t, paths))
      ensures ok ==> interruptions == old(interruptions) && t in known
    {
      var exact := ExactTreeState(t);
      var interrupted := Point();
      ok := !interrupted && bound && exact && ScopeMatches(Snap(), t, paths);
    }

    /** The final check of state and scope, and publication. */
    method Confirm(paths: seq<Path>, source: Tree, target: Tree) returns (done: bool)
      requires Scenario() && LinkCounts(Snap()) && written == 0 && !committed && recordLength > 0 && !drifted
      modifies `names, `inodes, `index, `known, `bound, `parents, `disposition, `faults, `interruptions, `driftLost,
               `written, `committed, `checked
      ensures LinkCounts(Snap()) && Scenario() && faults <= old(faults) && old(known) <= known
              && driftLost == old(driftLost)
      ensures old(interruptions) <= interruptions && (interruptions > old(interruptions) ==> old(Armed()) && !Armed())
      ensures !done && interruptions == old(interruptions) ==> disposition == old(disposition) && faults == old(faults)
      ensures written <= recordLength && (done <==> written == recordLength && !severs) && (committed <==> done)
      ensures done ==> disposition == Ignored
      ensures written == recordLength ==>
                && checked == old(Snap()) && Snap() == Visited(checked) && interruptions == old(interruptions)
                && ExactTree(checked, target, visible) && ScopeMatches(checked, target, paths)
                && IsDiff(paths, source, target) && target in known
      ensures written == recordLength && late.None? ==> bound
      ensures late.None? ==> Snap() == old(Snap()) && bound == old(bound) && parents == old(parents)
      ensures late.None? ==> known <= old(known) + {index}
      ensures old(bound) && ExactTree(old(Snap()), target, visible) && ScopeMatches(old(Snap()), target, paths)
              && IsDiff(paths, source, target) && HookPasses() ==>
                written == recordLength || interruptions > old(interruptions)
    {
      hide LinkCounts, ExactTree, ScopeMatches, IsDiff;
      done := false;
      var ok := CheckState(target, paths);
      if ok && IsDiff(paths, source, target) {
        checked := Snap();
        done := Publish();
      }
    }

    /** The region inside the recovery handler, from the check-only pass to publication. */
    method Attempt(patch: Patch, source: Tree, target: Tree, before: States, chains: map<Path, seq<Ino>>)
      returns (done: bool, effect: Option<States>)
      requires LinkCounts(Snap()) && Scenario() && NoDuplicates(patch.scope) && !drifted && !driftLost
      requires before == Capture(Snap(), patch.scope) && chains == parents
      requires written == 0 && !committed && recordLength > 0
      modifies `names, `inodes, `index, `known, `bound, `parents, `disposition, `faults, `interruptions, `driftLost,
               `drifted, `written, `committed, `checked
      ensures LinkCounts(Snap()) && Scenario() && faults <= old(faults) && old(known) <= known
      ensures old(interruptions) <= interruptions && (interruptions > old(interruptions) ==> old(Armed()) && !Armed())
      ensures !done && interruptions == old(interruptions) ==> disposition == old(disposition) && faults == old(faults)
      ensures effect.Some? ==> SoleStates(effect.value, patch.scope)
      ensures written <= recordLength && (done <==> written == recordLength && !severs) && (committed <==> done)
      ensures done ==> disposition == Ignored
      ensures written == recordLength ==>
                && ExactTree(checked, target, visible) && ScopeMatches(checked, target, patch.scope)
                && Snap() == Visited(checked) && IsDiff(patch.scope, source, target)
                && effect.Some? && effect.value == Capture(checked, patch.scope) && target in known
                && interruptions == old(interruptions)
      ensures written == recordLength && late.None? ==> bound && parents == chains
      ensures written == recordLength && !foreign ==> OutsideKept(old(Snap()), checked, patch.scope)
      ensures Steady(patch) || !old(Armed()) ==> !driftLost
      ensures Alone() ==> OutsideKept(old(Snap()), Snap(), patch.scope) && bound == old(bound)
      ensures Alone() && target in known && target !in old(known) ==> index == target
      ensures !foreign && Ready(old(Snap()), old(known), patch, source, target, visible) ==>
                (written == recordLength ==> StaysHidden(old(Snap()), target, patch.scope, visible))
      ensures !foreign && Ready(old(Snap()), old(known), patch, source, target, visible) && old(bound)
              && (Steady(patch) || target in old(known)) && StaysHidden(old(Snap()), target, patch.scope, visible)
              && HookPasses() ==>
                written == recordLength || interruptions > old(interruptions)
      ensures Alone() && Ready(old(Snap()), old(known), patch, source, target, visible) && old(bound)
              && (Steady(patch) || (target in old(known) && StaysHidden(old(Snap()), target, patch.scope, visible)))
              && Whole(patch) && !driftLost ==>
                Undoable(old(Snap()), Snap(), patch, target, effect)
      ensures Alone() && Ready(old(Snap()), old(known), patch, source, target, visible) && old(bound)
              && Whole(patch) ==>
                Reached(old(Snap()), old(known), Snap(), patch, target, effect, visible, driftLost)
      ensures Alone() && Ready(old(Snap()), old(known), patch, source, target, visible) && written == recordLength ==>
                Undoable(old(Snap()), Snap(), patch, target, effect)
    {
      hide OutsideKept, LinkCounts, SoleStates, ExactTree, ScopeMatches, Ready, Capture, Undoable, IsDiff,
           StaysHidden, NoRegular, NoModified, Sighted, Stuck, Loose;
      ghost var s, k := Snap(), known;
      ghost var ready := !foreign && Ready(s, k, patch, source, target, visible);
      done := false;
      var ok: bool;
      ok, effect := Mutate(patch, source, target, before, chains);
      if !ok {
        return;
      }
      ghost var t := Snap();
      var failed := Hook();
      if failed || !bound || parents != chains || Capture(Snap(), patch.scope) != effect.value {
        return;
      }
      if ready {
        OutsideKeptSelf(t, patch.scope);
        ReadyGives(s, k, patch, source, target, visible);
        SettledIsUndoable(s, t, t, k, patch, source, target, visible, effect);
      }
      done := Confirm(patch.scope, source, target);
    }

    /** Recovery of a failed attempt that began in the snapshot s. */
    method Recover(patch: Patch, source: Tree, target: Tree, before: States, effect: Option<States>,
                   ghost s: Snapshot, ghost k: set<Tree>)
      returns (restored: bool, ghost tried: Tried)
      requires LinkCounts(Snap()) && Scenario() && NoDuplicates(patch.scope) && k <= known
      requires LinkCounts(s) && before == Capture(s, patch.scope) && ScopeMatches(s, source, patch.scope)
      requires effect.Some? ==> SoleStates(effect.value, patch.scope)
      modifies `names, `inodes, `index, `known, `disposition, `faults, `interruptions, `driftLost, `drifted
      ensures LinkCounts(Snap()) && Stepped() && old(known) <= known
      ensures tried == Tried(old(Snap()), old(known), effect, interruptions == old(interruptions))
      ensures restored ==> ExactTree(Snap(), source, visible)
      ensures tried.calm && Turns(patch, source, target) ==>
                AllOrNothing(tried.found, tried.known, Snap(), patch.scope, source, target, before, effect, visible)
      ensures OutsideKept(old(Snap()), Snap(), patch.scope)
      ensures tried.calm && Turns(patch, source, target) && bound ==>
                (restored <==> ExactTree(Snap(), source, visible))
      ensures tried.calm && Ready(s, k, patch, source, target, visible) && OutsideKept(s, old(Snap()), patch.scope) ==>
                && (ScopeMatches(Snap(), source, patch.scope) ==> ExactTree(Snap(), source, visible))
                && (ScopeMatches(Snap(), source, patch.scope)
                    <==> Restorable(tried.found, tried.known, patch.scope, source, target, before, effect, visible))
      ensures tried.calm && Ready(s, k, patch, source, target, visible)
              && Undoable(s, old(Snap()), patch, target, effect)
              && Favourable(s, k, patch.scope, source, target, visible) ==>
                && ExactTree(Snap(), source, visible) && ScopeMatches(Snap(), source, patch.scope)
                && OutsideKept(s, Snap(), patch.scope) && (bound ==> restored)
    {
      hide OutsideKept, LinkCounts, SoleStates, ExactTree, ScopeMatches, Ready, Turns, Capture, Undoable, Recovers,
           Favourable, Restorable, AllOrNothing, Replaceable;
      ghost var found, foundKnown, count := Snap(), known, interruptions;
      CaptureIsReplaceable(s, source, patch.scope);
      if Turns(patch, source, target) {
        TurnsBack(patch, source, target);
      }
      if Ready(s, k, patch, source, target, visible) {
        ReadyGives(s, k, patch, source, target, visible);
      }
      restored := RecoverAfterEffect(Reverse(patch), source, target, before, effect);
      tried := Tried(found, foundKnown, effect, interruptions == count);
      if interruptions == count && Turns(patch, source, target) {
        AllOrNothingHere(found, foundKnown, Snap(), patch.scope, source, target, before, effect, visible);
        RecoveryOutcome(s, k, found, foundKnown, Snap(), patch, source, target, visible, effect);
      }
    }

    /** From the exact source state: capture, attempt, and recovery of a failed attempt. */
    method RunFromSource(patch: Patch, source: Tree, target: Tree) returns (o: Outcome, ghost tried: Tried)
      requires LinkCounts(Snap()) && Scenario() && NoDuplicates(patch.scope) && !drifted && !driftLost
      requires written == 0 && !committed && recordLength > 0
      requires bound && ExactTree(Snap(), source, visible) && ScopeMatches(Snap(), source, patch.scope)
               && source in known
      modifies `names, `inodes, `index, `known, `bound, `parents, `disposition, `faults, `interruptions, `driftLost,
               `drifted, `written, `committed, `checked
      ensures LinkCounts(Snap()) && Scenario() && faults <= old(faults) && old(known) <= known
      ensures !o.AlreadyThere? && written <= recordLength && source in tried.known && old(known) <= tried.known
      ensures (o.Success? <==> written == recordLength && !severs) && (o.Success? <==> committed)
      ensures written == recordLength ==> && ExactTree(checked, target, visible)
                                          && ScopeMatches(checked, target, patch.scope)
                                          && IsDiff(patch.scope, source, target)
      ensures o.Success? ==> Snap() == Visited(checked) && disposition == Ignored
      ensures written == recordLength && late.None? ==> bound && parents == old(parents)
      ensures written == recordLength && !foreign ==> OutsideKept(old(Snap()), checked, patch.scope)
      ensures o.Failed? ==> OutsideKept(tried.found, Snap(), patch.scope)
      ensures Alone() ==> OutsideKept(old(Snap()), Snap(), patch.scope)
      ensures o.Failed? && tried.calm && Turns(patch, source, target) && bound ==>
                (o.restored <==> ExactTree(Snap(), source, visible))
      ensures Alone() && target in tried.known && target !in old(known) ==> tried.found.index == target
      ensures o.Failed? && written == recordLength && Alone() && Turns(patch, source, target) ==>
                o.restored && ExactTree(Snap(), source, visible) && ScopeMatches(Snap(), source, patch.scope)
      ensures o.Failed? && o.restored ==> ExactTree(Snap(), source, visible)
      ensures o.Failed? && tried.calm && Turns(patch, source, target) ==>
                AllOrNothing(tried.found, tried.known, Snap(), patch.scope, source, target,
                             Capture(old(Snap()), patch.scope), tried.effect, visible)
      ensures !tried.calm ==> old(Armed())
      ensures Alone() ==> bound == old(bound)
      ensures Alone() && Turns(patch, source, target) && StaysHidden(old(Snap()), target, patch.scope, visible)
              && (Steady(patch) || target in old(known)) ==>
                tried.calm
      ensures o.Failed? && Alone() && Turns(patch, source, target) && Whole(patch)
              && (Steady(patch)
                  || (target in old(known) && StaysHidden(old(Snap()), target, patch.scope, visible) && !driftLost)) ==>
                Undoable(old(Snap()), tried.found, patch, target, tried.effect)
      ensures o.Failed? && Alone() && Turns(patch, source, target) && Whole(patch) ==>
                Reached(old(Snap()), old(known), tried.found, patch, target, tried.effect, visible, driftLost)
      ensures o.Failed? && Alone() && Turns(patch, source, target) && tried.calm ==>
                && (ScopeMatches(Snap(), source, patch.scope) ==> ExactTree(Snap(), source, visible))
                && (ScopeMatches(Snap(), source, patch.scope)
                    <==> Restorable(tried.found, tried.known, patch.scope, source, target,
                                    Capture(old(Snap()), patch.scope), tried.effect, visible))
      ensures !old(Armed()) ==> tried.calm && !driftLost
      ensures o.Failed? && Alone() && Turns(patch, source, target) && Whole(patch) && (Steady(patch) || !driftLost)
              && Favourable(old(Snap()), old(known), patch.scope, source, target, visible)
              && (StaysHidden(old(Snap()), target, patch.scope, visible) || (Steady(patch) && !old(Armed()))) ==>
                && o.restored && ExactTree(Snap(), source, visible) && ScopeMatches(Snap(), source, patch.scope)
                && OutsideKept(old(Snap()), Snap(), patch.scope)
      ensures !foreign && !old(Armed()) && Turns(patch, source, target) && HookPasses()
              && (target in old(known) || Steady(patch)) ==>
                (written == recordLength <==> StaysHidden(old(Snap()), target, patch.scope, visible))
    {
      hide OutsideKept, LinkCounts, SoleStates, ExactTree, ScopeMatches, Ready, Turns, Capture, Undoable,
           AllOrNothing, Recovers, Favourable, IsDiff, StaysHidden, NoRegular, NoModified, Restorable, Sighted, Stuck,
           Loose;
      ghost var s, k := Snap(), known;
      ExactIndex(s, source, visible);
      var before, chains := Capture(Snap(), patch.scope), parents;
      if Favourable(s, k, patch.scope, source, target, visible) {
        FavourableKnows(s, k, patch.scope, source, target, visible);
      }
      if Turns(patch, source, target) {
        ReadyHere(s, k, patch, source, target, visible);
      }
      var done, effect := Attempt(patch, source, target, before, chains);
      tried := Tried(Snap(), known, effect, true);
      o := Success;
      if !done {
        if written == recordLength && Alone() && Turns(patch, source, target) {
          SeveredIsRestorable(patch, source, target, s, effect);
        }
        ghost var t := Snap();
        var restored: bool;
        restored, tried := Recover(patch, source, target, before, effect, s, k);
        OutsideKeptHere(s, t, Snap(), patch.scope);
        o := Failed(restored);
      }
    }

    /** The state behind a complete record is the checked one, and restorable. */
    lemma SeveredIsRestorable(patch: Patch, source: Tree, target: Tree, s: Snapshot, effect: Option<States>)
      requires Turns(patch, source, target) && s.index == source && ScopeMatches(s, source, patch.scope)
      requires LinkCounts(Snap()) && OutsideKept(s, Snap(), patch.scope)
      requires Snap() == checked && ExactTree(checked, target, visible) && ScopeMatches(checked, target, patch.scope)
      requires source in known && effect == Some(Capture(checked, patch.scope))
      ensures Restorable(Snap(), known, patch.scope, source, target, Capture(s, patch.scope), effect, visible)
    {
      ExactIndex(checked, target, visible);
      SettledIsRestorable(s, Snap(), known, patch, source, target, visible, effect);
    }

    /** Establish the exact source state, or recognise the target. */
    method Begin(paths: seq<Path>, source: Tree, target: Tree) returns (ready: bool, o: Outcome)
      requires Scenario()
      modifies `known, `disposition, `faults, `interruptions, `driftLost
      ensures Scenario() && faults <= old(faults) && old(known) <= known <= old(known) + {index}
      ensures drifted || driftLost == old(driftLost)
      ensures ready ==> && bound && ExactTree(Snap(), source, visible) && ScopeMatches(Snap(), source, paths)
                        && source in known && index == source && Armed() == old(Armed())
      ensures !ready ==> o.AlreadyThere? || o == Failed(false)
      ensures !ready && o.AlreadyThere? ==> ExactTree(Snap(), target, visible) && ScopeMatches(Snap(), target, paths)
      ensures !old(Armed()) && bound && ExactTree(Snap(), source, visible) && ScopeMatches(Snap(), source, paths) ==>
                ready
      ensures !old(Armed()) && bound && source != target && ExactTree(Snap(), target, visible)
              && ScopeMatches(Snap(), target, paths) ==>
                !ready && o.AlreadyThere?
    {
      hide ScopeMatches, TrackedClean, NoUntracked;
      var quota := faults;
      ready := CheckState(source, paths);
      o := Failed(false);
      if ready {
        var interrupted := Point();
        ready := !interrupted;
      } else if faults == quota {
        // Only a failed check or a caught signal leads on to the other state.
        var there := CheckState(target, paths);
        o := if there then AlreadyThere else o;
      }
    }

    /** The transaction from source to target: apply with (base, candidate), rollback with
        the reverse patch and (candidate, base). */
    method Transact(patch: Patch, source: Tree, target: Tree) returns (o: Outcome, ghost tried: Option<Tried>)
      requires LinkCounts(Snap()) && Scenario() && NoDuplicates(patch.scope) && !drifted && !driftLost
      requires written == 0 && !committed && recordLength > 0
      modifies `names, `inodes, `index, `known, `bound, `parents, `disposition, `faults, `interruptions, `driftLost,
               `drifted, `written, `committed, `checked
      ensures LinkCounts(Snap()) && Scenario() && faults <= old(faults) && old(known) <= known
      // The success record is complete exactly on success, unless a fault severs the two.
      ensures written <= recordLength
      ensures (o.Success? <==> written == recordLength && !severs) && (o.Success? <==> committed)
      // A complete record means that the state checked last was the exact target tree, with the
      // scope as the whole difference; the final state is what the last hook made of it.
      ensures written == recordLength ==> && ExactTree(checked, target, visible)
                                          && ScopeMatches(checked, target, patch.scope)
                                          && IsDiff(patch.scope, source, target) && source in known
      ensures o.Success? ==> Snap() == Visited(checked) && disposition == Ignored
      ensures written == recordLength && late.None? ==> bound && parents == old(parents)
      ensures written == recordLength && !foreign ==> OutsideKept(old(Snap()), checked, patch.scope)
      // Behind a complete record that was severed from success, the source is restored.
      ensures o.Failed? && written == recordLength && Alone() && Turns(patch, source, target) ==>
                o.restored && ExactTree(Snap(), source, visible) && ScopeMatches(Snap(), source, patch.scope)
      // Nothing outside the scope changes, whatever else happens.
      ensures Alone() ==> OutsideKept(old(Snap()), Snap(), patch.scope)
      ensures o.Failed? && tried.Some? ==> OutsideKept(tried.value.found, Snap(), patch.scope)
      // A reported restoration is a real one.
      ensures o.Failed? && o.restored ==> ExactTree(Snap(), source, visible)
      ensures o.AlreadyThere? ==> && Snap() == old(Snap()) && tried.None?
                                  && ExactTree(Snap(), target, visible) && ScopeMatches(Snap(), target, patch.scope)
      ensures o.Failed? && tried.None? ==> Snap() == old(Snap())
      ensures tried.Some? ==> && ExactTree(old(Snap()), source, visible)
                              && ScopeMatches(old(Snap()), source, patch.scope)
                              && source in tried.value.known && old(known) <= tried.value.known
      ensures !old(Armed()) && old(bound)
              && Ready(old(Snap()), old(known) + {old(index)}, patch, source, target, visible) ==>
                tried.Some?
      ensures Alone() ==> bound == old(bound)
      // Recovery is all or nothing on the state it found, unless interrupted itself.
      ensures o.Failed? && tried.Some? && tried.value.calm && Turns(patch, source, target) ==>
                AllOrNothing(tried.value.found, tried.value.known, Snap(), patch.scope, source, target,
                             Capture(old(Snap()), patch.scope), tried.value.effect, visible)
      ensures o.Failed? && tried.Some? && !tried.value.calm ==> old(Armed())
      // The report is right, and without interference the source is back if and only if the state
      // that recovery found was restorable, in a fresh clone too.
      ensures o.Failed? && tried.Some? && tried.value.calm && Turns(patch, source, target) && bound ==>
                (o.restored <==> ExactTree(Snap(), source, visible))
      ensures o.Failed? && tried.Some? && tried.value.calm && Alone() && Turns(patch, source, target) ==>
                && (ScopeMatches(Snap(), source, patch.scope) ==> ExactTree(Snap(), source, visible))
                && (ScopeMatches(Snap(), source, patch.scope)
                    <==> Restorable(tried.value.found, tried.value.known, patch.scope, source, target,
                                    Capture(old(Snap()), patch.scope), tried.value.effect, visible))
      // That state is a partial effect, or one of the states a mode drift can lead to.
      ensures o.Failed? && tried.Some? && Alone() && Turns(patch, source, target) && Whole(patch) ==>
                Reached(old(Snap()), old(known), tried.value.found, patch, target, tried.value.effect, visible,
                        driftLost)
      ensures o.Failed? && tried.Some? && Alone() && Turns(patch, source, target) && Whole(patch)
              && (Steady(patch)
                  || (target in old(known) && StaysHidden(old(Snap()), target, patch.scope, visible) && !driftLost)) ==>
                Undoable(old(Snap()), tried.value.found, patch, target, tried.value.effect)
      ensures Alone() && tried.Some? && target !in old(known) + {old(index)} && target in tried.value.known ==>
                tried.value.found.index == target
      ensures tried.Some? && !old(Armed()) ==> tried.value.calm && !driftLost
      // Under favourable conditions, which a caller can check, it always is, and so reported.
      ensures o.Failed? && tried.Some? && Alone() && Turns(patch, source, target) && Whole(patch)
              && (Steady(patch) || !driftLost)
              && Favourable(old(Snap()), old(known), patch.scope, source, target, visible)
              && (StaysHidden(old(Snap()), target, patch.scope, visible) || (Steady(patch) && !old(Armed()))) ==>
                && o.restored && ExactTree(Snap(), source, visible) && ScopeMatches(Snap(), source, patch.scope)
                && OutsideKept(old(Snap()), Snap(), patch.scope)
      // Without interference and interruption it succeeds if and only if nothing untracked
      // comes into sight under the target's ignore rules.
      ensures !foreign && !old(Armed()) && old(bound) && HookPasses()
              && Ready(old(Snap()), old(known) + {old(index)}, patch, source, target, visible)
              && (target in old(known) || Steady(patch)) ==>
                (written == recordLength <==> StaysHidden(old(Snap()), target, patch.scope, visible))
      ensures Alone() && !old(Armed()) && old(bound) && source != target
              && ExactTree(old(Snap()), target, visible) && ScopeMatches(old(Snap()), target, patch.scope) ==>
                o.AlreadyThere?
    {
      hide OutsideKept, LinkCounts, ExactTree, ScopeMatches, Capture, AllOrNothing, IsDiff, Marked, Ready, Reached,
           Favourable, StaysHidden, NoRegular, NoModified, Restorable, Undoable, Turns;
      ghost var s, k := Snap(), known;
      OutsideKeptSelf(s, patch.scope);
      if Ready(s, known + {index}, patch, source, target, visible) {
        ReadyGives(s, known + {index}, patch, source, target, visible);
      }
      var ready;
      ready, o := Begin(patch.scope, source, target);
      tried := None;
      if ready {
        ghost var begun := known;
        if Favourable(s, k, patch.scope, source, target, visible) {
          FavourableGrows(s, k, begun, patch.scope, source, target, visible);
        }
        ghost var t: Tried;
        o, t := RunFromSource(patch, source, target);
        tried := Some(t);
        if Reached(s, begun, t.found, patch, target, t.effect, visible, driftLost) {
          ReachedGrows(s, k, begun, t.found, patch, target, t.effect, visible, driftLost);
        }
      }
    }

    /** One process: the guard installs its handlers, and puts the original ones back on
        exit unless the success record is out. */
    method Guarded(patch: Patch, source: Tree, target: Tree) returns (o: Outcome, ghost tried: Option<Tried>)
      requires LinkCounts(Snap()) && Scenario() && NoDuplicates(patch.scope) && recordLength > 0
      modifies this
      ensures LinkCounts(Snap()) && Scenario() && faults <= old(faults) && old(known) <= known
      ensures written <= recordLength
      ensures (o.Success? <==> written == recordLength && !severs) && (o.Success? <==> committed)
      ensures disposition == if o.Success? then Ignored else old(disposition)
      ensures written == recordLength ==> && ExactTree(checked, target, visible)
                                          && ScopeMatches(checked, target, patch.scope)
                                          && IsDiff(patch.scope, source, target) && source in known
      ensures o.Success? ==> Snap() == Visited(checked)
      ensures written == recordLength && late.None? ==> bound && parents == old(parents)
      ensures written == recordLength && !foreign ==> OutsideKept(old(Snap()), checked, patch.scope)
      ensures o.Failed? && written == recordLength && Alone() && Turns(patch, source, target) ==>
                o.restored && ExactTree(Snap(), source, visible) && ScopeMatches(Snap(), source, patch.scope)
      ensures Alone() ==> OutsideKept(old(Snap()), Snap(), patch.scope)
      ensures o.Failed? && tried.Some? ==> OutsideKept(tried.value.found, Snap(), patch.scope)
      ensures o.Failed? && tried.Some? && tried.value.calm && Turns(patch, source, target) && bound ==>
                (o.restored <==> ExactTree(Snap(), source, visible))
      ensures o.Failed? && tried.Some? && tried.value.calm && Turns(patch, source, target) ==>
                AllOrNothing(tried.value.found, tried.value.known, Snap(), patch.scope, source, target,
                             Capture(old(Snap()), patch.scope), tried.value.effect, visible)
      ensures o.Failed? && tried.Some? && tried.value.calm && Alone() && Turns(patch, source, target) ==>
                && (ScopeMatches(Snap(), source, patch.scope) ==> ExactTree(Snap(), source, visible))
                && (ScopeMatches(Snap(), source, patch.scope)
                    <==> Restorable(tried.value.found, tried.value.known, patch.scope, source, target,
                                    Capture(old(Snap()), patch.scope), tried.value.effect, visible))
      ensures o.Failed? && tried.Some? && Alone() && Turns(patch, source, target) && Whole(patch) ==>
                Reached(old(Snap()), old(known), tried.value.found, patch, target, tried.value.effect, visible,
                        driftLost)
      ensures Alone() && tried.Some? && target !in old(known) + {old(index)} && target in tried.value.known ==>
                tried.value.found.index == target
      ensures tried.Some? && !signals && old(faults) == 0 ==> tried.value.calm && !driftLost
      ensures o.Failed? && o.restored ==> ExactTree(Snap(), source, visible)
      ensures o.AlreadyThere? || (o.Failed? && tried.None?) ==> Snap() == old(Snap())
      ensures tried.Some? ==> && !o.AlreadyThere? && ExactTree(old(Snap()), source, visible)
                              && ScopeMatches(old(Snap()), source, patch.scope)
                              && source in tried.value.known && old(known) <= tried.value.known
      ensures !signals && old(faults) == 0 && old(bound)
              && Ready(old(Snap()), old(known) + {old(index)}, patch, source, target, visible) ==>
                tried.Some?
      ensures o.AlreadyThere? ==> ExactTree(Snap(), target, visible) && ScopeMatches(Snap(), target, patch.scope)
      ensures o.Failed? && tried.Some? && Alone() && Turns(patch, source, target) && Whole(patch)
              && (Steady(patch) || !driftLost)
              && Favourable(old(Snap()), old(known), patch.scope, source, target, visible)
              && (StaysHidden(old(Snap()), target, patch.scope, visible)
                  || (Steady(patch) && !signals && old(faults) == 0)) ==>
                && o.restored && ExactTree(Snap(), source, visible) && ScopeMatches(Snap(), source, patch.scope)
                && OutsideKept(old(Snap()), Snap(), patch.scope)
      ensures Alone() ==> bound == old(bound)
      ensures !foreign && !signals && old(faults) == 0 && old(bound) && HookPasses()
              && Ready(old(Snap()), old(known) + {old(index)}, patch, source, target, visible)
              && (target in old(known) || Steady(patch)) ==>
                (written == recordLength <==> StaysHidden(old(Snap()), target, patch.scope, visible))
      ensures Alone() && !signals && old(faults) == 0 && old(bound) && source != target
              && ExactTree(old(Snap()), target, visible) && ScopeMatches(old(Snap()), target, patch.scope) ==>
                o.AlreadyThere?
    {
      hide OutsideKept, LinkCounts, ExactTree, ScopeMatches, Ready, Turns, Favourable, AllOrNothing, IsDiff,
           StaysHidden, NoRegular, NoModified, Restorable, Undoable, Sighted, Stuck, Loose, Reached, Capture;
      var previous := disposition;
      written, committed, disposition := 0, false, Handler;
      drifted, driftLost := false, false;
      o, tried := Transact(patch, source, target);
      if !committed {
        disposition := previous;
      }
    }

    /** Apply and then roll back, undisturbed, with nothing untracked coming into sight: the
        repository is as it was, and repeating either action in its end state changes nothing. */
    method ApplyThenRollback(patch: Patch, base: Tree, candidate: Tree)
      returns (applied: Outcome, again: Outcome, undone: Outcome, undoneAgain: Outcome)
      requires LinkCounts(Snap()) && Scenario() && NoDuplicates(patch.scope) && recordLength > 0 && bound
      requires Alone() && !signals && faults == 0 && !severs && base != candidate
      requires Ready(Snap(), known + {index}, patch, base, candidate, visible) && (candidate in known || Steady(patch))
      modifies this
      ensures applied.Success? <==> StaysHidden(old(Snap()), candidate, patch.scope, visible)
      ensures applied.Success? ==> again.AlreadyThere? && undone.Success? && undoneAgain.AlreadyThere?
      ensures applied.Success? ==> index == old(index) && OutsideKept(old(Snap()), Snap(), patch.scope)
      ensures applied.Success? ==>
                forall p | p in patch.scope :: SameFile(StateOf(old(Snap()), p), StateOf(Snap(), p))
    {
      hide OutsideKept, LinkCounts, ExactTree, Turns, StaysHidden, NoRegular, StateMatches, Ready;
      ghost var s := Snap();
      ghost var tried;
      ReadyGives(s, known + {index}, patch, base, candidate, visible);
      applied, tried := Guarded(patch, base, candidate);
      again, undone, undoneAgain := applied, applied, applied;
      if applied != Success {
        return;
      }
      ghost var t := Snap();
      again, tried := Guarded(patch, base, candidate);
      assert Snap() == t;
      TurnsBack(patch, base, candidate);
      BackStaysHidden(s, t, base, patch.scope, visible);
      ExactIndex(t, candidate, visible);
      ReadyHere(t, known + {index}, Reverse(patch), candidate, base, visible);
      undone, tried := Guarded(Reverse(patch), candidate, base);
      undoneAgain, tried := Guarded(Reverse(patch), candidate, base);
      OutsideKeptTransitive(s, t, Snap(), patch.scope);
      ExactIndex(Snap(), base, visible);
      forall p | p in patch.scope
        ensures SameFile(StateOf(s, p), StateOf(Snap(), p))
      {
        SameEntrySameFile(StateOf(s, p), StateOf(Snap(), p), EntryOf(base, p));
      }
    }

    /** Nothing is checked after the last hook: a process that resets the index there gets a
        complete success record over a tree that is not the target. */
    method StatusEditIsPublished(patch: Patch, base: Tree, candidate: Tree) returns (o: Outcome)
      requires LinkCounts(Snap()) && Scenario() && NoDuplicates(patch.scope) && recordLength > 0 && bound
      requires !foreign && !signals && faults == 0 && !severs && base != candidate
      requires Ready(Snap(), known + {index}, patch, base, candidate, visible) && (candidate in known || Steady(patch))
      requires StaysHidden(Snap(), candidate, patch.scope, visible)
      requires late.Some? && !late.value.fails && forall s :: late.value.edit(s) == s.(index := base)
      modifies this
      ensures o.Success? && written == recordLength
      ensures ExactTree(checked, candidate, visible) && !ExactTree(Snap(), candidate, visible) && index == base
    {
      hide OutsideKept, StaysHidden, NoRegular, Turns, ScopeMatches;
      ghost var tried;
      o, tried := Guarded(patch, base, candidate);
    }

    /** The published tree is the target if and only if the last hook left it so. */
    lemma PublishedIsTarget(paths: seq<Path>, target: Tree)
      requires Snap() == Visited(checked) && ExactTree(checked, target, visible) && ScopeMatches(checked, target, paths)
      ensures late.None? ==> ExactTree(Snap(), target, visible) && ScopeMatches(Snap(), target, paths)
      ensures late.Some? ==>
                (ExactTree(Snap(), target, visible) <==>
                   LinkCounts(late.value.edit(checked)) ==> ExactTree(late.value.edit(checked), target, visible))
    {
    }
  }
}
