/** When recovery may act on a patch scope, and which final states it can reach. */
module PatchRecovery {
  import opened WorkTree

  /** The authenticated patch bytes, read as a scope with its pre- and post-image. */
  datatype Patch = Patch(scope: seq<Path>, pre: Tree, post: Tree)

  type States = map<Path, PathState>

  function Reverse(patch: Patch): Patch {
    Patch(patch.scope, patch.post, patch.pre)
  }

  predicate AgreesOn(paths: seq<Path>, a: Tree, b: Tree) {
    forall p | p in paths :: EntryOf(a, p) == EntryOf(b, p)
  }

  /** The patch is the one the package was built for: it turns source into target. */
  predicate Turns(patch: Patch, source: Tree, target: Tree) {
    && AgreesOn(patch.scope, patch.pre, source)
    && AgreesOn(patch.scope, patch.post, target)
    && IsDiff(patch.scope, source, target)
  }

  // ----- the ownership guard -----

  predicate WorktreeOwned(s: Snapshot, p: Path, desired: Tree, alternate: Tree,
                          before: Option<States>, effect: Option<States>)
  {
    var c := StateOf(s, p);
    if effect.Some? then
      p in effect.value && (c == effect.value[p] || OwnedWithAddedLinks(c, effect.value[p]))
    else
      || (before.Some? && p in before.value && c == before.value[p])
      || StateMatches(c, EntryOf(alternate, p))
      || StateMatches(c, EntryOf(desired, p))
  }

  /** The same blob with the other one of the two regular modes. */
  predicate ModeDrift(e: Option<Entry>, f: Option<Entry>) {
    e.Some? && f.Some? && e.value.blob == f.value.blob && e.value.mode != Link && f.value.mode != Link
  }

  /** On the scope the index is the given image, up to mode drift. */
  predicate IndexDrifts(index: Tree, image: Tree, paths: seq<Path>) {
    forall p | p in paths :: EntryOf(index, p) == EntryOf(image, p) || ModeDrift(EntryOf(index, p), EntryOf(image, p))
  }

  predicate IndexOwned(s: Snapshot, p: Path, desired: Tree, alternate: Tree, allowDrift: bool) {
    var e := EntryOf(s.index, p);
    || e == EntryOf(desired, p)
    || e == EntryOf(alternate, p)
    || (allowDrift && ModeDrift(e, EntryOf(desired, p)))
  }

  /** Both trees must be readable objects, and every scope path must be owned. */
  predicate Guard(s: Snapshot, known: set<Tree>, paths: seq<Path>, desired: Tree, alternate: Tree,
                  before: Option<States>, effect: Option<States>, allowDrift: bool)
  {
    && desired in known
    && alternate in known
    && forall p | p in paths ::
         WorktreeOwned(s, p, desired, alternate, before, effect) && IndexOwned(s, p, desired, alternate, allowDrift)
  }

  // ----- the words that stop a recovery -----

  predicate OccursAt(text: string, word: string, i: int) {
    0 <= i <= |text| - |word| && text[i..i + |word|] == word
  }

  predicate Contains(text: string, word: string) {
    exists i | 0 <= i <= |text| :: OccursAt(text, word, i)
  }

  /** Git quotes a rejected path in its message, and recovery looks for these two words there. */
  predicate Marked(p: Path) {
    Contains(p, "unrelated") || Contains(p, "foreign")
  }

  predicate PreimageHolds(s: Snapshot, image: Tree, p: Path) {
    EntryOf(s.index, p) == EntryOf(image, p) && GitMatches(StateOf(s, p), EntryOf(image, p))
  }

  predicate PreimageRejected(s: Snapshot, image: Tree, paths: seq<Path>) {
    exists p | p in paths :: !PreimageHolds(s, image, p)
  }

  predicate RejectionMarked(s: Snapshot, image: Tree, paths: seq<Path>) {
    exists p | p in paths :: !PreimageHolds(s, image, p) && Marked(p)
  }

  /** Recovery acts: the guard accepts, and no marked path is quoted by a rejected inverse. */
  predicate Recovers(s: Snapshot, known: set<Tree>, paths: seq<Path>, desired: Tree, alternate: Tree,
                     before: Option<States>, effect: Option<States>)
  {
    && Guard(s, known + {s.index}, paths, desired, alternate, before, effect, true)
    && !(s.index == alternate && RejectionMarked(s, alternate, paths))
  }

  lemma RecoversMeans(s: Snapshot, known: set<Tree>, paths: seq<Path>, desired: Tree, alternate: Tree,
                      before: Option<States>, effect: Option<States>)
    ensures Recovers(s, known, paths, desired, alternate, before, effect) <==>
              && Guard(s, known + {s.index}, paths, desired, alternate, before, effect, true)
              && !(s.index == alternate && RejectionMarked(s, alternate, paths))
  {
  }

  // ----- states reached by a stopped or finished git apply -----

  predicate Soles(s: Snapshot, paths: seq<Path>) {
    forall p | p in paths :: Replaceable(StateOf(s, p))
  }

  predicate PartialAt(s: Snapshot, t: Snapshot, post: Tree, p: Path) {
    && (StateOf(t, p) == StateOf(s, p) || StateMatches(StateOf(t, p), EntryOf(post, p)))
    && (EntryOf(t.index, p) == EntryOf(s.index, p) || EntryOf(t.index, p) == EntryOf(post, p))
  }

  /** Any subset of the scope's index entries and worktree names already carries the post-image. */
  ghost predicate PartialEffect(s: Snapshot, t: Snapshot, post: Tree, paths: seq<Path>) {
    && LinkCounts(t)
    && OutsideKept(s, t, paths)
    && forall p | p in paths :: PartialAt(s, t, post, p)
  }

  /** Captured single-link states of distinct inodes: overwriting them touches no other name. */
  predicate SoleStates(states: States, paths: seq<Path>) {
    && (forall p | p in paths :: p in states && Replaceable(states[p]))
    && (forall p, q | p in paths && q in paths && p != q ::
          states[p].Present? && states[q].Present? ==> states[p].ino != states[q].ino)
  }

  lemma SolesAt(s: Snapshot, paths: seq<Path>, k: nat)
    requires k < |paths| && Soles(s, paths)
    ensures Replaceable(StateOf(s, paths[k]))
    ensures StateOf(s, paths[k]).Present? ==> IsLeaf(StateOf(s, paths[k]).kind)
  {
  }

  lemma CaptureIsSole(s: Snapshot, paths: seq<Path>)
    requires LinkCounts(s) && Soles(s, paths)
    ensures SoleStates(Capture(s, paths), paths)
  {
    forall p, q | p in paths && q in paths && p != q && StateOf(s, p).Present? && StateOf(s, q).Present?
      ensures StateOf(s, p).ino != StateOf(s, q).ino
    {
      if s.names[p] == s.names[q] {
        SoleName(s, p, q);
      }
    }
  }

  // ----- progress of the loops over a scope: s at the start, t after k paths -----

  ghost predicate Stopped(s: Snapshot, t: Snapshot, post: Tree, paths: seq<Path>, k: nat)
    requires k <= |paths|
  {
    && LinkCounts(t) && OutsideKept(s, t, paths) && Leaves(t, paths)
    && (Soles(s, paths) ==>
          && Soles(t, paths)
          && (forall p | p in paths[..k] :: PartialAt(s, t, post, p))
          && (forall p | p in paths[k..] ::
            StateOf(t, p) == StateOf(s, p) && EntryOf(t.index, p) == EntryOf(s.index, p)))
  }

  lemma StoppedStart(s: Snapshot, post: Tree, paths: seq<Path>)
    requires LinkCounts(s) && Leaves(s, paths)
    ensures Stopped(s, s, post, paths, 0)
  {
  }

  lemma SplitAt(paths: seq<Path>, k: nat)
    requires k < |paths| && NoDuplicates(paths)
    ensures forall p :: p in paths[..k + 1] <==> p in paths[..k] || p == paths[k]
    ensures forall p :: p in paths[k..] <==> p in paths[k + 1..] || p == paths[k]
    ensures paths[k] !in paths[..k] && paths[k] !in paths[k + 1..] && paths[k] in paths[k..] && paths[k] in paths
    ensures forall p | p in paths[..k] || p in paths[k + 1..] :: p in paths
  {
    assert paths[..k + 1] == paths[..k] + [paths[k]];
    assert paths[k..] == [paths[k]] + paths[k + 1..];
    forall p | p in paths[..k] || p in paths[k + 1..]
      ensures p in paths
    {
      assert paths == paths[..k] + paths[k..];
    }
  }

  lemma StoppedStep(s: Snapshot, t: Snapshot, u: Snapshot, post: Tree, paths: seq<Path>, k: nat)
    requires NoDuplicates(paths) && k < |paths| && LinkCounts(s) && Stopped(s, t, post, paths, k)
    requires LinkCounts(u) && TouchesOnly(t, u, paths[k])
    requires PartialAt(t, u, post, paths[k])
    ensures Stopped(s, u, post, paths, k + 1)
  {
    hide OutsideKept, TouchesOnly, LinkCounts;
    SplitAt(paths, k);
    ScopeStep(s, t, u, paths[k], paths);
    LeavesStay(t, u, paths[k], paths);
    if Soles(s, paths) {
      assert PartialAt(s, u, post, paths[k]);
      assert Soles(u, paths);
      forall p | p in paths[..k]
        ensures PartialAt(s, u, post, p)
      {
        assert PartialAt(s, t, post, p) && StateOf(u, p) == StateOf(t, p);
      }
    }
  }

  lemma LeafAt(s: Snapshot, paths: seq<Path>, k: nat)
    requires k < |paths| && Leaves(s, paths)
    ensures StateOf(s, paths[k]).Present? ==> IsLeaf(StateOf(s, paths[k]).kind)
  {
  }

  /** The facts that a stopped git apply keeps even when it is torn. */
  lemma StoppedFrame(s: Snapshot, t: Snapshot, u: Snapshot, paths: seq<Path>, k: nat)
    requires k < |paths| && NoDuplicates(paths) && LinkCounts(s) && LinkCounts(t) && OutsideKept(s, t, paths)
             && Leaves(t, paths)
    requires LinkCounts(u) && TouchesOnly(t, u, paths[k])
    requires StateOf(u, paths[k]).Present? ==> IsLeaf(StateOf(u, paths[k]).kind)
    requires forall p | p in paths[k..] :: p in t.names ==> p in s.names
    ensures OutsideKept(s, u, paths) && Leaves(u, paths)
    ensures forall p | p in paths[k + 1..] :: p in u.names ==> p in s.names
  {
    SplitAt(paths, k);
    ScopeStep(s, t, u, paths[k], paths);
    LeavesStay(t, u, paths[k], paths);
    hide OutsideKept, LinkCounts, Leaves;
    forall p | p in paths[k + 1..]
      ensures p in u.names ==> p in s.names
    {
      assert SameObject(t, u, p);
    }
  }

  lemma StoppedEnd(s: Snapshot, t: Snapshot, post: Tree, paths: seq<Path>)
    ensures Stopped(s, t, post, paths, |paths|) && Soles(s, paths) ==> PartialEffect(s, t, post, paths)
  {
    assert paths[..|paths|] == paths;
  }

  lemma FinishedEnd(s: Snapshot, t: Snapshot, post: Tree, paths: seq<Path>, drifts: bool)
    requires Finished(s, t, post, paths, |paths|, drifts)
    ensures FinishedEffect(s, t, post, paths)
    ensures !drifts || NoRegular(post, paths) ==> ScopeMatches(t, post, paths)
  {
    assert paths[..|paths|] == paths;
    if NoRegular(post, paths) {
      NothingDrifts(t, post, paths);
    }
  }

  lemma FinishedGives(s: Snapshot, t: Snapshot, post: Tree, paths: seq<Path>)
    requires FinishedEffect(s, t, post, paths)
    ensures LinkCounts(t) && OutsideKept(s, t, paths) && IndexDrifts(t.index, post, paths) && Soles(t, paths)
  {
    DriftsAreSoles(t, post, paths);
  }

  /** An accepted pre-image names no directory, and exactly its own paths exist. */
  lemma PreimageIsLeaf(s: Snapshot, pre: Tree, paths: seq<Path>)
    requires LinkCounts(s) && !PreimageRejected(s, pre, paths)
    ensures Leaves(s, paths)
    ensures forall p | p in paths :: p in s.names <==> p in pre
  {
    forall p | p in paths
      ensures StateOf(s, p).Present? ==> IsLeaf(StateOf(s, p).kind)
      ensures p in s.names <==> p in pre
    {
      assert PreimageHolds(s, pre, p);
    }
  }

  /** The entry with the other one of the two regular modes. */
  function Flip(e: Option<Entry>): Option<Entry> {
    if e.None? || e.value.mode == Link then e
    else Some(e.value.(mode := if e.value.mode == Plain then Executable else Plain))
  }

  predicate WorktreeDrifts(s: Snapshot, image: Tree, paths: seq<Path>) {
    forall p | p in paths ::
      StateMatches(StateOf(s, p), EntryOf(image, p)) || StateMatches(StateOf(s, p), Flip(EntryOf(image, p)))
  }

  /** A finished git apply: every scope path carries the post-image, up to mode drift. */
  ghost predicate FinishedEffect(s: Snapshot, t: Snapshot, post: Tree, paths: seq<Path>) {
    && LinkCounts(t) && OutsideKept(s, t, paths)
    && IndexDrifts(t.index, post, paths) && WorktreeDrifts(t, post, paths)
  }

  /** No path of the image is a regular file, so nothing can drift. */
  predicate NoRegular(image: Tree, paths: seq<Path>) {
    forall p | p in paths && p in image :: image[p].mode == Link
  }

  /** Every path is added or deleted, so no name is unlinked to be created again. */
  predicate NoModified(pre: Tree, post: Tree, paths: seq<Path>) {
    forall p | p in paths :: p !in pre || p !in post
  }

  lemma NothingDrifts(s: Snapshot, image: Tree, paths: seq<Path>)
    requires IndexDrifts(s.index, image, paths) && WorktreeDrifts(s, image, paths) && NoRegular(image, paths)
    ensures ScopeMatches(s, image, paths)
  {
  }

  ghost predicate Finished(s: Snapshot, t: Snapshot, post: Tree, paths: seq<Path>, k: nat, drifts: bool)
    requires k <= |paths|
  {
    && LinkCounts(t) && OutsideKept(s, t, paths) && Leaves(t, paths)
    && WorktreeDrifts(t, post, paths[..k]) && IndexDrifts(t.index, post, paths[..k])
    && (!drifts ==> ScopeMatches(t, post, paths[..k]))
  }

  lemma DriftsAreSoles(s: Snapshot, image: Tree, paths: seq<Path>)
    requires WorktreeDrifts(s, image, paths)
    ensures Soles(s, paths)
  {
  }

  lemma FinishedStep(s: Snapshot, t: Snapshot, u: Snapshot, post: Tree, paths: seq<Path>, k: nat, drifts: bool,
                     e: Option<Entry>)
    requires NoDuplicates(paths) && k < |paths| && LinkCounts(s) && Finished(s, t, post, paths, k, drifts)
    requires LinkCounts(u) && TouchesOnly(t, u, paths[k])
    requires StateMatches(StateOf(u, paths[k]), e)
             && (e == EntryOf(post, paths[k]) || e == Flip(EntryOf(post, paths[k])))
    requires || EntryOf(u.index, paths[k]) == EntryOf(post, paths[k])
             || ModeDrift(EntryOf(u.index, paths[k]), EntryOf(post, paths[k]))
    requires !drifts ==> e == EntryOf(post, paths[k]) && EntryOf(u.index, paths[k]) == e
    ensures Finished(s, u, post, paths, k + 1, drifts)
  {
    hide OutsideKept, TouchesOnly, LinkCounts;
    SplitAt(paths, k);
    ScopeStep(s, t, u, paths[k], paths);
    LeavesStay(t, u, paths[k], paths);
    DriftsAreSoles(t, post, paths[..k]);
  }

  ghost predicate Detached(s: Snapshot, t: Snapshot, paths: seq<Path>, k: nat)
    requires k <= |paths|
  {
    && LinkCounts(t) && OutsideKept(s, t, paths) && Soles(t, paths[..k])
    && (forall p | p in paths[k..] :: StateOf(t, p) == StateOf(s, p))
  }

  lemma DetachedEnds(s: Snapshot, t: Snapshot, paths: seq<Path>, k: nat)
    requires k <= |paths|
    ensures LinkCounts(s) ==> Detached(s, s, paths, 0)
    ensures Detached(s, t, paths, k) ==> LinkCounts(t) && OutsideKept(s, t, paths)
    ensures Detached(s, t, paths, k) ==> forall p | p in paths[k..] :: StateOf(t, p) == StateOf(s, p)
    ensures Detached(s, t, paths, |paths|) ==> Soles(t, paths)
  {
    assert paths[..|paths|] == paths;
  }

  lemma DetachStep(s: Snapshot, t: Snapshot, paths: seq<Path>, k: nat, effect: States)
    requires NoDuplicates(paths) && k < |paths| && LinkCounts(s) && Detached(s, t, paths, k)
             && SoleStates(effect, paths)
    requires OwnedEffect(s, paths, effect)
    requires OwnedWithAddedLinks(StateOf(t, paths[k]), effect[paths[k]])
    ensures t.inodes[t.names[paths[k]]].nlink >= 1
    ensures Detached(s, Unlinked(t, paths[k]), paths, k + 1)
  {
    var p := paths[k];
    SplitAt(paths, k);
    UnlinkKeeps(t, p);
    ScopeStep(s, t, Unlinked(t, p), p, paths);
    forall q | q in paths[k + 1..]
      ensures StateOf(Unlinked(t, p), q) == StateOf(s, q)
    {
      assert StateOf(s, q) == effect[q] || OwnedWithAddedLinks(StateOf(s, q), effect[q]);
    }
  }

  lemma DetachSkip(s: Snapshot, t: Snapshot, paths: seq<Path>, k: nat, effect: States)
    requires NoDuplicates(paths) && k < |paths| && Detached(s, t, paths, k) && SoleStates(effect, paths)
    requires StateOf(s, paths[k]) == effect[paths[k]] || OwnedWithAddedLinks(StateOf(s, paths[k]), effect[paths[k]])
    requires !OwnedWithAddedLinks(StateOf(t, paths[k]), effect[paths[k]])
    ensures Detached(s, t, paths, k + 1)
  {
    SplitAt(paths, k);
  }

  ghost predicate Settled(s: Snapshot, t: Snapshot, desired: Tree, paths: seq<Path>, k: nat, holding: bool)
    requires k <= |paths|
  {
    && LinkCounts(t) && OutsideKept(s, t, paths) && Soles(t, paths)
    && (forall p | p in paths[..k] && (p in desired) == holding ::
          EntryOf(t.index, p) == EntryOf(desired, p) && StateMatches(StateOf(t, p), EntryOf(desired, p)))
    && (forall p | p in paths && (p in paths[k..] || (p in desired) != holding) ::
          EntryOf(t.index, p) == EntryOf(s.index, p) && StateOf(t, p) == StateOf(s, p))
  }

  lemma SettledEnds(s: Snapshot, t: Snapshot, desired: Tree, paths: seq<Path>, k: nat, holding: bool)
    requires k <= |paths|
    ensures LinkCounts(s) && Soles(s, paths) ==> Settled(s, s, desired, paths, 0, holding)
    ensures Settled(s, t, desired, paths, k, holding) ==> LinkCounts(t) && OutsideKept(s, t, paths) && Soles(t, paths)
  {
  }

  lemma SettleSkip(s: Snapshot, t: Snapshot, desired: Tree, paths: seq<Path>, k: nat, holding: bool)
    requires NoDuplicates(paths) && k < |paths| && Settled(s, t, desired, paths, k, holding)
    requires (paths[k] in desired) != holding
    ensures Settled(s, t, desired, paths, k + 1, holding)
  {
    SplitAt(paths, k);
  }

  lemma SettleStep(s: Snapshot, t: Snapshot, u: Snapshot, desired: Tree, paths: seq<Path>, k: nat, holding: bool)
    requires NoDuplicates(paths) && k < |paths| && LinkCounts(s) && Settled(s, t, desired, paths, k, holding)
    requires LinkCounts(u) && TouchesOnly(t, u, paths[k]) && (paths[k] in desired) == holding
    requires EntryOf(u.index, paths[k]) == EntryOf(desired, paths[k])
    requires StateMatches(StateOf(u, paths[k]), EntryOf(desired, paths[k]))
    ensures Settled(s, u, desired, paths, k + 1, holding)
  {
    hide OutsideKept, TouchesOnly, LinkCounts;
    SplitAt(paths, k);
    ScopeStep(s, t, u, paths[k], paths);
  }

  /** At every step, and in the middle of one, the loop has a partial effect. */
  lemma SettledIsPartial(s: Snapshot, t: Snapshot, desired: Tree, paths: seq<Path>, k: nat, holding: bool)
    requires k <= |paths| && Settled(s, t, desired, paths, k, holding)
    ensures PartialEffect(s, t, desired, paths)
  {
    assert paths == paths[..k] + paths[k..];
  }

  lemma SettlingIsPartial(s: Snapshot, t: Snapshot, u: Snapshot, desired: Tree, paths: seq<Path>, p: Path)
    requires LinkCounts(s) && PartialEffect(s, t, desired, paths) && Soles(t, paths) && p in paths
    requires LinkCounts(u) && TouchesOnly(t, u, p) && u.index == t.index
    requires StateMatches(StateOf(u, p), EntryOf(desired, p))
    ensures PartialEffect(s, u, desired, paths)
  {
    ScopeStep(s, t, u, p, paths);
    hide TouchesOnly, LinkCounts, OutsideKept, StateMatches;
    forall q | q in paths
      ensures PartialAt(s, u, desired, q)
    {
      assert PartialAt(s, t, desired, q);
    }
  }

  /** Writing the held paths and then removing the others restores the whole scope. */
  lemma SettledTwice(s: Snapshot, t: Snapshot, u: Snapshot, desired: Tree, paths: seq<Path>)
    requires LinkCounts(s) && Settled(s, t, desired, paths, |paths|, true)
             && Settled(t, u, desired, paths, |paths|, false)
    ensures LinkCounts(u) && OutsideKept(s, u, paths) && ScopeMatches(u, desired, paths)
  {
    assert paths[..|paths|] == paths;
    OutsideKeptTransitive(s, t, u, paths);
  }

  // ----- what the guard means for recovery -----

  predicate OwnedEffect(s: Snapshot, paths: seq<Path>, effect: States) {
    forall p | p in paths ::
      p in effect && (StateOf(s, p) == effect[p] || OwnedWithAddedLinks(StateOf(s, p), effect[p]))
  }

  lemma GuardGives(s: Snapshot, known: set<Tree>, paths: seq<Path>, desired: Tree, alternate: Tree,
                   before: Option<States>, effect: Option<States>)
    requires Guard(s, known, paths, desired, alternate, before, effect, true)
    requires before.Some? ==> forall p | p in paths && p in before.value :: Replaceable(before.value[p])
    ensures effect.Some? ==> OwnedEffect(s, paths, effect.value)
    ensures effect.None? ==> Soles(s, paths)
  {
    forall p | p in paths
      ensures effect.None? ==> Replaceable(StateOf(s, p))
      ensures effect.Some? ==> p in effect.value
      ensures effect.Some? ==> StateOf(s, p) == effect.value[p] || OwnedWithAddedLinks(StateOf(s, p), effect.value[p])
    {
      assert WorktreeOwned(s, p, desired, alternate, before, effect);
    }
  }

  lemma GuardOnAlternate(s: Snapshot, known: set<Tree>, paths: seq<Path>, desired: Tree, alternate: Tree,
                         before: Option<States>, effect: Option<States>)
    requires s.index == alternate
    ensures Guard(s, known, paths, desired, alternate, before, effect, false)
            == Guard(s, known, paths, desired, alternate, before, effect, true)
  {
    assert forall p | p in paths ::
             IndexOwned(s, p, desired, alternate, false) && IndexOwned(s, p, desired, alternate, true);
  }

  /** A finished git apply, drifted or not, is owned by its own capture. */
  lemma FinishedIsGuarded(s: Snapshot, known: set<Tree>, paths: seq<Path>, post: Tree, desired: Tree, alternate: Tree)
    requires desired in known && alternate in known && AgreesOn(paths, post, desired)
    requires IndexDrifts(s.index, post, paths)
    ensures Guard(s, known, paths, desired, alternate, None, Some(Capture(s, paths)), true)
  {
  }

  lemma MarkedIsRejected(s: Snapshot, image: Tree, paths: seq<Path>)
    ensures RejectionMarked(s, image, paths) ==> PreimageRejected(s, image, paths)
  {
  }

  lemma SamePreimage(s: Snapshot, image: Tree, other: Tree, paths: seq<Path>)
    requires AgreesOn(paths, image, other)
    ensures PreimageRejected(s, image, paths) == PreimageRejected(s, other, paths)
    ensures RejectionMarked(s, image, paths) == RejectionMarked(s, other, paths)
  {
    assert forall p | p in paths :: PreimageHolds(s, image, p) == PreimageHolds(s, other, p);
  }

  lemma GuardKnows(s: Snapshot, known: set<Tree>, paths: seq<Path>, desired: Tree, alternate: Tree,
                   before: Option<States>, effect: Option<States>, allowDrift: bool)
    requires Guard(s, known, paths, desired, alternate, before, effect, allowDrift)
    ensures desired in known && alternate in known
  {
  }

  lemma GuardNeeds(s: Snapshot, known: set<Tree>, paths: seq<Path>, desired: Tree, alternate: Tree,
                   before: Option<States>, effect: Option<States>)
    ensures desired !in known ==> !Guard(s, known, paths, desired, alternate, before, effect, true)
  {
  }

  /** One observed state is a Git-clean copy of at most one entry. */
  lemma GitMatchIsUnique(c: PathState, d: Option<Entry>, a: Option<Entry>)
    requires GitMatches(c, d) && GitMatches(c, a)
    ensures d == a
  {
  }

  /** An owned copy of the alternate entry is never a Git-clean copy of the desired one. */
  lemma AlternateOwnerDiffers(c: PathState, held: PathState, d: Option<Entry>, a: Option<Entry>)
    requires StateMatches(held, a) && (c == held || OwnedWithAddedLinks(c, held))
    requires d != a
    ensures !GitMatches(c, d)
  {
    ExactIsGitClean(held, a);
    if GitMatches(c, d) {
      GitMatchIsUnique(c, d, a);
    }
  }

  lemma DiffOutside(paths: seq<Path>, a: Tree, b: Tree)
    requires IsDiff(paths, a, b)
    ensures forall p: Path | p !in paths :: EntryOf(a, p) == EntryOf(b, p)
  {
    forall p: Path | p !in paths
      ensures EntryOf(a, p) == EntryOf(b, p)
    {
      if p in a.Keys + b.Keys {
      }
    }
  }

  /** The retained captures are copies of the two trees, the scope is owned, and Git sees every
      added path: nothing in the scope can look exact without being so. */
  predicate Discerned(s: Snapshot, known: set<Tree>, paths: seq<Path>, desired: Tree, alternate: Tree,
                      before: States, effect: Option<States>, visible: Visibility)
  {
    && Guard(s, known, paths, desired, alternate, Some(before), effect, true) && IsDiff(paths, desired, alternate)
    && (forall p | p in paths && p in before :: StateMatches(before[p], EntryOf(desired, p)))
    && (effect.Some? ==> forall p | p in paths && p in effect.value ::
          StateMatches(effect.value[p], EntryOf(alternate, p)))
    && (forall p | p in paths && p !in desired :: visible(RulesOf(s), p))
  }

  /** With an owned scope, a worktree that Git calls an exact copy of the desired tree
      carries that tree exactly on the scope, link counts and mode bits included. */
  lemma OwnedAndCleanIsExact(s: Snapshot, known: set<Tree>, paths: seq<Path>, desired: Tree, alternate: Tree,
                             before: States, effect: Option<States>, visible: Visibility)
    requires Discerned(s, known, paths, desired, alternate, before, effect, visible) && ExactTree(s, desired, visible)
    ensures ScopeMatches(s, desired, paths)
  {
    forall p | p in paths
      ensures StateMatches(StateOf(s, p), EntryOf(desired, p))
    {
      var c, d, a := StateOf(s, p), EntryOf(desired, p), EntryOf(alternate, p);
      assert WorktreeOwned(s, p, desired, alternate, Some(before), effect);
      assert GitMatches(c, d) by {
        assert p in desired ==> GitMatches(c, Some(desired[p]));
        assert p !in desired ==> p !in s.names;
      }
      if effect.Some? {
        AlternateOwnerDiffers(c, effect.value[p], d, a);
      } else if StateMatches(c, a) {
        AlternateOwnerDiffers(c, c, d, a);
      }
    }
  }

  /** A path containing a stop word is as it was in s. */
  predicate MarkedLeft(s: Snapshot, t: Snapshot, paths: seq<Path>) {
    exists p | p in paths :: Marked(p) && StateOf(t, p) == StateOf(s, p)
  }

  /** With a complete index Git's rejection quotes exactly the scope paths not written yet. */
  lemma RejectionQuotes(s: Snapshot, t: Snapshot, patch: Patch, source: Tree, target: Tree)
    requires Turns(patch, source, target) && ScopeMatches(s, source, patch.scope)
    requires PartialEffect(s, t, patch.post, patch.scope) && t.index == target
    ensures RejectionMarked(t, target, patch.scope) <==> MarkedLeft(s, t, patch.scope)
  {
    hide Marked, OutsideKept, LinkCounts;
    forall p | p in patch.scope
      ensures PreimageHolds(t, target, p) <==> StateOf(t, p) != StateOf(s, p)
    {
      WrittenOrLeft(s, t, patch, source, target, p);
    }
  }

  lemma WrittenOrLeft(s: Snapshot, t: Snapshot, patch: Patch, source: Tree, target: Tree, p: Path)
    requires Turns(patch, source, target) && ScopeMatches(s, source, patch.scope)
    requires PartialEffect(s, t, patch.post, patch.scope) && p in patch.scope
    ensures GitMatches(StateOf(t, p), EntryOf(target, p)) <==> StateOf(t, p) != StateOf(s, p)
  {
    hide OutsideKept, LinkCounts;
    assert PartialAt(s, t, patch.post, p) && EntryOf(source, p) != EntryOf(target, p);
    ExactIsGitClean(StateOf(s, p), EntryOf(source, p));
    if StateOf(t, p) == StateOf(s, p) {
      if GitMatches(StateOf(t, p), EntryOf(target, p)) {
        GitMatchIsUnique(StateOf(t, p), EntryOf(source, p), EntryOf(target, p));
      }
    } else {
      ExactIsGitClean(StateOf(t, p), EntryOf(target, p));
    }
  }

  /** After a stopped or finished git apply with no interference, recovery acts exactly when
      the target tree is a readable object by then, and, if the index is complete, every path
      containing a stop word has been written. */
  lemma PartialEffectRecoverable(s: Snapshot, t: Snapshot, known: set<Tree>, patch: Patch,
                                 source: Tree, target: Tree, effect: Option<States>)
    requires Turns(patch, source, target) && s.index == source && ScopeMatches(s, source, patch.scope)
    requires PartialEffect(s, t, patch.post, patch.scope)
    requires source in known
    requires effect.Some? ==> effect.value == Capture(t, patch.scope)
    ensures Recovers(t, known, patch.scope, source, target, Some(Capture(s, patch.scope)), effect) <==>
              (target in known || t.index == target) && !(t.index == target && MarkedLeft(s, t, patch.scope))
  {
    if t.index == target {
      RejectionQuotes(s, t, patch, source, target);
    }
    hide MarkedLeft, RejectionMarked, LinkCounts, OutsideKept;
    forall p | p in patch.scope
      ensures WorktreeOwned(t, p, source, target, Some(Capture(s, patch.scope)), effect)
      ensures IndexOwned(t, p, source, target, true)
    {
      assert PartialAt(s, t, patch.post, p);
    }
  }

  /** Per-path agreement over the patch scope is agreement of the whole index, provided
      the scope is the tree delta and nothing outside it moved. */
  lemma ScopeGivesWholeTree(index: Tree, source: Tree, target: Tree, paths: seq<Path>)
    requires forall p: Path | p !in paths :: EntryOf(index, p) == EntryOf(source, p)
    requires IsDiff(paths, source, target)
    ensures index == target <==> AgreesOn(paths, index, target)
  {
    if AgreesOn(paths, index, target) {
      forall p: Path
        ensures EntryOf(index, p) == EntryOf(target, p)
      {
        if p !in paths && p in source.Keys + target.Keys {
          assert EntryOf(source, p) == EntryOf(target, p);
        }
      }
      forall p: Path
        ensures p in index <==> p in target
        ensures p in index ==> index[p] == target[p]
      {
        assert EntryOf(index, p) == EntryOf(target, p);
      }
    }
  }

  // ----- exact trees before and after -----

  /** From an exact source tree, moving the scope alone to the target's entries gives the
      exact target tree, index, tracked files and untracked files, if and only if no untracked
      file comes into sight under the target's ignore rules. */
  lemma ExactAfter(s: Snapshot, t: Snapshot, source: Tree, target: Tree, paths: seq<Path>, visible: Visibility)
    requires ExactTree(s, source, visible) && LinkCounts(s) && LinkCounts(t) && OutsideKept(s, t, paths)
    requires ScopeMatches(t, target, paths)
    requires forall p: Path | p !in paths :: EntryOf(source, p) == EntryOf(target, p)
    ensures ExactTree(t, target, visible) <==> StaysHidden(s, target, paths, visible)
  {
    WholeIndex(s, t, source, target, paths);
    TrackedAfter(s, t, target, paths);
    RulesAfter(s, t, target, paths, SetOf(paths));
    hide RulesOf, RulesWith, TrackedClean, GitMatches;
    forall p: Path
      ensures p in t.names && p !in t.index <==> p in s.names && p !in s.index && p !in paths
    {
      if p in paths {
        assert StateMatches(StateOf(t, p), EntryOf(target, p)) && EntryOf(t.index, p) == EntryOf(target, p);
      } else {
        assert SameObject(s, t, p) && EntryOf(t.index, p) == EntryOf(s.index, p);
      }
    }
  }

  lemma WholeIndex(s: Snapshot, t: Snapshot, source: Tree, target: Tree, paths: seq<Path>)
    requires s.index == source && OutsideKept(s, t, paths) && ScopeMatches(t, target, paths)
    requires forall p: Path | p !in paths :: EntryOf(source, p) == EntryOf(target, p)
    ensures t.index == target
  {
    forall p: Path
      ensures p in t.index <==> p in target
      ensures p in t.index ==> t.index[p] == target[p]
    {
      assert p !in paths ==> EntryOf(t.index, p) == EntryOf(s.index, p);
      assert EntryOf(t.index, p) == EntryOf(target, p);
    }
  }

  lemma TrackedAfter(s: Snapshot, t: Snapshot, target: Tree, paths: seq<Path>)
    requires TrackedClean(s) && OutsideKept(s, t, paths) && LinkCounts(s) && ScopeMatches(t, target, paths)
    ensures TrackedClean(t)
  {
    forall p | p in t.index
      ensures GitMatches(StateOf(t, p), Some(t.index[p]))
    {
      if p in paths {
        ExactIsGitClean(StateOf(t, p), Some(t.index[p]));
      } else {
        assert SameObject(s, t, p) && EntryOf(t.index, p) == EntryOf(s.index, p);
        assert GitMatches(StateOf(s, p), Some(s.index[p]));
      }
    }
  }

  /** In the source tree itself nothing can come into sight. */
  lemma SourceStaysHidden(s: Snapshot, source: Tree, paths: seq<Path>, visible: Visibility)
    requires LinkCounts(s) && ExactTree(s, source, visible) && ScopeMatches(s, source, paths)
    ensures StaysHidden(s, source, paths, visible)
  {
    RulesStay(s, source, paths);
  }

  /** A finished, undrifted git apply is the full partial effect and the whole target tree. */
  lemma FinishedExactly(s: Snapshot, t: Snapshot, patch: Patch, source: Tree, target: Tree)
    requires Turns(patch, source, target) && s.index == source
    requires LinkCounts(t) && OutsideKept(s, t, patch.scope) && ScopeMatches(t, patch.post, patch.scope)
    ensures PartialEffect(s, t, patch.post, patch.scope)
    ensures ScopeMatches(t, target, patch.scope) && t.index == target
  {
    assert forall p | p in patch.scope :: EntryOf(patch.post, p) == EntryOf(target, p);
    ScopeGivesWholeTree(t.index, source, target, patch.scope);
  }

  /** What follows a finished git apply t when u is the state after capture and normalisation. */
  lemma SettledIsUndoable(s: Snapshot, t: Snapshot, u: Snapshot, known: set<Tree>, patch: Patch, source: Tree,
                          target: Tree, visible: Visibility, effect: Option<States>)
    requires Ready(s, known, patch, source, target, visible)
    requires LinkCounts(s) && LinkCounts(u) && OutsideKept(s, t, patch.scope) && OutsideKept(t, u, patch.scope)
    requires ScopeMatches(u, target, patch.scope)
    ensures ExactTree(u, target, visible) <==> StaysHidden(s, target, patch.scope, visible)
    ensures (effect.Some? ==> effect.value == Capture(u, patch.scope)) ==> Undoable(s, u, patch, target, effect)
  {
    ReadyGives(s, known, patch, source, target, visible);
    OutsideKeptTransitive(s, t, u, patch.scope);
    ExactAfter(s, u, source, target, patch.scope, visible);
  }

  /** A finished git apply is the target already, or it can be normalised exactly when the
      target tree is a readable object: known before, or just written from an exact index. */
  lemma FinishedIsRepairable(s: Snapshot, t: Snapshot, known: set<Tree>, more: set<Tree>, patch: Patch, source: Tree,
                             target: Tree, visible: Visibility)
    requires Ready(s, known, patch, source, target, visible) && known <= more
    requires LinkCounts(t) && OutsideKept(s, t, patch.scope) && IndexDrifts(t.index, patch.post, patch.scope)
    ensures if ScopeMatches(t, patch.post, patch.scope) then
              t.index == target && ScopeMatches(t, target, patch.scope)
            else
              Guard(t, more + {t.index}, patch.scope, target, source, None, Some(Capture(t, patch.scope)), true)
              <==> target in more || t.index == target
  {
    ReadyGives(s, known, patch, source, target, visible);
    if ScopeMatches(t, patch.post, patch.scope) {
      FinishedExactly(s, t, patch, source, target);
    } else if target in more || t.index == target {
      FinishedIsGuarded(t, more + {t.index}, patch.scope, patch.post, target, source);
    }
  }

  lemma NothingYet(s: Snapshot, post: Tree, paths: seq<Path>)
    requires LinkCounts(s)
    ensures PartialEffect(s, s, post, paths)
  {
  }

  /** The exact source state, for the right patch. */
  predicate Ready(s: Snapshot, known: set<Tree>, patch: Patch, source: Tree, target: Tree, visible: Visibility) {
    && Turns(patch, source, target)
    && ExactTree(s, source, visible) && ScopeMatches(s, source, patch.scope)
    && source in known
  }

  lemma ReadyHere(s: Snapshot, known: set<Tree>, patch: Patch, source: Tree, target: Tree, visible: Visibility)
    requires Turns(patch, source, target) && ExactTree(s, source, visible) && ScopeMatches(s, source, patch.scope)
    requires source in known
    ensures Ready(s, known, patch, source, target, visible)
  {
  }

  lemma ReadyGives(s: Snapshot, known: set<Tree>, patch: Patch, source: Tree, target: Tree, visible: Visibility)
    requires Ready(s, known, patch, source, target, visible)
    ensures Turns(patch, source, target) && ScopeMatches(s, source, patch.scope) && ExactTree(s, source, visible)
    ensures s.index == source && source in known
    ensures AgreesOn(patch.scope, patch.post, target)
    ensures forall p: Path | p !in patch.scope :: EntryOf(source, p) == EntryOf(target, p)
  {
    DiffOutside(patch.scope, source, target);
  }

  /** A state recovery can undo: a partial effect, and any captured effect is the target. */
  ghost predicate Undoable(s: Snapshot, t: Snapshot, patch: Patch, target: Tree, effect: Option<States>) {
    && PartialEffect(s, t, patch.post, patch.scope)
    && (effect.Some? ==> effect.value == Capture(t, patch.scope) && ScopeMatches(t, target, patch.scope))
  }

  lemma PartialIsUndoable(s: Snapshot, t: Snapshot, patch: Patch, target: Tree)
    requires PartialEffect(s, t, patch.post, patch.scope)
    ensures Undoable(s, t, patch, target, None)
  {
  }

  lemma SourceHoldsPreimage(s: Snapshot, patch: Patch, source: Tree, target: Tree)
    requires Turns(patch, source, target) && ScopeMatches(s, source, patch.scope)
    ensures !PreimageRejected(s, patch.pre, patch.scope)
  {
    forall p | p in patch.scope
      ensures PreimageHolds(s, patch.pre, p)
    {
      ExactIsGitClean(StateOf(s, p), EntryOf(source, p));
    }
  }

  lemma MatchedAreSoles(s: Snapshot, t: Tree, paths: seq<Path>)
    requires ScopeMatches(s, t, paths)
    ensures Soles(s, paths)
  {
  }

  // ----- the two ways a run may end without success -----

  /** What recovery made of the state s it found: nothing, or the whole source scope. */
  ghost predicate AllOrNothing(s: Snapshot, known: set<Tree>, t: Snapshot, paths: seq<Path>, source: Tree, target: Tree,
                               before: States, effect: Option<States>, visible: Visibility)
  {
    && OutsideKept(s, t, paths)
    && if !ExactTree(s, source, visible) && Recovers(s, known, paths, source, target, Some(before), effect) then
         ScopeMatches(t, source, paths)
       else
         t == s
  }

  lemma CaptureIsReplaceable(s: Snapshot, t: Tree, paths: seq<Path>)
    requires ScopeMatches(s, t, paths)
    ensures forall p | p in paths && p in Capture(s, paths) :: Replaceable(Capture(s, paths)[p])
  {
  }

  lemma TurnsBack(patch: Patch, source: Tree, target: Tree)
    requires Turns(patch, source, target)
    ensures Turns(Reverse(patch), target, source)
  {
    assert source.Keys + target.Keys == target.Keys + source.Keys;
  }

  /** Back at the source's entries, the rules are those of the first state again. */
  lemma RulesReturn(s: Snapshot, t: Snapshot, source: Tree, paths: seq<Path>)
    requires LinkCounts(s) && LinkCounts(t) && OutsideKept(s, t, paths) && ScopeMatches(s, source, paths)
    ensures RulesWith(t, source, SetOf(paths)) == RulesOf(s)
  {
    forall p
      ensures p in RulesWith(t, source, SetOf(paths)) <==> p in RulesOf(s)
      ensures p in RulesOf(s) ==> RulesWith(t, source, SetOf(paths))[p] == RulesOf(s)[p]
    {
      if p !in paths {
        assert SameObject(s, t, p);
      }
    }
  }

  /** Going back brings nothing into sight. */
  lemma BackStaysHidden(s: Snapshot, t: Snapshot, source: Tree, paths: seq<Path>, visible: Visibility)
    requires LinkCounts(s) && LinkCounts(t) && OutsideKept(s, t, paths)
    requires ExactTree(s, source, visible) && ScopeMatches(s, source, paths)
    ensures StaysHidden(t, source, paths, visible)
  {
    RulesReturn(s, t, source, paths);
    hide RulesOf, RulesWith, TrackedClean, ScopeMatches, LinkCounts;
    forall p | p in t.names && p !in t.index && p !in paths
      ensures p in s.names && p !in s.index
    {
      assert SameObject(s, t, p) && EntryOf(t.index, p) == EntryOf(s.index, p);
    }
  }

  // ----- when every stopped git apply is undone -----

  function AddedPaths(paths: seq<Path>, source: Tree): set<Path> {
    set p | p in paths && p !in source
  }

  /** With the added files of a in place, and the ignore files among them in force, Git would
      list one of them or another untracked file. */
  ghost predicate Shows(s: Snapshot, target: Tree, a: set<Path>, visible: Visibility) {
    exists p | p in a + Untracked(s) :: visible(RulesWith(s, target, a), p)
  }

  function Untracked(s: Snapshot): set<Path> {
    set p | p in s.names && p !in s.index
  }

  /** A caller can check this before the run: the target tree object exists, no scope path
      contains a stop word, and no part of the added files stays out of Git's sight. */
  ghost predicate Favourable(s: Snapshot, known: set<Tree>, paths: seq<Path>, source: Tree, target: Tree,
                             visible: Visibility) {
    && target in known
    && (forall p | p in paths :: !Marked(p))
    && (forall a: set<Path> | a != {} && a <= AddedPaths(paths, source) :: Shows(s, target, a, visible))
  }

  lemma FavourableKnows(s: Snapshot, known: set<Tree>, paths: seq<Path>, source: Tree, target: Tree,
                        visible: Visibility)
    requires Favourable(s, known, paths, source, target, visible)
    ensures target in known
  {
  }

  lemma FavourableGrows(s: Snapshot, known: set<Tree>, more: set<Tree>, paths: seq<Path>, source: Tree, target: Tree,
                        visible: Visibility)
    requires Favourable(s, known, paths, source, target, visible) && known <= more
    ensures Favourable(s, more, paths, source, target, visible)
  {
  }

  lemma SameEntrySameFile(a: PathState, b: PathState, e: Option<Entry>)
    requires StateMatches(a, e) && StateMatches(b, e)
    ensures SameFile(a, b)
  {
  }

  /** What recovery does about a state it finds: it leaves a scope that Git calls exact, and
      otherwise restores the scope when it acts. */
  predicate Restorable(t: Snapshot, known: set<Tree>, paths: seq<Path>, source: Tree, target: Tree,
                       before: States, effect: Option<States>, visible: Visibility)
  {
    if ExactTree(t, source, visible) then ScopeMatches(t, source, paths)
    else Recovers(t, known, paths, source, target, Some(before), effect)
  }

  /** A changed path of a partial effect that leaves the index and the tracked files clean is
      an added one. */
  lemma ChangedIsAdded(s: Snapshot, t: Snapshot, patch: Patch, source: Tree, target: Tree, p: Path)
    requires Turns(patch, source, target) && ScopeMatches(s, source, patch.scope)
    requires PartialEffect(s, t, patch.post, patch.scope) && t.index == source && TrackedClean(t)
    requires p in patch.scope && StateOf(t, p) != StateOf(s, p)
    ensures p !in source && p in target && StateMatches(StateOf(t, p), EntryOf(target, p)) && p in t.names
  {
    assert PartialAt(s, t, patch.post, p) && EntryOf(source, p) != EntryOf(target, p);
    ExactIsGitClean(StateOf(t, p), EntryOf(target, p));
    if p in source {
      assert GitMatches(StateOf(t, p), Some(t.index[p]));
      GitMatchIsUnique(StateOf(t, p), EntryOf(source, p), EntryOf(target, p));
    }
  }

  lemma UntrackedStay(s: Snapshot, t: Snapshot, source: Tree, paths: seq<Path>)
    requires LinkCounts(s) && s.index == source && ScopeMatches(s, source, paths) && OutsideKept(s, t, paths)
    ensures forall p | p in Untracked(s) :: p !in paths && p in t.names && p !in source
  {
    forall p | p in Untracked(s)
      ensures p !in paths && p in t.names
    {
      assert p in paths ==> StateMatches(StateOf(s, p), EntryOf(source, p));
      assert p !in paths ==> SameObject(s, t, p);
    }
  }

  /** Unless added files hide themselves, a partial effect that Git calls the exact source
      changed nothing. */
  lemma ExactPartialIsSource(s: Snapshot, t: Snapshot, patch: Patch, source: Tree, target: Tree, visible: Visibility)
    requires LinkCounts(s) && Turns(patch, source, target) && s.index == source && ScopeMatches(s, source, patch.scope)
    requires PartialEffect(s, t, patch.post, patch.scope) && ExactTree(t, source, visible)
    requires forall a: set<Path> | a != {} && a <= AddedPaths(patch.scope, source) :: Shows(s, target, a, visible)
    ensures ScopeMatches(t, source, patch.scope)
  {
    hide RulesOf, RulesWith, GitMatches, StateMatches, PartialAt;
    var a := set p | p in patch.scope && StateOf(t, p) != StateOf(s, p);
    forall p | p in a
      ensures p !in source && StateMatches(StateOf(t, p), EntryOf(target, p)) && p in t.names
    {
      ChangedIsAdded(s, t, patch, source, target, p);
    }
    RulesAfter(s, t, target, patch.scope, a);
    UntrackedStay(s, t, source, patch.scope);
    assert a <= AddedPaths(patch.scope, source) && !Shows(s, target, a, visible);
    forall p | p in patch.scope
      ensures EntryOf(t.index, p) == EntryOf(source, p) && StateMatches(StateOf(t, p), EntryOf(source, p))
    {
      assert p !in a && StateMatches(StateOf(s, p), EntryOf(source, p));
    }
  }

  /** Without interference, recovery of an undoable state under favourable conditions ends in
      the exact source tree. */
  lemma UndoneExactly(s: Snapshot, known: set<Tree>, t: Snapshot, more: set<Tree>, u: Snapshot, patch: Patch,
                      source: Tree, target: Tree, visible: Visibility, effect: Option<States>)
    requires LinkCounts(s) && LinkCounts(t) && LinkCounts(u) && known <= more
    requires Ready(s, known, patch, source, target, visible) && Undoable(s, t, patch, target, effect)
    requires Favourable(s, known, patch.scope, source, target, visible)
    requires AllOrNothing(t, more, u, patch.scope, source, target, Capture(s, patch.scope), effect, visible)
    ensures ExactTree(u, source, visible) && ScopeMatches(u, source, patch.scope) && OutsideKept(s, u, patch.scope)
    ensures ExactTree(t, source, visible)
            || Recovers(t, more, patch.scope, source, target, Some(Capture(s, patch.scope)), effect)
  {
    PartialEffectRecoverable(s, t, more, patch, source, target, effect);
    assert !MarkedLeft(s, t, patch.scope);
    if ExactTree(t, source, visible) {
      ExactPartialIsSource(s, t, patch, source, target, visible);
    }
    OutsideKeptTransitive(s, t, u, patch.scope);
    SourceStaysHidden(s, source, patch.scope, visible);
    ExactAfter(s, u, source, source, patch.scope, visible);
  }

  /** The exact outcome of recovery from any state that kept everything outside the scope: the
      source is back if and only if the state was restorable. */
  lemma UndoneWhenRestorable(s: Snapshot, known: set<Tree>, t: Snapshot, more: set<Tree>, u: Snapshot, patch: Patch,
                             source: Tree, target: Tree, visible: Visibility, effect: Option<States>)
    requires LinkCounts(s) && LinkCounts(t) && LinkCounts(u)
    requires Ready(s, known, patch, source, target, visible) && OutsideKept(s, t, patch.scope)
    requires AllOrNothing(t, more, u, patch.scope, source, target, Capture(s, patch.scope), effect, visible)
    ensures ScopeMatches(u, source, patch.scope)
            <==> Restorable(t, more, patch.scope, source, target, Capture(s, patch.scope), effect, visible)
    ensures ScopeMatches(u, source, patch.scope) <==>
              ExactTree(u, source, visible) && ScopeMatches(u, source, patch.scope)
  {
    ReadyGives(s, known, patch, source, target, visible);
    SourceStaysHidden(s, source, patch.scope, visible);
    OutsideKeptTransitive(s, t, u, patch.scope);
    if ScopeMatches(t, source, patch.scope) {
      ExactAfter(s, t, source, source, patch.scope, visible);
    }
    if ScopeMatches(u, source, patch.scope) {
      ExactAfter(s, u, source, source, patch.scope, visible);
    }
  }

  // ----- a finished git apply that was captured -----

  /** Normalisation of a finished git apply t ran to its end and left u. */
  ghost predicate Completed(t: Snapshot, u: Snapshot, target: Tree, paths: seq<Path>) {
    && LinkCounts(u) && OutsideKept(t, u, paths) && u.index == target && ScopeMatches(u, target, paths)
    && (t.index == target && ScopeMatches(t, target, paths) ==> u == t)
  }

  /** t is a complete target scope, but the retained capture is that of the finished git apply
      before its normalisation: something came into sight, so the capture was not renewed. */
  ghost predicate Sighted(s: Snapshot, t: Snapshot, patch: Patch, target: Tree, effect: Option<States>,
                          visible: Visibility)
  {
    && !StaysHidden(s, target, patch.scope, visible)
    && exists r ::
         && FinishedEffect(s, r, patch.post, patch.scope) && Completed(r, t, target, patch.scope)
         && effect == Some(Capture(r, patch.scope))
  }

  /** t is a finished git apply whose index drifted, so that no normalisation could begin. */
  ghost predicate Stuck(s: Snapshot, t: Snapshot, patch: Patch, target: Tree, effect: Option<States>) {
    FinishedEffect(s, t, patch.post, patch.scope) && t.index != target && effect == Some(Capture(t, patch.scope))
  }

  /** Normalisation of the captured state t stopped at u: any of the scope's index entries and
      worktree names carry the target.  An exact state is not touched. */
  ghost predicate Underway(t: Snapshot, u: Snapshot, target: Tree, paths: seq<Path>) {
    PartialEffect(t, u, target, paths) && (t.index == target && ScopeMatches(t, target, paths) ==> u == t)
  }

  /** t is what an interruption left behind a finished git apply: before its capture, or while
      the captured state was being normalised. */
  ghost predicate Loose(s: Snapshot, t: Snapshot, patch: Patch, target: Tree, effect: Option<States>) {
    exists r ::
      && FinishedEffect(s, r, patch.post, patch.scope)
      && if effect.None? then t == r
         else effect == Some(Capture(r, patch.scope)) && Underway(r, t, target, patch.scope)
  }

  /** All states a run without interference can leave for recovery to begin with; known is
      what was readable before the run, and lost says that the drift window was interrupted. */
  ghost predicate Reached(s: Snapshot, known: set<Tree>, t: Snapshot, patch: Patch, target: Tree,
                          effect: Option<States>, visible: Visibility, lost: bool)
  {
    || Undoable(s, t, patch, target, effect)
    || Sighted(s, t, patch, target, effect, visible)
    || (target !in known && Stuck(s, t, patch, target, effect))
    || (lost && Loose(s, t, patch, target, effect))
  }

  lemma ReachedGrows(s: Snapshot, known: set<Tree>, more: set<Tree>, t: Snapshot, patch: Patch, target: Tree,
                     effect: Option<States>, visible: Visibility, lost: bool)
    requires Reached(s, more, t, patch, target, effect, visible, lost) && known <= more
    ensures Reached(s, known, t, patch, target, effect, visible, lost)
  {
    hide Undoable, Sighted, Stuck, Loose;
  }

  lemma UnderwaySelf(t: Snapshot, target: Tree, paths: seq<Path>)
    requires LinkCounts(t)
    ensures Underway(t, t, target, paths)
  {
  }

  lemma PartialIsUnderway(t: Snapshot, u: Snapshot, target: Tree, paths: seq<Path>)
    requires PartialEffect(t, u, target, paths) && !(t.index == target && ScopeMatches(t, target, paths))
    ensures Underway(t, u, target, paths)
  {
  }

  lemma PartialTwice(s: Snapshot, t: Snapshot, u: Snapshot, post: Tree, paths: seq<Path>)
    requires PartialEffect(s, t, post, paths) && PartialEffect(t, u, post, paths)
    ensures PartialEffect(s, u, post, paths)
  {
    hide StateMatches, LinkCounts;
    OutsideKeptTransitive(s, t, u, paths);
    hide OutsideKept;
    forall p | p in paths
      ensures PartialAt(s, u, post, p)
    {
      assert PartialAt(s, t, post, p) && PartialAt(t, u, post, p);
    }
  }

  /** A complete index stays complete. */
  lemma PartialIndex(s: Snapshot, t: Snapshot, post: Tree, paths: seq<Path>)
    requires PartialEffect(s, t, post, paths)
    ensures s.index == post ==> t.index == post
  {
    if s.index == post {
      forall p: Path
        ensures p in t.index <==> p in post
        ensures p in post ==> t.index[p] == post[p]
      {
        assert if p in paths then PartialAt(s, t, post, p) else EntryOf(t.index, p) == EntryOf(s.index, p);
      }
    }
  }

  /** A finished git apply t, captured and normalised as far as u, is one of these states. */
  lemma CapturedIsReached(s: Snapshot, t: Snapshot, u: Snapshot, known: set<Tree>, patch: Patch, source: Tree,
                          target: Tree, visible: Visibility, effect: Option<States>, ok: bool, lost: bool)
    requires LinkCounts(s) && Ready(s, known, patch, source, target, visible)
    requires FinishedEffect(s, t, patch.post, patch.scope) && Underway(t, u, target, patch.scope)
    requires ok ==> effect == Some(Capture(u, patch.scope)) && ScopeMatches(u, target, patch.scope)
    requires !ok ==> if effect.None? then u == t else effect == Some(Capture(t, patch.scope))
    requires !ok && !lost && !(t.index == target && ScopeMatches(t, target, patch.scope)) ==>
               && effect.Some?
               && (|| (ScopeMatches(u, target, patch.scope) && !ExactTree(u, target, visible))
                   || (u == t && t.index != target && target !in known))
    ensures Reached(s, known, u, patch, target, effect, visible, lost)
  {
    hide LinkCounts, OutsideKept, ExactTree, ScopeMatches, StaysHidden, Capture;
    ReadyGives(s, known, patch, source, target, visible);
    FinishedGives(s, t, patch.post, patch.scope);
    OutsideKeptTransitive(s, t, u, patch.scope);
    if ScopeMatches(u, target, patch.scope) {
      SettledIsUndoable(s, t, u, known, patch, source, target, visible, effect);
      WholeIndex(s, u, source, target, patch.scope);
    }
  }

  /** A capture of the present, complete target scope is restorable: no condition remains. */
  lemma SettledIsRestorable(s: Snapshot, t: Snapshot, known: set<Tree>, patch: Patch, source: Tree, target: Tree,
                            visible: Visibility, effect: Option<States>)
    requires Turns(patch, source, target) && s.index == source && ScopeMatches(s, source, patch.scope)
    requires LinkCounts(t) && OutsideKept(s, t, patch.scope)
    requires t.index == target && ScopeMatches(t, target, patch.scope)
    requires source in known && effect == Some(Capture(t, patch.scope))
    ensures Restorable(t, known, patch.scope, source, target, Capture(s, patch.scope), effect, visible)
  {
    hide OutsideKept, LinkCounts, ExactTree, Marked, StateMatches;
    assert AgreesOn(patch.scope, patch.post, target);
    assert ScopeMatches(t, patch.post, patch.scope);
    FinishedExactly(s, t, patch, source, target);
    PartialEffectRecoverable(s, t, known, patch, source, target, effect);
    forall p | p in patch.scope
      ensures StateOf(t, p) != StateOf(s, p)
    {
      ExactIsGitClean(StateOf(t, p), EntryOf(target, p));
      WrittenOrLeft(s, t, patch, source, target, p);
    }
    NotBoth(t, source, target, patch.scope, visible);
  }

  /** The target's index is not the source's, except for a patch without paths. */
  lemma NotBoth(t: Snapshot, source: Tree, target: Tree, paths: seq<Path>, visible: Visibility)
    requires t.index == target && IsDiff(paths, source, target)
    ensures ExactTree(t, source, visible) ==> ScopeMatches(t, source, paths)
  {
    if t.index == source {
      assert forall p | p in paths :: EntryOf(source, p) != EntryOf(target, p);
    }
  }

  /** A sighted state is restorable if and only if its capture is still the present one, that
      is, if no file had to be rewritten. */
  lemma SightedOutcome(s: Snapshot, known: set<Tree>, t: Snapshot, patch: Patch, source: Tree, target: Tree,
                       visible: Visibility, effect: Option<States>)
    requires Ready(s, known, patch, source, target, visible) && Sighted(s, t, patch, target, effect, visible)
    ensures Restorable(t, known, patch.scope, source, target, Capture(s, patch.scope), effect, visible)
            <==> effect == Some(Capture(t, patch.scope))
  {
    hide ExactTree, Marked, StateMatches, LinkCounts, StaysHidden;
    ReadyGives(s, known, patch, source, target, visible);
    var r :| FinishedEffect(s, r, patch.post, patch.scope) && Completed(r, t, target, patch.scope)
             && effect == Some(Capture(r, patch.scope));
    OutsideKeptTransitive(s, r, t, patch.scope);
    if Capture(r, patch.scope) == Capture(t, patch.scope) {
      SettledIsRestorable(s, t, known, patch, source, target, visible, effect);
    } else {
      CaptureDiffers(r, t, patch.scope);
      var p :| p in patch.scope && StateOf(t, p) != StateOf(r, p);
      OneLink(t, p, target, patch.scope);
      OneLinkAtLeast(r, p, patch.post, patch.scope);
      assert !WorktreeOwned(t, p, source, target, Some(Capture(s, patch.scope)), effect);
      assert EntryOf(source, p) != EntryOf(target, p);
    }
  }

  lemma CaptureDiffers(r: Snapshot, t: Snapshot, paths: seq<Path>)
    requires Capture(r, paths) != Capture(t, paths)
    ensures exists p :: p in paths && StateOf(t, p) != StateOf(r, p)
  {
  }

  lemma OneLink(t: Snapshot, p: Path, target: Tree, paths: seq<Path>)
    requires ScopeMatches(t, target, paths) && p in paths
    ensures StateOf(t, p).Present? ==> StateOf(t, p).nlink == 1
  {
  }

  lemma OneLinkAtLeast(r: Snapshot, p: Path, image: Tree, paths: seq<Path>)
    requires WorktreeDrifts(r, image, paths) && p in paths
    ensures StateOf(r, p).Present? ==> StateOf(r, p).nlink == 1
  {
  }

  /** The exact outcome for every state that a run not interrupted in the drift window leaves:
      it is the source's scope already, or an undoable state that recovery acts on. */
  lemma ReachedOutcome(s: Snapshot, known: set<Tree>, t: Snapshot, more: set<Tree>, patch: Patch, source: Tree,
                       target: Tree, visible: Visibility, effect: Option<States>)
    requires LinkCounts(s) && Ready(s, known, patch, source, target, visible) && source in more
    requires Reached(s, known, t, patch, target, effect, visible, false)
    requires target in more && target !in known ==> t.index == target
    ensures Restorable(t, more, patch.scope, source, target, Capture(s, patch.scope), effect, visible) <==>
              || ScopeMatches(t, source, patch.scope)
              || (&& Undoable(s, t, patch, target, effect) && !ExactTree(t, source, visible)
                  && if t.index == target then !MarkedLeft(s, t, patch.scope) else target in more)
  {
    hide ExactTree, MarkedLeft, ScopeMatches, Recovers, OutsideKept, LinkCounts, Capture, Sighted, Stuck, PartialEffect;
    ReadyGives(s, known, patch, source, target, visible);
    ReachedKeeps(s, known, t, patch, target, effect, visible);
    if ScopeMatches(t, source, patch.scope) {
      SourceStaysHidden(s, source, patch.scope, visible);
      ExactAfter(s, t, source, source, patch.scope, visible);
    } else if Undoable(s, t, patch, target, effect) {
      PartialEffectRecoverable(s, t, more, patch, source, target, effect);
    } else if Sighted(s, t, patch, target, effect, visible) {
      ReadyKnowing(s, known, more, patch, source, target, visible);
      SightedOutcome(s, more, t, patch, source, target, visible, effect);
      SightedIsUndoable(s, known, t, patch, source, target, visible, effect);
    } else {
      StuckIsUnknown(s, known, t, more, patch, source, target, effect);
    }
  }

  lemma ReadyKnowing(s: Snapshot, known: set<Tree>, more: set<Tree>, patch: Patch, source: Tree, target: Tree,
                       visible: Visibility)
    requires Ready(s, known, patch, source, target, visible) && source in more
    ensures Ready(s, more, patch, source, target, visible)
  {
  }

  lemma ReachedKeeps(s: Snapshot, known: set<Tree>, t: Snapshot, patch: Patch, target: Tree, effect: Option<States>,
                     visible: Visibility)
    requires Reached(s, known, t, patch, target, effect, visible, false)
    ensures LinkCounts(t) && OutsideKept(s, t, patch.scope)
  {
    hide LinkCounts, OutsideKept, StaysHidden;
    if Sighted(s, t, patch, target, effect, visible) {
      var r :| FinishedEffect(s, r, patch.post, patch.scope) && Completed(r, t, target, patch.scope)
               && effect == Some(Capture(r, patch.scope));
      OutsideKeptTransitive(s, r, t, patch.scope);
    }
  }

  /** A sighted state with a present capture is undoable. */
  lemma SightedIsUndoable(s: Snapshot, known: set<Tree>, t: Snapshot, patch: Patch, source: Tree, target: Tree,
                          visible: Visibility, effect: Option<States>)
    requires LinkCounts(s) && Ready(s, known, patch, source, target, visible)
    requires Sighted(s, t, patch, target, effect, visible)
    ensures effect == Some(Capture(t, patch.scope)) ==> Undoable(s, t, patch, target, effect)
    ensures t.index == target && ScopeMatches(t, target, patch.scope) && !ExactTree(t, target, visible)
  {
    hide LinkCounts, OutsideKept, StaysHidden, ExactTree, ScopeMatches, Undoable;
    var r :| FinishedEffect(s, r, patch.post, patch.scope) && Completed(r, t, target, patch.scope)
             && effect == Some(Capture(r, patch.scope));
    SettledIsUndoable(s, r, t, known, patch, source, target, visible, effect);
  }

  lemma StuckIsUnknown(s: Snapshot, known: set<Tree>, t: Snapshot, more: set<Tree>, patch: Patch, source: Tree,
                       target: Tree, effect: Option<States>)
    requires Stuck(s, t, patch, target, effect) && target !in known
    requires target in more && target !in known ==> t.index == target
    ensures !Recovers(t, more, patch.scope, source, target, Some(Capture(s, patch.scope)), effect)
  {
  }

  lemma FavourableUndoable(s: Snapshot, known: set<Tree>, t: Snapshot, more: set<Tree>, patch: Patch, source: Tree,
                           target: Tree, visible: Visibility, effect: Option<States>)
    requires LinkCounts(s) && Ready(s, known, patch, source, target, visible) && source in more && target in more
    requires Undoable(s, t, patch, target, effect) && Favourable(s, known, patch.scope, source, target, visible)
    ensures Restorable(t, more, patch.scope, source, target, Capture(s, patch.scope), effect, visible)
  {
    hide ExactTree, ScopeMatches, Recovers, OutsideKept, LinkCounts, Capture;
    ReadyGives(s, known, patch, source, target, visible);
    PartialEffectRecoverable(s, t, more, patch, source, target, effect);
    assert !MarkedLeft(s, t, patch.scope);
    if ExactTree(t, source, visible) {
      ExactPartialIsSource(s, t, patch, source, target, visible);
    }
  }

  /** The cases of recovery, as one statement. */
  lemma AllOrNothingHere(s: Snapshot, known: set<Tree>, t: Snapshot, paths: seq<Path>, source: Tree, target: Tree,
                         before: States, effect: Option<States>, visible: Visibility)
    requires OutsideKept(s, t, paths)
    requires if ExactTree(s, source, visible) then t == s
             else if Recovers(s, known, paths, source, target, Some(before), effect) then ScopeMatches(t, source, paths)
             else t == s
    ensures AllOrNothing(s, known, t, paths, source, target, before, effect, visible)
  {
  }

  /** Both outcomes of recovery as implications, for a caller that knows none of the cases. */
  lemma RecoveryOutcome(s: Snapshot, known: set<Tree>, t: Snapshot, more: set<Tree>, u: Snapshot, patch: Patch,
                        source: Tree, target: Tree, visible: Visibility, effect: Option<States>)
    requires LinkCounts(s) && LinkCounts(t) && LinkCounts(u) && known <= more
    requires AllOrNothing(t, more, u, patch.scope, source, target, Capture(s, patch.scope), effect, visible)
    ensures Ready(s, known, patch, source, target, visible) && OutsideKept(s, t, patch.scope) ==>
              (ScopeMatches(u, source, patch.scope)
               <==> Restorable(t, more, patch.scope, source, target, Capture(s, patch.scope), effect, visible))
    ensures Ready(s, known, patch, source, target, visible) && OutsideKept(s, t, patch.scope)
            && ScopeMatches(u, source, patch.scope) ==>
              ExactTree(u, source, visible)
    ensures Ready(s, known, patch, source, target, visible) && Undoable(s, t, patch, target, effect)
            && Favourable(s, known, patch.scope, source, target, visible) ==>
              ExactTree(u, source, visible) && ScopeMatches(u, source, patch.scope) && OutsideKept(s, u, patch.scope)
  {
    hide Ready, Undoable, AllOrNothing, Restorable, ExactTree, ScopeMatches, Recovers, Favourable, OutsideKept,
         LinkCounts, Capture;
    if Ready(s, known, patch, source, target, visible) && OutsideKept(s, t, patch.scope) {
      UndoneWhenRestorable(s, known, t, more, u, patch, source, target, visible, effect);
    }
    if Ready(s, known, patch, source, target, visible) && Undoable(s, t, patch, target, effect)
      && Favourable(s, known, patch.scope, source, target, visible) {
      UndoneExactly(s, known, t, more, u, patch, source, target, visible, effect);
    }
  }

  /** The same file content: kind, bytes, and for a regular file its mode bits. */
  predicate SameFile(a: PathState, b: PathState) {
    || (a.Absent? && b.Absent?)
    || (a.Present? && b.Present? && a.kind == b.kind && a.blob == b.blob && (a.kind == Regular ==> a.mode == b.mode))
  }
}
