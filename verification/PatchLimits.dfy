/** Where the guarded transaction stops: exact conditions under which every state that an
    interrupted git apply can leave is undone, with a failing state for each condition. */
module PatchLimits {
  import opened WorkTree
  import opened PatchRecovery

  // ----- every partial effect can be reached -----

  lemma Bound(taken: set<Ino>) returns (b: Ino)
    ensures forall i | i in taken :: i < b
  {
    b := 0;
    if taken != {} {
      var i :| i in taken;
      var rest := taken - {i};
      var c := Bound(rest);
      b := if i < c then c else i + 1;
      assert forall j | j in taken :: j in rest || j == i;
    }
  }

  /** One name unlinked and bound to a fresh inode, or left unbound. */
  lemma ReplaceOne(s: Snapshot, p: Path, e: Option<Entry>) returns (t: Snapshot)
    requires LinkCounts(s) && Replaceable(StateOf(s, p))
    ensures LinkCounts(t) && TouchesOnly(s, t, p) && StateMatches(StateOf(t, p), e) && t.index == s.index
  {
    hide TouchesOnly, LinkCounts;
    t := s;
    NoStep(s, p);
    if StateOf(s, p).Present? {
      UnlinkKeeps(s, p);
      t := Unlinked(s, p);
    } else {
      AbsentIsFree(s, p);
    }
    if e.Some? {
      var i := Bound(t.inodes.Keys);
      CreateKeeps(t, p, i, e.value);
      TouchTwice(s, t, Created(t, p, i, e.value), p);
      t := Created(t, p, i, e.value);
    }
  }

  lemma AbsentIsFree(s: Snapshot, p: Path)
    requires LinkCounts(s) && StateOf(s, p).Absent?
    ensures p !in s.names
  {
  }

  /** The names in moved carry the entries of w; everything else is as before. */
  lemma MoveNames(s: Snapshot, paths: seq<Path>, moved: set<Path>, w: Tree) returns (t: Snapshot)
    requires LinkCounts(s) && Soles(s, paths) && moved <= SetOf(paths)
    ensures LinkCounts(t) && OutsideKept(s, t, paths) && t.index == s.index
    ensures forall p | p in moved :: StateMatches(StateOf(t, p), EntryOf(w, p))
    ensures forall p | p in paths && p !in moved :: StateOf(t, p) == StateOf(s, p)
  {
    hide OutsideKept, TouchesOnly, LinkCounts, StateMatches, Replaceable;
    OutsideKeptSelf(s, paths);
    t := s;
    if moved != {} {
      var p :| p in moved;
      var r := MoveNames(s, paths, moved - {p}, w);
      forall q | q in paths
        ensures Replaceable(StateOf(r, q))
      {
        if q in moved - {p} {
          MatchIsReplaceable(StateOf(r, q), EntryOf(w, q));
        }
      }
      t := ReplaceOne(r, p, EntryOf(w, p));
      ScopeStep(s, r, t, p, paths);
    }
  }

  lemma MatchIsReplaceable(c: PathState, e: Option<Entry>)
    requires StateMatches(c, e)
    ensures Replaceable(c)
  {
  }

  /** The index with the scope's entries taken from x. */
  function Mixed(index: Tree, x: Tree, paths: seq<Path>): Tree {
    map p | p in index.Keys + x.Keys && (if p in paths then p in x else p in index)
      :: if p in paths then x[p] else index[p]
  }

  /** Any choice of moved names and index entries is one snapshot. */
  lemma Reach(s: Snapshot, paths: seq<Path>, moved: set<Path>, w: Tree, x: Tree) returns (t: Snapshot)
    requires LinkCounts(s) && Soles(s, paths) && moved <= SetOf(paths)
    ensures LinkCounts(t) && OutsideKept(s, t, paths) && t.index == Mixed(s.index, x, paths)
    ensures forall p | p in moved :: StateMatches(StateOf(t, p), EntryOf(w, p))
    ensures forall p | p in paths && p !in moved :: StateOf(t, p) == StateOf(s, p)
    ensures forall p | p in paths :: EntryOf(t.index, p) == EntryOf(x, p)
  {
    var r := MoveNames(s, paths, moved, w);
    hide StateMatches;
    t := r.(index := Mixed(s.index, x, paths));
    forall n: Path | n !in paths
      ensures SameObject(s, t, n) && EntryOf(t.index, n) == EntryOf(s.index, n)
    {
      assert SameObject(s, r, n);
    }
  }

  lemma MixedIsSame(index: Tree, paths: seq<Path>)
    ensures Mixed(index, index, paths) == index
  {
  }

  lemma MixedIsTarget(source: Tree, target: Tree, paths: seq<Path>)
    requires forall p: Path | p !in paths :: EntryOf(source, p) == EntryOf(target, p)
    ensures Mixed(source, target, paths) == target
  {
    forall p: Path
      ensures p in Mixed(source, target, paths) <==> p in target
      ensures p in target ==> Mixed(source, target, paths)[p] == target[p]
    {
      assert p !in paths ==> EntryOf(source, p) == EntryOf(target, p);
    }
  }

  // ----- three families of partial effects that are not undone -----

  /** The index already carries the target and the worktree does not: if a scope path contains
      a stop word, Git's rejection quotes it and recovery stops without acting. */
  lemma MarkedPathIsNotRecovered(s: Snapshot, known: set<Tree>, patch: Patch, source: Tree, target: Tree, p: Path,
                                 visible: Visibility)
    requires LinkCounts(s) && Turns(patch, source, target) && s.index == source && ScopeMatches(s, source, patch.scope)
    requires p in patch.scope && Marked(p)
    ensures var t := s.(index := target);
            && PartialEffect(s, t, patch.post, patch.scope)
            && !Restorable(t, known, patch.scope, source, target, Capture(s, patch.scope), None, visible)
  {
    hide Marked, Guard;
    var t := s.(index := target);
    DiffOutside(patch.scope, source, target);
    assert StateOf(t, p) == StateOf(s, p) && EntryOf(source, p) != EntryOf(target, p);
    ExactIsGitClean(StateOf(s, p), EntryOf(source, p));
    if GitMatches(StateOf(s, p), EntryOf(target, p)) {
      GitMatchIsUnique(StateOf(s, p), EntryOf(source, p), EntryOf(target, p));
    }
    assert !PreimageHolds(t, target, p);
    assert RejectionMarked(t, target, patch.scope);
  }

  /** The candidate tree object does not exist, as in a fresh clone before git write-tree has
      made it: a git apply stopped after one worktree write cannot be undone there. */
  lemma UnknownTreeIsNotRecovered(s: Snapshot, known: set<Tree>, patch: Patch, source: Tree, target: Tree, p: Path,
                                  visible: Visibility) returns (t: Snapshot)
    requires LinkCounts(s) && Turns(patch, source, target) && s.index == source && ScopeMatches(s, source, patch.scope)
    requires p in patch.scope && target !in known
    ensures PartialEffect(s, t, patch.post, patch.scope)
    ensures !Restorable(t, known, patch.scope, source, target, Capture(s, patch.scope), None, visible)
  {
    MatchedAreSoles(s, source, patch.scope);
    t := Reach(s, patch.scope, {p}, target, source);
    MixedIsSame(source, patch.scope);
    ReachedIsPartial(s, t, patch, source, target, {p}, false);
    assert EntryOf(source, p) != EntryOf(target, p) && StateMatches(StateOf(t, p), EntryOf(target, p));
    if StateMatches(StateOf(t, p), EntryOf(source, p)) {
      ExactIsGitClean(StateOf(t, p), EntryOf(source, p));
      ExactIsGitClean(StateOf(t, p), EntryOf(target, p));
      GitMatchIsUnique(StateOf(t, p), EntryOf(source, p), EntryOf(target, p));
    }
    assert source != target;
  }

  /** Some moved names and an unchanged or a complete index form a partial effect. */
  lemma ReachedIsPartial(s: Snapshot, t: Snapshot, patch: Patch, source: Tree, target: Tree, moved: set<Path>,
                         indexed: bool)
    requires Turns(patch, source, target) && s.index == source
    requires LinkCounts(t) && OutsideKept(s, t, patch.scope) && moved <= SetOf(patch.scope)
    requires forall p | p in moved :: StateMatches(StateOf(t, p), EntryOf(target, p))
    requires forall p | p in patch.scope && p !in moved :: StateOf(t, p) == StateOf(s, p)
    requires forall p | p in patch.scope :: EntryOf(t.index, p) == EntryOf(if indexed then target else source, p)
    ensures PartialEffect(s, t, patch.post, patch.scope)
  {
  }

  lemma AddedOnly(s: Snapshot, t: Snapshot, source: Tree, paths: seq<Path>, a: set<Path>)
    requires LinkCounts(s) && LinkCounts(t) && OutsideKept(s, t, paths) && s.index == t.index == source
             && TrackedClean(s)
    requires a <= AddedPaths(paths, source) && forall p | p in paths && p !in a :: StateOf(t, p) == StateOf(s, p)
    ensures TrackedClean(t) && forall p | p in t.names :: p in a || p in s.names
  {
    forall p | p !in a
      ensures p in t.names ==> p in s.names
      ensures p in source ==> GitMatches(StateOf(t, p), Some(source[p]))
    {
      assert p in source ==> GitMatches(StateOf(s, p), Some(s.index[p]));
      if p !in paths {
        assert SameObject(s, t, p);
      }
    }
  }

  /** Added files that Git lists neither themselves nor by anything they bring into sight:
      once git apply has created them but no index entry, Git calls the worktree an exact
      source tree and recovery leaves them. */
  lemma HiddenAddedPathIsLeft(s: Snapshot, known: set<Tree>, patch: Patch, source: Tree, target: Tree, a: set<Path>,
                              visible: Visibility) returns (t: Snapshot)
    requires LinkCounts(s) && Turns(patch, source, target) && ExactTree(s, source, visible)
             && ScopeMatches(s, source, patch.scope)
    requires a != {} && a <= AddedPaths(patch.scope, source) && !Shows(s, target, a, visible)
    ensures PartialEffect(s, t, patch.post, patch.scope) && ExactTree(t, source, visible)
    ensures !Restorable(t, known, patch.scope, source, target, Capture(s, patch.scope), None, visible)
  {
    hide RulesOf, RulesWith, GitMatches;
    MatchedAreSoles(s, source, patch.scope);
    t := Reach(s, patch.scope, a, target, source);
    MixedIsSame(source, patch.scope);
    ReachedIsPartial(s, t, patch, source, target, a, false);
    RulesAfter(s, t, target, patch.scope, a);
    AddedOnly(s, t, source, patch.scope, a);
    forall p | p in t.names && visible(RulesOf(t), p)
      ensures p in t.index
    {
      assert p !in a + Untracked(s);
    }
    var q :| q in a;
    assert q in patch.scope && q !in source && EntryOf(source, q) != EntryOf(target, q);
    assert StateMatches(StateOf(t, q), EntryOf(target, q));
  }

  /** Favourable conditions are exactly those under which every state that a stopped git apply
      can leave is restorable. */
  lemma FavourableIsExact(s: Snapshot, known: set<Tree>, patch: Patch, source: Tree, target: Tree, visible: Visibility)
    requires LinkCounts(s) && Ready(s, known, patch, source, target, visible) && patch.scope != []
    ensures Favourable(s, known, patch.scope, source, target, visible) <==>
              forall t | PartialEffect(s, t, patch.post, patch.scope) ::
                Restorable(t, known, patch.scope, source, target, Capture(s, patch.scope), None, visible)
  {
    hide ExactTree, Marked, PartialEffect, ScopeMatches, Shows, Recovers;
    ReadyGives(s, known, patch, source, target, visible);
    if Favourable(s, known, patch.scope, source, target, visible) {
      forall t | PartialEffect(s, t, patch.post, patch.scope)
        ensures Restorable(t, known, patch.scope, source, target, Capture(s, patch.scope), None, visible)
      {
        FavourableRestores(s, known, t, patch, source, target, visible);
      }
    } else if target !in known {
      var t := UnknownTreeIsNotRecovered(s, known, patch, source, target, patch.scope[0], visible);
    } else if p :| p in patch.scope && Marked(p) {
      MarkedPathIsNotRecovered(s, known, patch, source, target, p, visible);
    } else {
      var a: set<Path> :| a != {} && a <= AddedPaths(patch.scope, source) && !Shows(s, target, a, visible);
      var t := HiddenAddedPathIsLeft(s, known, patch, source, target, a, visible);
    }
  }

  lemma FavourableRestores(s: Snapshot, known: set<Tree>, t: Snapshot, patch: Patch, source: Tree, target: Tree,
                           visible: Visibility)
    requires LinkCounts(s) && Ready(s, known, patch, source, target, visible)
    requires Favourable(s, known, patch.scope, source, target, visible) && PartialEffect(s, t, patch.post, patch.scope)
    ensures Restorable(t, known, patch.scope, source, target, Capture(s, patch.scope), None, visible)
  {
    hide ExactTree, Marked, PartialEffect, Shows, ScopeMatches, Recovers, PreimageHolds;
    ReadyGives(s, known, patch, source, target, visible);
    if ExactTree(t, source, visible) {
      ExactPartialIsSource(s, t, patch, source, target, visible);
    } else {
      PartialEffectRecoverable(s, t, known, patch, source, target, None);
    }
  }

  /** The exact outcome in a fresh clone, where the target tree object is unknown until git
      write-tree has made it from a complete index: a state left by a run that was not
      interrupted in the drift window is restorable if and only if its scope is the source's, or
      it is undoable, its index is complete and every path with a stop word has been written. */
  lemma FreshCloneOutcome(s: Snapshot, known: set<Tree>, t: Snapshot, more: set<Tree>, patch: Patch, source: Tree,
                          target: Tree, effect: Option<States>, visible: Visibility)
    requires LinkCounts(s) && Ready(s, known, patch, source, target, visible) && source in more
    requires target in more ==> t.index == target
    requires Reached(s, known, t, patch, target, effect, visible, false)
    ensures Restorable(t, more, patch.scope, source, target, Capture(s, patch.scope), effect, visible) <==>
              || ScopeMatches(t, source, patch.scope)
              || (Undoable(s, t, patch, target, effect) && t.index == target && !MarkedLeft(s, t, patch.scope))
  {
    hide ExactTree, MarkedLeft, ScopeMatches, Restorable, LinkCounts, Capture, Reached, Undoable;
    ReadyGives(s, known, patch, source, target, visible);
    ReachedOutcome(s, known, t, more, patch, source, target, visible, effect);
    if t.index == target {
      NotBoth(t, source, target, patch.scope, visible);
    }
  }

  /** A patch that deletes the only ignore file of a worktree, in which that file hides a build
      output: the target is applied exactly and is still no exact tree. */
  lemma DroppedRuleIsSeen(output: Path)
    requires output != ".gitignore"
    ensures var rule := Entry(Plain, output);
            var source: Tree, target: Tree := map[".gitignore" := rule], map[];
            var visible: Visibility := (rules, p) => !(".gitignore" in rules && rules[".gitignore"] == p);
            var s := Snapshot(map[".gitignore" := 0, output := 1],
                              map[0 := Inode(Regular, PLAIN_BITS, output, 1), 1 := Inode(Regular, PLAIN_BITS, "", 1)],
                              source);
            && Ready(s, {source}, Patch([".gitignore"], source, target), source, target, visible)
            && !StaysHidden(s, target, [".gitignore"], visible)
  {
    var visible: Visibility := (rules, p) => !(".gitignore" in rules && rules[".gitignore"] == p);
    var source: Tree := map[".gitignore" := Entry(Plain, output)];
    var s := Snapshot(map[".gitignore" := 0, output := 1],
                      map[0 := Inode(Regular, PLAIN_BITS, output, 1), 1 := Inode(Regular, PLAIN_BITS, "", 1)], source);
    ExactIsGitClean(StateOf(s, ".gitignore"), Some(source[".gitignore"]));
    assert RulesOf(s)[".gitignore"] == output;
    assert ".gitignore" !in RulesWith(s, map[], SetOf([".gitignore"]));
    assert visible(RulesWith(s, map[], SetOf([".gitignore"])), output);
  }

  // ----- names caught between unlink and creation -----

  /** As a partial effect, and a name may also be unlinked and not yet created again. */
  ghost predicate TornEffect(s: Snapshot, t: Snapshot, post: Tree, paths: seq<Path>) {
    && LinkCounts(t) && OutsideKept(s, t, paths)
    && forall p | p in paths ::
         || PartialAt(s, t, post, p)
         || (StateOf(t, p).Absent?
             && (EntryOf(t.index, p) == EntryOf(s.index, p) || EntryOf(t.index, p) == EntryOf(post, p)))
  }

  /** A modified path found absent belongs to neither tree: recovery leaves it. */
  lemma TornNameIsNotRecovered(s: Snapshot, t: Snapshot, known: set<Tree>, paths: seq<Path>, source: Tree, target: Tree,
                               p: Path, visible: Visibility)
    requires ScopeMatches(s, source, paths) && p in paths && p in source && p in target && StateOf(t, p).Absent?
    ensures !Restorable(t, known, paths, source, target, Capture(s, paths), None, visible)
  {
    assert StateMatches(StateOf(s, p), EntryOf(source, p));
    assert !WorktreeOwned(t, p, source, target, Some(Capture(s, paths)), None);
  }

  /** Under favourable conditions torn effects are all restorable if and only if the patch
      modifies no path, that is, only adds and deletes. */
  lemma WholeIsExact(s: Snapshot, known: set<Tree>, patch: Patch, source: Tree, target: Tree, visible: Visibility)
    requires LinkCounts(s) && Ready(s, known, patch, source, target, visible)
    requires Favourable(s, known, patch.scope, source, target, visible)
    ensures NoModified(source, target, patch.scope) <==>
              forall t | TornEffect(s, t, patch.post, patch.scope) ::
                Restorable(t, known, patch.scope, source, target, Capture(s, patch.scope), None, visible)
  {
    hide ExactTree, Marked, Favourable, Recovers, Restorable;
    ReadyGives(s, known, patch, source, target, visible);
    if NoModified(source, target, patch.scope) {
      forall t | TornEffect(s, t, patch.post, patch.scope)
        ensures Restorable(t, known, patch.scope, source, target, Capture(s, patch.scope), None, visible)
      {
        TornIsPartial(s, t, patch, source, target);
        FavourableRestores(s, known, t, patch, source, target, visible);
      }
    } else {
      var p :| p in patch.scope && p in source && p in target;
      MatchedAreSoles(s, source, patch.scope);
      var t := Reach(s, patch.scope, {p}, map[], source);
      TornNameIsNotRecovered(s, t, known, patch.scope, source, target, p, visible);
      hide StateMatches;
      assert TornEffect(s, t, patch.post, patch.scope);
    }
  }

  lemma TornIsPartial(s: Snapshot, t: Snapshot, patch: Patch, source: Tree, target: Tree)
    requires Turns(patch, source, target) && ScopeMatches(s, source, patch.scope)
    requires TornEffect(s, t, patch.post, patch.scope) && NoModified(source, target, patch.scope)
    ensures PartialEffect(s, t, patch.post, patch.scope)
  {
    forall p | p in patch.scope
      ensures PartialAt(s, t, patch.post, p)
    {
      assert EntryOf(patch.post, p) == EntryOf(target, p) && StateMatches(StateOf(s, p), EntryOf(source, p));
    }
  }

  // ----- mode drift between a finished git apply and its normalisation -----

  /** A finished git apply that drifted at one path, in the worktree or in the index. */
  lemma DriftAt(s: Snapshot, patch: Patch, source: Tree, target: Tree, p: Path, worktree: bool) returns (t: Snapshot)
    requires LinkCounts(s) && Turns(patch, source, target) && s.index == source && ScopeMatches(s, source, patch.scope)
    requires p in patch.scope && p in target && target[p].mode != Link
    ensures LinkCounts(t) && FinishedEffect(s, t, patch.post, patch.scope) && EntryOf(source, p) != EntryOf(target, p)
    ensures StateMatches(StateOf(t, p), if worktree then Flip(EntryOf(target, p)) else EntryOf(target, p))
    ensures EntryOf(t.index, p) == if worktree then EntryOf(target, p) else Flip(EntryOf(target, p))
    ensures worktree ==> t.index == target
  {
    hide LinkCounts, OutsideKept;
    MatchedAreSoles(s, source, patch.scope);
    DiffOutside(patch.scope, source, target);
    MixedIsTarget(source, target, patch.scope);
    var other := target[p := Flip(EntryOf(target, p)).value];
    t := Reach(s, patch.scope, SetOf(patch.scope), if worktree then other else target,
               if worktree then target else other);
    hide StateMatches;
    forall q | q in patch.scope
      ensures EntryOf(patch.post, q) == EntryOf(target, q)
      ensures EntryOf(other, q) == if q == p then Flip(EntryOf(target, q)) else EntryOf(target, q)
    {
    }
  }

  lemma FlipDiffers(c: PathState, e: Option<Entry>)
    requires e.Some? && e.value.mode != Link && StateMatches(c, Flip(e))
    ensures Flip(e) != e && !GitMatches(c, e) && !StateMatches(c, e)
  {
    ExactIsGitClean(c, Flip(e));
    if GitMatches(c, e) {
      GitMatchIsUnique(c, e, Flip(e));
    }
    if StateMatches(c, e) {
      ExactIsGitClean(c, e);
    }
  }

  /** Every regular target path only changes its mode, has a readable target tree and no stop
      word. */
  predicate DriftSafe(known: set<Tree>, paths: seq<Path>, source: Tree, target: Tree) {
    forall p | p in paths && p in target && target[p].mode != Link ::
      && target in known && !Marked(p)
      && p in source && source[p].mode != Link && source[p].blob == target[p].blob
  }

  /** Interrupted before the effect is captured, every finished git apply is restorable, however
      it drifted, if and only if the patch is drift safe. */
  lemma DriftSafeIsExact(s: Snapshot, known: set<Tree>, patch: Patch, source: Tree, target: Tree, visible: Visibility)
    requires LinkCounts(s) && Ready(s, known, patch, source, target, visible)
    ensures DriftSafe(known, patch.scope, source, target) <==>
              forall t | FinishedEffect(s, t, patch.post, patch.scope) ::
                Restorable(t, known, patch.scope, source, target, Capture(s, patch.scope), None, visible)
  {
    hide Marked, Restorable, FinishedEffect, Turns, ScopeMatches, ExactTree;
    ReadyGives(s, known, patch, source, target, visible);
    if DriftSafe(known, patch.scope, source, target) {
      forall t | FinishedEffect(s, t, patch.post, patch.scope)
        ensures Restorable(t, known, patch.scope, source, target, Capture(s, patch.scope), None, visible)
      {
        DriftSafeRestores(s, known, t, patch, source, target, visible);
      }
    } else {
      var p :| p in patch.scope && p in target && target[p].mode != Link
               && !(&& target in known && !Marked(p)
                    && p in source && source[p].mode != Link && source[p].blob == target[p].blob);
      var t := DriftAt(s, patch, source, target, p, target in known);
      UnsafeDriftIsLost(s, known, t, patch, source, target, p, visible);
    }
  }

  /** A path carries, in the worktree and in the index, an exact entry of one of the trees. */
  predicate EitherWay(t: Snapshot, source: Tree, target: Tree, p: Path) {
    && (StateMatches(StateOf(t, p), EntryOf(target, p)) || StateMatches(StateOf(t, p), EntryOf(source, p)))
    && (EntryOf(t.index, p) == EntryOf(target, p) || EntryOf(t.index, p) == EntryOf(source, p))
    && (Marked(p) ==> StateMatches(StateOf(t, p), EntryOf(target, p)))
    && (EntryOf(t.index, p) == EntryOf(source, p) ==> p in source)
  }

  lemma SafeDriftIsEitherWay(s: Snapshot, known: set<Tree>, t: Snapshot, patch: Patch, source: Tree, target: Tree,
                             p: Path)
    requires Turns(patch, source, target) && FinishedEffect(s, t, patch.post, patch.scope) && p in patch.scope
    requires DriftSafe(known, patch.scope, source, target)
    ensures EitherWay(t, source, target, p)
  {
    hide Marked, OutsideKept, LinkCounts, StateMatches;
    DriftGoesBack(p, source, target);
    assert EntryOf(patch.post, p) == EntryOf(target, p) && EntryOf(source, p) != EntryOf(target, p);
  }

  /** A scope that carries exact entries of the two trees, stop words clean, is restorable. */
  lemma EitherWayRestores(s: Snapshot, known: set<Tree>, t: Snapshot, paths: seq<Path>, source: Tree, target: Tree,
                          visible: Visibility)
    requires (forall p | p in paths :: EitherWay(t, source, target, p)) && IsDiff(paths, source, target)
    requires source in known && (target in known || t.index == target)
    ensures Restorable(t, known, paths, source, target, Capture(s, paths), None, visible)
  {
    hide Marked, ExactTree, StateMatches, GitMatches;
    forall p | p in paths && Marked(p)
      ensures GitMatches(StateOf(t, p), EntryOf(target, p))
    {
      assert EitherWay(t, source, target, p);
      ExactIsGitClean(StateOf(t, p), EntryOf(target, p));
    }
    forall p | p in paths
      ensures WorktreeOwned(t, p, source, target, Some(Capture(s, paths)), None)
              && IndexOwned(t, p, source, target, true)
    {
      assert EitherWay(t, source, target, p);
    }
    if ExactTree(t, source, visible) {
      IndexIsSource(t, source, visible);
      forall p | p in paths
        ensures p in source
      {
        assert EitherWay(t, source, target, p);
      }
      ExactScope(t, source, target, paths, visible);
    }
  }

  lemma DriftSafeRestores(s: Snapshot, known: set<Tree>, t: Snapshot, patch: Patch, source: Tree, target: Tree,
                          visible: Visibility)
    requires LinkCounts(s) && Ready(s, known, patch, source, target, visible)
    requires FinishedEffect(s, t, patch.post, patch.scope) && DriftSafe(known, patch.scope, source, target)
    ensures Restorable(t, known, patch.scope, source, target, Capture(s, patch.scope), None, visible)
  {
    hide EitherWay, FinishedEffect, DriftSafe, Restorable, LinkCounts;
    ReadyGives(s, known, patch, source, target, visible);
    FinishedIndex(s, known, t, patch, source, target);
    forall p | p in patch.scope
      ensures EitherWay(t, source, target, p)
    {
      SafeDriftIsEitherWay(s, known, t, patch, source, target, p);
    }
    EitherWayRestores(s, known, t, patch.scope, source, target, visible);
  }

  lemma IndexIsSource(t: Snapshot, source: Tree, visible: Visibility)
    requires ExactTree(t, source, visible)
    ensures t.index == source
  {
  }

  /** The flipped entry of a mode change is the source's. */
  lemma DriftGoesBack(p: Path, source: Tree, target: Tree)
    ensures p in target && p in source && target[p].mode != Link && source[p].mode != Link
            && source[p].blob == target[p].blob && source[p] != target[p] ==>
              Flip(EntryOf(target, p)) == EntryOf(source, p)
    ensures p !in target || target[p].mode == Link ==> Flip(EntryOf(target, p)) == EntryOf(target, p)
  {
  }

  lemma FinishedIndex(s: Snapshot, known: set<Tree>, t: Snapshot, patch: Patch, source: Tree, target: Tree)
    requires Turns(patch, source, target) && s.index == source && FinishedEffect(s, t, patch.post, patch.scope)
    requires DriftSafe(known, patch.scope, source, target)
    ensures target in known || t.index == target
  {
    hide Marked;
    if target !in known {
      assert NoRegular(patch.post, patch.scope) by {
        assert forall p | p in patch.scope :: EntryOf(patch.post, p) == EntryOf(target, p);
      }
      NothingDrifts(t, patch.post, patch.scope);
      FinishedExactly(s, t, patch, source, target);
    }
  }

  /** A scope of exact source or target copies that Git calls clean for the source is exact. */
  lemma ExactScope(t: Snapshot, source: Tree, target: Tree, paths: seq<Path>, visible: Visibility)
    requires ExactTree(t, source, visible) && IsDiff(paths, source, target)
    requires forall p | p in paths ::
               && p in source
               && (StateMatches(StateOf(t, p), EntryOf(target, p)) || StateMatches(StateOf(t, p), EntryOf(source, p)))
    ensures ScopeMatches(t, source, paths)
  {
    forall p | p in paths
      ensures StateMatches(StateOf(t, p), EntryOf(source, p))
    {
      assert GitMatches(StateOf(t, p), Some(t.index[p])) && EntryOf(source, p) != EntryOf(target, p);
      if StateMatches(StateOf(t, p), EntryOf(target, p)) {
        ExactIsGitClean(StateOf(t, p), EntryOf(target, p));
        GitMatchIsUnique(StateOf(t, p), EntryOf(source, p), EntryOf(target, p));
      }
    }
  }

  /** Drift at a path that is not drift safe is lost. */
  lemma UnsafeDriftIsLost(s: Snapshot, known: set<Tree>, t: Snapshot, patch: Patch, source: Tree, target: Tree, p: Path,
                          visible: Visibility)
    requires Turns(patch, source, target) && ScopeMatches(s, source, patch.scope)
    requires p in patch.scope && p in target && target[p].mode != Link
    requires !DriftSafe(known, [p], source, target)
    requires if target in known then
               t.index == target && StateMatches(StateOf(t, p), Flip(EntryOf(target, p)))
             else
               EntryOf(t.index, p) == Flip(EntryOf(target, p)) && StateMatches(StateOf(t, p), EntryOf(target, p))
    ensures !Restorable(t, known, patch.scope, source, target, Capture(s, patch.scope), None, visible)
  {
    hide Marked;
    var c := StateOf(t, p);
    assert EntryOf(source, p) != EntryOf(target, p) && StateMatches(StateOf(s, p), EntryOf(source, p));
    if target in known {
      FlipDiffers(c, EntryOf(target, p));
      if Marked(p) {
        assert !PreimageHolds(t, target, p);
      } else {
        if StateMatches(c, EntryOf(source, p)) {
          ExactIsGitClean(c, EntryOf(source, p));
          ExactIsGitClean(c, Flip(EntryOf(target, p)));
          GitMatchIsUnique(c, EntryOf(source, p), Flip(EntryOf(target, p)));
        }
        assert !WorktreeOwned(t, p, source, target, Some(Capture(s, patch.scope)), None);
      }
    } else {
      ExactIsGitClean(c, EntryOf(target, p));
      if p in source && GitMatches(c, EntryOf(source, p)) {
        GitMatchIsUnique(c, EntryOf(source, p), EntryOf(target, p));
      }
      assert t.index != target;
    }
  }

  // ----- the rest of the window -----

  /** Interrupted while a captured drifted effect is being normalised, everything is restorable
      if and only if the patch has no regular post-image, so that nothing can drift. */
  lemma SteadyIsExact(s: Snapshot, known: set<Tree>, patch: Patch, source: Tree, target: Tree, visible: Visibility)
    requires LinkCounts(s) && Ready(s, known, patch, source, target, visible)
    ensures NoRegular(target, patch.scope) <==>
              forall t, u | FinishedEffect(s, t, patch.post, patch.scope) && Underway(t, u, target, patch.scope) ::
                Restorable(u, known, patch.scope, source, target,
                           Capture(s, patch.scope), Some(Capture(t, patch.scope)), visible)
  {
    hide Restorable, FinishedEffect, Turns, ScopeMatches, ExactTree, Rewritten;
    ReadyGives(s, known, patch, source, target, visible);
    if NoRegular(target, patch.scope) {
      forall t, u | FinishedEffect(s, t, patch.post, patch.scope) && Underway(t, u, target, patch.scope)
        ensures Restorable(u, known, patch.scope, source, target,
                           Capture(s, patch.scope), Some(Capture(t, patch.scope)), visible)
      {
        SteadyRestores(s, known, t, patch, source, target, visible);
        assert u == t;
      }
    } else {
      var p :| p in patch.scope && p in target && target[p].mode != Link;
      var t := DriftAt(s, patch, source, target, p, true);
      NormalisedInPlaceIsLost(known, t, patch.scope, source, target, p, Capture(s, patch.scope), visible);
    }
  }

  lemma SteadyRestores(s: Snapshot, known: set<Tree>, t: Snapshot, patch: Patch, source: Tree, target: Tree,
                       visible: Visibility)
    requires LinkCounts(s) && Ready(s, known, patch, source, target, visible)
    requires NoRegular(target, patch.scope) && FinishedEffect(s, t, patch.post, patch.scope)
    ensures t.index == target && ScopeMatches(t, target, patch.scope)
    ensures Restorable(t, known, patch.scope, source, target,
                       Capture(s, patch.scope), Some(Capture(t, patch.scope)), visible)
  {
    hide LinkCounts, OutsideKept, ExactTree, StateMatches;
    ReadyGives(s, known, patch, source, target, visible);
    assert NoRegular(patch.post, patch.scope) by {
      assert forall p | p in patch.scope :: EntryOf(patch.post, p) == EntryOf(target, p);
    }
    NothingDrifts(t, patch.post, patch.scope);
    FinishedExactly(s, t, patch, source, target);
    SettledIsRestorable(s, t, known, patch, source, target, visible, Some(Capture(t, patch.scope)));
  }

  /** Once a captured drifted file is rewritten with its target mode it is no longer the
      captured object, and recovery takes it for a foreign replacement. */
  lemma NormalisedInPlaceIsLost(known: set<Tree>, t: Snapshot, paths: seq<Path>, source: Tree, target: Tree, p: Path,
                                before: States, visible: Visibility)
    requires LinkCounts(t) && p in paths && p in target && target[p].mode != Link
    requires t.index == target && EntryOf(source, p) != EntryOf(target, p)
    requires StateMatches(StateOf(t, p), Flip(EntryOf(target, p)))
    ensures p in t.names && t.names[p] in t.inodes && Underway(t, Rewritten(t, p, target[p]), target, paths)
    ensures !Restorable(Rewritten(t, p, target[p]), known, paths, source, target, before, Some(Capture(t, paths)),
                        visible)
  {
    var u := RewrittenUnderway(t, paths, target, p);
    hide LinkCounts, Underway;
    assert StateOf(u, p).mode != StateOf(t, p).mode;
    assert !WorktreeOwned(u, p, source, target, Some(before), Some(Capture(t, paths)));
    assert u.index != source;
  }

  lemma RewrittenUnderway(t: Snapshot, paths: seq<Path>, target: Tree, p: Path) returns (u: Snapshot)
    requires LinkCounts(t) && p in paths && p in target && target[p].mode != Link
    requires StateMatches(StateOf(t, p), Flip(EntryOf(target, p)))
    ensures p in t.names && t.names[p] in t.inodes && u == Rewritten(t, p, target[p])
    ensures Underway(t, u, target, paths)
  {
    u := Rewritten(t, p, target[p]);
    RewriteKeeps(t, p, target[p]);
    OutsideKeptSelf(t, paths);
    TouchInside(t, t, u, p, paths);
    FlipDiffers(StateOf(t, p), EntryOf(target, p));
    forall q | q in paths
      ensures PartialAt(t, u, target, q)
    {
      if q != p && q in t.names && t.names[q] == t.names[p] {
        SoleName(t, p, q);
      }
    }
  }

  // ----- drift and something coming into sight -----

  /** No interruption is needed: with something in sight, a drift at any one regular path is
      normalised to a complete target scope, which the tool rejects and cannot undo. */
  lemma SightedDriftIsLost(s: Snapshot, known: set<Tree>, patch: Patch, source: Tree, target: Tree, p: Path,
                           visible: Visibility) returns (t: Snapshot, u: Snapshot)
    requires LinkCounts(s) && Ready(s, known, patch, source, target, visible)
    requires p in patch.scope && p in target && target[p].mode != Link
    requires !StaysHidden(s, target, patch.scope, visible)
    ensures FinishedEffect(s, t, patch.post, patch.scope) && Completed(t, u, target, patch.scope)
    ensures Sighted(s, u, patch, target, Some(Capture(t, patch.scope)), visible) && !ExactTree(u, target, visible)
    ensures !Restorable(u, known, patch.scope, source, target,
                        Capture(s, patch.scope), Some(Capture(t, patch.scope)), visible)
  {
    hide LinkCounts, OutsideKept, StaysHidden, ExactTree, Restorable;
    ReadyGives(s, known, patch, source, target, visible);
    t := DriftAt(s, patch, source, target, p, true);
    DriftsAreSoles(t, patch.post, patch.scope);
    u := Reach(t, patch.scope, SetOf(patch.scope), target, target);
    MixedIsSame(target, patch.scope);
    OutsideKeptTransitive(s, t, u, patch.scope);
    FlipDiffers(StateOf(t, p), EntryOf(target, p));
    assert StateOf(u, p) != StateOf(t, p) && Capture(u, patch.scope)[p] != Capture(t, patch.scope)[p];
    hide StateMatches;
    assert ScopeMatches(u, target, patch.scope) && !ScopeMatches(t, target, patch.scope);
    ExactAfter(s, u, source, target, patch.scope, visible);
    SightedOutcome(s, known, u, patch, source, target, visible, Some(Capture(t, patch.scope)));
  }

  /** With something in sight, every end of a normalisation is restorable if and only if the
      patch has no regular post-image, so that nothing can drift. */
  lemma SightedIsExact(s: Snapshot, known: set<Tree>, patch: Patch, source: Tree, target: Tree, visible: Visibility)
    requires LinkCounts(s) && Ready(s, known, patch, source, target, visible)
    requires !StaysHidden(s, target, patch.scope, visible)
    ensures NoRegular(target, patch.scope) <==>
              forall t, u | FinishedEffect(s, t, patch.post, patch.scope) && Completed(t, u, target, patch.scope) ::
                Restorable(u, known, patch.scope, source, target,
                           Capture(s, patch.scope), Some(Capture(t, patch.scope)), visible)
  {
    hide LinkCounts, StaysHidden, ExactTree, Restorable, StateMatches, OutsideKept;
    ReadyGives(s, known, patch, source, target, visible);
    if NoRegular(target, patch.scope) {
      forall t, u | FinishedEffect(s, t, patch.post, patch.scope) && Completed(t, u, target, patch.scope)
        ensures Restorable(u, known, patch.scope, source, target,
                           Capture(s, patch.scope), Some(Capture(t, patch.scope)), visible)
      {
        SteadyRestores(s, known, t, patch, source, target, visible);
      }
    } else {
      var p :| p in patch.scope && p in target && target[p].mode != Link;
      var t, u := SightedDriftIsLost(s, known, patch, source, target, p, visible);
    }
  }

  /** A drifted index in a fresh clone: the target tree object cannot exist, so neither the
      normalisation nor any recovery can act. */
  lemma DriftInFreshCloneIsStuck(s: Snapshot, known: set<Tree>, t: Snapshot, patch: Patch, source: Tree, target: Tree,
                                 effect: Option<States>, visible: Visibility)
    requires Ready(s, known, patch, source, target, visible) && FinishedEffect(s, t, patch.post, patch.scope)
    requires target !in known && !ScopeMatches(t, patch.post, patch.scope)
    ensures Guard(t, known + {t.index}, patch.scope, target, source, None, Some(Capture(t, patch.scope)), true)
            <==> t.index == target
    ensures t.index != target ==> !Recovers(t, known, patch.scope, source, target, Some(Capture(s, patch.scope)),
                                            effect)
  {
    FinishedIsRepairable(s, t, known, known, patch, source, target, visible);
  }

  // ----- two drifted inputs -----

  const OLD: Entry := Entry(Plain, "old")
  const NEW: Entry := Entry(Plain, "new")

  /** A replaced file that becomes executable, recreated without the execute bit: lost. */
  lemma DriftOfNewContentIsLost(name: Path, visible: Visibility)
    ensures var source, target := map[name := OLD], map[name := NEW.(mode := Executable)];
            var patch := Patch([name], source, target);
            var s := Snapshot(map[name := 0], map[0 := Inode(Regular, PLAIN_BITS, "old", 1)], source);
            var t := Snapshot(map[name := 1],
                              map[0 := Inode(Regular, PLAIN_BITS, "old", 0), 1 := Inode(Regular, PLAIN_BITS, "new", 1)],
                              map[name := NEW]);
            && Turns(patch, source, target) && ScopeMatches(s, source, [name]) && FinishedEffect(s, t, target, [name])
            && !Restorable(t, {source, target}, [name], source, target, Capture(s, [name]), None, visible)
  {
    var source, target := map[name := OLD], map[name := NEW.(mode := Executable)];
    var s := Snapshot(map[name := 0], map[0 := Inode(Regular, PLAIN_BITS, "old", 1)], source);
    var t := Snapshot(map[name := 1],
                      map[0 := Inode(Regular, PLAIN_BITS, "old", 0), 1 := Inode(Regular, PLAIN_BITS, "new", 1)],
                      map[name := NEW]);
    assert NamesOf(t.names, 1) == {name} && NamesOf(t.names, 0) == {};
    assert !IndexOwned(t, name, source, target, true);
    assert source[name] != target[name];
  }

  /** A mode change that drifts back is the source again: kept. */
  lemma DriftOfModeIsKept(name: Path, visible: Visibility)
    ensures var source, target := map[name := OLD], map[name := OLD.(mode := Executable)];
            var patch := Patch([name], source, target);
            var s := Snapshot(map[name := 0], map[0 := Inode(Regular, PLAIN_BITS, "old", 1)], source);
            var t := Snapshot(map[name := 1],
                              map[0 := Inode(Regular, PLAIN_BITS, "old", 0), 1 := Inode(Regular, PLAIN_BITS, "old", 1)],
                              source);
            && Turns(patch, source, target) && ScopeMatches(s, source, [name]) && FinishedEffect(s, t, target, [name])
            && Restorable(t, {source, target}, [name], source, target, Capture(s, [name]), None, visible)
  {
    var source, target := map[name := OLD], map[name := OLD.(mode := Executable)];
    var s := Snapshot(map[name := 0], map[0 := Inode(Regular, PLAIN_BITS, "old", 1)], source);
    var t := Snapshot(map[name := 1],
                      map[0 := Inode(Regular, PLAIN_BITS, "old", 0), 1 := Inode(Regular, PLAIN_BITS, "old", 1)],
                      source);
    assert NamesOf(t.names, 1) == {name} && NamesOf(t.names, 0) == {};
    assert source[name] != target[name];
  }
}
