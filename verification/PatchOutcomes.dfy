/** What whole runs of the guarded transaction come to where nothing else interferes. */
module PatchOutcomes {
  import opened WorkTree
  import opened PatchRecovery
  import opened PatchLimits
  import opened PatchTransaction

  /** In a fresh clone, whatever signal or fault arrives outside the drift window: a run that
      fails, and is not interrupted again while it recovers, has the source back if and only if
      the state it found was the source's scope, or an undoable state with a complete index and
      no path with a stop word left to write. */
  method RunInFreshClone(repo: Repository, patch: Patch, source: Tree, target: Tree)
    returns (o: Outcome, ghost tried: Option<Tried>)
    requires LinkCounts(repo.Snap()) && repo.Scenario() && NoDuplicates(patch.scope) && repo.recordLength > 0
    requires repo.Alone() && repo.Whole(patch) && Turns(patch, source, target)
    requires target !in repo.known + {repo.index}
    modifies repo
    ensures o.Failed? && tried.Some? && tried.value.calm && !repo.driftLost ==>
              var found := tried.value.found;
              (ScopeMatches(repo.Snap(), source, patch.scope) <==>
                 || ScopeMatches(found, source, patch.scope)
                 || (&& Undoable(old(repo.Snap()), found, patch, target, tried.value.effect)
                     && found.index == target && !MarkedLeft(old(repo.Snap()), found, patch.scope)))
    ensures OutsideKept(old(repo.Snap()), repo.Snap(), patch.scope)
  {
    hide ExactTree, ScopeMatches, Turns, Restorable, Undoable, MarkedLeft, OutsideKept, LinkCounts, AllOrNothing,
         StaysHidden, Favourable, Capture;
    ghost var s, known := repo.Snap(), repo.known + {repo.index};
    o, tried := repo.Guarded(patch, source, target);
    if o.Failed? && tried.Some? && tried.value.calm && !repo.driftLost {
      var t := tried.value;
      FreshCloneOutcome(s, {source}, t.found, t.known, patch, source, target, t.effect, repo.visible);
    }
  }

  /** Something comes into sight, and neither a signal nor a fault arrives: the run fails.  It
      puts the source back, or git apply drifted, and then the rejected target stays in place
      and the run says so.  Without drift the source is always back. */
  method RunInSight(repo: Repository, patch: Patch, source: Tree, target: Tree)
    returns (o: Outcome, ghost tried: Option<Tried>)
    requires LinkCounts(repo.Snap()) && repo.Scenario() && NoDuplicates(patch.scope) && repo.recordLength > 0
    requires repo.Alone() && repo.Whole(patch) && !repo.signals && repo.faults == 0 && repo.bound
    requires Ready(repo.Snap(), repo.known, patch, source, target, repo.visible)
    requires Favourable(repo.Snap(), repo.known, patch.scope, source, target, repo.visible)
    requires !StaysHidden(repo.Snap(), target, patch.scope, repo.visible)
    modifies repo
    ensures o.Failed? && repo.written < repo.recordLength
    ensures if o.restored then
              ExactTree(repo.Snap(), source, repo.visible) && ScopeMatches(repo.Snap(), source, patch.scope)
            else
              && repo.index == target && ScopeMatches(repo.Snap(), target, patch.scope)
              && !ExactTree(repo.Snap(), target, repo.visible)
    ensures repo.Steady(patch) ==> o.restored
    ensures OutsideKept(old(repo.Snap()), repo.Snap(), patch.scope)
  {
    hide ExactTree, ScopeMatches, Turns, Undoable, OutsideKept, LinkCounts, StaysHidden, Favourable, Capture, Ready,
         Sighted, Stuck, Recovers;
    ghost var s, known := repo.Snap(), repo.known;
    ReadyGives(s, known, patch, source, target, repo.visible);
    FavourableKnows(s, known, patch.scope, source, target, repo.visible);
    assert known + {repo.index} == known;
    o, tried := repo.Guarded(patch, source, target);
    var t := tried.value;
    if Undoable(s, t.found, patch, target, t.effect) {
      FavourableUndoable(s, known, t.found, t.known, patch, source, target, repo.visible, t.effect);
    } else {
      SightedIsUndoable(s, known, t.found, patch, source, target, repo.visible, t.effect);
      TurnsDiff(patch, source, target);
      NotBoth(t.found, source, target, patch.scope, repo.visible);
    }
  }

  lemma TurnsDiff(patch: Patch, source: Tree, target: Tree)
    requires Turns(patch, source, target)
    ensures IsDiff(patch.scope, source, target)
  {
  }

  /** A fault between the last byte of the record and the commit flag: the success record is
      complete, the run fails, and the source is back. */
  method RunSevered(repo: Repository, patch: Patch, source: Tree, target: Tree) returns (o: Outcome)
    requires LinkCounts(repo.Snap()) && repo.Scenario() && NoDuplicates(patch.scope) && repo.recordLength > 0
    requires repo.Alone() && repo.severs && repo.bound
    requires Ready(repo.Snap(), repo.known, patch, source, target, repo.visible)
    requires target in repo.known || repo.Steady(patch)
    modifies repo
    ensures o.Failed? && (repo.written == repo.recordLength
                          <==> StaysHidden(old(repo.Snap()), target, patch.scope, repo.visible))
    ensures repo.written == repo.recordLength ==>
              && ExactTree(repo.checked, target, repo.visible) && o.restored && !repo.committed
              && ExactTree(repo.Snap(), source, repo.visible) && ScopeMatches(repo.Snap(), source, patch.scope)
  {
    hide ExactTree, ScopeMatches, Turns, OutsideKept, LinkCounts, StaysHidden, Favourable, Capture;
    ghost var tried;
    ReadyGives(repo.Snap(), repo.known, patch, source, target, repo.visible);
    assert repo.known + {repo.index} == repo.known;
    o, tried := repo.Guarded(patch, source, target);
  }
}
