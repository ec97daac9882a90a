# Verification of the x64lens release tooling

This project models five Python tools of the repository in Dafny and proves what they promise:

- `tools/git-patch-transaction.py` applies or reverses one patch against an exact base tree, and either publishes a
  success record or puts the starting state back. `WorkTree.dfy` holds names, inodes and the Git index,
  `PatchRecovery.dfy` the ownership guard and what it means, `PatchLimits.dfy` the exact conditions under which
  interrupted states are undone, `PatchTransaction.dfy` the transaction as a class whose methods may be interrupted
  between any two effects, `PatchOutcomes.dfy` what whole runs come to.
- `tools/gitless-source-manifest.py` derives a Git tree id from a file list, creates a Git-less source tree and
  verifies one. `Ordering.dfy`, `GitTree.dfy`, `TreeIdentity.dfy`, `TreeOrder.dfy`, `SourceVerify.dfy`,
  `SourceCreate.dfy`.
- `tools/normalize-tracked-permissions.py` sets the modes of tracked files and their parent directories through
  retained descriptors, beside other processes that rename, replace and link names. `ModeWorld.dfy`,
  `ModeNormalizer.dfy`.
- `tools/check-patch-bundle-hygiene.py` parses ZIP container metadata (PKWARE APPNOTE sections 4.3.7, 4.3.12, 4.3.16,
  4.5.1 and 4.5.3). `ZipBytes.dfy`, `ZipContainer.dfy`, `ZipExtra.dfy`.
- `tools/decoder-gap-smoke.py` enumerates canonical instruction windows and publishes a result tree by renames.
  `CanonicalWindows.dfy`, `ResultPublication.dfy`.

`dafny verify dfyconfig.toml` checks everything.

## How to read the models

Calls into the operating system and into Git are methods with contracts (`GitApply`, `WriteBack`, `OpenDirectory`,
`Fchmod`); a mutating call that can stop half way may leave any part of its effect. What may happen between two steps
is one method too: `Point` for signals and faults, `Hook`, `StatusHook` and `Interfere` for other processes.
Constants of the class say which of these a run has to face, so one contract covers both the hostile and the quiet run.
Ghost fields (`touched`, `seen`, `confirmed`, `interruptions`, `checked`) record what happened.

Git's view of untracked files is a function of the ignore files' contents and a path, so a patch that edits a
`.gitignore` changes it; every other source of ignore rules is part of that function. The mode normaliser's own
permission to open and search is decided by owner, group and other bits and the identity it runs under.

Paths are lists of name components in the tree and mode models and plain strings in the patch model. SHA-1, SHA-256,
CRC-32 and the UTF-8 decoder are given functions; where a result needs that no two tree objects collide, this is a
hypothesis (`NoCollision`).

## What the proofs found

- A state that an interrupted `git apply` leaves is not always undone. `FavourableIsExact`: all of them are restorable
  if and only if the target tree object exists beforehand, no scope path contains the words `unrelated` or `foreign`,
  and Git would see some part of every set of added files. Each failing family is a lemma. Recovery looks for the two
  words in the inverse's error text, which quotes path names, where the comment expects only messages about preserved
  state (tools/git-patch-transaction.py:1000-1002): `MarkedPathIsNotRecovered`. In a fresh clone the candidate tree
  object does not exist before `git write-tree` makes it, and the guard's lookup fails: `UnknownTreeIsNotRecovered`.
  Added files that an ignore rule hides stay behind, because Git calls the worktree exact: `HiddenAddedPathIsLeft`.
- `ReachedOutcome` is the exact outcome for every state that a run without interference leaves when the drift window
  described below is not interrupted, and `RunInFreshClone` that of whole runs in a fresh clone: the source is back if
  and only if recovery found the scope at the source, or an undoable state with a complete index and every stop-word
  path written. Nothing outside the scope changes in any run without interference, and recovery changes nothing
  outside it in any run at all.
- Between a finished `git apply` that drifted from 0644 to 0755 or back and the end of its normalisation
  (tools/git-patch-transaction.py:1047-1063) an interruption can be fatal. `DriftSafeIsExact`: before the effect is
  captured, recovery always succeeds if and only if every regular target path only changes the mode of a regular
  source path, with a readable target tree and no stop word. `SteadyIsExact`: with normalisation under way, if and only
  if the patch has no regular target path at all. `DriftInFreshCloneIsStuck`: with an unknown target tree,
  normalisation can run if and only if the index did not drift. `driftLost` records that a run was interrupted while a
  drift was not yet normalised.
- A patch that drops an ignore rule can bring an untracked file into sight (`DroppedRuleIsSeen`). The run then fails:
  without interruption the success record is completed if and only if nothing comes into sight (`Transact`). If nothing
  drifted, the source is put back. If a file drifted, no interruption is needed to lose it: normalisation rewrites the
  file in place, rejects the exact target scope because of the file in sight, and keeps the capture from before, which
  recovery takes for a foreign replacement (`SightedDriftIsLost`). `SightedIsExact`: with something in sight, every end
  of a normalisation is restorable if and only if the patch has no regular target path. `RunInSight` is the outcome of
  such a run: the source, or the rejected target scope, with a report that says which.
- With something in sight the attempt fails although no signal came, so the signal handlers are still armed while
  recovery runs, and a signal can stop it half way. The hypothesis `Steady && !Armed` of `Transact` excludes this.
- A `git apply` caught between unlinking and creating one name is not undone (`TornNameIsNotRecovered`); under
  favourable conditions all such states are restorable if and only if the patch only adds and deletes: `WholeIsExact`.
- Nothing is checked after the hook that runs before the success record is written
  (tools/git-patch-transaction.py:116-120): the record speaks of the state checked last, and the final tree is the
  target if and only if that hook left it so (`PublishedIsTarget`; `StatusEditIsPublished` is a run where it did not).
- A fault between the last byte of the success record and the commit flag (tools/git-patch-transaction.py:118-129)
  leaves a complete record behind a failed run. The record is complete exactly on success in every run without that
  fault; with it (`severs`), `RunSevered` shows the complete record, the failure and the restored source.
- An archive comment free of the end-record marker can still make the archive unlocatable, because the comment length
  field can supply the marker's first half: `MarkerAcrossLengthField`. `LocateOfPrinted` gives the exact condition.

## Model

| member | source | states |
|---|---|---|
| `WorkTree.ExactIsGitClean` | tools/git-patch-transaction.py:545-555 | an exact copy of a tree entry is also clean in Git's coarser sense |
| `WorkTree.SoleName` | tools/git-patch-transaction.py:545-555 | a leaf with link count one has no other name |
| `WorkTree.UnlinkKeeps` | tools/git-patch-transaction.py:589-610 | unlinking keeps "link count = number of names" and touches no other name |
| `WorkTree.CreateKeeps` | tools/git-patch-transaction.py:913-923 | a fresh inode at a free name keeps the link counts, matches its entry and touches no other name |
| `WorkTree.RewriteKeeps` | tools/git-patch-transaction.py:806-821 | writing through a singly linked inode keeps the link counts and reaches no other name |
| `WorkTree.OthersStay` | tools/git-patch-transaction.py:806-827 | an effect at one name leaves every absent or singly linked other name exactly as it was |
| `WorkTree.ScopeStep` | tools/git-patch-transaction.py:775-833 | one effect inside the scope keeps everything outside it and every other replaceable scope path |
| `WorkTree.RulesAfter` | tools/git-patch-transaction.py:327-328 | the ignore rules after a scope change are those of the moved entries and of the names left alone |
| `PatchRecovery.CaptureIsSole` | tools/git-patch-transaction.py:613-614 | captured singly linked scope paths have pairwise distinct inodes |
| `PatchRecovery.StoppedStep` | tools/git-patch-transaction.py:913-923 | a git apply stopped after any subset of effects keeps a partial effect confined to the scope |
| `PatchRecovery.DetachStep` | tools/git-patch-transaction.py:589-610 | detaching an owned hard-linked path leaves its alias, inode and bytes, and every other path's state |
| `PatchRecovery.SettledTwice` | tools/git-patch-transaction.py:806-828 | writing the desired paths and removing the others makes the whole scope exact and keeps everything outside |
| `PatchRecovery.GuardGives` | tools/git-patch-transaction.py:728-772 | an accepted scope holds only owned or replaceable objects |
| `PatchRecovery.FinishedIsGuarded` | tools/git-patch-transaction.py:1047-1063 | a finished git apply, drifted or not, passes the guard with its own captured effect |
| `PatchRecovery.AlternateOwnerDiffers` | tools/git-patch-transaction.py:570-586 | an owned copy of one tree's entry is never a clean copy of a different entry |
| `PatchRecovery.OwnedAndCleanIsExact` | tools/git-patch-transaction.py:981-982 | with an owned scope, captures that are copies of the trees and visible added paths, Git's "exact tree" means exact paths with link count and mode, so the early return of recovery is right |
| `PatchRecovery.RejectionQuotes` | tools/git-patch-transaction.py:1000-1002 | with a complete index, Git's rejection quotes a stop word if and only if a path containing one still carries its source state |
| `PatchRecovery.PartialEffectRecoverable` | tools/git-patch-transaction.py:728-772 | after any partial effect, recovery acts if and only if the other tree is readable and, when the index is complete, every path with a stop word has been written |
| `PatchRecovery.ScopeGivesWholeTree` | tools/git-patch-transaction.py:414-420 | if the scope is the tree delta and nothing else moved, agreement on the scope is equality of the whole index, and conversely |
| `PatchRecovery.ExactAfter` | tools/git-patch-transaction.py:855-870 | from one exact tree, an exact scope and an unchanged rest give the other exact tree if and only if no untracked file comes into sight under the new ignore rules |
| `PatchRecovery.SourceStaysHidden` | tools/git-patch-transaction.py:855-870 | in the exact source tree itself nothing comes into sight |
| `PatchRecovery.BackStaysHidden` | tools/git-patch-transaction.py:1089-1150 | going back to the first tree restores its ignore rules, so nothing comes into sight |
| `PatchRecovery.SettledIsUndoable` | tools/git-patch-transaction.py:1047-1072 | after capture and normalisation the state is undoable, and it is the exact target if and only if nothing comes into sight |
| `PatchRecovery.FinishedExactly` | tools/git-patch-transaction.py:1047-1053 | an undrifted finished git apply is the complete target index |
| `PatchRecovery.FinishedIsRepairable` | tools/git-patch-transaction.py:1047-1062 | a finished git apply is the target, or passes the guard of its normalisation if and only if the target tree is readable or the index is already the target |
| `PatchRecovery.ExactPartialIsSource` | tools/git-patch-transaction.py:981-982 | unless added files hide themselves, a partial effect that Git calls the exact source changed nothing |
| `PatchRecovery.UndoneWhenRestorable` | tools/git-patch-transaction.py:969-1011 | from any state that kept everything outside the scope, the source is back after recovery if and only if that state was restorable |
| `PatchRecovery.UndoneExactly` | tools/git-patch-transaction.py:969-1011 | under favourable conditions recovery of every undoable state ends in the exact source tree, and recovery reports it |
| `PatchRecovery.CapturedIsReached` | tools/git-patch-transaction.py:1047-1063 | a finished git apply, captured and normalised as far as an interruption, a sighted file or a missing tree allows, is one of four kinds of state |
| `PatchRecovery.SettledIsRestorable` | tools/git-patch-transaction.py:1063-1086 | a capture of the present, complete target scope is restorable without further conditions |
| `PatchRecovery.SightedOutcome` | tools/git-patch-transaction.py:1052-1063 | a complete target scope with an older capture is restorable if and only if no file had to be rewritten since |
| `PatchRecovery.ReachedOutcome` | tools/git-patch-transaction.py:969-1011 | every state left outside the drift window is restorable if and only if it is the source's scope, or undoable with a readable target tree and no stop-word path quoted |
| `PatchRecovery.TurnsBack` | tools/git-patch-transaction.py:1089-1150 | the reverse patch turns the target back into the source |
| `PatchLimits.Reach` | tools/git-patch-transaction.py:913-923 | any choice of written names and any index for the scope is a state with correct link counts and an unchanged rest |
| `PatchLimits.MarkedPathIsNotRecovered` | tools/git-patch-transaction.py:1000-1002 | with a complete index and an old worktree, any scope path with a stop word makes recovery stop |
| `PatchLimits.UnknownTreeIsNotRecovered` | tools/git-patch-transaction.py:757-762 | for every scope path there is a partial worktree effect that is not recovered while the target tree object is unknown |
| `PatchLimits.HiddenAddedPathIsLeft` | tools/git-patch-transaction.py:981-982 | any set of added files that Git lists neither themselves nor by what they bring into sight can be left behind |
| `PatchLimits.FavourableIsExact` | tools/git-patch-transaction.py:969-1011 | every state a stopped git apply can leave is restorable if and only if the conditions are favourable |
| `PatchLimits.FreshCloneOutcome` | tools/git-patch-transaction.py:1049-1051 | where only a complete index makes the target tree known, every state left outside the drift window is restorable if and only if its scope is the source, or it is undoable with a complete index and no stop-word path left |
| `PatchLimits.DroppedRuleIsSeen` | tools/git-patch-transaction.py:331-333 | a patch that deletes the ignore file hiding a build output brings the output into sight |
| `PatchLimits.TornNameIsNotRecovered` | tools/git-patch-transaction.py:728-772 | a modified path found absent is not recovered, whatever the rest looks like |
| `PatchLimits.WholeIsExact` | tools/git-patch-transaction.py:728-772 | under favourable conditions states with names caught between unlink and creation are all restorable if and only if the patch modifies no path |
| `PatchLimits.DriftAt` | tools/git-patch-transaction.py:1047-1053 | a finished git apply may have drifted at any one regular path, in the worktree or in the index |
| `PatchLimits.DriftSafeIsExact` | tools/git-patch-transaction.py:1047-1063 | interrupted before the capture, every finished git apply is restorable however it drifted, if and only if regular target paths only change modes, with a readable target tree and no stop word |
| `PatchLimits.UnsafeDriftIsLost` | tools/git-patch-transaction.py:1047-1063 | drift at a path that is not drift safe is not recovered |
| `PatchLimits.SteadyIsExact` | tools/git-patch-transaction.py:1052-1062 | every state of a stopped normalisation is restorable if and only if no scope path has a regular target entry |
| `PatchLimits.NormalisedInPlaceIsLost` | tools/git-patch-transaction.py:1052-1062 | a captured drifted file rewritten with its target mode is taken for a foreign replacement |
| `PatchLimits.SightedDriftIsLost` | tools/git-patch-transaction.py:1047-1062 | with something in sight, a drift at any regular path can be normalised to the exact target scope, which is rejected and not restorable |
| `PatchLimits.SightedIsExact` | tools/git-patch-transaction.py:1047-1062 | with something in sight, every end of a normalisation is restorable if and only if no scope path has a regular target entry |
| `PatchLimits.DriftInFreshCloneIsStuck` | tools/git-patch-transaction.py:1049-1062 | with an unknown target tree a drifted effect can be normalised if and only if its index is the target, and is not recovered otherwise |
| `PatchLimits.DriftOfNewContentIsLost` | tools/git-patch-transaction.py:1047-1063 | a replaced file that becomes executable and is recreated without the bit is not recovered |
| `PatchLimits.DriftOfModeIsKept` | tools/git-patch-transaction.py:1047-1063 | a mode change that drifts back is recovered |
| `PatchTransaction.Repository.Point` | tools/git-patch-transaction.py:75-78 | the first signal sets the rest to ignored, so at most one interruption arrives |
| `PatchTransaction.Repository.Hook` | tools/git-patch-transaction.py:896-910 | other processes may change every name, inode, index entry and parent and make the hook fail, and keep the link counts |
| `PatchTransaction.Repository.StatusHook` | tools/git-patch-transaction.py:116-117 | the hook before the record: the state becomes what the given process makes of it |
| `PatchTransaction.Repository.Replace` | tools/git-patch-transaction.py:913-923 | one name is unlinked or bound to a fresh inode with exactly the wanted entry, no other name touched |
| `PatchTransaction.Repository.WriteBack` | tools/git-patch-transaction.py:806-821 | git restore through the existing inode of a replaceable path gives the exact entry and touches no other name |
| `PatchTransaction.Repository.ExactTreeState` | tools/git-patch-transaction.py:336-344 | without interruption the answer is exactly: index is the tree, tracked paths clean, nothing untracked |
| `PatchTransaction.Repository.ApplyStopped` | tools/git-patch-transaction.py:913-923 | a stopped git apply keeps everything outside the scope, and leaves a partial effect unless a modified name may be caught unlinked |
| `PatchTransaction.Repository.ApplyFinished` | tools/git-patch-transaction.py:913-923 | a finished git apply gives every scope path its post-image, up to 0644/0755 drift |
| `PatchTransaction.Repository.GitApply` | tools/git-patch-transaction.py:913-923 | rejected iff some scope path fails the preimage; check-only changes nothing; interrupted leaves a partial effect; finished leaves the post-image up to drift |
| `PatchTransaction.Repository.DetachAliases` | tools/git-patch-transaction.py:802-805 | hard-linked owned paths are detached, aliases and everything outside the scope keep their objects; without added links nothing happens |
| `PatchTransaction.Repository.SettlePaths` | tools/git-patch-transaction.py:806-825 | held paths are written, or others removed, one by one, without touching anything else; stopped anywhere, it is a partial effect |
| `PatchTransaction.Repository.RestoreExactTree` | tools/git-patch-transaction.py:775-833 | an unowned scope changes nothing; an owned one becomes exact, and the answer says whether the whole tree is; stopped anywhere, a present capture leaves a partial effect |
| `PatchTransaction.Repository.Normalise` | tools/git-patch-transaction.py:1052-1062 | a drifted effect becomes the exact target, an exact one is left alone; without interruption restored means that the exact target is there and the repository bound |
| `PatchTransaction.Repository.NormaliseInverse` | tools/git-patch-transaction.py:944-964 | without interruption restored if and only if the exact tree is there and the repository bound; a finished inverse of known trees always ends with an exact scope |
| `PatchTransaction.Repository.RestoreWithInverse` | tools/git-patch-transaction.py:926-966 | unowned or rejected: nothing changes and the report is exact; otherwise the scope becomes exact |
| `PatchTransaction.Repository.RecoverInexact` | tools/git-patch-transaction.py:983-1011 | the inverse, then the restore unless a stop word was reported, restores the scope if and only if recovery acts |
| `PatchTransaction.Repository.RecoverAfterEffect` | tools/git-patch-transaction.py:969-1011 | recovery is all or nothing on the scope, keeps everything outside it, and its report is right; a reported restoration of a discerned scope is exact |
| `PatchTransaction.Repository.PreEffect` | tools/git-patch-transaction.py:1037-1040 | success means no path or parent moved since the capture |
| `PatchTransaction.Repository.ApplyBound` | tools/git-patch-transaction.py:1037-1047 | applied means the post-image up to drift; otherwise a partial effect |
| `PatchTransaction.Repository.CaptureEffect` | tools/git-patch-transaction.py:1048-1063 | success means the scope is exact and the captured effect is the present state; otherwise the capture is that of the finished git apply and normalisation is under way from it |
| `PatchTransaction.Repository.Mutate` | tools/git-patch-transaction.py:1036-1063 | without interference any way out before the hook leaves a state of one of the four kinds, an undoable one where nothing drifts or nothing comes into sight |
| `PatchTransaction.Repository.Publish` | tools/git-patch-transaction.py:90-129 | success if and only if the record is complete and no fault severs the two; signals are ignored from then on; otherwise handlers are back; the state is what the last hook made of it |
| `PatchTransaction.Repository.CheckState` | tools/git-patch-transaction.py:837-870 | the exact state check, decided without interruption |
| `PatchTransaction.Repository.Confirm` | tools/git-patch-transaction.py:1068-1072 | a complete record means that the state checked last was the exact target with the whole delta as scope |
| `PatchTransaction.Repository.Attempt` | tools/git-patch-transaction.py:1036-1072 | a complete record means the exact target, the tree delta as scope, and the captured parents and leaves in place, all at the last check; without interference every way out leaves a state of one of the four kinds |
| `PatchTransaction.Repository.Recover` | tools/git-patch-transaction.py:1073-1086 | a failed attempt is recovered all or nothing and nothing outside the scope changes; the report is right; the source scope is back if and only if the found state was restorable; under favourable conditions exactly, and so reported |
| `PatchTransaction.Repository.Begin` | tools/git-patch-transaction.py:837-870 | a run starts only from the exact bound source; the exact target is recognised; undisturbed, both are decided exactly |
| `PatchTransaction.Repository.RunFromSource` | tools/git-patch-transaction.py:1033-1086 | from the exact source every run is published from the exact target or recovered, in a fresh clone too; recovery finds a state of one of the four kinds; nothing outside the scope changes |
| `PatchTransaction.Repository.Transact` | tools/git-patch-transaction.py:1015-1086 | for every run: success iff the record is complete and not severed; a complete record means the exact target with the scope as whole difference at the last check; nothing outside the scope changes without interference, and recovery never changes it; a failure without interference is recovered from a state of one of the four kinds, and the source is back if and only if that state was restorable, always and with that report under favourable conditions; the report is right; undisturbed the record is completed iff no untracked file comes into sight; the exact target is recognised and left alone |
| `PatchTransaction.Repository.Guarded` | tools/git-patch-transaction.py:64-87 | the same for a whole process, with the original signal dispositions back unless it succeeded |
| `PatchTransaction.Repository.ApplyThenRollback` | tools/git-patch-transaction.py:1089-1150 | undisturbed, apply succeeds iff no untracked file comes into sight; then apply and rollback together are the identity on index, bytes and modes, and repeating either changes nothing |
| `PatchTransaction.Repository.StatusEditIsPublished` | tools/git-patch-transaction.py:116-120 | a process that resets the index at the last hook gets a complete record over a tree that is not the target |
| `PatchOutcomes.RunInFreshClone` | tools/git-patch-transaction.py:1015-1086 | a failed run with an unknown target tree has the source back if and only if recovery found the source's scope, or an undoable state with a complete index and no stop-word path left |
| `PatchOutcomes.RunInSight` | tools/git-patch-transaction.py:1047-1086 | an undisturbed run with something in sight fails, and leaves the exact source with that report, or the rejected target scope without it; without drift always the source |
| `PatchOutcomes.RunSevered` | tools/git-patch-transaction.py:118-129 | a fault behind the last byte leaves a complete record, a failed run and the exact source |
| `Ordering.SortedIsUnique` | tools/gitless-source-manifest.py:176-183 | a set of entries with distinct keys has one sorted arrangement |
| `GitTree.ChildrenComeFirst` | tools/gitless-source-manifest.py:168 | in the deepest-first order no child follows its parent |
| `GitTree.PlaceFiles` | tools/gitless-source-manifest.py:160-167 | succeeds iff every file is safe and has a listed parent, and puts each into its parent's list |
| `GitTree.FoldStep` | tools/gitless-source-manifest.py:168-172 | when a directory is hashed its list already holds all its files and finished subdirectories |
| `GitTree.FoldDirectories` | tools/gitless-source-manifest.py:168-172 | the loop fails iff a directory is empty, and leaves the root with its structural entries |
| `GitTree.DeriveTree` | tools/gitless-source-manifest.py:157-173 | succeeds iff the lists form a Git tree, and equals structural recursion over the directories |
| `TreeIdentity.EntriesHave` | tools/gitless-source-manifest.py:157-173 | a directory's entries are exactly its files and its subdirectories with their ids |
| `TreeIdentity.JoinIsInjective` | tools/gitless-source-manifest.py:60-74 | different safe component paths have different path strings |
| `TreeIdentity.SameDirOrder` | tools/gitless-source-manifest.py:158-168 | the directory order depends on the set of directories alone |
| `TreeIdentity.TreeIgnoresRecordOrder` | tools/gitless-source-manifest.py:157-188 | the tree id does not depend on the order of the file records |
| `TreeIdentity.RowsAreDecodable` | tools/gitless-source-manifest.py:176-188 | a tree payload determines its rows: mode, space, name, NUL, id |
| `TreeIdentity.FrameIsInjective` | tools/gitless-source-manifest.py:77-78 | an object frame determines its payload |
| `TreeIdentity.DirectoryCarriesOver` | tools/gitless-source-manifest.py:157-188 | with equal root ids every directory of one source is a directory of the other, with the same id |
| `TreeIdentity.FileCarriesOver` | tools/gitless-source-manifest.py:157-188 | with equal root ids every file record of one source is one of the other |
| `TreeIdentity.TreeIdDeterminesSource` | tools/gitless-source-manifest.py:157-188 | without a collision, equal tree ids if and only if equal files and directories |
| `TreeOrder.BelowIsOrdered` | tools/gitless-source-manifest.py:176-183 | if one entry precedes another, every path below it precedes every path below the other |
| `TreeOrder.WalkSorted` | tools/gitless-source-manifest.py:176-188 | the depth-first walk of a directory lists exactly its files, strictly by path bytes |
| `TreeOrder.WalkIsPathOrder` | tools/gitless-source-manifest.py:137 | the walk in Git's entry order is the list sorted by full path |
| `SourceVerify.ParentsComeFirst` | tools/gitless-source-manifest.py:395-399 | the (depth, bytes) order puts every listed parent before its children |
| `SourceVerify.VerifyDirectories` | tools/gitless-source-manifest.py:394-412 | accepts iff the order is right and every directory is a new, real 0755 folder below an opened parent |
| `SourceVerify.VerifyFiles` | tools/gitless-source-manifest.py:414-455 | accepts iff every record is valid, below an opened parent, unaliased and exactly as described |
| `SourceVerify.ResolvedIsListed` | tools/gitless-source-manifest.py:457-459 | in an accepted tree nothing at any level exists that is not listed |
| `SourceVerify.AcceptedFresh` | tools/gitless-source-manifest.py:387-443 | in an accepted tree no two listed paths share an inode |
| `SourceVerify.AcceptedIsExact` | tools/gitless-source-manifest.py:364-470 | the loops' conditions hold if and only if the tree is the exact source |
| `SourceVerify.Verify` | tools/gitless-source-manifest.py:364-470 | accepts if and only if the directory is exactly the described source |
| `SourceCreate.DirectoriesOrdered` | tools/gitless-source-manifest.py:241-248 | the derived directory names are sorted and free of duplicates |
| `SourceCreate.NamesAreDerivable` | tools/gitless-source-manifest.py:241-248 | the directory names of any safe records form a Git tree and can be made in order |
| `SourceCreate.ResolveAfterAdd` | tools/gitless-source-manifest.py:256-274 | creating one name makes exactly one more path resolvable |
| `SourceCreate.AddKeepsShape` | tools/gitless-source-manifest.py:256-285 | creation keeps distinct paths on distinct inodes |
| `SourceCreate.MakeDirectories` | tools/gitless-source-manifest.py:256-274 | succeeds iff every name has an earlier parent and is new, and writes exactly those folders |
| `SourceCreate.WriteFiles` | tools/gitless-source-manifest.py:276-299 | succeeds iff every record has room and the right blob, and writes exactly the records |
| `SourceCreate.Create` | tools/gitless-source-manifest.py:219-335 | succeeds if and only if the records are creatable, and what it writes is the exact source of its manifest |
| `SourceCreate.SingleFileIsCreatable` | tools/gitless-source-manifest.py:219-335 | one file with any safe name and any content can be created |
| `ModeWorld.LaterKeeps` | tools/normalize-tracked-permissions.py:47-52 | whatever other processes do to names, known identities stay known and modes stay |
| `ModeWorld.ModesDoNotResolve` | tools/normalize-tracked-permissions.py:101-114 | changing modes changes no lookup |
| `ModeWorld.NormalisedAgain` | tools/normalize-tracked-permissions.py:169-174 | a normalised tree is acceptable, permissions included, differs nowhere, and normalises to itself only |
| `ModeWorld.NormalisedIsEased` | tools/normalize-tracked-permissions.py:171-180 | normalisation sets directories to 0755 only, so whatever could be opened and searched still can |
| `ModeWorld.EasedIsAdmissible` | tools/normalize-tracked-permissions.py:128-167 | a tree that passes the preflight passes it again after directories were set to 0755 and files changed |
| `ModeNormalizer.RollbackStep` | tools/normalize-tracked-permissions.py:205-210 | undoing one log entry leaves modes that differ at the remaining entries only |
| `ModeNormalizer.DirectoriesListed` | tools/normalize-tracked-permissions.py:141-146 | tracked parents come shallow first, each after its own parent |
| `ModeNormalizer.FitsWhen` | tools/normalize-tracked-permissions.py:159-167 | a record passes iff its directory may be searched and its inode is new, owned, unaliased and of the right type |
| `ModeNormalizer.QuietResult` | tools/normalize-tracked-permissions.py:171-213 | a quiet transaction ends in exactly the normalised file system |
| `ModeNormalizer.CountsAgree` | tools/normalize-tracked-permissions.py:169-170 | the two counts are the numbers of differing files and directories of the starting state |
| `ModeNormalizer.AuthenticSteady` | tools/normalize-tracked-permissions.py:101-114 | the preflight's identities stay what the names lead to, and stay open to the tool, while modes are changed |
| `ModeNormalizer.OpenMeans` | tools/normalize-tracked-permissions.py:177-179 | the modes read in the preflight decide which files can be opened for their change |
| `ModeNormalizer.Host.Interfere` | tools/normalize-tracked-permissions.py:1-11 | what may happen between two steps: any change of names and link counts, no change of kind, owner or mode |
| `ModeNormalizer.Host.Fchmod` | tools/normalize-tracked-permissions.py:176-180 | a mode is only ever changed at an inode whose identity was read at a tracked path and may be changed |
| `ModeNormalizer.Host.OpenDirectory` | tools/normalize-tracked-permissions.py:101-113 | a walk ends at the expected inode of its path, and in quiet succeeds on authentic directories, which are readable and lie in searchable ones |
| `ModeNormalizer.Host.LstatBound` | tools/normalize-tracked-permissions.py:123-126 | reads the object under a name of the authenticated parent; in quiet exactly the resolved one, if the parent may be searched |
| `ModeNormalizer.Host.StatDirectory` | tools/normalize-tracked-permissions.py:147-155 | reads a directory under the authenticated parent; in quiet succeeds iff its path is a readable directory in a searchable one |
| `ModeNormalizer.Host.OpenRegular` | tools/normalize-tracked-permissions.py:115-122 | opens only the expected identity and never a link; in quiet succeeds iff the file is readable |
| `ModeNormalizer.Host.OpenBinding` | tools/normalize-tracked-permissions.py:53-64 | in quiet succeeds iff the repository is a readable, searchable directory and its .git a readable one |
| `ModeNormalizer.Host.Reauthenticate` | tools/normalize-tracked-permissions.py:66-73 | accepting means the bound root and .git were read again; in quiet it accepts if and only if the binding holds |
| `ModeNormalizer.Host.PreflightDirectories` | tools/normalize-tracked-permissions.py:138-156 | records owned directories with their modes; in quiet succeeds iff all tracked parents are owned directories that can be opened |
| `ModeNormalizer.Host.PreflightFiles` | tools/normalize-tracked-permissions.py:158-167 | records trusted files with their modes; in quiet succeeds iff every record fits |
| `ModeNormalizer.Host.ChmodDirectory` | tools/normalize-tracked-permissions.py:172-176 | the directory has 0755 afterwards and the log knows every deviating inode |
| `ModeNormalizer.Host.ChmodDirectories` | tools/normalize-tracked-permissions.py:172-176 | after the loop every tracked directory has 0755, and the log holds every inode touched |
| `ModeNormalizer.Host.ChmodFile` | tools/normalize-tracked-permissions.py:177-180 | changes a preflight identity only, keeps the directories done, and in quiet finishes the record iff its file can be opened |
| `ModeNormalizer.Host.ChmodFiles` | tools/normalize-tracked-permissions.py:177-180 | after the loop, in quiet, every regular record has its mode, iff all files to be changed can be opened; the log holds every inode touched |
| `ModeNormalizer.Host.VerifyRecords` | tools/normalize-tracked-permissions.py:182-193 | success means every record was found again, unaliased and with its mode, after the last change |
| `ModeNormalizer.Host.VerifyDirectories` | tools/normalize-tracked-permissions.py:194-199 | success means every tracked directory was found again with 0755 after the last change |
| `ModeNormalizer.Host.VerifyAll` | tools/normalize-tracked-permissions.py:182-202 | success means every record, every directory, the root and .git were found again after the last change |
| `ModeNormalizer.Host.Rollback` | tools/normalize-tracked-permissions.py:203-210 | steps may fail or be interrupted: every mode that still differs belongs to a reported path, and without an error every inode has its original mode again |
| `ModeNormalizer.Host.Transact` | tools/normalize-tracked-permissions.py:171-212 | failure anywhere restores every mode but those of reported paths; success leaves only logged inodes changed; in quiet on authentic objects it succeeds iff all files to be changed can be opened |
| `ModeNormalizer.Host.Prepare` | tools/normalize-tracked-permissions.py:129-170 | nothing is changed before the preflight is complete; in quiet it succeeds iff the state is admissible, permissions included |
| `ModeNormalizer.Host.Normalize` | tools/normalize-tracked-permissions.py:128-221 | beside any processes: modes change only at identities of this run's preflight; a failure leaves every mode as it was except at reported paths, and reports none when no rollback step fails; success has found everything again; in quiet: success iff acceptable, permissions included, with the exact result and counts, and a failure changes nothing |
| `ModeNormalizer.Host.NormalizeTwice` | tools/normalize-tracked-permissions.py:169-174 | a second quiet run returns (0, 0) and changes nothing |
| `ZipBytes.UnpackOfPack` | tools/check-patch-bundle-hygiene.py:245-255 | unpacking a packed record returns values that fit their widths |
| `ZipBytes.PackOfUnpack` | tools/check-patch-bundle-hygiene.py:245-255 | unpacked values fit and pack to the same bytes |
| `ZipContainer.LocateIsSound` | tools/check-patch-bundle-hygiene.py:234-277 | a located directory reaches to the end record, the record to the end of the file, and no later marker exists |
| `ZipContainer.LocateOfPrinted` | tools/check-patch-bundle-hygiene.py:234-277 | a printed archive is located with its directory if and only if no second marker starts in its end record |
| `ZipContainer.MarkerAcrossLengthField` | tools/check-patch-bundle-hygiene.py:238-241 | a marker-free comment whose length field supplies half a marker hides the end record |
| `ZipContainer.ParseCentralRecords` | tools/check-patch-bundle-hygiene.py:280-348 | the cursor loop returns exactly the headers of the directory range, or its first error |
| `ZipContainer.CentralIsSound` | tools/check-patch-bundle-hygiene.py:290-347 | parsed headers fit their widths and tile the range without gap, overlap or trailing byte |
| `ZipContainer.CentralOfPrinted` | tools/check-patch-bundle-hygiene.py:290-347 | parsing printed headers returns them |
| `ZipContainer.LocalRoundTrip` | tools/check-patch-bundle-hygiene.py:351-391 | a local header is parsed at an offset if and only if it is printed there before the directory |
| `ZipContainer.ArchiveRoundTrip` | tools/check-patch-bundle-hygiene.py:234-391 | locating and parsing a printed archive returns every central and local header |
| `ZipContainer.ParsedArchiveTiles` | tools/check-patch-bundle-hygiene.py:234-348 | a parsed archive consists of its front, exactly the printed records and exactly the end record |
| `ZipExtra.ParseExtraBlocks` | tools/check-patch-bundle-hygiene.py:394-409 | the offset loop returns the recursive block list and its violation |
| `ZipExtra.BlocksOfPrinted` | tools/check-patch-bundle-hygiene.py:394-409 | parsing a printed block list returns it without violation |
| `ZipExtra.PrintedOfBlocks` | tools/check-patch-bundle-hygiene.py:394-409 | no violation if and only if printing the blocks gives the input back |
| `ZipExtra.InspectTimestamp` | tools/check-patch-bundle-hygiene.py:462-473 | silent iff the payload is a flag byte followed by 32-bit times: one for each flag, or, in a central record, also none or the modification time alone |
| `ZipExtra.TimestampShapeMeans` | tools/check-patch-bundle-hygiene.py:462-473 | a payload of the permitted sizes is exactly the printing of some announced times |
| `ZipExtra.InspectUnicodePath` | tools/check-patch-bundle-hygiene.py:474-487 | silent iff the payload is the printing of version 1, the CRC of the raw name and bytes that decode to the member's name |
| `ZipExtra.UnicodePathShape` | tools/check-patch-bundle-hygiene.py:474-487 | the checks on the split payload accept exactly the printed ones |
| `ZipExtra.UnicodePathIsUnique` | tools/check-patch-bundle-hygiene.py:474-487 | with a decoder that keeps names apart, a member has one acceptable payload |
| `ZipExtra.InspectUid` | tools/check-patch-bundle-hygiene.py:488-499 | silent iff the payload is a user id and a group id of one to eight bytes each |
| `ZipExtra.InspectZip64` | tools/check-patch-bundle-hygiene.py:500-518 | silent iff the payload is the packing of exactly the sentinel fields' values |
| `ZipExtra.InspectNtfs` | tools/check-patch-bundle-hygiene.py:519-545 | silent iff there are four zero bytes and exactly one 24-byte timestamp attribute |
| `ZipExtra.InspectBlock` | tools/check-patch-bundle-hygiene.py:462-550 | silent iff the block is acceptable for its id |
| `ZipExtra.InspectExtraFields` | tools/check-patch-bundle-hygiene.py:443-559 | silent iff the data is a printed list of distinct acceptable blocks with a ZIP64 block exactly when needed |
| `ZipExtra.CentralFieldsDecode` | tools/check-patch-bundle-hygiene.py:412-431 | in an accepted central record every field is the represented value or a sentinel, every sentinel's value fits its width, and the one ZIP64 block is the in-order concatenation of the sentinel fields |
| `CanonicalWindows.ContiguousRuns` | tools/decoder-gap-smoke.py:429-445 | the runs concatenate to the input, are linked inside, and no two neighbours could be joined |
| `CanonicalWindows.WindowsBelow` | tools/decoder-gap-smoke.py:451-484 | the windows of one return, each once, longest last |
| `CanonicalWindows.Windows` | tools/decoder-gap-smoke.py:448-485 | exactly the windows that satisfy the declarative condition, each once, in order |
| `CanonicalWindows.NoneBelow` | tools/decoder-gap-smoke.py:465-470 | after an early exit no longer window exists |
| `CanonicalWindows.WindowsOf` | tools/decoder-gap-smoke.py:451-482 | the inner loop with its two breaks yields the records of all windows of one return |
| `CanonicalWindows.BuildCanonicalSequences` | tools/decoder-gap-smoke.py:448-485 | the result is the records of the declarative window list, nothing more, less or twice |
| `CanonicalWindows.RecordSpans` | tools/decoder-gap-smoke.py:471-481 | start plus byte count is the end of the return, within one section |
| `ResultPublication.RecoverySettles` | tools/decoder-gap-smoke.py:913-933 | from every reachable state the handler settles on one complete tree, new iff staging is consumed |
| `ResultPublication.PublishedIsVisible` | tools/decoder-gap-smoke.py:914-925 | the new tree is in place exactly when staging is gone |
| `ResultPublication.Campaign.RemoveBackup` | tools/decoder-gap-smoke.py:911-912 | removal stops with a part of the tree left, or completes |
| `ResultPublication.Campaign.Body` | tools/decoder-gap-smoke.py:900-912 | however the body is left, the state is one of the four reachable kinds |
| `ResultPublication.Campaign.Recover` | tools/decoder-gap-smoke.py:913-933 | from every state the body can leave, the handler settles: on the new tree if the body had published it, on the old one otherwise |
| `ResultPublication.Campaign.PublishResults` | tools/decoder-gap-smoke.py:891-933 | interrupted anywhere, the destination is the complete old or the complete new tree; a normal return means the new tree and no backup |

## Left out

- Blob and tree ids in the patch model are perfect names of their contents, and one device is assumed.
- Parent directories of patch paths exist in both trees; an interrupted git apply does not drift; git restore sets
  exactly 0644 or 0755; the bits of a symbolic link are ignored, as the tool ignores them.
- Faults of the patch transaction: either any number of catchable signals and no other fault, or one other fault and no
  signal; a fault after the commit flag is set is outside. Uncatchable failures are outside, as the tool says itself.
- PatchTransaction.Repository.GitApply: an interrupted `git apply` is a killed child process; the `.git/index.lock` it
  may leave, which blocks every later Git step of recovery until it is removed, is not modelled.
- PatchTransaction.Repository.Transact: that the source is always restored is stated under `Favourable`, for a patch
  whose image cannot drift (`Steady`) or a run not interrupted in the drift window, for a git apply that does not tear
  (`Whole`), and with nothing coming into sight, or with `Steady` and no interruption. `FavourableIsExact`,
  `SteadyIsExact`, `WholeIsExact` and `SightedIsExact` show the first four exact; the last excludes a signal during
  recovery. Outside these the contract gives the found state and the outcome by `Restorable`.
- PatchTransaction.Repository.Hook: other processes act at the three hooks of the transaction and not between other
  steps, because the tool itself re-checks identities after the first two only.
- Patch parsing, patch hashing, branch and HEAD names and the text of messages, apart from the two stop words: the
  repository binding is one flag, and the patch is its scope with a pre- and a post-image.
- The gitless source model is quiescent: the before-and-after identity comparisons of one file have nothing to detect.
  Manifest JSON, its key sets and the output files of the Docker context are not modelled.
- The source path policy accepts the lone path `.` through an empty component list; component lists cannot express it.
- ModeNormalizer.Host.Interfere: other processes rename, replace, link, unlink and create, and change link counts, but
  never change a mode or an owner, and inode ids are not reused. Permission is that of mode bits; access lists, mount
  options, the directories above the repository and Git's own access to its index are outside.
- ModeNormalizer.Host.ChmodFile: a fault between a change and its log entry is not modelled.
- The Git-less twin of the normaliser (tools/normalize-tracked-permissions.py:314-429) repeats the same transaction.
- ZIP member names, name policy tables, decompression and the report of `inspect_bundle` are not modelled; for
  `inspect_extra_fields` the model says when it is silent, not the text of each violation.
- Objdump parsing, the comparison of targets, timing and process control; an instruction's display text is one field.
- ResultPublication.Campaign.PublishResults: one exception or signal; a second one before the handler blocks signals and
  a failure inside the handler are outside. A backup directory whose path was not yet assigned stays behind, empty.
