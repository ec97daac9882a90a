/** The rename protocol that publishes a finished result tree over an earlier one. */
module ResultPublication {

  datatype Option<T> = None | Some(value: T)

  /** A directory tree: the files below it. */
  type Tree = map<string, string>

  /** The three directories of the protocol.  bound says whether the local variable holding the
      backup path has been assigned, which is later than the directory's creation. */
  datatype State = State(destination: Option<Tree>, staging: Option<Tree>, backup: Option<Tree>, bound: bool)

  predicate SubTree(part: Tree, whole: Tree) {
    forall p | p in part :: p in whole && part[p] == whole[p]
  }

  // ----- every state an interruption can leave -----

  predicate Untouched(before: State, s: State) {
    s.destination == before.destination && s.staging == before.staging && s.backup == None
  }

  /** The new private directory exists and the destination has not moved yet. */
  predicate Preparing(before: State, s: State) {
    && before.destination.Some? && s.destination == before.destination && s.staging == before.staging
    && s.backup == Some(map[])
  }

  predicate Displaced(before: State, s: State) {
    && before.destination.Some? && s.bound
    && s.destination == None && s.staging == before.staging && s.backup == before.destination
  }

  /** The new tree is in place; of the old one nothing, everything or a part remains. */
  predicate Published(before: State, s: State) {
    && before.staging.Some? && s.destination == before.staging && s.staging == None
    && (s.backup.Some? ==>
          s.bound && before.destination.Some? && SubTree(s.backup.value, before.destination.value))
  }

  predicate Reached(before: State, s: State) {
    Untouched(before, s) || Preparing(before, s) || Displaced(before, s) || Published(before, s)
  }

  // ----- recovery from what is visible -----

  function Recovered(s: State): State {
    var backupVisible := s.bound && s.backup.Some?;
    if s.destination == None && backupVisible then
      s.(destination := s.backup, backup := None)
    else if s.destination.Some? && s.staging == None then
      if backupVisible then s.(backup := None) else s
    else if s.destination.Some? && s.staging.Some? && backupVisible then
      s.(backup := None)
    else
      s
  }

  /** The old tree with staging intact, or the new tree with staging consumed; a backup is left
      only by an interruption between its creation and the assignment of its path, and it is
      then the empty directory. */
  predicate Settled(before: State, s: State) {
    && (|| (s.destination == before.destination && s.staging == before.staging)
        || (before.staging.Some? && s.destination == before.staging && s.staging == None))
    && (s.backup != None ==> !s.bound && s.backup == Some(map[]) && s.destination == before.destination)
  }

  lemma RecoverySettles(before: State, s: State)
    requires Reached(before, s)
    ensures Settled(before, Recovered(s))
    ensures Recovered(Recovered(s)) == Recovered(s)
    ensures before.staging.Some? && before.staging != before.destination ==>
              (Recovered(s).destination == before.staging <==> Recovered(s).staging == None)
  {
  }

  /** The handler looks at the directories and not at how far the body came: this is the only
      information it needs, because the published states are exactly those without staging. */
  lemma PublishedIsVisible(before: State, s: State)
    requires before.staging.Some? && Reached(before, s)
    ensures Published(before, s) <==> s.staging == None
  {
  }

  // ----- the protocol -----

  class Campaign {
    var destination: Option<Tree>
    var staging: Option<Tree>
    var backup: Option<Tree>
    var bound: bool

    constructor (destination: Option<Tree>, staging: Option<Tree>)
      ensures Now() == State(destination, staging, None, false)
    {
      this.destination, this.staging, this.backup, this.bound := destination, staging, None, false;
    }

    function Now(): State
      reads this
    {
      State(destination, staging, backup, bound)
    }

    /** An exception or a delivered signal, unless the run is calm. */
    method Interrupted(calm: bool) returns (raised: bool)
      ensures calm ==> !raised
    {
      raised := *;
      raised := raised && !calm;
    }

    /** rmtree: entries disappear one at a time, so it can stop with any part left. */
    method RemoveBackup(calm: bool) returns (completed: bool)
      requires backup.Some?
      modifies this`backup
      ensures completed ==> backup == None
      ensures calm ==> completed
      ensures backup.Some? ==> SubTree(backup.value, old(backup.value))
    {
      var raised: bool;
      while backup.value != map[]
        invariant backup.Some? && SubTree(backup.value, old(backup.value))
        decreases |backup.value|
      {
        raised := Interrupted(calm);
        if raised {
          return false;
        }
        var entry :| entry in backup.value;
        var rest := backup.value - {entry};
        assert backup.value.Keys == rest.Keys + {entry};
        backup := Some(rest);
      }
      raised := Interrupted(calm);
      if raised {
        return false;
      }
      backup := None;
      completed := true;
    }

    /** The body of the try block.  Unless the run is calm it can be left by an exception between any two effects:
        a hook, a failed call or a signal delivered after a call and before the next statement. */
    method Body(calm: bool) returns (completed: bool)
      requires backup == None && !bound
      modifies this
      ensures Reached(old(Now()), Now())
      ensures completed ==> Published(old(Now()), Now()) && backup == None
      ensures calm && old(staging).Some? ==> completed
    {
      var raised := Interrupted(calm);
      if raised {
        return false;
      }
      if destination.Some? {
        backup := Some(map[]);
        raised := Interrupted(calm);
        if raised {
          return false;
        }
        bound := true;
        raised := Interrupted(calm);
        if raised {
          return false;
        }
        backup := None;
        raised := Interrupted(calm);
        if raised {
          return false;
        }
        destination, backup := None, destination;
        raised := Interrupted(calm);
        if raised {
          return false;
        }
      }
      if staging == None {
        return false;
      }
      destination, staging := staging, None;
      raised := Interrupted(calm);
      if raised {
        return false;
      }
      if bound && backup.Some? {
        completed := RemoveBackup(calm);
        if !completed {
          return;
        }
      }
      raised := Interrupted(calm);
      completed := !raised;
    }

    /** The except block, with signals blocked: from every state the body can leave it settles
        on the new tree if the body had published, and on the old one otherwise. */
    method Recover(ghost before: State)
      requires Reached(before, Now())
      modifies this
      ensures Now() == Recovered(old(Now())) && Settled(before, Now())
      ensures destination == if Published(before, old(Now())) then before.staging else before.destination
      ensures staging == if Published(before, old(Now())) then None else before.staging
      ensures old(bound) ==> backup == None
    {
      var backupVisible := bound && backup.Some?;
      var destinationVisible := destination.Some?;
      var stagingVisible := staging.Some?;
      if !destinationVisible && backupVisible {
        destination, backup := backup, None;
      } else if destinationVisible && !stagingVisible {
        if backupVisible {
          backup := None;
        }
      } else if destinationVisible && stagingVisible && backupVisible {
        backup := None;
      }
    }

    /** publish_results: returns normally only with the new tree in place and no backup; left
        by an exception it has settled on one complete tree. */
    method PublishResults(calm: bool) returns (returned: bool)
      requires backup == None && !bound
      modifies this
      ensures Settled(old(Now()), Now())
      ensures calm && old(staging).Some? ==> returned
      ensures returned ==> old(staging).Some? && destination == old(staging) && staging == None && backup == None
    {
      returned := Body(calm);
      if !returned {
        Recover(old(Now()));
      }
    }
  }
}
