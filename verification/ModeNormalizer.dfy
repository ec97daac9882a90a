/** The mode normaliser as a transaction beside arbitrary other processes: preflight, mutation
    log, verification and reverse rollback. */
module ModeNormalizer {
  import opened Ordering
  import opened GitTree
  import opened ModeWorld
  import SourceCreate
  import SourceVerify
  import TreeIdentity

  /** One change of mode: the retained descriptor is its inode. */
  datatype Mutation = Mutation(path: Path, ino: Ino, original: nat, identity: Identity)

  datatype Binding = Binding(root: Ino, rootIdentity: Identity, gitIdentity: Identity)

  /** Identities and modes by path. */
  datatype Catalogue = Catalogue(ids: map<Path, Identity>, modes: map<Path, nat>)

  datatype Metadata = Metadata(identity: Identity, mode: nat)

  datatype Preflight = Preflight(
    dirs: map<Path, Identity>, dirModes: map<Path, nat>,
    files: map<Path, Identity>, fileModes: map<Path, nat>)

  datatype IndexEntry = IndexEntry(path: Path, mode: Bytes)

  const LINK_MODE: Bytes := [49, 50, 48, 48, 48, 48]  // 120000

  // ----- the index -----

  predicate Supported(e: IndexEntry) {
    SafePath(e.path) && (e.mode == TreeIdentity.PLAIN_MODE || e.mode == TreeIdentity.EXECUTABLE_MODE
                         || e.mode == LINK_MODE)
  }

  function RecordOf(e: IndexEntry): Tracked {
    if e.mode == TreeIdentity.PLAIN_MODE then Tracked(e.path, SourceVerify.PLAIN_FILE, Plain)
    else if e.mode == TreeIdentity.EXECUTABLE_MODE then Tracked(e.path, SourceVerify.EXECUTABLE_FILE, Plain)
    else Tracked(e.path, 0, Link)
  }

  function RecordsOf(index: seq<IndexEntry>): (r: seq<Tracked>)
    ensures |r| == |index| && forall i | 0 <= i < |r| :: r[i] == RecordOf(index[i])
  {
    seq(|index|, i requires 0 <= i < |index| => RecordOf(index[i]))
  }

  predicate IndexSupported(index: seq<IndexEntry>) {
    index != [] && forall e | e in index :: Supported(e)
  }

  lemma SupportedIsValid(index: seq<IndexEntry>)
    requires IndexSupported(index)
    ensures RecordsValid(RecordsOf(index))
  {
    hide SafePath;
    var records := RecordsOf(index);
    forall r | r in records
      ensures SafePath(r.path) && (r.kind == Plain || r.kind == Link)
    {
      var i :| 0 <= i < |records| && records[i] == r;
      assert Supported(index[i]);
    }
  }

  function RecordKey(r: Tracked): seq<int> {
    Join(r.path)
  }

  // ----- what the preflight and the log promise -----

  /** An identity whose mode may be changed. */
  predicate Trusted(id: Identity, owner: nat) {
    (id.uid == owner || owner == 0) && (id.kind == Directory || (id.kind == Plain && id.nlink == 1))
  }

  predicate DirectoriesHold(w: World, natural: map<Ino, nat>, owner: nat, dirs: map<Path, Identity>,
                            modes: map<Path, nat>) {
    && modes.Keys == dirs.Keys
    && forall p | p in dirs ::
         && Known(w, dirs[p]) && dirs[p].kind == Directory && Trusted(dirs[p], owner)
         && dirs[p].ino in natural && modes[p] == natural[dirs[p].ino]
  }

  predicate FilesHold(w: World, natural: map<Ino, nat>, owner: nat, files: map<Path, Identity>, modes: map<Path, nat>) {
    forall p | p in files ::
      && Known(w, files[p]) && (files[p].kind == Plain || files[p].kind == Link)
      && (files[p].kind == Plain ==>
            && Trusted(files[p], owner)
            && p in modes && files[p].ino in natural && modes[p] == natural[files[p].ino])
  }

  predicate RecordsKnown(records: seq<Tracked>, files: map<Path, Identity>, modes: map<Path, nat>) {
    forall r | r in records :: r.path in files && (r.kind == Plain ==> r.path in modes)
  }

  predicate PreflightHolds(w: World, natural: map<Ino, nat>, owner: nat, records: seq<Tracked>, pf: Preflight) {
    && pf.dirs.Keys == AllDirectories(records)
    && DirectoriesHold(w, natural, owner, pf.dirs, pf.dirModes)
    && FilesHold(w, natural, owner, pf.files, pf.fileModes)
    && RecordsKnown(records, pf.files, pf.fileModes)
  }

  /** The file identities are what the names lead to, one inode a regular record. */
  predicate AuthenticFiles(w: World, root: Ino, records: seq<Tracked>, files: map<Path, Identity>) {
    && (forall r | r in records ::
          && r.path in files
          && Resolve(w, root, r.path) == Found(files[r.path].ino)
          && files[r.path].ino in w.inodes && files[r.path] == IdentityOf(w, files[r.path].ino)
          && files[r.path].kind == r.kind && ParentSearchable(w, root, r.path)
          && (r.kind == Plain ==> files[r.path].nlink == 1))
    && (forall j, k | 0 <= j < k < |records| && records[j].kind == Plain && records[k].kind == Plain ::
          files[records[j].path].ino != files[records[k].path].ino)
  }

  predicate AuthenticAll(w: World, root: Ino, records: seq<Tracked>, pf: Preflight) {
    && pf.dirs.Keys == AllDirectories(records)
    && Authentic(w, root, pf.dirs) && AuthenticFiles(w, root, records, pf.files)
  }

  /** A regular record whose mode has to be changed can be opened with the mode it was found with. */
  predicate RecordOpens(pf: Preflight, u: User, r: Tracked) {
    r.kind == Plain && r.path in pf.files && r.path in pf.fileModes && pf.fileModes[r.path] != r.mode ==>
      MayRead(pf.files[r.path].uid, pf.files[r.path].gid, pf.fileModes[r.path], u)
  }

  predicate AllOpen(pf: Preflight, u: User, records: seq<Tracked>) {
    forall r | r in records :: RecordOpens(pf, u, r)
  }

  ghost function Extended(natural: map<Ino, nat>, w: World): map<Ino, nat> {
    map i: Ino | i in w.inodes :: var m: nat := if i in natural then natural[i] else w.inodes[i].mode; m
  }

  /** The change was made through an identity the preflight recorded. */
  predicate FromPreflight(records: seq<Tracked>, pf: Preflight, m: Mutation) {
    || (m.path in pf.dirs && m.identity == pf.dirs[m.path])
    || (&& m.path in pf.files && m.identity == pf.files[m.path]
        && exists r | r in records :: r.kind == Plain && r.path == m.path)
  }

  function TrackedPaths(records: seq<Tracked>): set<Path> {
    AllDirectories(records) + set p | p in Paths(records)
  }

  lemma PathsAreTracked(records: seq<Tracked>)
    ensures AllDirectories(records) <= TrackedPaths(records)
    ensures forall r | r in records :: r.path in TrackedPaths(records)
  {
    hide AllDirectories;
    var ps := Paths(records);
    forall r | r in records
      ensures r.path in ps
    {
      var i :| 0 <= i < |records| && records[i] == r;
      assert ps[i] == r.path;
    }
  }

  function LogInodes(log: seq<Mutation>): set<Ino> {
    set m | m in log :: m.ino
  }

  /** Modes differ from the natural ones at logged inodes only, and the log knows those. */
  predicate LogHolds(w: World, natural: map<Ino, nat>, log: seq<Mutation>) {
    && Recorded(w, natural)
    && (forall i | i in w.inodes && i !in LogInodes(log) :: w.inodes[i].mode == natural[i])
    && (forall m | m in log ::
          Known(w, m.identity) && m.identity.ino == m.ino && m.ino in natural && m.original == natural[m.ino])
  }

  lemma HoldsLater(w0: World, n0: map<Ino, nat>, w1: World, n1: map<Ino, nat>, owner: nat, records: seq<Tracked>,
                   pf: Preflight)
    requires Recorded(w0, n0) && Later(w0, n0, w1, n1) && PreflightHolds(w0, n0, owner, records, pf)
    ensures PreflightHolds(w1, n1, owner, records, pf)
  {
    hide Later, Known, Trusted, AllDirectories;
    LaterKeeps(w0, n0, w1, n1);
  }

  lemma LogLater(w0: World, n0: map<Ino, nat>, w1: World, n1: map<Ino, nat>, log: seq<Mutation>)
    requires LogHolds(w0, n0, log) && Later(w0, n0, w1, n1)
    ensures LogHolds(w1, n1, log)
  {
  }

  function Rechmod(w: World, i: Ino, mode: nat): World
    requires i in w.inodes
  {
    w.(inodes := w.inodes[i := w.inodes[i].(mode := mode)])
  }

  lemma HoldsAfterChmod(w: World, natural: map<Ino, nat>, owner: nat, records: seq<Tracked>, pf: Preflight, i: Ino,
                        mode: nat)
    requires i in w.inodes && PreflightHolds(w, natural, owner, records, pf)
    ensures PreflightHolds(Rechmod(w, i, mode), natural, owner, records, pf)
  {
    hide AllDirectories, Trusted;
  }

  lemma LogAfterChmod(w: World, natural: map<Ino, nat>, log: seq<Mutation>, m: Mutation, mode: nat)
    requires LogHolds(w, natural, log) && Known(w, m.identity) && m.ino == m.identity.ino
             && m.original == natural[m.ino]
    ensures LogHolds(Rechmod(w, m.ino, mode), natural, log + [m])
  {
    assert forall x :: x in log + [m] <==> x in log || x == m;
    assert LogInodes(log + [m]) == LogInodes(log) + {m.ino};
  }

  /** Undoing one entry leaves modes that differ at the remaining entries' inodes only. */
  lemma RollbackStep(w: World, natural: map<Ino, nat>, log: seq<Mutation>, m: Mutation, rest: seq<Mutation>)
    requires LogHolds(w, natural, log) && m in log
    requires (forall x | x in log :: x == m || x in rest) && forall x | x in rest :: x in log
    ensures m.ino in w.inodes && Known(w, m.identity) && m.identity.ino == m.ino
    ensures LogHolds(Rechmod(w, m.ino, m.original), natural, rest)
  {
    forall i | i in LogInodes(log)
      ensures i == m.ino || i in LogInodes(rest)
    {
      var x :| x in log && x.ino == i;
    }
  }

  /** A log promises the same in any order. */
  lemma LogReordered(w: World, natural: map<Ino, nat>, log: seq<Mutation>, other: seq<Mutation>)
    requires LogHolds(w, natural, log) && forall x :: x in log <==> x in other
    ensures LogHolds(w, natural, other)
  {
    assert LogInodes(log) == LogInodes(other);
  }

  /** Modes that still differ belong to the entries of failed steps. */
  lemma FailedOnly(w: World, natural: map<Ino, nat>, failed: seq<Mutation>)
    requires LogHolds(w, natural, failed)
    ensures forall i | i in w.inodes && w.inodes[i].mode != natural[i] :: exists m | m in failed :: m.ino == i
  {
  }

  lemma EmptyLog(w: World, natural: map<Ino, nat>)
    ensures LogHolds(w, natural, []) <==> Pristine(w, natural)
    ensures LogInodes([]) == {}
  {
  }

  lemma ChmodSame(w0: World, w: World, i: Ino, mode: nat)
    requires SameButModes(w0, w) && i in w.inodes
    ensures SameButModes(w0, Rechmod(w, i, mode))
  {
  }

  lemma SameTrans(w0: World, w1: World, w2: World)
    requires SameButModes(w0, w1) && SameButModes(w1, w2)
    ensures SameButModes(w0, w2)
  {
  }

  lemma EasedIsSame(w0: World, w1: World)
    requires Eased(w0, w1)
    ensures SameButModes(w0, w1)
  {
  }

  /** With every mode as it was, the file system is. */
  lemma PristineIsSame(w0: World, w1: World, natural: map<Ino, nat>)
    requires Pristine(w0, natural) && Pristine(w1, natural) && SameButModes(w0, w1)
    ensures w1 == w0
  {
    forall i | i in w0.inodes
      ensures w1.inodes[i] == w0.inodes[i]
    {
      assert OnlyModeDiffers(w0.inodes[i], w1.inodes[i]);
    }
    assert w1.inodes == w0.inodes;
  }

  lemma EasedRefl(w: World)
    ensures Eased(w, w) && SameButModes(w, w)
  {
  }

  lemma EasedTrans(w0: World, w1: World, w2: World)
    requires Eased(w0, w1) && Eased(w1, w2)
    ensures Eased(w0, w2) && SameButModes(w0, w2)
  {
  }

  /** A directory set to 0755, or anything but a directory changed, is eased. */
  lemma ChmodEases(w0: World, w: World, i: Ino, mode: nat)
    requires Eased(w0, w) && i in w.inodes && (w.inodes[i].kind == Directory ==> mode == TREE_MODE)
    ensures Eased(w0, Rechmod(w, i, mode))
  {
  }

  lemma AuthenticSteady(w0: World, w1: World, root: Ino, records: seq<Tracked>, pf: Preflight)
    requires Eased(w0, w1) && AuthenticAll(w0, root, records, pf)
    ensures AuthenticAll(w1, root, records, pf)
  {
    hide Resolve, AllDirectories, Searchable, Readable;
    forall p | p in pf.dirs
      ensures OpensDirectory(w1, Resolve(w1, root, p)) && DirectoryOpens(w1, root, p)
      ensures Resolve(w1, root, p) == Resolve(w0, root, p)
      ensures pf.dirs[p] == IdentityOf(w1, Resolve(w1, root, p).ino)
    {
      SteadyDirectory(w0, w1, root, p);
    }
    forall r | r in records
      ensures Resolve(w1, root, r.path) == Resolve(w0, root, r.path) && ParentSearchable(w1, root, r.path)
    {
      ModesDoNotResolve(w0, w1, root, r.path);
      if r.path != [] {
        EasedParent(w0, w1, root, r.path);
      }
    }
  }

  lemma SteadyDirectory(w0: World, w1: World, root: Ino, p: Path)
    requires Eased(w0, w1) && OpensDirectory(w0, Resolve(w0, root, p)) && DirectoryOpens(w0, root, p)
    ensures OpensDirectory(w1, Resolve(w1, root, p)) && DirectoryOpens(w1, root, p)
    ensures Resolve(w1, root, p) == Resolve(w0, root, p)
    ensures IdentityOf(w1, Resolve(w1, root, p).ino) == IdentityOf(w0, Resolve(w0, root, p).ino)
  {
    ModesDoNotResolve(w0, w1, root, p);
    EasedOpens(w0, w1, Resolve(w0, root, p).ino);
    if p != [] {
      EasedParent(w0, w1, root, p);
    }
    hide Resolve, Searchable, Readable;
    assert OnlyModeDiffers(w0.inodes[Resolve(w0, root, p).ino], w1.inodes[Resolve(w0, root, p).ino]);
  }

  // ----- lists of directories and records -----

  lemma DirectoriesListed(records: seq<Tracked>)
    requires RecordsValid(records)
    ensures var ds := RequiredDirectories(records);
            && (forall k | 0 <= k < |ds| :: ds[k] != [] && (Parent(ds[k]) == [] || Parent(ds[k]) in ds[..k]))
            && (forall r | r in records :: r.path != [] && (Parent(r.path) == [] || Parent(r.path) in ds))
  {
    var ps, ds := Paths(records), RequiredDirectories(records);
    PathsAreSafe(records);
    SourceCreate.DirectoriesAboveAre(ps);
    SourceCreate.AllAncestorsClosed(ps);
    SourceCreate.DirectoriesOrdered(ps);
    forall k | 0 <= k < |ds|
      ensures ds[k] != [] && (Parent(ds[k]) == [] || Parent(ds[k]) in ds[..k])
    {
      assert ds[k] in ds;
      if Parent(ds[k]) != [] {
        SourceVerify.ParentsComeFirst(ds, k);
      }
    }
    forall r | r in records
      ensures r.path in ps && r.path != []
    {
      var i :| 0 <= i < |records| && records[i] == r;
      assert ps[i] == r.path;
    }
  }

  lemma PathsAreSafe(records: seq<Tracked>)
    requires RecordsValid(records)
    ensures forall p | p in Paths(records) :: SafePath(p)
  {
    hide SafePath;
    var ps := Paths(records);
    forall p | p in ps
      ensures SafePath(p)
    {
      var i :| 0 <= i < |ps| && ps[i] == p;
      assert records[i] in records;
    }
  }

  /** The root and the first k tracked directories. */
  ghost function FirstDirectories(records: seq<Tracked>, k: nat): set<Path>
    requires k <= |RequiredDirectories(records)|
  {
    {[]} + set d | d in RequiredDirectories(records)[..k]
  }

  lemma FirstStep(records: seq<Tracked>, k: nat)
    requires RecordsValid(records) && k < |RequiredDirectories(records)|
    ensures var d := RequiredDirectories(records)[k];
            && d != [] && Parent(d) in FirstDirectories(records, k)
            && FirstDirectories(records, k + 1) == FirstDirectories(records, k) + {d}
  {
    DirectoriesListed(records);
    hide RequiredDirectories, RecordsValid;
    var ds := RequiredDirectories(records);
    assert ds[..k + 1] == ds[..k] + [ds[k]];
  }

  lemma FirstEnds(records: seq<Tracked>)
    ensures FirstDirectories(records, 0) == {[]}
    ensures FirstDirectories(records, |RequiredDirectories(records)|) == AllDirectories(records)
  {
    hide RequiredDirectories;
    var ds := RequiredDirectories(records);
    assert ds[..|ds|] == ds;
  }

  lemma ClosedGrows(dirs: set<Path>, d: Path)
    requires ParentClosed(dirs) && d != [] && Parent(d) in dirs
    ensures ParentClosed(dirs + {d})
  {
  }

  lemma ParentsCovered(records: seq<Tracked>)
    requires RecordsValid(records)
    ensures forall r | r in records ::
              r.path != [] && Parent(r.path) in AllDirectories(records) && (r.kind == Plain || r.kind == Link)
  {
    DirectoriesListed(records);
    hide RequiredDirectories;
  }

  lemma DirectoriesGrow(w: World, natural: map<Ino, nat>, owner: nat, dirs: map<Path, Identity>, modes: map<Path,
                        nat>, p: Path, m: Metadata)
    requires DirectoriesHold(w, natural, owner, dirs, modes) && Pristine(w, natural)
    requires IsMetadata(w, m) && m.identity.kind == Directory && (m.identity.uid == owner || owner == 0)
    ensures DirectoriesHold(w, natural, owner, dirs[p := m.identity], modes[p := m.mode])
  {
  }

  lemma AuthenticGrows(w: World, root: Ino, dirs: map<Path, Identity>, p: Path, id: Identity)
    requires Authentic(w, root, dirs) && OpensDirectory(w, Resolve(w, root, p)) && DirectoryOpens(w, root, p)
    requires id.ino in w.inodes && Resolve(w, root, p) == Found(id.ino) && id == IdentityOf(w, id.ino)
    ensures Authentic(w, root, dirs[p := id])
  {
    hide Resolve;
  }

  lemma DirectoriesLater(w0: World, n0: map<Ino, nat>, w1: World, n1: map<Ino, nat>, owner: nat, dirs: map<Path,
                         Identity>, modes: map<Path, nat>)
    requires Recorded(w0, n0) && Later(w0, n0, w1, n1) && DirectoriesHold(w0, n0, owner, dirs, modes)
    ensures DirectoriesHold(w1, n1, owner, dirs, modes)
  {
    hide Later, Known, Trusted;
    LaterKeeps(w0, n0, w1, n1);
  }

  class Host {
    const user: User
    const owner: nat := user.uid
    /** No other process acts, no call is interrupted, and calls fail for lack of permission only. */
    const quiet: bool
    /** No step of a rollback fails or is interrupted. */
    const reliable: bool
    var inodes: map<Ino, Inode>
    var entries: map<Ino, map<Name, Ino>>
    var mounted: Lookup

    ghost var natural: map<Ino, nat>
    /** Inodes whose mode was changed. */
    ghost var touched: set<Ino>
    /** Identities read at a path through authenticated parents, and those read since the last
        change of a mode. */
    ghost var seen: set<(Path, Identity)>
    ghost var confirmed: set<(Path, Identity)>

    constructor (quiet: bool, reliable: bool, w: World)
      ensures Now() == w && this.quiet == quiet && this.reliable == reliable
    {
      user, this.quiet, this.reliable := w.user, quiet, reliable;
      inodes, entries, mounted := w.inodes, w.entries, w.mounted;
      natural, touched, seen, confirmed := map[], {}, {}, {};
    }

    function Now(): World
      reads `inodes, `entries, `mounted
    {
      World(inodes, entries, mounted, user)
    }

    // ----- primitives -----

    /** What may happen between two steps. */
    method Interfere() returns (raised: bool)
      requires Recorded(Now(), natural)
      modifies `inodes, `entries, `mounted, `natural
      ensures Later(old(Now()), old(natural), Now(), natural)
      ensures quiet ==> !raised && Now() == old(Now()) && natural == old(natural)
    {
      raised := false;
      if !quiet {
        raised := *;
        var w: World := *;
        if forall i | i in inodes :: i in w.inodes && OnlyLinksDiffer(inodes[i], w.inodes[i]) {
          natural := Extended(natural, w);
          inodes, entries, mounted := w.inodes, w.entries, w.mounted;
        }
      }
    }

    /** fchmod on a retained descriptor, only ever on an identity that was seen and trusted. */
    method Fchmod(i: Ino, mode: nat, ghost at: Path, ghost id: Identity)
      requires i in inodes && (at, id) in seen && id.ino == i && Trusted(id, owner)
      modifies `inodes, `touched, `confirmed
      ensures Now() == Rechmod(old(Now()), i, mode)
      ensures touched == old(touched) + {i}
    {
      inodes := inodes[i := inodes[i].(mode := mode)];
      touched := touched + {i};
      confirmed := {};
    }

    ghost method Note(at: Path, id: Identity)
      modifies `seen, `confirmed
      ensures seen == old(seen) + {(at, id)} && confirmed == old(confirmed) + {(at, id)}
    {
      seen, confirmed := seen + {(at, id)}, confirmed + {(at, id)};
    }

    // ----- walks -----

    /** open_directory: every component opened without following links and compared with its
        expected identity. */
    method OpenDirectory(root: Ino, p: Path, dirs: map<Path, Identity>) returns (r: Outcome<Ino>)
      requires Recorded(Now(), natural) && root in inodes && [] in dirs
      modifies `inodes, `entries, `mounted, `natural, `seen, `confirmed
      ensures Later(old(Now()), old(natural), Now(), natural)
      ensures old(seen) <= seen && old(confirmed) <= confirmed
      ensures r.Ok? ==> && p in dirs && r.value == dirs[p].ino && r.value in inodes
                        && (p, dirs[p]) in seen && (p, dirs[p]) in confirmed
      ensures quiet ==> Now() == old(Now()) && natural == old(natural)
      ensures quiet && ParentClosed(dirs.Keys) && p in dirs && Authentic(Now(), root, dirs) ==> r.Ok?
    {
      hide Later, Authentic, ParentClosed, Resolve, Child, EntryOpens;
      ghost var w0, n0 := Now(), natural;
      LaterRefl(w0, n0);
      ghost var sure := quiet && ParentClosed(dirs.Keys) && p in dirs && Authentic(w0, root, dirs);
      if sure {
        WalkStarts(w0, root, dirs);
      }
      var fd := root;
      if IdentityOf(Now(), fd) != dirs[[]] {
        return Fail;
      }
      Note([], dirs[[]]);
      var k := 0;
      assert p[..0] == [];
      while k < |p|
        invariant 0 <= k <= |p| && p[..k] in dirs && fd == dirs[p[..k]].ino && fd in inodes
        invariant Later(w0, n0, Now(), natural) && Recorded(Now(), natural)
        invariant old(seen) <= seen && old(confirmed) <= confirmed
        invariant (p[..k], dirs[p[..k]]) in seen && (p[..k], dirs[p[..k]]) in confirmed
        invariant quiet ==> Now() == w0 && natural == n0
        invariant sure ==> Resolve(w0, root, p[..k]) == Found(fd)
      {
        if sure {
          WalkStep(w0, root, dirs, p, k);
        }
        ghost var w1, n1 := Now(), natural;
        var raised := Interfere();
        LaterTrans(w0, n0, w1, n1, Now(), natural);
        if raised {
          return Fail;
        }
        var child := Child(Now(), fd, p[k]);
        if !OpensDirectory(Now(), child) || !EntryOpens(Now(), fd, child) {
          return Fail;
        }
        ghost var w2, n2 := Now(), natural;
        raised := Interfere();
        LaterTrans(w0, n0, w2, n2, Now(), natural);
        StillThere(w2, n2, Now(), natural, child.ino);
        if raised {
          return Fail;
        }
        var next := p[..k + 1];
        if next !in dirs || dirs[next] != IdentityOf(Now(), child.ino) {
          return Fail;
        }
        Note(next, dirs[next]);
        fd, k := child.ino, k + 1;
      }
      assert p[..|p|] == p;
      r := Ok(fd);
    }

    /** lstat_bound: the object at a name of an authenticated parent, links not followed. */
    method LstatBound(root: Ino, p: Path, dirs: map<Path, Identity>) returns (r: Outcome<Metadata>)
      requires Recorded(Now(), natural) && root in inodes && [] in dirs && p != []
      modifies `inodes, `entries, `mounted, `natural, `seen, `confirmed
      ensures Later(old(Now()), old(natural), Now(), natural)
      ensures old(seen) <= seen && old(confirmed) <= confirmed
      ensures r.Ok? ==>
                IsMetadata(Now(), r.value) && (p, r.value.identity) in seen && (p, r.value.identity) in confirmed
      ensures quiet ==> Now() == old(Now()) && natural == old(natural)
      ensures quiet && ParentClosed(dirs.Keys) && Parent(p) in dirs && Authentic(Now(), root, dirs) ==>
                if r.Ok? then Resolve(Now(), root, p) == Found(r.value.identity.ino) && ParentSearchable(Now(), root, p)
                  else Resolve(Now(), root, p) == Missing || !ParentSearchable(Now(), root, p)
    {
      hide Later, Authentic, ParentClosed, Resolve, Child, EntryOpens, Searchable, Readable;
      ghost var w0, n0 := Now(), natural;
      if quiet && ParentClosed(dirs.Keys) && Parent(p) in dirs && Authentic(w0, root, dirs) {
        NameStep(w0, root, dirs, p);
      }
      var parent := OpenDirectory(root, Parent(p), dirs);
      if parent.Fail? {
        return Fail;
      }
      ghost var w1, n1 := Now(), natural;
      Recording(w0, n0, w1, n1);
      var raised := Interfere();
      LaterTrans(w0, n0, w1, n1, Now(), natural);
      if raised {
        return Fail;
      }
      var child := Child(Now(), parent.value, Last(p));
      ChildExists(Now(), parent.value, Last(p));
      if child.Missing? || !Searchable(Now(), parent.value) {
        return Fail;
      }
      r := Ok(Metadata(IdentityOf(Now(), child.ino), inodes[child.ino].mode));
      Note(p, r.value.identity);
    }

    /** Opening and reading one more directory below an authenticated parent. */
    method StatDirectory(root: Ino, p: Path, dirs: map<Path, Identity>) returns (r: Outcome<Metadata>)
      requires Recorded(Now(), natural) && root in inodes && [] in dirs && p != []
      modifies `inodes, `entries, `mounted, `natural, `seen, `confirmed
      ensures Later(old(Now()), old(natural), Now(), natural)
      ensures old(seen) <= seen && old(confirmed) <= confirmed
      ensures r.Ok? ==> IsMetadata(Now(), r.value) && r.value.identity.kind == Directory
      ensures r.Ok? ==> (p, r.value.identity) in seen && (p, r.value.identity) in confirmed
      ensures quiet ==> Now() == old(Now()) && natural == old(natural)
      ensures quiet && ParentClosed(dirs.Keys) && Parent(p) in dirs && Authentic(Now(), root, dirs) ==>
                && (r.Ok? <==> OpensDirectory(Now(), Resolve(Now(), root, p)) && DirectoryOpens(Now(), root, p))
                && (r.Ok? ==> Resolve(Now(), root, p) == Found(r.value.identity.ino))
    {
      hide Later, Authentic, ParentClosed, Resolve, Child, EntryOpens, Searchable, Readable;
      ghost var w0, n0 := Now(), natural;
      if quiet && ParentClosed(dirs.Keys) && Parent(p) in dirs && Authentic(w0, root, dirs) {
        NameStep(w0, root, dirs, p);
      }
      var parent := OpenDirectory(root, Parent(p), dirs);
      if parent.Fail? {
        return Fail;
      }
      ghost var w1, n1 := Now(), natural;
      Recording(w0, n0, w1, n1);
      var raised := Interfere();
      LaterTrans(w0, n0, w1, n1, Now(), natural);
      if raised {
        return Fail;
      }
      var child := Child(Now(), parent.value, Last(p));
      if !OpensDirectory(Now(), child) || !EntryOpens(Now(), parent.value, child) {
        return Fail;
      }
      ghost var w2, n2 := Now(), natural;
      raised := Interfere();
      LaterTrans(w0, n0, w2, n2, Now(), natural);
      StillThere(w2, n2, Now(), natural, child.ino);
      if raised {
        return Fail;
      }
      r := Ok(Metadata(IdentityOf(Now(), child.ino), inodes[child.ino].mode));
      Note(p, r.value.identity);
    }

    /** open_regular: a symbolic link cannot be opened, and the opened object must be the
        expected one. */
    method OpenRegular(root: Ino, p: Path, dirs: map<Path, Identity>, expected: Identity) returns (r: Outcome<Ino>)
      requires Recorded(Now(), natural) && root in inodes && [] in dirs && p != []
      modifies `inodes, `entries, `mounted, `natural, `seen, `confirmed
      ensures Later(old(Now()), old(natural), Now(), natural)
      ensures old(seen) <= seen && old(confirmed) <= confirmed
      ensures r.Ok? ==> r.value == expected.ino && r.value in inodes && expected.kind != Link
      ensures quiet ==> Now() == old(Now()) && natural == old(natural)
      ensures quiet && ParentClosed(dirs.Keys) && Parent(p) in dirs && Authentic(Now(), root, dirs)
              && Resolve(Now(), root, p) == Found(expected.ino) && expected.ino in inodes
              && expected == IdentityOf(Now(), expected.ino) && expected.kind == Plain
              && ParentSearchable(Now(), root, p) ==>
                (r.Ok? <==> Readable(Now(), expected.ino))
    {
      hide Later, Authentic, ParentClosed, Resolve, Child, EntryOpens, Searchable, Readable;
      ghost var w0, n0 := Now(), natural;
      if quiet && ParentClosed(dirs.Keys) && Parent(p) in dirs && Authentic(w0, root, dirs) {
        NameStep(w0, root, dirs, p);
      }
      var parent := OpenDirectory(root, Parent(p), dirs);
      if parent.Fail? {
        return Fail;
      }
      ghost var w1, n1 := Now(), natural;
      Recording(w0, n0, w1, n1);
      var raised := Interfere();
      LaterTrans(w0, n0, w1, n1, Now(), natural);
      if raised {
        return Fail;
      }
      var child := Child(Now(), parent.value, Last(p));
      ChildExists(Now(), parent.value, Last(p));
      EntryMeans(Now(), parent.value, child);
      if child.Missing? || inodes[child.ino].kind == Link || !EntryOpens(Now(), parent.value, child) {
        return Fail;
      }
      ghost var w2, n2 := Now(), natural;
      raised := Interfere();
      LaterTrans(w0, n0, w2, n2, Now(), natural);
      StillThere(w2, n2, Now(), natural, child.ino);
      if raised || IdentityOf(Now(), child.ino) != expected {
        return Fail;
      }
      r := Ok(child.ino);
    }

    // ----- the repository binding -----

    method OpenBinding() returns (r: Outcome<Binding>)
      requires Recorded(Now(), natural)
      modifies `inodes, `entries, `mounted, `natural
      ensures Later(old(Now()), old(natural), Now(), natural)
      ensures r.Ok? ==>
                r.value.root in inodes && r.value.rootIdentity.ino == r.value.root
                && r.value.rootIdentity.kind == Directory
      ensures r.Ok? ==>
                Known(Now(), r.value.rootIdentity) && Known(Now(), r.value.gitIdentity)
                && r.value.gitIdentity.kind == Directory
      ensures quiet ==> Now() == old(Now()) && natural == old(natural)
      ensures quiet ==> (r.Ok? <==> RepositoryOpens(Now())) && (r.Ok? ==> BindingHolds(Now(), r.value))
    {
      hide Later, Child;
      ghost var w0, n0 := Now(), natural;
      LaterRefl(w0, n0);
      if !OpensDirectory(Now(), mounted) || !Readable(Now(), mounted.ino) {
        return Fail;
      }
      var root := mounted.ino;
      var raised := Interfere();
      Recording(w0, n0, Now(), natural);
      StillThere(w0, n0, Now(), natural, root);
      if raised {
        return Fail;
      }
      var rootIdentity := IdentityOf(Now(), root);
      var git := Child(Now(), root, GIT);
      if !OpensDirectory(Now(), git) || !EntryOpens(Now(), root, git) {
        return Fail;
      }
      ghost var w1, n1 := Now(), natural;
      raised := Interfere();
      LaterTrans(w0, n0, w1, n1, Now(), natural);
      StillThere(w1, n1, Now(), natural, git.ino);
      StillThere(w1, n1, Now(), natural, root);
      if raised {
        return Fail;
      }
      r := Ok(Binding(root, rootIdentity, IdentityOf(Now(), git.ino)));
    }

    /** The caller's path led to the bound root and its .git since the last change of a mode. */
    ghost predicate Rebound(b: Binding)
      reads `confirmed
    {
      exists r, g :: ([], r) in confirmed && ([GIT], g) in confirmed && Stable(r, b.rootIdentity)
        && Stable(g, b.gitIdentity)
    }

    /** reauthenticate_repo: the caller's path still leads to the bound root and its .git. */
    method Reauthenticate(b: Binding) returns (ok: bool)
      requires Recorded(Now(), natural)
      modifies `inodes, `entries, `mounted, `natural, `seen, `confirmed
      ensures Later(old(Now()), old(natural), Now(), natural)
      ensures old(seen) <= seen && old(confirmed) <= confirmed
      ensures ok ==> Rebound(b)
      ensures quiet ==> Now() == old(Now()) && natural == old(natural) && (ok <==> BindingHolds(Now(), b))
    {
      hide Later, Child;
      ghost var w0, n0 := Now(), natural;
      ok := false;
      var raised := Interfere();
      Recording(w0, n0, Now(), natural);
      if raised || !OpensDirectory(Now(), mounted) || !Readable(Now(), mounted.ino) {
        return;
      }
      var root := mounted.ino;
      var rootIdentity := IdentityOf(Now(), root);
      if !Stable(rootIdentity, b.rootIdentity) {
        return;
      }
      Note([], rootIdentity);
      ghost var w1, n1 := Now(), natural;
      raised := Interfere();
      LaterTrans(w0, n0, w1, n1, Now(), natural);
      var git := Child(Now(), root, GIT);
      if raised || !OpensDirectory(Now(), git) || !EntryOpens(Now(), root, git) {
        return;
      }
      var gitIdentity := IdentityOf(Now(), git.ino);
      Note([GIT], gitIdentity);
      ok := Stable(gitIdentity, b.gitIdentity);
    }

    // ----- preflight -----

    ghost predicate AllSeen(ids: map<Path, Identity>)
      reads `seen
    {
      forall p | p in ids :: (p, ids[p]) in seen
    }

    /** The tracked parents, shallow ones first, each opened below its recorded parent. */
    method PreflightDirectories(root: Ino, top: Metadata, records: seq<Tracked>)
      returns (r: Outcome<Catalogue>)
      requires Pristine(Now(), natural) && RecordsValid(records)
      requires root in inodes && top.identity.ino == root && IsMetadata(Now(), top) && Trusted(top.identity, owner)
      requires top.identity.kind == Directory && ([], top.identity) in seen
      modifies `inodes, `entries, `mounted, `natural, `seen, `confirmed
      ensures Later(old(Now()), old(natural), Now(), natural) && Pristine(Now(), natural)
      ensures old(seen) <= seen
      ensures r.Ok? ==> r.value.ids.Keys == AllDirectories(records) && AllSeen(r.value.ids)
                        && DirectoriesHold(Now(), natural, owner, r.value.ids, r.value.modes)
      ensures quiet ==> Now() == old(Now()) && natural == old(natural)
      ensures quiet ==> (r.Ok? <==> forall d | d in RequiredDirectories(records) ::
                DirectoryFits(Now(), root, owner, d))
      ensures quiet && r.Ok? ==> Authentic(Now(), root, r.value.ids) && ParentClosed(r.value.ids.Keys)
    {
      hide Later, Pristine, Authentic, ParentClosed, Resolve, RequiredDirectories, DirectoriesHold, RecordsValid,
           FirstDirectories, AllDirectories;
      ghost var w0, n0 := Now(), natural;
      Start(w0, n0, root, owner, top);
      FirstEnds(records);
      var dirs: map<Path, Identity> := map[[] := top.identity];
      var modes: map<Path, nat> := map[[] := top.mode];
      var ds := RequiredDirectories(records);
      for k := 0 to |ds|
        invariant Later(w0, n0, Now(), natural) && Recorded(Now(), natural) && Pristine(Now(), natural)
        invariant old(seen) <= seen && AllSeen(dirs)
        invariant dirs.Keys == FirstDirectories(records, k) && ParentClosed(dirs.Keys) && [] in dirs
        invariant DirectoriesHold(Now(), natural, owner, dirs, modes)
        invariant root in inodes
        invariant quiet ==> Now() == w0 && natural == n0 && Authentic(w0, root, dirs)
        invariant quiet ==> forall j | 0 <= j < k :: DirectoryFits(w0, root, owner, ds[j])
      {
        FirstStep(records, k);
        ghost var w1, n1 := Now(), natural;
        var m := StatDirectory(root, ds[k], dirs);
        LaterTrans(w0, n0, w1, n1, Now(), natural);
        LaterKeeps(w1, n1, Now(), natural);
        DirectoriesLater(w1, n1, Now(), natural, owner, dirs, modes);
        if m.Fail? || !(m.value.identity.uid == owner || owner == 0) {
          assert ds[k] in ds;
          return Fail;
        }
        DirectoriesGrow(Now(), natural, owner, dirs, modes, ds[k], m.value);
        ClosedGrows(dirs.Keys, ds[k]);
        if quiet {
          AuthenticGrows(w0, root, dirs, ds[k], m.value.identity);
        }
        assert dirs[ds[k] := m.value.identity].Keys == dirs.Keys + {ds[k]};
        dirs, modes := dirs[ds[k] := m.value.identity], modes[ds[k] := m.value.mode];
      }
      r := Ok(Catalogue(dirs, modes));
    }

    /** Every record's own object: right type, owned, unaliased, one inode a regular record. */
    method PreflightFiles(root: Ino, records: seq<Tracked>, dirs: map<Path, Identity>) returns (r: Outcome<Catalogue>)
      requires Pristine(Now(), natural) && Recorded(Now(), natural) && RecordsValid(records)
      requires root in inodes && [] in dirs && dirs.Keys == AllDirectories(records)
      modifies `inodes, `entries, `mounted, `natural, `seen, `confirmed
      ensures Later(old(Now()), old(natural), Now(), natural) && Pristine(Now(), natural)
      ensures old(seen) <= seen
      ensures r.Ok? ==> && FilesHold(Now(), natural, owner, r.value.ids, r.value.modes)
                        && RecordsKnown(records, r.value.ids, r.value.modes) && AllSeen(r.value.ids)
      ensures quiet ==> Now() == old(Now()) && natural == old(natural)
      ensures quiet && Authentic(Now(), root, dirs) && ParentClosed(dirs.Keys) ==>
                && (r.Ok? <==> forall k | 0 <= k < |records| :: RecordFits(Now(), root, owner, records, k))
                && (r.Ok? ==> AuthenticFiles(Now(), root, records, r.value.ids))
    {
      hide Later, Pristine, Authentic, ParentClosed, Resolve, FilesHold, RecordsValid, AllDirectories, RecordsKnown,
           AuthenticFiles, RecordFits, TrackedInodes;
      ghost var w0, n0 := Now(), natural;
      ghost var sure := quiet && Authentic(w0, root, dirs) && ParentClosed(dirs.Keys);
      LaterRefl(w0, n0);
      NoFiles(w0, n0, root, owner, records);
      ParentsCovered(records);
      var files: map<Path, Identity>, modes: map<Path, nat>, tracked: set<Ino> := map[], map[], {};
      for k := 0 to |records|
        invariant Later(w0, n0, Now(), natural) && Recorded(Now(), natural) && Pristine(Now(), natural)
        invariant old(seen) <= seen && AllSeen(files) && root in inodes
        invariant FilesHold(Now(), natural, owner, files, modes) && RecordsKnown(records[..k], files, modes)
        invariant quiet ==> Now() == w0 && natural == n0
        invariant sure ==>
                    AuthenticFiles(w0, root, records[..k], files) && tracked == TrackedInodes(w0, root, records[..k])
        invariant sure ==> forall j | 0 <= j < k :: RecordFits(w0, root, owner, records, j)
      {
        var record := records[k];
        assert record in records;
        ghost var w1, n1 := Now(), natural;
        var st := LstatBound(root, record.path, dirs);
        LaterTrans(w0, n0, w1, n1, Now(), natural);
        LaterKeeps(w1, n1, Now(), natural);
        FilesLater(w1, n1, Now(), natural, owner, files, modes);
        if sure {
          FitsWhen(w0, root, owner, records, k);
        }
        if st.Fail? {
          return Fail;
        }
        var id := st.value.identity;
        if id.kind != record.kind {
          return Fail;
        }
        if record.kind == Plain {
          if !(id.uid == owner || owner == 0) || id.nlink != 1 || id.ino in tracked {
            return Fail;
          }
          tracked := tracked + {id.ino};
        }
        FilesGrow(Now(), natural, owner, files, modes, records, k, st.value);
        if sure {
          AuthenticFilesGrow(w0, root, records, k, files, id);
        }
        files := files[record.path := id];
        if record.kind == Plain {
          modes := modes[record.path := st.value.mode];
        }
      }
      assert records[..|records|] == records;
      r := Ok(Catalogue(files, modes));
    }

    // ----- mutation -----

    ghost predicate Ready(records: seq<Tracked>, pf: Preflight)
      reads `inodes, `entries, `mounted, `natural, `seen
    {
      && Recorded(Now(), natural) && PreflightHolds(Now(), natural, owner, records, pf)
      && AllSeen(pf.dirs) && AllSeen(pf.files)
    }

    /** Every logged identity was read at a tracked path and may be changed. */
    ghost predicate LogSeen(records: seq<Tracked>, log: seq<Mutation>)
      reads `seen
    {
      forall m | m in log :: Trusted(m.identity, owner) && (m.path, m.identity) in seen
        && m.path in TrackedPaths(records)
    }

    ghost predicate LogSound(records: seq<Tracked>, pf: Preflight, log: seq<Mutation>)
      reads `seen
    {
      LogSeen(records, log) && forall m | m in log :: FromPreflight(records, pf, m)
    }

    /** One change of mode and its log entry; no fault lands between the two. */
    method Change(m: Mutation, mode: nat, ghost records: seq<Tracked>, ghost pf: Preflight, log: seq<Mutation>)
      returns (longer: seq<Mutation>)
      requires Ready(records, pf) && LogHolds(Now(), natural, log) && LogSound(records, pf, log)
      requires m.ino in inodes && m.identity.ino == m.ino && m.ino in natural && m.original == natural[m.ino]
      requires (m.path, m.identity) in seen && Trusted(m.identity, owner) && Known(Now(), m.identity)
      requires m.path in TrackedPaths(records) && FromPreflight(records, pf, m)
      modifies `inodes, `touched, `confirmed
      ensures Ready(records, pf) && LogHolds(Now(), natural, longer) && LogSound(records, pf, longer)
      ensures Now() == Rechmod(old(Now()), m.ino, mode) && touched == old(touched) + {m.ino}
      ensures longer == log + [m] && LogInodes(longer) == LogInodes(log) + {m.ino}
    {
      hide PreflightHolds, LogHolds, Known, Trusted, LogInodes, TrackedPaths, FromPreflight;
      Changed(Now(), natural, owner, records, pf, log, m, mode);
      Fchmod(m.ino, mode, m.path, m.identity);
      longer := log + [m];
    }

    ghost predicate Mutating(records: seq<Tracked>, pf: Preflight, log: seq<Mutation>)
      reads `inodes, `entries, `mounted, `natural, `seen
    {
      Ready(records, pf) && RecordsValid(records) && LogHolds(Now(), natural, log) && LogSound(records, pf, log)
    }

    /** One tracked directory: left alone at 0755, otherwise reopened, changed and logged. */
    method ChmodDirectory(root: Ino, d: Path, ghost records: seq<Tracked>, pf: Preflight, log: seq<Mutation>,
                          ghost done: set<Path>, ghost t0: set<Ino>)
      returns (ok: bool, longer: seq<Mutation>)
      requires Mutating(records, pf, log) && root in inodes && d in AllDirectories(records)
      requires DirectoriesDone(Now(), pf.dirs, done) && LogDone(Now(), log)
      requires touched == t0 + LogInodes(log) && forall m | m in log :: m.identity.kind == Directory
      modifies `inodes, `entries, `mounted, `natural, `touched, `seen, `confirmed
      ensures Mutating(records, pf, longer) && root in inodes && Extends(old(natural), natural)
      ensures DirectoriesDone(Now(), pf.dirs, if ok then done + {d} else done) && LogDone(Now(), longer)
      ensures forall m | m in longer :: m.identity.kind == Directory
      ensures touched == t0 + LogInodes(longer)
      ensures quiet ==> Eased(old(Now()), Now()) && natural == old(natural)
      ensures quiet && AuthenticAll(old(Now()), root, records, pf) ==> ok
    {
      hide Later, Authentic, ParentClosed, Resolve, AllDirectories, PreflightHolds, LogHolds, AuthenticAll,
           DirectoriesDone, Known, Trusted, LogInodes, Eased, LogDone, RecordsValid, TrackedPaths;
      ghost var w1, n1 := Now(), natural;
      EasedRefl(w1);
      longer := log;
      KeysAre(w1, n1, owner, records, pf);
      DirectoryKnown(w1, n1, owner, records, pf, d);
      if pf.dirModes[d] == TREE_MODE {
        UnchangedIsDone(w1, n1, log, pf, owner, records, done, d);
        ok := true;
        return;
      }
      if quiet && AuthenticAll(w1, root, records, pf) {
        AuthenticParts(w1, root, records, pf);
      }
      var fd := OpenDirectory(root, d, pf.dirs);
      Across(w1, n1, Now(), natural, owner, records, pf, log);
      DoneLater(w1, n1, Now(), natural, pf.dirs, done, log);
      ok := fd.Ok?;
      if ok {
        ghost var w2 := Now();
        DirectoryKnown(w2, natural, owner, records, pf, d);
        PathsAreTracked(records);
        var mutation := Mutation(d, fd.value, pf.dirModes[d], pf.dirs[d]);
        longer := Change(mutation, TREE_MODE, records, pf, log);
        DoneAfterChmod(w2, pf.dirs, done, log, mutation);
        if quiet {
          ChmodEases(w1, w2, fd.value, TREE_MODE);
        }
      }
    }

    /** Directories first: whatever differs from 0755 is changed and logged. */
    method ChmodDirectories(root: Ino, records: seq<Tracked>, pf: Preflight) returns (ok: bool, log: seq<Mutation>)
      requires Ready(records, pf) && Pristine(Now(), natural) && root in inodes && RecordsValid(records)
      modifies `inodes, `entries, `mounted, `natural, `touched, `seen, `confirmed
      ensures Mutating(records, pf, log) && root in inodes
      ensures Extends(old(natural), natural) && touched == old(touched) + LogInodes(log)
      ensures forall m | m in log :: m.identity.kind == Directory
      ensures ok ==> DirectoriesDone(Now(), pf.dirs, pf.dirs.Keys)
      ensures quiet ==> Eased(old(Now()), Now()) && natural == old(natural)
      ensures quiet && AuthenticAll(old(Now()), root, records, pf) ==> ok
    {
      hide Later, Pristine, AllDirectories, RequiredDirectories, SourceVerify.DepthKey, PreflightHolds, LogHolds,
           AuthenticAll, DirectoriesDone, LogInodes, Eased, LogDone, RecordsValid, Trusted, TrackedPaths;
      ghost var w0, n0, t0 := Now(), natural, touched;
      EasedRefl(w0);
      EmptyLog(w0, n0);
      log := [];
      var order := SortBy([[]] + RequiredDirectories(records), SourceVerify.DepthKey);
      OrderCovers(records, order);
      NoneDone(w0, pf.dirs);
      ok := true;
      for k := 0 to |order|
        invariant ok && Mutating(records, pf, log) && root in inodes
        invariant Extends(n0, natural) && touched == t0 + LogInodes(log)
        invariant forall m | m in log :: m.identity.kind == Directory
        invariant DirectoriesDone(Now(), pf.dirs, Firsts(order, k)) && LogDone(Now(), log)
        invariant quiet ==> Eased(w0, Now()) && natural == n0
      {
        FirstsStep(order, k);
        ghost var w1, done := Now(), Firsts(order, k);
        if quiet && AuthenticAll(w0, root, records, pf) {
          AuthenticSteady(w0, w1, root, records, pf);
        }
        ok, log := ChmodDirectory(root, order[k], records, pf, log, done, t0);
        if quiet {
          EasedTrans(w0, w1, Now());
        }
        if !ok {
          return;
        }
      }
      KeysAre(Now(), natural, owner, records, pf);
    }

    /** One tracked regular file: left alone at its mode, otherwise reopened, changed and logged. */
    method ChmodFile(root: Ino, record: Tracked, ghost records: seq<Tracked>, pf: Preflight, log: seq<Mutation>,
                     ghost done: set<Tracked>, ghost t0: set<Ino>)
      returns (ok: bool, longer: seq<Mutation>)
      requires Mutating(records, pf, log) && root in inodes && record in records
      requires DirectoriesDone(Now(), pf.dirs, pf.dirs.Keys) && touched == t0 + LogInodes(log)
      modifies `inodes, `entries, `mounted, `natural, `touched, `seen, `confirmed
      ensures Mutating(records, pf, longer) && root in inodes && Extends(old(natural), natural)
      ensures DirectoriesDone(Now(), pf.dirs, pf.dirs.Keys) && touched == t0 + LogInodes(longer)
      ensures quiet ==> Eased(old(Now()), Now()) && natural == old(natural)
      ensures quiet && AuthenticAll(old(Now()), root, records, pf)
              && FilesDone(old(Now()), records, pf.files, done, log) && (record.kind == Plain ==> record !in done) ==>
                && (ok <==> RecordOpens(pf, user, record))
                && (ok ==> FilesDone(Now(), records, pf.files, done + {record}, longer))
    {
      hide Later, Authentic, ParentClosed, Resolve, AllDirectories, PreflightHolds, LogHolds, AuthenticAll,
           DirectoriesDone, Known, Trusted, LogInodes, Eased, RecordsValid, TrackedPaths, FilesDone,
           UniqueFiles, AuthenticFiles, MayRead, Readable, ParentSearchable;
      ghost var w1, n1 := Now(), natural;
      ghost var sure := && quiet && AuthenticAll(w1, root, records, pf)
                        && FilesDone(w1, records, pf.files, done, log) && (record.kind == Plain ==> record !in done);
      EasedRefl(w1);
      longer := log;
      KeysAre(w1, n1, owner, records, pf);
      FileKnown(w1, n1, owner, records, pf, record);
      if sure {
        AuthenticParts(w1, root, records, pf);
        AuthenticFile(w1, root, records, pf, record);
        UniqueWhenAuthentic(w1, root, records, pf);
      }
      if record.kind != Plain || pf.fileModes[record.path] == record.mode {
        if sure {
          FileSkipped(w1, n1, log, owner, records, pf, done, record);
        }
        ok := true;
        return;
      }
      if sure {
        FileAsFound(w1, n1, root, owner, records, pf, log, done, record);
      }
      ParentsCovered(records);
      var id := pf.files[record.path];
      var fd := OpenRegular(root, record.path, pf.dirs, id);
      Across(w1, n1, Now(), natural, owner, records, pf, log);
      DirectoriesStay(w1, n1, Now(), natural, pf.dirs);
      ok := fd.Ok?;
      if ok {
        ghost var w2 := Now();
        FileKnown(w2, natural, owner, records, pf, record);
        PathsAreTracked(records);
        var mutation := Mutation(record.path, fd.value, pf.fileModes[record.path], id);
        longer := Change(mutation, record.mode, records, pf, log);
        DirectoriesUnaffected(w2, natural, owner, records, pf, id, record.mode);
        if quiet {
          KnownKind(w2, id);
          ChmodEases(w1, w2, fd.value, record.mode);
        }
        if sure {
          FileChanged(w2, records, pf.files, done, log, mutation, record);
        }
      }
    }

    /** The regular files in path order. */
    method ChmodFiles(root: Ino, records: seq<Tracked>, pf: Preflight, start: seq<Mutation>, ghost t0: set<Ino>)
      returns (ok: bool, log: seq<Mutation>)
      requires Mutating(records, pf, start) && root in inodes
      requires DirectoriesDone(Now(), pf.dirs, pf.dirs.Keys) && touched == t0 + LogInodes(start)
      requires forall m | m in start :: m.identity.kind == Directory
      modifies `inodes, `entries, `mounted, `natural, `touched, `seen, `confirmed
      ensures Mutating(records, pf, log) && root in inodes
      ensures Extends(old(natural), natural) && touched == t0 + LogInodes(log)
      ensures DirectoriesDone(Now(), pf.dirs, pf.dirs.Keys)
      ensures quiet ==> Eased(old(Now()), Now()) && natural == old(natural)
      ensures quiet && AuthenticAll(old(Now()), root, records, pf) ==>
                && (ok <==> AllOpen(pf, user, records))
                && (ok ==> FilesDone(Now(), records, pf.files, Firsts(records, |records|), log))
    {
      hide AllDirectories, PreflightHolds, LogHolds, AuthenticAll, DirectoriesDone, LogInodes, Eased,
           RecordsValid, Trusted, TrackedPaths, FilesDone, RecordKey, Firsts, RecordOpens, SortBy;
      ghost var w0, n0 := Now(), natural;
      ghost var sure := quiet && AuthenticAll(w0, root, records, pf);
      EasedRefl(w0);
      log := start;
      var order := SortBy(records, RecordKey);
      FirstsAll(order, records);
      FirstsAll(records, records);
      if sure {
        FilesStart(w0, n0, root, owner, records, pf, log);
      }
      ok := true;
      for k := 0 to |order|
        invariant ok && Mutating(records, pf, log) && root in inodes
        invariant Extends(n0, natural) && touched == t0 + LogInodes(log)
        invariant DirectoriesDone(Now(), pf.dirs, pf.dirs.Keys)
        invariant quiet ==> Eased(w0, Now()) && natural == n0
        invariant sure ==> FilesDone(Now(), records, pf.files, Firsts(order, k), log)
        invariant sure ==> forall r | r in Firsts(order, k) :: RecordOpens(pf, user, r)
      {
        FirstsStep(order, k);
        ghost var w1, done := Now(), Firsts(order, k);
        if sure {
          AuthenticSteady(w0, w1, root, records, pf);
          PlainOnce(w1, root, records, pf, order, k);
        }
        ok, log := ChmodFile(root, order[k], records, pf, log, done, t0);
        if quiet {
          EasedTrans(w0, w1, Now());
        }
        if !ok {
          return;
        }
      }
    }

    // ----- verification -----

    /** Every record was found again under its own name after the last change of a mode, with
        its mode if it is regular. */
    ghost predicate RecordConfirmed(r: Tracked, files: map<Path, Identity>)
      reads `inodes, `confirmed
    {
      && r.path in files && (r.path, files[r.path]) in confirmed
      && (r.kind == Plain ==>
            files[r.path].nlink == 1 && files[r.path].ino in inodes && inodes[files[r.path].ino].mode == r.mode)
    }

    ghost predicate DirectoryConfirmed(d: Path, dirs: map<Path, Identity>)
      reads `inodes, `confirmed
    {
      d in dirs && (d, dirs[d]) in confirmed && dirs[d].ino in inodes && inodes[dirs[d].ino].mode == TREE_MODE
    }

    method VerifyRecords(root: Ino, records: seq<Tracked>, pf: Preflight) returns (ok: bool)
      requires Ready(records, pf) && RecordsValid(records) && root in inodes
      modifies `inodes, `entries, `mounted, `natural, `seen, `confirmed
      ensures Later(old(Now()), old(natural), Now(), natural)
      ensures old(seen) <= seen && old(confirmed) <= confirmed
      ensures ok ==> forall r | r in records :: RecordConfirmed(r, pf.files)
      ensures quiet ==> Now() == old(Now()) && natural == old(natural)
      ensures quiet && AuthenticAll(Now(), root, records, pf) && FilesHaveModes(Now(), records, pf.files) ==> ok
    {
      hide Later, PreflightHolds, AuthenticAll, Authentic, AuthenticFiles, ParentClosed, Resolve, AllDirectories,
           RecordsValid, FilesHaveModes, FinalInodes;
      ghost var w0, n0 := Now(), natural;
      ghost var sure := quiet && AuthenticAll(w0, root, records, pf) && FilesHaveModes(w0, records, pf.files);
      LaterRefl(w0, n0);
      KeysAre(w0, n0, owner, records, pf);
      ParentsCovered(records);
      NoFinalInodes(records, pf.files);
      if sure {
        AuthenticParts(w0, root, records, pf);
      }
      ok := false;
      var final: set<Ino> := {};
      for k := 0 to |records|
        invariant Later(w0, n0, Now(), natural) && Recorded(Now(), natural) && root in inodes
        invariant old(seen) <= seen && old(confirmed) <= confirmed
        invariant forall j | 0 <= j < k :: RecordConfirmed(records[j], pf.files)
        invariant quiet ==> Now() == w0 && natural == n0
        invariant sure ==> final == FinalInodes(records[..k], pf.files)
      {
        var record := records[k];
        assert record in records;
        if sure {
          AuthenticFile(w0, root, records, pf, record);
          FinalStep(w0, root, records, pf, k);
          if record.kind == Plain {
            ModeOf(w0, records, pf.files, record);
          }
        }
        ghost var w1, n1 := Now(), natural;
        FileListed(w0, n0, owner, records, pf, record);
        var st := LstatBound(root, record.path, pf.dirs);
        LaterTrans(w0, n0, w1, n1, Now(), natural);
        LaterKeeps(w1, n1, Now(), natural);
        if st.Fail? || st.value.identity != pf.files[record.path] {
          return;
        }
        if record.kind == Plain {
          var id := st.value.identity;
          if id.nlink != 1 || id.ino in final {
            return;
          }
          final := final + {id.ino};
          if st.value.mode != record.mode {
            return;
          }
        }
      }
      ok := true;
    }

    method VerifyDirectory(root: Ino, d: Path, dirs: map<Path, Identity>) returns (ok: bool)
      requires Recorded(Now(), natural) && root in inodes && [] in dirs
      modifies `inodes, `entries, `mounted, `natural, `seen, `confirmed
      ensures Later(old(Now()), old(natural), Now(), natural)
      ensures old(seen) <= seen && old(confirmed) <= confirmed
      ensures ok ==> DirectoryConfirmed(d, dirs)
      ensures quiet ==> Now() == old(Now()) && natural == old(natural)
      ensures (&& quiet && d in dirs && Authentic(Now(), root, dirs) && ParentClosed(dirs.Keys)
               && dirs[d].ino in inodes && dirs[d] == IdentityOf(Now(), dirs[d].ino)
               && inodes[dirs[d].ino].mode == TREE_MODE)
              ==> ok
    {
      hide Later, Authentic, ParentClosed;
      ghost var w0, n0 := Now(), natural;
      ok := false;
      var fd := OpenDirectory(root, d, dirs);
      if fd.Fail? {
        return;
      }
      ghost var w1, n1 := Now(), natural;
      Recording(w0, n0, w1, n1);
      var raised := Interfere();
      LaterTrans(w0, n0, w1, n1, Now(), natural);
      StillThere(w1, n1, Now(), natural, fd.value);
      ok := !raised && IdentityOf(Now(), fd.value) == dirs[d] && inodes[fd.value].mode == TREE_MODE;
    }

    method VerifyDirectories(root: Ino, records: seq<Tracked>, pf: Preflight) returns (ok: bool)
      requires Ready(records, pf) && RecordsValid(records) && root in inodes
      modifies `inodes, `entries, `mounted, `natural, `seen, `confirmed
      ensures Later(old(Now()), old(natural), Now(), natural)
      ensures old(seen) <= seen && old(confirmed) <= confirmed
      ensures ok ==> forall d | d in AllDirectories(records) :: DirectoryConfirmed(d, pf.dirs)
      ensures quiet ==> Now() == old(Now()) && natural == old(natural)
      ensures quiet && AuthenticAll(Now(), root, records, pf) && DirectoriesDone(Now(), pf.dirs, pf.dirs.Keys) ==> ok
    {
      hide Later, PreflightHolds, AuthenticAll, Authentic, ParentClosed, AllDirectories, RequiredDirectories,
           RecordsValid, DirectoriesDone, Firsts;
      ghost var w0, n0 := Now(), natural;
      ghost var sure := quiet && AuthenticAll(w0, root, records, pf) && DirectoriesDone(w0, pf.dirs, pf.dirs.Keys);
      LaterRefl(w0, n0);
      KeysAre(w0, n0, owner, records, pf);
      if sure {
        AuthenticParts(w0, root, records, pf);
      }
      var order := [[]] + RequiredDirectories(records);
      FirstsAll(order, order);
      ListCovers(records);
      ok := true;
      for k := 0 to |order|
        invariant ok && Later(w0, n0, Now(), natural) && Recorded(Now(), natural) && root in inodes
        invariant old(seen) <= seen && old(confirmed) <= confirmed
        invariant forall d | d in Firsts(order, k) :: DirectoryConfirmed(d, pf.dirs)
        invariant quiet ==> Now() == w0 && natural == n0
      {
        FirstsStep(order, k);
        if sure {
          DirectoryAgrees(w0, root, records, pf, order[k]);
        }
        ghost var w1, n1 := Now(), natural;
        ok := VerifyDirectory(root, order[k], pf.dirs);
        LaterTrans(w0, n0, w1, n1, Now(), natural);
        LaterKeeps(w1, n1, Now(), natural);
        if !ok {
          return;
        }
      }
    }

    // ----- rollback -----

    /** Replay the log in reverse through the retained descriptors.  A step may fail or be
        interrupted; it is then reported by its path and the replay goes on.  Every mode that
        still differs belongs to a reported step. */
    method Rollback(records: seq<Tracked>, log: seq<Mutation>) returns (errors: seq<Path>, ghost failed: seq<Mutation>)
      requires LogHolds(Now(), natural, log) && LogSeen(records, log) && LogInodes(log) <= touched
      modifies `inodes, `entries, `mounted, `natural, `touched, `confirmed
      ensures LogHolds(Now(), natural, failed) && forall m | m in failed :: m in log && m.path in errors
      ensures errors == [] ==> failed == [] && Pristine(Now(), natural)
      ensures reliable || quiet ==> errors == []
      ensures Extends(old(natural), natural) && touched == old(touched)
      ensures quiet ==> natural == old(natural) && SameButModes(old(Now()), Now())
    {
      hide Later, LogHolds, Known, Trusted, TrackedPaths, Pristine, SameButModes;
      ghost var w0 := Now();
      EasedRefl(w0);
      errors, failed := [], [];
      var k := |log|;
      assert log[..k] + [] == log;
      while k > 0
        invariant 0 <= k <= |log| && (reliable || quiet ==> errors == []) && (errors == [] ==> failed == [])
        invariant LogHolds(Now(), natural, log[..k] + failed) && Extends(old(natural), natural)
        invariant forall m | m in failed :: m in log && m.path in errors
        invariant touched == old(touched)
        invariant quiet ==> natural == old(natural) && SameButModes(w0, Now())
      {
        ghost var left := log[..k] + failed;
        k := k - 1;
        var m := log[k];
        assert m in log && m in left && log[..k + 1] == log[..k] + [m];
        ghost var w1, n1 := Now(), natural;
        LogRecorded(w1, n1, left);
        var raised := Interfere();
        LogLater(w1, n1, Now(), natural, left);
        LaterKeeps(w1, n1, Now(), natural);
        RollbackStep(Now(), natural, left, m, log[..k] + failed);
        if (raised && !reliable) || !Stable(IdentityOf(Now(), m.ino), m.identity) {
          errors := errors + [m.path];
          failed := failed + [m];
          LogReordered(Now(), natural, left, log[..k] + failed);
        } else {
          assert m.ino in LogInodes(log);
          if quiet {
            ChmodSame(w0, Now(), m.ino, m.original);
          }
          Fchmod(m.ino, m.original, m.path, m.identity);
          ghost var w2, n2, rest := Now(), natural, log[..k] + failed;
          LogRecorded(w2, n2, rest);
          raised := Interfere();
          LogLater(w2, n2, Now(), natural, rest);
          StillThere(w2, n2, Now(), natural, m.ino);
          if (raised && !reliable) || inodes[m.ino].mode != m.original {
            errors := errors + [m.path];
          }
        }
      }
      assert log[..0] + failed == failed;
      EmptyLog(Now(), natural);
    }

    // ----- the transaction -----

    /** Mutate, then verify, then authenticate the repository again; any failure rolls back. */
    method Transact(root: Ino, records: seq<Tracked>, pf: Preflight, b: Binding)
      returns (ok: bool, errors: seq<Path>, ghost log: seq<Mutation>)
      requires Ready(records, pf) && Pristine(Now(), natural) && RecordsValid(records) && root in inodes
      modifies `inodes, `entries, `mounted, `natural, `touched, `seen, `confirmed
      ensures Extends(old(natural), natural) && touched == old(touched) + LogInodes(log)
      ensures LogSound(records, pf, log) && forall m | m in log :: m.identity.ino == m.ino
      ensures !ok && errors == [] ==> Pristine(Now(), natural)
      ensures ok || reliable || quiet ==> errors == []
      ensures !ok ==> && Recorded(Now(), natural)
                      && forall i | i in inodes && inodes[i].mode != natural[i] ::
                           exists m | m in log :: m.ino == i && m.path in errors
      ensures ok ==> && LogHolds(Now(), natural, log) && Rebound(b)
                     && (forall r | r in records :: RecordConfirmed(r, pf.files))
                     && (forall d | d in AllDirectories(records) :: DirectoryConfirmed(d, pf.dirs))
      ensures quiet ==> natural == old(natural) && SameButModes(old(Now()), Now())
      ensures quiet && AuthenticAll(old(Now()), root, records, pf) && BindingHolds(old(Now()), b) ==>
                (ok <==> AllOpen(pf, user, records))
    {
      hide Later, PreflightHolds, LogHolds, AuthenticAll, AllDirectories, RecordsValid, SameButModes, DirectoriesDone,
           FilesDone, FilesHaveModes, LogInodes, Trusted, TrackedPaths, Pristine, BindingHolds, RecordConfirmed,
           DirectoryConfirmed, Rebound, Eased, AllOpen;
      ghost var w0, n0, t0 := Now(), natural, touched;
      ghost var sure := quiet && AuthenticAll(w0, root, records, pf) && BindingHolds(w0, b);
      var entries: seq<Mutation>;
      ok, entries := ChmodDirectories(root, records, pf);
      if ok {
        if sure {
          AuthenticSteady(w0, Now(), root, records, pf);
        }
        ghost var w1 := Now();
        ok, entries := ChmodFiles(root, records, pf, entries, t0);
        if quiet {
          EasedTrans(w0, w1, Now());
        }
      }
      log, errors := entries, [];
      if quiet {
        EasedIsSame(w0, Now());
      }
      LogIsKnown(Now(), natural, log);
      ghost var w2, n2 := Now(), natural;
      if ok {
        if sure {
          AuthenticSteady(w0, w2, root, records, pf);
          BindingSteady(w0, w2, b);
          AllDone(w2, records, pf.files, log);
        }
        ok := VerifyAll(root, records, pf, b);
        LogRecorded(w2, n2, log);
        LogLater(w2, n2, Now(), natural, log);
        LaterKeeps(w2, n2, Now(), natural);
      }
      if !ok {
        ghost var failed, w3 := [], Now();
        errors, failed := Rollback(records, entries);
        if quiet {
          SameTrans(w0, w3, Now());
        }
        LogRecorded(Now(), natural, failed);
        FailedOnly(Now(), natural, failed);
      }
    }

    method VerifyAll(root: Ino, records: seq<Tracked>, pf: Preflight, b: Binding) returns (ok: bool)
      requires Ready(records, pf) && RecordsValid(records) && root in inodes
      modifies `inodes, `entries, `mounted, `natural, `seen, `confirmed
      ensures Later(old(Now()), old(natural), Now(), natural) && old(seen) <= seen
      ensures ok ==> && Rebound(b)
                     && (forall r | r in records :: RecordConfirmed(r, pf.files))
                     && (forall d | d in AllDirectories(records) :: DirectoryConfirmed(d, pf.dirs))
      ensures quiet ==> Now() == old(Now()) && natural == old(natural)
      ensures (&& quiet && AuthenticAll(Now(), root, records, pf) && FilesHaveModes(Now(), records, pf.files)
               && DirectoriesDone(Now(), pf.dirs, pf.dirs.Keys) && BindingHolds(Now(), b))
              ==> ok
    {
      hide Later, PreflightHolds, AuthenticAll, AllDirectories, RecordsValid, DirectoriesDone, FilesHaveModes,
           BindingHolds;
      ghost var w0, n0 := Now(), natural;
      ok := VerifyRecords(root, records, pf);
      Recording(w0, n0, Now(), natural);
      LaterKeeps(w0, n0, Now(), natural);
      if ok {
        HoldsLater(w0, n0, Now(), natural, owner, records, pf);
        ghost var w1, n1 := Now(), natural;
        ok := VerifyDirectories(root, records, pf);
        LaterTrans(w0, n0, w1, n1, Now(), natural);
        LaterKeeps(w1, n1, Now(), natural);
      }
      if ok {
        ghost var w1, n1 := Now(), natural;
        ok := Reauthenticate(b);
        LaterTrans(w0, n0, w1, n1, Now(), natural);
        LaterKeeps(w1, n1, Now(), natural);
      }
    }

    /** Everything before the first change: bind, read the index, authenticate, preflight. */
    method Prepare(index: seq<IndexEntry>) returns (r: Outcome<Prepared>)
      requires Pristine(Now(), natural)
      modifies `inodes, `entries, `mounted, `natural, `seen, `confirmed
      ensures Later(old(Now()), old(natural), Now(), natural) && Pristine(Now(), natural) && Recorded(Now(), natural)
      ensures r.Ok? ==> && IndexSupported(index) && RecordsValid(RecordsOf(index)) && r.value.binding.root in inodes
                        && Ready(RecordsOf(index), r.value.preflight)
      ensures quiet ==> Now() == old(Now()) && natural == old(natural)
      ensures quiet ==> (r.Ok? <==> IndexSupported(index) && Admissible(Now(), owner, RecordsOf(index)))
      ensures quiet && r.Ok? ==> && mounted == Found(r.value.binding.root) && BindingHolds(Now(), r.value.binding)
                                 && AuthenticAll(Now(), r.value.binding.root, RecordsOf(index), r.value.preflight)
    {
      hide Later, Pristine, IndexSupported, RecordsValid, AllDirectories, DirectoriesHold, FilesHold, RecordsKnown,
           Authentic, AuthenticFiles, ParentClosed, RecordFits, DirectoryFits, RequiredDirectories, RepositoryOpens,
           BindingHolds, Admissible;
      ghost var w0, n0 := Now(), natural;
      PristineIsRecorded(w0, n0);
      LaterRefl(w0, n0);
      var b := OpenBinding();
      LaterKeeps(w0, n0, Now(), natural);
      Recording(w0, n0, Now(), natural);
      if quiet {
        AdmissibleMeans(w0, owner, RecordsOf(index));
      }
      if b.Fail? || !IndexSupported(index) {
        return Fail;
      }
      SupportedIsValid(index);
      var root, records := b.value.root, RecordsOf(index);
      ghost var w1, n1 := Now(), natural;
      var same := Reauthenticate(b.value);
      LaterTrans(w0, n0, w1, n1, Now(), natural);
      LaterKeeps(w1, n1, Now(), natural);
      if quiet {
        BindingGives(w0, b.value);
      }
      if !same {
        return Fail;
      }
      var top := Metadata(IdentityOf(Now(), root), inodes[root].mode);
      if quiet {
        RootFits(w0, root, owner, top);
      }
      if !Stable(top.identity, b.value.rootIdentity) || !(top.identity.uid == owner || owner == 0) {
        return Fail;
      }
      Note([], top.identity);
      ghost var w2, n2 := Now(), natural;
      var dirs := PreflightDirectories(root, top, records);
      LaterTrans(w0, n0, w2, n2, Now(), natural);
      LaterKeeps(w2, n2, Now(), natural);
      if dirs.Fail? {
        return Fail;
      }
      RootIsDirectory(records);
      ghost var w3, n3 := Now(), natural;
      var files := PreflightFiles(root, records, dirs.value.ids);
      LaterTrans(w0, n0, w3, n3, Now(), natural);
      LaterKeeps(w3, n3, Now(), natural);
      if files.Fail? {
        return Fail;
      }
      DirectoriesLater(w3, n3, Now(), natural, owner, dirs.value.ids, dirs.value.modes);
      r := Ok(Prepared(b.value, Preflight(dirs.value.ids, dirs.value.modes, files.value.ids, files.value.modes)));
    }

    /** normalize.  Beside any other processes and with a failure anywhere: modes change at
        authenticated inodes only, a failed run leaves every mode as it was except at paths its
        error report names, which are none if no rollback step fails, and a successful
        one found every tracked object again with its mode after the last change.  In a quiet
        run success is decided by the starting state, and the result is exactly the tree with
        the required modes. */
    method Normalize(index: seq<IndexEntry>) returns (r: Outcome<Counts>, errors: seq<Path>, ghost plan: Prepared)
      modifies this
      ensures Recorded(Now(), natural) && forall i | i in old(inodes) ::
                i in natural && natural[i] == old(inodes[i].mode)
      ensures r.Fail? && errors == [] ==> Pristine(Now(), natural)
      ensures r.Ok? || reliable || quiet ==> errors == []
      ensures r.Fail? ==>
                forall i | i in inodes && inodes[i].mode != natural[i] ::
                  exists m: Mutation :: m.ino == i && FromPreflight(RecordsOf(index), plan.preflight, m)
                    && m.path in errors
      ensures forall i | i in inodes && inodes[i].mode != natural[i] :: i in touched
      ensures forall i | i in touched ::
                && Admitted(RecordsOf(index), i)
                && exists m: Mutation ::
                     m.ino == i && m.identity.ino == i && FromPreflight(RecordsOf(index), plan.preflight, m)
      ensures r.Ok? ==> && Rebound(plan.binding)
                        && (forall t | t in RecordsOf(index) :: RecordConfirmed(t, plan.preflight.files))
                        && (forall d | d in AllDirectories(RecordsOf(index)) ::
                          DirectoryConfirmed(d, plan.preflight.dirs))
      ensures quiet ==> (r.Ok? <==> IndexSupported(index) && Acceptable(old(Now()), owner, RecordsOf(index)))
      ensures quiet && r.Fail? ==> Now() == old(Now())
      ensures quiet && r.Ok? ==>
                && mounted.Found? && Normalised(old(Now()), Now(), mounted.ino, RecordsOf(index))
                && r.value == Counts(DifferingFiles(old(Now()), mounted.ino, RecordsOf(index)),
                                     DifferingDirectories(old(Now()), mounted.ino, RecordsOf(index)))
    {
      hide Rebound, Later, Pristine, IndexSupported, RecordsValid, AllDirectories, PreflightHolds, LogHolds,
           AuthenticAll, BindingHolds, Acceptable, Normalised, DifferingFiles, DifferingDirectories, CountFiles,
           CountDirectories, RecordConfirmed, DirectoryConfirmed, SameButModes, LogInodes, Trusted, TrackedPaths,
           FromPreflight, AllOpen, FilesOpen, Admissible, Eased;
      ghost var w0 := Now();
      natural := Extended(map[], w0);
      touched, seen, confirmed := {}, {}, {};
      FreshIsPristine(w0);
      plan, errors := NoPlan(), [];
      ghost var n0 := natural;
      var prepared := Prepare(index);
      LaterKeeps(w0, n0, Now(), natural);
      AcceptableMeans(w0, owner, RecordsOf(index));
      if prepared.Fail? {
        PristineMeans(Now(), natural);
        return Fail, errors, plan;
      }
      var b, ready, records := prepared.value.binding, prepared.value.preflight, RecordsOf(index);
      plan := prepared.value;
      var counts := Counts(CountFiles(records, ready.fileModes), CountDirectories(ready.dirModes));
      ghost var w1, n1 := Now(), natural;
      var ok;
      ghost var log;
      ok, errors, log := Transact(b.root, records, ready, b);
      TouchedAre(log);
      if quiet {
        OpenMeans(w0, n0, b.root, owner, records, ready);
      }
      if !ok {
        if quiet {
          PristineIsSame(w0, Now(), n0);
        }
        return Fail, errors, plan;
      }
      LogMeans(Now(), natural, log);
      if quiet {
        CountsAgree(w0, n0, b.root, owner, records, ready);
        ConfirmedDone(records, ready);
        QuietResult(w0, Now(), n0, b.root, records, ready, log);
        NormalisedSame(w0, Now(), b.root, records);
      }
      r := Ok(counts);
    }

    /** In quiet, a run that succeeded leaves nothing for a second one to change. */
    method NormalizeTwice(index: seq<IndexEntry>) returns (first: Outcome<Counts>, second: Outcome<Counts>)
      requires quiet
      modifies this
      ensures first.Ok? <==> IndexSupported(index) && Acceptable(old(Now()), owner, RecordsOf(index))
      ensures first.Ok? ==> && second == Ok(Counts(0, 0))
                            && mounted.Found? && Normalised(old(Now()), Now(), mounted.ino, RecordsOf(index))
      ensures first.Fail? ==> second == Fail && Now() == old(Now())
    {
      hide Acceptable, Normalised, IndexSupported, DifferingFiles, DifferingDirectories, RecordConfirmed,
           DirectoryConfirmed, Admitted, AllDirectories, Pristine, SameButModes, Rebound;
      ghost var w0, plan := Now(), NoPlan();
      var errors;
      first, errors, plan := Normalize(index);
      ghost var w1 := Now();
      second, errors, plan := Normalize(index);
      if first.Ok? {
        NormalisedSame(w0, w1, w1.mounted.ino, RecordsOf(index));
        NormalisedAgain(w0, w1, owner, RecordsOf(index));
        NormalisedSame(w1, Now(), mounted.ino, RecordsOf(index));
      }
    }

    /** The inode was read at a tracked path under an identity that may be changed. */
    ghost predicate Admitted(records: seq<Tracked>, i: Ino)
      reads `seen
    {
      exists s | s in seen :: s.1.ino == i && s.0 in TrackedPaths(records) && Trusted(s.1, owner)
    }

    lemma ConfirmedDone(records: seq<Tracked>, pf: Preflight)
      requires forall t | t in records :: RecordConfirmed(t, pf.files)
      requires forall d | d in AllDirectories(records) :: DirectoryConfirmed(d, pf.dirs)
      ensures FilesHaveModes(Now(), records, pf.files) && DirectoriesDone(Now(), pf.dirs, AllDirectories(records))
    {
      hide AllDirectories;
    }
  }

  lemma NormalisedSame(w0: World, w1: World, root: Ino, records: seq<Tracked>)
    requires Normalised(w0, w1, root, records)
    ensures w1.mounted == w0.mounted
  {
  }

  datatype Counts = Counts(files: nat, directories: nat)

  datatype Prepared = Prepared(binding: Binding, preflight: Preflight)

  ghost function NoPlan(): Prepared {
    var nobody := Identity(0, Other, 0, 0, 0);
    Prepared(Binding(0, nobody, nobody), Preflight(map[], map[], map[], map[]))
  }

  function CountFiles(records: seq<Tracked>, modes: map<Path, nat>): nat {
    if records == [] then 0
    else
      var r := records[|records| - 1];
      (if r.kind == Plain && r.path in modes && modes[r.path] != r.mode then 1 else 0)
      + CountFiles(records[..|records| - 1], modes)
  }

  function CountDirectories(modes: map<Path, nat>): nat {
    |set p | p in modes && modes[p] != TREE_MODE|
  }

  lemma PristineIsRecorded(w: World, natural: map<Ino, nat>)
    requires Pristine(w, natural)
    ensures Recorded(w, natural)
  {
  }

  lemma PristineMeans(w: World, natural: map<Ino, nat>)
    requires Pristine(w, natural)
    ensures Recorded(w, natural) && forall i | i in w.inodes :: w.inodes[i].mode == natural[i]
  {
  }

  lemma FreshIsPristine(w: World)
    ensures Pristine(w, Extended(map[], w))
    ensures forall i | i in w.inodes :: i in Extended(map[], w) && Extended(map[], w)[i] == w.inodes[i].mode
  {
  }

  lemma LogMeans(w: World, natural: map<Ino, nat>, log: seq<Mutation>)
    requires LogHolds(w, natural, log)
    ensures Recorded(w, natural) && forall i | i in w.inodes && w.inodes[i].mode != natural[i] :: i in LogInodes(log)
  {
  }

  lemma TouchedAre(log: seq<Mutation>)
    ensures forall i | i in LogInodes(log) :: exists m | m in log :: m.ino == i
    ensures forall m | m in log :: m.ino in LogInodes(log)
  {
  }

  lemma AcceptableMeans(w: World, owner: nat, records: seq<Tracked>)
    ensures Acceptable(w, owner, records) <==>
              Admissible(w, owner, records) && w.mounted.Found? && FilesOpen(w, w.mounted.ino, records)
  {
    hide Admissible, FilesOpen;
    if Admissible(w, owner, records) {
      AdmissibleMounted(w, owner, records);
    }
  }

  lemma AdmissibleMounted(w: World, owner: nat, records: seq<Tracked>)
    requires Admissible(w, owner, records)
    ensures w.mounted.Found?
  {
  }

  /** The preflight's modes decide which files can be opened. */
  lemma OpenMeans(w: World, natural: map<Ino, nat>, root: Ino, owner: nat, records: seq<Tracked>, pf: Preflight)
    requires Pristine(w, natural) && PreflightHolds(w, natural, owner, records, pf)
             && AuthenticAll(w, root, records, pf)
    ensures AllOpen(pf, w.user, records) <==> FilesOpen(w, root, records)
  {
    hide Resolve, AllDirectories, Authentic, ParentSearchable, MayRead;
    forall r | r in records && r.kind == Plain
      ensures r.path in pf.files && r.path in pf.fileModes && Resolve(w, root, r.path) == Found(pf.files[r.path].ino)
      ensures pf.fileModes[r.path] == ModeAt(w, root, r.path)
      ensures Readable(w, pf.files[r.path].ino) <==>
                MayRead(pf.files[r.path].uid, pf.files[r.path].gid, pf.fileModes[r.path], w.user)
    {
      AuthenticFile(w, root, records, pf, r);
      FileKnown(w, natural, owner, records, pf, r);
    }
  }

  lemma AdmissibleMeans(w: World, owner: nat, records: seq<Tracked>)
    ensures Admissible(w, owner, records) <==>
              && RepositoryOpens(w) && RecordsValid(records) && DirectoryFits(w, w.mounted.ino, owner, [])
              && (forall d | d in RequiredDirectories(records) :: DirectoryFits(w, w.mounted.ino, owner, d))
              && (forall k | 0 <= k < |records| :: RecordFits(w, w.mounted.ino, owner, records, k))
  {
  }

  lemma BindingGives(w: World, b: Binding)
    requires BindingHolds(w, b) && b.rootIdentity.ino == b.root
    ensures w.mounted == Found(b.root) && b.root in w.inodes && w.inodes[b.root].kind == Directory
    ensures Stable(IdentityOf(w, b.root), b.rootIdentity)
  {
  }

  lemma RootFits(w: World, root: Ino, owner: nat, top: Metadata)
    requires root in w.inodes && w.inodes[root].kind == Directory && top.identity == IdentityOf(w, root)
    ensures DirectoryFits(w, root, owner, []) <==> top.identity.uid == owner || owner == 0
  {
  }

  lemma RootIsDirectory(records: seq<Tracked>)
    ensures [] in AllDirectories(records)
  {
    hide RequiredDirectories;
  }

  lemma {:induction false} FileCountsAgree(w: World, natural: map<Ino, nat>, root: Ino, records: seq<Tracked>,
                                           files: map<Path, Identity>, modes: map<Path, nat>)
    requires Pristine(w, natural)
    requires forall r | r in records && r.kind == Plain ::
               && r.path in files && r.path in modes && files[r.path].ino in w.inodes
               && Resolve(w, root, r.path) == Found(files[r.path].ino) && modes[r.path] == natural[files[r.path].ino]
    ensures CountFiles(records, modes) == DifferingFiles(w, root, records)
  {
    if records != [] {
      hide Resolve;
      var front, last := records[..|records| - 1], records[|records| - 1];
      assert last in records && forall r | r in front :: r in records;
      FileCountsAgree(w, natural, root, front, files, modes);
    }
  }

  lemma CountsAgree(w: World, natural: map<Ino, nat>, root: Ino, owner: nat, records: seq<Tracked>, pf: Preflight)
    requires Pristine(w, natural) && PreflightHolds(w, natural, owner, records, pf)
             && AuthenticAll(w, root, records, pf)
    ensures CountFiles(records, pf.fileModes) == DifferingFiles(w, root, records)
    ensures CountDirectories(pf.dirModes) == DifferingDirectories(w, root, records)
  {
    hide Resolve, AllDirectories;
    FileCountsAgree(w, natural, root, records, pf.files, pf.fileModes);
    forall p | p in pf.dirModes
      ensures pf.dirModes[p] == ModeAt(w, root, p)
    {
    }
    assert (set p | p in pf.dirModes && pf.dirModes[p] != TREE_MODE)
        == (set d | d in AllDirectories(records) && ModeAt(w, root, d) != TREE_MODE);
  }

  lemma LoggedIsCovered(w: World, root: Ino, records: seq<Tracked>, pf: Preflight, m: Mutation)
    requires AuthenticAll(w, root, records, pf) && FromPreflight(records, pf, m) && m.identity.ino == m.ino
    ensures Covered(w, root, records, m.ino)
  {
    hide AllDirectories;
  }

  /** A quiet transaction ends in the normalised file system. */
  lemma QuietResult(w0: World, w1: World, natural: map<Ino, nat>, root: Ino, records: seq<Tracked>, pf: Preflight,
                    log: seq<Mutation>)
    requires Pristine(w0, natural) && SameButModes(w0, w1) && LogHolds(w1, natural, log)
             && AuthenticAll(w0, root, records, pf)
    requires forall m | m in log :: FromPreflight(records, pf, m) && m.identity.ino == m.ino
    requires FilesHaveModes(w1, records, pf.files) && DirectoriesDone(w1, pf.dirs, AllDirectories(records))
    ensures Normalised(w0, w1, root, records)
  {
    hide Resolve, AllDirectories, FromPreflight, Covered;
    forall p: Path
      ensures Resolve(w1, root, p) == Resolve(w0, root, p)
    {
      ModesDoNotResolve(w0, w1, root, p);
    }
    forall d | d in AllDirectories(records)
      ensures ModeAt(w1, root, d) == TREE_MODE
    {
      assert Resolve(w0, root, d) == Found(pf.dirs[d].ino);
    }
    forall r | r in records && r.kind == Plain
      ensures ModeAt(w1, root, r.path) == r.mode
    {
      AuthenticFile(w0, root, records, pf, r);
    }
    forall i | i in w0.inodes && !Covered(w0, root, records, i)
      ensures w1.inodes[i] == w0.inodes[i]
    {
      if i in LogInodes(log) {
        var m :| m in log && m.ino == i;
        LoggedIsCovered(w0, root, records, pf, m);
      }
      assert OnlyModeDiffers(w0.inodes[i], w1.inodes[i]);
    }
  }

  lemma LogIsKnown(w: World, natural: map<Ino, nat>, log: seq<Mutation>)
    requires LogHolds(w, natural, log)
    ensures forall m | m in log :: m.identity.ino == m.ino
  {
  }

  lemma BindingSteady(w0: World, w1: World, b: Binding)
    requires Eased(w0, w1) && BindingHolds(w0, b)
    ensures BindingHolds(w1, b)
  {
    var git := Child(w0, w0.mounted.ino, GIT);
    EasedOpens(w0, w1, w0.mounted.ino);
    EasedOpens(w0, w1, git.ino);
    hide Readable, Searchable;
    assert OnlyModeDiffers(w0.inodes[w0.mounted.ino], w1.inodes[w0.mounted.ino]);
    assert OnlyModeDiffers(w0.inodes[git.ino], w1.inodes[git.ino]);
  }

  lemma AllDone(w: World, records: seq<Tracked>, files: map<Path, Identity>, log: seq<Mutation>)
    requires FilesDone(w, records, files, Firsts(records, |records|), log)
    ensures FilesHaveModes(w, records, files)
  {
    FirstsAll(records, records);
  }

  /** The regular records have their modes. */
  ghost predicate FilesHaveModes(w: World, records: seq<Tracked>, files: map<Path, Identity>) {
    forall r | r in records && r.kind == Plain ::
      r.path in files && files[r.path].ino in w.inodes && w.inodes[files[r.path].ino].mode == r.mode
  }

  lemma ModeOf(w: World, records: seq<Tracked>, files: map<Path, Identity>, r: Tracked)
    requires FilesHaveModes(w, records, files) && r in records && r.kind == Plain
    ensures r.path in files && files[r.path].ino in w.inodes && w.inodes[files[r.path].ino].mode == r.mode
  {
  }

  ghost function FinalInodes(records: seq<Tracked>, files: map<Path, Identity>): set<Ino> {
    set r | r in records && r.kind == Plain && r.path in files :: files[r.path].ino
  }

  lemma NoFinalInodes(records: seq<Tracked>, files: map<Path, Identity>)
    ensures FinalInodes(records[..0], files) == {}
  {
  }

  lemma FinalStep(w: World, root: Ino, records: seq<Tracked>, pf: Preflight, k: nat)
    requires AuthenticAll(w, root, records, pf) && k < |records| && records[k].path in pf.files
    ensures var ino := pf.files[records[k].path].ino;
            && (records[k].kind == Plain ==> ino !in FinalInodes(records[..k], pf.files))
            && FinalInodes(records[..k + 1], pf.files)
               == FinalInodes(records[..k], pf.files) + (if records[k].kind == Plain then {ino} else {})
  {
    hide Authentic, Resolve, AllDirectories;
    assert records[..k + 1] == records[..k] + [records[k]];
    forall r | r in records[..k] && r.kind == Plain && records[k].kind == Plain
      ensures pf.files[r.path].ino != pf.files[records[k].path].ino
    {
      var j :| 0 <= j < k && records[..k][j] == r;
      assert records[j] == r;
    }
    assert forall r | r in records[..k] :: r in records;
  }

  lemma FileListed(w: World, natural: map<Ino, nat>, owner: nat, records: seq<Tracked>, pf: Preflight, r: Tracked)
    requires PreflightHolds(w, natural, owner, records, pf) && r in records
    ensures r.path in pf.files
  {
    hide AllDirectories;
  }

  lemma ListCovers(records: seq<Tracked>)
    ensures (set d | d in [[]] + RequiredDirectories(records)) == AllDirectories(records)
  {
    hide RequiredDirectories;
  }

  lemma DirectoryAgrees(w: World, root: Ino, records: seq<Tracked>, pf: Preflight, d: Path)
    requires AuthenticAll(w, root, records, pf) && DirectoriesDone(w, pf.dirs, pf.dirs.Keys) && d in pf.dirs
    ensures pf.dirs[d].ino in w.inodes && pf.dirs[d] == IdentityOf(w, pf.dirs[d].ino)
            && w.inodes[pf.dirs[d].ino].mode == TREE_MODE
  {
    hide AuthenticFiles, AllDirectories, Resolve;
  }

  lemma LogRecorded(w: World, natural: map<Ino, nat>, log: seq<Mutation>)
    requires LogHolds(w, natural, log)
    ensures Recorded(w, natural)
  {
  }

  lemma DirectoriesStay(w0: World, n0: map<Ino, nat>, w1: World, n1: map<Ino, nat>, dirs: map<Path, Identity>)
    requires Recorded(w0, n0) && Later(w0, n0, w1, n1) && DirectoriesDone(w0, dirs, dirs.Keys)
    ensures DirectoriesDone(w1, dirs, dirs.Keys)
  {
    NoneDone(w0, dirs);
    DoneLater(w0, n0, w1, n1, dirs, dirs.Keys, []);
  }

  lemma DirectoriesUnaffected(w: World, natural: map<Ino, nat>, owner: nat, records: seq<Tracked>, pf: Preflight,
                              id: Identity, mode: nat)
    requires PreflightHolds(w, natural, owner, records, pf) && DirectoriesDone(w, pf.dirs, pf.dirs.Keys)
    requires id.ino in w.inodes && Known(w, id) && id.kind == Plain
    ensures DirectoriesDone(Rechmod(w, id.ino, mode), pf.dirs, pf.dirs.Keys)
  {
    hide AllDirectories;
  }

  lemma FileKnown(w: World, natural: map<Ino, nat>, owner: nat, records: seq<Tracked>, pf: Preflight, r: Tracked)
    requires PreflightHolds(w, natural, owner, records, pf) && r in records
    ensures r.path in pf.files && Known(w, pf.files[r.path]) && pf.files[r.path].ino in w.inodes
    ensures pf.files[r.path].kind == Plain || pf.files[r.path].kind == Link
    ensures r.kind == Plain ==> r.path in pf.fileModes
    ensures pf.files[r.path].kind == Plain ==>
              && Trusted(pf.files[r.path], owner) && pf.files[r.path].ino in natural
              && r.path in pf.fileModes && pf.fileModes[r.path] == natural[pf.files[r.path].ino]
  {
    hide AllDirectories;
  }

  // ----- the modes of the regular files while they are changed -----

  /** Two regular records with one inode are one record. */
  ghost predicate UniqueFiles(records: seq<Tracked>, files: map<Path, Identity>) {
    forall r, s | r in records && s in records && r.kind == Plain && s.kind == Plain && r.path in files
      && s.path in files ::
      files[r.path].ino == files[s.path].ino ==> r == s
  }

  /** Finished records have their mode, the others are not in the log. */
  ghost predicate FilesDone(w: World, records: seq<Tracked>, files: map<Path, Identity>, done: set<Tracked>,
                            log: seq<Mutation>) {
    forall r | r in records && r.kind == Plain ::
      && r.path in files && files[r.path].ino in w.inodes
      && (if r in done then w.inodes[files[r.path].ino].mode == r.mode else files[r.path].ino !in LogInodes(log))
  }

  lemma UniqueWhenAuthentic(w: World, root: Ino, records: seq<Tracked>, pf: Preflight)
    requires AuthenticAll(w, root, records, pf)
    ensures UniqueFiles(records, pf.files)
  {
    hide Authentic, Resolve, AllDirectories;
    forall r, s | r in records && s in records && r.kind == Plain && s.kind == Plain
                  && pf.files[r.path].ino == pf.files[s.path].ino
      ensures r == s
    {
      var i :| 0 <= i < |records| && records[i] == r;
      var j :| 0 <= j < |records| && records[j] == s;
    }
  }

  lemma AuthenticFile(w: World, root: Ino, records: seq<Tracked>, pf: Preflight, r: Tracked)
    requires AuthenticAll(w, root, records, pf) && r in records
    ensures r.path in pf.files && Resolve(w, root, r.path) == Found(pf.files[r.path].ino)
    ensures pf.files[r.path].ino in w.inodes && pf.files[r.path] == IdentityOf(w, pf.files[r.path].ino)
    ensures pf.files[r.path].kind == r.kind && (r.kind == Plain ==> pf.files[r.path].nlink == 1)
    ensures ParentSearchable(w, root, r.path)
  {
    hide Authentic, Resolve, AllDirectories;
  }

  lemma FilesStart(w: World, natural: map<Ino, nat>, root: Ino, owner: nat, records: seq<Tracked>, pf: Preflight,
                   log: seq<Mutation>)
    requires AuthenticAll(w, root, records, pf) && LogHolds(w, natural, log)
    requires forall m | m in log :: m.identity.kind == Directory
    ensures FilesDone(w, records, pf.files, {}, log)
  {
    hide Authentic, Resolve, AllDirectories;
    forall r | r in records && r.kind == Plain
      ensures pf.files[r.path].ino !in LogInodes(log)
    {
      AuthenticFile(w, root, records, pf, r);
    }
  }

  /** A record that is not done has the mode it was found with. */
  lemma FileAsFound(w: World, natural: map<Ino, nat>, root: Ino, owner: nat, records: seq<Tracked>, pf: Preflight,
                    log: seq<Mutation>, done: set<Tracked>, r: Tracked)
    requires AuthenticAll(w, root, records, pf) && PreflightHolds(w, natural, owner, records, pf)
    requires LogHolds(w, natural, log) && FilesDone(w, records, pf.files, done, log)
    requires r in records && r.kind == Plain && r !in done
    ensures r.path in pf.files && r.path in pf.fileModes
    ensures Readable(w, pf.files[r.path].ino) <==>
              MayRead(pf.files[r.path].uid, pf.files[r.path].gid, pf.fileModes[r.path], w.user)
  {
    FileKnown(w, natural, owner, records, pf, r);
    AuthenticFile(w, root, records, pf, r);
    hide AuthenticAll, PreflightHolds, MayRead;
  }

  /** A regular record occurs once in any order of the records. */
  lemma PlainOnce(w: World, root: Ino, records: seq<Tracked>, pf: Preflight, order: seq<Tracked>, k: nat)
    requires AuthenticAll(w, root, records, pf) && multiset(order) == multiset(records) && k < |order|
    ensures order[k].kind == Plain ==> order[k] !in Firsts(order, k)
  {
    hide Resolve, AllDirectories, Authentic, ParentSearchable;
    if order[k] in order[..k] {
      CountedTwice(order, k);
      OccursTwice(records, order[k]);
    }
  }

  lemma CountedTwice<T>(order: seq<T>, k: nat)
    requires k < |order| && order[k] in order[..k]
    ensures multiset(order)[order[k]] >= 2
  {
    assert order == order[..k] + order[k..];
    assert order[k] in multiset(order[..k]) && order[k..][0] in multiset(order[k..]);
  }

  lemma {:induction false} OccursTwice<T>(s: seq<T>, x: T)
    requires multiset(s)[x] >= 2
    ensures exists i, j :: 0 <= i < j < |s| && s[i] == x && s[j] == x
  {
    assert s == [s[0]] + s[1..];
    if s[0] == x {
      assert x in multiset(s[1..]);
      var j :| 0 <= j < |s[1..]| && s[1..][j] == x;
      assert s[j + 1] == x;
    } else {
      OccursTwice(s[1..], x);
      var i, j :| 0 <= i < j < |s[1..]| && s[1..][i] == x && s[1..][j] == x;
      assert s[i + 1] == x && s[j + 1] == x;
    }
  }

  lemma FileSkipped(w: World, natural: map<Ino, nat>, log: seq<Mutation>, owner: nat, records: seq<Tracked>,
                    pf: Preflight, done: set<Tracked>, r: Tracked)
    requires FilesDone(w, records, pf.files, done, log) && UniqueFiles(records, pf.files) && r in records
    requires LogHolds(w, natural, log) && PreflightHolds(w, natural, owner, records, pf)
    requires r.kind == Plain ==> r.path in pf.fileModes && pf.fileModes[r.path] == r.mode
    requires r.path in pf.files && pf.files[r.path].kind == r.kind
    ensures FilesDone(w, records, pf.files, done + {r}, log)
  {
    FileKnown(w, natural, owner, records, pf, r);
    hide PreflightHolds, UniqueFiles;
  }

  lemma FileChanged(w: World, records: seq<Tracked>, files: map<Path, Identity>, done: set<Tracked>, log: seq<Mutation>,
                    m: Mutation, r: Tracked)
    requires FilesDone(w, records, files, done, log) && UniqueFiles(records, files) && r in records && r.kind == Plain
    requires r.path in files && files[r.path].ino == m.ino && m.ino in w.inodes
    requires LogInodes(log + [m]) == LogInodes(log) + {m.ino}
    ensures FilesDone(Rechmod(w, m.ino, r.mode), records, files, done + {r}, log + [m])
  {
    hide LogInodes;
    var w1 := Rechmod(w, m.ino, r.mode);
    forall s | s in records && s.kind == Plain
      ensures s.path in files && files[s.path].ino in w1.inodes
      ensures if s in done + {r} then w1.inodes[files[s.path].ino].mode == s.mode
              else files[s.path].ino !in LogInodes(log + [m])
    {
      if s != r {
        assert files[s.path].ino != m.ino;
      }
    }
  }

  lemma KeysAre(w: World, natural: map<Ino, nat>, owner: nat, records: seq<Tracked>, pf: Preflight)
    requires PreflightHolds(w, natural, owner, records, pf)
    ensures pf.dirs.Keys == AllDirectories(records) && [] in pf.dirs
  {
    hide RequiredDirectories;
  }

  ghost predicate Extends(n0: map<Ino, nat>, n1: map<Ino, nat>) {
    forall i | i in n0 :: i in n1 && n1[i] == n0[i]
  }

  ghost function Firsts<T>(order: seq<T>, k: nat): set<T>
    requires k <= |order|
  {
    set x | x in order[..k]
  }

  lemma FirstsStep<T>(order: seq<T>, k: nat)
    requires k < |order|
    ensures Firsts(order, k + 1) == Firsts(order, k) + {order[k]}
  {
    assert order[..k + 1] == order[..k] + [order[k]];
  }

  lemma FirstsAll<T>(order: seq<T>, all: seq<T>)
    requires multiset(order) == multiset(all)
    ensures Firsts(order, |order|) == (set x | x in all) && Firsts(order, 0) == {}
    ensures forall k | 0 <= k < |order| :: order[k] in all
  {
    SameElements(order, all);
    assert order[..|order|] == order;
    assert forall k | 0 <= k < |order| :: order[k] in order;
  }

  lemma OrderCovers(records: seq<Tracked>, order: seq<Path>)
    requires order == SortBy([[]] + RequiredDirectories(records), SourceVerify.DepthKey)
    ensures Firsts(order, |order|) == AllDirectories(records) && Firsts(order, 0) == {}
    ensures forall k | 0 <= k < |order| :: order[k] in AllDirectories(records)
  {
    hide RequiredDirectories, SourceVerify.DepthKey, SortBy;
    FirstsAll(order, [[]] + RequiredDirectories(records));
  }

  /** The directories at the given paths have mode 0755. */
  ghost predicate DirectoriesDone(w: World, dirs: map<Path, Identity>, done: set<Path>) {
    forall d | d in done :: d in dirs && dirs[d].ino in w.inodes && w.inodes[dirs[d].ino].mode == TREE_MODE
  }

  ghost predicate LogDone(w: World, log: seq<Mutation>) {
    forall m | m in log :: m.ino in w.inodes && w.inodes[m.ino].mode == TREE_MODE
  }

  lemma NoneDone(w: World, dirs: map<Path, Identity>)
    ensures DirectoriesDone(w, dirs, {}) && LogDone(w, [])
  {
  }

  lemma DoneLater(w0: World, n0: map<Ino, nat>, w1: World, n1: map<Ino, nat>, dirs: map<Path, Identity>,
                  done: set<Path>, log: seq<Mutation>)
    requires Recorded(w0, n0) && Later(w0, n0, w1, n1) && DirectoriesDone(w0, dirs, done) && LogDone(w0, log)
    ensures DirectoriesDone(w1, dirs, done) && LogDone(w1, log)
  {
    LaterKeeps(w0, n0, w1, n1);
    hide Later;
  }

  lemma DoneAfterChmod(w: World, dirs: map<Path, Identity>, done: set<Path>, log: seq<Mutation>, m: Mutation)
    requires DirectoriesDone(w, dirs, done) && LogDone(w, log)
    requires m.path in dirs && dirs[m.path].ino == m.ino && m.ino in w.inodes
    ensures DirectoriesDone(Rechmod(w, m.ino, TREE_MODE), dirs, done + {m.path})
    ensures LogDone(Rechmod(w, m.ino, TREE_MODE), log + [m])
  {
  }

  lemma DirectoryKnown(w: World, natural: map<Ino, nat>, owner: nat, records: seq<Tracked>, pf: Preflight, d: Path)
    requires PreflightHolds(w, natural, owner, records, pf) && d in AllDirectories(records)
    ensures d in pf.dirs && d in pf.dirModes && [] in pf.dirs
    ensures pf.dirs[d].kind == Directory && Trusted(pf.dirs[d], owner) && Known(w, pf.dirs[d])
            && pf.dirs[d].ino in w.inodes
    ensures pf.dirs[d].ino in natural && pf.dirModes[d] == natural[pf.dirs[d].ino]
  {
    hide RequiredDirectories;
  }

  /** A directory that had the mode from the start has it still, logged or not. */
  lemma UnchangedIsDone(w: World, natural: map<Ino, nat>, log: seq<Mutation>, pf: Preflight, owner: nat,
                        records: seq<Tracked>, done: set<Path>, d: Path)
    requires LogHolds(w, natural, log) && PreflightHolds(w, natural, owner, records, pf) && d in pf.dirs
    requires DirectoriesDone(w, pf.dirs, done) && pf.dirModes[d] == TREE_MODE
    requires d in pf.dirModes && LogDone(w, log)
    ensures DirectoriesDone(w, pf.dirs, done + {d})
  {
    hide AllDirectories;
  }

  lemma AuthenticParts(w: World, root: Ino, records: seq<Tracked>, pf: Preflight)
    requires AuthenticAll(w, root, records, pf) && RecordsValid(records)
    ensures Authentic(w, root, pf.dirs) && ParentClosed(pf.dirs.Keys)
  {
    hide Authentic, RequiredDirectories;
    DirectoriesListed(records);
    var ds := RequiredDirectories(records);
    forall p | p in pf.dirs && p != []
      ensures Parent(p) in pf.dirs
    {
      var k :| 0 <= k < |ds| && ds[k] == p;
      assert Parent(p) != [] ==> Parent(p) in ds[..k] && Parent(p) in ds;
    }
  }

  lemma Across(w0: World, n0: map<Ino, nat>, w1: World, n1: map<Ino, nat>, owner: nat, records: seq<Tracked>,
               pf: Preflight, log: seq<Mutation>)
    requires Recorded(w0, n0) && Later(w0, n0, w1, n1)
    requires PreflightHolds(w0, n0, owner, records, pf) && LogHolds(w0, n0, log)
    ensures PreflightHolds(w1, n1, owner, records, pf) && LogHolds(w1, n1, log) && Recorded(w1, n1) && Extends(n0, n1)
    ensures forall i | i in w0.inodes :: i in w1.inodes && w1.inodes[i].mode == w0.inodes[i].mode
  {
    HoldsLater(w0, n0, w1, n1, owner, records, pf);
    LogLater(w0, n0, w1, n1, log);
    LaterKeeps(w0, n0, w1, n1);
    hide PreflightHolds;
  }

  lemma Changed(w: World, natural: map<Ino, nat>, owner: nat, records: seq<Tracked>, pf: Preflight,
                log: seq<Mutation>, m: Mutation, mode: nat)
    requires PreflightHolds(w, natural, owner, records, pf) && LogHolds(w, natural, log)
    requires Known(w, m.identity) && m.ino == m.identity.ino && m.original == natural[m.ino]
    ensures var w1 := Rechmod(w, m.ino, mode);
            && PreflightHolds(w1, natural, owner, records, pf) && Recorded(w1, natural)
            && LogHolds(w1, natural, log + [m])
            && LogInodes(log + [m]) == LogInodes(log) + {m.ino}
  {
    HoldsAfterChmod(w, natural, owner, records, pf, m.ino, mode);
    LogAfterChmod(w, natural, log, m, mode);
    hide PreflightHolds, LogHolds;
    assert forall x :: x in log + [m] <==> x in log || x == m;
  }

  /** The inodes of the regular files among the records. */
  ghost function TrackedInodes(w: World, root: Ino, records: seq<Tracked>): set<Ino> {
    set r | r in records && r.kind == Plain && Resolve(w, root, r.path).Found? :: Resolve(w, root, r.path).ino
  }

  lemma NoFiles(w: World, natural: map<Ino, nat>, root: Ino, owner: nat, records: seq<Tracked>)
    ensures FilesHold(w, natural, owner, map[], map[]) && RecordsKnown(records[..0], map[], map[])
    ensures AuthenticFiles(w, root, records[..0], map[]) && TrackedInodes(w, root, records[..0]) == {}
  {
  }

  lemma FilesLater(w0: World, n0: map<Ino, nat>, w1: World, n1: map<Ino, nat>, owner: nat, files: map<Path, Identity>,
                   modes: map<Path, nat>)
    requires Recorded(w0, n0) && Later(w0, n0, w1, n1) && FilesHold(w0, n0, owner, files, modes)
    ensures FilesHold(w1, n1, owner, files, modes)
  {
    hide Later, Known, Trusted;
    LaterKeeps(w0, n0, w1, n1);
  }

  lemma FilesGrow(w: World, natural: map<Ino, nat>, owner: nat, files: map<Path, Identity>, modes: map<Path, nat>,
                  records: seq<Tracked>, k: nat, m: Metadata)
    requires Pristine(w, natural) && FilesHold(w, natural, owner, files, modes) && k < |records|
    requires RecordsKnown(records[..k], files, modes)
    requires IsMetadata(w, m) && m.identity.kind == records[k].kind
             && (records[k].kind == Plain || records[k].kind == Link)
    requires records[k].kind == Plain ==> (m.identity.uid == owner || owner == 0) && m.identity.nlink == 1
    ensures var p := records[k].path;
            var modes1 := if records[k].kind == Plain then modes[p := m.mode] else modes;
            && FilesHold(w, natural, owner, files[p := m.identity], modes1)
            && RecordsKnown(records[..k + 1], files[p := m.identity], modes1)
  {
    assert records[..k + 1] == records[..k] + [records[k]];
  }

  /** What a lookup of record k must have found. */
  lemma FitsWhen(w: World, root: Ino, owner: nat, records: seq<Tracked>, k: nat)
    requires k < |records|
    ensures var l := Resolve(w, root, records[k].path);
            RecordFits(w, root, owner, records, k) <==>
              && l.Found? && l.ino in w.inodes && w.inodes[l.ino].kind == records[k].kind
              && ParentSearchable(w, root, records[k].path)
              && (records[k].kind == Plain ==>
                    && (w.inodes[l.ino].uid == owner || owner == 0) && w.inodes[l.ino].nlink == 1
                    && l.ino !in TrackedInodes(w, root, records[..k]))
  {
    hide Resolve;
    var l := Resolve(w, root, records[k].path);
    if l.Found? && l.ino in TrackedInodes(w, root, records[..k]) {
      var r :| r in records[..k] && r.kind == Plain && Resolve(w, root, r.path).Found?
          && Resolve(w, root, r.path).ino == l.ino;
      var j :| 0 <= j < k && records[..k][j] == r;
      assert records[j].kind == Plain && Resolve(w, root, records[j].path) == l;
    } else if l.Found? {
      forall j | 0 <= j < k && records[j].kind == Plain
        ensures Resolve(w, root, records[j].path) != l
      {
        assert records[..k][j] in records[..k];
      }
    }
  }

  lemma AuthenticFilesGrow(w: World, root: Ino, records: seq<Tracked>, k: nat, files: map<Path, Identity>, id: Identity)
    requires k < |records| && AuthenticFiles(w, root, records[..k], files)
    requires Resolve(w, root, records[k].path) == Found(id.ino) && id.ino in w.inodes && id == IdentityOf(w, id.ino)
    requires id.kind == records[k].kind && (id.kind == Plain ==> id.nlink == 1)
    requires ParentSearchable(w, root, records[k].path)
    requires id.kind == Plain ==> id.ino !in TrackedInodes(w, root, records[..k])
    ensures AuthenticFiles(w, root, records[..k + 1], files[records[k].path := id])
    ensures TrackedInodes(w, root, records[..k + 1])
            == TrackedInodes(w, root, records[..k]) + (if records[k].kind == Plain then {id.ino} else {})
  {
    hide Resolve;
    assert records[..k + 1] == records[..k] + [records[k]];
    var more := files[records[k].path := id];
    forall r | r in records[..k]
      ensures more[r.path] == files[r.path]
    {
    }
    forall i, j | 0 <= i < j < k + 1 && records[i].kind == Plain && records[j].kind == Plain
      ensures more[records[i].path].ino != more[records[j].path].ino
    {
      assert records[..k][i] in records[..k];
      if j < k {
        assert records[..k][j] in records[..k];
      }
    }
  }

  lemma Start(w: World, natural: map<Ino, nat>, root: Ino, owner: nat, top: Metadata)
    requires Pristine(w, natural) && IsMetadata(w, top) && Trusted(top.identity, owner)
             && top.identity.kind == Directory
    requires top.identity.ino == root
    ensures Later(w, natural, w, natural) && Recorded(w, natural)
    ensures DirectoriesHold(w, natural, owner, map[[] := top.identity], map[[] := top.mode])
    ensures Authentic(w, root, map[[] := top.identity]) && ParentClosed({[]})
  {
  }

  predicate IsMetadata(w: World, m: Metadata) {
    m.identity.ino in w.inodes && m.identity == IdentityOf(w, m.identity.ino) && m.mode == w.inodes[m.identity.ino].mode
  }

  /** The caller's path opens the bound root, and its .git is the bound one. */
  predicate BindingHolds(w: World, b: Binding) {
    && OpensDirectory(w, w.mounted) && Readable(w, w.mounted.ino)
    && Stable(IdentityOf(w, w.mounted.ino), b.rootIdentity)
    && var git := Child(w, w.mounted.ino, GIT);
       OpensDirectory(w, git) && EntryOpens(w, w.mounted.ino, git) && Stable(IdentityOf(w, git.ino), b.gitIdentity)
  }

  lemma Recording(w0: World, n0: map<Ino, nat>, w1: World, n1: map<Ino, nat>)
    requires Later(w0, n0, w1, n1)
    ensures Recorded(w1, n1)
  {
  }

  lemma KnownKind(w: World, id: Identity)
    requires Known(w, id)
    ensures w.inodes[id.ino].kind == id.kind
  {
  }

  lemma EntryMeans(w: World, parent: Ino, l: Lookup)
    ensures EntryOpens(w, parent, l) <==> Searchable(w, parent) && l.Found? && Readable(w, l.ino)
  {
  }

  lemma ChildExists(w: World, i: Ino, n: Name)
    ensures Child(w, i, n).Found? ==> Child(w, i, n).ino in w.inodes
  {
  }

  lemma NameStep(w: World, root: Ino, dirs: map<Path, Identity>, p: Path)
    requires Authentic(w, root, dirs) && p != [] && Parent(p) in dirs
    ensures Resolve(w, root, p) == Child(w, dirs[Parent(p)].ino, Last(p))
    ensures ParentSearchable(w, root, p) <==> Searchable(w, dirs[Parent(p)].ino)
    ensures DirectoryOpens(w, root, p) <==> EntryOpens(w, dirs[Parent(p)].ino, Resolve(w, root, p))
  {
    ResolveExists(w, root, Parent(p));
  }

  lemma StillThere(w0: World, n0: map<Ino, nat>, w1: World, n1: map<Ino, nat>, i: Ino)
    requires Later(w0, n0, w1, n1) && i in w0.inodes
    ensures i in w1.inodes && OnlyLinksDiffer(w0.inodes[i], w1.inodes[i])
  {
  }

  lemma WalkStarts(w: World, root: Ino, dirs: map<Path, Identity>)
    requires Authentic(w, root, dirs) && [] in dirs && root in w.inodes
    ensures Resolve(w, root, []) == Found(root) && dirs[[]] == IdentityOf(w, root) && w.inodes[root].kind == Directory
  {
  }

  lemma WalkStep(w: World, root: Ino, dirs: map<Path, Identity>, p: Path, k: nat)
    requires Authentic(w, root, dirs) && ParentClosed(dirs.Keys) && p in dirs && k < |p|
    requires Resolve(w, root, p[..k]).Found?
    ensures p[..k + 1] in dirs
    ensures var child := Child(w, Resolve(w, root, p[..k]).ino, p[k]);
            && child == Resolve(w, root, p[..k + 1])
            && OpensDirectory(w, child) && dirs[p[..k + 1]] == IdentityOf(w, child.ino)
            && EntryOpens(w, Resolve(w, root, p[..k]).ino, child)
  {
    PrefixesAreIn(dirs.Keys, p, k + 1);
    var next := p[..k + 1];
    assert Parent(next) == p[..k] && Last(next) == p[k];
  }
}
