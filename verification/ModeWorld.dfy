/** The file system a mode normaliser works on: names, inodes and their modes, what other
    processes may do to it, and when a tracked tree can be normalised. */
module ModeWorld {
  import opened Ordering
  import opened GitTree
  import SourceCreate

  type Ino = nat

  datatype Kind = Directory | Plain | Link | Other

  datatype Inode = Inode(kind: Kind, uid: nat, gid: nat, nlink: nat, mode: nat)

  datatype Lookup = Missing | Found(ino: Ino)

  /** The identity under which the tool runs. */
  datatype User = User(uid: nat, groups: set<nat>)

  /** mounted is what the caller's repository path opens at the moment, user who asks. */
  datatype World = World(inodes: map<Ino, Inode>, entries: map<Ino, map<Name, Ino>>, mounted: Lookup, user: User)

  datatype Identity = Identity(ino: Ino, kind: Kind, uid: nat, gid: nat, nlink: nat)

  datatype Tracked = Tracked(path: Path, mode: nat, kind: Kind)

  datatype Outcome<T> = Ok(value: T) | Fail

  const TREE_MODE: nat := 493  // 0755
  const GIT: Name := [46, 103, 105, 116]

  // ----- lookups -----

  function Child(w: World, i: Ino, n: Name): Lookup {
    if i in w.inodes && w.inodes[i].kind.Directory? && i in w.entries && n in w.entries[i]
      && w.entries[i][n] in w.inodes
    then Found(w.entries[i][n])
    else Missing
  }

  function Resolve(w: World, root: Ino, p: Path): Lookup {
    if p == [] then
      if root in w.inodes then Found(root) else Missing
    else
      match Resolve(w, root, Parent(p))
      case Missing => Missing
      case Found(i) => Child(w, i, Last(p))
  }

  predicate OpensDirectory(w: World, l: Lookup) {
    l.Found? && l.ino in w.inodes && w.inodes[l.ino].kind.Directory?
  }

  // ----- permission -----

  /** The three permission bits that apply: of the owner, of a group member, or of others. */
  function Rights(uid: nat, gid: nat, mode: nat, u: User): nat {
    (if uid == u.uid then mode / 64 else if gid in u.groups then mode / 8 else mode) % 8
  }

  predicate MayRead(uid: nat, gid: nat, mode: nat, u: User) {
    u.uid == 0 || Rights(uid, gid, mode, u) >= 4
  }

  predicate MaySearch(uid: nat, gid: nat, mode: nat, u: User) {
    u.uid == 0 || Rights(uid, gid, mode, u) % 2 == 1
  }

  predicate Readable(w: World, i: Ino) {
    i in w.inodes && MayRead(w.inodes[i].uid, w.inodes[i].gid, w.inodes[i].mode, w.user)
  }

  predicate Searchable(w: World, i: Ino) {
    i in w.inodes && MaySearch(w.inodes[i].uid, w.inodes[i].gid, w.inodes[i].mode, w.user)
  }

  /** The name can be opened for reading in a directory that may be searched. */
  predicate EntryOpens(w: World, parent: Ino, l: Lookup) {
    Searchable(w, parent) && l.Found? && Readable(w, l.ino)
  }

  lemma TreeModeOpens(w: World, i: Ino)
    requires i in w.inodes && w.inodes[i].mode == TREE_MODE
    ensures Readable(w, i) && Searchable(w, i)
  {
  }

  function IdentityOf(w: World, i: Ino): Identity
    requires i in w.inodes
  {
    var o := w.inodes[i];
    Identity(i, o.kind, o.uid, o.gid, o.nlink)
  }

  /** Everything but the link count, which changes with a directory's members. */
  predicate Stable(a: Identity, b: Identity) {
    a.ino == b.ino && a.kind == b.kind && a.uid == b.uid && a.gid == b.gid
  }

  predicate Known(w: World, id: Identity) {
    id.ino in w.inodes && Stable(IdentityOf(w, id.ino), id)
  }

  // ----- other processes -----

  /** natural is the mode with which each inode came to exist. */
  predicate Recorded(w: World, natural: map<Ino, nat>) {
    natural.Keys == w.inodes.Keys
  }

  predicate Pristine(w: World, natural: map<Ino, nat>) {
    Recorded(w, natural) && forall i | i in w.inodes :: w.inodes[i].mode == natural[i]
  }

  predicate OnlyLinksDiffer(a: Inode, b: Inode) {
    b == a.(nlink := b.nlink)
  }

  /** Names may be bound, moved, replaced and removed in any way and inodes may appear; no
      existing inode changes its kind, owner or mode, and no inode id is reused. */
  predicate Later(w0: World, n0: map<Ino, nat>, w1: World, n1: map<Ino, nat>) {
    && Recorded(w1, n1) && w1.user == w0.user
    && (forall i | i in w0.inodes :: i in w1.inodes && OnlyLinksDiffer(w0.inodes[i], w1.inodes[i]))
    && (forall i | i in n0 :: i in n1 && n1[i] == n0[i])
    && (forall i | i in w1.inodes && i !in w0.inodes :: w1.inodes[i].mode == n1[i])
  }

  lemma LaterRefl(w: World, n: map<Ino, nat>)
    requires Recorded(w, n)
    ensures Later(w, n, w, n)
  {
  }

  lemma LaterTrans(w0: World, n0: map<Ino, nat>, w1: World, n1: map<Ino, nat>, w2: World, n2: map<Ino, nat>)
    requires Recorded(w0, n0) && Later(w0, n0, w1, n1) && Later(w1, n1, w2, n2)
    ensures Later(w0, n0, w2, n2) && Recorded(w2, n2)
  {
  }

  lemma LaterKeeps(w0: World, n0: map<Ino, nat>, w1: World, n1: map<Ino, nat>)
    requires Recorded(w0, n0) && Later(w0, n0, w1, n1)
    ensures Pristine(w0, n0) ==> Pristine(w1, n1)
    ensures forall id | Known(w0, id) :: Known(w1, id)
    ensures forall i | i in w0.inodes :: i in w1.inodes && w1.inodes[i].mode == w0.inodes[i].mode
    ensures forall i | i in n0 :: i in n1 && n1[i] == n0[i]
  {
  }

  // ----- what modes do not matter to -----

  predicate OnlyModeDiffers(a: Inode, b: Inode) {
    b == a.(mode := b.mode)
  }

  predicate SameButModes(w0: World, w1: World) {
    && w1.entries == w0.entries && w1.mounted == w0.mounted && w1.inodes.Keys == w0.inodes.Keys && w1.user == w0.user
    && forall i | i in w0.inodes :: OnlyModeDiffers(w0.inodes[i], w1.inodes[i])
  }

  /** Directories have at most been set to 0755. */
  predicate Eased(w0: World, w1: World) {
    && SameButModes(w0, w1)
    && forall i | i in w0.inodes && w0.inodes[i].kind == Directory ::
         w1.inodes[i].mode == w0.inodes[i].mode || w1.inodes[i].mode == TREE_MODE
  }

  /** What could be opened and searched still can. */
  lemma EasedOpens(w0: World, w1: World, i: Ino)
    requires Eased(w0, w1) && i in w0.inodes && w0.inodes[i].kind == Directory
    ensures Readable(w0, i) ==> Readable(w1, i)
    ensures Searchable(w0, i) ==> Searchable(w1, i)
  {
    assert OnlyModeDiffers(w0.inodes[i], w1.inodes[i]);
    if w1.inodes[i].mode == TREE_MODE {
      TreeModeOpens(w1, i);
    }
  }

  lemma {:induction false} ModesDoNotResolve(w0: World, w1: World, root: Ino, p: Path)
    requires SameButModes(w0, w1)
    ensures Resolve(w1, root, p) == Resolve(w0, root, p)
    decreases |p|
  {
    if p != [] {
      ModesDoNotResolve(w0, w1, root, Parent(p));
    }
  }

  lemma ResolveExists(w: World, root: Ino, p: Path)
    ensures Resolve(w, root, p).Found? ==> Resolve(w, root, p).ino in w.inodes
  {
  }

  // ----- the preflight's knowledge -----

  /** Every recorded directory is what its path leads to, and can be opened there. */
  predicate Authentic(w: World, root: Ino, dirs: map<Path, Identity>) {
    forall p | p in dirs ::
      && OpensDirectory(w, Resolve(w, root, p)) && DirectoryOpens(w, root, p)
      && dirs[p] == IdentityOf(w, Resolve(w, root, p).ino)
  }

  /** A directory below the root is readable, and found in a directory that may be searched. */
  predicate DirectoryOpens(w: World, root: Ino, p: Path) {
    p != [] ==>
      var parent := Resolve(w, root, Parent(p));
      parent.Found? && EntryOpens(w, parent.ino, Resolve(w, root, p))
  }

  predicate ParentClosed(dirs: set<Path>) {
    [] in dirs && forall p | p in dirs && p != [] :: Parent(p) in dirs
  }

  lemma {:induction false} PrefixesAreIn(dirs: set<Path>, p: Path, k: nat)
    requires ParentClosed(dirs) && p in dirs && k <= |p|
    ensures p[..k] in dirs
    decreases |p|
  {
    if k < |p| {
      PrefixesAreIn(dirs, Parent(p), k);
      assert Parent(p)[..k] == p[..k];
    } else {
      assert p[..k] == p;
    }
  }

  // ----- which trees can be normalised -----

  function Paths(records: seq<Tracked>): (r: seq<Path>)
    ensures |r| == |records| && forall i | 0 <= i < |r| :: r[i] == records[i].path
  {
    seq(|records|, i requires 0 <= i < |records| => records[i].path)
  }

  /** The tracked parent directories, shallow ones first; the root is not among them. */
  function RequiredDirectories(records: seq<Tracked>): seq<Path> {
    SourceCreate.DirectoriesAbove(Paths(records))
  }

  predicate RecordsValid(records: seq<Tracked>) {
    records != [] && forall r | r in records :: SafePath(r.path) && (r.kind == Plain || r.kind == Link)
  }

  predicate Owned(w: World, owner: nat, i: Ino)
    requires i in w.inodes
  {
    w.inodes[i].uid == owner || owner == 0
  }

  predicate RepositoryOpens(w: World) {
    && OpensDirectory(w, w.mounted) && Readable(w, w.mounted.ino)
    && OpensDirectory(w, Child(w, w.mounted.ino, GIT)) && EntryOpens(w, w.mounted.ino, Child(w, w.mounted.ino, GIT))
  }

  predicate DirectoryFits(w: World, root: Ino, owner: nat, d: Path) {
    var l := Resolve(w, root, d);
    OpensDirectory(w, l) && DirectoryOpens(w, root, d) && Owned(w, owner, l.ino)
  }

  predicate ParentSearchable(w: World, root: Ino, p: Path) {
    p != [] ==> Resolve(w, root, Parent(p)).Found? && Searchable(w, Resolve(w, root, Parent(p)).ino)
  }

  predicate RecordFits(w: World, root: Ino, owner: nat, records: seq<Tracked>, k: nat)
    requires k < |records|
  {
    var r := records[k];
    var l := Resolve(w, root, r.path);
    && l.Found? && l.ino in w.inodes && w.inodes[l.ino].kind == r.kind && ParentSearchable(w, root, r.path)
    && (r.kind == Plain ==>
          && Owned(w, owner, l.ino) && w.inodes[l.ino].nlink == 1
          && forall j | 0 <= j < k && records[j].kind == Plain :: Resolve(w, root, records[j].path) != l)
  }

  /** A regular file that has not its mode yet can be opened. */
  predicate FilesOpen(w: World, root: Ino, records: seq<Tracked>) {
    forall r | r in records && r.kind == Plain && ModeAt(w, root, r.path) != r.mode ::
      Resolve(w, root, r.path).Found? && Readable(w, Resolve(w, root, r.path).ino)
  }

  /** What the preflight accepts, and every file that has to be changed can be opened. */
  predicate Acceptable(w: World, owner: nat, records: seq<Tracked>) {
    Admissible(w, owner, records) && FilesOpen(w, w.mounted.ino, records)
  }

  /** The repository opens, and every tracked name leads, through directories that can be opened
      and searched, to an owned object of its own and of the right kind. */
  predicate Admissible(w: World, owner: nat, records: seq<Tracked>) {
    && RepositoryOpens(w) && RecordsValid(records)
    && DirectoryFits(w, w.mounted.ino, owner, [])
    && (forall d | d in RequiredDirectories(records) :: DirectoryFits(w, w.mounted.ino, owner, d))
    && (forall k | 0 <= k < |records| :: RecordFits(w, w.mounted.ino, owner, records, k))
  }

  function ModeAt(w: World, root: Ino, p: Path): nat {
    var l := Resolve(w, root, p);
    if l.Found? && l.ino in w.inodes then w.inodes[l.ino].mode else 0
  }

  function AllDirectories(records: seq<Tracked>): set<Path> {
    {[]} + set d | d in RequiredDirectories(records)
  }

  function DifferingFiles(w: World, root: Ino, records: seq<Tracked>): nat {
    if records == [] then 0
    else
      var r := records[|records| - 1];
      (if r.kind == Plain && ModeAt(w, root, r.path) != r.mode then 1 else 0)
      + DifferingFiles(w, root, records[..|records| - 1])
  }

  function DifferingDirectories(w: World, root: Ino, records: seq<Tracked>): nat {
    |set d | d in AllDirectories(records) && ModeAt(w, root, d) != TREE_MODE|
  }

  /** The inode is a tracked directory's or a tracked regular file's. */
  predicate Covered(w: World, root: Ino, records: seq<Tracked>, i: Ino) {
    || (exists d | d in AllDirectories(records) :: Resolve(w, root, d) == Found(i))
    || (exists r | r in records && r.kind == Plain :: Resolve(w, root, r.path) == Found(i))
  }

  /** w1 is w0 with the required mode on every tracked directory and regular file, and
      nothing else changed. */
  predicate Normalised(w0: World, w1: World, root: Ino, records: seq<Tracked>) {
    && SameButModes(w0, w1)
    && (forall d | d in AllDirectories(records) :: ModeAt(w1, root, d) == TREE_MODE)
    && (forall r | r in records && r.kind == Plain :: ModeAt(w1, root, r.path) == r.mode)
    && (forall i | i in w0.inodes && !Covered(w0, root, records, i) :: w1.inodes[i] == w0.inodes[i])
  }

  // ----- a second run has nothing to do -----

  lemma RegularIsNoDirectory(w: World, owner: nat, records: seq<Tracked>, r: Tracked)
    requires Admissible(w, owner, records) && r in records && r.kind == Plain
    ensures w.mounted.Found?
    ensures var l := Resolve(w, w.mounted.ino, r.path); l.Found? && l.ino in w.inodes && w.inodes[l.ino].kind == Plain
  {
    hide Resolve, RequiredDirectories, DirectoryFits, SafePath;
    var k :| 0 <= k < |records| && records[k] == r;
    assert RecordFits(w, w.mounted.ino, owner, records, k);
  }

  /** A normalised tree is an eased one: only directories and regular files were changed. */
  lemma NormalisedIsEased(w0: World, w1: World, owner: nat, records: seq<Tracked>)
    requires Admissible(w0, owner, records) && Normalised(w0, w1, w0.mounted.ino, records)
    ensures Eased(w0, w1)
  {
    var root := w0.mounted.ino;
    hide Resolve, AllDirectories, RequiredDirectories, RepositoryOpens, DirectoryFits, DirectoryOpens, SafePath;
    forall i | i in w0.inodes && w0.inodes[i].kind == Directory
      ensures w1.inodes[i].mode == w0.inodes[i].mode || w1.inodes[i].mode == TREE_MODE
    {
      if d :| d in AllDirectories(records) && Resolve(w0, root, d) == Found(i) {
        ModesDoNotResolve(w0, w1, root, d);
        assert ModeAt(w1, root, d) == TREE_MODE;
      } else if r :| r in records && r.kind == Plain && Resolve(w0, root, r.path) == Found(i) {
        RegularIsNoDirectory(w0, owner, records, r);
      } else {
        assert !Covered(w0, root, records, i);
      }
    }
  }

  lemma EasedDirectoryFits(w0: World, w1: World, root: Ino, owner: nat, d: Path)
    requires Eased(w0, w1) && DirectoryFits(w0, root, owner, d)
    ensures DirectoryFits(w1, root, owner, d)
  {
    ModesDoNotResolve(w0, w1, root, d);
    EasedOpens(w0, w1, Resolve(w0, root, d).ino);
    if d != [] {
      EasedParent(w0, w1, root, d);
    }
    hide Resolve, Rights;
    assert OnlyModeDiffers(w0.inodes[Resolve(w0, root, d).ino], w1.inodes[Resolve(w0, root, d).ino]);
  }

  /** The directory of a name that resolves is a directory, and searchable if it was. */
  lemma EasedParent(w0: World, w1: World, root: Ino, p: Path)
    requires Eased(w0, w1) && p != [] && Resolve(w0, root, p).Found?
    ensures Resolve(w0, root, Parent(p)).Found? && Resolve(w1, root, Parent(p)) == Resolve(w0, root, Parent(p))
    ensures Searchable(w0, Resolve(w0, root, Parent(p)).ino) ==> Searchable(w1, Resolve(w0, root, Parent(p)).ino)
  {
    ModesDoNotResolve(w0, w1, root, Parent(p));
    EasedOpens(w0, w1, Resolve(w0, root, Parent(p)).ino);
  }

  lemma EasedRecordFits(w0: World, w1: World, root: Ino, owner: nat, records: seq<Tracked>, k: nat)
    requires Eased(w0, w1) && k < |records| && RecordFits(w0, root, owner, records, k)
    ensures RecordFits(w1, root, owner, records, k)
  {
    forall p: Path
      ensures Resolve(w1, root, p) == Resolve(w0, root, p)
    {
      ModesDoNotResolve(w0, w1, root, p);
    }
    if records[k].path != [] {
      EasedParent(w0, w1, root, records[k].path);
    }
    hide Resolve, Searchable;
    var l := Resolve(w0, root, records[k].path);
    assert OnlyModeDiffers(w0.inodes[l.ino], w1.inodes[l.ino]);
  }

  lemma EasedRepository(w0: World, w1: World)
    requires Eased(w0, w1) && RepositoryOpens(w0)
    ensures RepositoryOpens(w1)
  {
    var git := Child(w0, w0.mounted.ino, GIT);
    EasedOpens(w0, w1, w0.mounted.ino);
    EasedOpens(w0, w1, git.ino);
    hide Rights;
    assert OnlyModeDiffers(w0.inodes[w0.mounted.ino], w1.inodes[w0.mounted.ino]);
    assert OnlyModeDiffers(w0.inodes[git.ino], w1.inodes[git.ino]);
  }

  lemma EasedIsAdmissible(w0: World, w1: World, owner: nat, records: seq<Tracked>)
    requires Eased(w0, w1) && Admissible(w0, owner, records)
    ensures Admissible(w1, owner, records)
  {
    var root := w0.mounted.ino;
    EasedRepository(w0, w1);
    hide Resolve, RequiredDirectories, SafePath, RepositoryOpens, DirectoryFits, RecordFits;
    forall d | d in RequiredDirectories(records) || d == []
      ensures DirectoryFits(w1, root, owner, d)
    {
      EasedDirectoryFits(w0, w1, root, owner, d);
    }
    forall k | 0 <= k < |records|
      ensures RecordFits(w1, root, owner, records, k)
    {
      EasedRecordFits(w0, w1, root, owner, records, k);
    }
  }

  lemma {:induction false} NoFileDiffers(w: World, root: Ino, records: seq<Tracked>)
    requires forall r | r in records && r.kind == Plain :: ModeAt(w, root, r.path) == r.mode
    ensures DifferingFiles(w, root, records) == 0
  {
    if records != [] {
      NoFileDiffers(w, root, records[..|records| - 1]);
    }
  }

  /** Normalising is idempotent: the result is acceptable, differs nowhere, and the only
      normalisation of it is itself. */
  lemma NormalisedAgain(w0: World, w1: World, owner: nat, records: seq<Tracked>)
    requires Acceptable(w0, owner, records) && Normalised(w0, w1, w0.mounted.ino, records)
    ensures Acceptable(w1, owner, records)
    ensures DifferingFiles(w1, w1.mounted.ino, records) == 0 && DifferingDirectories(w1, w1.mounted.ino, records) == 0
    ensures forall w2 | Normalised(w1, w2, w1.mounted.ino, records) :: w2 == w1
  {
    var root := w0.mounted.ino;
    NormalisedIsEased(w0, w1, owner, records);
    EasedIsAdmissible(w0, w1, owner, records);
    NoFileDiffers(w1, root, records);
    assert (set d | d in AllDirectories(records) && ModeAt(w1, root, d) != TREE_MODE) == {};
    forall w2 | Normalised(w1, w2, root, records)
      ensures w2 == w1
    {
      NormalisedIsUnique(w1, w1, w2, root, records);
    }
  }

  /** The required modes determine the normalised file system. */
  lemma NormalisedIsUnique(w0: World, w1: World, w2: World, root: Ino, records: seq<Tracked>)
    requires SameButModes(w0, w1) && Normalised(w0, w2, root, records)
    requires forall d | d in AllDirectories(records) :: ModeAt(w1, root, d) == TREE_MODE
    requires forall r | r in records && r.kind == Plain :: ModeAt(w1, root, r.path) == r.mode
    requires forall i | i in w0.inodes && !Covered(w0, root, records, i) :: w1.inodes[i] == w0.inodes[i]
    ensures w2 == w1
  {
    hide Resolve, AllDirectories;
    forall i | i in w0.inodes
      ensures w2.inodes[i] == w1.inodes[i]
    {
      if Covered(w0, root, records, i) {
        SameModeWhereCovered(w0, w1, w2, root, records, i);
        assert OnlyModeDiffers(w0.inodes[i], w1.inodes[i]) && OnlyModeDiffers(w0.inodes[i], w2.inodes[i]);
      }
    }
    assert w2.inodes == w1.inodes;
  }

  lemma SameModeWhereCovered(w0: World, w1: World, w2: World, root: Ino, records: seq<Tracked>, i: Ino)
    requires SameButModes(w0, w1) && SameButModes(w0, w2) && i in w0.inodes && Covered(w0, root, records, i)
    requires forall d | d in AllDirectories(records) :: ModeAt(w1, root, d) == ModeAt(w2, root, d)
    requires forall r | r in records && r.kind == Plain :: ModeAt(w1, root, r.path) == ModeAt(w2, root, r.path)
    ensures w1.inodes[i].mode == w2.inodes[i].mode
  {
    hide Resolve, AllDirectories;
    var p: Path;
    if d :| d in AllDirectories(records) && Resolve(w0, root, d) == Found(i) {
      p := d;
    } else {
      var r :| r in records && r.kind == Plain && Resolve(w0, root, r.path) == Found(i);
      p := r.path;
    }
    ModesDoNotResolve(w0, w1, root, p);
    ModesDoNotResolve(w0, w2, root, p);
    assert ModeAt(w1, root, p) == ModeAt(w2, root, p);
  }
}
