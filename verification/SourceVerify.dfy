/** The Git-less source authority on a quiescent file system: verification accepts exactly
    the described directory tree, and accepts everything that creation writes. */
module SourceVerify {
  import opened Ordering
  import opened GitTree
  import opened TreeIdentity

  type Ino = nat

  datatype Object =
    | Folder(mode: nat, members: map<Name, Ino>)
    | Regular(mode: nat, nlink: nat, bytes: Bytes)
    | Special

  type FileSystem = map<Ino, Object>

  datatype Resolution = Missing | Found(ino: Ino)

  datatype DirectoryRecord = DirectoryRecord(path: Path, mode: nat)

  datatype Authority = Authority(path: Path, gitMode: Bytes, oid: Oid, mode: nat, sha256: Bytes, size: nat)

  datatype Manifest = Manifest(tree: Oid, rootMode: nat, directories: seq<DirectoryRecord>, files: seq<Authority>)

  /** The two digests, as given functions. */
  datatype Digests = Digests(sha1: Bytes -> Oid, sha256: Bytes -> Bytes)

  const FOLDER_MODE: nat := 493      // 0755
  const PLAIN_FILE: nat := 420       // 0644
  const EXECUTABLE_FILE: nat := 493  // 0755
  const MAX_FILES: nat := 8192
  const MAX_DIRECTORIES: nat := 2048
  const BLOB_KIND: Bytes := [98, 108, 111, 98]

  function BlobOid(h: Digests, bytes: Bytes): Oid {
    h.sha1(Frame(BLOB_KIND, bytes))
  }

  /** Open one name in an opened directory, links not followed. */
  function Member(fs: FileSystem, i: Ino, n: Name): Resolution {
    if i in fs && fs[i].Folder? && n in fs[i].members then Found(fs[i].members[n]) else Missing
  }

  /** Walk a path from the root, one member name at a time. */
  function Resolve(fs: FileSystem, root: Ino, p: Path): Resolution {
    if p == [] then
      Found(root)
    else
      match Resolve(fs, root, Parent(p))
      case Missing => Missing
      case Found(i) => Member(fs, i, Last(p))
  }

  function DirPaths(ds: seq<DirectoryRecord>): (r: seq<Path>)
    ensures |r| == |ds| && forall i | 0 <= i < |ds| :: r[i] == ds[i].path
  {
    seq(|ds|, i requires 0 <= i < |ds| => ds[i].path)
  }

  function Records(files: seq<Authority>): (r: seq<FileRecord>)
    ensures |r| == |files|
    ensures forall i | 0 <= i < |files| :: r[i] == FileRecord(files[i].path, files[i].gitMode, files[i].oid)
  {
    seq(|files|, i requires 0 <= i < |files| => FileRecord(files[i].path, files[i].gitMode, files[i].oid))
  }

  /** Shallow directories first, then by bytes: the order the manifest must have. */
  function DepthKey(d: Path): seq<int> {
    [|d|] + Join(d)
  }

  function SetOf(ps: seq<Path>): set<Path> {
    set p | p in ps
  }

  predicate IsFolder(fs: FileSystem, r: Resolution) {
    r.Found? && r.ino in fs && fs[r.ino].Folder? && fs[r.ino].mode == FOLDER_MODE
  }

  predicate RecordValid(f: Authority) {
    || (f.gitMode == PLAIN_MODE && f.mode == PLAIN_FILE)
    || (f.gitMode == EXECUTABLE_MODE && f.mode == EXECUTABLE_FILE)
  }

  predicate IsDescribed(h: Digests, fs: FileSystem, r: Resolution, f: Authority) {
    && r.Found? && r.ino in fs && fs[r.ino].Regular?
    && fs[r.ino].nlink == 1
    && fs[r.ino].mode == f.mode
    && h.sha256(fs[r.ino].bytes) == f.sha256
    && |fs[r.ino].bytes| == f.size
    && BlobOid(h, fs[r.ino].bytes) == f.oid
  }

  // ----- the exact source, as one statement about all paths -----

  predicate ListedDir(m: Manifest, p: Path) {
    p == [] || exists d | d in m.directories :: d.path == p
  }

  predicate ListedFile(m: Manifest, p: Path) {
    exists f | f in m.files :: f.path == p
  }

  predicate HeaderValid(m: Manifest) {
    && m.rootMode == FOLDER_MODE
    && |m.directories| <= MAX_DIRECTORIES
    && |m.files| <= MAX_FILES
    && (forall d | d in m.directories :: d.mode == FOLDER_MODE)
    && (forall f | f in m.files :: RecordValid(f))
    && (forall i, j | 0 <= i < j < |m.directories| :: m.directories[i].path != m.directories[j].path)
    && (forall i, j | 0 <= i < j < |m.files| :: m.files[i].path != m.files[j].path)
    && DirPaths(m.directories) == SortBy(DirPaths(m.directories), DepthKey)
  }

  predicate TreeAgrees(h: Digests, m: Manifest) {
    && Derivable(Records(m.files), DirPaths(m.directories))
    && TreeOf(h.sha1, Records(m.files), DirOrder(DirPaths(m.directories)), []) == m.tree
  }

  /** The root holds the listed members and nothing else at any level, each with its own
      inode, the listed kind, mode and bytes, and the manifest derives its tree id. */
  ghost predicate ExactSource(h: Digests, fs: FileSystem, root: Ino, m: Manifest) {
    && HeaderValid(m)
    && TreeAgrees(h, m)
    && (forall p: Path :: Resolve(fs, root, p).Found? <==> ListedDir(m, p) || ListedFile(m, p))
    && (forall p: Path, q: Path :: p != q && Resolve(fs, root, p).Found? ==>
      Resolve(fs, root, p) != Resolve(fs, root, q))
    && (forall p: Path | ListedDir(m, p) :: IsFolder(fs, Resolve(fs, root, p)))
    && (forall f | f in m.files :: IsDescribed(h, fs, Resolve(fs, root, f.path), f))
  }

  // ----- what the loops of verify establish -----

  /** The inodes the listed paths resolve to. */
  function Inodes(fs: FileSystem, root: Ino, ps: seq<Path>): set<Ino> {
    set p | p in ps && Resolve(fs, root, p).Found? :: Resolve(fs, root, p).ino
  }

  predicate DirectoryHolds(fs: FileSystem, root: Ino, ds: seq<DirectoryRecord>, k: nat)
    requires k < |ds|
  {
    var d, earlier := ds[k], DirPaths(ds[..k]);
    && SafePath(d.path) && d.mode == FOLDER_MODE && d.path !in earlier
    && (Parent(d.path) == [] || Parent(d.path) in earlier)
    && IsFolder(fs, Resolve(fs, root, d.path))
    && Resolve(fs, root, d.path).ino !in Inodes(fs, root, [[]] + earlier)
  }

  function FilePaths(files: seq<Authority>): (r: seq<Path>)
    ensures |r| == |files| && forall i | 0 <= i < |files| :: r[i] == files[i].path
  {
    seq(|files|, i requires 0 <= i < |files| => files[i].path)
  }

  predicate FileHolds(h: Digests, fs: FileSystem, root: Ino, ds: seq<Path>, files: seq<Authority>, k: nat)
    requires k < |files|
  {
    var f, earlier := files[k], FilePaths(files[..k]);
    && SafePath(f.path) && RecordValid(f) && f.path !in earlier
    && (Parent(f.path) == [] || Parent(f.path) in ds)
    && IsDescribed(h, fs, Resolve(fs, root, f.path), f)
    && Resolve(fs, root, f.path).ino !in Inodes(fs, root, [[]] + ds + earlier)
  }

  function ChildNames(ds: seq<Path>, fs: seq<Path>, dir: Path): set<Name> {
    (set d | d in ds && d != [] && Parent(d) == dir :: Last(d))
      + (set f | f in fs && f != [] && Parent(f) == dir :: Last(f))
  }

  predicate MembersHold(fs: FileSystem, root: Ino, ds: seq<Path>, files: seq<Path>, dir: Path) {
    var r := Resolve(fs, root, dir);
    r.Found? && r.ino in fs && fs[r.ino].Folder? && fs[r.ino].members.Keys == ChildNames(ds, files, dir)
  }

  /** The retained descriptors: one for the root and every directory opened so far. */
  predicate Opened(fs: FileSystem, root: Ino, fds: map<Path, Ino>, seen: set<Ino>, ps: seq<Path>) {
    && fds.Keys == {[]} + SetOf(ps)
    && (forall p | p in fds :: Resolve(fs, root, p) == Found(fds[p]))
    && seen == Inodes(fs, root, [[]] + ps)
  }

  lemma OpenedNothing(fs: FileSystem, root: Ino)
    ensures Opened(fs, root, map[[] := root], {root}, [])
  {
    var top: seq<Path> := [[]];
    assert forall p: Path :: p in top <==> p == [];
    assert [[]] + [] == top && Resolve(fs, root, []) == Found(root);
  }

  lemma OpenedStep(fs: FileSystem, root: Ino, fds: map<Path, Ino>, seen: set<Ino>, ps: seq<Path>, p: Path)
    requires Opened(fs, root, fds, seen, ps) && Resolve(fs, root, p).Found?
    ensures Opened(fs, root, fds[p := Resolve(fs, root, p).ino], seen + {Resolve(fs, root, p).ino}, ps + [p])
  {
    hide Inodes, Resolve;
    InodesSnoc(fs, root, [[]] + ps, p);
    assert [[]] + ps + [p] == [[]] + (ps + [p]);
    SetOfSnoc(ps, p);
  }

  lemma SetOfSnoc(ps: seq<Path>, p: Path)
    ensures SetOf(ps + [p]) == SetOf(ps) + {p}
  {
  }

  lemma OpenedParent(fs: FileSystem, root: Ino, fds: map<Path, Ino>, seen: set<Ino>, ps: seq<Path>, p: Path)
    requires Opened(fs, root, fds, seen, ps) && p != []
    ensures Parent(p) in fds <==> Parent(p) == [] || Parent(p) in ps
    ensures Parent(p) in fds ==> Resolve(fs, root, p) == Member(fs, fds[Parent(p)], Last(p))
  {
  }

  method VerifyDirectories(fs: FileSystem, root: Ino, ds: seq<DirectoryRecord>)
    returns (ok: bool, fds: map<Path, Ino>, seen: set<Ino>)
    requires root in fs && fs[root].Folder?
    ensures ok <==> && DirPaths(ds) == SortBy(DirPaths(ds), DepthKey)
                    && forall k | 0 <= k < |ds| :: DirectoryHolds(fs, root, ds, k)
    ensures ok ==> Opened(fs, root, fds, seen, DirPaths(ds))
  {
    hide SafePath, SortBy, Inodes, Join, Opened;
    fds, seen := map[[] := root], {root};
    if DirPaths(ds) != SortBy(DirPaths(ds), DepthKey) {
      return false, fds, seen;
    }
    OpenedNothing(fs, root);
    assert DirPaths(ds[..0]) == [];
    for k := 0 to |ds|
      invariant forall j | 0 <= j < k :: DirectoryHolds(fs, root, ds, j)
      invariant Opened(fs, root, fds, seen, DirPaths(ds[..k]))
    {
      var p, earlier := ds[k].path, DirPaths(ds[..k]);
      SafeIsNonempty(p);
      ok := SafePath(p) && ds[k].mode == FOLDER_MODE && p !in earlier && Parent(p) in fds;
      if p != [] {
        OpenedParent(fs, root, fds, seen, earlier, p);
      }
      OpenedSeen(fs, root, fds, seen, earlier);
      if ok {
        var r := Member(fs, fds[Parent(p)], Last(p));
        ok := IsFolder(fs, r) && r.ino !in seen;
      }
      assert ok <==> DirectoryHolds(fs, root, ds, k);
      if !ok {
        return;
      }
      OpenedStep(fs, root, fds, seen, earlier, p);
      DirPathsSnoc(ds, k);
      var i := Member(fs, fds[Parent(p)], Last(p)).ino;
      fds, seen := fds[p := i], seen + {i};
    }
    assert ds[..|ds|] == ds;
    ok := true;
  }

  lemma OpenedSeen(fs: FileSystem, root: Ino, fds: map<Path, Ino>, seen: set<Ino>, ps: seq<Path>)
    requires Opened(fs, root, fds, seen, ps)
    ensures seen == Inodes(fs, root, [[]] + ps)
  {
  }

  lemma SafeIsNonempty(p: Path)
    ensures SafePath(p) ==> p != []
  {
  }

  lemma DirPathsSnoc(ds: seq<DirectoryRecord>, k: nat)
    requires k < |ds|
    ensures DirPaths(ds[..k + 1]) == DirPaths(ds[..k]) + [ds[k].path]
  {
  }

  lemma FilePathsSnoc(files: seq<Authority>, k: nat)
    requires k < |files|
    ensures FilePaths(files[..k + 1]) == FilePaths(files[..k]) + [files[k].path]
  {
  }

  lemma InodesSnoc(fs: FileSystem, root: Ino, ps: seq<Path>, p: Path)
    requires Resolve(fs, root, p).Found?
    ensures Inodes(fs, root, ps + [p]) == Inodes(fs, root, ps) + {Resolve(fs, root, p).ino}
  {
    assert forall q :: q in ps + [p] <==> q in ps || q == p;
  }

  method VerifyFiles(h: Digests, fs: FileSystem, root: Ino, ds: seq<Path>, fds: map<Path, Ino>, start: set<Ino>,
                     files: seq<Authority>)
    returns (ok: bool)
    requires Opened(fs, root, fds, start, ds)
    ensures ok <==> forall k | 0 <= k < |files| :: FileHolds(h, fs, root, ds, files, k)
  {
    hide SafePath, Inodes, IsDescribed, RecordValid, Opened;
    var seen := start;
    OpenedSeen(fs, root, fds, start, ds);
    assert [[]] + ds + FilePaths(files[..0]) == [[]] + ds;
    for k := 0 to |files|
      invariant forall j | 0 <= j < k :: FileHolds(h, fs, root, ds, files, j)
      invariant seen == Inodes(fs, root, [[]] + ds + FilePaths(files[..k]))
    {
      var p := files[k].path;
      SafeIsNonempty(p);
      ok := SafePath(p) && p !in FilePaths(files[..k]) && RecordValid(files[k]) && Parent(p) in fds;
      if p != [] {
        OpenedParent(fs, root, fds, start, ds, p);
      }
      if ok {
        var r := Member(fs, fds[Parent(p)], Last(p));
        DescribedIsFound(h, fs, r, files[k]);
        ok := IsDescribed(h, fs, r, files[k]) && r.ino !in seen;
      }
      assert ok <==> FileHolds(h, fs, root, ds, files, k);
      if !ok {
        return;
      }
      InodesSnoc(fs, root, [[]] + ds + FilePaths(files[..k]), p);
      FilePathsSnoc(files, k);
      assert [[]] + ds + FilePaths(files[..k]) + [p] == [[]] + ds + FilePaths(files[..k + 1]);
      seen := seen + {Member(fs, fds[Parent(p)], Last(p)).ino};
    }
    ok := true;
  }

  lemma DescribedIsFound(h: Digests, fs: FileSystem, r: Resolution, f: Authority)
    ensures IsDescribed(h, fs, r, f) ==> r.Found?
  {
  }

  predicate Accepted(h: Digests, fs: FileSystem, root: Ino, m: Manifest) {
    var ds := DirPaths(m.directories);
    && m.rootMode == FOLDER_MODE
    && |m.directories| <= MAX_DIRECTORIES && |m.files| <= MAX_FILES
    && root in fs && fs[root].Folder? && fs[root].mode == FOLDER_MODE
    && ds == SortBy(ds, DepthKey)
    && (forall k | 0 <= k < |m.directories| :: DirectoryHolds(fs, root, m.directories, k))
    && (forall k | 0 <= k < |m.files| :: FileHolds(h, fs, root, ds, m.files, k))
    && (forall d | d in [[]] + ds :: MembersHold(fs, root, ds, FilePaths(m.files), d))
    && TreeAgrees(h, m)
  }

  // ----- the loops' conditions are the exact source -----

  /** The manifest's directory order puts every listed parent before its children. */
  lemma ParentsComeFirst(ds: seq<Path>, k: nat)
    requires ds == SortBy(ds, DepthKey) && k < |ds| && ds[k] != [] && Parent(ds[k]) in ds
    ensures Parent(ds[k]) in ds[..k]
  {
    hide SortBy, Join, Less;
    SortSorts(ds, DepthKey);
    var j :| 0 <= j < |ds| && ds[j] == Parent(ds[k]);
    SmallerHead(DepthKey(ds[j]), DepthKey(ds[k]));
    LessTotal(DepthKey(ds[k]), DepthKey(ds[k]));
    assert !(k < j);
  }

  function AllPaths(m: Manifest): seq<Path> {
    [[]] + DirPaths(m.directories) + FilePaths(m.files)
  }

  lemma AllPathsAre(m: Manifest, p: Path)
    ensures p in AllPaths(m) <==> ListedDir(m, p) || ListedFile(m, p)
    ensures p in DirPaths(m.directories) <==> exists d | d in m.directories :: d.path == p
    ensures p in FilePaths(m.files) <==> ListedFile(m, p)
  {
    if d :| d in m.directories && d.path == p {
      var i :| 0 <= i < |m.directories| && m.directories[i] == d;
      assert DirPaths(m.directories)[i] == p;
    }
    if f :| f in m.files && f.path == p {
      var i :| 0 <= i < |m.files| && m.files[i] == f;
      assert FilePaths(m.files)[i] == p;
    }
  }

  lemma ResolveRoot(fs: FileSystem, root: Ino)
    ensures Resolve(fs, root, []) == Found(root)
  {
  }

  lemma ChildIsListed(m: Manifest, dir: Path, n: Name)
    ensures n in ChildNames(DirPaths(m.directories), FilePaths(m.files), dir) <==>
              ListedDir(m, dir + [n]) || ListedFile(m, dir + [n])
  {
    hide ListedDir, ListedFile;
    var ds, ps, p := DirPaths(m.directories), FilePaths(m.files), dir + [n];
    assert p != [] && Parent(p) == dir && Last(p) == n;
    AllPathsAre(m, p);
    assert p in AllPaths(m) <==> p in ds || p in ps;
    if n in ChildNames(ds, ps, dir) {
      var q :| (q in ds || q in ps) && q != [] && Parent(q) == dir && Last(q) == n;
      assert q == Parent(q) + [Last(q)];
    }
  }

  lemma AcceptedResolves(h: Digests, fs: FileSystem, root: Ino, m: Manifest, p: Path)
    requires Accepted(h, fs, root, m)
    ensures p == [] ==> IsFolder(fs, Resolve(fs, root, p))
    ensures ListedDir(m, p) ==> IsFolder(fs, Resolve(fs, root, p))
    ensures ListedFile(m, p) ==>
              Resolve(fs, root, p).Found? && Resolve(fs, root, p).ino in fs && fs[Resolve(fs, root, p).ino].Regular?
  {
    hide TreeAgrees, SortBy, Inodes, RecordValid, SafePath, Join, MembersHold, ChildNames, Resolve;
    ResolveRoot(fs, root);
    if d :| d in m.directories && d.path == p {
      var i :| 0 <= i < |m.directories| && m.directories[i] == d;
      assert DirectoryHolds(fs, root, m.directories, i);
    }
    if f :| f in m.files && f.path == p {
      var i :| 0 <= i < |m.files| && m.files[i] == f;
      assert FileHolds(h, fs, root, DirPaths(m.directories), m.files, i);
    }
  }

  lemma AcceptedMembers(h: Digests, fs: FileSystem, root: Ino, m: Manifest, p: Path)
    requires Accepted(h, fs, root, m) && ListedDir(m, p)
    ensures MembersHold(fs, root, DirPaths(m.directories), FilePaths(m.files), p)
    ensures Resolve(fs, root, p).Found? && Resolve(fs, root, p).ino in fs
  {
    hide DirectoryHolds, FileHolds, TreeAgrees, SortBy;
    AllPathsAre(m, p);
    assert p in [[]] + DirPaths(m.directories);
  }

  /** Nothing but listed paths resolves: by induction from the root. */
  lemma {:induction false} ResolvedIsListed(h: Digests, fs: FileSystem, root: Ino, m: Manifest, p: Path)
    requires Accepted(h, fs, root, m) && Resolve(fs, root, p).Found?
    ensures ListedDir(m, p) || ListedFile(m, p)
  {
    hide TreeAgrees, SortBy, Inodes, RecordValid, SafePath, Join, DirectoryHolds, FileHolds, Accepted, ChildNames,
         ListedDir, ListedFile;
    if p != [] {
      var up := Parent(p);
      ResolvedIsListed(h, fs, root, m, up);
      AcceptedResolves(h, fs, root, m, up);
      AcceptedMembers(h, fs, root, m, up);
      ChildIsListed(m, up, Last(p));
      assert p == up + [Last(p)];
    } else {
      AllPathsAre(m, p);
    }
  }

  /** Every listed path has an inode none of the earlier ones has. */
  lemma AcceptedFresh(h: Digests, fs: FileSystem, root: Ino, m: Manifest, a: nat, b: nat)
    requires Accepted(h, fs, root, m) && a < b < |AllPaths(m)|
    ensures Resolve(fs, root, AllPaths(m)[a]) != Resolve(fs, root, AllPaths(m)[b])
    ensures AllPaths(m)[a] != AllPaths(m)[b]
  {
    hide TreeAgrees, SortBy, RecordValid, SafePath, Join, MembersHold, ChildNames, IsDescribed, Resolve;
    var ds, p, q := DirPaths(m.directories), AllPaths(m)[a], AllPaths(m)[b];
    AllPathsAre(m, p);
    AcceptedResolves(h, fs, root, m, p);
    assert p in AllPaths(m);
    if b <= |ds| {
      assert DirectoryHolds(fs, root, m.directories, b - 1);
      assert p in [[]] + DirPaths(m.directories[..b - 1]);
    } else {
      var k := b - 1 - |ds|;
      assert FileHolds(h, fs, root, ds, m.files, k);
      assert p in [[]] + ds + FilePaths(m.files[..k]);
    }
  }

  lemma ListedApart(h: Digests, fs: FileSystem, root: Ino, m: Manifest, p: Path, q: Path)
    requires Accepted(h, fs, root, m) && p != q
    requires (ListedDir(m, p) || ListedFile(m, p)) && (ListedDir(m, q) || ListedFile(m, q))
    ensures Resolve(fs, root, p) != Resolve(fs, root, q)
  {
    hide Accepted, Resolve, ListedDir, ListedFile;
    AllPathsAre(m, p);
    AllPathsAre(m, q);
    var a :| 0 <= a < |AllPaths(m)| && AllPaths(m)[a] == p;
    var b :| 0 <= b < |AllPaths(m)| && AllPaths(m)[b] == q;
    if a < b {
      AcceptedFresh(h, fs, root, m, a, b);
    } else {
      AcceptedFresh(h, fs, root, m, b, a);
    }
  }

  lemma AcceptedGivesExact(h: Digests, fs: FileSystem, root: Ino, m: Manifest)
    requires Accepted(h, fs, root, m)
    ensures ExactSource(h, fs, root, m)
  {
    hide Accepted, Resolve, ListedDir, ListedFile, HeaderValid, TreeAgrees, IsDescribed;
    forall p: Path
      ensures Resolve(fs, root, p).Found? <==> ListedDir(m, p) || ListedFile(m, p)
      ensures ListedDir(m, p) ==> IsFolder(fs, Resolve(fs, root, p))
    {
      AcceptedResolves(h, fs, root, m, p);
      if Resolve(fs, root, p).Found? {
        ResolvedIsListed(h, fs, root, m, p);
      }
    }
    forall p: Path, q: Path | p != q && Resolve(fs, root, p).Found?
      ensures Resolve(fs, root, p) != Resolve(fs, root, q)
    {
      if Resolve(fs, root, q).Found? {
        ListedApart(h, fs, root, m, p, q);
      }
    }
    AcceptedHeader(h, fs, root, m);
    AcceptedFiles(h, fs, root, m);
  }

  lemma AcceptedFiles(h: Digests, fs: FileSystem, root: Ino, m: Manifest)
    requires Accepted(h, fs, root, m)
    ensures TreeAgrees(h, m)
    ensures forall f | f in m.files :: IsDescribed(h, fs, Resolve(fs, root, f.path), f)
  {
    hide TreeAgrees, SortBy, Inodes, RecordValid, SafePath, MembersHold, DirectoryHolds, IsDescribed, Resolve;
    forall f | f in m.files
      ensures IsDescribed(h, fs, Resolve(fs, root, f.path), f)
    {
      var i :| 0 <= i < |m.files| && m.files[i] == f;
      assert FileHolds(h, fs, root, DirPaths(m.directories), m.files, i);
    }
  }

  lemma AcceptedHeader(h: Digests, fs: FileSystem, root: Ino, m: Manifest)
    requires Accepted(h, fs, root, m)
    ensures HeaderValid(m)
  {
    hide TreeAgrees, SortBy, Inodes, RecordValid, SafePath, Join, IsDescribed, Resolve, IsFolder, MembersHold,
         ChildNames;
    forall j | 0 <= j < |m.directories|
      ensures m.directories[j].mode == FOLDER_MODE
      ensures forall i | 0 <= i < j :: m.directories[i].path != m.directories[j].path
    {
      assert DirectoryHolds(fs, root, m.directories, j);
      assert forall i | 0 <= i < j :: DirPaths(m.directories[..j])[i] == m.directories[i].path;
    }
    forall j | 0 <= j < |m.files|
      ensures RecordValid(m.files[j])
      ensures forall i | 0 <= i < j :: m.files[i].path != m.files[j].path
    {
      assert FileHolds(h, fs, root, DirPaths(m.directories), m.files, j);
      assert forall i | 0 <= i < j :: FilePaths(m.files[..j])[i] == m.files[i].path;
    }
  }

  lemma ExactGivesDirectory(h: Digests, fs: FileSystem, root: Ino, m: Manifest, k: nat)
    requires ExactSource(h, fs, root, m) && k < |m.directories|
    ensures DirectoryHolds(fs, root, m.directories, k)
  {
    hide Resolve, IsDescribed, TreeAgrees, SafePath, SortBy, RecordValid;
    var ds, p, earlier := DirPaths(m.directories), m.directories[k].path, DirPaths(m.directories[..k]);
    assert ds[k] == p && earlier == ds[..k];
    ExactDirectorySafe(h, m, k);
    assert m.directories[k] in m.directories && ListedDir(m, p);
    forall q | q in [[]] + earlier
      ensures q != p
    {
      if q in earlier {
        var i :| 0 <= i < k && earlier[i] == q;
        assert m.directories[i].path == q;
      }
    }
  }

  lemma ExactDirectorySafe(h: Digests, m: Manifest, k: nat)
    requires TreeAgrees(h, m) && k < |m.directories|
    requires DirPaths(m.directories) == SortBy(DirPaths(m.directories), DepthKey)
    ensures SafePath(m.directories[k].path) && m.directories[k].path != []
    ensures Parent(m.directories[k].path) == [] || Parent(m.directories[k].path) in DirPaths(m.directories[..k])
  {
    hide TreeOf, DirOrder, HasChild, SafePath, SortBy;
    var ds := DirPaths(m.directories);
    assert ds[k] in ds && DirPaths(m.directories[..k]) == ds[..k];
    SafeIsNonempty(ds[k]);
    if Parent(ds[k]) != [] {
      ParentsComeFirst(ds, k);
    }
  }

  lemma ExactGivesFile(h: Digests, fs: FileSystem, root: Ino, m: Manifest, k: nat)
    requires ExactSource(h, fs, root, m) && k < |m.files|
    ensures FileHolds(h, fs, root, DirPaths(m.directories), m.files, k)
  {
    hide Resolve, TreeAgrees, RecordValid, SortBy, SafePath;
    var ds, f, earlier := DirPaths(m.directories), m.files[k], FilePaths(m.files[..k]);
    assert f in m.files;
    ExactFileSafe(h, m, k);
    forall q | q in [[]] + ds + earlier
      ensures q != f.path
    {
      AllPathsAre(m, q);
      if q in earlier {
        var i :| 0 <= i < k && earlier[i] == q;
        assert m.files[i].path == q;
      } else {
        assert IsFolder(fs, Resolve(fs, root, q));
      }
    }
    assert ListedFile(m, f.path);
  }

  lemma ExactFileSafe(h: Digests, m: Manifest, k: nat)
    requires TreeAgrees(h, m) && k < |m.files|
    ensures SafePath(m.files[k].path)
    ensures Parent(m.files[k].path) == [] || Parent(m.files[k].path) in DirPaths(m.directories)
  {
    hide TreeOf, DirOrder, HasChild, SafePath;
    assert Records(m.files)[k] in Records(m.files);
    SafeIsNonempty(m.files[k].path);
  }

  lemma ExactGivesMembers(h: Digests, fs: FileSystem, root: Ino, m: Manifest, d: Path)
    requires ExactSource(h, fs, root, m) && ListedDir(m, d)
    ensures MembersHold(fs, root, DirPaths(m.directories), FilePaths(m.files), d)
  {
    hide TreeAgrees, SortBy, RecordValid, IsDescribed, HeaderValid;
    var ds, ps := DirPaths(m.directories), FilePaths(m.files);
    var o := fs[Resolve(fs, root, d).ino];
    forall n: Name
      ensures n in o.members.Keys <==> n in ChildNames(ds, ps, d)
    {
      var p := d + [n];
      assert Parent(p) == d && Last(p) == n;
      ChildIsListed(m, d, n);
      assert Resolve(fs, root, p).Found? <==> n in o.members;
    }
  }

  lemma AcceptedIsExact(h: Digests, fs: FileSystem, root: Ino, m: Manifest)
    ensures Accepted(h, fs, root, m) <==> ExactSource(h, fs, root, m)
  {
    if Accepted(h, fs, root, m) {
      AcceptedGivesExact(h, fs, root, m);
    }
    if ExactSource(h, fs, root, m) {
      ExactGivesAccepted(h, fs, root, m);
    }
  }

  lemma ExactGivesAccepted(h: Digests, fs: FileSystem, root: Ino, m: Manifest)
    requires ExactSource(h, fs, root, m)
    ensures Accepted(h, fs, root, m)
  {
    assert ListedDir(m, []);
    forall k | 0 <= k < |m.directories| {
      ExactGivesDirectory(h, fs, root, m, k);
    }
    forall k | 0 <= k < |m.files| {
      ExactGivesFile(h, fs, root, m, k);
    }
    forall d | d in [[]] + DirPaths(m.directories)
      ensures MembersHold(fs, root, DirPaths(m.directories), FilePaths(m.files), d)
    {
      AllPathsAre(m, d);
      ExactGivesMembers(h, fs, root, m, d);
    }
  }

  /** verify: accepts exactly the described source. */
  method Verify(h: Digests, fs: FileSystem, root: Ino, m: Manifest) returns (ok: bool)
    ensures ok <==> ExactSource(h, fs, root, m)
  {
    hide ExactSource, DirectoryHolds, FileHolds, TreeAgrees, Derivable, TreeOf, DirOrder, SortBy;
    AcceptedIsExact(h, fs, root, m);
    if m.rootMode != FOLDER_MODE || |m.directories| > MAX_DIRECTORIES || |m.files| > MAX_FILES {
      return false;
    }
    if root !in fs || !fs[root].Folder? || fs[root].mode != FOLDER_MODE {
      return false;
    }
    var ds := DirPaths(m.directories);
    var fds, seen;
    ok, fds, seen := VerifyDirectories(fs, root, m.directories);
    if !ok {
      return;
    }
    ok := VerifyFiles(h, fs, root, ds, fds, seen, m.files);
    if !ok {
      return;
    }
    if exists d | d in [[]] + ds :: !MembersHold(fs, root, ds, FilePaths(m.files), d) {
      return false;
    }
    var r := DeriveTree(h.sha1, Records(m.files), ds);
    assert TreeAgrees(h, m) <==> r == Derived(m.tree) by {
      TreeAgreement(h, m, r);
    }
    ok := r == Derived(m.tree);
  }

  lemma TreeAgreement(h: Digests, m: Manifest, r: Derivation)
    requires r.Derived? <==> Derivable(Records(m.files), DirPaths(m.directories))
    requires r.Derived? ==> r.tree == TreeOf(h.sha1, Records(m.files), DirOrder(DirPaths(m.directories)), [])
    ensures TreeAgrees(h, m) <==> r == Derived(m.tree)
  {
  }
}
