/** Creation of a Git-less source: directories shallow first, then files, then the manifest;
    whatever it writes is the exact source that verification accepts. */
module SourceCreate {
  import opened Ordering
  import opened GitTree
  import opened TreeIdentity
  import opened SourceVerify
  import TreeOrder

  datatype Creation = Created(fs: FileSystem, m: Manifest) | Refused

  const ROOT: Ino := 0

  /** The proper, nonempty ancestors of one path, longest first. */
  function Ancestors(p: Path): seq<Path> {
    if |p| <= 1 then [] else [Parent(p)] + Ancestors(Parent(p))
  }

  function AllAncestors(ps: seq<Path>): seq<Path> {
    if ps == [] then [] else Ancestors(ps[0]) + AllAncestors(ps[1..])
  }

  /** Every directory strictly above a path, shallow ones first. */
  function DirectoriesAbove(ps: seq<Path>): seq<Path> {
    SortBy(Unique(AllAncestors(ps)), DepthKey)
  }

  function DirectoryNames(rows: seq<FileRecord>): seq<Path> {
    DirectoriesAbove(TreeOrder.Paths(rows))
  }

  function WorkingMode(gitMode: Bytes): nat {
    if gitMode == EXECUTABLE_MODE then EXECUTABLE_FILE else PLAIN_FILE
  }

  lemma AncestorsAreSafe(p: Path)
    requires SafePath(p)
    ensures forall d | d in Ancestors(p) :: SafePath(d)
  {
    if |p| > 1 {
      AncestorsAreSafe(Parent(p));
    }
  }

  lemma AllAncestorsAreSafe(ps: seq<Path>)
    requires forall p | p in ps :: SafePath(p)
    ensures forall d | d in AllAncestors(ps) :: SafePath(d)
  {
    if ps != [] {
      assert ps[0] in ps;
      AncestorsAreSafe(ps[0]);
      assert forall p | p in ps[1..] :: p in ps;
      AllAncestorsAreSafe(ps[1..]);
    }
  }

  /** The ancestors are closed under parents, and they include the parent of every path. */
  lemma AncestorsClosed(p: Path)
    ensures forall d | d in Ancestors(p) :: d != [] && (Parent(d) == [] || Parent(d) in Ancestors(p))
    ensures p != [] ==> Parent(p) == [] || Parent(p) in Ancestors(p)
  {
    if |p| > 1 {
      AncestorsClosed(Parent(p));
    }
  }

  lemma AllAncestorsClosed(ps: seq<Path>)
    ensures forall d | d in AllAncestors(ps) :: d != [] && (Parent(d) == [] || Parent(d) in AllAncestors(ps))
    ensures forall p | p in ps && p != [] :: Parent(p) == [] || Parent(p) in AllAncestors(ps)
  {
    if ps != [] {
      AncestorsClosed(ps[0]);
      AllAncestorsClosed(ps[1..]);
    }
  }

  lemma DirectoriesAboveAre(ps: seq<Path>)
    ensures forall d :: d in DirectoriesAbove(ps) <==> d in AllAncestors(ps)
  {
    hide AllAncestors;
    SameElements(DirectoriesAbove(ps), Unique(AllAncestors(ps)));
  }

  lemma SortedStays<T>(xs: seq<T>, key: T -> seq<int>)
    requires Sorted(xs, key)
    ensures SortBy(xs, key) == xs
  {
    if xs != [] {
      assert Sorted(xs[1..], key);
      SortedStays(xs[1..], key);
    }
  }

  /** The directory list is in manifest order, without duplicates. */
  lemma DirectoriesOrdered(ps: seq<Path>)
    requires forall p | p in ps :: SafePath(p)
    ensures DirectoriesAbove(ps) == SortBy(DirectoriesAbove(ps), DepthKey)
    ensures forall i, j | 0 <= i < j < |DirectoriesAbove(ps)| :: DirectoriesAbove(ps)[i] != DirectoriesAbove(ps)[j]
  {
    var u := Unique(AllAncestors(ps));
    AllAncestorsAreSafe(ps);
    forall i, j | 0 <= i < j < |u|
      ensures DepthKey(u[i]) != DepthKey(u[j])
    {
      if DepthKey(u[i]) == DepthKey(u[j]) {
        assert Join(u[i]) == DepthKey(u[i])[1..] && Join(u[j]) == DepthKey(u[j])[1..];
        JoinIsInjective(u[i], u[j]);
      }
    }
    SortSorts(u, DepthKey);
    SortedStays(SortBy(u, DepthKey), DepthKey);
    DistinctUnderPermutation(u, DirectoriesAbove(ps), DepthKey);
  }

  lemma DirectoryNamesOrdered(rows: seq<FileRecord>)
    requires forall r | r in rows :: SafePath(r.path)
    ensures DirectoryNames(rows) == SortBy(DirectoryNames(rows), DepthKey)
    ensures forall i, j | 0 <= i < j < |DirectoryNames(rows)| :: DirectoryNames(rows)[i] != DirectoryNames(rows)[j]
  {
    var ps := TreeOrder.Paths(rows);
    forall p | p in ps
      ensures SafePath(p)
    {
      var i :| 0 <= i < |ps| && ps[i] == p;
      assert rows[i] in rows;
    }
    DirectoriesOrdered(ps);
  }

  // ----- adding one member to a directory -----

  function WithMember(fs: FileSystem, i: Ino, n: Name, j: Ino, o: Object): FileSystem
    requires i in fs && fs[i].Folder?
  {
    fs[i := fs[i].(members := fs[i].members[n := j])][j := o]
  }

  /** Distinct resolved paths have distinct, existing inodes below next. */
  ghost predicate TreeShaped(fs: FileSystem, next: Ino) {
    && (forall i | i in fs :: i < next)
    && (forall p: Path :: Resolve(fs, ROOT, p).Found? ==> Resolve(fs, ROOT, p).ino in fs)
    && (forall p: Path, q: Path :: p != q && Resolve(fs, ROOT, p).Found? ==>
      Resolve(fs, ROOT, p) != Resolve(fs, ROOT, q))
  }

  predicate Childless(o: Object) {
    o.Folder? ==> o.members == map[]
  }

  lemma {:induction false} ResolveAfterAdd(fs: FileSystem, next: Ino, p: Path, o: Object, q: Path)
    requires TreeShaped(fs, next) && p != [] && Childless(o)
    requires Resolve(fs, ROOT, Parent(p)).Found? && fs[Resolve(fs, ROOT, Parent(p)).ino].Folder?
    requires Last(p) !in fs[Resolve(fs, ROOT, Parent(p)).ino].members
    ensures var i := Resolve(fs, ROOT, Parent(p)).ino;
            Resolve(WithMember(fs, i, Last(p), next, o), ROOT, q) == if q == p then Found(next)
              else Resolve(fs, ROOT, q)
    decreases |q|
  {
    hide Resolve, TreeShaped;
    var up, i := Parent(p), Resolve(fs, ROOT, Parent(p)).ino;
    ShapeGives(fs, next, up, up);
    var t := WithMember(fs, i, Last(p), next, o);
    ResolveRoot(fs, ROOT);
    ResolveRoot(t, ROOT);
    if q != [] {
      var dir := Parent(q);
      ResolveAfterAdd(fs, next, p, o, dir);
      ResolveStep(fs, p);
      ResolveStep(fs, q);
      ResolveStep(t, q);
      assert q == dir + [Last(q)] && p == up + [Last(p)];
      ShapeGives(fs, next, up, dir);
    }
  }

  lemma ResolveStep(fs: FileSystem, q: Path)
    requires q != []
    ensures Resolve(fs, ROOT, q) ==
              if Resolve(fs, ROOT, Parent(q)).Missing? then Missing
                else Member(fs, Resolve(fs, ROOT, Parent(q)).ino, Last(q))
  {
  }

  lemma ShapeGives(fs: FileSystem, next: Ino, p: Path, q: Path)
    requires TreeShaped(fs, next)
    ensures next !in fs
    ensures Resolve(fs, ROOT, q).Found? ==> Resolve(fs, ROOT, q).ino in fs && Resolve(fs, ROOT, q).ino < next
    ensures Resolve(fs, ROOT, p).Found? && Resolve(fs, ROOT, p) == Resolve(fs, ROOT, q) ==> p == q
  {
  }

  /** One mkdir or exclusive file creation keeps the tree shape and adds exactly one path. */
  lemma AddKeepsShape(fs: FileSystem, next: Ino, p: Path, o: Object)
    requires TreeShaped(fs, next) && p != [] && Childless(o)
    requires Resolve(fs, ROOT, Parent(p)).Found? && fs[Resolve(fs, ROOT, Parent(p)).ino].Folder?
    requires Last(p) !in fs[Resolve(fs, ROOT, Parent(p)).ino].members
    ensures var t := WithMember(fs, Resolve(fs, ROOT, Parent(p)).ino, Last(p), next, o);
            && TreeShaped(t, next + 1)
            && (forall q: Path :: Resolve(t, ROOT, q) == if q == p then Found(next) else Resolve(fs, ROOT, q))
            && t[next] == o
            && Resolve(fs, ROOT, p) == Missing
  {
    var t := WithMember(fs, Resolve(fs, ROOT, Parent(p)).ino, Last(p), next, o);
    forall q: Path
      ensures Resolve(t, ROOT, q) == if q == p then Found(next) else Resolve(fs, ROOT, q)
    {
      ResolveAfterAdd(fs, next, p, o, q);
    }
  }

  /** What has been written so far: the listed directories and files, and nothing else. */
  ghost predicate IsWritten(h: Digests, fs: FileSystem, next: Ino, ds: seq<Path>, files: seq<Authority>) {
    && TreeShaped(fs, next)
    && (forall p: Path :: Resolve(fs, ROOT, p).Found? <==> p == [] || p in ds || p in FilePaths(files))
    && (forall p | p in [[]] + ds :: IsFolder(fs, Resolve(fs, ROOT, p)))
    && (forall f | f in files :: IsDescribed(h, fs, Resolve(fs, ROOT, f.path), f))
    && (forall i, j | 0 <= i < j < |files| :: files[i].path != files[j].path)
  }

  /** Adding a childless object keeps every other object, up to the members of its parent. */
  lemma AddKeepsOthers(fs: FileSystem, next: Ino, p: Path, o: Object, q: Path)
    requires TreeShaped(fs, next) && p != [] && Childless(o) && q != p && Resolve(fs, ROOT, q).Found?
    requires Resolve(fs, ROOT, Parent(p)).Found? && fs[Resolve(fs, ROOT, Parent(p)).ino].Folder?
    requires Last(p) !in fs[Resolve(fs, ROOT, Parent(p)).ino].members
    ensures var t := WithMember(fs, Resolve(fs, ROOT, Parent(p)).ino, Last(p), next, o);
            var r := Resolve(fs, ROOT, q);
            && Resolve(t, ROOT, q) == r && r.ino in t
            && if t[r.ino].Folder? then fs[r.ino].Folder? && t[r.ino].mode == fs[r.ino].mode else t[r.ino] == fs[r.ino]
  {
    AddKeepsShape(fs, next, p, o);
  }

  lemma WriteDirectory(h: Digests, fs: FileSystem, next: Ino, ds: seq<Path>, d: Path)
    requires IsWritten(h, fs, next, ds, []) && d != []
    requires Resolve(fs, ROOT, Parent(d)).Found? && fs[Resolve(fs, ROOT, Parent(d)).ino].Folder?
    requires Last(d) !in fs[Resolve(fs, ROOT, Parent(d)).ino].members
    ensures var up := Resolve(fs, ROOT, Parent(d)).ino;
            IsWritten(h, WithMember(fs, up, Last(d), next, Folder(FOLDER_MODE, map[])), next + 1, ds + [d], [])
  {
    var o := Folder(FOLDER_MODE, map[]);
    AddKeepsShape(fs, next, d, o);
    forall p | p in [[]] + ds
      ensures p != d
    {
      assert IsFolder(fs, Resolve(fs, ROOT, p));
    }
    forall p | p in [[]] + ds {
      AddKeepsOthers(fs, next, d, o, p);
    }
  }

  lemma WriteFile(h: Digests, fs: FileSystem, next: Ino, ds: seq<Path>, files: seq<Authority>, f: Authority,
                  bytes: Bytes)
    requires IsWritten(h, fs, next, ds, files) && f.path != []
    requires Resolve(fs, ROOT, Parent(f.path)).Found? && fs[Resolve(fs, ROOT, Parent(f.path)).ino].Folder?
    requires Last(f.path) !in fs[Resolve(fs, ROOT, Parent(f.path)).ino].members
    requires h.sha256(bytes) == f.sha256 && |bytes| == f.size && BlobOid(h, bytes) == f.oid
    ensures var up := Resolve(fs, ROOT, Parent(f.path)).ino;
            IsWritten(h, WithMember(fs, up, Last(f.path), next, Regular(f.mode, 1, bytes)), next + 1, ds, files + [f])
  {
    hide BlobOid;
    var o := Regular(f.mode, 1, bytes);
    AddKeepsShape(fs, next, f.path, o);
    FilePathsAre(files, f);
    forall p | p in [[]] + ds {
      AddKeepsOthers(fs, next, f.path, o, p);
    }
    forall g | g in files
      ensures IsDescribed(h, WithMember(fs, Resolve(fs, ROOT, Parent(f.path)).ino, Last(f.path), next, o),
                          Resolve(fs, ROOT, g.path), g)
    {
      FilePathsHas(files, g);
      AddKeepsOthers(fs, next, f.path, o, g.path);
    }
  }

  lemma FilePathsHas(files: seq<Authority>, g: Authority)
    requires g in files
    ensures g.path in FilePaths(files)
  {
    var i :| 0 <= i < |files| && files[i] == g;
    assert FilePaths(files)[i] == g.path;
  }

  lemma FilePathsAre(files: seq<Authority>, f: Authority)
    ensures FilePaths(files + [f]) == FilePaths(files) + [f.path]
  {
  }

  datatype Progress = Written(fs: FileSystem, next: Ino, files: seq<Authority>) | Stopped

  /** When one more name can be created below what is written: its parent is a directory and
      nothing has the name yet. */
  lemma RoomFor(h: Digests, fs: FileSystem, next: Ino, ds: seq<Path>, files: seq<Authority>, p: Path)
    requires IsWritten(h, fs, next, ds, files) && p != []
    ensures var up := Resolve(fs, ROOT, Parent(p));
            && (up.Found? ==> up.ino in fs)
            && ((up.Found? && fs[up.ino].Folder?) <==> (Parent(p) == [] || Parent(p) in ds))
            && (up.Found? && fs[up.ino].Folder? ==>
                  (Last(p) in fs[up.ino].members <==> p in ds || p in FilePaths(files)))
  {
    hide BlobOid;
    ResolveStep(fs, p);
    var q := Parent(p);
    if q == [] || q in ds {
      assert q in [[]] + ds;
    } else if q in FilePaths(files) {
      var i :| 0 <= i < |files| && FilePaths(files)[i] == q;
      assert files[i] in files;
    }
  }

  /** Directories that mkdir accepts one after the other. */
  predicate Makeable(names: seq<Path>) {
    forall k | 0 <= k < |names| ::
      names[k] != [] && (Parent(names[k]) == [] || Parent(names[k]) in names[..k]) && names[k] !in names[..k]
  }

  /** mkdir every directory, in order. */
  method MakeDirectories(h: Digests, names: seq<Path>) returns (r: Progress)
    ensures r.Written? <==> Makeable(names)
    ensures r.Written? ==> r.files == [] && IsWritten(h, r.fs, r.next, names, [])
  {
    hide IsWritten, Resolve;
    var fs: FileSystem, next := map[ROOT := Folder(FOLDER_MODE, map[])], 1;
    EmptyRoot(h);
    for k := 0 to |names|
      invariant IsWritten(h, fs, next, names[..k], [])
      invariant Makeable(names[..k])
    {
      var d := names[k];
      assert names[..k + 1] == names[..k] + [d];
      MakeableStep(names, k);
      if d == [] {
        return Stopped;
      }
      RoomFor(h, fs, next, names[..k], [], d);
      var up := Resolve(fs, ROOT, Parent(d));
      if up.Missing? || !fs[up.ino].Folder? || Last(d) in fs[up.ino].members {
        return Stopped;
      }
      WriteDirectory(h, fs, next, names[..k], d);
      fs, next := WithMember(fs, up.ino, Last(d), next, Folder(FOLDER_MODE, map[])), next + 1;
    }
    assert names[..|names|] == names;
    r := Written(fs, next, []);
  }

  lemma MakeableStep(names: seq<Path>, k: nat)
    requires k < |names|
    ensures Makeable(names) ==> Makeable(names[..k + 1])
    ensures Makeable(names[..k + 1]) <==>
              && Makeable(names[..k]) && names[k] != []
              && (Parent(names[k]) == [] || Parent(names[k]) in names[..k]) && names[k] !in names[..k]
  {
    var more := names[..k + 1];
    assert forall j | 0 <= j < k + 1 :: more[..j] == names[..j];
    assert forall j | 0 <= j < k :: names[..k][..j] == names[..j];
  }

  /** A record that can be written after the first k: room for its name, and the right blob. */
  predicate WritableAt(h: Digests, names: seq<Path>, rows: seq<FileRecord>, contents: Oid -> Bytes, k: nat)
    requires k < |rows| && rows[k].path != []
  {
    var p := rows[k].path;
    && BlobOid(h, contents(rows[k].oid)) == rows[k].oid
    && (Parent(p) == [] || Parent(p) in names)
    && p !in names && forall j | 0 <= j < k :: rows[j].path != p
  }

  /** Write every file exclusively, from its authenticated blob. */
  method WriteFiles(h: Digests, names: seq<Path>, rows: seq<FileRecord>, contents: Oid -> Bytes, start: Progress)
    returns (r: Progress)
    requires start.Written? && start.files == [] && IsWritten(h, start.fs, start.next, names, [])
    requires forall f | f in rows :: f.path != [] && (f.mode == PLAIN_MODE || f.mode == EXECUTABLE_MODE)
    ensures r.Written? <==> forall k | 0 <= k < |rows| :: rows[k].path != [] && WritableAt(h, names, rows, contents, k)
    ensures r.Written? ==> IsWritten(h, r.fs, r.next, names, r.files) && Records(r.files) == rows
    ensures r.Written? ==> forall f | f in r.files :: RecordValid(f)
  {
    hide IsWritten, BlobOid, Resolve;
    var fs: FileSystem, next: Ino, files: seq<Authority> := start.fs, start.next, start.files;
    for k := 0 to |rows|
      invariant |files| == k && IsWritten(h, fs, next, names, files)
      invariant forall j | 0 <= j < k ::
                  RecordValid(files[j]) && FileRecord(files[j].path, files[j].gitMode, files[j].oid) == rows[j]
      invariant forall j | 0 <= j < k :: rows[j].path != [] && WritableAt(h, names, rows, contents, j)
    {
      var row := rows[k];
      assert row in rows;
      PathsWritten(rows, files, k);
      var bytes := contents(row.oid);
      if BlobOid(h, bytes) != row.oid {
        return Stopped;
      }
      RoomFor(h, fs, next, names, files, row.path);
      var up := Resolve(fs, ROOT, Parent(row.path));
      if up.Missing? || !fs[up.ino].Folder? || Last(row.path) in fs[up.ino].members {
        return Stopped;
      }
      var f := Authority(row.path, row.mode, row.oid, WorkingMode(row.mode), h.sha256(bytes), |bytes|);
      WriteFile(h, fs, next, names, files, f, bytes);
      fs := WithMember(fs, up.ino, Last(row.path), next, Regular(f.mode, 1, bytes));
      next, files := next + 1, files + [f];
    }
    r := Written(fs, next, files);
  }

  lemma PathsWritten(rows: seq<FileRecord>, files: seq<Authority>, k: nat)
    requires |files| == k < |rows| && forall j | 0 <= j < k :: files[j].path == rows[j].path
    ensures forall p :: p in FilePaths(files) <==> exists j | 0 <= j < k :: rows[j].path == p
  {
    forall p
      ensures p in FilePaths(files) <==> exists j | 0 <= j < k :: rows[j].path == p
    {
      if j :| 0 <= j < k && rows[j].path == p {
        assert FilePaths(files)[j] == p;
      }
    }
  }

  // ----- the directories a record list needs -----

  predicate IsChild(c: Path, d: Path) {
    c != [] && Parent(c) == d
  }

  /** Every ancestor has a child among the ancestors and the path itself, up to the root. */
  lemma ChildTowards(p: Path, d: Path) returns (c: Path)
    requires p != [] && (d == [] || d in Ancestors(p))
    ensures (c == p || c in Ancestors(p)) && IsChild(c, d)
  {
    c := p;
    if Parent(p) != d {
      c := ChildTowards(Parent(p), d);
    }
  }

  lemma ChildListed(ps: seq<Path>, d: Path) returns (c: Path)
    requires forall p | p in ps :: p != []
    requires d in AllAncestors(ps) || (d == [] && ps != [])
    ensures (c in ps || c in AllAncestors(ps)) && IsChild(c, d)
  {
    assert ps[0] in ps && forall p | p in ps[1..] :: p in ps;
    if d == [] || d in Ancestors(ps[0]) {
      c := ChildTowards(ps[0], d);
    } else {
      c := ChildListed(ps[1..], d);
    }
  }

  lemma RowPath(rows: seq<FileRecord>, p: Path)
    ensures p in TreeOrder.Paths(rows) <==> exists f | f in rows :: f.path == p
  {
    var ps := TreeOrder.Paths(rows);
    if p in ps {
      var i :| 0 <= i < |ps| && ps[i] == p;
      assert rows[i] in rows;
    }
    if f :| f in rows && f.path == p {
      var i :| 0 <= i < |rows| && rows[i] == f;
      assert ps[i] == p;
    }
  }

  /** The directory names of any safe record list form a list that a Git tree can carry. */
  lemma NamesAreDerivable(rows: seq<FileRecord>)
    requires rows != [] && forall f | f in rows :: SafePath(f.path)
    ensures Derivable(rows, DirectoryNames(rows)) && Makeable(DirectoryNames(rows))
  {
    hide SafePath, AllAncestors, DirectoriesAbove, SortBy;
    var ps, ds := TreeOrder.Paths(rows), DirectoryNames(rows);
    forall p
      ensures p in ps <==> exists f | f in rows :: f.path == p
    {
      RowPath(rows, p);
    }
    forall p | p in ps {
      SafeIsNonempty(p);
    }
    assert rows[0] in rows;
    AllAncestorsAreSafe(ps);
    AllAncestorsClosed(ps);
    DirectoriesAboveAre(ps);
    forall d | d in ds || d == []
      ensures HasChild(rows, ds, d)
    {
      var c := ChildListed(ps, d);
      if c in ps {
        var f :| f in rows && f.path == c;
      }
    }
    NamesAreMakeable(rows);
  }

  lemma NamesAreMakeable(rows: seq<FileRecord>)
    requires forall f | f in rows :: SafePath(f.path)
    ensures Makeable(DirectoryNames(rows))
  {
    hide SafePath, AllAncestors, DirectoriesAbove, SortBy;
    var ps, ds := TreeOrder.Paths(rows), DirectoryNames(rows);
    AllAncestorsClosed(ps);
    DirectoriesAboveAre(ps);
    DirectoryNamesOrdered(rows);
    forall k | 0 <= k < |ds|
      ensures ds[k] != [] && (Parent(ds[k]) == [] || Parent(ds[k]) in ds[..k]) && ds[k] !in ds[..k]
    {
      assert ds[k] in ds;
      if Parent(ds[k]) != [] {
        ParentsComeFirst(ds, k);
      }
    }
  }

  /** What creation asks of the frozen records: bounds, safe and distinct paths none of which
      is also a directory, regular modes, blobs with their ids, and the tree they must derive. */
  predicate Creatable(h: Digests, tree: Oid, rows: seq<FileRecord>, contents: Oid -> Bytes) {
    && rows != [] && |rows| <= MAX_FILES && |DirectoryNames(rows)| <= MAX_DIRECTORIES
    && (forall f | f in rows :: SafePath(f.path) && (f.mode == PLAIN_MODE || f.mode == EXECUTABLE_MODE))
    && (forall i, j | 0 <= i < j < |rows| :: rows[i].path != rows[j].path)
    && (forall f | f in rows :: f.path !in DirectoryNames(rows))
    && (forall f | f in rows :: BlobOid(h, contents(f.oid)) == f.oid)
    && TreeOf(h.sha1, rows, DirOrder(DirectoryNames(rows)), []) == tree
  }

  /** A single file at the root can always be created: the conditions exclude no content. */
  lemma SingleFileIsCreatable(h: Digests, name: Name, bytes: Bytes)
    requires SafeName(name)
    ensures var rows := [FileRecord([name], PLAIN_MODE, BlobOid(h, bytes))];
            Creatable(h, TreeOf(h.sha1, rows, DirOrder([]), []), rows, o => bytes)
  {
    hide BlobOid, TreeOf, DirOrder, SafeName;
    var path: Path := [name];
    var rows := [FileRecord(path, PLAIN_MODE, BlobOid(h, bytes))];
    assert TreeOrder.Paths(rows) == [path];
    assert AllAncestors([path]) == Ancestors(path) + AllAncestors([path][1..]);
    assert DirectoryNames(rows) == [];
  }

  lemma WritableMeans(h: Digests, rows: seq<FileRecord>, contents: Oid -> Bytes)
    requires rows != [] && forall f | f in rows :: SafePath(f.path)
    ensures (forall k | 0 <= k < |rows| ::
              rows[k].path != [] && WritableAt(h, DirectoryNames(rows), rows, contents, k)) <==>
              && (forall i, j | 0 <= i < j < |rows| :: rows[i].path != rows[j].path)
              && (forall f | f in rows :: f.path !in DirectoryNames(rows))
              && (forall f | f in rows :: BlobOid(h, contents(f.oid)) == f.oid)
  {
    hide SafePath, DirectoryNames, BlobOid, HasChild;
    NamesAreDerivable(rows);
    var names := DirectoryNames(rows);
    forall k | 0 <= k < |rows|
      ensures rows[k].path != [] && (Parent(rows[k].path) == [] || Parent(rows[k].path) in names)
    {
      assert rows[k] in rows;
      SafeIsNonempty(rows[k].path);
    }
    if forall k | 0 <= k < |rows| :: rows[k].path != [] && WritableAt(h, names, rows, contents, k) {
      forall i, j | 0 <= i < j < |rows|
        ensures rows[i].path != rows[j].path
      {
        assert WritableAt(h, names, rows, contents, j);
      }
      forall f | f in rows
        ensures f.path !in names && BlobOid(h, contents(f.oid)) == f.oid
      {
        var k :| 0 <= k < |rows| && rows[k] == f;
        assert WritableAt(h, names, rows, contents, k);
      }
    }
  }

  /** create succeeds exactly on creatable records, and what it returns is the exact source of
      its own manifest, with the frozen path, mode and blob id of every record. */
  method Create(h: Digests, tree: Oid, rows: seq<FileRecord>, contents: Oid -> Bytes) returns (r: Creation)
    ensures r.Created? <==> Creatable(h, tree, rows, contents)
    ensures r.Created? ==> ExactSource(h, r.fs, ROOT, r.m) && r.m.tree == tree
    ensures r.Created? ==> Records(r.m.files) == rows
  {
    hide IsWritten, ExactSource, TreeOf, DirOrder, Derivable, DirectoryNames, Makeable, WritableAt, SafePath, BlobOid;
    if rows == [] || |rows| > MAX_FILES
       || exists f | f in rows :: !SafePath(f.path) || (f.mode != PLAIN_MODE && f.mode != EXECUTABLE_MODE) {
      return Refused;
    }
    NamesAreDerivable(rows);
    WritableMeans(h, rows, contents);
    forall f | f in rows {
      SafeIsNonempty(f.path);
    }
    var names := DirectoryNames(rows);
    if |names| > MAX_DIRECTORIES {
      return Refused;
    }
    var made := MakeDirectories(h, names);
    if made.Stopped? {
      return Refused;
    }
    var w := WriteFiles(h, names, rows, contents, made);
    if w.Stopped? {
      return Refused;
    }
    var folders := seq(|names|, i requires 0 <= i < |names| => DirectoryRecord(names[i], FOLDER_MODE));
    var m := Manifest(tree, FOLDER_MODE, folders, w.files);
    assert DirPaths(m.directories) == names;
    var derived := DeriveTree(h.sha1, Records(w.files), names);
    if derived != Derived(tree) {
      return Refused;
    }
    WrittenDistinct(h, w.fs, w.next, names, w.files);
    RowsGiveHeader(rows, m);
    WrittenIsExact(h, w.fs, w.next, m);
    var accepted := Verify(h, w.fs, ROOT, m);
    assert accepted;
    r := Created(w.fs, m);
  }

  lemma WrittenDistinct(h: Digests, fs: FileSystem, next: Ino, ds: seq<Path>, files: seq<Authority>)
    requires IsWritten(h, fs, next, ds, files)
    ensures forall i, j | 0 <= i < j < |files| :: files[i].path != files[j].path
  {
  }

  lemma RowsGiveHeader(rows: seq<FileRecord>, m: Manifest)
    requires forall r | r in rows :: SafePath(r.path)
    requires m.rootMode == FOLDER_MODE && DirPaths(m.directories) == DirectoryNames(rows) && Records(m.files) == rows
    requires |m.directories| <= MAX_DIRECTORIES && |rows| <= MAX_FILES
    requires (forall d | d in m.directories :: d.mode == FOLDER_MODE) && (forall f | f in m.files :: RecordValid(f))
    requires forall i, j | 0 <= i < j < |m.files| :: m.files[i].path != m.files[j].path
    ensures HeaderValid(m)
  {
    hide SortBy, DirectoryNames, SafePath, RecordValid;
    DirectoryNamesOrdered(rows);
    assert forall i | 0 <= i < |m.directories| :: m.directories[i].path == DirectoryNames(rows)[i];
  }

  lemma EmptyRoot(h: Digests)
    ensures IsWritten(h, map[ROOT := Folder(FOLDER_MODE, map[])], 1, [], [])
  {
    var fs: FileSystem := map[ROOT := Folder(FOLDER_MODE, map[])];
    forall p: Path
      ensures Resolve(fs, ROOT, p) == if p == [] then Found(ROOT) else Missing
    {
      OnlyRoot(p);
    }
  }

  lemma {:induction false} OnlyRoot(p: Path)
    ensures Resolve(map[ROOT := Folder(FOLDER_MODE, map[])], ROOT, p) == if p == [] then Found(ROOT) else Missing
  {
    if p != [] {
      OnlyRoot(Parent(p));
    }
  }

  lemma WrittenIsExact(h: Digests, fs: FileSystem, next: Ino, m: Manifest)
    requires IsWritten(h, fs, next, DirPaths(m.directories), m.files)
    requires HeaderValid(m) && TreeAgrees(h, m)
    ensures ExactSource(h, fs, ROOT, m)
  {
    forall p: Path
      ensures (p == [] || p in DirPaths(m.directories) || p in FilePaths(m.files)) <==>
                ListedDir(m, p) || ListedFile(m, p)
      ensures ListedDir(m, p) ==> p in [[]] + DirPaths(m.directories)
    {
      AllPathsAre(m, p);
    }
  }
}
