/** The tree id of a file list: the loop that hashes directories deepest first, and the
    structural recursion over the directory tree it computes. */
module GitTree {
  import opened Ordering

  type Name = Bytes
  type Path = seq<Name>
  type Oid = o: Bytes | |o| == 20 witness [0, 0, 0, 0, 0, 0, 0, 0, 0, 0, 0, 0, 0, 0, 0, 0, 0, 0, 0, 0]

  datatype FileRecord = FileRecord(path: Path, mode: Bytes, oid: Oid)

  datatype Entry = Entry(name: Name, isDir: bool, mode: Bytes, oid: Oid)

  datatype Failure = UnsafePath | DirectoryParentMissing | FileParentMissing | EmptyDirectory | EmptyRoot

  datatype Derivation = Derived(tree: Oid) | Rejected(why: Failure)

  const SLASH: Byte := 47
  const BACKSLASH: Byte := 92
  const DOT: Byte := 46
  const SPACE: Byte := 32
  const NUL: Byte := 0
  const DIRECTORY_MODE: Bytes := [52, 48, 48, 48, 48]  // 40000

  predicate SafeName(n: Name) {
    n != [] && n != [DOT] && n != [DOT, DOT] && SLASH !in n && BACKSLASH !in n
  }

  predicate SafePath(p: Path) {
    p != [] && forall i | 0 <= i < |p| :: SafeName(p[i])
  }

  function Parent(p: Path): Path
    requires p != []
  {
    p[..|p| - 1]
  }

  function Last(p: Path): Name
    requires p != []
  {
    p[|p| - 1]
  }

  function Join(p: Path): Bytes {
    if |p| == 0 then [] else if |p| == 1 then p[0] else p[0] + [SLASH] + Join(p[1..])
  }

  // ----- the encoding of one tree object -----

  function Digits(n: nat): Bytes {
    if n < 10 then [48 + n] else Digits(n / 10) + [48 + n % 10]
  }

  /** The object frame: kind, space, decimal length, NUL and payload. */
  function Frame(kind: Bytes, payload: Bytes): Bytes {
    kind + [SPACE] + Digits(|payload|) + [NUL] + payload
  }

  const TREE_KIND: Bytes := [116, 114, 101, 101]

  function EntryKey(e: Entry): seq<int> {
    if e.isDir then e.name + [SLASH] else e.name
  }

  function Row(e: Entry): Bytes {
    e.mode + [SPACE] + e.name + [NUL] + e.oid
  }

  function Rows(es: seq<Entry>): Bytes {
    if es == [] then [] else Row(es[0]) + Rows(es[1..])
  }

  function TreePayload(es: seq<Entry>): Bytes {
    Rows(SortBy(es, EntryKey))
  }

  function TreeObject(hash: Bytes -> Oid, es: seq<Entry>): Oid {
    hash(Frame(TREE_KIND, TreePayload(es)))
  }

  // ----- structural recursion over the directories -----

  function Depth(order: seq<Path>): nat {
    if order == [] then 0 else if |order[0]| > Depth(order[1..]) then |order[0]| else Depth(order[1..])
  }

  lemma DepthBounds(order: seq<Path>, d: Path)
    requires d in order
    ensures |d| <= Depth(order)
  {
    if d != order[0] {
      DepthBounds(order[1..], d);
    }
  }

  function Height(order: seq<Path>, dir: Path): nat {
    if |dir| <= Depth(order) then Depth(order) + 1 - |dir| else 0
  }

  function FileEntries(files: seq<FileRecord>, dir: Path): seq<Entry> {
    if files == [] then
      []
    else
      (if files[0].path != [] && Parent(files[0].path) == dir
       then [Entry(Last(files[0].path), false, files[0].mode, files[0].oid)]
       else [])
      + FileEntries(files[1..], dir)
  }

  /** One directory entry for every member of part whose parent is dir. */
  function DirEntries(hash: Bytes -> Oid, files: seq<FileRecord>, order: seq<Path>, dir: Path,
                      part: seq<Path>): seq<Entry>
    requires forall d | d in part :: d in order
    decreases Height(order, dir), 0, |part|
  {
    if part == [] then
      []
    else
      (if part[0] != [] && Parent(part[0]) == dir
       then
         DepthBounds(order, part[0]);
         [Entry(Last(part[0]), true, DIRECTORY_MODE, TreeOf(hash, files, order, part[0]))]
       else [])
      + DirEntries(hash, files, order, dir, part[1..])
  }

  function Entries(hash: Bytes -> Oid, files: seq<FileRecord>, order: seq<Path>, dir: Path): seq<Entry>
    decreases Height(order, dir), 1
  {
    FileEntries(files, dir) + DirEntries(hash, files, order, dir, order)
  }

  /** The id of the directory dir: its files and the ids of its subdirectories. */
  function TreeOf(hash: Bytes -> Oid, files: seq<FileRecord>, order: seq<Path>, dir: Path): Oid
    decreases Height(order, dir), 2
  {
    TreeObject(hash, Entries(hash, files, order, dir))
  }

  // ----- the loop -----

  function Unique(ds: seq<Path>): (r: seq<Path>)
    ensures forall d :: d in r <==> d in ds
    ensures forall i, j | 0 <= i < j < |r| :: r[i] != r[j]
  {
    if ds == [] then [] else if ds[0] in ds[1..] then Unique(ds[1..]) else [ds[0]] + Unique(ds[1..])
  }

  /** Deepest directories first, then by bytes. */
  function DirKey(d: Path): seq<int> {
    [-(|d| as int)] + Join(d)
  }

  function DirOrder(directories: seq<Path>): (order: seq<Path>)
    ensures forall d :: d in order <==> d in directories
  {
    var u := Unique(directories);
    var order := SortBy(u, DirKey);
    assert forall d :: d in order <==> d in multiset(order);
    assert forall d :: d in u <==> d in multiset(u);
    order
  }

  predicate HasChild(files: seq<FileRecord>, directories: seq<Path>, dir: Path) {
    || (exists f | f in files :: f.path != [] && Parent(f.path) == dir)
    || (exists d | d in directories :: d != [] && Parent(d) == dir)
  }

  /** The file lists a Git tree can carry. */
  predicate Derivable(files: seq<FileRecord>, directories: seq<Path>) {
    && (forall d | d in directories :: SafePath(d) && (Parent(d) == [] || Parent(d) in directories))
    && (forall f | f in files :: SafePath(f.path) && (Parent(f.path) == [] || Parent(f.path) in directories))
    && (forall d | d in directories :: HasChild(files, directories, d))
    && HasChild(files, directories, [])
  }

  lemma FileEntriesSnoc(files: seq<FileRecord>, f: FileRecord, dir: Path)
    ensures FileEntries(files + [f], dir) == FileEntries(files, dir) +
              (if f.path != [] && Parent(f.path) == dir then [Entry(Last(f.path), false, f.mode, f.oid)] else [])
  {
    if files != [] {
      assert (files + [f])[1..] == files[1..] + [f];
      FileEntriesSnoc(files[1..], f, dir);
    }
  }

  lemma DirEntriesSnoc(hash: Bytes -> Oid, files: seq<FileRecord>, order: seq<Path>, dir: Path, part: seq<Path>,
                       d: Path)
    requires (forall x | x in part :: x in order) && d in order
    ensures forall x | x in part + [d] :: x in order
    ensures DirEntries(hash, files, order, dir, part + [d]) == DirEntries(hash, files, order, dir, part) +
              (if d != [] && Parent(d) == dir
               then [Entry(Last(d), true, DIRECTORY_MODE, TreeOf(hash, files, order, d))] else [])
  {
    if part != [] {
      assert (part + [d])[1..] == part[1..] + [d];
      DirEntriesSnoc(hash, files, order, dir, part[1..], d);
    }
  }

  /** Members that are no child of dir add nothing. */
  lemma NoChildren(hash: Bytes -> Oid, files: seq<FileRecord>, order: seq<Path>, dir: Path, part: seq<Path>,
                   rest: seq<Path>)
    requires forall d | d in part + rest :: d in order
    requires forall d | d in rest :: d == [] || Parent(d) != dir
    ensures forall d | d in part :: d in order
    ensures DirEntries(hash, files, order, dir, part + rest) == DirEntries(hash, files, order, dir, part)
  {
    assert forall d | d in part :: d in part + rest;
    if part == [] {
      assert part + rest == rest;
      if rest != [] {
        assert [] + rest[1..] == rest[1..];
        NoChildren(hash, files, order, dir, [], rest[1..]);
      }
    } else {
      assert (part + rest)[1..] == part[1..] + rest;
      NoChildren(hash, files, order, dir, part[1..], rest);
    }
  }

  /** In the deepest-first order every child of a directory comes before the directory. */
  lemma ChildrenComeFirst(directories: seq<Path>, k: nat, x: Path)
    requires k < |DirOrder(directories)| && x in DirOrder(directories)[k..] && x != []
    ensures Parent(x) != DirOrder(directories)[k]
  {
    var order := DirOrder(directories);
    SortSorts(Unique(directories), DirKey);
    var j :| k <= j < |order| && order[j] == x;
    if j > k {
      assert !Less(DirKey(order[j]), DirKey(order[k]));
      assert DirKey(order[j])[0] == -(|order[j]| as int) && DirKey(order[k])[0] == -(|order[k]| as int);
    }
  }

  lemma EntriesEmpty(hash: Bytes -> Oid, files: seq<FileRecord>, directories: seq<Path>, dir: Path)
    ensures Entries(hash, files, DirOrder(directories), dir) == [] <==> !HasChild(files, directories, dir)
  {
    FileEntriesEmpty(files, dir);
    DirEntriesEmpty(hash, files, DirOrder(directories), dir, DirOrder(directories));
  }

  lemma FileEntriesEmpty(files: seq<FileRecord>, dir: Path)
    ensures FileEntries(files, dir) == [] <==> forall f | f in files :: f.path == [] || Parent(f.path) != dir
  {
    if files != [] {
      FileEntriesEmpty(files[1..], dir);
      assert forall f :: f in files <==> f == files[0] || f in files[1..];
    }
  }

  lemma DirEntriesEmpty(hash: Bytes -> Oid, files: seq<FileRecord>, order: seq<Path>, dir: Path, part: seq<Path>)
    requires forall d | d in part :: d in order
    ensures DirEntries(hash, files, order, dir, part) == [] <==> forall d | d in part :: d == [] || Parent(d) != dir
  {
    if part != [] {
      DirEntriesEmpty(hash, files, order, dir, part[1..]);
      assert forall d :: d in part <==> d == part[0] || d in part[1..];
    }
  }

  datatype Placement = Placed(children: map<Path, seq<Entry>>) | Misplaced(why: Failure)

  /** First loop: every file goes into the child list of its parent. */
  method PlaceFiles(files: seq<FileRecord>, all: set<Path>) returns (r: Placement)
    ensures r.Placed? <==> forall f | f in files :: SafePath(f.path) && Parent(f.path) in all
    ensures r.Placed? ==> r.children.Keys == all && forall d | d in all :: r.children[d] == FileEntries(files, d)
  {
    var children: map<Path, seq<Entry>> := map d | d in all :: [];
    for k := 0 to |files|
      invariant children.Keys == all
      invariant forall d | d in all :: children[d] == FileEntries(files[..k], d)
      invariant forall f | f in files[..k] :: SafePath(f.path) && Parent(f.path) in all
    {
      var f := files[k];
      assert files[..k + 1] == files[..k] + [f];
      assert f in files;
      if !SafePath(f.path) {
        return Misplaced(UnsafePath);
      }
      if Parent(f.path) !in all {
        return Misplaced(FileParentMissing);
      }
      forall d | d in all {
        FileEntriesSnoc(files[..k], f, d);
      }
      children := children[Parent(f.path) := children[Parent(f.path)] + [Entry(Last(f.path), false, f.mode, f.oid)]];
    }
    assert files[..|files|] == files;
    r := Placed(children);
  }

  /** One directory of the second loop: its child list is complete when it is hashed. */
  lemma FoldStep(hash: Bytes -> Oid, files: seq<FileRecord>, directories: seq<Path>, k: nat)
    requires k < |DirOrder(directories)|
    ensures var order := DirOrder(directories);
            && (forall x | x in order[..k] || x in order[..k + 1] :: x in order)
            && FileEntries(files, order[k]) + DirEntries(hash, files, order, order[k], order[..k])
               == Entries(hash, files, order, order[k])
            && (forall x: Path {:trigger DirEntries(hash, files, order, x, order[..k + 1])} ::
                  DirEntries(hash, files, order, x, order[..k + 1]) == DirEntries(hash, files, order, x, order[..k]) +
                    (if order[k] != [] && Parent(order[k]) == x
                     then [Entry(Last(order[k]), true, DIRECTORY_MODE, TreeOf(hash, files, order, order[k]))] else []))
  {
    var order := DirOrder(directories);
    assert order[..k + 1] == order[..k] + [order[k]];
    assert order == order[..k] + order[k..];
    forall x | x in order[k..] && x != []
      ensures Parent(x) != order[k]
    {
      ChildrenComeFirst(directories, k, x);
    }
    NoChildren(hash, files, order, order[k], order[..k], order[k..]);
    forall x: Path {
      DirEntriesSnoc(hash, files, order, x, order[..k], order[k]);
    }
  }

  /** Second loop: hash every directory, deepest first, into the child list of its parent. */
  method FoldDirectories(hash: Bytes -> Oid, files: seq<FileRecord>, directories: seq<Path>,
                         all: set<Path>, start: map<Path, seq<Entry>>)
    returns (r: Placement)
    requires start.Keys == all == {[]} + set d | d in directories
    requires forall d | d in directories :: d != [] && Parent(d) in all
    requires forall d | d in all :: start[d] == FileEntries(files, d)
    ensures r.Placed? <==> forall d | d in directories :: HasChild(files, directories, d)
    ensures r.Placed? ==> [] in r.children && r.children[[]] == Entries(hash, files, DirOrder(directories), [])
  {
    hide DirOrder, DirEntries, FileEntries, HasChild, TreeObject;
    var order := DirOrder(directories);
    var children := start;
    NothingFolded(hash, files, order);
    for k := 0 to |order|
      invariant children.Keys == all
      invariant forall d | d in order[..k] :: d in order
      invariant forall d | d in all ::
                  children[d] == FileEntries(files, d) + DirEntries(hash, files, order, d, order[..k])
      invariant forall d | d in order[..k] :: HasChild(files, directories, d)
    {
      var d := order[k];
      FoldStep(hash, files, directories, k);
      EntriesEmpty(hash, files, directories, d);
      assert d in directories && d in all;
      if children[d] == [] {
        return Misplaced(EmptyDirectory);
      }
      var oid := TreeObject(hash, children[d]);
      var up := Parent(d);
      children := children[up := children[up] + [Entry(Last(d), true, DIRECTORY_MODE, oid)]];
      assert order[..k + 1] == order[..k] + [d];
    }
    assert order[..|order|] == order;
    r := Placed(children);
  }

  lemma NothingFolded(hash: Bytes -> Oid, files: seq<FileRecord>, order: seq<Path>)
    ensures forall x: Path ::
              FileEntries(files, x) + DirEntries(hash, files, order, x, order[..0]) == FileEntries(files, x)
  {
  }

  lemma DerivableOver(files: seq<FileRecord>, directories: seq<Path>, all: set<Path>)
    requires all == {[]} + set d | d in directories
    ensures Derivable(files, directories) <==>
              && (forall d | d in directories :: SafePath(d) && Parent(d) in all)
              && (forall f | f in files :: SafePath(f.path) && Parent(f.path) in all)
              && (forall d | d in directories :: HasChild(files, directories, d))
              && HasChild(files, directories, [])
  {
  }

  /** derive_tree: the deepest-first loops compute the structural recursion, on exactly the
      lists a Git tree can carry. */
  method DeriveTree(hash: Bytes -> Oid, files: seq<FileRecord>, directories: seq<Path>) returns (r: Derivation)
    ensures r.Derived? <==> Derivable(files, directories)
    ensures r.Derived? ==> r.tree == TreeOf(hash, files, DirOrder(directories), [])
  {
    hide DirOrder, FileEntries, DirEntries, HasChild, Derivable;
    var all := {[]} + set d | d in directories;
    DerivableOver(files, directories, all);
    if exists d | d in directories :: !SafePath(d) {
      return Rejected(UnsafePath);
    }
    if exists d | d in directories :: Parent(d) !in all {
      return Rejected(DirectoryParentMissing);
    }
    var placed := PlaceFiles(files, all);
    if placed.Misplaced? {
      return Rejected(placed.why);
    }
    var folded := FoldDirectories(hash, files, directories, all, placed.children);
    if folded.Misplaced? {
      return Rejected(folded.why);
    }
    EntriesEmpty(hash, files, directories, []);
    if folded.children[[]] == [] {
      return Rejected(EmptyRoot);
    }
    r := Derived(TreeObject(hash, folded.children[[]]));
  }
}
