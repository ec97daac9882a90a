/** Git's entry order against full-path order: walking the tree objects in payload order
    visits the files in the byte order of their joined paths. */
module TreeOrder {
  import opened Ordering
  import opened GitTree
  import opened TreeIdentity

  /** The file paths below dir, depth first, entries taken in payload order. */
  function Walk(hash: Bytes -> Oid, files: seq<FileRecord>, order: seq<Path>, dir: Path): seq<Path>
    decreases Height(order, dir), 1
  {
    WalkOver(hash, files, order, dir, SortBy(Entries(hash, files, order, dir), EntryKey))
  }

  function WalkOver(hash: Bytes -> Oid, files: seq<FileRecord>, order: seq<Path>, dir: Path, es: seq<Entry>): seq<Path>
    decreases Height(order, dir), 0, |es|
  {
    if es == [] then
      []
    else
      Visit(hash, files, order, dir, es[0]) + WalkOver(hash, files, order, dir, es[1..])
  }

  function Visit(hash: Bytes -> Oid, files: seq<FileRecord>, order: seq<Path>, dir: Path, e: Entry): seq<Path>
    decreases Height(order, dir), 0, 0
  {
    if !e.isDir then
      [dir + [e.name]]
    else if dir + [e.name] in order then
      DepthBounds(order, dir + [e.name]);
      Walk(hash, files, order, dir + [e.name])
    else
      []
  }

  predicate IsFile(files: seq<FileRecord>, p: Path) {
    exists f | f in files :: f.path == p
  }

  /** p lies below the entry e of dir. */
  predicate Below(dir: Path, e: Entry, p: Path) {
    && |p| > |dir| && p[..|dir|] == dir && p[|dir|] == e.name
    && (e.isDir <==> |p| > |dir| + 1)
  }

  /** The sort key of a path: its joined bytes. */
  function PathKey(p: Path): seq<int> {
    Join(p)
  }

  function Prefix(dir: Path): Bytes {
    if dir == [] then [] else Join(dir) + [SLASH]
  }

  function Tail(rest: Path): Bytes {
    if rest == [] then [] else [SLASH] + Join(rest)
  }

  lemma JoinCons(n: Name, p: Path)
    ensures Join([n] + p) == n + Tail(p)
  {
    assert ([n] + p)[1..] == p;
  }

  lemma PrefixCons(n: Name, p: Path)
    ensures Prefix([n] + p) == n + [SLASH] + Prefix(p)
  {
    JoinCons(n, p);
    if p == [] {
      assert [n] + p == [n];
    } else {
      assert n + ([SLASH] + Join(p)) + [SLASH] == n + [SLASH] + (Join(p) + [SLASH]);
    }
  }

  lemma {:induction false} JoinSplits(dir: Path, n: Name, rest: Path)
    ensures Join(dir + [n] + rest) == Prefix(dir) + n + Tail(rest)
  {
    hide Join;
    if dir == [] {
      JoinCons(n, rest);
      assert dir + [n] + rest == [n] + rest;
    } else {
      var q := dir[1..] + [n] + rest;
      assert dir + [n] + rest == [dir[0]] + q && dir == [dir[0]] + dir[1..];
      JoinSplits(dir[1..], n, rest);
      JoinCons(dir[0], q);
      PrefixCons(dir[0], dir[1..]);
      assert dir[0] + ([SLASH] + (Prefix(dir[1..]) + n + Tail(rest)))
             == dir[0] + [SLASH] + Prefix(dir[1..]) + n + Tail(rest);
    }
  }

  /** A joined path below an entry starts with the entry's sort key; a file is exactly it. */
  lemma JoinBelow(dir: Path, e: Entry, p: Path) returns (t: Bytes)
    requires Below(dir, e, p)
    ensures Join(p) == Prefix(dir) + (EntryKey(e) + t)
    ensures !e.isDir ==> t == []
  {
    hide Join, Prefix;
    var rest := p[|dir| + 1..];
    assert p == dir + [e.name] + rest;
    JoinSplits(dir, e.name, rest);
    t := if e.isDir then Join(rest) else [];
    var q, k := Prefix(dir), EntryKey(e);
    assert e.name + Tail(rest) == k + t;
    assert q + e.name + Tail(rest) == q + (e.name + Tail(rest));
  }

  lemma DirectoryKeyIsNoPrefix(e: Entry, f: Entry)
    requires e.isDir && SLASH !in f.name
    requires EntryKey(e) <= EntryKey(f)
    ensures EntryKey(e) == EntryKey(f)
  {
    var k, l := EntryKey(e), EntryKey(f);
    assert k == l[..|k|] && k[|e.name|] == SLASH;
    assert forall i | 0 <= i < |f.name| :: l[i] == f.name[i] && f.name[i] != SLASH;
    assert l[|e.name|] == SLASH;
    assert |k| == |l|;
  }

  /** Paths below a smaller entry come before paths below a larger one. */
  lemma BelowIsOrdered(dir: Path, e: Entry, f: Entry, p: Path, q: Path)
    requires Below(dir, e, p) && Below(dir, f, q)
    requires SLASH !in e.name && SLASH !in f.name
    requires Less(EntryKey(e), EntryKey(f))
    ensures Less(Join(p), Join(q))
  {
    hide Join, Prefix, Less;
    var s := JoinBelow(dir, e, p);
    var t := JoinBelow(dir, f, q);
    var a, b := EntryKey(e), EntryKey(f);
    LessIgnoresTails(a, b, s, t);
    if !Less(a + s, b + t) {
      if e.isDir {
        DirectoryKeyIsNoPrefix(e, f);
      }
      var rest := b[|a|..] + t;
      assert b + t == a + rest && a + s == a;
      PrefixIsLess(a, rest);
    }
    LessAfterPrefix(Prefix(dir), a + s, b + t);
  }

  lemma WalkOverSorted(hash: Bytes -> Oid, files: seq<FileRecord>, directories: seq<Path>, dir: Path, es: seq<Entry>)
    requires Derivable(files, directories)
    requires forall i, j | 0 <= i < j < |files| :: files[i].path != files[j].path
    requires StrictlySorted(es, EntryKey)
    requires forall e | e in es :: e in Entries(hash, files, DirOrder(directories), dir)
    ensures StrictlySorted(WalkOver(hash, files, DirOrder(directories), dir, es), PathKey)
    ensures forall p :: p in WalkOver(hash, files, DirOrder(directories), dir, es) <==>
                          IsFile(files, p) && exists e | e in es :: Below(dir, e, p)
    decreases Height(DirOrder(directories), dir), 0, |es|
  {
    hide Join, Less, Below, Entries, DirOrder, Derivable, SortBy;
    var order := DirOrder(directories);
    if es != [] {
      var e := es[0];
      var head := Visit(hash, files, order, dir, e);
      var rest := WalkOver(hash, files, order, dir, es[1..]);
      assert WalkOver(hash, files, order, dir, es) == head + rest;
      WalkOverSorted(hash, files, directories, dir, es[1..]);
      HeadSorted(hash, files, directories, dir, e);
      forall i, j | 0 <= i < |head| && 0 <= j < |rest|
        ensures Less(PathKey(head[i]), PathKey(rest[j]))
      {
        assert head[i] in head && rest[j] in rest;
        var f :| f in es[1..] && Below(dir, f, rest[j]);
        EntriesHave(hash, files, order, dir, e);
        EntriesHave(hash, files, order, dir, f);
        NamesAreSafe(files, directories, dir, e);
        NamesAreSafe(files, directories, dir, f);
        BelowIsOrdered(dir, e, f, head[i], rest[j]);
      }
      ConcatIsStrict(head, rest, PathKey);
      assert forall f :: f in es <==> f == e || f in es[1..];
    }
  }

  lemma NamesAreSafe(files: seq<FileRecord>, directories: seq<Path>, dir: Path, e: Entry)
    requires Derivable(files, directories)
    requires dir + [e.name] in directories || IsFile(files, dir + [e.name])
    ensures SLASH !in e.name
  {
    var p := dir + [e.name];
    assert SafePath(p) && p[|dir|] == e.name && SafeName(p[|dir|]);
  }

  lemma BelowDirectory(dir: Path, e: Entry, p: Path)
    requires e.isDir
    ensures Below(dir, e, p) <==> |p| > |dir| + 1 && p[..|dir| + 1] == dir + [e.name]
  {
    if |p| > |dir| + 1 {
      assert p[..|dir| + 1] == p[..|dir|] + [p[|dir|]];
    }
  }

  lemma BelowFile(dir: Path, e: Entry, p: Path)
    requires !e.isDir
    ensures Below(dir, e, p) <==> p == dir + [e.name]
  {
    if Below(dir, e, p) {
      assert p == p[..|dir|] + [p[|dir|]];
    }
  }

  /** The paths below one entry: a file itself, or the walk of a subdirectory. */
  lemma HeadSorted(hash: Bytes -> Oid, files: seq<FileRecord>, directories: seq<Path>, dir: Path, e: Entry)
    requires Derivable(files, directories)
    requires forall i, j | 0 <= i < j < |files| :: files[i].path != files[j].path
    requires e in Entries(hash, files, DirOrder(directories), dir)
    ensures var head := Visit(hash, files, DirOrder(directories), dir, e);
            && StrictlySorted(head, PathKey)
            && forall p :: p in head <==> IsFile(files, p) && Below(dir, e, p)
    decreases Height(DirOrder(directories), dir), 0, 0
  {
    hide Below, Entries, TreeOf, Derivable, Join, Less, DirOrder;
    var order := DirOrder(directories);
    EntriesHave(hash, files, order, dir, e);
    var child := dir + [e.name];
    if e.isDir {
      DepthBounds(order, child);
      WalkSorted(hash, files, directories, child);
      forall p: Path
        ensures (|p| > |child| && p[..|child|] == child) <==> Below(dir, e, p)
      {
        BelowDirectory(dir, e, p);
      }
    } else {
      forall p: Path
        ensures Below(dir, e, p) <==> p == child
      {
        BelowFile(dir, e, p);
      }
    }
  }

  /** Below any directory the walk is strictly sorted by joined path and complete. */
  lemma {:induction false} WalkSorted(hash: Bytes -> Oid, files: seq<FileRecord>, directories: seq<Path>, dir: Path)
    requires Derivable(files, directories)
    requires forall i, j | 0 <= i < j < |files| :: files[i].path != files[j].path
    ensures StrictlySorted(Walk(hash, files, DirOrder(directories), dir), PathKey)
    ensures forall p :: p in Walk(hash, files, DirOrder(directories), dir) <==>
                          IsFile(files, p) && |p| > |dir| && p[..|dir|] == dir
    decreases Height(DirOrder(directories), dir), 1
  {
    var order := DirOrder(directories);
    var es := SortBy(Entries(hash, files, order, dir), EntryKey);
    EntryKeysDistinct(hash, files, directories, dir);
    SortIsStrict(Entries(hash, files, order, dir), EntryKey);
    SameElements(es, Entries(hash, files, order, dir));
    WalkOverSorted(hash, files, directories, dir, es);
    forall p: Path | IsFile(files, p) && |p| > |dir| && p[..|dir|] == dir
      ensures exists e | e in es :: Below(dir, e, p)
    {
      var e := EntryAbove(hash, files, directories, dir, p);
      assert e in es;
    }
  }

  /** Every file below a directory lies below one of its entries. */
  lemma EntryAbove(hash: Bytes -> Oid, files: seq<FileRecord>, directories: seq<Path>, dir: Path,
                   p: Path) returns (e: Entry)
    requires Derivable(files, directories)
    requires IsFile(files, p) && |p| > |dir| && p[..|dir|] == dir
    ensures e in Entries(hash, files, DirOrder(directories), dir) && Below(dir, e, p)
  {
    var order, child := DirOrder(directories), p[..|dir| + 1];
    assert child == dir + [p[|dir|]];
    if |p| == |dir| + 1 {
      var f :| f in files && f.path == p;
      assert child == p;
      e := Entry(p[|dir|], false, f.mode, f.oid);
    } else {
      AncestorListed(files, directories, p, |dir| + 1);
      e := Entry(p[|dir|], true, DIRECTORY_MODE, TreeOf(hash, files, order, child));
    }
    EntriesHave(hash, files, order, dir, e);
  }

  /** Every proper ancestor of a listed path is a listed directory. */
  lemma AncestorListed(files: seq<FileRecord>, directories: seq<Path>, p: Path, k: nat)
    requires Derivable(files, directories) && 0 < k < |p|
    requires p in directories || IsFile(files, p)
    ensures p[..k] in directories
    decreases |p|
  {
    assert Parent(p) in directories;
    if k < |p| - 1 {
      AncestorListed(files, directories, Parent(p), k);
      assert p[..k] == Parent(p)[..k];
    }
  }

  function Paths(files: seq<FileRecord>): (r: seq<Path>)
    ensures |r| == |files| && forall i | 0 <= i < |files| :: r[i] == files[i].path
  {
    seq(|files|, i requires 0 <= i < |files| => files[i].path)
  }

  lemma FilesAreSafe(files: seq<FileRecord>, directories: seq<Path>)
    requires Derivable(files, directories)
    ensures forall i | 0 <= i < |files| :: SafePath(files[i].path)
    ensures forall p | IsFile(files, p) :: p != []
  {
    forall i | 0 <= i < |files|
      ensures SafePath(files[i].path)
    {
      assert files[i] in files;
    }
  }

  lemma PathsDistinct(files: seq<FileRecord>, directories: seq<Path>)
    requires Derivable(files, directories)
    requires forall i, j | 0 <= i < j < |files| :: files[i].path != files[j].path
    ensures DistinctKeys(Paths(files), PathKey)
  {
    hide Derivable, SafePath, Join;
    FilesAreSafe(files, directories);
    var ps := Paths(files);
    forall i, j | 0 <= i < j < |ps|
      ensures PathKey(ps[i]) != PathKey(ps[j])
    {
      if PathKey(ps[i]) == PathKey(ps[j]) {
        JoinIsInjective(ps[i], ps[j]);
      }
    }
  }

  /** The depth-first walk in payload order is the list sorted by path bytes. */
  lemma WalkIsPathOrder(hash: Bytes -> Oid, files: seq<FileRecord>, directories: seq<Path>)
    requires Derivable(files, directories)
    requires forall i, j | 0 <= i < j < |files| :: files[i].path != files[j].path
    ensures Walk(hash, files, DirOrder(directories), []) == SortBy(Paths(files), PathKey)
  {
    hide Join, Walk, SortBy, DirOrder, Derivable, StrictlySorted, DistinctKeys;
    var ps := Paths(files);
    PathsDistinct(files, directories);
    FilesAreSafe(files, directories);
    WalkSorted(hash, files, directories, []);
    SortIsStrict(ps, PathKey);
    SameElements(SortBy(ps, PathKey), ps);
    forall p: Path
      ensures p in Walk(hash, files, DirOrder(directories), []) <==> p in SortBy(ps, PathKey)
    {
      if IsFile(files, p) {
        var f :| f in files && f.path == p;
        var i :| 0 <= i < |files| && files[i] == f;
        assert ps[i] == p;
        assert |p| > 0;
      }
    }
    SortedIsUnique(Walk(hash, files, DirOrder(directories), []), SortBy(ps, PathKey), PathKey);
  }
}
