/** What a tree id says about its source: it depends on the set of files alone, and without
    a hash collision it determines every path, mode and blob id. */
module TreeIdentity {
  import opened Ordering
  import opened GitTree

  const PLAIN_MODE: Bytes := [49, 48, 48, 54, 52, 52]       // 100644
  const EXECUTABLE_MODE: Bytes := [49, 48, 48, 55, 53, 53]  // 100755

  /** The manifests that verification admits: one record a path, the two regular modes. */
  predicate Legal(files: seq<FileRecord>, directories: seq<Path>) {
    && Derivable(files, directories)
    && (forall i, j | 0 <= i < j < |files| :: files[i].path != files[j].path)
    && (forall f | f in files :: f.mode == PLAIN_MODE || f.mode == EXECUTABLE_MODE)
    && (forall f | f in files :: forall i | 0 <= i < |f.path| :: NUL !in f.path[i])
    && (forall d | d in directories :: forall i | 0 <= i < |d| :: NUL !in d[i])
  }

  // ----- membership in entry lists -----

  lemma FileEntriesHave(files: seq<FileRecord>, dir: Path, e: Entry)
    ensures e in FileEntries(files, dir) <==>
              !e.isDir && FileRecord(dir + [e.name], e.mode, e.oid) in files
  {
    if files != [] {
      FileEntriesHave(files[1..], dir, e);
      var f := files[0];
      if f.path != [] && Parent(f.path) == dir {
        assert f.path == dir + [Last(f.path)];
        assert f == FileRecord(dir + [Last(f.path)], f.mode, f.oid);
      } else {
        assert (dir + [e.name])[..|dir|] == dir;
      }
      assert forall g :: g in files <==> g == f || g in files[1..];
    }
  }

  lemma DirEntriesHave(hash: Bytes -> Oid, files: seq<FileRecord>, order: seq<Path>, dir: Path, part: seq<Path>,
                       e: Entry)
    requires forall d | d in part :: d in order
    ensures e in DirEntries(hash, files, order, dir, part) <==>
              && e.isDir && e.mode == DIRECTORY_MODE && dir + [e.name] in part
              && e.oid == TreeOf(hash, files, order, dir + [e.name])
  {
    if part != [] {
      DirEntriesHave(hash, files, order, dir, part[1..], e);
      var d := part[0];
      if d != [] && Parent(d) == dir {
        assert d == dir + [Last(d)];
      } else {
        assert (dir + [e.name])[..|dir|] == dir;
      }
      assert forall g :: g in part <==> g == d || g in part[1..];
    }
  }

  lemma EntriesHave(hash: Bytes -> Oid, files: seq<FileRecord>, order: seq<Path>, dir: Path, e: Entry)
    ensures e in Entries(hash, files, order, dir) <==>
              if e.isDir
              then e.mode == DIRECTORY_MODE && dir + [e.name] in order
                   && e.oid == TreeOf(hash, files, order, dir + [e.name])
              else FileRecord(dir + [e.name], e.mode, e.oid) in files
  {
    FileEntriesHave(files, dir, e);
    DirEntriesHave(hash, files, order, dir, order, e);
  }

  // ----- distinct sort keys -----

  lemma FileKeysDistinct(files: seq<FileRecord>, dir: Path)
    requires forall i, j | 0 <= i < j < |files| :: files[i].path != files[j].path
    ensures DistinctKeys(FileEntries(files, dir), EntryKey)
  {
    if files != [] {
      var f, rest := files[0], FileEntries(files[1..], dir);
      FileKeysDistinct(files[1..], dir);
      if f.path != [] && Parent(f.path) == dir {
        forall j | 0 <= j < |rest|
          ensures EntryKey(rest[j]) != Last(f.path)
        {
          FileEntriesHave(files[1..], dir, rest[j]);
          assert f.path == dir + [Last(f.path)];
        }
      }
    }
  }

  lemma DirKeysDistinct(hash: Bytes -> Oid, files: seq<FileRecord>, order: seq<Path>, dir: Path, part: seq<Path>)
    requires forall d | d in part :: d in order
    requires forall i, j | 0 <= i < j < |part| :: part[i] != part[j]
    ensures DistinctKeys(DirEntries(hash, files, order, dir, part), EntryKey)
  {
    if part != [] {
      var d, rest := part[0], DirEntries(hash, files, order, dir, part[1..]);
      DirKeysDistinct(hash, files, order, dir, part[1..]);
      if d != [] && Parent(d) == dir {
        forall j | 0 <= j < |rest|
          ensures EntryKey(rest[j]) != Last(d) + [SLASH]
        {
          DirEntriesHave(hash, files, order, dir, part[1..], rest[j]);
          assert d == dir + [Last(d)];
          assert rest[j].name == EntryKey(rest[j])[..|EntryKey(rest[j])| - 1];
          assert Last(d) == (Last(d) + [SLASH])[..|Last(d)|];
        }
      }
    }
  }

  lemma OrderHasNoDuplicates(directories: seq<Path>)
    requires forall d | d in directories :: SafePath(d)
    ensures forall i, j | 0 <= i < j < |DirOrder(directories)| :: DirOrder(directories)[i] != DirOrder(directories)[j]
    ensures DistinctKeys(Unique(directories), DirKey)
  {
    var u := Unique(directories);
    forall i, j | 0 <= i < j < |u|
      ensures DirKey(u[i]) != DirKey(u[j])
    {
      if DirKey(u[i]) == DirKey(u[j]) {
        assert Join(u[i]) == DirKey(u[i])[1..] && Join(u[j]) == DirKey(u[j])[1..];
        JoinIsInjective(u[i], u[j]);
      }
    }
    DistinctUnderPermutation(u, DirOrder(directories), DirKey);
  }

  lemma JoinHasSlash(p: Path)
    requires SafePath(p)
    ensures SLASH in Join(p) <==> |p| > 1
  {
    assert SafeName(p[0]);
    assert |p| > 1 ==> Join(p)[|p[0]|] == SLASH;
  }

  lemma JoinIsInjective(p: Path, q: Path)
    requires SafePath(p) && SafePath(q) && Join(p) == Join(q)
    ensures p == q
  {
    JoinHasSlash(p);
    JoinHasSlash(q);
    if |p| > 1 {
      SplitIsUnique(p[0], Join(p[1..]), q[0], Join(q[1..]), SLASH);
      JoinIsInjective(p[1..], q[1..]);
      assert p == [p[0]] + p[1..] && q == [q[0]] + q[1..];
    }
  }

  lemma EntryKeysDistinct(hash: Bytes -> Oid, files: seq<FileRecord>, directories: seq<Path>, dir: Path)
    requires Derivable(files, directories)
    requires forall i, j | 0 <= i < j < |files| :: files[i].path != files[j].path
    ensures DistinctKeys(Entries(hash, files, DirOrder(directories), dir), EntryKey)
  {
    var order := DirOrder(directories);
    OrderHasNoDuplicates(directories);
    FileKeysDistinct(files, dir);
    DirKeysDistinct(hash, files, order, dir, order);
    var fs, ds := FileEntries(files, dir), DirEntries(hash, files, order, dir, order);
    forall i, j | 0 <= i < |fs| && 0 <= j < |ds|
      ensures EntryKey(fs[i]) != EntryKey(ds[j])
    {
      FileEntriesHave(files, dir, fs[i]);
      DirEntriesHave(hash, files, order, dir, order, ds[j]);
      var p := dir + [fs[i].name];
      assert SafeName(p[|dir|]);
      assert EntryKey(ds[j])[|ds[j].name|] == SLASH;
    }
  }

  // ----- the order of the records is irrelevant -----

  lemma SameDirOrder(ds: seq<Path>, es: seq<Path>)
    requires forall d :: d in ds <==> d in es
    requires forall d | d in ds :: SafePath(d)
    ensures DirOrder(ds) == DirOrder(es)
  {
    OrderHasNoDuplicates(ds);
    OrderHasNoDuplicates(es);
    SortOfSameSet(Unique(ds), Unique(es), DirKey);
  }

  /** The tree id depends on the set of records only, not on their order. */
  lemma {:induction false} TreeIgnoresRecordOrder(hash: Bytes -> Oid, files: seq<FileRecord>, directories: seq<Path>,
                               others: seq<FileRecord>, dir: Path)
    requires Derivable(files, directories) && Derivable(others, directories)
    requires forall i, j | 0 <= i < j < |files| :: files[i].path != files[j].path
    requires forall i, j | 0 <= i < j < |others| :: others[i].path != others[j].path
    requires forall f :: f in files <==> f in others
    ensures TreeOf(hash, files, DirOrder(directories), dir) == TreeOf(hash, others, DirOrder(directories), dir)
    decreases Height(DirOrder(directories), dir)
  {
    var order := DirOrder(directories);
    var es, fs := Entries(hash, files, order, dir), Entries(hash, others, order, dir);
    EntryKeysDistinct(hash, files, directories, dir);
    EntryKeysDistinct(hash, others, directories, dir);
    forall e: Entry
      ensures e in es <==> e in fs
    {
      EntriesHave(hash, files, order, dir, e);
      EntriesHave(hash, others, order, dir, e);
      if e.isDir && dir + [e.name] in order {
        DepthBounds(order, dir + [e.name]);
        TreeIgnoresRecordOrder(hash, files, directories, others, dir + [e.name]);
      }
    }
    SortOfSameSet(es, fs, EntryKey);
  }

  // ----- the tree id determines the source -----

  ghost predicate RowsReadable(es: seq<Entry>) {
    forall e | e in es :: Readable(e)
  }

  predicate Readable(e: Entry) {
    SPACE !in e.mode && NUL !in e.name && (e.isDir <==> e.mode == DIRECTORY_MODE)
  }

  lemma RowIsDecodable(e: Entry, f: Entry, x: Bytes, y: Bytes)
    requires Readable(e) && Readable(f) && Row(e) + x == Row(f) + y
    ensures e == f && x == y
  {
    var e1, f1 := e.name + [NUL] + (e.oid + x), f.name + [NUL] + (f.oid + y);
    assert Row(e) + x == e.mode + [SPACE] + e1 && Row(f) + y == f.mode + [SPACE] + f1;
    SplitIsUnique(e.mode, e1, f.mode, f1, SPACE);
    SplitIsUnique(e.name, e.oid + x, f.name, f.oid + y, NUL);
    assert e.oid == (e.oid + x)[..20] && f.oid == (f.oid + y)[..20];
    assert x == (e.oid + x)[20..] && y == (f.oid + y)[20..];
  }

  /** The payload is uniquely decodable: mode, space, name, NUL and twenty bytes. */
  lemma {:induction false} RowsAreDecodable(es: seq<Entry>, fs: seq<Entry>)
    requires RowsReadable(es) && RowsReadable(fs) && Rows(es) == Rows(fs)
    ensures es == fs
  {
    if es != [] && fs != [] {
      RowIsDecodable(es[0], fs[0], Rows(es[1..]), Rows(fs[1..]));
      RowsAreDecodable(es[1..], fs[1..]);
      assert es == [es[0]] + es[1..] && fs == [fs[0]] + fs[1..];
    }
  }

  lemma DigitsHaveNoNul(n: nat)
    ensures NUL !in Digits(n)
  {
  }

  lemma FrameIsInjective(kind: Bytes, x: Bytes, y: Bytes)
    requires Frame(kind, x) == Frame(kind, y)
    ensures x == y
  {
    var p := kind + [SPACE];
    DigitsHaveNoNul(|x|);
    DigitsHaveNoNul(|y|);
    assert Frame(kind, x) == p + (Digits(|x|) + [NUL] + x) && Frame(kind, y) == p + (Digits(|y|) + [NUL] + y);
    assert Digits(|x|) + [NUL] + x == Frame(kind, x)[|p|..] && Digits(|y|) + [NUL] + y == Frame(kind, y)[|p|..];
    SplitIsUnique(Digits(|x|), x, Digits(|y|), y, NUL);
  }

  function DirFrame(hash: Bytes -> Oid, files: seq<FileRecord>, directories: seq<Path>, dir: Path): Bytes {
    Frame(TREE_KIND, TreePayload(Entries(hash, files, DirOrder(directories), dir)))
  }

  /** The two sources contain no colliding pair of tree objects for one directory. */
  ghost predicate NoCollision(hash: Bytes -> Oid, files: seq<FileRecord>, directories: seq<Path>,
                              others: seq<FileRecord>, folders: seq<Path>)
  {
    forall dir: Path ::
      hash(DirFrame(hash, files, directories, dir)) == hash(DirFrame(hash, others, folders, dir)) ==>
        DirFrame(hash, files, directories, dir) == DirFrame(hash, others, folders, dir)
  }

  lemma EntriesReadable(hash: Bytes -> Oid, files: seq<FileRecord>, directories: seq<Path>, dir: Path)
    requires Legal(files, directories)
    ensures RowsReadable(Entries(hash, files, DirOrder(directories), dir))
  {
    forall e | e in Entries(hash, files, DirOrder(directories), dir)
      ensures Readable(e)
    {
      EntriesHave(hash, files, DirOrder(directories), dir, e);
      assert (dir + [e.name])[|dir|] == e.name;
    }
  }

  /** Equal ids of one directory in two legal sources: the same entries. */
  lemma SameIdSameEntries(hash: Bytes -> Oid, files: seq<FileRecord>, directories: seq<Path>,
                          others: seq<FileRecord>, folders: seq<Path>, dir: Path, e: Entry)
    requires Legal(files, directories) && Legal(others, folders)
    requires NoCollision(hash, files, directories, others, folders)
    requires TreeOf(hash, files, DirOrder(directories), dir) == TreeOf(hash, others, DirOrder(folders), dir)
    ensures e in Entries(hash, files, DirOrder(directories), dir) <==>
              e in Entries(hash, others, DirOrder(folders), dir)
  {
    var es, fs := Entries(hash, files, DirOrder(directories), dir), Entries(hash, others, DirOrder(folders), dir);
    assert DirFrame(hash, files, directories, dir) == DirFrame(hash, others, folders, dir);
    FrameIsInjective(TREE_KIND, TreePayload(es), TreePayload(fs));
    EntriesReadable(hash, files, directories, dir);
    EntriesReadable(hash, others, folders, dir);
    SameElements(SortBy(es, EntryKey), es);
    SameElements(SortBy(fs, EntryKey), fs);
    RowsAreDecodable(SortBy(es, EntryKey), SortBy(fs, EntryKey));
  }

  lemma ParentsListed(files: seq<FileRecord>, directories: seq<Path>)
    requires Legal(files, directories)
    ensures forall d | d in directories :: d != [] && (Parent(d) == [] || Parent(d) in directories)
    ensures forall f | f in files :: f.path != [] && (Parent(f.path) == [] || Parent(f.path) in directories)
  {
  }

  lemma {:induction false} DirectoryCarriesOver(hash: Bytes -> Oid, files: seq<FileRecord>, directories: seq<Path>,
                               others: seq<FileRecord>, folders: seq<Path>, d: Path)
    requires Legal(files, directories) && Legal(others, folders)
    requires NoCollision(hash, files, directories, others, folders)
    requires TreeOf(hash, files, DirOrder(directories), []) == TreeOf(hash, others, DirOrder(folders), [])
    requires d in directories || d == []
    ensures d in folders || d == []
    ensures TreeOf(hash, files, DirOrder(directories), d) == TreeOf(hash, others, DirOrder(folders), d)
    decreases |d|
  {
    hide Legal, Derivable, NoCollision, TreeOf, Entries, DirOrder;
    ParentsListed(files, directories);
    if d != [] {
      var e := Entry(Last(d), true, DIRECTORY_MODE, TreeOf(hash, files, DirOrder(directories), d));
      DirectoryCarriesOver(hash, files, directories, others, folders, Parent(d));
      assert Parent(d) + [e.name] == d;
      EntriesHave(hash, files, DirOrder(directories), Parent(d), e);
      SameIdSameEntries(hash, files, directories, others, folders, Parent(d), e);
      EntriesHave(hash, others, DirOrder(folders), Parent(d), e);
    }
  }

  lemma FileCarriesOver(hash: Bytes -> Oid, files: seq<FileRecord>, directories: seq<Path>,
                        others: seq<FileRecord>, folders: seq<Path>, f: FileRecord)
    requires Legal(files, directories) && Legal(others, folders)
    requires NoCollision(hash, files, directories, others, folders)
    requires TreeOf(hash, files, DirOrder(directories), []) == TreeOf(hash, others, DirOrder(folders), [])
    requires f in files
    ensures f in others
  {
    hide Legal, Derivable, NoCollision, TreeOf, Entries, DirOrder;
    ParentsListed(files, directories);
    var dir, e := Parent(f.path), Entry(Last(f.path), false, f.mode, f.oid);
    DirectoryCarriesOver(hash, files, directories, others, folders, dir);
    assert dir + [e.name] == f.path;
    EntriesHave(hash, files, DirOrder(directories), dir, e);
    SameIdSameEntries(hash, files, directories, others, folders, dir, e);
    EntriesHave(hash, others, DirOrder(folders), dir, e);
  }

  /** Two legal sources with one tree id, and no colliding pair of tree objects, are the
      same source: the same directories and the same path, mode and blob id of every file. */
  lemma TreeIdDeterminesSource(hash: Bytes -> Oid, files: seq<FileRecord>, directories: seq<Path>,
                               others: seq<FileRecord>, folders: seq<Path>)
    requires Legal(files, directories) && Legal(others, folders)
    requires NoCollision(hash, files, directories, others, folders)
    ensures TreeOf(hash, files, DirOrder(directories), []) == TreeOf(hash, others, DirOrder(folders), []) <==>
              && (forall f :: f in files <==> f in others)
              && (forall d :: d in directories <==> d in folders)
  {
    if TreeOf(hash, files, DirOrder(directories), []) == TreeOf(hash, others, DirOrder(folders), []) {
      forall f: FileRecord
        ensures f in files <==> f in others
      {
        if f in files {
          FileCarriesOver(hash, files, directories, others, folders, f);
        } else if f in others {
          FileCarriesOver(hash, others, folders, files, directories, f);
        }
      }
      forall d: Path
        ensures d in directories <==> d in folders
      {
        if d in directories {
          DirectoryCarriesOver(hash, files, directories, others, folders, d);
        } else if d in folders {
          DirectoryCarriesOver(hash, others, folders, files, directories, d);
        }
      }
    } else if (forall f :: f in files <==> f in others) && (forall d :: d in directories <==> d in folders) {
      SameDirOrder(directories, folders);
      assert Derivable(others, directories);
      TreeIgnoresRecordOrder(hash, files, directories, others, []);
    }
  }
}
