/** The objects a patch transaction works on: names bound to inodes, a Git index and
    Git trees.  Blob ids are perfect names of their contents, so an entry carries the
    blob itself; one device is assumed, and the parent directories of patch paths exist. */
module WorkTree {

  datatype Option<+T> = None | Some(value: T)

  type Path = string
  type Ino = nat
  type Blob = string

  datatype Kind = Regular | Symlink | Directory | Special

  datatype Inode = Inode(kind: Kind, mode: nat, content: Blob, nlink: nat)

  /** The three Git modes a patch path may carry: 100644, 100755 and 120000. */
  datatype GitMode = Plain | Executable | Link

  datatype Entry = Entry(mode: GitMode, blob: Blob)

  type Tree = map<Path, Entry>

  datatype Snapshot = Snapshot(names: map<Path, Ino>, inodes: map<Ino, Inode>, index: Tree)

  /** What one observation of a name records. */
  datatype PathState =
    | Absent
    | Present(ino: Ino, kind: Kind, mode: nat, size: nat, nlink: nat, blob: Option<Blob>)

  const PLAIN_BITS: nat := 420       // 0644
  const EXECUTABLE_BITS: nat := 493  // 0755
  const LINK_BITS: nat := 511        // 0777

  function EntryOf(t: Tree, p: Path): Option<Entry> {
    if p in t then Some(t[p]) else None
  }

  function WithEntry(t: Tree, p: Path, e: Option<Entry>): Tree {
    if e.Some? then t[p := e.value] else t - {p}
  }

  function KindOf(m: GitMode): Kind {
    if m == Link then Symlink else Regular
  }

  function BitsOf(m: GitMode): nat {
    match m
    case Plain => PLAIN_BITS
    case Executable => EXECUTABLE_BITS
    case Link => LINK_BITS
  }

  function StateOf(s: Snapshot, p: Path): PathState {
    if p in s.names && s.names[p] in s.inodes then
      var o := s.inodes[s.names[p]];
      Present(s.names[p], o.kind, o.mode, |o.content|, o.nlink,
              if o.kind == Regular || o.kind == Symlink then Some(o.content) else None)
    else
      Absent
  }

  function Capture(s: Snapshot, paths: seq<Path>): map<Path, PathState> {
    map p | p in paths :: StateOf(s, p)
  }

  predicate IsLeaf(k: Kind) {
    k == Regular || k == Symlink
  }

  /** Exact agreement of one observed name with a tree entry, single link included. */
  predicate StateMatches(c: PathState, e: Option<Entry>) {
    if e.None? then
      c.Absent?
    else
      && c.Present?
      && c.blob == Some(e.value.blob)
      && c.nlink == 1
      && c.kind == KindOf(e.value.mode)
      && (e.value.mode != Link ==> c.mode == BitsOf(e.value.mode))
  }

  /** A name still bound to the retained regular inode, which only gained links. */
  predicate OwnedWithAddedLinks(c: PathState, expected: PathState) {
    && c.Present? && expected.Present?
    && c.ino == expected.ino
    && c.kind == Regular && expected.kind == Regular
    && c.mode == expected.mode
    && c.size == expected.size
    && c.blob == expected.blob
    && c.nlink > expected.nlink >= 1
  }

  predicate ScopeMatches(s: Snapshot, t: Tree, paths: seq<Path>) {
    forall p | p in paths :: EntryOf(s.index, p) == EntryOf(t, p) && StateMatches(StateOf(s, p), EntryOf(t, p))
  }

  /** Git's own, coarser comparison: kind, blob and the owner's execute bit. */
  predicate GitMatches(c: PathState, e: Option<Entry>) {
    if e.None? then
      c.Absent?
    else
      && c.Present?
      && c.blob == Some(e.value.blob)
      && c.kind == KindOf(e.value.mode)
      && (e.value.mode != Link ==> ((c.mode / 64) % 2 == 1 <==> e.value.mode == Executable))
  }

  lemma ExactIsGitClean(c: PathState, e: Option<Entry>)
    requires StateMatches(c, e)
    ensures GitMatches(c, e)
  {
    assert PLAIN_BITS / 64 == 6 && EXECUTABLE_BITS / 64 == 7;
  }

  predicate TrackedClean(s: Snapshot) {
    forall p | p in s.index :: GitMatches(StateOf(s, p), Some(s.index[p]))
  }

  /** The ignore files of a worktree: their paths and contents. */
  type Rules = map<Path, Blob>

  /** Which names are worktree names that no rule hides, given the ignore files. */
  type Visibility = (Rules, Path) -> bool

  predicate IsIgnoreFile(p: Path) {
    p == ".gitignore" || (|p| >= 11 && p[|p| - 11..] == "/.gitignore")
  }

  function RulesOf(s: Snapshot): Rules {
    map p | p in s.names && IsIgnoreFile(p) && StateOf(s, p).Present? && StateOf(s, p).kind == Regular
      :: StateOf(s, p).blob.value
  }

  /** The rules once the names in moved carry the entries of t. */
  function RulesWith(s: Snapshot, t: Tree, moved: set<Path>): Rules {
    map p | p in s.names.Keys + t.Keys && IsIgnoreFile(p)
            && (if p in moved then p in t && t[p].mode != Link
                else StateOf(s, p).Present? && StateOf(s, p).kind == Regular)
      :: if p in moved then t[p].blob else StateOf(s, p).blob.value
  }

  /** No name that Git would list as untracked. */
  predicate NoUntracked(s: Snapshot, visible: Visibility) {
    forall p | p in s.names && visible(RulesOf(s), p) :: p in s.index
  }

  predicate ExactTree(s: Snapshot, t: Tree, visible: Visibility) {
    s.index == t && TrackedClean(s) && NoUntracked(s, visible)
  }

  lemma ExactIndex(s: Snapshot, t: Tree, visible: Visibility)
    requires ExactTree(s, t, visible)
    ensures s.index == t
  {
  }

  /** Every untracked name outside the scope stays hidden when the scope carries t's entries. */
  predicate StaysHidden(s: Snapshot, t: Tree, paths: seq<Path>, visible: Visibility) {
    forall p | p in s.names && p !in s.index && p !in paths :: !visible(RulesWith(s, t, SetOf(paths)), p)
  }

  function SetOf(paths: seq<Path>): (r: set<Path>)
    ensures forall p :: p in r <==> p in paths
  {
    set p | p in paths
  }

  predicate IsDiff(paths: seq<Path>, a: Tree, b: Tree) {
    && (forall p | p in paths :: EntryOf(a, p) != EntryOf(b, p))
    && (forall p | p in a.Keys + b.Keys :: EntryOf(a, p) != EntryOf(b, p) ==> p in paths)
  }

  predicate NoDuplicates(paths: seq<Path>) {
    forall i, j | 0 <= i < j < |paths| :: paths[i] != paths[j]
  }

  // ----- the link-count invariant -----

  function NamesOf(names: map<Path, Ino>, i: Ino): set<Path> {
    set n | n in names && names[n] == i
  }

  /** Every name is bound to an inode, and every leaf inode counts its names. */
  predicate LinkCounts(s: Snapshot) {
    && (forall n | n in s.names :: s.names[n] in s.inodes)
    && (forall i | i in s.inodes && s.inodes[i].kind != Directory :: s.inodes[i].nlink == |NamesOf(s.names, i)|)
  }

  lemma SoleName(s: Snapshot, p: Path, n: Path)
    requires LinkCounts(s)
    requires p in s.names && n in s.names && s.names[n] == s.names[p]
    requires s.inodes[s.names[p]].kind != Directory && s.inodes[s.names[p]].nlink == 1
    ensures n == p
  {
    var all := NamesOf(s.names, s.names[p]);
    assert p in all && n in all;
    assert |all - {p}| == 0;
    assert n !in all - {p};
  }

  /** Same inode, kind, mode and bytes; only the link count may have dropped. */
  ghost predicate SameObject(s: Snapshot, t: Snapshot, n: Path) {
    && (n in s.names <==> n in t.names)
    && (n in s.names && s.names[n] in s.inodes ==>
          && t.names[n] == s.names[n] && t.names[n] in t.inodes
          && t.inodes[t.names[n]] == s.inodes[s.names[n]].(nlink := t.inodes[t.names[n]].nlink)
          && t.inodes[t.names[n]].nlink <= s.inodes[s.names[n]].nlink)
  }

  ghost predicate OutsideKept(s: Snapshot, t: Snapshot, paths: seq<Path>) {
    forall n: Path | n !in paths :: SameObject(s, t, n) && EntryOf(t.index, n) == EntryOf(s.index, n)
  }

  lemma OutsideKeptSelf(s: Snapshot, paths: seq<Path>)
    ensures OutsideKept(s, s, paths)
  {
  }

  lemma OutsideKeptTransitive(s: Snapshot, t: Snapshot, u: Snapshot, paths: seq<Path>)
    requires OutsideKept(s, t, paths) && OutsideKept(t, u, paths)
    ensures OutsideKept(s, u, paths)
  {
    forall n: Path | n !in paths
      ensures SameObject(s, u, n) && EntryOf(u.index, n) == EntryOf(s.index, n)
    {
      assert SameObject(s, t, n) && SameObject(t, u, n);
    }
  }

  lemma OutsideKeptHere(s: Snapshot, t: Snapshot, u: Snapshot, paths: seq<Path>)
    requires OutsideKept(t, u, paths)
    ensures OutsideKept(s, t, paths) ==> OutsideKept(s, u, paths)
  {
    if OutsideKept(s, t, paths) {
      OutsideKeptTransitive(s, t, u, paths);
    }
  }

  /** The rules follow from the scope's new entries and the unchanged rest. */
  lemma RulesAfter(s: Snapshot, u: Snapshot, t: Tree, paths: seq<Path>, moved: set<Path>)
    requires LinkCounts(s) && OutsideKept(s, u, paths)
    requires forall p | p in paths && p in moved :: StateMatches(StateOf(u, p), EntryOf(t, p))
    requires forall p | p in paths && p !in moved :: StateOf(u, p) == StateOf(s, p)
    requires forall p | p in moved :: p in paths
    ensures RulesOf(u) == RulesWith(s, t, moved)
  {
    forall p
      ensures p in RulesOf(u) <==> p in RulesWith(s, t, moved)
      ensures p in RulesOf(u) ==> RulesOf(u)[p] == RulesWith(s, t, moved)[p]
    {
      if p !in paths {
        assert SameObject(s, u, p);
      }
    }
  }

  lemma RulesStay(s: Snapshot, t: Tree, paths: seq<Path>)
    requires LinkCounts(s) && ScopeMatches(s, t, paths)
    ensures RulesWith(s, t, SetOf(paths)) == RulesOf(s)
  {
    OutsideKeptSelf(s, paths);
    RulesAfter(s, s, t, paths, SetOf(paths));
  }

  // ----- primitive effects on one name -----

  function Unlinked(s: Snapshot, p: Path): Snapshot
    requires p in s.names && s.names[p] in s.inodes && s.inodes[s.names[p]].nlink >= 1
  {
    var i := s.names[p];
    s.(names := s.names - {p}, inodes := s.inodes[i := s.inodes[i].(nlink := s.inodes[i].nlink - 1)])
  }

  function Created(s: Snapshot, p: Path, i: Ino, e: Entry): Snapshot {
    s.(names := s.names[p := i],
       inodes := s.inodes[i := Inode(KindOf(e.mode), BitsOf(e.mode), e.blob, 1)])
  }

  /** A write through the existing inode: same inode, new bytes and mode bits. */
  function Rewritten(s: Snapshot, p: Path, e: Entry): Snapshot
    requires p in s.names && s.names[p] in s.inodes
  {
    var i := s.names[p];
    s.(inodes := s.inodes[i := s.inodes[i].(mode := BitsOf(e.mode), content := e.blob)])
  }

  /** t differs from s at the name p only; another name of p's inode keeps its object. */
  ghost predicate TouchesOnly(s: Snapshot, t: Snapshot, p: Path) {
    forall n | n != p ::
      && SameObject(s, t, n)
      && EntryOf(t.index, n) == EntryOf(s.index, n)
      && (StateOf(t, n) == StateOf(s, n)
          || (p in s.names && n in s.names && s.names[n] == s.names[p]))
  }

  lemma UnlinkKeeps(s: Snapshot, p: Path)
    requires LinkCounts(s) && p in s.names && s.inodes[s.names[p]].kind != Directory
    ensures s.inodes[s.names[p]].nlink >= 1
    ensures LinkCounts(Unlinked(s, p))
    ensures StateOf(Unlinked(s, p), p) == Absent
    ensures TouchesOnly(s, Unlinked(s, p), p)
  {
    var i := s.names[p];
    assert p in NamesOf(s.names, i);
    var t := Unlinked(s, p);
    forall j | j in t.inodes && t.inodes[j].kind != Directory
      ensures t.inodes[j].nlink == |NamesOf(t.names, j)|
    {
      assert NamesOf(t.names, j) == NamesOf(s.names, j) - {p};
    }
  }

  lemma CreateKeeps(s: Snapshot, p: Path, i: Ino, e: Entry)
    requires LinkCounts(s) && p !in s.names && i !in s.inodes
    ensures LinkCounts(Created(s, p, i, e))
    ensures StateMatches(StateOf(Created(s, p, i, e), p), Some(e))
    ensures TouchesOnly(s, Created(s, p, i, e), p)
  {
    var t := Created(s, p, i, e);
    forall j | j in t.inodes && t.inodes[j].kind != Directory
      ensures t.inodes[j].nlink == |NamesOf(t.names, j)|
    {
      if j == i {
        assert NamesOf(t.names, j) == {p};
      } else {
        assert NamesOf(t.names, j) == NamesOf(s.names, j);
      }
    }
  }

  lemma RewriteKeeps(s: Snapshot, p: Path, e: Entry)
    requires LinkCounts(s) && p in s.names && e.mode != Link
    requires s.inodes[s.names[p]].kind == Regular && s.inodes[s.names[p]].nlink == 1
    ensures LinkCounts(Rewritten(s, p, e))
    ensures StateMatches(StateOf(Rewritten(s, p, e), p), Some(e))
    ensures TouchesOnly(s, Rewritten(s, p, e), p)
  {
    var t := Rewritten(s, p, e);
    forall j | j in t.inodes && t.inodes[j].kind != Directory
      ensures t.inodes[j].nlink == |NamesOf(t.names, j)|
    {
      assert NamesOf(t.names, j) == NamesOf(s.names, j);
    }
    forall n | n != p
      ensures SameObject(s, t, n) && StateOf(t, n) == StateOf(s, n)
    {
      if n in s.names && s.names[n] == s.names[p] {
        SoleName(s, p, n);
      }
    }
  }

  /** Names that may be overwritten or removed without touching any other name. */
  predicate Replaceable(c: PathState) {
    c.Absent? || (IsLeaf(c.kind) && c.nlink == 1)
  }

  /** A step at p leaves every other singly linked or absent name exactly as it was. */
  lemma OthersStay(s: Snapshot, t: Snapshot, p: Path, q: Path)
    requires LinkCounts(s) && TouchesOnly(s, t, p) && p != q
    requires Replaceable(StateOf(s, q))
    ensures StateOf(t, q) == StateOf(s, q) && EntryOf(t.index, q) == EntryOf(s.index, q)
  {
    if p in s.names && q in s.names && s.names[q] == s.names[p] {
      SoleName(s, q, p);
    }
  }

  predicate Leaves(s: Snapshot, paths: seq<Path>) {
    forall p | p in paths :: StateOf(s, p).Present? ==> IsLeaf(StateOf(s, p).kind)
  }

  lemma LeavesStay(s: Snapshot, t: Snapshot, p: Path, paths: seq<Path>)
    requires LinkCounts(s) && TouchesOnly(s, t, p) && Leaves(s, paths)
    requires StateOf(t, p).Present? ==> IsLeaf(StateOf(t, p).kind)
    ensures Leaves(t, paths)
  {
    forall q | q in paths && StateOf(t, q).Present?
      ensures IsLeaf(StateOf(t, q).kind)
    {
      if q != p {
        assert SameObject(s, t, q);
      }
    }
  }

  /** Two steps at one name are one step at that name. */
  lemma TouchTwice(s: Snapshot, t: Snapshot, u: Snapshot, p: Path)
    requires TouchesOnly(s, t, p) && TouchesOnly(t, u, p)
    requires p !in t.names
    ensures TouchesOnly(s, u, p)
  {
    forall n | n != p
      ensures SameObject(s, u, n) && EntryOf(u.index, n) == EntryOf(s.index, n)
    {
      assert SameObject(s, t, n) && SameObject(t, u, n);
    }
  }

  lemma TouchInside(s: Snapshot, t: Snapshot, u: Snapshot, p: Path, paths: seq<Path>)
    requires LinkCounts(s) && OutsideKept(s, t, paths) && TouchesOnly(t, u, p) && p in paths
    ensures OutsideKept(s, u, paths)
  {
    forall n: Path | n !in paths
      ensures SameObject(s, u, n) && EntryOf(u.index, n) == EntryOf(s.index, n)
    {
      assert SameObject(s, t, n) && SameObject(t, u, n);
    }
  }

  /** One step at a scope path, seen from the whole scope: the others keep their state. */
  lemma ScopeStep(s: Snapshot, t: Snapshot, u: Snapshot, p: Path, paths: seq<Path>)
    requires LinkCounts(s) && LinkCounts(t) && OutsideKept(s, t, paths) && TouchesOnly(t, u, p) && p in paths
    ensures OutsideKept(s, u, paths)
    ensures forall q | q in paths && q != p && Replaceable(StateOf(t, q)) ::
              StateOf(u, q) == StateOf(t, q) && EntryOf(u.index, q) == EntryOf(t.index, q)
  {
    TouchInside(s, t, u, p, paths);
    forall q | q in paths && q != p && Replaceable(StateOf(t, q))
      ensures StateOf(u, q) == StateOf(t, q) && EntryOf(u.index, q) == EntryOf(t.index, q)
    {
      OthersStay(t, u, p, q);
    }
  }

  /** Setting the index entry of the touched name is still a step at that name. */
  lemma IndexStep(s: Snapshot, t: Snapshot, p: Path, e: Option<Entry>)
    requires LinkCounts(t) && TouchesOnly(s, t, p)
    ensures var u := t.(index := WithEntry(t.index, p, e));
            LinkCounts(u) && TouchesOnly(s, u, p) && EntryOf(u.index, p) == e && StateOf(u, p) == StateOf(t, p)
  {
    var u := t.(index := WithEntry(t.index, p, e));
    forall n | n != p
      ensures SameObject(s, u, n) && EntryOf(u.index, n) == EntryOf(s.index, n)
    {
      assert SameObject(s, t, n);
    }
  }

  lemma NoStep(s: Snapshot, p: Path)
    ensures TouchesOnly(s, s, p)
  {
  }
}
