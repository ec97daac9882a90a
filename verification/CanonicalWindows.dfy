/** Canonical gadget windows: the run splitter and the window enumerator over a disassembly. */
module CanonicalWindows {
  import opened Ordering

  datatype Instruction = Instruction(address: nat, raw: Bytes, mnemonic: string, text: string, section: string)

  datatype CanonicalSequence = CanonicalSequence(
    start: nat, terminator: nat, raw: Bytes, instructions: seq<string>, section: string)

  const RETURN_MNEMONICS := {"ret", "retl", "retn", "retq", "retw"}
  const FAR_RETURN_MNEMONICS := {"lret", "lretl", "lretq", "lretw", "retf", "retfl", "retfq", "retfw"}
  const PRIVILEGED_MNEMONICS := {
    "int", "int1", "int3", "into", "sysenter", "sysexit", "ud0", "ud1", "ud2",
    "hlt", "rsm", "xbegin", "vmcall", "vmlaunch", "vmresume", "vmrun"}

  function End(i: Instruction): nat {
    i.address + |i.raw|
  }

  predicate IsReturn(i: Instruction) {
    i.mnemonic in RETURN_MNEMONICS
  }

  predicate IsBarrier(i: Instruction) {
    var m := i.mnemonic;
    || IsReturn(i) || m in FAR_RETURN_MNEMONICS
    || "jmp" <= m || "call" <= m || "loop" <= m || "iret" <= m || "j" <= m
    || "." <= m || m == "(bad)" || m == "bad"
    || m in PRIVILEGED_MNEMONICS
  }

  predicate Follows(prev: Instruction, next: Instruction) {
    next.section == prev.section && next.address == End(prev)
  }

  /** The instruction at k continues the one before it. */
  predicate Linked(s: seq<Instruction>, k: nat) {
    0 < k < |s| && Follows(s[k - 1], s[k])
  }

  function Join(s: seq<Instruction>): Bytes {
    if s == [] then [] else s[0].raw + Join(s[1..])
  }

  function Texts(s: seq<Instruction>): seq<string> {
    seq(|s|, i requires 0 <= i < |s| => s[i].text)
  }

  // ----- the declarative set -----

  datatype Window = Window(first: nat, last: nat)

  /** From first to the return at last without a gap, a section change or a barrier, with at
      most depth bytes in front of the return. The return alone is always a window. */
  ghost predicate IsWindow(s: seq<Instruction>, depth: int, w: Window) {
    && w.first <= w.last < |s|
    && IsReturn(s[w.last])
    && (forall k | w.first < k <= w.last :: Linked(s, k))
    && (forall k | w.first <= k < w.last :: !IsBarrier(s[k]))
    && (w.first < w.last ==> |Join(s[w.first..w.last])| <= depth)
  }

  function Record(s: seq<Instruction>, w: Window): CanonicalSequence
    requires w.first <= w.last < |s|
  {
    var selected := s[w.first..w.last + 1];
    CanonicalSequence(s[w.first].address, s[w.last].address, Join(selected), Texts(selected), s[w.last].section)
  }

  ghost predicate WindowsIn(s: seq<Instruction>, ws: seq<Window>) {
    forall w | w in ws :: w.first <= w.last < |s|
  }

  ghost function Records(s: seq<Instruction>, ws: seq<Window>): (r: seq<CanonicalSequence>)
    requires WindowsIn(s, ws)
    ensures |r| == |ws| && forall i | 0 <= i < |r| :: r[i] == Record(s, ws[i])
  {
    seq(|ws|, i requires 0 <= i < |ws| => Record(s, ws[i]))
  }

  /** The windows ending at t with a first instruction at i - 1 or below, longest last. */
  ghost function WindowsBelow(s: seq<Instruction>, depth: int, t: nat, i: nat): (r: seq<Window>)
    requires t < |s|
    ensures forall w :: w in r <==> IsWindow(s, depth, w) && w.last == t && w.first < i
    ensures WindowsIn(s, r)
    ensures forall a, b | 0 <= a < b < |r| :: r[a].first > r[b].first
  {
    if i == 0 then []
    else
      var w := Window(i - 1, t);
      (if IsWindow(s, depth, w) then [w] else []) + WindowsBelow(s, depth, t, i - 1)
  }

  /** The windows whose return is among the first n instructions. */
  ghost function Windows(s: seq<Instruction>, depth: int, n: nat): (r: seq<Window>)
    requires n <= |s|
    ensures forall w :: w in r <==> IsWindow(s, depth, w) && w.last < n
    ensures WindowsIn(s, r)
    ensures forall a, b | 0 <= a < b < |r| ::
              r[a].last < r[b].last || (r[a].last == r[b].last && r[a].first > r[b].first)
  {
    if n == 0 then [] else Windows(s, depth, n - 1) + WindowsBelow(s, depth, n - 1, n)
  }

  // ----- maximal runs -----

  function Flatten(runs: seq<seq<Instruction>>): seq<Instruction> {
    if runs == [] then [] else Flatten(runs[..|runs| - 1]) + runs[|runs| - 1]
  }

  ghost predicate IsRun(run: seq<Instruction>) {
    run != [] && forall k | 0 < k < |run| :: Linked(run, k)
  }

  ghost predicate Separate(a: seq<Instruction>, b: seq<Instruction>) {
    a != [] && b != [] ==> !Follows(a[|a| - 1], b[0])
  }

  /** The input cut into linked runs none of which could be joined with the next. */
  ghost predicate MaximalRuns(s: seq<Instruction>, runs: seq<seq<Instruction>>) {
    && Flatten(runs) == s
    && (forall r | 0 <= r < |runs| :: IsRun(runs[r]))
    && (forall r | 0 < r < |runs| :: Separate(runs[r - 1], runs[r]))
  }

  lemma FlattenSnoc(runs: seq<seq<Instruction>>, run: seq<Instruction>)
    ensures Flatten(runs + [run]) == Flatten(runs) + run
  {
    assert (runs + [run])[..|runs|] == runs;
  }

  /** The splitter's state after a nonempty prefix: finished runs and the run being built. */
  ghost predicate Split(prefix: seq<Instruction>, runs: seq<seq<Instruction>>, current: seq<Instruction>) {
    && IsRun(current)
    && MaximalRuns(Flatten(runs), runs) && Flatten(runs) + current == prefix
    && (runs != [] ==> Separate(runs[|runs| - 1], current))
  }

  lemma SplitGrows(prefix: seq<Instruction>, runs: seq<seq<Instruction>>, current: seq<Instruction>, next: Instruction)
    requires Split(prefix, runs, current) && Follows(current[|current| - 1], next)
    ensures Split(prefix + [next], runs, current + [next])
  {
    forall k | 0 < k < |current + [next]|
      ensures Linked(current + [next], k)
    {
      assert k < |current| ==> Linked(current, k);
    }
  }

  lemma SplitCloses(prefix: seq<Instruction>, runs: seq<seq<Instruction>>, current: seq<Instruction>)
    requires Split(prefix, runs, current)
    ensures MaximalRuns(prefix, runs + [current]) && Flatten(runs + [current]) == prefix
  {
    FlattenSnoc(runs, current);
  }

  lemma SplitCuts(prefix: seq<Instruction>, runs: seq<seq<Instruction>>, current: seq<Instruction>, next: Instruction)
    requires Split(prefix, runs, current) && !Follows(current[|current| - 1], next)
    ensures Split(prefix + [next], runs + [current], [next])
  {
    SplitCloses(prefix, runs, current);
  }

  method ContiguousRuns(instructions: seq<Instruction>) returns (runs: seq<seq<Instruction>>)
    ensures MaximalRuns(instructions, runs)
  {
    runs := [];
    var current: seq<Instruction> := [];
    for i := 0 to |instructions|
      invariant i == 0 ==> runs == [] && current == []
      invariant i > 0 ==> Split(instructions[..i], runs, current)
      invariant current == [] <==> i == 0
    {
      var instruction := instructions[i];
      assert instructions[..i + 1] == instructions[..i] + [instruction];
      if current != [] && Follows(current[|current| - 1], instruction) {
        SplitGrows(instructions[..i], runs, current, instruction);
        hide Split;
        current := current + [instruction];
      } else {
        if current != [] {
          SplitCuts(instructions[..i], runs, current, instruction);
          hide Split;
          runs := runs + [current];
        }
        current := [instruction];
      }
    }
    assert instructions[..|instructions|] == instructions;
    if current != [] {
      SplitCloses(instructions, runs, current);
      runs := runs + [current];
    }
  }

  ghost function Offset(runs: seq<seq<Instruction>>, r: nat): nat
    requires r <= |runs|
  {
    |Flatten(runs[..r])|
  }

  lemma {:induction false} RunAt(runs: seq<seq<Instruction>>, r: nat)
    requires r < |runs|
    ensures Offset(runs, r) + |runs[r]| == Offset(runs, r + 1) <= |Flatten(runs)|
    ensures forall k | 0 <= k < |runs[r]| :: Flatten(runs)[Offset(runs, r) + k] == runs[r][k]
  {
    FlattenSnoc(runs[..r], runs[r]);
    assert runs[..r + 1] == runs[..r] + [runs[r]];
    var last := |runs| - 1;
    if r == last {
      assert runs[..r + 1] == runs;
    } else {
      assert runs[..last][..r] == runs[..r] && runs[..last][..r + 1] == runs[..r + 1];
      RunAt(runs[..last], r);
    }
  }

  lemma RunsCover(s: seq<Instruction>, runs: seq<seq<Instruction>>)
    requires MaximalRuns(s, runs)
    ensures Offset(runs, 0) == 0 && Offset(runs, |runs|) == |s|
  {
    assert runs[..0] == [] && runs[..|runs|] == runs;
  }

  /** A run occupies a stretch of the list, linked inside and cut off from what precedes it. */
  ghost predicate Stretch(s: seq<Instruction>, run: seq<Instruction>, at: nat) {
    && at + |run| <= |s|
    && (forall k | 0 <= k < |run| :: s[at + k] == run[k])
    && (forall k | at < k < at + |run| :: Linked(s, k))
    && !Linked(s, at)
  }

  lemma StretchEnds(s: seq<Instruction>, run: seq<Instruction>, at: nat)
    requires Stretch(s, run, at)
    ensures at + |run| <= |s|
  {
  }

  lemma StretchStarts(s: seq<Instruction>, run: seq<Instruction>, at: nat)
    requires Stretch(s, run, at)
    ensures !Linked(s, at)
  {
  }

  lemma StretchAt(s: seq<Instruction>, run: seq<Instruction>, at: nat, k: nat)
    requires Stretch(s, run, at) && k < |run|
    ensures at + |run| <= |s| && s[at + k] == run[k] && (k > 0 ==> Linked(s, at + k))
  {
  }

  lemma RunStretch(s: seq<Instruction>, runs: seq<seq<Instruction>>, r: nat)
    requires MaximalRuns(s, runs) && r < |runs|
    ensures Stretch(s, runs[r], Offset(runs, r)) && Offset(runs, r + 1) == Offset(runs, r) + |runs[r]|
  {
    RunAt(runs, r);
    var at := Offset(runs, r);
    forall k | at < k < at + |runs[r]|
      ensures Linked(s, k)
    {
      assert Linked(runs[r], k - at) && s[at + (k - at)] == runs[r][k - at]
             && s[at + (k - at - 1)] == runs[r][k - at - 1];
    }
    if r > 0 {
      RunAt(runs, r - 1);
      assert Separate(runs[r - 1], runs[r]);
      assert s[Offset(runs, r - 1) + (|runs[r - 1]| - 1)] == runs[r - 1][|runs[r - 1]| - 1];
      assert s[at + 0] == runs[r][0];
    } else {
      assert runs[..0] == [];
    }
  }

  lemma RunStretches(s: seq<Instruction>, runs: seq<seq<Instruction>>)
    requires MaximalRuns(s, runs)
    ensures forall r | 0 <= r < |runs| :: Stretch(s, runs[r], Offset(runs, r))
    ensures forall r | 0 <= r < |runs| :: Offset(runs, r + 1) == Offset(runs, r) + |runs[r]|
  {
    forall r | 0 <= r < |runs|
      ensures Stretch(s, runs[r], Offset(runs, r)) && Offset(runs, r + 1) == Offset(runs, r) + |runs[r]|
    {
      RunStretch(s, runs, r);
    }
  }

  // ----- why both early exits are right -----

  lemma JoinCons(s: seq<Instruction>, i: nat, t: nat)
    requires i < t <= |s|
    ensures Join(s[i..t]) == s[i].raw + Join(s[i + 1..t])
  {
    assert s[i..t][1..] == s[i + 1..t];
  }

  lemma {:induction false} JoinGrows(s: seq<Instruction>, j: nat, i: nat, t: nat)
    requires j <= i <= t <= |s|
    ensures |Join(s[i..t])| <= |Join(s[j..t])|
    decreases i - j
  {
    if j < i {
      JoinCons(s, j, t);
      JoinGrows(s, j + 1, i, t);
    }
  }

  lemma FirstIn<T>(r: seq<T>)
    ensures r == [] || r[0] in r
  {
  }

  /** Once a first instruction is rejected for a return, every earlier one is too. */
  lemma NoneBelow(s: seq<Instruction>, depth: int, t: nat, i: nat)
    requires i < t < |s|
    requires IsBarrier(s[i]) || |Join(s[i..t])| > depth || !Linked(s, i + 1)
    ensures WindowsBelow(s, depth, t, i + 1) == []
  {
    forall w: Window | w.last == t && w.first <= i
      ensures !IsWindow(s, depth, w)
    {
      JoinGrows(s, w.first, i, t);
    }
    FirstIn(WindowsBelow(s, depth, t, i + 1));
  }

  lemma NoneBefore(s: seq<Instruction>, depth: int, t: nat, at: nat)
    requires at <= t < |s| && !Linked(s, at)
    ensures RecordsBelow(s, depth, t, at) == []
  {
    if at > 0 {
      NoneBelow(s, depth, t, at - 1);
    }
  }

  lemma NoneWithoutReturn(s: seq<Instruction>, depth: int, t: nat)
    requires t < |s| && !IsReturn(s[t])
    ensures RecordsBelow(s, depth, t, t + 1) == []
  {
    FirstIn(WindowsBelow(s, depth, t, t + 1));
  }

  // ----- the enumerator -----

  ghost function RecordsBelow(s: seq<Instruction>, depth: int, t: nat, i: nat): seq<CanonicalSequence>
    requires t < |s|
  {
    Records(s, WindowsBelow(s, depth, t, i))
  }

  ghost function RecordsUpTo(s: seq<Instruction>, depth: int, n: nat): seq<CanonicalSequence>
    requires n <= |s|
  {
    Records(s, Windows(s, depth, n))
  }

  lemma RecordsStart(s: seq<Instruction>, depth: int)
    ensures RecordsUpTo(s, depth, 0) == []
  {
  }

  lemma RecordsConcat(s: seq<Instruction>, a: seq<Window>, b: seq<Window>)
    requires WindowsIn(s, a) && WindowsIn(s, b)
    ensures WindowsIn(s, a + b) && Records(s, a + b) == Records(s, a) + Records(s, b)
  {
    hide Record;
  }

  lemma RecordsStep(s: seq<Instruction>, depth: int, t: nat)
    requires t < |s|
    ensures RecordsUpTo(s, depth, t + 1) == RecordsUpTo(s, depth, t) + RecordsBelow(s, depth, t, t + 1)
  {
    RecordsConcat(s, Windows(s, depth, t), WindowsBelow(s, depth, t, t + 1));
    hide IsWindow, Records, WindowsBelow;
  }

  lemma WindowStep(s: seq<Instruction>, depth: int, t: nat, i: nat)
    requires i <= t < |s| && IsWindow(s, depth, Window(i, t))
    ensures RecordsBelow(s, depth, t, i + 1) == [Record(s, Window(i, t))] + RecordsBelow(s, depth, t, i)
  {
    hide IsWindow, Record;
    RecordsConcat(s, [Window(i, t)], WindowsBelow(s, depth, t, i));
    assert Records(s, [Window(i, t)]) == [Record(s, Window(i, t))];
    hide Records;
    assert WindowsBelow(s, depth, t, i + 1) == [Window(i, t)] + WindowsBelow(s, depth, t, i);
  }

  lemma RecordIs(s: seq<Instruction>, w: Window)
    requires w.first <= w.last < |s|
    ensures var selected := s[w.first..w.last + 1];
            Record(s, w) == CanonicalSequence(
              s[w.first].address, s[w.last].address, Join(selected), Texts(selected), s[w.last].section)
  {
  }

  /** The state of the inner loop when the window from i to t has just been accepted. */
  ghost predicate Accepted(s: seq<Instruction>, depth: int, t: nat, i: nat) {
    && i <= t < |s| && IsReturn(s[t])
    && (forall k | i < k <= t :: Linked(s, k))
    && (forall k | i <= k < t :: !IsBarrier(s[k]))
    && (i < t ==> |Join(s[i..t])| <= depth)
  }

  lemma AcceptedStep(s: seq<Instruction>, depth: int, t: nat, i: nat)
    requires Accepted(s, depth, t, i)
    ensures IsWindow(s, depth, Window(i, t))
    ensures i > 0 && Linked(s, i) && !IsBarrier(s[i - 1]) && |Join(s[i - 1..t])| <= depth
            ==> Accepted(s, depth, t, i - 1)
    ensures i > 0 ==> Join(s[i - 1..t]) == s[i - 1].raw + Join(s[i..t])
  {
    if i > 0 {
      JoinCons(s, i - 1, t);
    }
  }

  lemma ReturnAlone(s: seq<Instruction>, depth: int, t: nat)
    requires t < |s| && IsReturn(s[t])
    ensures Accepted(s, depth, t, t) && s[t..t + 1] == [s[t]] && Join(s[t..t]) == []
    ensures RecordsBelow(s, depth, t, t + 1)
            == [CanonicalSequence(s[t].address, s[t].address, s[t].raw, [s[t].text], s[t].section)]
               + RecordsBelow(s, depth, t, t)
  {
    hide *;
    AcceptedAlone(s, depth, t);
    AcceptedStep(s, depth, t, t);
    WindowStep(s, depth, t, t);
    RecordIs(s, Window(t, t));
    JoinOne(s[t]);
    assert s[t..t + 1] == [s[t]] && s[t..t] == [];
  }

  lemma AcceptedAlone(s: seq<Instruction>, depth: int, t: nat)
    requires t < |s| && IsReturn(s[t])
    ensures Accepted(s, depth, t, t)
  {
  }

  lemma JoinOne(i: Instruction)
    ensures Join([i]) == i.raw && Texts([i]) == [i.text] && Join([]) == []
  {
    assert [i][1..] == [];
  }

  /** The inner loop: the return alone, then longer windows until an early exit. */
  method WindowsOf(run: seq<Instruction>, index: nat, maxDepth: int,
                   ghost s: seq<Instruction>, ghost at: nat)
    returns (sequences: seq<CanonicalSequence>)
    requires index < |run| && Stretch(s, run, at) && IsReturn(run[index])
    ensures sequences == RecordsBelow(s, maxDepth, at + index, at + index + 1)
  {
    hide *;
    var terminator := run[index];
    ghost var t := at + index;
    var selected := [terminator];
    sequences := [CanonicalSequence(terminator.address, terminator.address, terminator.raw, [terminator.text],
                                    terminator.section)];
    var predecessorBytes := 0;
    var p := index;
    StretchEnds(s, run, at);
    StretchAt(s, run, at, index);
    ReturnAlone(s, maxDepth, t);
    while p > 0
      invariant 0 <= p <= index
      invariant selected == s[at + p..t + 1] && predecessorBytes == |Join(s[at + p..t])|
      invariant Accepted(s, maxDepth, t, at + p)
      invariant sequences + RecordsBelow(s, maxDepth, t, at + p) == RecordsBelow(s, maxDepth, t, t + 1)
    {
      var predecessor := run[p - 1];
      ghost var i := at + p - 1;
      StretchAt(s, run, at, p - 1);
      StretchAt(s, run, at, p);
      AcceptedStep(s, maxDepth, t, i + 1);
      if IsBarrier(predecessor) {
        NothingBelow(s, maxDepth, t, i);
        break;
      }
      if predecessorBytes + |predecessor.raw| > maxDepth {
        NothingBelow(s, maxDepth, t, i);
        break;
      }
      predecessorBytes := predecessorBytes + |predecessor.raw|;
      AcceptedStep(s, maxDepth, t, i);
      WindowStep(s, maxDepth, t, i);
      RecordIs(s, Window(i, t));
      selected := [predecessor] + selected;
      assert selected == s[i..t + 1];
      Regroup(sequences, [Record(s, Window(i, t))], RecordsBelow(s, maxDepth, t, i));
      sequences := sequences + [CanonicalSequence(
        selected[0].address, terminator.address, Join(selected), Texts(selected), terminator.section)];
      p := p - 1;
    }
    if p == 0 {
      StretchStarts(s, run, at);
      NoneBefore(s, maxDepth, t, at);
    }
    assert RecordsBelow(s, maxDepth, t, at + p) == [];
  }

  lemma NothingBelow(s: seq<Instruction>, depth: int, t: nat, i: nat)
    requires i < t < |s|
    requires IsBarrier(s[i]) || |Join(s[i..t])| > depth || !Linked(s, i + 1)
    ensures RecordsBelow(s, depth, t, i + 1) == []
  {
    NoneBelow(s, depth, t, i);
  }

  method BuildCanonicalSequences(instructions: seq<Instruction>, maxDepth: int)
    returns (sequences: seq<CanonicalSequence>)
    ensures sequences == RecordsUpTo(instructions, maxDepth, |instructions|)
  {
    hide *;
    sequences := [];
    var runs := ContiguousRuns(instructions);
    ghost var at := 0;
    RunsCover(instructions, runs);
    RecordsStart(instructions, maxDepth);
    RunStretches(instructions, runs);
    for r := 0 to |runs|
      invariant at == Offset(runs, r) <= |instructions|
      invariant sequences == RecordsUpTo(instructions, maxDepth, at)
    {
      var run := runs[r];
      StretchEnds(instructions, run, at);
      for index := 0 to |run|
        invariant sequences == RecordsUpTo(instructions, maxDepth, at + index)
      {
        var terminator := run[index];
        ghost var t := at + index;
        StretchAt(instructions, run, at, index);
        RecordsStep(instructions, maxDepth, t);
        if !IsReturn(terminator) {
          NoneWithoutReturn(instructions, maxDepth, t);
        } else {
          var found := WindowsOf(run, index, maxDepth, instructions, at);
          sequences := sequences + found;
        }
      }
      at := at + |run|;
    }
  }

  // ----- what a record says -----

  lemma {:induction false} ChainSpans(s: seq<Instruction>, i: nat, t: nat)
    requires i <= t < |s| && forall k | i < k <= t :: Linked(s, k)
    ensures s[i].address + |Join(s[i..t + 1])| == End(s[t])
    ensures forall k | i <= k <= t :: s[k].section == s[t].section
    decreases t - i
  {
    JoinCons(s, i, t + 1);
    hide Join;
    if i < t {
      assert Linked(s, i + 1);
      ChainSpans(s, i + 1, t);
    } else {
      JoinOne(s[t]);
      assert s[t + 1..t + 1] == [];
    }
  }

  /** The bytes of a record lead from its start to the end of its return, within one section. */
  lemma RecordSpans(s: seq<Instruction>, depth: int, w: Window)
    requires IsWindow(s, depth, w)
    ensures Record(s, w).start + |Record(s, w).raw| == End(s[w.last])
    ensures forall k | w.first <= k <= w.last :: s[k].section == Record(s, w).section
  {
    ChainSpans(s, w.first, w.last);
  }
}
