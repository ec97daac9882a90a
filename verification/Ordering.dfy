/** Byte strings, their lexicographic order, and stable sorting by a byte-string key. */
module Ordering {

  type Byte = b: int | 0 <= b < 256
  type Bytes = seq<Byte>

  /** Strict lexicographic order; a proper prefix comes first. */
  predicate Less(a: seq<int>, b: seq<int>) {
    |b| > 0 && (|a| == 0 || a[0] < b[0] || (a[0] == b[0] && Less(a[1..], b[1..])))
  }

  lemma LessTotal(a: seq<int>, b: seq<int>)
    ensures a == b || Less(a, b) || Less(b, a)
    ensures Less(a, b) ==> !Less(b, a) && a != b
  {
    if |a| > 0 && |b| > 0 && a[0] == b[0] {
      LessTotal(a[1..], b[1..]);
      assert a == [a[0]] + a[1..] && b == [b[0]] + b[1..];
    }
  }

  lemma SmallerHead(a: seq<int>, b: seq<int>)
    requires a != [] && b != [] && a[0] < b[0]
    ensures Less(a, b) && !Less(b, a)
  {
  }

  lemma LessTransitive(a: seq<int>, b: seq<int>, c: seq<int>)
    requires Less(a, b) && (Less(b, c) || b == c)
    ensures Less(a, c)
  {
    if |a| > 0 && a[0] == b[0] == c[0] {
      if b != c {
        LessTransitive(a[1..], b[1..], c[1..]);
      }
    }
  }

  lemma LessAfterPrefix(p: seq<int>, a: seq<int>, b: seq<int>)
    ensures Less(p + a, p + b) <==> Less(a, b)
  {
    if p == [] {
      assert p + a == a && p + b == b;
    } else {
      assert (p + a)[1..] == p[1..] + a && (p + b)[1..] == p[1..] + b;
      LessAfterPrefix(p[1..], a, b);
    }
  }

  /** Unless the smaller string is a prefix of the larger, what follows them is irrelevant. */
  lemma LessIgnoresTails(a: seq<int>, b: seq<int>, x: seq<int>, y: seq<int>)
    requires Less(a, b)
    ensures Less(a + x, b + y) || (a <= b && a != b)
  {
    if a == [] {
      assert a <= b;
    } else if a[0] == b[0] {
      LessIgnoresTails(a[1..], b[1..], x, y);
      assert (a + x)[1..] == a[1..] + x && (b + y)[1..] == b[1..] + y;
      if a[1..] <= b[1..] {
        assert a == [a[0]] + a[1..] && b == [b[0]] + b[1..];
      }
    }
  }

  lemma PrefixIsLess(a: seq<int>, b: seq<int>)
    requires b != []
    ensures Less(a, a + b)
  {
    LessAfterPrefix(a, [], b);
    assert a + [] == a;
  }

  lemma TailOfConcat<T>(a: seq<T>, b: seq<T>)
    requires a != []
    ensures (a + b)[0] == a[0] && (a + b)[1..] == a[1..] + b
  {
  }

  lemma Regroup<T>(a: seq<T>, b: seq<T>, c: seq<T>)
    ensures a + (b + c) == a + b + c
  {
  }

  // ----- stable sorting, as Python's sorted with a key -----

  function Insert<T>(x: T, ys: seq<T>, key: T -> seq<int>): (r: seq<T>)
    ensures multiset(r) == multiset(ys) + multiset{x}
  {
    if ys == [] || !Less(key(ys[0]), key(x)) then
      [x] + ys
    else
      assert ys == [ys[0]] + ys[1..];
      [ys[0]] + Insert(x, ys[1..], key)
  }

  function SortBy<T>(xs: seq<T>, key: T -> seq<int>): (r: seq<T>)
    ensures multiset(r) == multiset(xs)
  {
    if xs == [] then
      []
    else
      assert xs == [xs[0]] + xs[1..];
      Insert(xs[0], SortBy(xs[1..], key), key)
  }

  predicate Sorted<T>(xs: seq<T>, key: T -> seq<int>) {
    forall i, j | 0 <= i < j < |xs| :: !Less(key(xs[j]), key(xs[i]))
  }

  predicate StrictlySorted<T>(xs: seq<T>, key: T -> seq<int>) {
    forall i, j | 0 <= i < j < |xs| :: Less(key(xs[i]), key(xs[j]))
  }

  predicate DistinctKeys<T>(xs: seq<T>, key: T -> seq<int>) {
    forall i, j | 0 <= i < j < |xs| :: key(xs[i]) != key(xs[j])
  }

  lemma SameElements<T>(xs: seq<T>, ys: seq<T>)
    requires multiset(xs) == multiset(ys)
    ensures |xs| == |ys|
    ensures forall x :: x in xs <==> x in ys
  {
    assert |multiset(xs)| == |multiset(ys)|;
    forall x
      ensures x in xs <==> x in ys
    {
      assert x in xs <==> x in multiset(xs);
      assert x in ys <==> x in multiset(ys);
    }
  }

  lemma InsertSorts<T>(x: T, ys: seq<T>, key: T -> seq<int>)
    requires Sorted(ys, key)
    ensures Sorted(Insert(x, ys, key), key)
  {
    if ys == [] {
    } else if !Less(key(ys[0]), key(x)) {
      forall j | 0 <= j < |ys|
        ensures !Less(key(ys[j]), key(x))
      {
        LessTotal(key(ys[j]), key(ys[0]));
        if j > 0 && Less(key(ys[j]), key(x)) {
          if key(ys[0]) != key(ys[j]) {
            LessTransitive(key(ys[0]), key(ys[j]), key(x));
          }
        }
      }
    } else {
      var r := Insert(x, ys[1..], key);
      InsertSorts(x, ys[1..], key);
      forall j | 0 <= j < |r|
        ensures !Less(key(r[j]), key(ys[0]))
      {
        assert r[j] in multiset(r);
        assert r[j] == x || r[j] in multiset(ys[1..]);
        LessTotal(key(ys[0]), key(x));
        if r[j] != x {
          var k :| 1 <= k < |ys| && ys[k] == r[j];
        }
      }
    }
  }

  lemma SortSorts<T>(xs: seq<T>, key: T -> seq<int>)
    ensures Sorted(SortBy(xs, key), key)
  {
    if xs != [] {
      SortSorts(xs[1..], key);
      InsertSorts(xs[0], SortBy(xs[1..], key), key);
    }
  }

  /** A multiset of distinct keys has exactly one sorted arrangement. */
  lemma SortedIsUnique<T>(xs: seq<T>, ys: seq<T>, key: T -> seq<int>)
    requires StrictlySorted(xs, key) && StrictlySorted(ys, key)
    requires forall x :: x in xs <==> x in ys
    ensures xs == ys
  {
    assert |xs| > 0 ==> xs[0] in xs;
    assert |ys| > 0 ==> ys[0] in ys;
    if xs != [] {
      assert xs[0] in ys;
      assert ys[0] in xs;
      var i :| 0 <= i < |ys| && ys[i] == xs[0];
      var j :| 0 <= j < |xs| && xs[j] == ys[0];
      if i > 0 {
        LessTotal(key(ys[0]), key(xs[0]));
        LessTotal(key(xs[0]), key(ys[0]));
      }
      assert xs[0] == ys[0];
      forall x
        ensures x in xs[1..] <==> x in ys[1..]
      {
        RestOfStrict(xs, x, key);
        RestOfStrict(ys, x, key);
      }
      SortedIsUnique(xs[1..], ys[1..], key);
      assert xs == [xs[0]] + xs[1..] && ys == [ys[0]] + ys[1..];
    }
  }

  lemma RestOfStrict<T>(xs: seq<T>, x: T, key: T -> seq<int>)
    requires xs != [] && StrictlySorted(xs, key)
    ensures x in xs[1..] <==> x in xs && x != xs[0]
  {
    LessTotal(key(xs[0]), key(xs[0]));
  }

  lemma DistinctUnderPermutation<T>(xs: seq<T>, ys: seq<T>, key: T -> seq<int>)
    requires DistinctKeys(xs, key) && multiset(xs) == multiset(ys)
    ensures DistinctKeys(ys, key)
  {
    SameElements(xs, ys);
    forall i, j | 0 <= i < j < |ys|
      ensures key(ys[i]) != key(ys[j])
    {
      if key(ys[i]) == key(ys[j]) {
        assert ys[i] in xs && ys[j] in xs;
        if ys[i] == ys[j] {
          AtLeastTwice(ys, i, j);
          AtMostOnce(xs, ys[i], key);
        }
      }
    }
  }

  lemma AtLeastTwice<T>(ys: seq<T>, i: nat, j: nat)
    requires i < j < |ys| && ys[i] == ys[j]
    ensures multiset(ys)[ys[i]] >= 2
  {
    assert ys == ys[..j] + ys[j..];
    assert ys[i] in ys[..j] && ys[j] in ys[j..];
    assert multiset(ys) == multiset(ys[..j]) + multiset(ys[j..]);
  }

  lemma AtMostOnce<T>(xs: seq<T>, x: T, key: T -> seq<int>)
    requires DistinctKeys(xs, key)
    ensures multiset(xs)[x] <= 1
  {
    if xs != [] {
      assert xs == [xs[0]] + xs[1..];
      AtMostOnce(xs[1..], x, key);
      if x == xs[0] {
        assert x !in xs[1..];
      }
    }
  }

  lemma SortIsStrict<T>(xs: seq<T>, key: T -> seq<int>)
    requires DistinctKeys(xs, key)
    ensures StrictlySorted(SortBy(xs, key), key)
  {
    var r := SortBy(xs, key);
    SortSorts(xs, key);
    DistinctUnderPermutation(xs, r, key);
    forall i, j | 0 <= i < j < |r|
      ensures Less(key(r[i]), key(r[j]))
    {
      LessTotal(key(r[i]), key(r[j]));
    }
  }

  lemma ConcatIsStrict<T>(xs: seq<T>, ys: seq<T>, key: T -> seq<int>)
    requires StrictlySorted(xs, key) && StrictlySorted(ys, key)
    requires forall i, j | 0 <= i < |xs| && 0 <= j < |ys| :: Less(key(xs[i]), key(ys[j]))
    ensures StrictlySorted(xs + ys, key)
  {
  }

  /** The same statement by membership: equal element sets with distinct keys sort alike. */
  lemma SortOfSameSet<T>(xs: seq<T>, ys: seq<T>, key: T -> seq<int>)
    requires DistinctKeys(xs, key) && DistinctKeys(ys, key)
    requires forall x :: x in xs <==> x in ys
    ensures SortBy(xs, key) == SortBy(ys, key)
  {
    SortIsStrict(xs, key);
    SortIsStrict(ys, key);
    SameElements(SortBy(xs, key), xs);
    SameElements(SortBy(ys, key), ys);
    SortedIsUnique(SortBy(xs, key), SortBy(ys, key), key);
  }

  /** A separator that the first parts do not contain splits a string in one way only. */
  lemma SplitIsUnique<T>(a: seq<T>, x: seq<T>, b: seq<T>, y: seq<T>, sep: T)
    requires sep !in a && sep !in b
    requires a + [sep] + x == b + [sep] + y
    ensures a == b && x == y
  {
    var l, r := a + [sep] + x, b + [sep] + y;
    assert l[|a|] == sep && r[|b|] == sep;
    assert forall i | 0 <= i < |a| :: l[i] == a[i] != sep;
    assert forall i | 0 <= i < |b| :: r[i] == b[i] != sep;
    assert |a| == |b|;
    assert a == l[..|a|] && b == r[..|b|];
    assert x == l[|a| + 1..] && y == r[|b| + 1..];
  }
}
