/** Little-endian fields and fixed records, as Python's struct packs and unpacks them. */
module ZipBytes {
  import opened Ordering

  function Pow256(w: nat): (r: nat)
    ensures r >= 1
  {
    if w == 0 then 1 else 256 * Pow256(w - 1)
  }

  function Le(n: nat, w: nat): (r: Bytes)
    ensures |r| == w
  {
    if w == 0 then [] else [n % 256] + Le(n / 256, w - 1)
  }

  function UnLe(bs: Bytes): nat {
    if bs == [] then 0 else bs[0] + 256 * UnLe(bs[1..])
  }

  lemma {:induction false} UnLeOfLe(n: nat, w: nat)
    requires n < Pow256(w)
    ensures UnLe(Le(n, w)) == n
  {
    if w > 0 {
      UnLeOfLe(n / 256, w - 1);
      assert Le(n, w)[0] == n % 256 && Le(n, w)[1..] == Le(n / 256, w - 1);
    }
  }

  lemma LowByte(b: Byte, rest: nat)
    ensures (b + 256 * rest) % 256 == b && (b + 256 * rest) / 256 == rest
  {
  }

  lemma {:induction false} LeOfUnLe(bs: Bytes)
    ensures UnLe(bs) < Pow256(|bs|)
    ensures Le(UnLe(bs), |bs|) == bs
  {
    if bs != [] {
      LeOfUnLe(bs[1..]);
      LowByte(bs[0], UnLe(bs[1..]));
      assert bs == [bs[0]] + bs[1..];
    }
  }

  lemma Widths()
    ensures Pow256(2) == 65536 && Pow256(4) == 4294967296 && Pow256(8) == 18446744073709551616
  {
    assert Pow256(1) == 256;
    assert Pow256(2) == 65536;
    assert Pow256(3) == 16777216;
    assert Pow256(4) == 4294967296;
    assert Pow256(5) == 1099511627776;
    assert Pow256(6) == 281474976710656;
    assert Pow256(7) == 72057594037927936;
  }

  function Sum(ws: seq<nat>): nat {
    if ws == [] then 0 else ws[0] + Sum(ws[1..])
  }

  function Pack(ws: seq<nat>, vs: seq<nat>): (r: Bytes)
    requires |ws| == |vs|
    ensures |r| == Sum(ws)
  {
    if ws == [] then [] else Le(vs[0], ws[0]) + Pack(ws[1..], vs[1..])
  }

  function Unpack(ws: seq<nat>, bs: Bytes): (r: seq<nat>)
    requires |bs| == Sum(ws)
    ensures |r| == |ws|
  {
    if ws == [] then [] else [UnLe(bs[..ws[0]])] + Unpack(ws[1..], bs[ws[0]..])
  }

  predicate Fits(ws: seq<nat>, vs: seq<nat>) {
    |ws| == |vs| && forall i | 0 <= i < |ws| :: vs[i] < Pow256(ws[i])
  }

  lemma UnpackOfPack(ws: seq<nat>, vs: seq<nat>)
    requires Fits(ws, vs)
    ensures Unpack(ws, Pack(ws, vs)) == vs
  {
    if ws != [] {
      var bs := Pack(ws, vs);
      assert bs[..ws[0]] == Le(vs[0], ws[0]) && bs[ws[0]..] == Pack(ws[1..], vs[1..]);
      UnLeOfLe(vs[0], ws[0]);
      UnpackOfPack(ws[1..], vs[1..]);
    }
  }

  lemma PackOfUnpack(ws: seq<nat>, bs: Bytes)
    requires |bs| == Sum(ws)
    ensures Fits(ws, Unpack(ws, bs)) && Pack(ws, Unpack(ws, bs)) == bs
  {
    if ws != [] {
      LeOfUnLe(bs[..ws[0]]);
      PackOfUnpack(ws[1..], bs[ws[0]..]);
      assert bs == bs[..ws[0]] + bs[ws[0]..];
    }
  }

  /** n fields of one width. */
  function Repeat(w: nat, n: nat): (r: seq<nat>)
    ensures |r| == n && Sum(r) == n * w
  {
    if n == 0 then [] else [w] + Repeat(w, n - 1)
  }

  lemma SumOfConcat(a: seq<nat>, b: seq<nat>)
    ensures Sum(a + b) == Sum(a) + Sum(b)
  {
    if a == [] {
      assert a + b == b;
    } else {
      TailOfConcat(a, b);
      SumOfConcat(a[1..], b);
    }
  }

  lemma PackOfOne(ws: seq<nat>, vs: seq<nat>)
    requires |ws| == |vs| == 1
    ensures Pack(ws, vs) == Le(vs[0], ws[0])
  {
    assert ws[1..] == [] && Pack(ws[1..], vs[1..]) == [];
  }

  lemma PackOfConcat(a: seq<nat>, b: seq<nat>, x: seq<nat>, y: seq<nat>)
    requires |a| == |x| && |b| == |y|
    ensures Pack(a + b, x + y) == Pack(a, x) + Pack(b, y)
  {
    if a == [] {
      assert a + b == b && x + y == y;
    } else {
      TailOfConcat(a, b);
      TailOfConcat(x, y);
      PackOfConcat(a[1..], b, x[1..], y);
      Regroup(Le(x[0], a[0]), Pack(a[1..], x[1..]), Pack(b, y));
    }
  }

  /** Bytes decode to given values exactly when they are the packing of those values. */
  lemma UnpackIffPack(ws: seq<nat>, vs: seq<nat>, bs: Bytes)
    requires |ws| == |vs|
    ensures (|bs| == Sum(ws) && Unpack(ws, bs) == vs) <==> (Fits(ws, vs) && bs == Pack(ws, vs))
  {
    if |bs| == Sum(ws) && Unpack(ws, bs) == vs {
      PackOfUnpack(ws, bs);
    }
    if Fits(ws, vs) && bs == Pack(ws, vs) {
      UnpackOfPack(ws, vs);
    }
  }

  /** One step of a field-by-field comparison at a moving cursor. */
  lemma UnpackStep(ws: seq<nat>, vs: seq<nat>, bs: Bytes, k: nat, cursor: nat)
    requires |vs| == |ws| && k < |ws| && cursor <= |bs| && |bs| - cursor == Sum(ws[k..])
    ensures |bs| - cursor - ws[k] == Sum(ws[k + 1..])
    ensures Unpack(ws[k..], bs[cursor..]) == vs[k..] <==>
              UnLe(bs[cursor..cursor + ws[k]]) == vs[k] && Unpack(ws[k + 1..], bs[cursor + ws[k]..]) == vs[k + 1..]
  {
    var tail, rest := ws[k..], bs[cursor..];
    assert tail[1..] == ws[k + 1..];
    assert rest[..ws[k]] == bs[cursor..cursor + ws[k]] && rest[ws[k]..] == bs[cursor + ws[k]..];
    assert Unpack(tail, rest) == [UnLe(rest[..ws[k]])] + Unpack(tail[1..], rest[ws[k]..]);
    hide Unpack, UnLe, Sum;
    assert vs[k..] == [vs[k]] + vs[k + 1..];
  }
}
