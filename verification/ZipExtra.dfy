/** Extra fields of APPNOTE sections 4.5.1 and 4.5.3: the block list and the inspector. */
module ZipExtra {
  import opened Ordering
  import opened ZipBytes
  import opened ZipContainer

  datatype Block = Block(id: nat, payload: Bytes)

  datatype Violation =
    | TruncatedHeader | TruncatedField(id: nat) | DuplicateField(id: nat)
    | EmptyTimestamp | MalformedTimestamp
    | MalformedUnicodePath | InvalidUnicodeEncoding | WrongNameCrc | UnicodeNameDisagrees
    | MalformedUid
    | Mismatch(field: Field) | Zip64Unneeded | MalformedZip64 | Zip64Disagrees(field: Field) | Zip64Missing
    | MalformedNtfs | NtfsReserved | TruncatedAttribute | TruncatedValue | DuplicateAttribute(tag: nat)
    | UnsupportedAttribute | NoAttribute
    | MalformedLegacyUnix | UnsupportedField(id: nat)

  datatype Field = UncompressedSize | CompressedSize | HeaderOffset | DiskStart

  /** width 0 marks a header value that disagrees with the represented one. */
  datatype Expectation = Expectation(field: Field, width: nat, value: nat)

  datatype Decoded = Text(text: string) | Undecodable

  datatype Location = Central | Local

  /** The name CRC and the UTF-8 decoder, as given functions. */
  datatype Codec = Codec(crc32: Bytes -> nat, utf8: Bytes -> Decoded)

  datatype Context = Context(codec: Codec, location: Location, rawName: Bytes, original: string)

  // ----- the block list -----

  datatype BlockList = BlockList(blocks: seq<Block>, violations: seq<Violation>)

  predicate BlockFits(b: Block) {
    b.id < 65536 && |b.payload| < 65536
  }

  function PrintBlock(b: Block): Bytes {
    Le(b.id, 2) + Le(|b.payload|, 2) + b.payload
  }

  function PrintBlocks(bs: seq<Block>): Bytes {
    if bs == [] then [] else PrintBlock(bs[0]) + PrintBlocks(bs[1..])
  }

  function Blocks(data: Bytes): BlockList
    decreases |data|
  {
    if data == [] then
      BlockList([], [])
    else if |data| < 4 then
      BlockList([], [TruncatedHeader])
    else
      var id, size := UnLe(data[..2]), UnLe(data[2..4]);
      if size > |data| - 4 then
        BlockList([], [TruncatedField(id)])
      else
        var rest := Blocks(data[4 + size..]);
        BlockList([Block(id, data[4..4 + size])] + rest.blocks, rest.violations)
  }

  /** What remains of the list from an offset. */
  function BlocksFrom(data: Bytes, offset: nat): BlockList
    requires offset <= |data|
  {
    Blocks(data[offset..])
  }

  lemma BlocksAt(data: Bytes, offset: nat)
    requires offset < |data|
    ensures |data| - offset < 4 ==> BlocksFrom(data, offset) == BlockList([], [TruncatedHeader])
    ensures |data| - offset >= 4 ==>
              var id, size := UnLe(data[offset..offset + 2]), UnLe(data[offset + 2..offset + 4]);
              var at := offset + 4;
              if size > |data| - at then
                BlocksFrom(data, offset) == BlockList([], [TruncatedField(id)])
              else
                var rest := BlocksFrom(data, at + size);
                BlocksFrom(data, offset) == BlockList([Block(id, data[at..at + size])] + rest.blocks, rest.violations)
  {
    hide UnLe;
    if |data| - offset >= 4 {
      var rest, size := data[offset..], UnLe(data[offset + 2..offset + 4]);
      assert rest[..2] == data[offset..offset + 2] && rest[2..4] == data[offset + 2..offset + 4];
      if size <= |data| - (offset + 4) {
        assert rest[4..4 + size] == data[offset + 4..offset + 4 + size];
        assert rest[4 + size..] == data[offset + 4 + size..];
      }
    }
  }

  /** parse_extra_blocks: one pass with a moving offset. */
  method ParseExtraBlocks(data: Bytes) returns (blocks: seq<Block>, violations: seq<Violation>)
    ensures BlockList(blocks, violations) == Blocks(data)
  {
    blocks, violations := [], [];
    var offset := 0;
    assert data[0..] == data && Blocks([]) == BlockList([], []);
    while offset < |data|
      invariant 0 <= offset <= |data|
      invariant violations == []
      invariant Blocks(data) == BlockList(blocks + BlocksFrom(data, offset).blocks, BlocksFrom(data, offset).violations)
    {
      hide Blocks, BlocksFrom, UnLe;
      BlocksAt(data, offset);
      if |data| - offset < 4 {
        violations := [TruncatedHeader];
        break;
      }
      var id, size := UnLe(data[offset..offset + 2]), UnLe(data[offset + 2..offset + 4]);
      offset := offset + 4;
      if size > |data| - offset {
        violations := [TruncatedField(id)];
        break;
      }
      blocks := blocks + [Block(id, data[offset..offset + size])];
      offset := offset + size;
    }
  }

  lemma BlocksStep(b: Block, rest: Bytes)
    requires BlockFits(b)
    ensures Blocks(PrintBlock(b) + rest) == BlockList([b] + Blocks(rest).blocks, Blocks(rest).violations)
  {
    var data := PrintBlock(b) + rest;
    Widths();
    UnLeOfLe(b.id, 2);
    UnLeOfLe(|b.payload|, 2);
    assert data == Le(b.id, 2) + (Le(|b.payload|, 2) + (b.payload + rest));
    hide Le, UnLe;
    assert data[..2] == Le(b.id, 2) && data[2..4] == Le(|b.payload|, 2);
    assert data[4..4 + |b.payload|] == b.payload && data[4 + |b.payload|..] == rest;
  }

  /** Printing and parsing a block list. */
  lemma {:induction false} BlocksOfPrinted(bs: seq<Block>)
    requires forall b | b in bs :: BlockFits(b)
    ensures Blocks(PrintBlocks(bs)) == BlockList(bs, [])
  {
    if bs != [] {
      hide BlockFits, PrintBlock;
      BlocksStep(bs[0], PrintBlocks(bs[1..]));
      BlocksOfPrinted(bs[1..]);
    }
  }

  /** The first whole block at the head of the data prints to the bytes it was read from. */
  lemma BlockHead(data: Bytes)
    requires |data| >= 4
    ensures var id, size := UnLe(data[..2]), UnLe(data[2..4]);
            size <= |data| - 4 ==>
              var b := Block(id, data[4..4 + size]);
              PrintBlock(b) == data[..4 + size] && BlockFits(b)
  {
    var size := UnLe(data[2..4]);
    Widths();
    LeOfUnLe(data[..2]);
    LeOfUnLe(data[2..4]);
    hide Le, UnLe;
    if size <= |data| - 4 {
      assert data[..4 + size] == data[..2] + data[2..4] + data[4..4 + size];
    }
  }

  /** Without a violation the blocks print back to the input bytes, and only then. */
  lemma {:induction false} PrintedOfBlocks(data: Bytes)
    ensures Blocks(data).violations == [] <==> PrintBlocks(Blocks(data).blocks) == data
    ensures forall b | b in Blocks(data).blocks :: BlockFits(b)
    ensures |PrintBlocks(Blocks(data).blocks)| <= |data|
    decreases |data|
  {
    if |data| >= 4 {
      BlockHead(data);
      hide UnLe, PrintBlock, BlockFits;
      var id, size := UnLe(data[..2]), UnLe(data[2..4]);
      if size <= |data| - 4 {
        var b, rest := Block(id, data[4..4 + size]), data[4 + size..];
        PrintedOfBlocks(rest);
        var tail := PrintBlocks(Blocks(rest).blocks);
        assert Blocks(data).blocks[1..] == Blocks(rest).blocks;
        assert data == data[..4 + size] + rest;
        assert PrintBlocks(Blocks(data).blocks) == PrintBlock(b) + tail;
        assert (PrintBlock(b) + tail)[4 + size..] == tail;
      }
    }
  }

  // ----- what the header fields require of a ZIP64 block -----

  /** The values the archive library reports for one member. */
  datatype Represented = Represented(fileSize: nat, compressSize: nat, headerOffset: nat, volume: nat)

  function Expect(field: Field, raw: nat, sentinel: nat, width: nat, value: nat): seq<Expectation> {
    if raw == sentinel then [Expectation(field, width, value)]
    else if raw != value then [Expectation(field, 0, value)]
    else []
  }

  function CentralExpectations(r: CentralRecord, info: Represented): seq<Expectation> {
    Expect(UncompressedSize, r.uncompressedSize, UINT32_SENTINEL, 8, info.fileSize)
    + Expect(CompressedSize, r.compressedSize, UINT32_SENTINEL, 8, info.compressSize)
    + Expect(HeaderOffset, r.headerOffset, UINT32_SENTINEL, 8, info.headerOffset)
    + Expect(DiskStart, r.diskStart, UINT16_SENTINEL, 4, info.volume)
  }

  function Keep(es: seq<Expectation>, semantic: bool): seq<Expectation> {
    if es == [] then []
    else (if (es[0].width != 0) == semantic then [es[0]] else []) + Keep(es[1..], semantic)
  }

  /** The expectations with a width: the fields a ZIP64 block must carry. */
  function Semantic(es: seq<Expectation>): seq<Expectation> {
    Keep(es, true)
  }

  function Mismatches(es: seq<Expectation>): seq<Expectation> {
    Keep(es, false)
  }

  function WidthsOf(es: seq<Expectation>): (r: seq<nat>)
    ensures |r| == |es| && forall i | 0 <= i < |es| :: r[i] == es[i].width
  {
    seq(|es|, i requires 0 <= i < |es| => es[i].width)
  }

  function ValuesOf(es: seq<Expectation>): (r: seq<nat>)
    ensures |r| == |es| && forall i | 0 <= i < |es| :: r[i] == es[i].value
  {
    seq(|es|, i requires 0 <= i < |es| => es[i].value)
  }

  // ----- acceptable blocks, stated by what they contain -----

  /** The concatenated little-endian values of exactly the sentinel fields. */
  predicate Zip64Holds(payload: Bytes, es: seq<Expectation>) {
    && Mismatches(es) == [] && Semantic(es) != []
    && Fits(WidthsOf(Semantic(es)), ValuesOf(Semantic(es)))
    && payload == Pack(WidthsOf(Semantic(es)), ValuesOf(Semantic(es)))
  }

  function Bit(flags: nat, b: nat): nat
    requires b > 0
  {
    (flags / b) % 2
  }

  datatype Stamp = Modified | Accessed | Created

  /** The times that the three flag bits announce, in the order they are stored. */
  function Announced(flags: nat): seq<Stamp> {
    (if Bit(flags, 1) == 1 then [Modified] else [])
    + (if Bit(flags, 2) == 1 then [Accessed] else [])
    + (if Bit(flags, 4) == 1 then [Created] else [])
  }

  function PrintTimes(flags: Byte, times: seq<nat>): Bytes {
    [flags] + Pack(Repeat(4, |times|), times)
  }

  /** Which of the announced times a field must hold: all of them locally; centrally all of
      them, only the modification time, or none. */
  predicate TimesFit(location: Location, flags: nat, count: nat) {
    || count == |Announced(flags)|
    || (location == Central && (count == 0 || (count == 1 && Modified in Announced(flags))))
  }

  /** The payload is the flag byte and the printed times. */
  ghost predicate TimestampHolds(location: Location, payload: Bytes) {
    exists flags: Byte, times: seq<nat> :: HoldsTimes(location, payload, flags, times)
  }

  predicate HoldsTimes(location: Location, payload: Bytes, flags: Byte, times: seq<nat>) {
    && flags < 8 && TimesFit(location, flags, |times|)
    && Fits(Repeat(4, |times|), times) && payload == PrintTimes(flags, times)
  }

  /** Version 1, the CRC of the raw name, and bytes that decode to the member's name. */
  ghost predicate UnicodePathHolds(c: Context, payload: Bytes) {
    exists name: Bytes :: IsUnicodePath(c, payload, name)
  }

  predicate IsUnicodePath(c: Context, payload: Bytes, name: Bytes) {
    && c.codec.utf8(name) == Text(c.original)
    && payload == [1] + Le(c.codec.crc32(c.rawName) % 4294967296, 4) + name
  }

  /** With a decoder that keeps different names apart, a member has one acceptable payload. */
  lemma UnicodePathIsUnique(c: Context, p: Bytes, q: Bytes)
    requires forall x: Bytes, y: Bytes :: c.codec.utf8(x) == c.codec.utf8(y) && c.codec.utf8(x).Text? ==> x == y
    requires UnicodePathHolds(c, p) && UnicodePathHolds(c, q)
    ensures p == q
  {
    var x: Bytes :| IsUnicodePath(c, p, x);
    var y: Bytes :| IsUnicodePath(c, q, y);
    assert c.codec.utf8(x) == c.codec.utf8(y);
  }

  /** Version 1, then a user id and a group id of one to eight bytes each. */
  ghost predicate UidHolds(payload: Bytes) {
    exists uid: Bytes, gid: Bytes :: IsUid(payload, uid, gid)
  }

  predicate IsUid(payload: Bytes, uid: Bytes, gid: Bytes) {
    1 <= |uid| <= 8 && 1 <= |gid| <= 8 && payload == [1, |uid|] + uid + [|gid|] + gid
  }

  /** Four zero bytes and exactly one timestamp attribute of 24 bytes. */
  predicate NtfsHolds(payload: Bytes) {
    |payload| == 32 && payload[..8] == [0, 0, 0, 0, 1, 0, 24, 0]
  }

  ghost predicate BlockHolds(c: Context, es: seq<Expectation>, b: Block) {
    if b.id == 0x5455 then TimestampHolds(c.location, b.payload)
    else if b.id == 0x7075 then UnicodePathHolds(c, b.payload)
    else if b.id == 0x7875 then UidHolds(b.payload)
    else if b.id == 0x0001 then Zip64Holds(b.payload, es)
    else if b.id == 0x000A then NtfsHolds(b.payload)
    else (b.id == 0x5855 || b.id == 0x7855) && (|b.payload| == 8 || |b.payload| == 12)
  }

  /** The extra data is a printed list of acceptable blocks with distinct ids, and a ZIP64
      block is present exactly when some field needs one. */
  ghost predicate ExtraHolds(c: Context, es: seq<Expectation>, data: Bytes) {
    var bs := Blocks(data).blocks;
    && PrintBlocks(bs) == data
    && (forall i, j | 0 <= i < j < |bs| :: bs[i].id != bs[j].id)
    && (forall b | b in bs :: BlockHolds(c, es, b))
    && (es != [] ==> exists b | b in bs :: b.id == 0x0001)
  }

  // ----- the inspector -----

  lemma AnnouncedCount(flags: nat)
    requires flags < 8
    ensures |Announced(flags)| == Bit(flags, 1) + Bit(flags, 2) + Bit(flags, 4) <= 3
    ensures Modified in Announced(flags) <==> Bit(flags, 1) == 1
  {
  }

  /** A field by its size: whole times behind the flag byte, as many as may be there. */
  predicate TimestampShape(location: Location, payload: Bytes) {
    && payload != [] && payload[0] < 8 && (|payload| - 1) % 4 == 0
    && TimesFit(location, payload[0], (|payload| - 1) / 4)
  }

  lemma TimestampShapeMeans(location: Location, payload: Bytes)
    ensures TimestampShape(location, payload) <==> TimestampHolds(location, payload)
  {
    hide TimesFit, Pack, Unpack, Fits;
    if TimestampShape(location, payload) {
      var n := (|payload| - 1) / 4;
      PackOfUnpack(Repeat(4, n), payload[1..]);
      var times := Unpack(Repeat(4, n), payload[1..]);
      assert payload == [payload[0]] + payload[1..];
      assert HoldsTimes(location, payload, payload[0], times);
    }
    if TimestampHolds(location, payload) {
      var flags: Byte, times: seq<nat> :| HoldsTimes(location, payload, flags, times);
      assert payload[0] == flags && |payload| == 1 + 4 * |times|;
    }
  }

  method InspectTimestamp(location: Location, payload: Bytes) returns (vs: seq<Violation>)
    ensures vs == [] <==> TimestampHolds(location, payload)
  {
    TimestampShapeMeans(location, payload);
    hide TimestampHolds, Announced;
    if payload == [] {
      return [EmptyTimestamp];
    }
    var flags := payload[0];
    var full := 1 + 4 * (Bit(flags, 1) + Bit(flags, 2) + Bit(flags, 4));
    if flags < 8 {
      AnnouncedCount(flags);
    }
    var permitted := if location == Central then {1, if Bit(flags, 1) == 1 then 5 else 1, full} else {full};
    vs := if flags >= 8 || |payload| !in permitted then [MalformedTimestamp] else [];
  }

  /** The payload split where the decoder's input begins. */
  lemma UnicodePathShape(c: Context, payload: Bytes)
    ensures UnicodePathHolds(c, payload) <==>
              && |payload| >= 5 && payload[0] == 1
              && UnLe(payload[1..5]) == c.codec.crc32(c.rawName) % 4294967296
              && c.codec.utf8(payload[5..]) == Text(c.original)
  {
    var crc := c.codec.crc32(c.rawName) % 4294967296;
    Widths();
    UnLeOfLe(crc, 4);
    hide Le, UnLe;
    if UnicodePathHolds(c, payload) {
      var name: Bytes :| IsUnicodePath(c, payload, name);
      assert payload[1..5] == Le(crc, 4) && payload[5..] == name;
    }
    if |payload| >= 5 && payload[0] == 1 && UnLe(payload[1..5]) == crc
      && c.codec.utf8(payload[5..]) == Text(c.original) {
      LeOfUnLe(payload[1..5]);
      assert payload == [1] + payload[1..5] + payload[5..];
      assert IsUnicodePath(c, payload, payload[5..]);
    }
  }

  method InspectUnicodePath(c: Context, payload: Bytes) returns (vs: seq<Violation>)
    ensures vs == [] <==> UnicodePathHolds(c, payload)
  {
    UnicodePathShape(c, payload);
    hide UnicodePathHolds, UnLe;
    if |payload| < 5 || payload[0] != 1 {
      return [MalformedUnicodePath];
    }
    var name := c.codec.utf8(payload[5..]);
    if name == Undecodable {
      return [InvalidUnicodeEncoding];
    }
    vs := [];
    if c.codec.crc32(c.rawName) % 4294967296 != UnLe(payload[1..5]) {
      vs := vs + [WrongNameCrc];
    }
    if name.text != c.original {
      vs := vs + [UnicodeNameDisagrees];
    }
  }

  /** The same shape by its length bytes. */
  predicate UidShape(payload: Bytes) {
    && |payload| >= 3 && payload[0] == 1
    && 1 <= payload[1] <= 8 && 2 + payload[1] < |payload|
    && 1 <= payload[2 + payload[1]] <= 8 && 3 + payload[1] + payload[2 + payload[1]] == |payload|
  }

  lemma UidAt(payload: Bytes, uid: Bytes, gid: Bytes)
    requires payload == [1, |uid|] + uid + [|gid|] + gid
    ensures |payload| == 3 + |uid| + |gid|
    ensures payload[0] == 1 && payload[1] == |uid| && payload[2 + |uid|] == |gid|
  {
    var front := [1, |uid|] + uid;
    assert payload == front + [|gid|] + gid;
    assert payload[|front|] == |gid|;
  }

  lemma UidShapeMeans(payload: Bytes)
    ensures UidShape(payload) <==> UidHolds(payload)
  {
    if UidShape(payload) {
      var uid, gid := payload[2..2 + payload[1]], payload[3 + payload[1]..];
      assert payload == payload[..2] + uid + [payload[2 + |uid|]] + gid;
      assert payload[..2] == [1, |uid|];
      assert IsUid(payload, uid, gid);
    }
    if UidHolds(payload) {
      var uid: Bytes, gid: Bytes :| IsUid(payload, uid, gid);
      UidAt(payload, uid, gid);
    }
  }

  method InspectUid(payload: Bytes) returns (vs: seq<Violation>)
    ensures vs == [] <==> UidHolds(payload)
  {
    UidShapeMeans(payload);
    hide UidHolds;
    if |payload| < 3 || payload[0] != 1 {
      return [MalformedUid];
    }
    var uidLen := payload[1];
    var uidEnd := 2 + uidLen;
    if uidLen < 1 || uidLen > 8 || uidEnd >= |payload| {
      return [MalformedUid];
    }
    var gidLen := payload[uidEnd];
    vs := if gidLen < 1 || gidLen > 8 || uidEnd + 1 + gidLen != |payload| then [MalformedUid] else [];
  }

  lemma AttributeBytes(tag: Bytes, length: Bytes)
    requires |tag| == 2 && |length| == 2
    ensures UnLe(tag) == 1 && UnLe(length) == 24 <==> tag == [1, 0] && length == [24, 0]
  {
    LeOfUnLe(tag);
    LeOfUnLe(length);
    assert Le(1, 2) == [1] + Le(0, 1) && Le(24, 2) == [24] + Le(0, 1);
    assert UnLe([1, 0]) == 1 + 256 * UnLe([1, 0][1..]) && UnLe([24, 0]) == 24 + 256 * UnLe([24, 0][1..]);
  }

  lemma NtfsShape(payload: Bytes)
    ensures NtfsHolds(payload) <==>
              && |payload| == 32 && payload[..4] == [0, 0, 0, 0]
              && payload[4..6] == [1, 0] && payload[6..8] == [24, 0]
  {
    if |payload| == 32 {
      assert payload[..8] == payload[..4] + payload[4..6] + payload[6..8];
      assert payload[..4] == payload[..8][..4] && payload[4..6] == payload[..8][4..6]
             && payload[6..8] == payload[..8][6..8];
    }
  }

  method InspectNtfs(payload: Bytes) returns (vs: seq<Violation>)
    ensures vs == [] <==> NtfsHolds(payload)
  {
    NtfsShape(payload);
    hide NtfsHolds, UnLe;
    if |payload| < 4 {
      return [MalformedNtfs];
    }
    vs := if payload[..4] != [0, 0, 0, 0] then [NtfsReserved] else [];
    var cursor, attributes := 4, 0;
    var seen: set<nat> := {};
    while cursor < |payload|
      invariant 4 <= cursor <= |payload|
      invariant vs == [] ==> payload[..4] == [0, 0, 0, 0]
      invariant vs == [] ==> (|| (attributes == 0 && cursor == 4 && seen == {})
                              || (attributes == 1 && cursor == 32 && seen == {1} && payload[4..6] == [1, 0]
                                  && payload[6..8] == [24, 0]))
      invariant attributes == 0 ==> cursor == 4
      invariant NtfsHolds(payload) ==> vs == []
    {
      if |payload| - cursor < 4 {
        vs := vs + [TruncatedAttribute];
        break;
      }
      var tag, length := UnLe(payload[cursor..cursor + 2]), UnLe(payload[cursor + 2..cursor + 4]);
      AttributeBytes(payload[cursor..cursor + 2], payload[cursor + 2..cursor + 4]);
      cursor := cursor + 4;
      if length > |payload| - cursor {
        vs := vs + [TruncatedValue];
        break;
      }
      if tag in seen {
        vs := vs + [DuplicateAttribute(tag)];
      }
      seen := seen + {tag};
      if tag != 1 || length != 24 {
        vs := vs + [UnsupportedAttribute];
      }
      cursor, attributes := cursor + length, attributes + 1;
    }
    if attributes == 0 {
      vs := vs + [NoAttribute];
    }
  }

  function MismatchViolations(es: seq<Expectation>): (r: seq<Violation>)
    ensures |r| == |Mismatches(es)|
  {
    var ms := Mismatches(es);
    seq(|ms|, i requires 0 <= i < |ms| => Mismatch(ms[i].field))
  }

  method InspectZip64(payload: Bytes, es: seq<Expectation>) returns (vs: seq<Violation>)
    ensures vs == [] <==> Zip64Holds(payload, es)
  {
    hide Semantic, Mismatches, Pack, UnLe, Fits;
    vs := MismatchViolations(es);
    var semantic := Semantic(es);
    if semantic == [] {
      return vs + [Zip64Unneeded];
    }
    var ws := WidthsOf(semantic);
    ghost var values := ValuesOf(semantic);
    UnpackIffPack(ws, values, payload);
    if |payload| != Sum(ws) {
      return vs + [MalformedZip64];
    }
    var cursor := 0;
    ghost var good := vs == [];
    assert ws[0..] == ws && values[0..] == values && payload[0..] == payload;
    for k := 0 to |semantic|
      invariant 0 <= cursor <= |payload| && |payload| - cursor == Sum(ws[k..])
      invariant good && Unpack(ws, payload) == values
                <==> vs == [] && Unpack(ws[k..], payload[cursor..]) == values[k..]
    {
      hide Unpack, Sum;
      UnpackStep(ws, values, payload, k, cursor);
      var width := semantic[k].width;
      var value := UnLe(payload[cursor..cursor + width]);
      cursor := cursor + width;
      if value != semantic[k].value {
        vs := vs + [Zip64Disagrees(semantic[k].field)];
      }
    }
  }

  method InspectBlock(c: Context, es: seq<Expectation>, b: Block) returns (vs: seq<Violation>)
    ensures vs == [] <==> BlockHolds(c, es, b)
  {
    if b.id == 0x5455 {
      vs := InspectTimestamp(c.location, b.payload);
    } else if b.id == 0x7075 {
      vs := InspectUnicodePath(c, b.payload);
    } else if b.id == 0x7875 {
      vs := InspectUid(b.payload);
    } else if b.id == 0x0001 {
      vs := InspectZip64(b.payload, es);
    } else if b.id == 0x000A {
      vs := InspectNtfs(b.payload);
    } else if b.id == 0x5855 || b.id == 0x7855 {
      vs := if |b.payload| != 8 && |b.payload| != 12 then [MalformedLegacyUnix] else [];
    } else {
      vs := [UnsupportedField(b.id)];
    }
  }

  lemma SplitExpectations(es: seq<Expectation>)
    ensures es == [] <==> Semantic(es) == [] && Mismatches(es) == []
  {
  }

  /** inspect_extra_fields reports nothing exactly on acceptable extra data. */
  method InspectExtraFields(c: Context, es: seq<Expectation>, data: Bytes) returns (vs: seq<Violation>)
    ensures vs == [] <==> ExtraHolds(c, es, data)
  {
    hide BlockHolds, Blocks, PrintBlocks, Semantic, Mismatches;
    var blocks: seq<Block>;
    blocks, vs := ParseExtraBlocks(data);
    PrintedOfBlocks(data);
    SplitExpectations(es);
    var seen: set<nat>, zip64 := {}, false;
    ghost var parsed := vs == [];
    for k := 0 to |blocks|
      invariant seen == set j | 0 <= j < k :: blocks[j].id
      invariant zip64 <==> exists j | 0 <= j < k :: blocks[j].id == 0x0001
      invariant vs == [] <==> && parsed
                              && (forall i, j | 0 <= i < j < k :: blocks[i].id != blocks[j].id)
                              && (forall j | 0 <= j < k :: BlockHolds(c, es, blocks[j]))
    {
      var b := blocks[k];
      if b.id in seen {
        vs := vs + [DuplicateField(b.id)];
      }
      seen := seen + {b.id};
      zip64 := zip64 || b.id == 0x0001;
      var more := InspectBlock(c, es, b);
      vs := vs + more;
    }
    if Semantic(es) != [] && !zip64 {
      vs := vs + [Zip64Missing];
    }
    if Mismatches(es) != [] && !zip64 {
      vs := vs + MismatchViolations(es);
    }
  }

  // ----- what an accepted central record means -----

  predicate FieldDecodes(raw: nat, sentinel: nat, value: nat) {
    raw == sentinel || raw == value
  }

  /** An accepted central record: every field is either the represented value itself or a
      sentinel, and the sentinels' values are the whole payload of the one ZIP64 block. */
  lemma CentralFieldsDecode(c: Context, r: CentralRecord, info: Represented)
    requires ExtraHolds(c, CentralExpectations(r, info), r.extra)
    ensures FieldDecodes(r.uncompressedSize, UINT32_SENTINEL, info.fileSize)
    ensures FieldDecodes(r.compressedSize, UINT32_SENTINEL, info.compressSize)
    ensures FieldDecodes(r.headerOffset, UINT32_SENTINEL, info.headerOffset)
    ensures FieldDecodes(r.diskStart, UINT16_SENTINEL, info.volume)
    ensures r.uncompressedSize == UINT32_SENTINEL ==> info.fileSize < Pow256(8)
    ensures r.compressedSize == UINT32_SENTINEL ==> info.compressSize < Pow256(8)
    ensures r.headerOffset == UINT32_SENTINEL ==> info.headerOffset < Pow256(8)
    ensures r.diskStart == UINT16_SENTINEL ==> info.volume < Pow256(4)
    ensures var es := Semantic(CentralExpectations(r, info));
            if es == [] then
              forall b | b in Blocks(r.extra).blocks :: b.id != 0x0001
            else
              exists b ::
                && b in Blocks(r.extra).blocks && b.id == 0x0001
                && (forall o | o in Blocks(r.extra).blocks && o.id == 0x0001 :: o == b)
                && b.payload ==
                     (if r.uncompressedSize == UINT32_SENTINEL then Le(info.fileSize, 8) else [])
                     + (if r.compressedSize == UINT32_SENTINEL then Le(info.compressSize, 8) else [])
                     + (if r.headerOffset == UINT32_SENTINEL then Le(info.headerOffset, 8) else [])
                     + (if r.diskStart == UINT16_SENTINEL then Le(info.volume, 4) else [])
  {
    CentralParts(r, info);
    ZipBlockHolds(c, CentralExpectations(r, info), r.extra);
    hide Semantic, Mismatches, Expect, CentralExpectations, Blocks, ExtraHolds, PackAll;
  }

  lemma CentralParts(r: CentralRecord, info: Represented)
    ensures var es := CentralExpectations(r, info);
            && (Mismatches(es) == [] <==>
                  && FieldDecodes(r.uncompressedSize, UINT32_SENTINEL, info.fileSize)
                  && FieldDecodes(r.compressedSize, UINT32_SENTINEL, info.compressSize)
                  && FieldDecodes(r.headerOffset, UINT32_SENTINEL, info.headerOffset)
                  && FieldDecodes(r.diskStart, UINT16_SENTINEL, info.volume))
            && PackAll(es) ==
                 (if r.uncompressedSize == UINT32_SENTINEL then Le(info.fileSize, 8) else [])
                 + (if r.compressedSize == UINT32_SENTINEL then Le(info.compressSize, 8) else [])
                 + (if r.headerOffset == UINT32_SENTINEL then Le(info.headerOffset, 8) else [])
                 + (if r.diskStart == UINT16_SENTINEL then Le(info.volume, 4) else [])
            && (r.uncompressedSize == UINT32_SENTINEL ==>
                  Expectation(UncompressedSize, 8, info.fileSize) in Semantic(es))
            && (r.compressedSize == UINT32_SENTINEL ==>
                  Expectation(CompressedSize, 8, info.compressSize) in Semantic(es))
            && (r.headerOffset == UINT32_SENTINEL ==> Expectation(HeaderOffset, 8, info.headerOffset) in Semantic(es))
            && (r.diskStart == UINT16_SENTINEL ==> Expectation(DiskStart, 4, info.volume) in Semantic(es))
  {
    hide Semantic, Mismatches, Expect, PackAll, FieldDecodes, Le;
    var a := Expect(UncompressedSize, r.uncompressedSize, UINT32_SENTINEL, 8, info.fileSize);
    var b := Expect(CompressedSize, r.compressedSize, UINT32_SENTINEL, 8, info.compressSize);
    var d := Expect(HeaderOffset, r.headerOffset, UINT32_SENTINEL, 8, info.headerOffset);
    var e := Expect(DiskStart, r.diskStart, UINT16_SENTINEL, 4, info.volume);
    PartsOfConcat(a, b);
    PartsOfConcat(a + b, d);
    PartsOfConcat(a + b + d, e);
    ExpectParts(UncompressedSize, r.uncompressedSize, UINT32_SENTINEL, 8, info.fileSize);
    ExpectParts(CompressedSize, r.compressedSize, UINT32_SENTINEL, 8, info.compressSize);
    ExpectParts(HeaderOffset, r.headerOffset, UINT32_SENTINEL, 8, info.headerOffset);
    ExpectParts(DiskStart, r.diskStart, UINT16_SENTINEL, 4, info.volume);
  }

  function PackAll(es: seq<Expectation>): Bytes {
    Pack(WidthsOf(Semantic(es)), ValuesOf(Semantic(es)))
  }

  lemma ExpectParts(field: Field, raw: nat, sentinel: nat, width: nat, value: nat)
    requires width > 0
    ensures var x := Expect(field, raw, sentinel, width, value);
            && (Mismatches(x) == [] <==> FieldDecodes(raw, sentinel, value))
            && PackAll(x) == (if raw == sentinel then Le(value, width) else [])
            && (Semantic(x) == [] <==> raw != sentinel)
            && (raw == sentinel ==> Expectation(field, width, value) in Semantic(x))
  {
    var x := Expect(field, raw, sentinel, width, value);
    if x != [] {
      KeepOfOne(x, true);
      KeepOfOne(x, false);
    }
    if raw == sentinel {
      assert Semantic(x) == x;
      PackOfOne(WidthsOf(x), ValuesOf(x));
      assert PackAll(x) == Le(value, width);
    } else {
      assert Semantic(x) == [];
      assert PackAll(x) == [];
    }
  }

  lemma KeepOfOne(es: seq<Expectation>, semantic: bool)
    requires |es| == 1
    ensures Keep(es, semantic) == if (es[0].width != 0) == semantic then es else []
  {
    assert es[1..] == [] && Keep(es[1..], semantic) == [] && es == [es[0]];
  }

  lemma PartsOfConcat(a: seq<Expectation>, b: seq<Expectation>)
    ensures Semantic(a + b) == Semantic(a) + Semantic(b)
    ensures Mismatches(a + b) == Mismatches(a) + Mismatches(b)
    ensures PackAll(a + b) == PackAll(a) + PackAll(b)
  {
    KeepOfConcat(a, b, true);
    KeepOfConcat(a, b, false);
    var x, y := Semantic(a), Semantic(b);
    assert WidthsOf(x + y) == WidthsOf(x) + WidthsOf(y) && ValuesOf(x + y) == ValuesOf(x) + ValuesOf(y);
    PackOfConcat(WidthsOf(x), WidthsOf(y), ValuesOf(x), ValuesOf(y));
  }

  lemma {:induction false} KeepOfConcat(a: seq<Expectation>, b: seq<Expectation>, semantic: bool)
    ensures Keep(a + b, semantic) == Keep(a, semantic) + Keep(b, semantic)
  {
    if a == [] {
      assert a + b == b;
    } else {
      TailOfConcat(a, b);
      KeepOfConcat(a[1..], b, semantic);
      Regroup(if (a[0].width != 0) == semantic then [a[0]] else [], Keep(a[1..], semantic), Keep(b, semantic));
    }
  }

  lemma FitMeans(es: seq<Expectation>)
    requires Fits(WidthsOf(es), ValuesOf(es))
    ensures forall e | e in es :: e.value < Pow256(e.width)
  {
    forall e | e in es
      ensures e.value < Pow256(e.width)
    {
      var i :| 0 <= i < |es| && es[i] == e;
      assert ValuesOf(es)[i] < Pow256(WidthsOf(es)[i]);
    }
  }

  /** In accepted data the ZIP64 block is unique and carries exactly the sentinel values. */
  lemma ZipBlockHolds(c: Context, es: seq<Expectation>, data: Bytes)
    requires ExtraHolds(c, es, data)
    ensures Mismatches(es) == []
    ensures forall e | e in Semantic(es) :: e.value < Pow256(e.width)
    ensures var bs := Blocks(data).blocks;
            if Semantic(es) == [] then
              forall b | b in bs :: b.id != 0x0001
            else
              exists b ::
                && b in bs && b.id == 0x0001 && b.payload == PackAll(es)
                && (forall o | o in bs && o.id == 0x0001 :: o == b)
  {
    SplitExpectations(es);
    var bs := Blocks(data).blocks;
    forall b | b in bs && b.id == 0x0001
      ensures Zip64Holds(b.payload, es)
    {
      assert BlockHolds(c, es, b);
    }
    if es != [] {
      var b :| b in bs && b.id == 0x0001;
      FitMeans(Semantic(es));
      forall o | o in bs && o.id == 0x0001
        ensures o == b
      {
        var i :| 0 <= i < |bs| && bs[i] == b;
        var j :| 0 <= j < |bs| && bs[j] == o;
      }
    }
  }
}
