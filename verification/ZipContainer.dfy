/** ZIP container metadata: end record, central directory and local headers, parsed as the
    hygiene tool does, with the printers of APPNOTE sections 4.3.7, 4.3.12 and 4.3.16. */
module ZipContainer {
  import opened Ordering
  import opened ZipBytes

  datatype Malformed =
    | OutsideArchive | Truncated | NoEndRecord | BadSignature | BadComment | MultiDisk | Zip64Archive
    | BadRange | Gap | BadCentralSignature | BeyondDirectory | SizeMismatch | BadLocalSignature | OverlapsDirectory

  datatype Outcome<+T> = Ok(value: T) | Bad(why: Malformed)

  /** Layouts <I5H3I2H, <I6H3I5H2I and <I4H2IH. */
  const LOCAL_WIDTHS: seq<nat> := Repeat(4, 1) + Repeat(2, 5) + Repeat(4, 3) + Repeat(2, 2)
  const CENTRAL_WIDTHS: seq<nat> := Repeat(4, 1) + Repeat(2, 6) + Repeat(4, 3) + Repeat(2, 5) + Repeat(4, 2)
  const END_WIDTHS: seq<nat> := Repeat(4, 1) + Repeat(2, 4) + Repeat(4, 2) + Repeat(2, 1)
  const LOCAL_SIGNATURE: nat := 0x04034B50
  const CENTRAL_SIGNATURE: nat := 0x02014B50
  const END_SIGNATURE: nat := 0x06054B50
  const UINT16_SENTINEL: nat := 0xFFFF
  const UINT32_SENTINEL: nat := 0xFFFFFFFF
  const MARKER: Bytes := [0x50, 0x4B, 0x05, 0x06]

  const LOCAL_SIZE: nat := 30
  const CENTRAL_SIZE: nat := 46
  const END_SIZE: nat := 22

  lemma RecordSizes()
    ensures Sum(LOCAL_WIDTHS) == LOCAL_SIZE && |LOCAL_WIDTHS| == 11
    ensures Sum(CENTRAL_WIDTHS) == CENTRAL_SIZE && |CENTRAL_WIDTHS| == 17
    ensures Sum(END_WIDTHS) == END_SIZE && |END_WIDTHS| == 8
  {
    SumOfConcat(Repeat(4, 1), Repeat(2, 5));
    SumOfConcat(Repeat(4, 1) + Repeat(2, 5), Repeat(4, 3));
    SumOfConcat(Repeat(4, 1) + Repeat(2, 5) + Repeat(4, 3), Repeat(2, 2));
    SumOfConcat(Repeat(4, 1), Repeat(2, 6));
    SumOfConcat(Repeat(4, 1) + Repeat(2, 6), Repeat(4, 3));
    SumOfConcat(Repeat(4, 1) + Repeat(2, 6) + Repeat(4, 3), Repeat(2, 5));
    SumOfConcat(Repeat(4, 1) + Repeat(2, 6) + Repeat(4, 3) + Repeat(2, 5), Repeat(4, 2));
    SumOfConcat(Repeat(4, 1), Repeat(2, 4));
    SumOfConcat(Repeat(4, 1) + Repeat(2, 4), Repeat(4, 2));
    SumOfConcat(Repeat(4, 1) + Repeat(2, 4) + Repeat(4, 2), Repeat(2, 1));
  }

  function ReadAt(file: Bytes, offset: int, size: int, fileSize: int): Outcome<Bytes> {
    if offset < 0 || size < 0 || offset > fileSize || size > fileSize - offset then
      Bad(OutsideArchive)
    else if offset > |file| || size > |file| - offset then
      if size == 0 then Ok([]) else Bad(Truncated)
    else
      Ok(file[offset..offset + size])
  }

  // ----- the end record -----

  /** The fields of the end record and the archive comment behind it. */
  datatype EndRecord = EndRecord(disk: nat, centralDisk: nat, onDisk: nat, total: nat, size: nat, offset: nat,
                                 comment: Bytes)

  datatype Directory = Directory(offset: nat, size: nat, count: nat, comment: Bytes)

  function EndFields(e: EndRecord): seq<nat> {
    [END_SIGNATURE, e.disk, e.centralDisk, e.onDisk, e.total, e.size, e.offset, |e.comment|]
  }

  function PrintEnd(e: EndRecord): Bytes
  {
    RecordSizes();
    Pack(END_WIDTHS, EndFields(e)) + e.comment
  }

  predicate MarkerAt(bs: Bytes, i: int) {
    0 <= i && i + 4 <= |bs| && bs[i..i + 4] == MARKER
  }

  /** rfind: the last position of the end-record marker at or below i, or -1. */
  function LastMarker(bs: Bytes, i: int): int
    requires -1 <= i
    ensures -1 <= LastMarker(bs, i) <= i
    decreases i + 1
  {
    if i < 0 then -1 else if MarkerAt(bs, i) then i else LastMarker(bs, i - 1)
  }

  lemma LastMarkerIs(bs: Bytes, i: int)
    requires -1 <= i
    ensures LastMarker(bs, i) >= 0 ==> MarkerAt(bs, LastMarker(bs, i))
    ensures forall j | LastMarker(bs, i) < j <= i :: !MarkerAt(bs, j)
    decreases i + 1
  {
    if i >= 0 && !MarkerAt(bs, i) {
      LastMarkerIs(bs, i - 1);
    }
  }

  /** Decode the end record at a known position and check it against the file. */
  function DecodeEnd(file: Bytes, fileSize: nat, absolute: nat): Outcome<Directory> {
    match ReadAt(file, absolute, END_SIZE, fileSize)
    case Bad(why) => Bad(why)
    case Ok(fixed) =>
      RecordSizes();
      var v := Unpack(END_WIDTHS, fixed);
      if v[0] != END_SIGNATURE then Bad(BadSignature)
      else if absolute + END_SIZE + v[7] != fileSize then Bad(BadComment)
      else if v[1] != 0 || v[2] != 0 || v[3] != v[4] then Bad(MultiDisk)
      else if v[4] == UINT16_SENTINEL || v[5] == UINT32_SENTINEL || v[6] == UINT32_SENTINEL then Bad(Zip64Archive)
      else if v[6] > absolute || v[5] > absolute - v[6] then Bad(BadRange)
      else if v[6] + v[5] != absolute then Bad(Gap)
      else
        match ReadAt(file, absolute + END_SIZE, v[7], fileSize)
        case Bad(why) => Bad(why)
        case Ok(comment) => Ok(Directory(v[6], v[5], v[4], comment))
  }

  /** Where the tail search window begins: 22 + 65535 bytes before the end at most. */
  function TailStart(fileSize: nat): nat {
    if fileSize < END_SIZE + UINT16_SENTINEL then 0 else fileSize - (END_SIZE + UINT16_SENTINEL)
  }

  function Locate(file: Bytes, fileSize: nat): Outcome<Directory> {
    var start := TailStart(fileSize);
    match ReadAt(file, start, fileSize - start, fileSize)
    case Bad(why) => Bad(why)
    case Ok(tail) =>
      var relative := LastMarker(tail, |tail|);
      if relative < 0 then Bad(NoEndRecord) else DecodeEnd(file, fileSize, start + relative)
  }

  /** The one end record a located directory can come from. */
  function EndOf(d: Directory): EndRecord {
    EndRecord(0, 0, d.count, d.count, d.size, d.offset, d.comment)
  }

  predicate EndFits(e: EndRecord) {
    RecordSizes();
    Fits(END_WIDTHS, EndFields(e))
  }

  /** An archive that may be located: plain single-disk sizes inside the field widths. */
  predicate Locatable(d: Directory) {
    && EndFits(EndOf(d))
    && d.count != UINT16_SENTINEL && d.size != UINT32_SENTINEL && d.offset != UINT32_SENTINEL
  }

  lemma DecodeIsSound(file: Bytes, absolute: nat)
    requires DecodeEnd(file, |file|, absolute).Ok?
    ensures var d := DecodeEnd(file, |file|, absolute).value;
            && d.offset + d.size == absolute && absolute + END_SIZE + |d.comment| == |file|
            && file[absolute..] == PrintEnd(EndOf(d)) && Locatable(d)
  {
    hide Unpack, Pack, Sum, Repeat;
    var d := DecodeEnd(file, |file|, absolute).value;
    var fixed := file[absolute..absolute + END_SIZE];
    RecordSizes();
    PackOfUnpack(END_WIDTHS, fixed);
    assert EndFields(EndOf(d)) == Unpack(END_WIDTHS, fixed);
    assert file[absolute..] == fixed + d.comment;
  }

  /** A located directory reaches exactly to the end record, which reaches exactly to the
      end of the file; no marker starts behind the record's own. */
  lemma LocateIsSound(file: Bytes)
    requires Locate(file, |file|).Ok?
    ensures var d := Locate(file, |file|).value;
            && d.offset + d.size + END_SIZE + |d.comment| == |file|
            && file[d.offset + d.size..] == PrintEnd(EndOf(d)) && Locatable(d)
            && forall j | d.offset + d.size < j :: !MarkerAt(file, j)
  {
    var start := TailStart(|file|);
    var tail := file[start..];
    assert file[start..start + (|file| - start)] == tail;
    hide DecodeEnd, PrintEnd, EndFits, Locatable, LastMarker, MarkerAt;
    var at := LastMarker(tail, |tail|);
    LastMarkerIs(tail, |tail|);
    DecodeIsSound(file, start + at);
    MarkerShift(file, start);
    MarkersEnd(tail);
    forall j | start + at < j
      ensures !MarkerAt(file, j)
    {
      assert start + (j - start) == j && !MarkerAt(tail, j - start);
    }
  }

  lemma MarkersEnd(bs: Bytes)
    ensures forall j | |bs| < j :: !MarkerAt(bs, j)
  {
  }

  lemma MarkerIsSignature()
    ensures Le(END_SIGNATURE, 4) == MARKER
  {
    assert END_SIGNATURE % 256 == 0x50 && END_SIGNATURE / 256 == 0x06054B;
    assert 0x06054B % 256 == 0x4B && 0x06054B / 256 == 0x0605;
    assert Le(0x0605, 2) == [0x05] + Le(0x06, 1);
  }

  lemma PrintedEndStarts(e: EndRecord)
    ensures |PrintEnd(e)| == END_SIZE + |e.comment| && MarkerAt(PrintEnd(e), 0)
  {
    RecordSizes();
    MarkerIsSignature();
    assert END_WIDTHS[0] == 4;
    assert Pack(END_WIDTHS, EndFields(e))[..4] == MARKER;
    assert PrintEnd(e)[0..4] == Pack(END_WIDTHS, EndFields(e))[..4];
  }

  /** Locating a printed archive returns its directory exactly when no end-record marker
      starts inside the printed end record behind its own signature.  The search window of
      22 + 65535 bytes always holds the whole record. */
  lemma LocateOfPrinted(front: Bytes, d: Directory)
    requires Locatable(d) && |front| == d.offset + d.size
    ensures var file := front + PrintEnd(EndOf(d));
            Locate(file, |file|) == Ok(d) <==> forall j | 0 < j :: !MarkerAt(PrintEnd(EndOf(d)), j)
  {
    hide DecodeEnd, LastMarker, Pack, Unpack, Sum, Repeat;
    var end := PrintEnd(EndOf(d));
    var file := front + end;
    RecordSizes();
    PrintedEndStarts(EndOf(d));
    assert file[|front|..] == end;
    MarkerShift(file, |front|);
    if Locate(file, |file|) == Ok(d) {
      LocateIsSound(file);
    }
    if forall j | 0 < j :: !MarkerAt(end, j) {
      CommentFits(d);
      FindPrintedEnd(front, end);
      DecodeOfPrinted(front, d);
      var start := TailStart(|file|);
      assert file[start..start + (|file| - start)] == file[start..];
    }
  }

  lemma DecodeOfPrinted(front: Bytes, d: Directory)
    requires Locatable(d) && |front| == d.offset + d.size
    ensures DecodeEnd(front + PrintEnd(EndOf(d)), |front + PrintEnd(EndOf(d))|, |front|) == Ok(d)
  {
    hide Unpack, Pack, Sum, Repeat;
    var file := front + PrintEnd(EndOf(d));
    RecordSizes();
    var fixed := file[|front|..|front| + END_SIZE];
    assert fixed == Pack(END_WIDTHS, EndFields(EndOf(d)));
    UnpackOfPack(END_WIDTHS, EndFields(EndOf(d)));
    assert |file| == |front| + END_SIZE + |d.comment|;
    assert file[|front| + END_SIZE..|front| + END_SIZE + |d.comment|] == d.comment;
  }

  lemma MarkerShift(file: Bytes, k: nat)
    requires k <= |file|
    ensures forall j | 0 <= j :: MarkerAt(file[k..], j) <==> MarkerAt(file, k + j)
  {
    forall j | 0 <= j
      ensures MarkerAt(file[k..], j) <==> MarkerAt(file, k + j)
    {
      assert j + 4 <= |file| - k ==> file[k..][j..j + 4] == file[k + j..k + j + 4];
    }
  }

  lemma CommentFits(d: Directory)
    requires Locatable(d)
    ensures |d.comment| <= UINT16_SENTINEL
  {
    Widths();
    assert EndFields(EndOf(d))[7] == |d.comment| && END_WIDTHS[7] == 2;
  }

  lemma FindPrintedEnd(front: Bytes, end: Bytes)
    requires MarkerAt(end, 0) && |end| <= END_SIZE + UINT16_SENTINEL
    requires forall j | 0 < j :: !MarkerAt(end, j)
    ensures var file := front + end;
            var start := TailStart(|file|);
            start + LastMarker(file[start..], |file| - start) == |front|
  {
    var file := front + end;
    var start := TailStart(|file|);
    var tail, at := file[start..], |front| - start;
    assert tail[at..] == end;
    MarkerShift(tail, at);
    hide MarkerAt;
    LastMarkerIs(tail, |tail|);
    assert MarkerAt(tail, at + 0);
    forall j | at < j
      ensures !MarkerAt(tail, j)
    {
      assert !MarkerAt(end, j - at) && at + (j - at) == j;
    }
  }

  /** A comment without the marker is not enough: the comment-length field can supply its
      first half.  This archive is empty and well formed, and it is not located. */
  lemma MarkerAcrossLengthField(comment: Bytes)
    requires |comment| == 0x4B50 && comment[0] == 0x05 && comment[1] == 0x06
    requires forall j | 2 <= j < |comment| :: comment[j] == 0x20
    ensures var d := Directory(0, 0, 0, comment);
            && (forall j :: !MarkerAt(comment, j))
            && Locatable(d)
            && Locate(PrintEnd(EndOf(d)), |PrintEnd(EndOf(d))|) != Ok(d)
  {
    var d := Directory(0, 0, 0, comment);
    forall j
      ensures !MarkerAt(comment, j)
    {
      if 0 <= j && j + 4 <= |comment| {
        assert comment[j..j + 4][3] == comment[j + 3] == 0x20;
      }
    }
    EmptyArchiveFits(d);
    hide PrintEnd, Locate, Locatable;
    LengthFieldMarks(EndOf(d));
    LocateOfPrinted([], d);
    assert [] + PrintEnd(EndOf(d)) == PrintEnd(EndOf(d));
  }

  lemma EmptyArchiveFits(d: Directory)
    requires d == Directory(0, 0, 0, d.comment) && |d.comment| < 65536
    ensures Locatable(d)
  {
    Widths();
    RecordSizes();
    assert forall i | 0 <= i < 8 :: Pow256(END_WIDTHS[i]) >= 65536;
    assert Pow256(END_WIDTHS[0]) == 4294967296;
  }

  lemma LengthFieldMarks(e: EndRecord)
    requires |e.comment| == 0x4B50 && e.comment[0] == 0x05 && e.comment[1] == 0x06
    ensures MarkerAt(PrintEnd(e), 20)
  {
    LengthFieldBytes(e);
    hide PrintEnd;
    var end := PrintEnd(e);
    assert 0x4B50 % 256 == 0x50 && 0x4B50 / 256 == 0x4B && Le(0x4B, 1) == [0x4B];
    assert end[20..22] == [0x50, 0x4B];
    assert end[22..][..2] == e.comment[..2] == [0x05, 0x06];
    assert end[20..24] == end[20..22] + end[22..][..2];
  }

  /** The last two bytes of the fixed record are the comment length. */
  lemma LengthFieldBytes(e: EndRecord)
    ensures |PrintEnd(e)| == END_SIZE + |e.comment|
    ensures PrintEnd(e)[20..22] == Le(|e.comment|, 2) && PrintEnd(e)[22..] == e.comment
  {
    RecordSizes();
    PrintedEndStarts(e);
    var a, b := Repeat(4, 1) + Repeat(2, 4) + Repeat(4, 2), Repeat(2, 1);
    PackOfConcat(a, b, EndFields(e)[..7], EndFields(e)[7..]);
    assert EndFields(e) == EndFields(e)[..7] + EndFields(e)[7..];
    SumOfConcat(a, b);
    assert Pack(b, EndFields(e)[7..]) == Le(|e.comment|, 2);
  }

  // ----- the central directory -----

  /** Every field of one central header. */
  datatype CentralHeader = CentralHeader(
    versionMade: nat, versionNeeded: nat, flags: nat, compression: nat, modTime: nat, modDate: nat,
    crc32: nat, compressedSize: nat, uncompressedSize: nat, diskStart: nat, internalAttr: nat,
    externalAttr: nat, headerOffset: nat, name: Bytes, extra: Bytes, comment: Bytes)

  /** What the hygiene tool keeps of it. */
  datatype CentralRecord = CentralRecord(
    versionNeeded: nat, flags: nat, compression: nat, modTime: nat, modDate: nat, crc32: nat,
    compressedSize: nat, uncompressedSize: nat, diskStart: nat, externalAttr: nat, headerOffset: nat,
    name: Bytes, extra: Bytes, comment: Bytes)

  function CentralFields(h: CentralHeader): seq<nat> {
    [CENTRAL_SIGNATURE, h.versionMade, h.versionNeeded, h.flags, h.compression, h.modTime, h.modDate,
     h.crc32, h.compressedSize, h.uncompressedSize, |h.name|, |h.extra|, |h.comment|, h.diskStart,
     h.internalAttr, h.externalAttr, h.headerOffset]
  }

  function Kept(h: CentralHeader): CentralRecord {
    CentralRecord(h.versionNeeded, h.flags, h.compression, h.modTime, h.modDate, h.crc32, h.compressedSize,
                  h.uncompressedSize, h.diskStart, h.externalAttr, h.headerOffset, h.name, h.extra, h.comment)
  }

  predicate CentralFits(h: CentralHeader) {
    RecordSizes();
    Fits(CENTRAL_WIDTHS, CentralFields(h))
  }

  function PrintCentral(h: CentralHeader): (r: Bytes)
    ensures |r| == CENTRAL_SIZE + |h.name| + |h.extra| + |h.comment|
  {
    RecordSizes();
    Pack(CENTRAL_WIDTHS, CentralFields(h)) + h.name + h.extra + h.comment
  }

  function PrintAllCentral(hs: seq<CentralHeader>): Bytes {
    if hs == [] then [] else PrintCentral(hs[0]) + PrintAllCentral(hs[1..])
  }

  function DecodeCentral(v: seq<nat>, variable: Bytes): CentralHeader
    requires |v| == 17 && v[10] + v[11] + v[12] == |variable|
  {
    CentralHeader(v[1], v[2], v[3], v[4], v[5], v[6], v[7], v[8], v[9], v[13], v[14], v[15], v[16],
                  variable[..v[10]], variable[v[10]..v[10] + v[11]], variable[v[10] + v[11]..])
  }

  lemma DecodeCentralInverts(v: seq<nat>, variable: Bytes)
    requires |v| == 17 && v[10] + v[11] + v[12] == |variable| && v[0] == CENTRAL_SIGNATURE
    ensures var h := DecodeCentral(v, variable);
            CentralFields(h) == v && h.name + h.extra + h.comment == variable
  {
  }

  lemma DecodeCentralOf(h: CentralHeader)
    ensures DecodeCentral(CentralFields(h), h.name + h.extra + h.comment) == h
  {
    var variable := h.name + h.extra + h.comment;
    assert variable[..|h.name|] == h.name;
    assert variable[|h.name|..|h.name| + |h.extra|] == h.extra;
    assert variable[|h.name| + |h.extra|..] == h.comment;
  }

  /** Read one header at a cursor: the header with its hidden fields. */
  function CentralAt(file: Bytes, fileSize: nat, cursor: nat, limit: nat): Outcome<CentralHeader> {
    match ReadAt(file, cursor, CENTRAL_SIZE, fileSize)
    case Bad(why) => Bad(why)
    case Ok(fixed) =>
      RecordSizes();
      var v := Unpack(CENTRAL_WIDTHS, fixed);
      if v[0] != CENTRAL_SIGNATURE then Bad(BadCentralSignature) else
      var size := v[10] + v[11] + v[12];
      match ReadAt(file, cursor + CENTRAL_SIZE, size, fileSize)
      case Bad(why) => Bad(why)
      case Ok(variable) =>
        if cursor + CENTRAL_SIZE + size > limit then Bad(BeyondDirectory) else Ok(DecodeCentral(v, variable))
  }

  /** The headers from a cursor up to the limit, which the last one must meet exactly. */
  function CentralFrom(file: Bytes, fileSize: nat, cursor: nat, limit: nat, count: nat): Outcome<seq<CentralHeader>>
    decreases count
  {
    if count == 0 then
      if cursor != limit then Bad(SizeMismatch) else Ok([])
    else
      match CentralAt(file, fileSize, cursor, limit)
      case Bad(why) => Bad(why)
      case Ok(h) =>
        match CentralFrom(file, fileSize, cursor + |PrintCentral(h)|, limit, count - 1)
        case Bad(why) => Bad(why)
        case Ok(rest) => Ok([h] + rest)
  }

  function KeptAll(hs: seq<CentralHeader>): (r: seq<CentralRecord>)
    ensures |r| == |hs| && forall i | 0 <= i < |hs| :: r[i] == Kept(hs[i])
  {
    seq(|hs|, i requires 0 <= i < |hs| => Kept(hs[i]))
  }

  function Prepend(hs: seq<CentralHeader>, r: Outcome<seq<CentralHeader>>): Outcome<seq<CentralHeader>> {
    match r
    case Bad(why) => Bad(why)
    case Ok(rest) => Ok(hs + rest)
  }

  /** parse_central_records: one pass with a moving cursor. */
  method ParseCentralRecords(file: Bytes, fileSize: nat, offset: nat, size: nat, count: nat)
    returns (r: Outcome<seq<CentralRecord>>)
    ensures match CentralFrom(file, fileSize, offset, offset + size, count)
            case Bad(why) => r == Bad(why)
            case Ok(hs) => r == Ok(KeptAll(hs))
  {
    hide CentralAt, PrintCentral;
    var records: seq<CentralRecord> := [];
    ghost var hs: seq<CentralHeader> := [];
    var cursor: nat, limit: nat := offset, offset + size;
    PrependNothing(CentralFrom(file, fileSize, cursor, limit, count));
    for k := 0 to count
      invariant records == KeptAll(hs)
      invariant CentralFrom(file, fileSize, offset, limit, count)
                == Prepend(hs, CentralFrom(file, fileSize, cursor, limit, count - k))
    {
      var one := CentralAt(file, fileSize, cursor, limit);
      if one.Bad? {
        return Bad(one.why);
      }
      records := records + [Kept(one.value)];
      cursor := cursor + |PrintCentral(one.value)|;
      PrependStep(hs, one.value, CentralFrom(file, fileSize, cursor, limit, count - k - 1));
      hs := hs + [one.value];
    }
    if cursor != limit {
      return Bad(SizeMismatch);
    }
    assert hs + [] == hs;
    r := Ok(records);
  }

  lemma PrependNothing(r: Outcome<seq<CentralHeader>>)
    ensures Prepend([], r) == r
  {
    if r.Ok? {
      assert [] + r.value == r.value;
    }
  }

  lemma PrependStep(hs: seq<CentralHeader>, h: CentralHeader, r: Outcome<seq<CentralHeader>>)
    ensures Prepend(hs, Prepend([h], r)) == Prepend(hs + [h], r)
  {
    if r.Ok? {
      assert hs + ([h] + r.value) == hs + [h] + r.value;
    }
  }

  /** A header read from a file fits its widths and prints to the bytes it was read from. */
  lemma CentralAtIsSound(file: Bytes, cursor: nat, limit: nat)
    requires CentralAt(file, |file|, cursor, limit).Ok?
    ensures var h := CentralAt(file, |file|, cursor, limit).value;
            && CentralFits(h)
            && cursor + |PrintCentral(h)| <= limit && cursor + |PrintCentral(h)| <= |file|
            && file[cursor..cursor + |PrintCentral(h)|] == PrintCentral(h)
  {
    hide Unpack, Pack, Sum, Repeat, DecodeCentral, CentralFields;
    RecordSizes();
    var h := CentralAt(file, |file|, cursor, limit).value;
    var fixed := file[cursor..cursor + CENTRAL_SIZE];
    var v := Unpack(CENTRAL_WIDTHS, fixed);
    PackOfUnpack(CENTRAL_WIDTHS, fixed);
    var size := v[10] + v[11] + v[12];
    var variable := file[cursor + CENTRAL_SIZE..cursor + CENTRAL_SIZE + size];
    DecodeCentralInverts(v, variable);
    assert file[cursor..cursor + CENTRAL_SIZE + size] == fixed + variable;
    assert PrintCentral(h) == fixed + (h.name + h.extra + h.comment);
  }

  /** The converse of printing: parsed records tile the directory range exactly. */
  lemma {:induction false} CentralIsSound(file: Bytes, cursor: nat, limit: nat, count: nat)
    requires CentralFrom(file, |file|, cursor, limit, count).Ok?
    ensures var hs := CentralFrom(file, |file|, cursor, limit, count).value;
            && |hs| == count && (forall h | h in hs :: CentralFits(h))
            && cursor + |PrintAllCentral(hs)| == limit
            && (limit <= |file| ==> file[cursor..limit] == PrintAllCentral(hs))
    decreases count
  {
    hide CentralAt, PrintCentral, CentralFits, PrintAllCentral;
    CentralNil(file, cursor, limit);
    if count > 0 {
      CentralAtIsSound(file, cursor, limit);
      var h := CentralAt(file, |file|, cursor, limit).value;
      var next := cursor + |PrintCentral(h)|;
      CentralIsSound(file, next, limit, count - 1);
      var rest := CentralFrom(file, |file|, next, limit, count - 1).value;
      PrintAllCons(h, rest);
      assert CentralFrom(file, |file|, cursor, limit, count).value == [h] + rest;
      assert limit <= |file| ==> file[cursor..limit] == file[cursor..next] + file[next..limit];
    }
  }

  lemma PrintAllCons(h: CentralHeader, rest: seq<CentralHeader>)
    ensures PrintAllCentral([h] + rest) == PrintCentral(h) + PrintAllCentral(rest)
  {
    assert ([h] + rest)[1..] == rest;
  }

  lemma CentralAtOfPrinted(file: Bytes, cursor: nat, limit: nat, h: CentralHeader)
    requires CentralFits(h) && cursor + |PrintCentral(h)| <= limit <= |file|
    requires file[cursor..cursor + |PrintCentral(h)|] == PrintCentral(h)
    ensures CentralAt(file, |file|, cursor, limit) == Ok(h)
  {
    hide Unpack, Pack, Sum, Repeat, DecodeCentral;
    RecordSizes();
    var printed := PrintCentral(h);
    var fixed := file[cursor..cursor + CENTRAL_SIZE];
    assert fixed == printed[..CENTRAL_SIZE] == Pack(CENTRAL_WIDTHS, CentralFields(h));
    UnpackOfPack(CENTRAL_WIDTHS, CentralFields(h));
    var size := |h.name| + |h.extra| + |h.comment|;
    var variable := file[cursor + CENTRAL_SIZE..cursor + CENTRAL_SIZE + size];
    assert variable == printed[CENTRAL_SIZE..] == h.name + h.extra + h.comment;
    DecodeCentralOf(h);
  }

  /** Parsing a printed central directory returns its headers. */
  lemma {:induction false} CentralOfPrinted(file: Bytes, cursor: nat, limit: nat, hs: seq<CentralHeader>)
    requires (forall h | h in hs :: CentralFits(h)) && cursor + |PrintAllCentral(hs)| == limit <= |file|
    requires file[cursor..limit] == PrintAllCentral(hs)
    ensures CentralFrom(file, |file|, cursor, limit, |hs|) == Ok(hs)
    decreases |hs|
  {
    hide CentralAt, CentralFrom, PrintCentral, CentralFits, PrintAllCentral;
    if hs == [] {
      CentralNil(file, cursor, limit);
    } else {
      var h, rest := hs[0], hs[1..];
      assert hs == [h] + rest && h in hs && forall g | g in rest :: g in hs;
      PrintAllCons(h, rest);
      var next := cursor + |PrintCentral(h)|;
      SliceOfConcat(file, cursor, PrintCentral(h), PrintAllCentral(rest));
      CentralAtOfPrinted(file, cursor, limit, h);
      CentralOfPrinted(file, next, limit, rest);
      CentralCons(file, cursor, limit, h, rest);
    }
  }

  lemma CentralNil(file: Bytes, cursor: nat, limit: nat)
    ensures PrintAllCentral([]) == []
    ensures CentralFrom(file, |file|, cursor, limit, 0) == if cursor == limit then Ok([]) else Bad(SizeMismatch)
  {
  }

  lemma CentralCons(file: Bytes, cursor: nat, limit: nat, h: CentralHeader, rest: seq<CentralHeader>)
    requires CentralAt(file, |file|, cursor, limit) == Ok(h)
    requires CentralFrom(file, |file|, cursor + |PrintCentral(h)|, limit, |rest|) == Ok(rest)
    ensures CentralFrom(file, |file|, cursor, limit, |rest| + 1) == Ok([h] + rest)
  {
    hide CentralAt, PrintCentral;
  }

  lemma SliceOfConcat(file: Bytes, at: nat, a: Bytes, b: Bytes)
    requires at + |a| + |b| <= |file| && file[at..at + |a| + |b|] == a + b
    ensures file[at..at + |a|] == a && file[at + |a|..at + |a| + |b|] == b
  {
    var whole := file[at..at + |a| + |b|];
    assert file[at..at + |a|] == whole[..|a|] && file[at + |a|..at + |a| + |b|] == whole[|a|..];
  }

  // ----- local headers -----

  datatype LocalHeader = LocalHeader(
    versionNeeded: nat, flags: nat, compression: nat, modTime: nat, modDate: nat, crc32: nat,
    compressedSize: nat, uncompressedSize: nat, name: Bytes, extra: Bytes)

  datatype LocalRecord = LocalRecord(header: LocalHeader, dataOffset: nat)

  function LocalFields(h: LocalHeader): seq<nat> {
    [LOCAL_SIGNATURE, h.versionNeeded, h.flags, h.compression, h.modTime, h.modDate, h.crc32,
     h.compressedSize, h.uncompressedSize, |h.name|, |h.extra|]
  }

  predicate LocalFits(h: LocalHeader) {
    RecordSizes();
    Fits(LOCAL_WIDTHS, LocalFields(h))
  }

  function PrintLocal(h: LocalHeader): (r: Bytes)
    ensures |r| == LOCAL_SIZE + |h.name| + |h.extra|
  {
    RecordSizes();
    Pack(LOCAL_WIDTHS, LocalFields(h)) + h.name + h.extra
  }

  function DecodeLocal(v: seq<nat>, variable: Bytes): LocalHeader
    requires |v| == 11 && v[9] + v[10] == |variable|
  {
    LocalHeader(v[1], v[2], v[3], v[4], v[5], v[6], v[7], v[8], variable[..v[9]], variable[v[9]..])
  }

  lemma DecodeLocalInverts(v: seq<nat>, variable: Bytes)
    requires |v| == 11 && v[9] + v[10] == |variable| && v[0] == LOCAL_SIGNATURE
    ensures var h := DecodeLocal(v, variable);
            LocalFields(h) == v && h.name + h.extra == variable
  {
  }

  lemma DecodeLocalOf(h: LocalHeader)
    ensures DecodeLocal(LocalFields(h), h.name + h.extra) == h
  {
    var variable := h.name + h.extra;
    assert variable[..|h.name|] == h.name && variable[|h.name|..] == h.extra;
  }

  function ParseLocal(file: Bytes, fileSize: nat, offset: nat, centralOffset: nat): Outcome<LocalRecord> {
    match ReadAt(file, offset, LOCAL_SIZE, fileSize)
    case Bad(why) => Bad(why)
    case Ok(fixed) =>
      RecordSizes();
      var v := Unpack(LOCAL_WIDTHS, fixed);
      if v[0] != LOCAL_SIGNATURE then Bad(BadLocalSignature) else
      var size := v[9] + v[10];
      match ReadAt(file, offset + LOCAL_SIZE, size, fileSize)
      case Bad(why) => Bad(why)
      case Ok(variable) =>
        var dataOffset := offset + LOCAL_SIZE + size;
        if dataOffset > centralOffset then Bad(OverlapsDirectory) else
        Ok(LocalRecord(DecodeLocal(v, variable), dataOffset))
  }

  /** A local header is read back exactly from where it was printed, and only from there. */
  lemma LocalRoundTrip(file: Bytes, offset: nat, centralOffset: nat, h: LocalHeader)
    requires centralOffset <= |file|
    ensures ParseLocal(file, |file|, offset, centralOffset) == Ok(LocalRecord(h, offset + |PrintLocal(h)|)) <==>
              && LocalFits(h)
              && offset + |PrintLocal(h)| <= centralOffset
              && file[offset..offset + |PrintLocal(h)|] == PrintLocal(h)
  {
    if ParseLocal(file, |file|, offset, centralOffset) == Ok(LocalRecord(h, offset + |PrintLocal(h)|)) {
      LocalIsSound(file, offset, centralOffset);
    }
    if LocalFits(h) && offset + |PrintLocal(h)| <= centralOffset
      && file[offset..offset + |PrintLocal(h)|] == PrintLocal(h) {
      LocalOfPrinted(file, offset, centralOffset, h);
    }
  }

  lemma LocalIsSound(file: Bytes, offset: nat, centralOffset: nat)
    requires ParseLocal(file, |file|, offset, centralOffset).Ok? && centralOffset <= |file|
    ensures var r := ParseLocal(file, |file|, offset, centralOffset).value;
            && LocalFits(r.header) && r.dataOffset == offset + |PrintLocal(r.header)| <= centralOffset
            && file[offset..r.dataOffset] == PrintLocal(r.header)
  {
    hide Unpack, Pack, Sum, Repeat, DecodeLocal, LocalFields;
    RecordSizes();
    var r := ParseLocal(file, |file|, offset, centralOffset).value;
    var fixed := file[offset..offset + LOCAL_SIZE];
    var v := Unpack(LOCAL_WIDTHS, fixed);
    PackOfUnpack(LOCAL_WIDTHS, fixed);
    var variable := file[offset + LOCAL_SIZE..offset + LOCAL_SIZE + (v[9] + v[10])];
    DecodeLocalInverts(v, variable);
    assert file[offset..r.dataOffset] == fixed + variable;
    assert PrintLocal(r.header) == fixed + (r.header.name + r.header.extra);
  }

  lemma LocalOfPrinted(file: Bytes, offset: nat, centralOffset: nat, h: LocalHeader)
    requires LocalFits(h) && offset + |PrintLocal(h)| <= centralOffset <= |file|
    requires file[offset..offset + |PrintLocal(h)|] == PrintLocal(h)
    ensures ParseLocal(file, |file|, offset, centralOffset) == Ok(LocalRecord(h, offset + |PrintLocal(h)|))
  {
    hide Unpack, Pack, Sum, Repeat, DecodeLocal;
    RecordSizes();
    var printed := PrintLocal(h);
    var fixed := file[offset..offset + LOCAL_SIZE];
    assert fixed == printed[..LOCAL_SIZE] == Pack(LOCAL_WIDTHS, LocalFields(h));
    UnpackOfPack(LOCAL_WIDTHS, LocalFields(h));
    var variable := file[offset + LOCAL_SIZE..offset + LOCAL_SIZE + (|h.name| + |h.extra|)];
    assert variable == printed[LOCAL_SIZE..] == h.name + h.extra;
    DecodeLocalOf(h);
  }

  // ----- the whole archive -----

  datatype Stored = Stored(header: LocalHeader, payload: Bytes)

  function PrintMember(m: Stored): Bytes {
    PrintLocal(m.header) + m.payload
  }

  function PrintStored(ms: seq<Stored>): Bytes {
    if ms == [] then [] else PrintMember(ms[0]) + PrintStored(ms[1..])
  }

  function OffsetOf(ms: seq<Stored>, k: nat): nat
    requires k <= |ms|
  {
    |PrintStored(ms[..k])|
  }

  function DirectoryOf(ms: seq<Stored>, hs: seq<CentralHeader>, comment: Bytes): Directory {
    Directory(|PrintStored(ms)|, |PrintAllCentral(hs)|, |hs|, comment)
  }

  function PrintArchive(ms: seq<Stored>, hs: seq<CentralHeader>, comment: Bytes): Bytes {
    PrintStored(ms) + PrintAllCentral(hs) + PrintEnd(EndOf(DirectoryOf(ms, hs, comment)))
  }

  lemma StoredCons(ms: seq<Stored>)
    requires ms != []
    ensures PrintStored(ms) == PrintMember(ms[0]) + PrintStored(ms[1..])
  {
  }

  lemma {:induction false} StoredConcat(a: seq<Stored>, b: seq<Stored>)
    ensures PrintStored(a + b) == PrintStored(a) + PrintStored(b)
  {
    if a == [] {
      assert a + b == b;
    } else {
      hide PrintMember, PrintStored;
      StoredConcat(a[1..], b);
      StoredCons(a);
      StoredCons(a + b);
      TailOfConcat(a, b);
      Regroup(PrintMember(a[0]), PrintStored(a[1..]), PrintStored(b));
    }
  }

  lemma StoredHead(ms: seq<Stored>)
    requires ms != []
    ensures PrintStored(ms) == PrintLocal(ms[0].header) + (ms[0].payload + PrintStored(ms[1..]))
  {
    hide PrintLocal;
  }

  lemma StoredSplits(ms: seq<Stored>, k: nat)
    requires k < |ms|
    ensures var rest := ms[k].payload + PrintStored(ms[k + 1..]);
            PrintStored(ms) == PrintStored(ms[..k]) + (PrintLocal(ms[k].header) + rest)
  {
    hide PrintLocal, PrintStored;
    var tail := ms[k..];
    StoredConcat(ms[..k], tail);
    StoredHead(tail);
    assert ms == ms[..k] + tail && tail[1..] == ms[k + 1..];
  }

  lemma MemberAt(ms: seq<Stored>, k: nat, behind: Bytes)
    requires k < |ms|
    ensures var at, h := OffsetOf(ms, k), ms[k].header;
            && at + |PrintLocal(h)| <= |PrintStored(ms)|
            && (PrintStored(ms) + behind)[at..at + |PrintLocal(h)|] == PrintLocal(h)
  {
    hide *;
    StoredSplits(ms, k);
    MiddleOf(PrintStored(ms[..k]), PrintLocal(ms[k].header), ms[k].payload + PrintStored(ms[k + 1..]), behind);
    OffsetIs(ms, k);
  }

  lemma OffsetIs(ms: seq<Stored>, k: nat)
    requires k <= |ms|
    ensures OffsetOf(ms, k) == |PrintStored(ms[..k])|
  {
    hide PrintStored;
  }

  lemma MiddleOf(a: Bytes, b: Bytes, c: Bytes, d: Bytes)
    ensures |a| + |b| <= |a + (b + c)|
    ensures (a + (b + c) + d)[|a|..|a| + |b|] == b
  {
  }

  /** Container round trip: from a printed archive the three parsers recover the directory,
      every central record and every local header, unless a marker hides in the end record. */
  lemma ArchiveRoundTrip(ms: seq<Stored>, hs: seq<CentralHeader>, comment: Bytes)
    requires (forall m | m in ms :: LocalFits(m.header)) && (forall h | h in hs :: CentralFits(h))
    requires Locatable(DirectoryOf(ms, hs, comment))
    requires forall j | 0 < j :: !MarkerAt(PrintEnd(EndOf(DirectoryOf(ms, hs, comment))), j)
    ensures var d, file := DirectoryOf(ms, hs, comment), PrintArchive(ms, hs, comment);
            && Locate(file, |file|) == Ok(d)
            && CentralFrom(file, |file|, d.offset, d.offset + d.size, d.count) == Ok(hs)
            && forall k | 0 <= k < |ms| ::
                 ParseLocal(file, |file|, OffsetOf(ms, k), d.offset)
                 == Ok(LocalRecord(ms[k].header, OffsetOf(ms, k) + |PrintLocal(ms[k].header)|))
  {
    hide PrintEnd, Locate, CentralAt, ParseLocal, PrintLocal, PrintCentral, LocalFits, CentralFits, Locatable;
    var d := DirectoryOf(ms, hs, comment);
    var body, central, end := PrintStored(ms), PrintAllCentral(hs), PrintEnd(EndOf(d));
    var file := PrintArchive(ms, hs, comment);
    LocateOfPrinted(body + central, d);
    assert file[d.offset..d.offset + d.size] == central;
    CentralOfPrinted(file, d.offset, d.offset + d.size, hs);
    forall k | 0 <= k < |ms|
      ensures ParseLocal(file, |file|, OffsetOf(ms, k), d.offset)
              == Ok(LocalRecord(ms[k].header, OffsetOf(ms, k) + |PrintLocal(ms[k].header)|))
    {
      assert ms[k] in ms;
      MemberAt(ms, k, central + end);
      assert file == body + (central + end);
      LocalRoundTrip(file, OffsetOf(ms, k), d.offset, ms[k].header);
    }
  }

  /** The converse: an archive whose directory is located and parsed consists of the bytes
      before the directory, exactly the printed records, and exactly the end record. */
  lemma ParsedArchiveTiles(file: Bytes, d: Directory, hs: seq<CentralHeader>)
    requires Locate(file, |file|) == Ok(d)
    requires CentralFrom(file, |file|, d.offset, d.offset + d.size, d.count) == Ok(hs)
    ensures d.offset <= |file| && file == file[..d.offset] + PrintAllCentral(hs) + PrintEnd(EndOf(d))
    ensures |hs| == d.count && d.size == |PrintAllCentral(hs)| && forall h | h in hs :: CentralFits(h)
  {
    hide Locate, CentralFrom, PrintEnd, PrintAllCentral, CentralFits, Locatable;
    LocateIsSound(file);
    CentralIsSound(file, d.offset, d.offset + d.size, d.count);
    assert file == file[..d.offset] + file[d.offset..d.offset + d.size] + file[d.offset + d.size..];
  }
}
