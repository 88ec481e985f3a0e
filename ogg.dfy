/** The Ogg page framer of analyzer/sink/ogg.c (RFC 3533): the page CRC, the
    27-octet page header and lacing table, and the split of a packet into
    pages. */
module Ogg {
  import opened Bytes
  import opened FileIo

  // ---------------------------------------------------------------------------
  // The page checksum: CRC-32 with generator polynomial 0x04C11DB7, fed most
  // significant bit first, initial value 0 and no final inversion (section 6
  // of RFC 3533).

  const Poly: bv32 := 0x04C1_1DB7

  /** One bit of polynomial division: shift out the top bit, and subtract
      (xor) the generator when that bit was set. */
  function BitStep(c: bv32): bv32
  {
    if c & 0x8000_0000 != 0 then (c << 1) ^ Poly else c << 1
  }

  function BitSteps(c: bv32, k: nat): bv32
    decreases k
  {
    if k == 0 then c else BitSteps(BitStep(c), k - 1)
  }

  /** The table entry for index i: i in the top octet of the register,
      divided by the generator eight bits. */
  function TableEntry(i: int): bv32
    requires 0 <= i < 0x100
  {
    BitSteps((i as bv32) << 24, 8)
  }

  /** The index into the table for one data octet:
      ((crc >> 24) & 0xFF) ^ data[i]. */
  function TableIndex(crc: bv32, b: byte): (r: int)
    ensures 0 <= r < 0x100
  {
    var hi := ((crc >> 24) & 0xFF) as int;
    XorOctets(hi, b as int)
  }

  /** Exclusive or of two octet values. */
  function XorOctets(a: int, b: int): (r: int)
    requires 0 <= a < 0x100 && 0 <= b < 0x100
    ensures 0 <= r < 0x100
  {
    ((a as bv8) ^ (b as bv8)) as int
  }

  /** The table-driven step of the C code: shift the register by one octet
      and xor in the table entry. */
  function CrcByte(crc: bv32, b: byte): bv32
  {
    (crc << 8) ^ TableEntry(TableIndex(crc, b))
  }

  /** The checksum register after feeding `data`, starting from `crc`. */
  function Crc(crc: bv32, data: seq<byte>): bv32
  {
    if data == [] then crc else CrcByte(Crc(crc, data[..|data| - 1]), data[|data| - 1])
  }

  /** Feeding a, then b, is feeding a + b: the checksum can be computed piece
      by piece, as ogg_write_page does. */
  lemma {:induction false} CrcAppend(crc: bv32, a: seq<byte>, b: seq<byte>)
    ensures Crc(crc, a + b) == Crc(Crc(crc, a), b)
    decreases |b|
  {
    if b == [] {
      assert a + b == a;
    } else {
      var b' := b[..|b| - 1];
      assert (a + b)[..|a + b| - 1] == a + b';
      CrcAppend(crc, a, b');
    }
  }

  /** One more octet of the prefix is one more table step. */
  lemma CrcPrefix(crc: bv32, data: seq<byte>, k: nat)
    requires k < |data|
    ensures Crc(crc, data[..k + 1]) == CrcByte(Crc(crc, data[..k]), data[k])
  {
    assert data[..k + 1][..k] == data[..k];
  }

  /** The first loop of crc32(): the 256-entry table, entry i being i
      divided by the generator. */
  method BuildTable() returns (table: array<bv32>)
    ensures fresh(table) && table.Length == 0x100
    ensures forall n :: 0 <= n < 0x100 ==> table[n] == TableEntry(n)
  {
    table := new bv32[0x100];
    var i := 0;
    while i < 0x100
      invariant 0 <= i <= 0x100
      invariant forall n :: 0 <= n < i ==> table[n] == TableEntry(n)
    {
      var c: bv32 := (i as bv32) << 24;
      var j := 8;
      while j > 0
        invariant 0 <= j <= 8
        invariant BitSteps(c, j) == TableEntry(i)
      {
        c := BitStep(c);
        j := j - 1;
      }
      table[i] := c;
      i := i + 1;
    }
  }

  /** crc32(): rebuilds the table, then folds the data into the register
      octet by octet. */
  method Crc32(data: seq<byte>, crc: bv32) returns (r: bv32)
    ensures r == Crc(crc, data)
  {
    var table := BuildTable();
    r := crc;
    var k := 0;
    while k < |data|
      invariant 0 <= k <= |data|
      invariant r == Crc(crc, data[..k])
      invariant forall n :: 0 <= n < 0x100 ==> table[n] == TableEntry(n)
    {
      CrcPrefix(crc, data, k);
      r := (r << 8) ^ table[TableIndex(r, data[k])];
      k := k + 1;
    }
    assert data[..|data|] == data;
  }

  // ---------------------------------------------------------------------------
  // Pages (section 6 of RFC 3533).

  /** "OggS", stored byte-swapped by cpu32_to_be so that it reads as text. */
  const PagePattern: nat := 0x4F67_6753
  const PageFixedSize: nat := 27
  /** The most payload one page carries: 255 lacing values of 255. */
  const MaxPayload: nat := 255 * 255

  type Payload = s: seq<byte> | |s| <= 255 * 255

  /** The header-type flags: continued packet, beginning and end of stream. */
  datatype PageFlags = PageFlags(cont: bool, bos: bool, eos: bool)

  const TypeCont: byte := 0x01
  const TypeBos: byte := 0x02
  const TypeEos: byte := 0x04

  /** The header-type byte: the or of the bits of the flags that are set. */
  function HeaderType(f: PageFlags): byte
  {
    (if f.cont then TypeCont else 0) + (if f.bos then TypeBos else 0) + (if f.eos then TypeEos else 0)
  }

  /** The flags a header-type byte carries. */
  function FlagsOf(b: byte): PageFlags
  {
    PageFlags(b as int % 2 == 1, b as int / 2 % 2 == 1, b as int / 4 % 2 == 1)
  }

  /** Every combination of flags has its own type byte, which reads back as it. */
  lemma FlagsRoundTrip(f: PageFlags)
    ensures FlagsOf(HeaderType(f)) == f
    ensures HeaderType(f) as int < 8
  {}

  /** segment_template: 255 lacing values of 255, a prefix of which describes
      the full segments. */
  function SegmentTemplate(): (r: seq<byte>)
    ensures |r| == 255 && forall i :: 0 <= i < 255 ==> r[i] == 255
  {
    seq(255, _ => 255)
  }

  function FullSegs(len: nat): nat { len / 255 }
  function PartSeg(len: nat): nat { len % 255 }

  /** The segment count stored in the header: full segments, plus one for a
      partial segment. */
  function SegmentCount(len: nat): nat
  {
    FullSegs(len) + (if PartSeg(len) != 0 then 1 else 0)
  }

  /** Whether the lacing value `len % 255` follows the full segments: when
      it is nonzero, or when there are full segments but fewer than 255. */
  predicate WritesPartSeg(len: nat)
  {
    PartSeg(len) != 0 || (FullSegs(len) != 0 && FullSegs(len) < 255)
  }

  /** The lacing table writes: the full segments (when there are any), then
      the partial segment value (when it is written). */
  function LacingWrites(len: nat): seq<seq<byte>>
    requires len <= MaxPayload
  {
    (if FullSegs(len) != 0 then [SegmentTemplate()[..FullSegs(len)]] else [])
      + (if WritesPartSeg(len) then [[PartSeg(len) as byte]] else [])
  }

  /** The lacing table that follows the header. */
  function Lacing(len: nat): seq<byte>
    requires len <= MaxPayload
  {
    SegmentTemplate()[..FullSegs(len)] + LacingTail(len)
  }

  /** The lacing value after the full segments, when one is written. */
  function LacingTail(len: nat): seq<byte>
  {
    if WritesPartSeg(len) then [PartSeg(len) as byte] else []
  }

  /** The 27-octet page header: capture pattern, version 0, header type, then
      granule position, stream serial number, page sequence number and
      checksum in little-endian order, then the segment count. */
  function PageHeader(pageType: byte, granule: i64, serial: u32, pageSeq: u32, cksum: u32, segments: byte): (r: seq<byte>)
    ensures |r| == PageFixedSize
  {
    BigEndian(PagePattern, 4) + [0, pageType] + LittleEndian(Unsigned64(granule), 8)
      + LittleEndian(serial, 4) + LittleEndian(pageSeq, 4) + LittleEndian(cksum, 4) + [segments as byte]
  }

  /** The checksum stored in a page: the CRC of the header with a zero
      checksum field, the lacing table and the payload. */
  function PageChecksum(pageType: byte, granule: i64, serial: u32, pageSeq: u32, buf: Payload): u32
  {
    CrcValue(Crc(0, ZeroedHeader(pageType, granule, serial, pageSeq, buf) + (Lacing(|buf|) + buf)))
  }

  /** The segment count as the header's octet. */
  function SegmentsByte(len: nat): byte
    requires len <= MaxPayload
  {
    SegmentCount(len) as byte
  }

  /** The header the checksum is computed over: checksum field zero. */
  function ZeroedHeader(pageType: byte, granule: i64, serial: u32, pageSeq: u32, buf: Payload): seq<byte>
  {
    PageHeader(pageType, granule, serial, pageSeq, 0, SegmentsByte(|buf|))
  }

  /** The checksum register as the `uint32_t` stored in the header. */
  function CrcValue(c: bv32): u32
  {
    c as int
  }

  /** The header as written: segment count and checksum filled in. */
  function StoredHeader(pageType: byte, granule: i64, serial: u32, pageSeq: u32, buf: Payload): seq<byte>
  {
    PageHeader(pageType, granule, serial, pageSeq, PageChecksum(pageType, granule, serial, pageSeq, buf),
      SegmentsByte(|buf|))
  }

  /** The writes ogg_write_page issues, in order: header, lacing table, payload. */
  function PageWrites(pageType: byte, granule: i64, serial: u32, pageSeq: u32, buf: Payload): seq<seq<byte>>
  {
    [StoredHeader(pageType, granule, serial, pageSeq, buf)] + LacingWrites(|buf|) + [buf]
  }

  /** The page as octets. */
  function Page(pageType: byte, granule: i64, serial: u32, pageSeq: u32, buf: Payload): seq<byte>
  {
    StoredHeader(pageType, granule, serial, pageSeq, buf) + (Lacing(|buf|) + buf)
  }

  /** The sum of lacing values. */
  function Sum(s: seq<byte>): nat
  {
    if s == [] then 0 else Sum(s[..|s| - 1]) + s[|s| - 1] as nat
  }

  lemma {:induction false} SumFull(n: nat)
    requires n <= 255
    ensures Sum(SegmentTemplate()[..n]) == 255 * n
  {
    if n > 0 {
      assert SegmentTemplate()[..n][..n - 1] == SegmentTemplate()[..n - 1];
      SumFull(n - 1);
    }
  }

  /** The lacing table: len / 255 values of 255, then the value len % 255
      exactly when WritesPartSeg holds. A full page of 65025 octets gets 255
      values of 255 and no terminating value. */
  lemma LacingShape(len: nat)
    requires len <= MaxPayload
    ensures |Lacing(len)| == FullSegs(len) + (if WritesPartSeg(len) then 1 else 0)
    ensures forall i :: 0 <= i < FullSegs(len) ==> Lacing(len)[i] == 255
    ensures WritesPartSeg(len) ==> Lacing(len)[FullSegs(len)] as int == len % 255
    ensures len == MaxPayload ==> Lacing(len) == SegmentTemplate()
  {}

  /** The lacing values add up to the payload length. */
  lemma LacingSum(len: nat)
    requires len <= MaxPayload
    ensures Sum(Lacing(len)) == len
  {
    var full := SegmentTemplate()[..FullSegs(len)];
    SumFull(FullSegs(len));
    if WritesPartSeg(len) {
      assert Lacing(len)[..|Lacing(len)| - 1] == full;
    } else {
      assert Lacing(len) == full;
    }
  }

  /** The header's segment count leaves out one written lacing value exactly
      when the payload is a nonzero multiple of 255 shorter than a full page:
      that value is the terminating 0, which is written and checksummed but
      not counted. */
  lemma SegmentCountQuirk(len: nat)
    requires len <= MaxPayload
    ensures SegmentCount(len) < 0x100
    ensures |Lacing(len)| == SegmentCount(len) + (if 0 < len < MaxPayload && len % 255 == 0 then 1 else 0)
  {
    LacingShape(len);
  }

  /** The lacing writes carry exactly the lacing table. */
  lemma LacingWritesConcat(len: nat)
    requires len <= MaxPayload
    ensures Concat(LacingWrites(len)) == Lacing(len)
  {
    var full := if FullSegs(len) != 0 then [SegmentTemplate()[..FullSegs(len)]] else [];
    var tail := if WritesPartSeg(len) then [[PartSeg(len) as byte]] else [];
    ConcatAppend(full, tail);
  }

  /** The capture pattern, written most significant octet first, spells "OggS". */
  lemma PatternIsOggS()
    ensures BigEndian(PagePattern, 4) == Ascii("OggS")
  {
    assert ByteOf(PagePattern, 3) == 0x4F;
    assert ByteOf(PagePattern, 2) == 0x67;
    assert ByteOf(PagePattern, 1) == 0x67;
    assert ByteOf(PagePattern, 0) == 0x53;
  }

  /** Every header field reads back from its place in the 27 octets. */
  lemma HeaderFields(pageType: byte, granule: i64, serial: u32, pageSeq: u32, cksum: u32, segments: byte)
    ensures var h := PageHeader(pageType, granule, serial, pageSeq, cksum, segments);
      && h[..4] == Ascii("OggS") && h[4] == 0 && h[5] == pageType
      && FromLittleEndian(h[6..14]) == Unsigned64(granule)
      && FromLittleEndian(h[14..18]) == serial
      && FromLittleEndian(h[18..22]) == pageSeq
      && FromLittleEndian(h[22..26]) == cksum
      && h[26] == segments
  {
    var h := PageHeader(pageType, granule, serial, pageSeq, cksum, segments);
    PatternIsOggS();
    Pow256Values();
    assert h[6..14] == LittleEndian(Unsigned64(granule), 8);
    assert h[14..18] == LittleEndian(serial, 4);
    assert h[18..22] == LittleEndian(pageSeq, 4);
    assert h[22..26] == LittleEndian(cksum, 4);
    LittleEndianRoundTrip(Unsigned64(granule), 8);
    LittleEndianRoundTrip(serial, 4);
    LittleEndianRoundTrip(pageSeq, 4);
    LittleEndianRoundTrip(cksum, 4);
  }

  lemma CksumField(pageType: byte, granule: i64, serial: u32, pageSeq: u32, cksum: u32, segments: byte)
    ensures FromLittleEndian(PageHeader(pageType, granule, serial, pageSeq, cksum, segments)[22..26]) == cksum
  {
    var h := PageHeader(pageType, granule, serial, pageSeq, cksum, segments);
    assert h[22..26] == LittleEndian(cksum, 4);
    Pow256Values();
    LittleEndianRoundTrip(cksum, 4);
  }

  /** Octets that start with a page header, with the checksum field set to
      zero. */
  function Zeroed(p: seq<byte>): (r: seq<byte>)
    requires |p| >= PageFixedSize
    ensures |r| == |p|
  {
    p[..22] + [0, 0, 0, 0] + p[26..]
  }

  /** Zeroing the checksum field of a header gives the header built with a
      zero checksum. */
  lemma HeaderZeroed(pageType: byte, granule: i64, serial: u32, pageSeq: u32, cksum: u32, segments: byte)
    ensures Zeroed(PageHeader(pageType, granule, serial, pageSeq, cksum, segments))
         == PageHeader(pageType, granule, serial, pageSeq, 0, segments)
  {
    assert ByteOf(0, 0) == ByteOf(0, 1) == ByteOf(0, 2) == ByteOf(0, 3) == 0;
    assert LittleEndian(0, 4) == [0, 0, 0, 0];
  }

  lemma ZeroField(h: seq<byte>, rest: seq<byte>)
    requires |h| == PageFixedSize
    ensures Zeroed(h + rest) == Zeroed(h) + rest
    ensures (h + rest)[22..26] == h[22..26]
  {
    assert (h + rest)[..22] == h[..22];
    assert (h + rest)[26..] == h[26..] + rest;
  }

  /** A written page with its checksum field zeroed is the octets the
      checksum was computed over. */
  lemma ZeroedPage(pageType: byte, granule: i64, serial: u32, pageSeq: u32, buf: Payload)
    ensures Zeroed(Page(pageType, granule, serial, pageSeq, buf))
         == ZeroedHeader(pageType, granule, serial, pageSeq, buf) + (Lacing(|buf|) + buf)
  {
    HeaderZeroed(pageType, granule, serial, pageSeq, PageChecksum(pageType, granule, serial, pageSeq, buf), SegmentsByte(|buf|));
    ZeroField(StoredHeader(pageType, granule, serial, pageSeq, buf), Lacing(|buf|) + buf);
  }

  /** The checksum field of a written page holds PageChecksum. */
  lemma StoredChecksum(pageType: byte, granule: i64, serial: u32, pageSeq: u32, buf: Payload)
    ensures var p := Page(pageType, granule, serial, pageSeq, buf);
      FromLittleEndian(p[22..26]) == PageChecksum(pageType, granule, serial, pageSeq, buf)
  {
    var cksum := PageChecksum(pageType, granule, serial, pageSeq, buf);
    var h := PageHeader(pageType, granule, serial, pageSeq, cksum, SegmentsByte(|buf|));
    CksumField(pageType, granule, serial, pageSeq, cksum, SegmentsByte(|buf|));
    assert Page(pageType, granule, serial, pageSeq, buf)[22..26] == h[22..26];
  }

  /** The checksum field of a written page holds the CRC of the whole page
      taken with that field set to zero, which is how a reader checks it. */
  lemma PageChecksumHolds(pageType: byte, granule: i64, serial: u32, pageSeq: u32, buf: Payload)
    ensures var p := Page(pageType, granule, serial, pageSeq, buf);
      FromLittleEndian(p[22..26]) == CrcValue(Crc(0, Zeroed(p)))
  {
    ZeroedPage(pageType, granule, serial, pageSeq, buf);
    StoredChecksum(pageType, granule, serial, pageSeq, buf);
  }

  /** Feeding the lacing table is feeding the full-segment values, then the
      partial value when it is written. */
  lemma LacingCrc(crc: bv32, len: nat)
    requires len <= MaxPayload
    ensures Crc(crc, Lacing(len)) == Crc(Crc(crc, SegmentTemplate()[..FullSegs(len)]), LacingTail(len))
  {
    CrcAppend(crc, SegmentTemplate()[..FullSegs(len)], LacingTail(len));
  }

  /** The page checksum is the register after the header, then the lacing
      table, then the payload. */
  lemma PageCrcPieces(h: seq<byte>, lacing: seq<byte>, buf: seq<byte>)
    ensures Crc(0, h + (lacing + buf)) == Crc(Crc(Crc(0, h), lacing), buf)
  {
    CrcAppend(0, h, lacing + buf);
    CrcAppend(Crc(0, h), lacing, buf);
  }

  /** The checksum section of ogg_write_page: the register is fed the header
      with a zero checksum, the full-segment lacing values, the partial value
      when it is written, and the payload. */
  method ComputeChecksum(pageType: byte, granule: i64, serial: u32, pageSeq: u32, buf: seq<byte>)
    returns (cksum: u32)
    requires |buf| <= MaxPayload
    ensures cksum == PageChecksum(pageType, granule, serial, pageSeq, buf)
  {
    var fullsegs := |buf| / 255;
    var partseg := |buf| % 255;
    var segments := fullsegs + (if partseg != 0 then 1 else 0);
    var header := PageHeader(pageType, granule, serial, pageSeq, 0, segments as byte);
    assert header == ZeroedHeader(pageType, granule, serial, pageSeq, buf);

    var crc := Crc32(header, 0);
    ghost var c0 := crc;
    crc := Crc32(SegmentTemplate()[..fullsegs], crc);
    if partseg != 0 || (fullsegs != 0 && fullsegs < 255) {
      crc := Crc32([partseg as byte], crc);
    }
    assert crc == Crc(Crc(c0, SegmentTemplate()[..fullsegs]), LacingTail(|buf|));
    LacingCrc(c0, |buf|);
    crc := Crc32(buf, crc);
    PageCrcPieces(header, Lacing(|buf|), buf);
    cksum := CrcValue(crc);
  }

  /** The write section of ogg_write_page: the header, the full-segment
      lacing values when there are any, the partial value when it is
      written, then the payload, returning the first nonzero result. */
  method WriteFramed(fd: Fd, header: seq<byte>, buf: seq<byte>) returns (ret: int)
    requires |buf| <= MaxPayload && fd.isOpen
    modifies fd
    ensures (fd.Log(), ret) == Issue(old(fd.Log()), [header] + LacingWrites(|buf|) + [buf])
    ensures fd.isOpen == old(fd.isOpen) && fd.linked == old(fd.linked)
  {
    var fullsegs := |buf| / 255;
    var partseg := |buf| % 255;
    ghost var start := fd.Log();
    ghost var rest := [header] + LacingWrites(|buf|) + [buf];
    ret := fd.XWrite(header);
    if ret != 0 {
      return;
    }
    assert Issue(start, rest) == Issue(fd.Log(), rest[1..]);
    rest := rest[1..];
    assert rest == LacingWrites(|buf|) + [buf];
    if fullsegs != 0 {
      ghost var before := fd.Log();
      assert rest[0] == SegmentTemplate()[..fullsegs];
      ret := fd.XWrite(SegmentTemplate()[..fullsegs]);
      if ret != 0 {
        return;
      }
      assert Issue(before, rest) == Issue(fd.Log(), rest[1..]);
      rest := rest[1..];
    }
    assert rest == (if WritesPartSeg(|buf|) then [[partseg as byte]] else []) + [buf];
    if partseg != 0 || (fullsegs != 0 && fullsegs < 255) {
      ghost var before := fd.Log();
      assert rest[0] == [partseg as byte];
      ret := fd.XWrite([partseg as byte]);
      if ret != 0 {
        return;
      }
      assert Issue(before, rest) == Issue(fd.Log(), rest[1..]);
      rest := rest[1..];
    }
    assert rest == [buf];
    ghost var before := fd.Log();
    ret := fd.XWrite(buf);
    assert Issue(before, rest) == (fd.Log(), ret);
  }

  /** ogg_write_page: fills in the header with the page checksum, then issues
      the writes of PageWrites in order, stopping at the first that fails.
      The C code aborts when the payload exceeds 255 * 255 octets. */
  method WritePage(fd: Fd, pageType: byte, granule: i64, serial: u32, pageSeq: u32, buf: seq<byte>)
    returns (ret: int)
    requires |buf| <= MaxPayload && fd.isOpen
    modifies fd
    ensures (fd.Log(), ret) == Issue(old(fd.Log()), PageWrites(pageType, granule, serial, pageSeq, buf))
    ensures fd.isOpen == old(fd.isOpen) && fd.linked == old(fd.linked)
  {
    var segments := |buf| / 255 + (if |buf| % 255 != 0 then 1 else 0);
    var cksum := ComputeChecksum(pageType, granule, serial, pageSeq, buf);
    var header := PageHeader(pageType, granule, serial, pageSeq, cksum, segments as byte);
    ret := WriteFramed(fd, header, buf);
  }

  /** The framed writes of a header and a payload put the header, the lacing
      table and the payload in the file. */
  lemma FramedConcat(h: seq<byte>, buf: seq<byte>)
    requires |buf| <= MaxPayload
    ensures Concat([h] + LacingWrites(|buf|) + [buf]) == h + (Lacing(|buf|) + buf)
  {
    ConcatAppend([h] + LacingWrites(|buf|), [buf]);
    ConcatAppend([h], LacingWrites(|buf|));
    LacingWritesConcat(|buf|);
    assert Concat([buf]) == buf + Concat([]);
    assert Concat([h]) == h + Concat([]);
  }

  /** Together, the writes of ogg_write_page are the page's octets. */
  lemma PageWritesConcat(pageType: byte, granule: i64, serial: u32, pageSeq: u32, buf: Payload)
    ensures Concat(PageWrites(pageType, granule, serial, pageSeq, buf)) == Page(pageType, granule, serial, pageSeq, buf)
  {
    FramedConcat(StoredHeader(pageType, granule, serial, pageSeq, buf), buf);
  }

  // ---------------------------------------------------------------------------
  // Packets: ogg_write_packet.

  /** The `what` argument of ogg_write_packet: OGG_START and OGG_END. */
  datatype What = What(start: bool, end: bool)

  /** The flags of a packet's first page: BOS for START, EOS for END. */
  function FirstFlags(what: What): PageFlags
  {
    PageFlags(false, what.start, what.end)
  }

  /** One page of a packet, before it is framed. */
  datatype PageRec = PageRec(flags: PageFlags, granule: i64, serial: u32, pageSeq: u32, payload: Payload)

  /** MIN(255 * 255, len). */
  function ChunkLen(len: nat): (r: nat)
    ensures r <= len && r <= MaxPayload
    ensures r == len || r == MaxPayload
  {
    if len < MaxPayload then len else MaxPayload
  }

  /** The pages ogg_write_packet writes for the rest of a packet, starting
      with `flags`: a page per chunk of at most 255 * 255 octets, and one page
      even for an empty packet; every page after the first adds CONT. */
  function Pages(flags: PageFlags, granule: i64, serial: u32, pageSeq: u32, buf: seq<byte>): seq<PageRec>
    decreases |buf|
  {
    var n := ChunkLen(|buf|);
    [PageRec(flags, granule, serial, pageSeq, buf[..n])]
      + (if n == |buf| then [] else Pages(flags.(cont := true), granule, serial, pageSeq, buf[n..]))
  }

  /** The pages of a whole packet. */
  function PacketPages(what: What, granule: i64, serial: u32, pageSeq: u32, buf: seq<byte>): seq<PageRec>
  {
    Pages(FirstFlags(what), granule, serial, pageSeq, buf)
  }

  function RecWrites(p: PageRec): seq<seq<byte>>
  {
    PageWrites(HeaderType(p.flags), p.granule, p.serial, p.pageSeq, p.payload)
  }

  function RecPage(p: PageRec): seq<byte>
  {
    Page(HeaderType(p.flags), p.granule, p.serial, p.pageSeq, p.payload)
  }

  /** The xwrite calls for a run of pages, page after page. */
  function WritesOf(pages: seq<PageRec>): seq<seq<byte>>
  {
    if pages == [] then [] else RecWrites(pages[0]) + WritesOf(pages[1..])
  }

  /** The octets of a run of pages. */
  function Stream(pages: seq<PageRec>): seq<byte>
  {
    if pages == [] then [] else RecPage(pages[0]) + Stream(pages[1..])
  }

  /** The payloads of a run of pages, joined. */
  function Payloads(pages: seq<PageRec>): seq<byte>
  {
    if pages == [] then [] else pages[0].payload + Payloads(pages[1..])
  }

  /** ogg_write_packet: writes the pages of the packet in order and returns
      the error of the first page that fails, with nothing written after it,
      or 0. */
  method WritePacket(fd: Fd, what: What, granule: i64, serial: u32, pageSeq: u32, buf: seq<byte>)
    returns (ret: int)
    requires fd.isOpen
    modifies fd
    ensures (fd.Log(), ret) == Issue(old(fd.Log()), WritesOf(PacketPages(what, granule, serial, pageSeq, buf)))
    ensures fd.isOpen == old(fd.isOpen) && fd.linked == old(fd.linked)
  {
    var flags := FirstFlags(what);
    var rest := buf;
    ghost var total := Issue(fd.Log(), WritesOf(Pages(flags, granule, serial, pageSeq, rest)));
    while true
      invariant total == Issue(fd.Log(), WritesOf(Pages(flags, granule, serial, pageSeq, rest)))
      invariant fd.isOpen == old(fd.isOpen) && fd.linked == old(fd.linked)
      decreases |rest|
    {
      var thisLen := ChunkLen(|rest|);
      var chunk := rest[..thisLen];
      ghost var before := fd.Log();
      ghost var tail := if thisLen == |rest| then [] else Pages(flags.(cont := true), granule, serial, pageSeq, rest[thisLen..]);
      assert Pages(flags, granule, serial, pageSeq, rest) == [PageRec(flags, granule, serial, pageSeq, chunk)] + tail;
      WritesOfCons(PageRec(flags, granule, serial, pageSeq, chunk), tail);
      IssueAppend(before, PageWrites(HeaderType(flags), granule, serial, pageSeq, chunk), WritesOf(tail));
      ret := WritePage(fd, HeaderType(flags), granule, serial, pageSeq, chunk);
      if ret != 0 {
        return;
      }
      rest := rest[thisLen..];
      flags := flags.(cont := true);
      if rest == [] {
        assert tail == [];
        return;
      }
    }
  }

  lemma WritesOfCons(p: PageRec, pages: seq<PageRec>)
    ensures WritesOf([p] + pages) == RecWrites(p) + WritesOf(pages)
  {
    assert ([p] + pages)[1..] == pages;
  }

  /** The first page of the pages for `buf`, and the pages after it. */
  lemma PagesSplit(flags: PageFlags, granule: i64, serial: u32, pageSeq: u32, buf: seq<byte>)
    ensures var pages := Pages(flags, granule, serial, pageSeq, buf);
      var n := ChunkLen(|buf|);
      pages[0] == PageRec(flags, granule, serial, pageSeq, buf[..n])
      && pages[1..] == (if n == |buf| then [] else Pages(flags.(cont := true), granule, serial, pageSeq, buf[n..]))
  {
  }

  /** The chunks ogg_write_packet cuts, joined in order, are the packet. */
  lemma {:induction false} PagesPayloads(flags: PageFlags, granule: i64, serial: u32, pageSeq: u32, buf: seq<byte>)
    ensures Payloads(Pages(flags, granule, serial, pageSeq, buf)) == buf
    decreases |buf|
  {
    var pages := Pages(flags, granule, serial, pageSeq, buf);
    var n := ChunkLen(|buf|);
    PagesSplit(flags, granule, serial, pageSeq, buf);
    if n == |buf| {
      assert Payloads(pages) == buf[..n] + Payloads([]);
    } else {
      PagesPayloads(flags.(cont := true), granule, serial, pageSeq, buf[n..]);
      assert Payloads(pages) == buf[..n] + buf[n..];
    }
  }

  /** At least one page is written, even for an empty packet, and there are
      as many pages as chunks of 255 * 255 octets. */
  lemma {:induction false} PagesCount(flags: PageFlags, granule: i64, serial: u32, pageSeq: u32, buf: seq<byte>)
    ensures |Pages(flags, granule, serial, pageSeq, buf)| == (if buf == [] then 1 else (|buf| - 1) / MaxPayload + 1)
    decreases |buf|
  {
    var n := ChunkLen(|buf|);
    PagesSplit(flags, granule, serial, pageSeq, buf);
    if n != |buf| {
      var rest := buf[n..];
      PagesCount(flags.(cont := true), granule, serial, pageSeq, rest);
      assert |buf| - 1 == (|rest| - 1) + MaxPayload;
    }
  }

  /** Every page but the last carries 255 * 255 octets, and the last is
      empty only when the packet is. */
  lemma {:induction false} PagesSizes(flags: PageFlags, granule: i64, serial: u32, pageSeq: u32, buf: seq<byte>)
    ensures var pages := Pages(flags, granule, serial, pageSeq, buf);
      (forall i :: 0 <= i < |pages| - 1 ==> |pages[i].payload| == MaxPayload)
      && (|pages[|pages| - 1].payload| == 0 <==> buf == [])
    decreases |buf|
  {
    var n := ChunkLen(|buf|);
    var first := PageRec(flags, granule, serial, pageSeq, buf[..n]);
    if n != |buf| {
      var tail := Pages(flags.(cont := true), granule, serial, pageSeq, buf[n..]);
      PagesSizes(flags.(cont := true), granule, serial, pageSeq, buf[n..]);
      var pages := [first] + tail;
      assert Pages(flags, granule, serial, pageSeq, buf) == pages;
      assert pages[|pages| - 1] == tail[|tail| - 1];
      forall i | 1 <= i < |pages| - 1
        ensures |pages[i].payload| == MaxPayload
      {
        assert pages[i] == tail[i - 1];
      }
    }
  }

  /** Every page of a packet carries its granule, serial and sequence
      number; the first page has the packet's flags and the later ones add
      CONT. */
  lemma {:induction false} PagesHeaders(flags: PageFlags, granule: i64, serial: u32, pageSeq: u32, buf: seq<byte>)
    ensures var pages := Pages(flags, granule, serial, pageSeq, buf);
      pages[0].flags == flags
      && (forall i :: 0 < i < |pages| ==> pages[i].flags == flags.(cont := true))
      && (forall i :: 0 <= i < |pages| ==>
            pages[i].granule == granule && pages[i].serial == serial && pages[i].pageSeq == pageSeq)
    decreases |buf|
  {
    var pages := Pages(flags, granule, serial, pageSeq, buf);
    var n := ChunkLen(|buf|);
    PagesSplit(flags, granule, serial, pageSeq, buf);
    if n != |buf| {
      PagesHeaders(flags.(cont := true), granule, serial, pageSeq, buf[n..]);
      assert forall i :: 1 <= i < |pages| ==> pages[i] == pages[1..][i - 1];
    }
  }

  /** The type byte of page i of a packet: BOS exactly when the packet is
      START and EOS exactly when it is END, on every page, and CONT on every
      page but the first. */
  lemma PacketTypeBytes(what: What, granule: i64, serial: u32, pageSeq: u32, buf: seq<byte>)
    ensures var pages := PacketPages(what, granule, serial, pageSeq, buf);
      forall i :: 0 <= i < |pages| ==> FlagsOf(HeaderType(pages[i].flags)) == PageFlags(i > 0, what.start, what.end)
  {
    var pages := PacketPages(what, granule, serial, pageSeq, buf);
    PagesHeaders(FirstFlags(what), granule, serial, pageSeq, buf);
    forall i | 0 <= i < |pages|
      ensures FlagsOf(HeaderType(pages[i].flags)) == PageFlags(i > 0, what.start, what.end)
    {
      FlagsRoundTrip(pages[i].flags);
    }
  }

  /** The writes of a run of pages put exactly the pages' octets in the file. */
  lemma {:induction false} WritesOfConcat(pages: seq<PageRec>)
    ensures Concat(WritesOf(pages)) == Stream(pages)
  {
    if pages != [] {
      var p := pages[0];
      ConcatAppend(RecWrites(p), WritesOf(pages[1..]));
      PageWritesConcat(HeaderType(p.flags), p.granule, p.serial, p.pageSeq, p.payload);
      WritesOfConcat(pages[1..]);
    }
  }

  /** On a file whose next writes do not fail, ogg_write_packet returns 0 and
      appends the packet's pages. */
  lemma PacketWritten(f: FileLog, what: What, granule: i64, serial: u32, pageSeq: u32, buf: seq<byte>)
    requires forall i :: 0 <= i < |f.pending| ==> !f.pending[i].Error?
    ensures var (g, ret) := Issue(f, WritesOf(PacketPages(what, granule, serial, pageSeq, buf)));
      ret == 0 && g.contents == f.contents + Stream(PacketPages(what, granule, serial, pageSeq, buf))
  {
    var pages := PacketPages(what, granule, serial, pageSeq, buf);
    IssueNoErrors(f, WritesOf(pages));
    WritesOfConcat(pages);
  }
}
