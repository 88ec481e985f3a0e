/** The capture sink of analyzer/sink.c: a data file that receives the raw
    samples, and an optional metadata file that receives Ogg packets holding
    CBOR maps (a global packet and a header when the sink opens, an update per
    write, a footer when it closes). */
module CaptureSink {
  import opened Bytes
  import opened FileIo
  import Cbor
  import Ogg

  // ---------------------------------------------------------------------------
  // The packets' CBOR payloads.

  /** META_VERSION. */
  const MetaVersion: u64 := 0
  /** The size of the local `uint8_t buf[512]` every packet is built in. */
  const PacketBufferSize: nat := 512
  /** The longest SUSCAN_VERSION_STRING for which the global packet fits its
      buffer (see GlobalFits). */
  const MaxVersion: nat := 468
  /** sizeof(SUCOMPLEX): one complex sample of two 32-bit floats ("cf32"). */
  const SampleSize: nat := 8

  /** The keys and string values of the packets, as their octets. */
  const KeyTs: seq<byte> := [0x74, 0x73]                                           // "ts"
  const KeyVersion: seq<byte> := [0x76, 0x65, 0x72, 0x73, 0x69, 0x6F, 0x6E]        // "version"
  const KeyGenerator: seq<byte> := [0x67, 0x65, 0x6E, 0x65, 0x72, 0x61, 0x74, 0x6F, 0x72] // "generator"
  const KeyIq: seq<byte> := [0x69, 0x71]                                           // "iq"
  const KeyUniq: seq<byte> := [0x75, 0x6E, 0x69, 0x71]                             // "uniq"
  const KeyFmt: seq<byte> := [0x66, 0x6D, 0x74]                                     // "fmt"
  const ValueCf32: seq<byte> := [0x63, 0x66, 0x33, 0x32]                           // "cf32"
  const KeySamples: seq<byte> := [0x73, 0x61, 0x6D, 0x70, 0x6C, 0x65, 0x73]        // "samples"
  const GeneratorPrefix: seq<byte> := [0x73, 0x75, 0x73, 0x63, 0x61, 0x6E, 0x20, 0x76] // "suscan v"

  /** The octets above spell the C code's string literals. */
  lemma KeysSpell()
    ensures KeyTs == Ascii("ts") && KeyVersion == Ascii("version") && KeyGenerator == Ascii("generator")
    ensures KeyIq == Ascii("iq") && KeyUniq == Ascii("uniq") && KeyFmt == Ascii("fmt")
    ensures ValueCf32 == Ascii("cf32") && KeySamples == Ascii("samples") && GeneratorPrefix == Ascii("suscan v")
  {
  }

  /** The generator string "suscan v" SUSCAN_VERSION_STRING. */
  function Generator(version: seq<byte>): (r: Cbor.Str)
    requires |version| <= MaxVersion
    ensures |r| == |GeneratorPrefix| + |version| && Cbor.HeadSize(|r|) <= 3
    ensures NoNul(version) ==> NoNul(r)
  {
    GeneratorPrefix + version
  }

  /** The fields prepare_cbor_buf puts first: a map start, then "ts". */
  function Prologue(ts: u64): (r: seq<Cbor.Token>)
    ensures |r| == 3
  {
    [Cbor.MapStart, Cbor.Text(KeyTs), Cbor.Uint(ts)]
  }

  /** write_global_meta's map: version and generator. */
  function GlobalTokens(ts: u64, version: seq<byte>): (r: seq<Cbor.Token>)
    requires |version| <= MaxVersion
    ensures |r| == 8
  {
    Prologue(ts)
      + [Cbor.Text(KeyVersion), Cbor.Uint(MetaVersion), Cbor.Text(KeyGenerator), Cbor.Text(Generator(version))]
      + [Cbor.Break]
  }

  /** write_local_meta_header's map: "iq" maps to {"uniq": null, "fmt": "cf32"}. */
  function HeaderTokens(ts: u64): (r: seq<Cbor.Token>)
    ensures |r| == 11
  {
    Prologue(ts)
      + [Cbor.Text(KeyIq), Cbor.MapStart, Cbor.Text(KeyUniq), Cbor.Null, Cbor.Text(KeyFmt), Cbor.Text(ValueCf32), Cbor.Break]
      + [Cbor.Break]
  }

  /** write_local_meta_update's map: "iq" maps to {"samples": n}. */
  function UpdateTokens(ts: u64, samples: u64): (r: seq<Cbor.Token>)
    ensures |r| == 9
  {
    Prologue(ts)
      + [Cbor.Text(KeyIq), Cbor.MapStart, Cbor.Text(KeySamples), Cbor.Uint(samples), Cbor.Break]
      + [Cbor.Break]
  }

  /** write_local_meta_footer's map: the time stamp alone. */
  function FooterTokens(ts: u64): (r: seq<Cbor.Token>)
    ensures |r| == 4
  {
    Prologue(ts) + [Cbor.Break]
  }

  /** The tokens of each packet, one by one. */
  lemma GlobalAt(ts: u64, version: seq<byte>)
    requires |version| <= MaxVersion
    ensures var t := GlobalTokens(ts, version);
      t[..3] == Prologue(ts) && t[3] == Cbor.Text(KeyVersion) && t[4] == Cbor.Uint(MetaVersion)
      && t[5] == Cbor.Text(KeyGenerator) && t[6] == Cbor.Text(Generator(version)) && t[7] == Cbor.Break
  {
  }

  lemma HeaderAt(ts: u64)
    ensures var t := HeaderTokens(ts);
      t[..3] == Prologue(ts) && t[3] == Cbor.Text(KeyIq) && t[4] == Cbor.MapStart && t[5] == Cbor.Text(KeyUniq)
      && t[6] == Cbor.Null && t[7] == Cbor.Text(KeyFmt) && t[8] == Cbor.Text(ValueCf32) && t[9] == Cbor.Break
      && t[10] == Cbor.Break
  {
  }

  lemma UpdateAt(ts: u64, samples: u64)
    ensures var t := UpdateTokens(ts, samples);
      t[..3] == Prologue(ts) && t[3] == Cbor.Text(KeyIq) && t[4] == Cbor.MapStart && t[5] == Cbor.Text(KeySamples)
      && t[6] == Cbor.Uint(samples) && t[7] == Cbor.Break && t[8] == Cbor.Break
  {
  }

  lemma FooterAt(ts: u64)
    ensures var t := FooterTokens(ts);
      t[..3] == Prologue(ts) && t[3] == Cbor.Break
  {
  }

  /** One more token packed after the octets of `toks`. */
  lemma Step(buf: seq<byte>, pos: nat, next: nat, toks: seq<Cbor.Token>, t: Cbor.Token)
    requires pos <= next <= |buf|
    requires buf[..pos] == Cbor.Encode(toks) && buf[pos..next] == Cbor.EncodeToken(t)
    ensures buf[..next] == Cbor.Encode(toks + [t])
  {
    Cbor.EncodeAppend(toks, t);
    assert buf[..next] == buf[..pos] + buf[pos..next];
  }

  /** Token k of `toks` packed after the octets of the first k. */
  lemma StepAt(buf: seq<byte>, pos: nat, next: nat, toks: seq<Cbor.Token>, k: nat)
    requires k < |toks| && pos <= next <= |buf|
    requires buf[..pos] == Cbor.Encode(toks[..k]) && buf[pos..next] == Cbor.EncodeToken(toks[k])
    ensures buf[..next] == Cbor.Encode(toks[..k + 1])
  {
    TakeNext(toks, k);
    Step(buf, pos, next, toks[..k], toks[k]);
  }

  lemma TakeNext<T>(s: seq<T>, k: nat)
    requires k < |s|
    ensures s[..k + 1] == s[..k] + [s[k]]
  {
    assert s[..k + 1] == s[..k] + [s[k]];
  }

  // Each packer call extends the octets of the packet's first k tokens by
  // token k.

  method PutMapStart(buf: array<byte>, pos: nat, ghost toks: seq<Cbor.Token>, ghost k: nat) returns (next: nat)
    requires k < |toks| && toks[k] == Cbor.MapStart
    requires pos < buf.Length && buf[..pos] == Cbor.Encode(toks[..k])
    modifies buf
    ensures next == pos + 1 && buf[..next] == Cbor.Encode(toks[..k + 1])
  {
    next := Cbor.PackMapStart(buf, pos);
    StepAt(buf[..], pos, next, toks, k);
  }

  method PutMapEnd(buf: array<byte>, pos: nat, ghost toks: seq<Cbor.Token>, ghost k: nat) returns (next: nat)
    requires k < |toks| && toks[k] == Cbor.Break
    requires pos < buf.Length && buf[..pos] == Cbor.Encode(toks[..k])
    modifies buf
    ensures next == pos + 1 && buf[..next] == Cbor.Encode(toks[..k + 1])
  {
    next := Cbor.PackMapEnd(buf, pos);
    StepAt(buf[..], pos, next, toks, k);
  }

  method PutNull(buf: array<byte>, pos: nat, ghost toks: seq<Cbor.Token>, ghost k: nat) returns (next: nat)
    requires k < |toks| && toks[k] == Cbor.Null
    requires pos < buf.Length && buf[..pos] == Cbor.Encode(toks[..k])
    modifies buf
    ensures next == pos + 1 && buf[..next] == Cbor.Encode(toks[..k + 1])
  {
    next := Cbor.PackNull(buf, pos);
    StepAt(buf[..], pos, next, toks, k);
  }

  method PutUint(buf: array<byte>, pos: nat, v: u64, ghost toks: seq<Cbor.Token>, ghost k: nat) returns (next: nat)
    requires k < |toks| && toks[k] == Cbor.Uint(v)
    requires pos + Cbor.HeadSize(v) <= buf.Length && buf[..pos] == Cbor.Encode(toks[..k])
    modifies buf
    ensures next == pos + Cbor.HeadSize(v) && buf[..next] == Cbor.Encode(toks[..k + 1])
  {
    next := Cbor.PackUint(buf, pos, v);
    StepAt(buf[..], pos, next, toks, k);
  }

  /** cbor_pack_ustring on a C string literal. */
  method PutUString(buf: array<byte>, pos: nat, s: seq<byte>, ghost toks: seq<Cbor.Token>, ghost k: nat)
    returns (next: nat)
    requires NoNul(s) && |s| < U64_LIMIT
    requires k < |toks| && toks[k] == Cbor.Text(s)
    requires pos + Cbor.HeadSize(|s|) + |s| <= buf.Length && buf[..pos] == Cbor.Encode(toks[..k])
    modifies buf
    ensures next == pos + Cbor.HeadSize(|s|) + |s| && buf[..next] == Cbor.Encode(toks[..k + 1])
  {
    Cbor.StrLenTerminated(s);
    next := Cbor.PackUString(buf, pos, s + [0]);
    StepAt(buf[..], pos, next, toks, k);
  }

  /** prepare_cbor_buf: the cursor restarts at 0, then the map start and the
      "ts" field: the first three tokens of every packet. */
  method PrepareCborBuf(buf: array<byte>, ts: u64, ghost toks: seq<Cbor.Token>) returns (len: nat)
    requires buf.Length == PacketBufferSize
    requires |toks| >= 3 && toks[..3] == Prologue(ts)
    modifies buf
    ensures len <= 13 && buf[..len] == Cbor.Encode(toks[..3])
  {
    len := 0;
    assert buf[..0] == Cbor.Encode(toks[..0]);
    len := PutMapStart(buf, len, toks, 0);
    len := PutUString(buf, len, KeyTs, toks, 1);
    len := PutUint(buf, len, ts, toks, 2);
  }

  /** finalize_cbor_buf: the break that closes the outer map, the last token. */
  method FinalizeCborBuf(buf: array<byte>, len: nat, ghost toks: seq<Cbor.Token>) returns (next: nat)
    requires |toks| >= 1 && toks[|toks| - 1] == Cbor.Break
    requires len < buf.Length && buf[..len] == Cbor.Encode(toks[..|toks| - 1])
    modifies buf
    ensures next == len + 1 && buf[..next] == Cbor.Encode(toks)
  {
    next := PutMapEnd(buf, len, toks, |toks| - 1);
    assert toks[..|toks|] == toks;
  }

  /** The packing steps of write_global_meta. */
  method BuildGlobal(buf: array<byte>, ts: u64, version: seq<byte>) returns (len: nat)
    requires buf.Length == PacketBufferSize
    requires NoNul(version) && |version| <= MaxVersion
    modifies buf
    ensures len <= buf.Length && buf[..len] == Cbor.Encode(GlobalTokens(ts, version))
  {
    ghost var toks := GlobalTokens(ts, version);
    GlobalAt(ts, version);
    len := PrepareCborBuf(buf, ts, toks);
    len := PutUString(buf, len, KeyVersion, toks, 3);
    len := PutUint(buf, len, MetaVersion, toks, 4);
    len := PutUString(buf, len, KeyGenerator, toks, 5);
    var generator := Generator(version);
    len := PutUString(buf, len, generator, toks, 6);
    len := FinalizeCborBuf(buf, len, toks);
  }

  /** The packing steps of write_local_meta_header. */
  method BuildHeader(buf: array<byte>, ts: u64) returns (len: nat)
    requires buf.Length == PacketBufferSize
    modifies buf
    ensures len <= buf.Length && buf[..len] == Cbor.Encode(HeaderTokens(ts))
  {
    ghost var toks := HeaderTokens(ts);
    HeaderAt(ts);
    len := PrepareCborBuf(buf, ts, toks);
    len := PutUString(buf, len, KeyIq, toks, 3);
    len := PutMapStart(buf, len, toks, 4);
    len := PutUString(buf, len, KeyUniq, toks, 5);
    len := PutNull(buf, len, toks, 6);
    len := PutUString(buf, len, KeyFmt, toks, 7);
    len := PutUString(buf, len, ValueCf32, toks, 8);
    len := PutMapEnd(buf, len, toks, 9);
    len := FinalizeCborBuf(buf, len, toks);
  }

  /** The packing steps of write_local_meta_update. */
  method BuildUpdate(buf: array<byte>, ts: u64, samples: u64) returns (len: nat)
    requires buf.Length == PacketBufferSize
    modifies buf
    ensures len <= buf.Length && buf[..len] == Cbor.Encode(UpdateTokens(ts, samples))
  {
    ghost var toks := UpdateTokens(ts, samples);
    UpdateAt(ts, samples);
    len := PrepareCborBuf(buf, ts, toks);
    len := PutUString(buf, len, KeyIq, toks, 3);
    len := PutMapStart(buf, len, toks, 4);
    len := PutUString(buf, len, KeySamples, toks, 5);
    len := PutUint(buf, len, samples, toks, 6);
    len := PutMapEnd(buf, len, toks, 7);
    len := FinalizeCborBuf(buf, len, toks);
  }

  /** The packing steps of write_local_meta_footer. */
  method BuildFooter(buf: array<byte>, ts: u64) returns (len: nat)
    requires buf.Length == PacketBufferSize
    modifies buf
    ensures len <= buf.Length && buf[..len] == Cbor.Encode(FooterTokens(ts))
  {
    ghost var toks := FooterTokens(ts);
    FooterAt(ts);
    len := PrepareCborBuf(buf, ts, toks);
    len := FinalizeCborBuf(buf, len, toks);
  }

  /** A metadata packet: one indefinite-length map whose first key is "ts",
      closed by a break, that reads back as the tokens it was packed from. */
  predicate TsMap(toks: seq<Cbor.Token>)
  {
    Cbor.IsMap(toks) && toks[1] == Cbor.Text(KeyTs) && Cbor.DecodeTokens(Cbor.Encode(toks)) == Some(toks)
  }

  /** The global packet: {"ts", "version", "generator"}. */
  lemma GlobalIsTsMap(ts: u64, version: seq<byte>)
    requires |version| <= MaxVersion
    ensures TsMap(GlobalTokens(ts, version))
  {
    var g := GlobalTokens(ts, version);
    var fields := [Cbor.Text(KeyTs), Cbor.Uint(ts), Cbor.Text(KeyVersion), Cbor.Uint(MetaVersion),
      Cbor.Text(KeyGenerator), Cbor.Text(Generator(version))];
    assert g[1..] == fields + [Cbor.Break];
    Cbor.ClosesFlat(fields, [Cbor.Break], 1);
    Cbor.RoundTrip(g);
  }

  /** The header packet: {"ts", "iq": {"uniq": null, "fmt": "cf32"}}. */
  lemma HeaderIsTsMap(ts: u64)
    ensures TsMap(HeaderTokens(ts))
  {
    var h := HeaderTokens(ts);
    var outer := [Cbor.Text(KeyTs), Cbor.Uint(ts), Cbor.Text(KeyIq)];
    var inner := [Cbor.Text(KeyUniq), Cbor.Null, Cbor.Text(KeyFmt), Cbor.Text(ValueCf32)];
    var rest := [Cbor.MapStart] + inner + [Cbor.Break] + [Cbor.Break];
    assert h[1..] == outer + rest;
    Cbor.ClosesFlat(outer, rest, 1);
    Cbor.ClosesNested(inner, [Cbor.Break], 1);
    Cbor.RoundTrip(h);
  }

  /** The update packet: {"ts", "iq": {"samples": n}}. */
  lemma UpdateIsTsMap(ts: u64, samples: u64)
    ensures TsMap(UpdateTokens(ts, samples))
  {
    var u := UpdateTokens(ts, samples);
    var outer := [Cbor.Text(KeyTs), Cbor.Uint(ts), Cbor.Text(KeyIq)];
    var inner := [Cbor.Text(KeySamples), Cbor.Uint(samples)];
    var rest := [Cbor.MapStart] + inner + [Cbor.Break] + [Cbor.Break];
    assert u[1..] == outer + rest;
    Cbor.ClosesFlat(outer, rest, 1);
    Cbor.ClosesNested(inner, [Cbor.Break], 1);
    Cbor.RoundTrip(u);
  }

  /** The footer packet: {"ts"}. */
  lemma FooterIsTsMap(ts: u64)
    ensures TsMap(FooterTokens(ts))
  {
    var f := FooterTokens(ts);
    var fields := [Cbor.Text(KeyTs), Cbor.Uint(ts)];
    assert f[1..] == fields + [Cbor.Break];
    Cbor.ClosesFlat(fields, [Cbor.Break], 1);
    Cbor.RoundTrip(f);
  }

  // ---------------------------------------------------------------------------
  // The sink.

  /** The two clock readings a packet takes: suscan_gettime() for the granule
      position, then suscan_gettime_unix() for "ts". */
  datatype Clock = Clock(granule: u64, ts: u64)

  /** OGG_DATA: neither START nor END. */
  const OggData: Ogg.What := Ogg.What(false, false)

  /** The xwrite calls ogg_write_packet issues for a packet of these tokens;
      the `uint64_t` granule is passed as the `int64_t` parameter. */
  function PacketWrites(what: Ogg.What, clock: Clock, serial: u32, pageSeq: u32, toks: seq<Cbor.Token>): seq<seq<byte>>
  {
    Ogg.WritesOf(Ogg.PacketPages(what, Signed64(clock.granule), serial, pageSeq, Cbor.Encode(toks)))
  }

  /** The page octets of such a packet. */
  function PacketStream(what: Ogg.What, clock: Clock, serial: u32, pageSeq: u32, toks: seq<Cbor.Token>): seq<byte>
  {
    Ogg.Stream(Ogg.PacketPages(what, Signed64(clock.granule), serial, pageSeq, Cbor.Encode(toks)))
  }

  /** `meta_seq++` on a `uint32_t`. */
  function Next32(x: u32): u32
  {
    (x + 1) % U32_LIMIT
  }

  /** seqs are 0, 1, 2, ... (modulo 2^32), and next is the one after them. */
  ghost predicate Counted(seqs: seq<u32>, next: u32)
  {
    (forall i :: 0 <= i < |seqs| ==> seqs[i] == i % U32_LIMIT) && next == |seqs| % U32_LIMIT
  }

  /** The header packet, numbered 0, starts the count. */
  lemma CountedFirst()
    ensures Counted([0], 1)
  {
    assert 0 % U32_LIMIT == 0 && 1 % U32_LIMIT == 1;
  }

  /** Numbering one more packet keeps the count. */
  lemma CountedNext(seqs: seq<u32>, next: u32)
    requires Counted(seqs, next)
    ensures Counted(seqs + [next], Next32(next))
  {
  }

  /** struct suscan_sink. A null file stands for the descriptor -1. */
  class Sink {
    var dataFd: Fd?
    var metaFd: Fd?
    var metaSerial: u32
    var metaSeq: u32
    /** The sequence numbers given to the packets of the session stream
        (serial metaSerial), in order. */
    ghost var sessionSeqs: seq<u32>

    /** An open sink: an open data file, and a metadata file, when there is
        one, that is a different file and open; with metadata, the session
        packets are numbered 0, 1, 2, ... and metaSeq is the next number;
        without, metaSeq stays 0. */
    ghost predicate Valid()
      reads this, dataFd, metaFd
    {
      dataFd != null && dataFd != metaFd
      && dataFd.isOpen && (metaFd != null ==> metaFd.isOpen)
      && (metaFd == null ==> metaSeq == 0 && sessionSeqs == [])
      && (metaFd != null ==> |sessionSeqs| >= 1 && Counted(sessionSeqs, metaSeq))
    }

    /** The fields suscan_sink_open sets before creating any file. */
    constructor (serial: u32)
      ensures dataFd == null && metaFd == null
      ensures metaSerial == serial && metaSeq == 0 && sessionSeqs == []
    {
      dataFd := null;
      metaFd := null;
      metaSerial := serial;
      metaSeq := 0;
      sessionSeqs := [];
    }

    /** write_global_meta: a START|END packet with sequence number 0 on a
        stream of its own, whose serial `serial` is drawn for it. */
    method WriteGlobalMeta(clock: Clock, serial: u32, version: seq<byte>) returns (ret: int)
      requires metaFd != null && metaFd.isOpen && NoNul(version) && |version| <= MaxVersion
      modifies metaFd
      ensures (metaFd.Log(), ret)
           == Issue(old(metaFd.Log()), PacketWrites(Ogg.What(true, true), clock, serial, 0, GlobalTokens(clock.ts, version)))
      ensures metaFd.isOpen == old(metaFd.isOpen) && metaFd.linked == old(metaFd.linked)
    {
      var buf := new byte[PacketBufferSize];
      var len := BuildGlobal(buf, clock.ts, version);
      ret := Ogg.WritePacket(metaFd, Ogg.What(true, true), Signed64(clock.granule), serial, 0, buf[..len]);
    }

    /** write_local_meta_header: a START packet on the session stream,
        numbered with meta_seq, which moves on. */
    method WriteLocalMetaHeader(clock: Clock) returns (ret: int)
      requires metaFd != null && metaFd.isOpen
      modifies this, metaFd
      ensures dataFd == old(dataFd) && metaFd == old(metaFd) && metaSerial == old(metaSerial)
      ensures (metaFd.Log(), ret)
           == Issue(old(metaFd.Log()), PacketWrites(Ogg.What(true, false), clock, metaSerial, old(metaSeq), HeaderTokens(clock.ts)))
      ensures metaSeq == Next32(old(metaSeq)) && sessionSeqs == old(sessionSeqs) + [old(metaSeq)]
      ensures metaFd.isOpen == old(metaFd.isOpen) && metaFd.linked == old(metaFd.linked)
    {
      var buf := new byte[PacketBufferSize];
      var len := BuildHeader(buf, clock.ts);
      var pageSeq := metaSeq;
      metaSeq := Next32(metaSeq);
      sessionSeqs := sessionSeqs + [pageSeq];
      ret := Ogg.WritePacket(metaFd, Ogg.What(true, false), Signed64(clock.granule), metaSerial, pageSeq, buf[..len]);
    }

    /** write_local_meta_update: without a metadata file, returns 0 and
        changes nothing; otherwise an OGG_DATA packet carrying the sample
        count, numbered with meta_seq, which moves on. */
    method WriteLocalMetaUpdate(samples: u64, clock: Clock) returns (ret: int)
      requires Valid()
      modifies this, metaFd
      ensures Valid()
      ensures dataFd == old(dataFd) && metaFd == old(metaFd) && metaSerial == old(metaSerial)
      ensures metaFd == null ==> ret == 0 && metaSeq == old(metaSeq) && sessionSeqs == old(sessionSeqs)
      ensures metaFd != null ==>
        (metaFd.Log(), ret)
          == Issue(old(metaFd.Log()), PacketWrites(OggData, clock, metaSerial, old(metaSeq), UpdateTokens(clock.ts, samples)))
        && metaSeq == Next32(old(metaSeq)) && sessionSeqs == old(sessionSeqs) + [old(metaSeq)]
        && metaFd.isOpen == old(metaFd.isOpen) && metaFd.linked == old(metaFd.linked)
    {
      if metaFd == null {
        return 0;
      }
      var buf := new byte[PacketBufferSize];
      var len := BuildUpdate(buf, clock.ts, samples);
      var pageSeq := metaSeq;
      CountedNext(sessionSeqs, metaSeq);
      metaSeq := Next32(metaSeq);
      sessionSeqs := sessionSeqs + [pageSeq];
      ret := Ogg.WritePacket(metaFd, OggData, Signed64(clock.granule), metaSerial, pageSeq, buf[..len]);
    }

    /** write_local_meta_footer: an END packet on the session stream,
        numbered with meta_seq, which moves on. */
    method WriteLocalMetaFooter(clock: Clock) returns (ret: int)
      requires metaFd != null && metaFd.isOpen
      modifies this, metaFd
      ensures dataFd == old(dataFd) && metaFd == old(metaFd) && metaSerial == old(metaSerial)
      ensures (metaFd.Log(), ret)
           == Issue(old(metaFd.Log()), PacketWrites(Ogg.What(false, true), clock, metaSerial, old(metaSeq), FooterTokens(clock.ts)))
      ensures metaSeq == Next32(old(metaSeq)) && sessionSeqs == old(sessionSeqs) + [old(metaSeq)]
      ensures metaFd.isOpen == old(metaFd.isOpen) && metaFd.linked == old(metaFd.linked)
    {
      var buf := new byte[PacketBufferSize];
      var len := BuildFooter(buf, clock.ts);
      var pageSeq := metaSeq;
      metaSeq := Next32(metaSeq);
      sessionSeqs := sessionSeqs + [pageSeq];
      ret := Ogg.WritePacket(metaFd, Ogg.What(false, true), Signed64(clock.granule), metaSerial, pageSeq, buf[..len]);
    }

    /** suscan_sink_write: writes the samples to the data file. A failed
        write returns 0 and emits no update; otherwise the whole samples
        written are returned and reported in an update packet, whatever
        becomes of the update. */
    method Write(data: seq<byte>, clock: Clock) returns (n: int)
      requires Valid() && |data| < U64_LIMIT && |data| % SampleSize == 0
      modifies this, dataFd, metaFd
      ensures Valid()
      ensures dataFd == old(dataFd) && metaFd == old(metaFd) && metaSerial == old(metaSerial)
      ensures dataFd.Log() == WriteResult(old(dataFd.Log()), data).0
      ensures dataFd.isOpen == old(dataFd.isOpen) && dataFd.linked == old(dataFd.linked)
      ensures metaFd != null ==> metaFd.isOpen == old(metaFd.isOpen) && metaFd.linked == old(metaFd.linked)
      ensures WriteResult(old(dataFd.Log()), data).1 < 0 ==>
        n == 0 && metaSeq == old(metaSeq) && sessionSeqs == old(sessionSeqs)
        && (metaFd != null ==> metaFd.Log() == old(metaFd.Log()))
      ensures WriteResult(old(dataFd.Log()), data).1 >= 0 ==>
        n == WriteResult(old(dataFd.Log()), data).1 / SampleSize
        && (metaFd == null ==> metaSeq == old(metaSeq) && sessionSeqs == old(sessionSeqs))
        && (metaFd != null ==>
              metaFd.Log() == Issue(old(metaFd.Log()), PacketWrites(OggData, clock, metaSerial, old(metaSeq), UpdateTokens(clock.ts, n))).0
              && metaSeq == Next32(old(metaSeq)) && sessionSeqs == old(sessionSeqs) + [old(metaSeq)])
    {
      var ret := dataFd.Write(data);
      if ret < 0 {
        return 0;
      }
      var samples := ret / SampleSize;
      var updateRet := WriteLocalMetaUpdate(samples, clock);
      n := samples;
    }

    /** suscan_sink_close: closes the data file; with metadata, writes the
        END footer, whatever becomes of it, and closes the metadata file.
        The sink is then closed: no later write or close is allowed. */
    method Close(clock: Clock)
      requires Valid()
      modifies this, dataFd, metaFd
      ensures !Valid()
      ensures metaFd != null ==> Counted(sessionSeqs, metaSeq)
      ensures dataFd == old(dataFd) && metaFd == old(metaFd) && metaSerial == old(metaSerial)
      ensures !dataFd.isOpen && dataFd.Log() == old(dataFd.Log()) && dataFd.linked == old(dataFd.linked)
      ensures metaFd == null ==> metaSeq == old(metaSeq) && sessionSeqs == old(sessionSeqs)
      ensures metaFd != null ==>
        !metaFd.isOpen && metaFd.linked == old(metaFd.linked)
        && metaFd.Log() == Issue(old(metaFd.Log()), PacketWrites(Ogg.What(false, true), clock, metaSerial, old(metaSeq), FooterTokens(clock.ts))).0
        && metaSeq == Next32(old(metaSeq)) && sessionSeqs == old(sessionSeqs) + [old(metaSeq)]
    {
      dataFd.Close();
      if metaFd != null {
        CountedNext(sessionSeqs, metaSeq);
        var ret := WriteLocalMetaFooter(clock);
        metaFd.Close();
      }
    }
  }

  /** The results of the foreign calls suscan_sink_open makes, in order. */
  datatype OpenEnv = OpenEnv(
    mallocOk: bool,             // malloc succeeds
    serial: u32,                // rand32() for meta_serial
    dataCreated: bool,          // creat of the data file succeeds
    dataScript: seq<Outcome>,   // and its write outcomes
    metaCreated: bool,          // creat of the metadata file succeeds
    metaScript: seq<Outcome>,   // and its write outcomes
    globalClock: Clock,         // write_global_meta's clock readings
    globalSerial: u32,          // and its rand32()
    headerClock: Clock)         // write_local_meta_header's clock readings

  function GlobalWrites(env: OpenEnv, version: seq<byte>): seq<seq<byte>>
    requires |version| <= MaxVersion
  {
    PacketWrites(Ogg.What(true, true), env.globalClock, env.globalSerial, 0, GlobalTokens(env.globalClock.ts, version))
  }

  function HeaderWrites(env: OpenEnv): seq<seq<byte>>
  {
    PacketWrites(Ogg.What(true, false), env.headerClock, env.serial, 0, HeaderTokens(env.headerClock.ts))
  }

  /** The new metadata file after the global packet and, if that was
      written, the header packet; and the first nonzero result, or 0. */
  function OpenMeta(env: OpenEnv, version: seq<byte>): (FileLog, int)
    requires |version| <= MaxVersion
  {
    var (f, ret) := Issue(FileLog([], env.metaScript), GlobalWrites(env, version));
    if ret != 0 then (f, ret) else Issue(f, HeaderWrites(env))
  }

  /** The metadata file is the global packet's writes followed by the
      header's, issued in order and stopping at the first that fails. */
  lemma OpenMetaWrites(env: OpenEnv, version: seq<byte>)
    requires |version| <= MaxVersion
    ensures OpenMeta(env, version) == Issue(FileLog([], env.metaScript), GlobalWrites(env, version) + HeaderWrites(env))
  {
    IssueAppend(FileLog([], env.metaScript), GlobalWrites(env, version), HeaderWrites(env));
  }

  /** When none of its writes fails, the metadata file holds the pages of the
      global packet, then those of the header packet. */
  lemma OpenMetaContents(env: OpenEnv, version: seq<byte>)
    requires |version| <= MaxVersion
    requires forall i :: 0 <= i < |env.metaScript| ==> !env.metaScript[i].Error?
    ensures OpenMeta(env, version).1 == 0
    ensures OpenMeta(env, version).0.contents
         == PacketStream(Ogg.What(true, true), env.globalClock, env.globalSerial, 0, GlobalTokens(env.globalClock.ts, version))
          + PacketStream(Ogg.What(true, false), env.headerClock, env.serial, 0, HeaderTokens(env.headerClock.ts))
  {
    var g := GlobalWrites(env, version);
    var h := HeaderWrites(env);
    OpenMetaWrites(env, version);
    IssueNoErrors(FileLog([], env.metaScript), g + h);
    ConcatAppend(g, h);
    Ogg.WritesOfConcat(Ogg.PacketPages(Ogg.What(true, true), Signed64(env.globalClock.granule), env.globalSerial, 0,
      Cbor.Encode(GlobalTokens(env.globalClock.ts, version))));
    Ogg.WritesOfConcat(Ogg.PacketPages(Ogg.What(true, false), Signed64(env.headerClock.granule), env.serial, 0,
      Cbor.Encode(HeaderTokens(env.headerClock.ts))));
  }

  /** The rollback of suscan_sink_open: close the file, then unlink it. */
  method Discard(fd: Fd)
    modifies fd
    ensures !fd.isOpen && !fd.linked && fd.Log() == old(fd.Log())
  {
    fd.Close();
    fd.Unlink();
  }

  /** The two packets suscan_sink_open writes to a new metadata file: the
      global packet, then, if it was written, the session header. */
  method WriteInitialMeta(s: Sink, env: OpenEnv, version: seq<byte>) returns (ret: int)
    requires s.metaFd != null && s.metaFd.isOpen && s.metaFd.Log() == FileLog([], env.metaScript)
    requires s.metaSerial == env.serial && s.metaSeq == 0 && s.sessionSeqs == []
    requires NoNul(version) && |version| <= MaxVersion
    modifies s, s.metaFd
    ensures s.dataFd == old(s.dataFd) && s.metaFd == old(s.metaFd) && s.metaSerial == env.serial
    ensures (s.metaFd.Log(), ret) == OpenMeta(env, version)
    ensures ret == 0 ==> s.metaSeq == 1 && s.sessionSeqs == [0]
    ensures s.metaFd.isOpen == old(s.metaFd.isOpen) && s.metaFd.linked == old(s.metaFd.linked)
  {
    ret := s.WriteGlobalMeta(env.globalClock, env.globalSerial, version);
    if ret == 0 {
      ret := s.WriteLocalMetaHeader(env.headerClock);
    }
  }

  /** The metadata half of suscan_sink_open: create the metadata file and
      write the initial packets; on failure, roll back every file created. */
  method CreateMeta(s: Sink, env: OpenEnv, version: seq<byte>) returns (meta: Fd?, ok: bool)
    requires s.dataFd != null && s.metaFd == null && s.dataFd.isOpen && s.dataFd.linked
    requires s.metaSerial == env.serial && s.metaSeq == 0 && s.sessionSeqs == []
    requires NoNul(version) && |version| <= MaxVersion
    modifies s, s.dataFd
    ensures s.dataFd == old(s.dataFd) && s.dataFd.Log() == old(s.dataFd.Log())
    ensures meta != null <==> env.metaCreated
    ensures meta != null ==> fresh(meta) && meta.Log() == OpenMeta(env, version).0
    ensures ok <==> env.metaCreated && OpenMeta(env, version).1 == 0
    ensures ok ==>
      s.Valid() && s.metaFd == meta && s.sessionSeqs == [0] && s.metaSerial == env.serial
      && s.dataFd.isOpen && s.dataFd.linked && meta.isOpen && meta.linked
    ensures !ok ==> !s.dataFd.isOpen && !s.dataFd.linked && (meta != null ==> !meta.isOpen && !meta.linked)
  {
    meta := Creat(env.metaCreated, env.metaScript);
    if meta == null {
      Discard(s.dataFd);
      return meta, false;
    }
    s.metaFd := meta;
    var ret := WriteInitialMeta(s, env, version);
    if ret != 0 {
      Discard(meta);
      Discard(s.dataFd);
      return meta, false;
    }
    CountedFirst();
    ok := true;
  }

  /** suscan_sink_open. The sink is returned only when every step succeeds;
      otherwise the files created so far are closed and unlinked, the
      metadata file first. `hasMeta` says whether a metadata path is given. */
  method Open(env: OpenEnv, hasMeta: bool, version: seq<byte>) returns (sink: Sink?, data: Fd?, meta: Fd?)
    requires NoNul(version) && |version| <= MaxVersion
    ensures data != null <==> env.mallocOk && env.dataCreated
    ensures meta != null <==> env.mallocOk && env.dataCreated && hasMeta && env.metaCreated
    ensures sink != null <==> env.mallocOk && env.dataCreated && (hasMeta ==> env.metaCreated && OpenMeta(env, version).1 == 0)
    ensures data != null ==> fresh(data) && data.Log() == FileLog([], env.dataScript)
    ensures meta != null ==> fresh(meta) && meta != data && meta.Log() == OpenMeta(env, version).0
    ensures sink != null ==>
      fresh(sink) && sink.Valid() && sink.dataFd == data && sink.metaFd == meta && sink.metaSerial == env.serial
      && sink.sessionSeqs == (if hasMeta then [0] else [])
      && data.isOpen && data.linked && (meta != null ==> meta.isOpen && meta.linked)
    ensures sink == null && data != null ==> !data.isOpen && !data.linked
    ensures sink == null && meta != null ==> !meta.isOpen && !meta.linked
  {
    sink, data, meta := null, null, null;
    if !env.mallocOk {
      return;
    }
    var s := new Sink(env.serial);
    data := Creat(env.dataCreated, env.dataScript);
    if data == null {
      return;
    }
    s.dataFd := data;
    if hasMeta {
      var ok;
      meta, ok := CreateMeta(s, env, version);
      if !ok {
        return;
      }
    } else {
      s.metaFd := null;
    }
    sink := s;
  }
}
