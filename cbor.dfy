/** The CBOR value packer of analyzer/sink/cbor.c (RFC 7049).

    Every packer appends one token to a caller-supplied octet buffer at a
    cursor and returns the advanced cursor. The buffer's length is its
    capacity, and each packer requires that its token fits: the C code has no
    capacity check at all. */
module Cbor {
  import opened Bytes

  /** The three-bit major type of section 2.1 of RFC 7049. */
  type Major = m: nat | m < 8

  const MajorUint: Major := 0
  const MajorBytes: Major := 2
  const MajorText: Major := 3
  const MajorArray: Major := 4
  const MajorMap: Major := 5
  const MajorFloat: Major := 7

  const AddlUint8: nat := 24
  const AddlUint16: nat := 25
  const AddlUint32: nat := 26
  const AddlUint64: nat := 27
  const AddlIndefinite: nat := 31
  const AddlNull: nat := 22
  const AddlBreak: nat := 31

  /** The initial octet `(major << 5) | addl`: the major type sits in the top
      three bits, the additional information in the low five. */
  function TypeByte(major: Major, addl: nat): (b: byte)
    requires addl < 32
    ensures b as int / 32 == major && b as int % 32 == addl
  {
    (major * 32 + addl) as byte
  }

  /** Octets that follow an initial octet whose additional information is 24..27. */
  function ArgumentWidth(addl: nat): nat
    requires AddlUint8 <= addl <= AddlUint64
  {
    if addl == AddlUint8 then 1
    else if addl == AddlUint16 then 2
    else if addl == AddlUint32 then 4
    else 8
  }

  /** Octets in the head the packer emits for argument n. */
  function HeadSize(n: nat): nat
  {
    if n <= 23 then 1
    else if n <= 0xff then 2
    else if n <= 0xffff then 3
    else if n <= 0xffff_ffff then 5
    else 9
  }

  /** The additional information cbor_pack_type picks for argument n. */
  function HeadAddl(n: nat): (ai: nat)
    ensures ai < 32
  {
    if n <= 23 then n
    else if n <= 0xff then AddlUint8
    else if n <= 0xffff then AddlUint16
    else if n <= 0xffff_ffff then AddlUint32
    else AddlUint64
  }

  /** The head cbor_pack_type emits: the initial octet, then the argument in
      big-endian order in the octets HeadSize leaves after it. */
  function Head(major: Major, n: u64): seq<byte>
  {
    [TypeByte(major, HeadAddl(n))] + BigEndian(n, HeadSize(n) - 1)
  }

  /** What a reader learns from a data item head. */
  datatype HeadInfo = HeadInfo(major: Major, arg: u64, size: nat)

  /** Reads a head as section 2.1 of RFC 7049 defines it; None for a truncated
      head or for additional information 28..31, which carry no argument. */
  function DecodeHead(s: seq<byte>): Option<HeadInfo>
  {
    if |s| == 0 then None
    else
      var major: Major := s[0] as int / 32;
      var addl := s[0] as int % 32;
      if addl < AddlUint8 then Some(HeadInfo(major, addl, 1))
      else if addl <= AddlUint64 && 1 + ArgumentWidth(addl) <= |s| then
        var w := ArgumentWidth(addl);
        var arg := FromBigEndian(s[1..1 + w]);
        assert arg < U64_LIMIT by {
          FromBigEndianBound(s[1..1 + w]);
          Pow256Values();
        }
        Some(HeadInfo(major, arg, 1 + w))
      else None
  }

  lemma HeadSplit(major: Major, n: u64, rest: seq<byte>, marker: nat, w: nat)
    requires marker < 32 && n < Pow256(w)
    requires Head(major, n) == [TypeByte(major, marker)] + BigEndian(n, w)
    ensures (Head(major, n) + rest)[1..1 + w] == BigEndian(n, w)
    ensures FromBigEndian((Head(major, n) + rest)[1..1 + w]) == n
  {
    assert (Head(major, n) + rest)[1..1 + w] == BigEndian(n, w);
    BigEndianRoundTrip(n, w);
  }

  /** Decoding the head the packer emits, whatever follows it, recovers the
      major type and the argument and consumes exactly the head. */
  lemma HeadRoundTrip(major: Major, n: u64, rest: seq<byte>)
    ensures |Head(major, n)| == HeadSize(n)
    ensures DecodeHead(Head(major, n) + rest) == Some(HeadInfo(major, n, HeadSize(n)))
  {
    Pow256Values();
    if n <= 23 {
    } else if n <= 0xff {
      HeadSplit(major, n, rest, AddlUint8, 1);
    } else if n <= 0xffff {
      HeadSplit(major, n, rest, AddlUint16, 2);
    } else if n <= 0xffff_ffff {
      HeadSplit(major, n, rest, AddlUint32, 4);
    } else {
      HeadSplit(major, n, rest, AddlUint64, 8);
    }
  }

  /** The packer's heads are the shortest: any head a reader accepts is at
      least as long as the one the packer emits for the same argument. */
  lemma HeadMinimal(s: seq<byte>)
    requires DecodeHead(s).Some?
    ensures HeadSize(DecodeHead(s).value.arg) <= DecodeHead(s).value.size
  {
    var addl := s[0] as int % 32;
    if addl >= AddlUint8 {
      var w := ArgumentWidth(addl);
      FromBigEndianBound(s[1..1 + w]);
      Pow256Values();
    }
  }

  /** cbor_pack_type_byte: one initial octet at the cursor. */
  method PackTypeByte(buf: array<byte>, pos: nat, major: Major, addl: nat) returns (next: nat)
    requires addl < 32
    requires pos + 1 <= buf.Length
    modifies buf
    ensures next == pos + 1
    ensures buf[pos..next] == [TypeByte(major, addl)]
    ensures buf[..pos] == old(buf[..pos]) && buf[next..] == old(buf[next..])
  {
    buf[pos] := TypeByte(major, addl);
    next := pos + 1;
  }

  /** cbor_pack_type: the shortest head for `addl` (a uint64_t argument). */
  method PackType(buf: array<byte>, pos: nat, major: Major, addl: u64) returns (next: nat)
    requires pos + HeadSize(addl) <= buf.Length
    modifies buf
    ensures next == pos + HeadSize(addl)
    ensures buf[pos..next] == Head(major, addl)
    ensures buf[..pos] == old(buf[..pos]) && buf[next..] == old(buf[next..])
  {
    if addl <= 23 {
      buf[pos] := TypeByte(major, addl);
      next := pos + 1;
    } else if addl <= 255 {
      buf[pos] := TypeByte(major, AddlUint8);
      buf[pos + 1] := addl as byte;
      next := pos + 2;
      assert BigEndian(addl, 1) == [ByteOf(addl, 0)];
    } else if addl <= 0xffff {
      buf[pos] := TypeByte(major, AddlUint16);
      buf[pos + 1] := ByteOf(addl, 1);
      buf[pos + 2] := ByteOf(addl, 0);
      next := pos + 3;
    } else if addl <= 0xffff_ffff {
      buf[pos] := TypeByte(major, AddlUint32);
      buf[pos + 1] := ByteOf(addl, 3);
      buf[pos + 2] := ByteOf(addl, 2);
      buf[pos + 3] := ByteOf(addl, 1);
      buf[pos + 4] := ByteOf(addl, 0);
      next := pos + 5;
    } else {
      buf[pos] := TypeByte(major, AddlUint64);
      buf[pos + 1] := ByteOf(addl, 7);
      buf[pos + 2] := ByteOf(addl, 6);
      buf[pos + 3] := ByteOf(addl, 5);
      buf[pos + 4] := ByteOf(addl, 4);
      buf[pos + 5] := ByteOf(addl, 3);
      buf[pos + 6] := ByteOf(addl, 2);
      buf[pos + 7] := ByteOf(addl, 1);
      buf[pos + 8] := ByteOf(addl, 0);
      next := pos + 9;
    }
  }

  /** cbor_pack_null: the simple value null (section 2.3 of RFC 7049). */
  method PackNull(buf: array<byte>, pos: nat) returns (next: nat)
    requires pos + 1 <= buf.Length
    modifies buf
    ensures next == pos + 1 && buf[pos..next] == EncodeToken(Null)
    ensures buf[..pos] == old(buf[..pos]) && buf[next..] == old(buf[next..])
  {
    next := PackTypeByte(buf, pos, MajorFloat, AddlNull);
  }

  /** cbor_pack_uint: an unsigned integer is a head of major type 0. */
  method PackUint(buf: array<byte>, pos: nat, v: u64) returns (next: nat)
    requires pos + HeadSize(v) <= buf.Length
    modifies buf
    ensures next == pos + HeadSize(v)
    ensures buf[pos..next] == EncodeToken(Uint(v))
    ensures buf[..pos] == old(buf[..pos]) && buf[next..] == old(buf[next..])
  {
    next := PackType(buf, pos, MajorUint, v);
  }

  /** strlen: the position of the first NUL octet. */
  function StrLen(s: seq<byte>): (n: nat)
    requires 0 in s
    ensures n < |s| && s[n] == 0 && NoNul(s[..n])
  {
    if s[0] == 0 then 0 else 1 + StrLen(s[1..])
  }

  /** strlen of a C string literal: its characters, then the terminating NUL. */
  lemma {:induction false} StrLenTerminated(s: seq<byte>)
    requires NoNul(s)
    ensures 0 in s + [0] && StrLen(s + [0]) == |s| && (s + [0])[..|s|] == s
  {
    assert (s + [0])[|s|] == 0;
    if s != [] {
      assert (s + [0])[1..] == s[1..] + [0];
      StrLenTerminated(s[1..]);
    }
  }

  /** Octets a string token takes for the C string `str`. */
  function StringSize(str: seq<byte>): nat
    requires 0 in str
  {
    HeadSize(StrLen(str)) + StrLen(str)
  }

  /** cbor_pack_string: a head with the string's length, then its octets up to
      (not including) the terminating NUL, copied one by one. */
  method PackString(buf: array<byte>, pos: nat, major: Major, str: seq<byte>) returns (next: nat)
    requires 0 in str && StrLen(str) < U64_LIMIT
    requires pos + StringSize(str) <= buf.Length
    modifies buf
    ensures next == pos + StringSize(str)
    ensures buf[pos..next] == Head(major, StrLen(str)) + str[..StrLen(str)]
    ensures buf[..pos] == old(buf[..pos]) && buf[next..] == old(buf[next..])
  {
    var n := StrLen(str);
    var len := PackType(buf, pos, major, n);
    var i := 0;
    while str[i] != 0
      invariant 0 <= i <= n
      invariant len == pos + HeadSize(n) + i
      invariant buf[pos..len] == Head(major, n) + str[..i]
      invariant buf[..pos] == old(buf[..pos])
      invariant buf[pos + StringSize(str)..] == old(buf[pos + StringSize(str)..])
      decreases n - i
    {
      ghost var copied := buf[pos..len];
      buf[len] := str[i];
      assert buf[pos..len + 1] == copied + [str[i]];
      assert str[..i + 1] == str[..i] + [str[i]];
      len := len + 1;
      i := i + 1;
    }
    next := len;
  }

  /** cbor_pack_bstring: a byte string, major type 2. */
  method PackBString(buf: array<byte>, pos: nat, str: seq<byte>) returns (next: nat)
    requires 0 in str && StrLen(str) < U64_LIMIT
    requires pos + StringSize(str) <= buf.Length
    modifies buf
    ensures next == pos + StringSize(str)
    ensures buf[pos..next] == EncodeToken(Bytes(str[..StrLen(str)]))
    ensures buf[..pos] == old(buf[..pos]) && buf[next..] == old(buf[next..])
  {
    next := PackString(buf, pos, MajorBytes, str);
  }

  /** cbor_pack_ustring: a text string, major type 3. */
  method PackUString(buf: array<byte>, pos: nat, str: seq<byte>) returns (next: nat)
    requires 0 in str && StrLen(str) < U64_LIMIT
    requires pos + StringSize(str) <= buf.Length
    modifies buf
    ensures next == pos + StringSize(str)
    ensures buf[pos..next] == EncodeToken(Text(str[..StrLen(str)]))
    ensures buf[..pos] == old(buf[..pos]) && buf[next..] == old(buf[next..])
  {
    next := PackString(buf, pos, MajorText, str);
  }

  /** cbor_pack_array_start: an indefinite-length array (section 2.2.1 of RFC 7049). */
  method PackArrayStart(buf: array<byte>, pos: nat) returns (next: nat)
    requires pos + 1 <= buf.Length
    modifies buf
    ensures next == pos + 1 && buf[pos..next] == EncodeToken(ArrayStart)
    ensures buf[..pos] == old(buf[..pos]) && buf[next..] == old(buf[next..])
  {
    next := PackTypeByte(buf, pos, MajorArray, AddlIndefinite);
  }

  /** cbor_pack_array_end: the break stop code. */
  method PackArrayEnd(buf: array<byte>, pos: nat) returns (next: nat)
    requires pos + 1 <= buf.Length
    modifies buf
    ensures next == pos + 1 && buf[pos..next] == EncodeToken(Break)
    ensures buf[..pos] == old(buf[..pos]) && buf[next..] == old(buf[next..])
  {
    next := PackTypeByte(buf, pos, MajorFloat, AddlBreak);
  }

  /** cbor_pack_map_start: an indefinite-length map (section 2.2.1 of RFC 7049). */
  method PackMapStart(buf: array<byte>, pos: nat) returns (next: nat)
    requires pos + 1 <= buf.Length
    modifies buf
    ensures next == pos + 1 && buf[pos..next] == EncodeToken(MapStart)
    ensures buf[..pos] == old(buf[..pos]) && buf[next..] == old(buf[next..])
  {
    next := PackTypeByte(buf, pos, MajorMap, AddlIndefinite);
  }

  /** cbor_pack_map_end: the break stop code. */
  method PackMapEnd(buf: array<byte>, pos: nat) returns (next: nat)
    requires pos + 1 <= buf.Length
    modifies buf
    ensures next == pos + 1 && buf[pos..next] == EncodeToken(Break)
    ensures buf[..pos] == old(buf[..pos]) && buf[next..] == old(buf[next..])
  {
    next := PackTypeByte(buf, pos, MajorFloat, AddlBreak);
  }

  // ---------------------------------------------------------------------------
  // The token stream the packer calls write, and a reader for it.

  /** Contents of a string whose length fits the packer's uint64_t. */
  type Str = s: seq<byte> | |s| < U64_LIMIT

  /** One packer call's output. The packer writes a flat stream: nesting is
      the caller's business, and both end calls write the same break token. */
  datatype Token =
    | Uint(n: u64)
    | Null
    | Bytes(bytes: Str)
    | Text(text: Str)
    | ArrayStart
    | MapStart
    | Break

  /** The octets of a token, as sections 2.1 to 2.3 of RFC 7049 lay them out. */
  function EncodeToken(t: Token): seq<byte>
  {
    match t
    case Uint(n) => Head(MajorUint, n)
    case Null => [0xF6]
    case Bytes(b) => Head(MajorBytes, |b|) + b
    case Text(x) => Head(MajorText, |x|) + x
    case ArrayStart => [0x9F]
    case MapStart => [0xBF]
    case Break => [0xFF]
  }

  /** The octets of a stream of tokens, written one after the other. */
  function Encode(ts: seq<Token>): seq<byte>
  {
    if ts == [] then [] else EncodeToken(ts[0]) + Encode(ts[1..])
  }

  /** Appending a token appends its octets. */
  lemma {:induction false} EncodeAppend(ts: seq<Token>, t: Token)
    ensures Encode(ts + [t]) == Encode(ts) + EncodeToken(t)
  {
    if ts != [] {
      assert (ts + [t])[1..] == ts[1..] + [t];
      EncodeAppend(ts[1..], t);
    }
  }

  /** Reads one token off the front of s: the four one-octet markers, or a
      head of major type 0, 2 or 3 (and a string's contents). */
  function DecodeToken(s: seq<byte>): (r: Option<(Token, nat)>)
    ensures r.Some? ==> 1 <= r.value.1 <= |s|
  {
    if |s| == 0 then None
    else if s[0] == 0x9F then Some((ArrayStart, 1))
    else if s[0] == 0xBF then Some((MapStart, 1))
    else if s[0] == 0xFF then Some((Break, 1))
    else if s[0] == 0xF6 then Some((Null, 1))
    else
      match DecodeHead(s)
      case None => None
      case Some(h) =>
        if h.major == MajorUint then Some((Uint(h.arg), h.size))
        else if h.major == MajorBytes && h.size + h.arg <= |s| then
          Some((Bytes(s[h.size..h.size + h.arg]), h.size + h.arg))
        else if h.major == MajorText && h.size + h.arg <= |s| then
          Some((Text(s[h.size..h.size + h.arg]), h.size + h.arg))
        else None
  }

  /** Reads tokens until s is used up; None if some octets are not a token. */
  function DecodeTokens(s: seq<byte>): Option<seq<Token>>
    decreases |s|
  {
    if s == [] then Some([])
    else
      match DecodeToken(s)
      case None => None
      case Some((t, n)) =>
        match DecodeTokens(s[n..])
        case None => None
        case Some(ts) => Some([t] + ts)
  }

  lemma DecodeString(major: Major, b: Str, rest: seq<byte>)
    requires major == MajorBytes || major == MajorText
    ensures |Head(major, |b|)| == HeadSize(|b|)
    ensures DecodeToken(Head(major, |b|) + b + rest)
         == Some(((if major == MajorBytes then Bytes(b) else Text(b)), HeadSize(|b|) + |b|))
  {
    var s := Head(major, |b|) + b + rest;
    HeadRoundTrip(major, |b|, b + rest);
    assert s == Head(major, |b|) + (b + rest);
    assert s[HeadSize(|b|)..HeadSize(|b|) + |b|] == b;
  }

  /** Reading back a token's octets, whatever follows them, gives the token
      and consumes exactly its octets. */
  lemma TokenRoundTrip(t: Token, rest: seq<byte>)
    ensures DecodeToken(EncodeToken(t) + rest) == Some((t, |EncodeToken(t)|))
  {
    match t
    case Uint(n) => HeadRoundTrip(MajorUint, n, rest);
    case Bytes(b) => DecodeString(MajorBytes, b, rest);
    case Text(x) => DecodeString(MajorText, x, rest);
    case _ =>
  }

  /** Reading back a stream of tokens gives exactly those tokens. */
  lemma {:induction false} RoundTrip(ts: seq<Token>)
    ensures DecodeTokens(Encode(ts)) == Some(ts)
  {
    if ts != [] {
      var a, b := EncodeToken(ts[0]), Encode(ts[1..]);
      TokenRoundTrip(ts[0], b);
      assert (a + b)[|a|..] == b;
      RoundTrip(ts[1..]);
      assert [ts[0]] + ts[1..] == ts;
    }
  }

  // ---------------------------------------------------------------------------
  // Nesting: when a stream is one indefinite-length container.

  predicate IsStart(t: Token)
  {
    t == ArrayStart || t == MapStart
  }

  /** No token of ts opens or closes a container. */
  predicate Flat(ts: seq<Token>)
  {
    forall i :: 0 <= i < |ts| ==> !IsStart(ts[i]) && ts[i] != Break
  }

  /** Reading ts with `depth` containers open, the break that closes the
      outermost one is the last token. */
  predicate Closes(ts: seq<Token>, depth: nat)
    requires depth >= 1
    decreases |ts|
  {
    if ts == [] then false
    else if ts[0] == Break then
      if depth == 1 then |ts| == 1 else Closes(ts[1..], depth - 1)
    else if IsStart(ts[0]) then Closes(ts[1..], depth + 1)
    else Closes(ts[1..], depth)
  }

  /** ts is one indefinite-length map: a map start whose matching break is
      the last token. */
  predicate IsMap(ts: seq<Token>)
  {
    |ts| >= 1 && ts[0] == MapStart && Closes(ts[1..], 1)
  }

  /** Scalars do not change the depth. */
  lemma {:induction false} ClosesFlat(a: seq<Token>, b: seq<Token>, depth: nat)
    requires depth >= 1 && Flat(a)
    ensures Closes(a + b, depth) == Closes(b, depth)
  {
    if a != [] {
      assert !IsStart(a[0]) && a[0] != Break;
      assert (a + b)[1..] == a[1..] + b;
      assert Flat(a[1..]);
      ClosesFlat(a[1..], b, depth);
    } else {
      assert a + b == b;
    }
  }

  /** A flat map nested inside leaves the depth as it was. */
  lemma ClosesNested(a: seq<Token>, b: seq<Token>, depth: nat)
    requires depth >= 1 && Flat(a)
    ensures Closes([MapStart] + a + [Break] + b, depth) == Closes(b, depth)
  {
    assert ([MapStart] + a + [Break] + b)[1..] == a + ([Break] + b);
    ClosesFlat(a, [Break] + b, depth + 1);
    assert ([Break] + b)[1..] == b;
  }
}
