/** Octets, fixed-width unsigned integers and their byte orders, shared by the
    CBOR packer (big-endian arguments) and the Ogg framer (little-endian
    header fields). */
module Bytes {

  /** An octet, the `uint8_t` of the C code. */
  newtype byte = x: int | 0 <= x < 0x100

  const U32_LIMIT: nat := 0x1_0000_0000
  const U64_LIMIT: nat := 0x1_0000_0000_0000_0000

  /** A value that fits a `uint32_t`. */
  type u32 = x: nat | x < U32_LIMIT
  /** A value that fits a `uint64_t`. */
  type u64 = x: nat | x < U64_LIMIT

  const I64_MIN: int := -0x8000_0000_0000_0000
  const I64_LIMIT: int := 0x8000_0000_0000_0000

  /** A value that fits an `int64_t`. */
  type i64 = x: int | I64_MIN <= x < I64_LIMIT

  /** `(uint64_t) x`: the two's-complement bits of x. */
  function Unsigned64(x: i64): (r: u64)
    ensures (r - x) % U64_LIMIT == 0
  {
    if x < 0 then x + U64_LIMIT else x
  }

  /** A `uint64_t` passed as an `int64_t`: the value with the same bits. */
  function Signed64(x: u64): (r: i64)
    ensures (r - x) % U64_LIMIT == 0
  {
    if x < I64_LIMIT then x else x - U64_LIMIT
  }

  /** Passing a `uint64_t` through an `int64_t` and back preserves it. */
  lemma UnsignedSigned64(x: u64)
    ensures Unsigned64(Signed64(x)) == x
  {}

  datatype Option<+T> = None | Some(value: T)

  function Pow256(k: nat): (r: nat)
    ensures r > 0
  {
    if k == 0 then 1 else 256 * Pow256(k - 1)
  }

  /** The powers that the C code's 16-, 32- and 64-bit bounds stand for. */
  lemma Pow256Values()
    ensures Pow256(1) == 0x100 && Pow256(2) == 0x1_0000
    ensures Pow256(4) == U32_LIMIT && Pow256(8) == U64_LIMIT
  {
    assert Pow256(3) == 0x100_0000;
    assert Pow256(5) == 0x100_0000_0000;
    assert Pow256(6) == 0x1_0000_0000_0000;
    assert Pow256(7) == 0x100_0000_0000_0000;
  }

  /** `(n >> 8*j) & 0xff`: a shift by 8*j is j shifts by 8. */
  function ByteOf(n: nat, j: nat): byte
  {
    if j == 0 then (n % 256) as byte else ByteOf(n / 256, j - 1)
  }

  /** n as k octets, most significant first (network order). */
  function BigEndian(n: nat, k: nat): (r: seq<byte>)
    ensures |r| == k
  {
    seq(k, i requires 0 <= i < k => ByteOf(n, k - 1 - i))
  }

  /** n as k octets, least significant first. */
  function LittleEndian(n: nat, k: nat): (r: seq<byte>)
    ensures |r| == k
  {
    seq(k, i requires 0 <= i < k => ByteOf(n, i))
  }

  /** The value of octets read most significant first. */
  function FromBigEndian(s: seq<byte>): nat
  {
    if s == [] then 0 else FromBigEndian(s[..|s| - 1]) * 256 + s[|s| - 1] as nat
  }

  /** The value of octets read least significant first. */
  function FromLittleEndian(s: seq<byte>): nat
  {
    if s == [] then 0 else s[0] as nat + 256 * FromLittleEndian(s[1..])
  }

  /** k octets cannot hold a value of 256^k or more. */
  lemma {:induction false} FromBigEndianBound(s: seq<byte>)
    ensures FromBigEndian(s) < Pow256(|s|)
  {
    if s != [] {
      FromBigEndianBound(s[..|s| - 1]);
    }
  }

  /** Reading back the big-endian octets of n gives n, when n fits in k octets. */
  lemma {:induction false} BigEndianRoundTrip(n: nat, k: nat)
    requires n < Pow256(k)
    ensures FromBigEndian(BigEndian(n, k)) == n
  {
    var s := BigEndian(n, k);
    if k > 0 {
      assert s[..k - 1] == BigEndian(n / 256, k - 1) by {
        forall i | 0 <= i < k - 1
          ensures s[i] == BigEndian(n / 256, k - 1)[i]
        {
          assert ByteOf(n, k - 1 - i) == ByteOf(n / 256, k - 2 - i);
        }
      }
      BigEndianRoundTrip(n / 256, k - 1);
      assert s[k - 1] == ByteOf(n, 0);
    }
  }

  /** Reading back the little-endian octets of n gives n, when n fits in k octets. */
  lemma {:induction false} LittleEndianRoundTrip(n: nat, k: nat)
    requires n < Pow256(k)
    ensures FromLittleEndian(LittleEndian(n, k)) == n
  {
    var s := LittleEndian(n, k);
    if k > 0 {
      assert s[1..] == LittleEndian(n / 256, k - 1) by {
        forall i | 1 <= i < k
          ensures s[i] == LittleEndian(n / 256, k - 1)[i - 1]
        {
          assert ByteOf(n, i) == ByteOf(n / 256, i - 1);
        }
      }
      LittleEndianRoundTrip(n / 256, k - 1);
    }
  }

  /** An ASCII string literal of the C code as the octets it occupies. */
  function Ascii(s: string): (r: seq<byte>)
    requires forall i :: 0 <= i < |s| ==> s[i] as int < 128
    ensures |r| == |s|
    ensures forall i :: 0 <= i < |s| ==> r[i] as int == s[i] as int
  {
    seq(|s|, i requires 0 <= i < |s| => s[i] as int as byte)
  }

  /** A C string's contents: no octet is the terminating NUL. */
  predicate NoNul(s: seq<byte>)
  {
    forall i :: 0 <= i < |s| ==> s[i] != 0
  }
}
