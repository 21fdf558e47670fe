/** Bytes, big-endian fields and byte lists. Bit fields of a byte are written as quotients and remainders. */
module Bytes {
  type Byte = x: int | 0 <= x < 256

  type Buf = seq<Byte>

  /** The 16-bit field holding `n`, truncated like Go's uint16 conversion. */
  function U16Bytes(n: nat): (r: Buf)
    ensures |r| == 2
  {
    [n / 256 % 256, n % 256]
  }

  function U16(b: Buf): (r: nat)
    requires |b| >= 2
    ensures r < 0x1_00_00
  {
    (b[0] as int) * 256 + b[1] as int
  }

  /** The 32-bit field holding `n`, truncated like Go's uint32 conversion. */
  function U32Bytes(n: nat): (r: Buf)
    ensures |r| == 4
  {
    U16Bytes(n / 0x1_00_00) + U16Bytes(n)
  }

  function U32(b: Buf): (r: nat)
    requires |b| >= 4
    ensures r < 0x1_00_00_00_00
  {
    U16(b) * 0x1_00_00 + U16(b[2..])
  }

  /** A number modulo 65536 is its two low base-256 digits. */
  lemma TwoDigits(n: nat)
    ensures n % 0x1_00_00 == n / 256 % 256 * 256 + n % 256
  {
    var q := n / 256;
    var low := q % 256 * 256 + n % 256;
    assert n == q / 256 * 0x1_00_00 + low && 0 <= low < 0x1_00_00;
  }

  lemma U16RoundTrip(n: nat, rest: Buf)
    ensures U16(U16Bytes(n) + rest) == n % 0x1_00_00
  {
    var b := U16Bytes(n) + rest;
    assert b[0] == n / 256 % 256 && b[1] == n % 256;
    TwoDigits(n);
  }

  lemma U32RoundTrip(n: nat, rest: Buf)
    requires n < 0x1_00_00_00_00
    ensures U32(U32Bytes(n) + rest) == n
  {
    hide U16, U16Bytes;
    var hi, lo := U16Bytes(n / 0x1_00_00), U16Bytes(n);
    var b := U32Bytes(n) + rest;
    assert b == hi + (lo + rest);
    assert b[2..] == lo + rest;
    U16RoundTrip(n / 0x1_00_00, lo + rest);
    U16RoundTrip(n, rest);
  }

  function Concat(parts: seq<Buf>): Buf {
    if parts == [] then [] else parts[0] + Concat(parts[1..])
  }

  lemma {:induction false} ConcatAppend(a: seq<Buf>, b: seq<Buf>)
    ensures Concat(a + b) == Concat(a) + Concat(b)
  {
    if a == [] {
      assert a + b == b;
    } else {
      assert (a + b)[1..] == a[1..] + b;
      ConcatAppend(a[1..], b);
    }
  }

  /** The non-empty members, in order. */
  function NonEmpty(nals: seq<Buf>): (r: seq<Buf>)
    ensures forall n <- r :: n != [] && n in nals
  {
    if nals == [] then []
    else (if nals[0] == [] then [] else [nals[0]]) + NonEmpty(nals[1..])
  }

  lemma {:induction false} NonEmptyAppend(a: seq<Buf>, b: seq<Buf>)
    ensures NonEmpty(a + b) == NonEmpty(a) + NonEmpty(b)
  {
    if a == [] {
      assert a + b == b;
    } else {
      assert (a + b)[1..] == a[1..] + b;
      NonEmptyAppend(a[1..], b);
    }
  }
}
