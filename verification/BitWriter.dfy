/**
 * The bit writer (pkg/bits/writer.go), described by what the bit reader would read back: each write
 * appends its bits, keeps every earlier bit, and leaves zero bits behind the cursor.
 */
module BitWriter {
  import opened Arithmetic
  import opened Bytes
  import opened BitReader

  /** The writes so far are untouched: `c` agrees with `b` on the first `n` bits. */
  ghost predicate Agree(b: Buf, c: Buf, n: nat) {
    forall p: nat :: p < n ==> BitAt(c, p) == BitAt(b, p)
  }

  /** The `n` low bits of `v` stand at `start`, most significant first. */
  ghost predicate Holds(b: Buf, start: int, v: nat, n: nat) {
    forall p: nat :: start <= p < start + n ==> BitAt(b, p) == Shift(v, start + n - 1 - p) % 2
  }

  ghost predicate AllBits(b: Buf, start: int, n: nat, bit: nat) {
    forall p: nat :: start <= p < start + n ==> BitAt(b, p) == bit
  }

  // ---------------------------------------------------------------- reading back what was written

  /** Reading back a written field gives the value modulo its width. */
  lemma {:induction false} ReadBack(b: Buf, start: nat, v: nat, n: nat, k: nat)
    requires Holds(b, start, v, n) && k <= n
    ensures U(b, start, k) == Shift(v, n - k) % Pow2(k)
  {
    hide BitAt;
    if k > 0 {
      ReadBack(b, start, v, n, k - 1);
      assert BitAt(b, start + k - 1) == Shift(v, n - k) % 2;
      ModDouble(Shift(v, n - k), Pow2(k - 1));
    }
  }

  lemma ModDouble(x: nat, m: nat)
    requires m > 0
    ensures x % (2 * m) == 2 * (x / 2 % m) + x % 2
  {
    var q := x / 2 / m;
    assert x / 2 == q * m + x / 2 % m;
    assert x == 2 * (x / 2) + x % 2;
    assert x == q * (2 * m) + (2 * (x / 2 % m) + x % 2);
    assert 2 * (x / 2 % m) + x % 2 < 2 * m;
    ModUnique(x, 2 * m, q, 2 * (x / 2 % m) + x % 2);
  }

  lemma FieldReadBack(b: Buf, start: nat, v: nat, n: nat)
    requires Holds(b, start, v, n)
    ensures U(b, start, n) == v % Pow2(n)
  {
    ReadBack(b, start, v, n, n);
  }

  // ---------------------------------------------------------------- setting one bit of a byte

  lemma {:induction false} ShiftAdd(x: nat, k: nat, m: nat)
    requires Shift(x, k) % 2 == 0
    ensures Shift(x + Pow2(k), m) == Shift(x, m) + (if m <= k then Pow2(k - m) else 0)
  {
    if m > 0 {
      ShiftAdd(x, k, m - 1);
      if m <= k {
        assert Pow2(k - (m - 1)) == 2 * Pow2(k - m);
      } else if m == k + 1 {
        assert Pow2(0) == 1;
      }
    }
  }

  /** Setting a clear bit sets that bit and no other. */
  lemma SetBits(x: Byte, i: nat, j: nat)
    requires i < 8 && j < 8 && BitOf(x, i) == 0 && x + Pow2(7 - i) < 256
    ensures BitOf(x + Pow2(7 - i), j) == if i == j then 1 else BitOf(x, j)
  {
    hide Shift, Pow2;
    var k, m := 7 - i, 7 - j;
    ShiftAdd(x, k, m);
    if m <= k {
      PowParity(k - m);
    }
  }

  lemma PowParity(d: nat)
    ensures Pow2(d) % 2 == if d == 0 then 1 else 0
  {
  }

  /** A byte whose bits from `i` on are clear has room for bit `i`. */
  lemma SetFits(x: Byte, i: nat)
    requires i < 8 && forall j :: i <= j < 8 ==> BitOf(x, j) == 0
    ensures x + Pow2(7 - i) < 256
  {
    hide BitOf, Pow2;
    EightBits(x);
    Powers();
  }

  /** `|=` of a bit into the last byte, where that bit and all behind it are clear. */
  function OrBit(x: Byte, i: nat, bit: nat): Byte
    requires i < 8 && bit <= 1 && forall j :: i <= j < 8 ==> BitOf(x, j) == 0
  {
    SetFits(x, i);
    x + bit * Pow2(7 - i)
  }

  class Writer {
    var buf: Buf
    var bits: nat

    function Cursor(): int
      reads this
    {
      8 * |buf| - bits
    }

    ghost predicate Valid()
      reads this
    {
      bits < 8 && (bits > 0 ==> buf != []) && forall p: nat :: Cursor() <= p ==> BitAt(buf, p) == 0
    }

    constructor ()
      ensures Valid() && buf == [] && Cursor() == 0
    {
      buf, bits := [], 0;
    }

    method WriteBit(b: nat)
      requires Valid()
      modifies this
      ensures Valid() && Cursor() == old(Cursor()) + 1
      ensures BitAt(buf, old(Cursor())) == b % 2 && Agree(old(buf), buf, old(Cursor()))
    {
      ghost var start, before := Cursor(), buf;
      if bits == 0 {
        buf := buf + [0];
        bits := 7;
        ZeroByte();
        assert forall p: nat :: p < 8 * |before| ==> p / 8 < |before|;
      } else {
        bits := bits - 1;
      }
      assert Agree(before, buf, start) && forall p: nat :: start <= p ==> BitAt(buf, p) == 0;
      var last, i := |buf| - 1, 7 - bits;
      assert start == 8 * last + i;
      assert forall j :: i <= j < 8 ==> BitOf(buf[last], j) == BitAt(buf, 8 * last + j) == 0;
      ghost var was := buf;
      buf := buf[last := OrBit(buf[last], i, b % 2)];
      BitChanged(was, buf, last, i, b % 2);
    }

    method WriteBits(v: nat, n: nat)
      requires Valid() && n < 256
      modifies this
      ensures Valid() && Cursor() == old(Cursor()) + n && Agree(old(buf), buf, old(Cursor()))
      ensures Holds(buf, old(Cursor()), v, n)
    {
      hide BitAt, Shift;
      var i: nat := if n == 0 then 255 else n - 1;
      ghost var left := n;
      while i != 255
        invariant Valid() && left <= n && i == (if left == 0 then 255 else left - 1)
        invariant Cursor() == old(Cursor()) + (n - left) && Agree(old(buf), buf, old(Cursor()))
        invariant forall p: nat :: old(Cursor()) <= p < Cursor() ==>
                    BitAt(buf, p) == Shift(v, old(Cursor()) + n - 1 - p) % 2
        decreases left
      {
        ghost var before := buf;
        WriteBit(Shift(v, i) % 2);
        assert forall p: nat :: p < Cursor() - 1 ==> BitAt(buf, p) == BitAt(before, p);
        i := if i == 0 then 255 else i - 1;
        left := left - 1;
      }
    }

    method WriteAllBits(bit: nat, n: nat)
      requires Valid()
      modifies this
      ensures Valid() && Cursor() == old(Cursor()) + n && Agree(old(buf), buf, old(Cursor()))
      ensures AllBits(buf, old(Cursor()), n, bit % 2)
    {
      hide BitAt;
      for i := 0 to n
        invariant Valid() && Cursor() == old(Cursor()) + i && Agree(old(buf), buf, old(Cursor()))
        invariant AllBits(buf, old(Cursor()), i, bit % 2)
      {
        ghost var before := buf;
        WriteBit(bit);
        assert forall p: nat :: p < Cursor() - 1 ==> BitAt(buf, p) == BitAt(before, p);
      }
    }

    method WriteBool(b: bool)
      requires Valid()
      modifies this
      ensures Valid() && Cursor() == old(Cursor()) + 1
      ensures BitAt(buf, old(Cursor())) == (if b then 1 else 0) && Agree(old(buf), buf, old(Cursor()))
    {
      if b {
        WriteBit(1);
      } else {
        WriteBit(0);
      }
    }
  }

  lemma ZeroByte()
    ensures forall j :: 0 <= j < 8 ==> BitOf(0, j) == 0
  {
    forall j | 0 <= j < 8 ensures BitOf(0, j) == 0 {
      ShiftZero(7 - j);
    }
  }

  lemma BitChanged(b: Buf, c: Buf, at: nat, i: nat, bit: nat)
    requires at < |b| && i < 8 && bit <= 1 && forall j :: i <= j < 8 ==> BitOf(b[at], j) == 0
    requires c == b[at := OrBit(b[at], i, bit)]
    ensures forall p: nat :: BitAt(c, p) == if p == 8 * at + i then bit else BitAt(b, p)
  {
    SetFits(b[at], i);
    forall p: nat ensures BitAt(c, p) == if p == 8 * at + i then bit else BitAt(b, p) {
      if p / 8 == at {
        assert p == 8 * at + p % 8;
        if bit == 1 {
          SetBits(b[at], i, p % 8);
        }
      }
    }
  }
}
