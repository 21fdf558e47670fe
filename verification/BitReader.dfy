/**
 * The bit reader (pkg/bits/reader.go). The object is proved against a simple form: an unbounded cursor
 * over the bits of the buffer, with zero bits behind its end; EOF is raised exactly when the cursor has
 * passed the end.
 */
module BitReader {
  import opened Arithmetic
  import opened Bytes

  function Pow2(n: nat): (r: nat)
    ensures r > 0
  {
    if n == 0 then 1 else 2 * Pow2(n - 1)
  }

  const MAX32 := 0x1_00_00_00_00

  // ---------------------------------------------------------------- the simple form

  /** `x >> k`. */
  function Shift(x: nat, k: nat): nat {
    if k == 0 then x else Shift(x, k - 1) / 2
  }

  /** Bit `i` of a byte, counted from the most significant. */
  function BitOf(x: Byte, i: nat): (r: nat)
    requires i < 8
    ensures r <= 1
  {
    Shift(x, 7 - i) % 2
  }

  function BitAt(b: Buf, p: nat): (r: nat)
    ensures r <= 1
  {
    if p / 8 < |b| then BitOf(b[p / 8], p % 8) else 0
  }

  /** The number in the `n` bits from `p` on, most significant first. */
  function U(b: Buf, p: nat, n: nat): nat {
    if n == 0 then 0 else 2 * U(b, p, n - 1) + BitAt(b, p + n - 1)
  }

  /** Zero bits in front of an Exp-Golomb code: at most 32, and none past the end of the buffer. */
  function Zeros(b: Buf, p: nat, k: nat): (r: nat)
    requires k <= 32
    ensures k <= r <= 32
    decreases 32 - k
  {
    if k == 32 || BitAt(b, p + k) != 0 || p + k >= 8 * |b| then k else Zeros(b, p, k + 1)
  }

  /** Unsigned Exp-Golomb: the value and the cursor behind it, with uint32 wrap-around. */
  function UE(b: Buf, p: nat): (r: (nat, nat))
    ensures r.1 >= p && r.0 < MAX32
  {
    var size := Zeros(b, p, 0);
    var start := if size == 32 then p + 32 else p + size + 1;
    ((U(b, start, size) + Pow2(size) - 1) % MAX32, start + size)
  }

  /** Signed Exp-Golomb from the unsigned code. */
  function Signed(v: nat): int {
    if v % 2 == 0 then -(v / 2) else (v + 1) % MAX32 / 2
  }

  lemma {:induction false} UBound(b: Buf, p: nat, n: nat)
    ensures U(b, p, n) < Pow2(n)
  {
    if n > 0 {
      UBound(b, p, n - 1);
    }
  }

  lemma {:induction false} UConcat(b: Buf, p: nat, m: nat, n: nat)
    ensures U(b, p, m + n) == U(b, p, m) * Pow2(n) + U(b, p + m, n)
  {
    hide BitAt;
    if n > 0 {
      UConcat(b, p, m, n - 1);
      DoubleAdd(U(b, p, m), Pow2(n - 1), U(b, p + m, n - 1));
    }
  }

  lemma AppendByte(b: Buf, p: nat, m: nat)
    ensures U(b, p, m + 8) == U(b, p, m) * 256 + U(b, p + m, 8)
  {
    hide U;
    UConcat(b, p, m, 8);
    Powers();
  }

  lemma DoubleAdd(u: nat, k: nat, v: nat)
    ensures 2 * (u * k + v) == u * (2 * k) + 2 * v
  {
  }

  lemma AddBit(u: nat, bit: nat, k: nat)
    ensures (2 * u + bit) * k == u * (2 * k) + bit * k
  {
  }

  /** An aligned group of eight bits is the byte. */
  lemma UByte(b: Buf, p: nat)
    requires p % 8 == 0 && p / 8 < |b|
    ensures U(b, p, 8) == b[p / 8]
  {
    UWithinByte(b, p, 8);
    assert Shift(b[p / 8], 0) == b[p / 8];
  }

  lemma {:induction false} UWithinByte(b: Buf, p: nat, n: nat)
    requires p % 8 == 0 && p / 8 < |b| && n <= 8
    ensures U(b, p, n) == Shift(b[p / 8], 8 - n)
  {
    if n == 0 {
      ShiftAll(b[p / 8]);
    } else {
      UWithinByte(b, p, n - 1);
      assert (p + n - 1) / 8 == p / 8 && (p + n - 1) % 8 == n - 1;
    }
  }

  lemma {:induction false} ShiftZero(k: nat)
    ensures Shift(0, k) == 0
  {
    if k > 0 {
      ShiftZero(k - 1);
    }
  }

  lemma ShiftAll(x: Byte)
    ensures Shift(x, 8) == 0
  {
    assert Shift(x, 0) == x;
    assert Shift(x, 1) < 128 && Shift(x, 2) < 64 && Shift(x, 3) < 32 && Shift(x, 4) < 16;
    assert Shift(x, 5) < 8 && Shift(x, 6) < 4 && Shift(x, 7) < 2;
  }

  /** A byte is the sum of its bits. */
  lemma EightBits(x: Byte)
    ensures x == 128 * BitOf(x, 0) + 64 * BitOf(x, 1) + 32 * BitOf(x, 2) + 16 * BitOf(x, 3)
                 + 8 * BitOf(x, 4) + 4 * BitOf(x, 5) + 2 * BitOf(x, 6) + BitOf(x, 7)
  {
    ShiftAll(x);
    assert Shift(x, 0) == x;
    assert forall k: nat :: k < 8 ==> Shift(x, k) == 2 * Shift(x, k + 1) + Shift(x, k) % 2;
  }

  lemma Powers()
    ensures Pow2(0) == 1 && Pow2(1) == 2 && Pow2(2) == 4 && Pow2(3) == 8 && Pow2(4) == 16
    ensures Pow2(5) == 32 && Pow2(6) == 64 && Pow2(7) == 128 && Pow2(8) == 256
    ensures Pow2(16) == 0x1_00_00 && Pow2(24) == 0x1_00_00_00 && Pow2(32) == MAX32
  {
    assert Pow2(8) == 256;
    assert Pow2(12) == 16 * Pow2(8);
    assert Pow2(16) == 16 * Pow2(12);
    assert Pow2(20) == 16 * Pow2(16);
    assert Pow2(24) == 16 * Pow2(20);
    assert Pow2(28) == 16 * Pow2(24);
    assert Pow2(32) == 16 * Pow2(28);
  }

  lemma {:induction false} PowGrows(m: nat, n: nat)
    requires m <= n
    ensures Pow2(m) <= Pow2(n)
  {
    if m < n {
      PowGrows(m, n - 1);
    }
  }

  lemma ModAdd(x: nat, y: nat)
    ensures (x % MAX32 + y) % MAX32 == (x + y) % MAX32
  {
    var q := x / MAX32;
    assert x + y == q * MAX32 + (x % MAX32 + y);
    ModShift(x % MAX32 + y, q, MAX32);
  }

  lemma {:induction false} UPastEnd(b: Buf, p: nat, n: nat)
    requires p >= 8 * |b|
    ensures U(b, p, n) == 0
  {
    if n > 0 {
      UPastEnd(b, p, n - 1);
    }
  }

  /** The 16- and 32-bit fields are those of the bit string: most significant byte first. */
  lemma FieldsAreBits(b: Buf)
    ensures |b| >= 2 ==> U16(b) == U(b, 0, 16)
    ensures |b| >= 4 ==> U32(b) == U(b, 0, 32)
  {
    hide U;
    if |b| >= 2 {
      UByte(b, 0);
      UByte(b, 8);
      AppendByte(b, 0, 8);
    }
    if |b| >= 4 {
      UByte(b, 16);
      UByte(b, 24);
      AppendByte(b, 0, 16);
      AppendByte(b, 0, 24);
    }
  }

  // ---------------------------------------------------------------- the object

  class Reader {
    var EOF: bool
    var buf: Buf
    var byte: Byte
    var bits: nat
    var pos: nat
    ghost var cursor: nat

    ghost predicate Valid()
      reads this
    {
      && bits < 8 && pos <= |buf|
      && (EOF <==> cursor > 8 * |buf|)
      && (!EOF ==> cursor == 8 * pos - bits && (bits > 0 ==> byte == buf[pos - 1]))
      && (EOF ==> pos == |buf| && (bits > 0 ==> byte == 0))
    }

    constructor (b: Buf)
      ensures Valid() && buf == b && cursor == 0 && !EOF && bits == 0
    {
      EOF, buf, byte, bits, pos, cursor := false, b, 0, 0, 0, 0;
    }

    method ReadByte() returns (r: Byte)
      requires Valid()
      modifies this
      ensures Valid() && buf == old(buf) && cursor == old(cursor) + 8 && (old(bits) == 0 ==> bits == 0)
      ensures r == U(buf, old(cursor), 8)
      decreases 2
    {
      if bits != 0 {
        var v := ReadBits(8);
        Powers();
        return v;
      }
      cursor := cursor + 8;
      if pos >= |buf| {
        UPastEnd(buf, old(cursor), 8);
        EOF := true;
        return 0;
      }
      r := buf[pos];
      UByte(buf, old(cursor));
      pos := pos + 1;
    }

    /** ReadBit, after refilling `byte` when its bits are used up. */
    method ReadBit() returns (r: nat)
      requires Valid()
      modifies this
      ensures Valid() && buf == old(buf) && cursor == old(cursor) + 1
      ensures r == BitAt(buf, old(cursor)) && (EOF <==> cursor > 8 * |buf|)
      decreases 0
    {
      if bits == 0 {
        if pos >= |buf| {
          EOF := true;
          byte := 0;
        } else {
          byte := buf[pos];
          pos := pos + 1;
        }
        bits := 7;
      } else {
        bits := bits - 1;
      }
      ShiftZero(bits);
      ghost var p := cursor;
      assert !EOF ==> p / 8 == pos - 1 && p % 8 == 7 - bits;
      cursor := cursor + 1;
      r := Shift(byte, bits) % 2;
    }

    /** A uint32 accumulator: bits beyond the 32 lowest are shifted out. */
    method ReadBits(n: nat) returns (res: nat)
      requires Valid() && n < 256
      modifies this
      ensures Valid() && buf == old(buf) && cursor == old(cursor) + n
      ensures res == U(buf, old(cursor), n) % MAX32
      ensures n <= 32 ==> res == U(buf, old(cursor), n) && res < Pow2(n)
      decreases 1
    {
      hide U, BitAt, Pow2, Valid, Register;
      RegisterStart(buf, cursor, n);
      res := 0;
      // a byte counts down from n - 1 and wraps from 0 to 255
      var i: nat := if n == 0 then 255 else n - 1;
      ghost var left := n;
      while i != 255
        invariant Valid() && buf == old(buf) && left <= n && i == (if left == 0 then 255 else left - 1)
        invariant cursor == old(cursor) + (n - left)
        invariant res == Register(buf, old(cursor), n - left, left)
        decreases left
      {
        var bit := ReadBit();
        RegisterNext(buf, old(cursor), n - left, i);
        res := (res + bit * Pow2(i)) % MAX32;
        i := if i == 0 then 255 else i - 1;
        left := left - 1;
      }
      RegisterFull(buf, old(cursor), n);
    }

    method ReadUint16() returns (r: nat)
      requires Valid()
      modifies this
      ensures Valid() && buf == old(buf) && cursor == old(cursor) + 16
      ensures r == U(buf, old(cursor), 16)
    {
      hide U;
      if bits != 0 {
        r := ReadBits(16);
        return;
      }
      var hi: int := ReadByte();
      var lo: int := ReadByte();
      AppendByte(buf, old(cursor), 8);
      r := hi * 256 + lo;
    }

    method ReadUint24() returns (r: nat)
      requires Valid()
      modifies this
      ensures Valid() && buf == old(buf) && cursor == old(cursor) + 24
      ensures r == U(buf, old(cursor), 24)
    {
      hide U;
      if bits != 0 {
        r := ReadBits(24);
        return;
      }
      var hi: int := ReadByte();
      var mid: int := ReadByte();
      var lo: int := ReadByte();
      AppendByte(buf, old(cursor), 8);
      AppendByte(buf, old(cursor), 16);
      r := hi * 0x1_00_00 + mid * 256 + lo;
    }

    method ReadUint32() returns (r: nat)
      requires Valid()
      modifies this
      ensures Valid() && buf == old(buf) && cursor == old(cursor) + 32
      ensures r == U(buf, old(cursor), 32)
    {
      hide U;
      if bits != 0 {
        r := ReadBits(32);
        return;
      }
      var b3: int := ReadByte();
      var b2: int := ReadByte();
      var b1: int := ReadByte();
      var b0: int := ReadByte();
      AppendByte(buf, old(cursor), 8);
      AppendByte(buf, old(cursor), 16);
      AppendByte(buf, old(cursor), 24);
      r := b3 * 0x1_00_00_00 + b2 * 0x1_00_00 + b1 * 256 + b0;
    }

    method ReadUEGolomb() returns (r: nat)
      requires Valid()
      modifies this
      ensures Valid() && buf == old(buf) && (r, cursor) == UE(buf, old(cursor))
    {
      hide U, BitAt, Pow2, Shift, Zeros, UE;
      var size := 0;
      var stopped := false;
      while size < 32
        invariant Valid() && buf == old(buf) && size <= 32 && !stopped
        invariant cursor == old(cursor) + size && Zeros(buf, old(cursor), 0) == Zeros(buf, old(cursor), size)
      {
        ZerosNext(buf, old(cursor), size);
        var b := ReadBit();
        hide Valid;
        if b != 0 || EOF {
          stopped := true;
          break;
        }
        size := size + 1;
      }
      hide Valid;
      ZerosNext(buf, old(cursor), size);
      UEParts(buf, old(cursor), size);
      var v := ReadBits(size);
      r := (v + Pow2(size) - 1) % MAX32;
    }

    method ReadSEGolomb() returns (r: int)
      requires Valid()
      modifies this
      ensures Valid() && buf == old(buf) && cursor == UE(buf, old(cursor)).1 && r == Signed(UE(buf, old(cursor)).0)
    {
      var b := ReadUEGolomb();
      if b % 2 == 0 {
        r := -(b / 2);
      } else {
        r := (b + 1) % MAX32 / 2;
      }
    }

    /**
     * The byte and the bit (counted from the least significant) of the bit read last; before the first read
     * the byte in front of the buffer, past the end the last byte.
     */
    method Pos() returns (at: int, bit: nat)
      requires Valid()
      ensures !EOF && cursor > 0 ==> at == (cursor - 1) / 8 && bit == 7 - (cursor - 1) % 8
      ensures cursor == 0 ==> at == -1 && bit == 0
      ensures EOF ==> at == |buf| - 1 && bit < 8
    {
      return pos - 1, bits;
    }
  }

  /** The accumulator of ReadBits: the bits read so far in front of room for the `left` bits to come. */
  ghost function Register(b: Buf, p: nat, done: nat, left: nat): nat {
    U(b, p, done) * Pow2(left) % MAX32
  }

  lemma RegisterStart(b: Buf, p: nat, n: nat)
    ensures Register(b, p, 0, n) == 0
  {
    assert U(b, p, 0) == 0;
  }

  lemma RegisterNext(b: Buf, p: nat, done: nat, i: nat)
    ensures Register(b, p, done + 1, i) == (Register(b, p, done, i + 1) + BitAt(b, p + done) * Pow2(i)) % MAX32
  {
    hide BitAt;
    AddBit(U(b, p, done), BitAt(b, p + done), Pow2(i));
    ModAdd(U(b, p, done) * Pow2(i + 1), BitAt(b, p + done) * Pow2(i));
  }

  lemma RegisterFull(b: Buf, p: nat, n: nat)
    ensures Register(b, p, n, 0) == U(b, p, n) % MAX32
    ensures n <= 32 ==> U(b, p, n) % MAX32 == U(b, p, n) < Pow2(n)
  {
    hide U;
    assert Pow2(0) == 1;
    UBound(b, p, n);
    if n <= 32 {
      PowGrows(n, 32);
      Powers();
    }
  }

  lemma ZerosNext(b: Buf, p: nat, k: nat)
    requires k <= 32
    ensures Zeros(b, p, k) ==
            if k == 32 || BitAt(b, p + k) != 0 || p + k >= 8 * |b| then k else Zeros(b, p, k + 1)
  {
  }

  lemma UEParts(b: Buf, p: nat, size: nat)
    requires size == Zeros(b, p, 0)
    ensures var start := if size == 32 then p + 32 else p + size + 1;
            UE(b, p) == ((U(b, start, size) + Pow2(size) - 1) % MAX32, start + size)
  {
    hide U, Pow2, Zeros;
  }
}
