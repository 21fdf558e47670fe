/**
 * Syntax tables over a bit string: fixed-width fields u(n) and the Exp-Golomb codes ue(v) and se(v) of section 9.1
 * of ITU-T H.264, standing one after another. The bit reader's methods read back what such a table holds.
 */
module BitSyntax {
  import opened Arithmetic
  import opened Bytes
  import opened BitReader
  import opened BitWriter

  datatype Element = Bits(value: nat, width: nat) | Ue(value: nat) | Se(number: int)

  /** The position of the highest one bit. */
  function Log2(x: nat): (k: nat)
    requires x > 0
    ensures Pow2(k) <= x < Pow2(k + 1)
  {
    if x == 1 then 0 else Log2(x / 2) + 1
  }

  /** Positive numbers take the odd codes, the others the even ones. */
  function CodeOf(number: int): nat {
    if number > 0 then 2 * number - 1 else -2 * number
  }

  function Width(e: Element): nat {
    match e
    case Bits(_, n) => n
    case Ue(v) => 2 * Log2(v + 1) + 1
    case Se(m) => 2 * Log2(CodeOf(m) + 1) + 1
  }

  /** k zeros, a one and k more bits: v + 1 in 2 k + 1 bits. */
  ghost predicate UeAt(b: Buf, p: nat, v: nat) {
    v < MAX32 - 1 && Holds(b, p, v + 1, 2 * Log2(v + 1) + 1)
  }

  ghost predicate ElementAt(b: Buf, p: nat, e: Element) {
    && p + Width(e) <= 8 * |b|
    && match e
       case Bits(v, n) => v < Pow2(n) && Holds(b, p, v, n)
       case Ue(v) => UeAt(b, p, v)
       case Se(m) => UeAt(b, p, CodeOf(m))
  }

  /** Where element `i` of the table begins. */
  function At(p: nat, es: seq<Element>, i: nat): (r: nat)
    requires i <= |es|
    ensures r >= p
  {
    if i == 0 then p else At(p, es, i - 1) + Width(es[i - 1])
  }

  function Behind(p: nat, es: seq<Element>): (r: nat)
    ensures r >= p
  {
    At(p, es, |es|)
  }

  /** The elements stand one after another from bit `p` on. */
  ghost predicate Stands(b: Buf, p: nat, es: seq<Element>) {
    forall i :: 0 <= i < |es| ==> ElementAt(b, At(p, es, i), es[i])
  }

  // ---------------------------------------------------------------- one code

  lemma {:induction false} ShiftHalf(x: nat, k: nat)
    ensures Shift(x, k + 1) == Shift(x / 2, k)
  {
    if k > 0 {
      ShiftHalf(x, k - 1);
    }
  }

  lemma {:induction false} ShiftTop(x: nat, k: nat, m: nat)
    requires Pow2(k) <= x < Pow2(k + 1) && k <= m
    ensures Shift(x, m) == if m == k then 1 else 0
    decreases m
  {
    if k > 0 {
      ShiftHalf(x, m - 1);
      ShiftTop(x / 2, k - 1, m - 1);
    } else if m > 0 {
      assert Pow2(0) == 1 && Pow2(1) == 2;
      ShiftHalf(x, m - 1);
      ShiftZero(m - 1);
    }
  }

  /** The bits of a code: zeros, the one, and the rest of the value. */
  lemma CodeBits(b: Buf, p: nat, x: nat, k: nat)
    requires Pow2(k) <= x < Pow2(k + 1) && Holds(b, p, x, 2 * k + 1)
    ensures AllBits(b, p, k, 0) && BitAt(b, p + k) == 1
    ensures Holds(b, p + k + 1, x, k)
  {
    hide BitAt, Shift, Pow2;
    forall q: nat | p <= q <= p + k
      ensures BitAt(b, q) == if q == p + k then 1 else 0
    {
      ShiftTop(x, k, p + 2 * k - q);
    }
  }

  lemma {:induction false} ZerosCounted(b: Buf, p: nat, i: nat, k: nat)
    requires i <= k < 32 && p + k < 8 * |b| && BitAt(b, p + k) == 1
    requires AllBits(b, p, k, 0)
    ensures Zeros(b, p, i) == k
    decreases k - i
  {
    hide BitAt, Zeros;
    ZerosNext(b, p, i);
    if i < k {
      assert BitAt(b, p + i) == 0;
      ZerosCounted(b, p, i + 1, k);
    }
  }

  lemma ModTop(x: nat, m: nat)
    requires 0 < m <= x < 2 * m
    ensures x % m == x - m
  {
    ModUnique(x, m, 1, x - m);
  }

  lemma Log2Small(x: nat)
    requires 0 < x < MAX32
    ensures Log2(x) < 32
  {
    Powers();
    if Log2(x) >= 32 {
      PowGrows(32, Log2(x));
    }
  }

  lemma CodeValue(u: nat, v: nat, m: nat)
    requires 0 < m <= v + 1 < 2 * m && u == (v + 1) % m && v < MAX32
    ensures (u + m - 1) % MAX32 == v
  {
    ModTop(v + 1, m);
    ModUnique(v, MAX32, 0, v);
  }

  lemma CodeReadBack(b: Buf, p: nat, v: nat, k: nat)
    requires Pow2(k) <= v + 1 < Pow2(k + 1) && k < 32 && v < MAX32
    requires Holds(b, p, v + 1, 2 * k + 1) && p + 2 * k + 1 <= 8 * |b|
    ensures UE(b, p) == (v, p + 2 * k + 1)
  {
    hide UE, U, Zeros, BitAt, Shift, Holds, AllBits;
    assert Pow2(k + 1) == 2 * Pow2(k);
    hide Pow2;
    CodeBits(b, p, v + 1, k);
    ZerosCounted(b, p, 0, k);
    UEParts(b, p, k);
    FieldReadBack(b, p + k + 1, v + 1, k);
    CodeValue(U(b, p + k + 1, k), v, Pow2(k));
  }

  /** Unsigned Exp-Golomb: the reader returns the number that was coded. */
  lemma UeReadBack(b: Buf, p: nat, v: nat)
    requires UeAt(b, p, v) && p + 2 * Log2(v + 1) + 1 <= 8 * |b|
    ensures UE(b, p) == (v, p + 2 * Log2(v + 1) + 1)
  {
    hide UE, Holds, Log2, Pow2;
    Log2Small(v + 1);
    CodeReadBack(b, p, v, Log2(v + 1));
  }

  /** Signed Exp-Golomb: 0, 1, -1, 2, -2 and so on for the codes 0, 1, 2, 3, 4. */
  lemma SignedOfCode(m: int)
    requires CodeOf(m) < MAX32 - 1
    ensures Signed(CodeOf(m)) == m
  {
  }

  lemma BitsReadBack(b: Buf, p: nat, v: nat, n: nat)
    requires v < Pow2(n) && Holds(b, p, v, n)
    ensures U(b, p, n) == v && (n == 1 ==> BitAt(b, p) == v)
  {
    FieldReadBack(b, p, v, n);
    ModUnique(v, Pow2(n), 0, v);
    assert n == 1 ==> U(b, p, 1) == 2 * U(b, p, 0) + BitAt(b, p);
  }

  // ---------------------------------------------------------------- a table

  /** The reader at `q` finds the element, and the cursor is at `next` behind it, within the buffer. */
  predicate Found(b: Buf, q: nat, e: Element, next: nat) {
    && next <= 8 * |b|
    && match e
       case Bits(v, n) => next == q + n && U(b, q, n) == v < Pow2(n) && (n == 1 ==> BitAt(b, q) == v)
       case Ue(v) => UE(b, q) == (v, next)
       case Se(m) => UE(b, q).1 == next && Signed(UE(b, q).0) == m
  }

  lemma ReadElement(b: Buf, q: nat, e: Element)
    requires ElementAt(b, q, e)
    ensures Found(b, q, e, q + Width(e))
  {
    hide UE, U, BitAt, Holds, Pow2, Signed, Log2;
    match e
    case Bits(v, n) => BitsReadBack(b, q, v, n);
    case Ue(v) => UeReadBack(b, q, v);
    case Se(m) =>
      UeReadBack(b, q, CodeOf(m));
      SignedOfCode(m);
  }

  lemma Read(b: Buf, p: nat, es: seq<Element>, i: nat)
    requires Stands(b, p, es) && i < |es|
    ensures Found(b, At(p, es, i), es[i], At(p, es, i + 1))
  {
    hide ElementAt, Width, Found;
    AtNext(p, es, i);
    ReadElement(b, At(p, es, i), es[i]);
  }

  lemma AtNext(p: nat, es: seq<Element>, i: nat)
    requires i < |es|
    ensures At(p, es, i + 1) == At(p, es, i) + Width(es[i])
  {
    hide Width;
  }

  lemma AtStart(p: nat, es: seq<Element>)
    ensures At(p, es, 0) == p
  {
  }

  lemma {:induction false} AtPrefix(p: nat, xs: seq<Element>, ys: seq<Element>, i: nat)
    requires i <= |xs|
    ensures At(p, xs + ys, i) == At(p, xs, i)
  {
    hide Width;
    if i > 0 {
      AtPrefix(p, xs, ys, i - 1);
    }
  }

  lemma {:induction false} AtRest(p: nat, xs: seq<Element>, ys: seq<Element>, j: nat)
    requires j <= |ys|
    ensures At(p, xs + ys, |xs| + j) == At(Behind(p, xs), ys, j)
  {
    hide Width;
    if j == 0 {
      AtPrefix(p, xs, ys, |xs|);
    } else {
      AtRest(p, xs, ys, j - 1);
    }
  }

  /** A table made of two is the second standing behind the first. */
  lemma StandsApart(b: Buf, p: nat, xs: seq<Element>, ys: seq<Element>)
    requires Stands(b, p, xs + ys)
    ensures Stands(b, p, xs) && Stands(b, Behind(p, xs), ys) && Behind(p, xs + ys) == Behind(Behind(p, xs), ys)
  {
    hide Width, ElementAt, At, Behind;
    forall i | 0 <= i < |xs|
      ensures ElementAt(b, At(p, xs, i), xs[i])
    {
      AtPrefix(p, xs, ys, i);
      assert (xs + ys)[i] == xs[i];
    }
    forall j | 0 <= j < |ys|
      ensures ElementAt(b, At(Behind(p, xs), ys, j), ys[j])
    {
      AtRest(p, xs, ys, j);
      assert (xs + ys)[|xs| + j] == ys[j];
    }
    BehindBoth(p, xs, ys);
  }

  lemma BehindBoth(p: nat, xs: seq<Element>, ys: seq<Element>)
    ensures Behind(p, xs + ys) == Behind(Behind(p, xs), ys)
  {
    AtRest(p, xs, ys, |ys|);
  }
}
