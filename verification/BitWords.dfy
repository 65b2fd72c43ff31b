/** The 32-bit words of the code encoder: what a word's shifts and masks are worth as numbers. */
module BitWords {

  function Pow2(n: nat): (r: nat)
    ensures r >= 1
  {
    if n == 0 then 1 else 2 * Pow2(n - 1)
  }

  /** The number a word is in binary. */
  function Num(x: bv32): nat
    decreases x
  {
    if x == 0 then 0 else 2 * Num(x >> 1) + if x & 1 == 1 then 1 else 0
  }

  lemma Halves(x: bv32)
    ensures Num(x >> 1) == Num(x) / 2 && Num(x) % 2 == if x & 1 == 1 then 1 else 0
  {
  }

  lemma {:induction false} OnlyZeroIsZero(x: bv32)
    requires Num(x) == 0
    ensures x == 0
    decreases x
  {
    assert x >> 1 == 0 && x & 1 == 0 ==> x == 0;
    if x != 0 {
      OnlyZeroIsZero(x >> 1);
    }
  }

  // ---------------------------------------------------------------- one place at a time

  /** `x >>> k`, by the distance. */
  function Shifted(x: bv32, k: nat): bv32 {
    match k
    case 0 => x
    case 1 => x >> 1
    case 2 => x >> 2
    case 3 => x >> 3
    case 4 => x >> 4
    case 5 => x >> 5
    case 6 => x >> 6
    case 7 => x >> 7
    case _ => x >> 8
  }

  /** `(1 << k) - 1`, by the width. */
  function Mask(k: nat): bv32 {
    match k
    case 0 => 0
    case 1 => 1
    case 2 => 3
    case 3 => 7
    case 4 => 15
    case 5 => 31
    case 6 => 63
    case 7 => 127
    case _ => 255
  }

  function Masked(x: bv32, k: nat): bv32 { x & Mask(k) }

  function RightShift(x: bv32, k: nat): bv32
    requires k <= 32
  {
    x >> k
  }

  lemma ShiftsByPlace(x: bv32)
    ensures RightShift(x, 0) == Shifted(x, 0) && RightShift(x, 1) == Shifted(x, 1)
    ensures RightShift(x, 2) == Shifted(x, 2) && RightShift(x, 3) == Shifted(x, 3)
    ensures RightShift(x, 4) == Shifted(x, 4) && RightShift(x, 5) == Shifted(x, 5)
    ensures RightShift(x, 6) == Shifted(x, 6) && RightShift(x, 7) == Shifted(x, 7)
    ensures RightShift(x, 8) == Shifted(x, 8)
  {
  }

  lemma RightShiftIsShifted(x: bv32, k: nat)
    requires k <= 8
    ensures RightShift(x, k) == Shifted(x, k)
  {
    hide RightShift, Shifted;
    ShiftsByPlace(x);
    assert k == 0 || k == 1 || k == 2 || k == 3 || k == 4 || k == 5 || k == 6 || k == 7 || k == 8;
  }

  lemma ShiftedIsShift(x: bv32, k: nat)
    requires k <= 8
    ensures x >> k == Shifted(x, k)
  {
    hide Shifted;
    RightShiftIsShifted(x, k);
  }

  lemma MaskIsOnes(k: nat)
    requires k <= 8
    ensures (1 << k) - 1 == Mask(k)
  {
  }

  lemma ShiftStep(x: bv32, k: nat)
    requires 1 <= k <= 8
    ensures Shifted(x >> 1, k - 1) == Shifted(x, k)
  {
  }

  lemma MaskStep(x: bv32, k: nat)
    requires 1 <= k <= 8
    ensures Masked(x, k) & 1 == x & 1 && Masked(x, k) >> 1 == Masked(x >> 1, k - 1)
  {
  }

  lemma NestedQuotient(n: nat, p: nat)
    requires p >= 1
    ensures n / 2 / p == n / (2 * p)
  {
    var q, r := n / 2 / p, n / 2 % p;
    assert n / 2 == p * q + r;
    assert n == 2 * p * q + (2 * r + n % 2);
    Quotient(n, 2 * p, q, 2 * r + n % 2);
  }

  lemma NestedRemainder(n: nat, p: nat)
    requires p >= 1
    ensures n % (2 * p) == 2 * (n / 2 % p) + n % 2
  {
    var q, r := n / 2 / p, n / 2 % p;
    assert n / 2 == p * q + r;
    assert n == 2 * p * q + (2 * r + n % 2);
    Quotient(n, 2 * p, q, 2 * r + n % 2);
  }

  lemma Quotient(n: int, d: int, q: int, r: int)
    requires 0 <= n == d * q + r && 0 <= r < d
    ensures n / d == q && n % d == r
  {
    var k := n / d - q;
    assert d * k == r - n % d;
    assert k >= 1 ==> d * k >= d;
    assert k <= -1 ==> d * k <= -d;
  }

  // ---------------------------------------------------------------- shifts and masks as arithmetic

  lemma {:induction false} NumShifted(x: bv32, k: nat)
    requires k <= 8
    ensures Num(Shifted(x, k)) == Num(x) / Pow2(k)
    decreases k
  {
    if k > 0 {
      ShiftStep(x, k);
      Halves(x);
      hide Num, Shifted;
      NumShifted(x >> 1, k - 1);
      NestedQuotient(Num(x), Pow2(k - 1));
    }
  }

  /** The last place of a masked word. */
  lemma MaskedHalves(x: bv32, k: nat)
    requires 1 <= k <= 8
    ensures Num(x) / 2 == Num(x >> 1) && Num(Masked(x, k)) == 2 * Num(Masked(x >> 1, k - 1)) + Num(x) % 2
  {
    MaskStep(x, k);
    Halves(x);
    Halves(Masked(x, k));
  }

  lemma RemainderStep(n: nat, m: nat, h: nat, p: nat, d: nat)
    requires p >= 1 && d == 2 * p && h == n / 2 % p && m == 2 * h + n % 2
    ensures m == n % d
  {
    NestedRemainder(n, p);
  }

  lemma {:induction false} NumMasked(x: bv32, k: nat)
    requires k <= 8
    ensures Num(Masked(x, k)) == Num(x) % Pow2(k)
    decreases k
  {
    if k == 0 {
      assert x & 0 == 0 && Num(0) == 0;
    } else {
      MaskedHalves(x, k);
      NumMasked(x >> 1, k - 1);
      hide Num, Masked;
      RemainderStep(Num(x), Num(Masked(x, k)), Num(Masked(x >> 1, k - 1)), Pow2(k - 1), Pow2(k));
    }
  }

  /** `x >>> k` divides by a power of two. */
  lemma ShiftDivides(x: bv32, k: nat)
    requires k <= 8
    ensures Num(x >> k) == Num(x) / Pow2(k)
  {
    ShiftedIsShift(x, k);
    NumShifted(x, k);
  }

  /** `x & ((1 << k) - 1)` takes the remainder. */
  lemma MaskTakesRemainder(x: bv32, k: nat)
    requires k <= 8
    ensures Num(x & ((1 << k) - 1)) == Num(x) % Pow2(k)
  {
    MaskIsOnes(k);
    NumMasked(x, k);
  }

  lemma JoinParts(x: bv32, b: bv32)
    requires x < 0x100_0000 && b < 256
    ensures ((x << 8) | b) >> 8 == x && ((x << 8) | b) & 255 == b
  {
  }

  /** `(x << 8) | b` appends a byte, as long as nothing is shifted out. */
  lemma JoinAppends(x: bv32, b: bv32)
    requires x < 0x100_0000 && b < 256
    ensures Num((x << 8) | b) == Num(x) * 256 + Num(b) && Num(b) < 256
  {
    var y := (x << 8) | b;
    JoinParts(x, b);
    NumShifted(y, 8);
    NumMasked(y, 8);
    assert Pow2(8) == 256 by { assert Pow2(4) == 16; }
    hide Num, Pow2;
    assert Num(y) == 256 * (Num(y) / 256) + Num(y) % 256;
  }

  /** A word worth less than sixteen is one. */
  lemma SmallWord(x: bv32)
    requires Num(x) < 16
    ensures x < 16
  {
    assert Pow2(4) == 16;
    NumShifted(x, 4);
    OnlyZeroIsZero(x >> 4);
    assert x >> 4 == 0 ==> x < 16;
  }
}
