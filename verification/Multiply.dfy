/** machine/mipssim.cc, Mult: the 64-bit product of two 32-bit registers by shifting and adding. */
module Multiply {
  import opened Words

  const TWO_63: int := 0x8000_0000_0000_0000
  const TWO_64: int := 0x1_0000_0000_0000_0000

  function Magnitude(x: int): (r: nat) {
    if x < 0 then -x else x
  }

  /** Negation of a negative `int`; the most negative one stays as it is, and is read as 2^31 from then on. */
  function WrapNeg(x: int32): (r: int32)
    requires x < 0
    ensures ToUnsigned(r) == Magnitude(x)
  {
    if x == -0x8000_0000 then x else -x
  }

  /** A double word. */
  function Join(hi: uint32, lo: uint32): (w: nat)
    ensures w < TWO_64
  {
    hi * TWO_32 + lo
  }

  function Add32(x: uint32, y: uint32): (r: uint32) {
    (x + y) % TWO_32
  }

  /** One step of addition: the low words, the carry, the high words. */
  lemma AddWithCarry(hi: uint32, lo: uint32, bHi: uint32, bLo: uint32)
    requires Join(hi, lo) + Join(bHi, bLo) < TWO_64
    ensures var lo' := Add32(lo, bLo);
      var hi' := Add32(if lo' < bLo then Add32(hi, 1) else hi, bHi);
      Join(hi', lo') == Join(hi, lo) + Join(bHi, bLo)
  {
    var lo' := Add32(lo, bLo);
    if lo + bLo < TWO_32 {
      assert lo' == lo + bLo;
      assert Add32(hi, bHi) == hi + bHi;
    } else {
      assert lo' == lo + bLo - TWO_32;
      assert hi + 1 + bHi < TWO_32;
      assert Add32(hi, 1) == hi + 1 && Add32(hi + 1, bHi) == hi + 1 + bHi;
    }
  }

  /** One step of shifting left across the two words. */
  lemma ShiftLeft(bHi: uint32, bLo: uint32)
    requires Join(bHi, bLo) < TWO_63
    ensures var hi' := Add32(bHi, bHi);
      Join(if bLo >= TWO_31 then hi' + 1 else hi', Add32(bLo, bLo)) == 2 * Join(bHi, bLo)
      && (bLo >= TWO_31 ==> hi' + 1 < TWO_32 && hi' % 2 == 0)
  {
    assert bHi < TWO_31;
    assert Add32(bHi, bHi) == 2 * bHi;
    assert Add32(bLo, bLo) == if bLo >= TWO_31 then 2 * bLo - TWO_32 else 2 * bLo;
  }

  /** Multiplication, kept folded in the loop below. */
  function Times(x: int, y: int): (r: int) {
    x * y
  }

  /** The facts about products that one round of the loop needs. */
  lemma Round(b: uint32, r: nat, p: nat)
    requires r < p <= TWO_31
    ensures Times(b, r + p) == Times(b, r) + Times(b, p)
    ensures Times(b, 2 * p) == 2 * Times(b, p)
    ensures 0 <= Times(b, p) < TWO_63 && 0 <= Times(b, r) && Times(b, r) + Times(b, p) < TWO_64
  {
    assert b * (r + p) == b * r + b * p;
    assert b * p <= b * TWO_31;
    assert b * r <= b * p;
  }

  /** The two's complement of a double word. */
  lemma Complement(hi: uint32, lo: uint32)
    requires Join(hi, lo) > 0
    ensures var hi1, lo1 := TWO_32 - 1 - hi, Add32(TWO_32 - 1 - lo, 1);
      Join(if lo1 == 0 then Add32(hi1, 1) else hi1, lo1) == TWO_64 - Join(hi, lo)
  {
    if lo > 0 {
      assert Add32(TWO_32 - 1 - lo, 1) == TWO_32 - lo;
    } else {
      assert Add32(TWO_32 - 1, 1) == 0;
      assert Add32(TWO_32 - 1 - hi, 1) == TWO_32 - hi;
    }
  }

  /** The loop: multiplies the bit patterns of `a` and `b`. The register `a` is a signed int, so that shifting it right
      repeats its top bit; the loop ends early when no bits are left. */
  method MultiplyBits(a0: int32, b: uint32) returns (hi: uint32, lo: uint32)
    ensures Join(hi, lo) == Times(ToUnsigned(a0), b)
  {
    hide Times, Join, Add32;
    var a: int := a0;
    var bLo: uint32, bHi: uint32 := b, 0;
    lo, hi := 0, 0;
    ghost var p: nat, r: nat := 1, 0; // 2^i, and the low i bits of a0
    StartOfLoop(a0, b);
    var i := 0;
    while i < 32
      invariant 0 <= i <= 32 && p == Pow2(i) && r < p
      invariant a0 == Times(a, p) + r
      invariant Join(bHi, bLo) == Times(b, p)
      invariant Join(hi, lo) == Times(b, r)
      decreases 32 - i
    {
      Pow2AtMost(i);
      Round(b, r, p);
      HalveStep(a0, a, p, r);
      if a % 2 == 1 {
        AddWithCarry(hi, lo, bHi, bLo);
        lo := Add32(lo, bLo);
        if lo < bLo {
          hi := Add32(hi, 1);
        }
        hi := Add32(hi, bHi);
        r := r + p;
        if a == 1 {
          AllBits(a0, b, p, r);
          return;
        }
      }
      ShiftLeft(bHi, bLo);
      bHi := Add32(bHi, bHi);
      if bLo >= TWO_31 {
        bHi := bHi + 1;
      }
      bLo := Add32(bLo, bLo);
      a := a / 2;
      p := 2 * p;
      i := i + 1;
    }
    Pow2Of32();
    LowBits(a0, b, a, r);
  }

  lemma StartOfLoop(a0: int32, b: uint32)
    ensures a0 == Times(a0, 1) && Join(0, b) == Times(b, 1) && Join(0, 0) == Times(b, 0)
  {
  }

  lemma AllBits(a0: int32, b: uint32, p: nat, r: nat)
    requires a0 == Times(1, p) + (r - p)
    ensures Times(b, r) == Times(ToUnsigned(a0), b)
  {
  }

  lemma Pow2AtMost(i: nat)
    requires i < 32
    ensures Pow2(i) <= TWO_31 && Pow2(i + 1) == 2 * Pow2(i)
  {
    Pow2Of32();
    Pow2Monotone(i, 31);
  }

  lemma {:induction false} Pow2Monotone(i: nat, j: nat)
    requires i <= j
    ensures Pow2(i) <= Pow2(j)
  {
    if i < j {
      Pow2Monotone(i, j - 1);
    }
  }

  /** Moving the low bit of `a` over to `r`, halving `a` and doubling `p` keeps the sum. */
  lemma HalveStep(a0: int, a: int, p: nat, r: int)
    requires a0 == Times(a, p) + r
    ensures a0 == Times(a / 2, 2 * p) + if a % 2 == 1 then r + p else r
  {
    assert a * p == (2 * (a / 2) + a % 2) * p == (a / 2) * (2 * p) + (a % 2) * p;
  }

  lemma LowBits(a0: int32, b: uint32, a: int, r: nat)
    requires a0 == Times(a, TWO_32) + r && r < TWO_32
    ensures Times(b, r) == Times(ToUnsigned(a0), b)
  {
    assert r == ToUnsigned(a0);
  }

  /** For all 32-bit operands the registers hi and lo hold the exact 64-bit product, signed or unsigned. */
  method Mult(a0: int32, b0: int32, signedArith: bool) returns (hiReg: int32, loReg: int32)
    ensures signedArith ==> hiReg * TWO_32 + ToUnsigned(loReg) == a0 * b0
    ensures !signedArith ==> Join(ToUnsigned(hiReg), ToUnsigned(loReg)) == ToUnsigned(a0) * ToUnsigned(b0)
  {
    if a0 == 0 || b0 == 0 {
      return 0, 0;
    }
    hide Times, Join, Add32, ToUnsigned, ToSigned;
    var negative := false;
    var a, b := a0, b0;
    if signedArith {
      if a < 0 {
        negative := !negative;
        a := WrapNeg(a);
      }
      if b < 0 {
        negative := !negative;
        b := WrapNeg(b);
      }
      Magnitudes(a0, b0);
    }
    var hi, lo := MultiplyBits(a, ToUnsigned(b));
    ghost var product := Join(hi, lo);
    if negative {
      Complement(hi, lo);
      hi := TWO_32 - 1 - hi;
      lo := TWO_32 - 1 - lo;
      lo := Add32(lo, 1);
      if lo == 0 {
        hi := Add32(hi, 1);
      }
    }
    hiReg, loReg := ToSigned(hi), ToSigned(lo);
    PatternRoundTrip(hi);
    PatternRoundTrip(lo);
    if signedArith {
      SignedResult(a0, b0, product, hi, lo);
    } else {
      assert Times(ToUnsigned(a0), ToUnsigned(b0)) == ToUnsigned(a0) * ToUnsigned(b0);
    }
  }

  lemma SignedResult(a: int32, b: int32, product: int, hi: uint32, lo: uint32)
    requires a != 0 && b != 0 && product == Times(Magnitude(a), Magnitude(b))
    requires Join(hi, lo) == if (a < 0) != (b < 0) then TWO_64 - product else product
    ensures ToSigned(hi) * TWO_32 + lo == a * b
  {
    Magnitudes(a, b);
    var m := a * b;
    assert m == if (a < 0) != (b < 0) then -product else product;
  }

  /** The product of the magnitudes is the magnitude of the product, and fits into 63 bits. */
  lemma Magnitudes(a: int32, b: int32)
    requires a != 0 && b != 0
    ensures 0 < Times(Magnitude(a), Magnitude(b)) <= TWO_31 * TWO_31
    ensures var m := Times(Magnitude(a), Magnitude(b)); a * b == if (a < 0) != (b < 0) then -m else m
  {
    var x: int, y: int := Magnitude(a), Magnitude(b);
    PositiveProduct(x, y);
    assert a == (if a < 0 then -x else x) && b == if b < 0 then -y else y;
  }

  lemma PositiveProduct(x: nat, y: nat)
    requires 0 < x <= TWO_31 && 0 < y <= TWO_31
    ensures 0 < x * y <= TWO_31 * TWO_31
  {
    assert x * y <= TWO_31 * y;
  }
}
