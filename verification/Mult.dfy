/** machine/mipssim.cc, Mult: the 32 by 32 to 64 bit multiplication, one bit of a at a time. */
module Multiplier {
  import opened Words
  import opened BitMaps

  /** -x on 32 bits: the smallest number is its own negative. */
  function Negate(x: int): (r: int)
    requires FitsInt(x)
    ensures FitsInt(r) && (x < 0 ==> FromInt(r) == 0 - x)
  {
    if x == -0x8000_0000 then x else 0 - x
  }

  /** The number in two words. */
  function Double(hi: int, lo: int): int {
    hi * TWO32 + lo
  }

  /** The two words of a double-length number determine it. */
  lemma DoubleInjective(hi: Word, lo: Word, hi': Word, lo': Word)
    requires Double(hi, lo) == Double(hi', lo')
    ensures hi == hi' && lo == lo'
  {
  }

  /** Adds the shifted b to the partial product, word by word with the carry. */
  function AddDouble(hi: Word, lo: Word, bHi: Word, bLo: Word): (r: (Word, Word))
    ensures Double(hi, lo) + Double(bHi, bLo) < TWO32 * TWO32 ==> Double(r.0, r.1) == Double(hi, lo) + Double(bHi, bLo)
  {
    var lo' := (lo + bLo) % TWO32;
    assert lo' == if lo + bLo < TWO32 then lo + bLo else lo + bLo - TWO32;
    var hi' := if lo' < bLo then (hi + 1) % TWO32 else hi;
    ((hi' + bHi) % TWO32, lo')
  }

  /** Shifts b one place, moving the top bit of its low word up. */
  function ShiftDouble(bHi: Word, bLo: Word): (r: (Word, Word))
    ensures 2 * Double(bHi, bLo) < TWO32 * TWO32 ==> Double(r.0, r.1) == 2 * Double(bHi, bLo)
  {
    var hi' := (bHi * 2) % TWO32;
    (if bLo >= 0x8000_0000 then hi' + 1 else hi', (bLo * 2) % TWO32)
  }

  /** The two's complement of the product, word by word with the carry. */
  function NegateDouble(hi: Word, lo: Word): (r: (Word, Word))
    ensures Double(hi, lo) != 0 ==> Double(r.0, r.1) == TWO32 * TWO32 - Double(hi, lo)
  {
    var hi', lo' := TWO32 - 1 - hi, (TWO32 - 1 - lo + 1) % TWO32;
    (if lo' == 0 then (hi' + 1) % TWO32 else hi', lo')
  }

  lemma {:induction false} Pow2Bound(i: nat)
    requires i <= 32
    ensures 1 <= Pow2(i) <= TWO32
    ensures i < 32 ==> 2 * Pow2(i) <= TWO32
    decreases 32 - i
  {
    Pow2Word();
    if i < 32 {
      Pow2Bound(i + 1);
      Pow2Positive(i);
    }
  }

  lemma {:induction false} Pow2Positive(i: nat)
    ensures Pow2(i) >= 1
  {
    if i > 0 { Pow2Positive(i - 1); }
  }

  lemma ProductMonotone(x: nat, y: nat, z: nat)
    requires x <= z
    ensures x * y <= z * y && y * x <= y * z
  {
    var d := z - x;
    assert z * y == x * y + d * y;
    assert d * y >= 0;
  }

  lemma ProductBound(x: nat, y: nat)
    requires x <= TWO32 && y < TWO32
    ensures x * y < TWO32 * TWO32
  {
    ProductMonotone(x, y, TWO32);
  }

  /** After i bits: a has been split into the i low bits and what is left, the partial product is that of the low
      bits, and b has been shifted i places. */
  ghost predicate Partial(i: nat, aa: int, a: int, low: nat, b: nat, hi: Word, lo: Word, bHi: Word, bLo: Word) {
    && i <= 32
    && aa == a * Pow2(i) + low && low < Pow2(i)
    && Double(hi, lo) == low * b
    && Double(bHi, bLo) == Pow2(i) * b
  }

  lemma AddBit(i: nat, aa: int, a: int, low: nat, b: nat, hi: Word, lo: Word, bHi: Word, bLo: Word)
    requires i < 32 && b < TWO32 && Partial(i, aa, a, low, b, hi, lo, bHi, bLo)
    ensures var r := AddDouble(hi, lo, bHi, bLo); Double(r.0, r.1) == (low + Pow2(i)) * b
  {
    Pow2Bound(i);
    hide Pow2;
    ProductBound(low + Pow2(i), b);
    Distribute(low, Pow2(i), b);
  }

  lemma Distribute(x: int, y: int, z: int)
    ensures (x + y) * z == x * z + y * z
  {
  }

  lemma ShiftBit(i: nat, b: nat, bHi: Word, bLo: Word)
    requires i < 32 && b < TWO32 && Double(bHi, bLo) == Pow2(i) * b
    ensures var r := ShiftDouble(bHi, bLo); Double(r.0, r.1) == Pow2(i + 1) * b
  {
    Pow2Bound(i + 1);
    assert Pow2(i + 1) == Pow2(i) + Pow2(i);
    hide Pow2;
    ProductBound(Pow2(i + 1), b);
    Distribute(Pow2(i), Pow2(i), b);
  }

  lemma SplitBit(i: nat, a: int, low: nat)
    requires low < Pow2(i)
    ensures a * Pow2(i) + low == (a / 2) * Pow2(i + 1) + (low + if a % 2 == 1 then Pow2(i) else 0)
    ensures low + (if a % 2 == 1 then Pow2(i) else 0) < Pow2(i + 1)
  {
    var p, q := Pow2(i), a / 2;
    assert a == 2 * q + a % 2;
    assert (2 * q) * p == q * (2 * p);
    assert a % 2 == 1 ==> a * p == (2 * q) * p + p;
  }

  lemma Start(aa: int, b: Word)
    ensures Partial(0, aa, aa, 0, b, 0, 0, 0, b)
  {
  }

  /** The multiplication loop: the product of the operands read as unsigned numbers. */
  method MultiplyUnsigned(aa: Int32, b: Word) returns (hi: Word, lo: Word)
    ensures Double(hi, lo) == FromInt(aa) * b
  {
    hide Pow2, Double;
    var a: int := aa;
    var bLo: Word, bHi: Word := b, 0;
    lo, hi := 0, 0;
    ghost var low: nat := 0;
    Start(aa, b);
    var i := 0;
    while i < 32
      invariant Partial(i, aa, a, low, b, hi, lo, bHi, bLo)
    {
      SplitBit(i, a, low);
      if a % 2 == 1 {
        AddBit(i, aa, a, low, b, hi, lo, bHi, bLo);
        var sum := AddDouble(hi, lo, bHi, bLo);
        hi, lo := sum.0, sum.1;
        low := low + Pow2(i);
        if a == 1 {
          assert aa == low by { assert 1 * Pow2(i) == Pow2(i); }
          return;
        }
      }
      ShiftBit(i, b, bHi, bLo);
      var shifted := ShiftDouble(bHi, bLo);
      bHi, bLo := shifted.0, shifted.1;
      a := a / 2;
      i := i + 1;
    }
    AllBits(aa, a, low);
  }

  /** After 32 bits the low part is the whole number read as unsigned, whatever the shift left in a. */
  lemma AllBits(aa: Int32, a: int, low: nat)
    requires aa == a * Pow2(32) + low && low < Pow2(32)
    ensures low == FromInt(aa)
  {
    Pow2Word();
  }

  /** hi and lo are the exact double-length product: of the operands as signed numbers, or as unsigned ones. */
  predicate IsProduct(a: Int32, b: Int32, signedArith: bool, hi: Int32, lo: Int32) {
    if signedArith then Double(hi, FromInt(lo)) == a * b
    else Double(FromInt(hi), FromInt(lo)) == FromInt(a) * FromInt(b)
  }

  /** There is one such pair of words. */
  lemma ProductUnique(a: Int32, b: Int32, signedArith: bool, hi: Int32, lo: Int32, hi': Int32, lo': Int32)
    requires IsProduct(a, b, signedArith, hi, lo) && IsProduct(a, b, signedArith, hi', lo')
    ensures hi == hi' && lo == lo'
  {
    SignedDouble(hi, lo);
    SignedDouble(hi', lo');
    DoubleInjective(FromInt(hi), FromInt(lo), FromInt(hi'), FromInt(lo'));
  }

  /** The signed reading of the high word moves the number by a multiple of the whole range. */
  lemma SignedDouble(hi: Int32, lo: Int32)
    ensures Double(FromInt(hi), FromInt(lo)) ==
      Double(hi, FromInt(lo)) + if Double(hi, FromInt(lo)) < 0 then TWO32 * TWO32 else 0
  {
  }

  method Mult(a: Int32, b: Int32, signedArith: bool) returns (hi: Int32, lo: Int32)
    ensures IsProduct(a, b, signedArith, hi, lo)
  {
    if a == 0 || b == 0 {
      return 0, 0;
    }
    var negative := false;
    var aa, bb := a, b;
    if signedArith {
      if aa < 0 {
        negative := !negative;
        aa := Negate(aa);
      }
      if bb < 0 {
        negative := !negative;
        bb := Negate(bb);
      }
    }
    var h, l := MultiplyUnsigned(aa, FromInt(bb));
    if signedArith {
      Magnitude(a, b, h, l);
    }
    if negative {
      var n := NegateDouble(h, l);
      h, l := n.0, n.1;
    }
    hi, lo := ToInt(h), ToInt(l);
  }

  function Abs(x: int): nat {
    if x < 0 then -x else x
  }

  lemma SignsOut(a: int, b: int)
    ensures Abs(a) * Abs(b) == if (a < 0) != (b < 0) then -(a * b) else a * b
  {
    assert (-a) * b == -(a * b) && a * (-b) == -(a * b) && (-a) * (-b) == a * b;
  }

  lemma Magnitude(a: Int32, b: Int32, h: Word, l: Word)
    requires a != 0 && b != 0 && Double(h, l) == Abs(a) * Abs(b)
    ensures 0 < Double(h, l) <= 0x4000_0000 * TWO32
    ensures Double(h, l) == if (a < 0) != (b < 0) then -(a * b) else a * b
  {
    assert FitsInt(a) && FitsInt(b);
    ProductMonotone(Abs(a), Abs(b), 0x8000_0000);
    ProductMonotone(1, Abs(b), Abs(a));
    SignsOut(a, b);
  }
}
