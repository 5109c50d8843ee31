/**
 * Compact targets: a 256-bit number rounded to a sign, three bytes of mantissa
 * and a byte count, packed in 32 bits.
 */
module Compact {
  import opened Arith
  import Bits

  const WORD: nat := 0x1_0000_0000

  /** A compact word taken apart: the byte count, the sign bit and the mantissa. */
  function Size(w: nat): nat {
    w / 0x100_0000
  }

  function Mantissa(w: nat): (m: nat)
    ensures m < 0x80_0000
  {
    w % 0x80_0000
  }

  function SignBit(w: nat): bool {
    w / 0x80_0000 % 2 == 1
  }

  /** The mantissa after the shift that small sizes call for. */
  function Shifted(w: nat): (m: nat)
    ensures m < 0x80_0000
  {
    if Size(w) >= 3 then Mantissa(w)
    else if Size(w) == 2 then Mantissa(w) / 0x100
    else if Size(w) == 1 then Mantissa(w) / 0x1_0000
    else Mantissa(w) / 0x100_0000
  }

  /** The number of bytes that the mantissa is shifted up. */
  function Exponent(w: nat): nat {
    if Size(w) > 3 then Size(w) - 3 else 0
  }

  /** The number that a word stands for, without a bound. */
  ghost function Exact(w: nat): nat {
    Shifted(w) * Pow(256, Exponent(w))
  }

  /** What SetCompact stores, and its two flags. */
  ghost function Value(w: nat): nat {
    Exact(w) % Pow(256, 32)
  }

  predicate Negative(w: nat) {
    Shifted(w) != 0 && SignBit(w)
  }

  predicate Overflow(w: nat) {
    && Shifted(w) != 0
    && (Size(w) > 34 || (Shifted(w) > 0xff && Size(w) > 33) || (Shifted(w) > 0xffff && Size(w) > 32))
  }

  /** The fields in terms of masks. */
  lemma Masks(w: nat)
    ensures Mantissa(w) == Bits.And(w, 0x7f_ffff) && (SignBit(w) <==> Bits.And(w, 0x80_0000) != 0)
  {
    hide Pow;
    assert Pow(2, 23) == 0x80_0000 by { PowerOf23(); }
    Bits.AndMask(w, 23);
    Bits.AndPower(w, 23);
  }

  lemma PowerOf23()
    ensures Pow(2, 23) == 0x80_0000
  {
    assert Pow(2, 8) == 256 && Pow(2, 7) == 128;
    PowAdd(2, 8, 8);
    PowAdd(2, 16, 7);
  }

  /** The number is the mantissa times 256 to the power of the size less three, rounded down. */
  lemma ExactIs(w: nat)
    ensures Exact(w) == Bits.And(w, 0x7f_ffff) * Pow(256, w / 0x100_0000) / 0x100_0000
  {
    hide Pow, Bits.And;
    Masks(w);
    PowSmall();
    PowZero(256);
    var m, size := Mantissa(w), Size(w);
    if size >= 3 {
      PowAdd(256, 3, size - 3);
      var p := Pow(256, size - 3);
      MulAssoc(m, 0x100_0000, p);
      assert m * Pow(256, size) == m * p * 0x100_0000;
      Unique(m * Pow(256, size), 0x100_0000, m * p, 0);
    }
  }

  /** The sign flag is set exactly for a number other than zero whose sign bit is set. */
  lemma NegativeExactly(w: nat)
    ensures Negative(w) <==> Exact(w) > 0 && Bits.And(w, 0x80_0000) != 0
  {
    hide Pow, Bits.And;
    Masks(w);
    var p := Pow(256, Exponent(w));
    if Shifted(w) > 0 {
      MulLe(1, Shifted(w), p);
    }
  }

  /** Words whose meaning is known. */
  lemma KnownWords()
    ensures Exact(0x0112_3456) == 0x12 && !Negative(0x0112_3456)
    ensures Exact(0x0212_3456) == 0x1234 && Exact(0x0312_3456) == 0x12_3456 && Exact(0x0412_3456) == 0x1234_5600
    ensures Exact(0x0492_3456) == 0x1234_5600 && Negative(0x0492_3456)
    ensures Exact(0x0500_9234) == 0x9234_0000 && !Negative(0x0500_9234)
    ensures Exact(0x0092_3456) == 0 && !Negative(0x0092_3456) && !Negative(0x0180_3456)
    ensures Overflow(0xff12_3456) && !Overflow(0x2012_3456)
  {
    PowSmall();
    PowZero(256);
  }

  lemma PowSmall()
    ensures Pow(256, 1) == 0x100 && Pow(256, 2) == 0x1_0000 && Pow(256, 3) == 0x100_0000
  {
  }

  /** The overflow flag is set exactly when the number does not fit in 256 bits. */
  lemma OverflowExact(w: nat)
    ensures Overflow(w) <==> Exact(w) >= Pow(256, 32)
  {
    hide Pow;
    var m, e := Shifted(w), Exponent(w);
    PowSmall();
    if m == 0 {
    } else if e >= 32 {
      PowMonotoneExp(256, 32, e);
      MulLe(1, m, Pow(256, e));
    } else if e == 31 {
      PowAdd(256, 1, 31);
      Compare(m, 0x100, Pow(256, 31));
    } else if e == 30 {
      PowAdd(256, 2, 30);
      Compare(m, 0x1_0000, Pow(256, 30));
    } else {
      PowAdd(256, 3, 29);
      PowMonotoneExp(256, e, 29);
      MulLe(Pow(256, e), Pow(256, 29), m);
      Compare(m, 0x100_0000, Pow(256, 29));
    }
  }

  lemma Compare(m: nat, n: nat, p: nat)
    requires p > 0
    ensures m * p >= n * p <==> m >= n
  {
    if m >= n {
      MulLe(n, m, p);
    } else {
      MulLt(m, n, p);
    }
  }

  /******* Packing a number *******/

  /** How many bytes a number takes. */
  ghost function ByteLength(x: nat): (s: nat)
    ensures x > 0 ==> s > 0 && Pow(256, s - 1) <= x
    ensures x < Pow(256, s)
  {
    if x == 0 then 0
    else
      var t := ByteLength(x / 256);
      Widen(x, t);
      t + 1
  }

  lemma Widen(x: nat, t: nat)
    requires x / 256 < Pow(256, t) && x > 0 && (x / 256 > 0 ==> t > 0 && Pow(256, t - 1) <= x / 256)
    requires x / 256 == 0 ==> t == 0
    ensures Pow(256, t) <= x < Pow(256, t + 1)
  {
    assert Pow(256, t + 1) == 256 * Pow(256, t);
    if t > 0 {
      assert Pow(256, t) == 256 * Pow(256, t - 1);
    }
  }

  /** The top three bytes of a number, filled up with zero bytes when there are fewer. */
  ghost function TopBytes(x: nat): nat {
    var s := ByteLength(x);
    if s > 3 then x / Pow(256, s - 3) else x * Pow(256, 3 - s)
  }

  /** A mantissa whose top bit is set would look negative, so it gives up its last byte. */
  ghost function CompactSize(x: nat): nat {
    if TopBytes(x) >= 0x80_0000 then ByteLength(x) + 1 else ByteLength(x)
  }

  ghost function CompactMantissa(x: nat): nat {
    if TopBytes(x) >= 0x80_0000 then TopBytes(x) / 256 else TopBytes(x)
  }

  ghost function GetCompact(x: nat, negative: bool): nat {
    CompactSize(x) * 0x100_0000 + CompactMantissa(x)
    + if negative && CompactMantissa(x) != 0 then 0x80_0000 else 0
  }

  lemma TopBytesRange(x: nat)
    requires x > 0
    ensures 0x1_0000 <= TopBytes(x) < 0x100_0000
  {
    hide Pow;
    var s := ByteLength(x);
    PowSmall();
    if s > 3 {
      var p := Pow(256, s - 3);
      PowAdd(256, 2, s - 3);
      PowAdd(256, 3, s - 3);
      QuotientRange(x, p, 0x1_0000, 0x100_0000);
    } else {
      PowAdd(256, s - 1, 3 - s);
      PowAdd(256, s, 3 - s);
      MulLe(Pow(256, s - 1), x, Pow(256, 3 - s));
      MulLt(x, Pow(256, s), Pow(256, 3 - s));
    }
  }

  lemma QuotientRange(x: nat, p: nat, low: nat, high: nat)
    requires p > 0 && low * p <= x < high * p
    ensures low <= x / p < high
  {
    DivMod(x, p);
    if x / p < low {
      MulLe(x / p + 1, low, p);
    }
    if x / p >= high {
      MulLe(high, x / p, p);
    }
  }

  /** The asserts in GetCompact: the mantissa leaves the sign bit free, and is not small. */
  lemma MantissaRange(x: nat)
    ensures CompactMantissa(x) < 0x80_0000
    ensures x > 0 ==> 0x8000 <= CompactMantissa(x)
  {
    if x > 0 {
      TopBytesRange(x);
    }
  }

  /** The word taken apart gives back size, mantissa and sign. */
  lemma Unpacked(x: nat, negative: bool)
    ensures var w := GetCompact(x, negative);
            && Size(w) == CompactSize(x) && Mantissa(w) == CompactMantissa(x)
            && SignBit(w) == (negative && CompactMantissa(x) != 0)
  {
    MantissaRange(x);
    Fields(CompactSize(x), if negative && CompactMantissa(x) != 0 then 1 else 0, CompactMantissa(x));
  }

  lemma Fields(size: nat, sign: nat, m: nat)
    requires sign < 2 && m < 0x80_0000
    ensures var w := size * 0x100_0000 + sign * 0x80_0000 + m;
            w / 0x100_0000 == size && w % 0x80_0000 == m && w / 0x80_0000 % 2 == sign
  {
    var w := size * 0x100_0000 + sign * 0x80_0000 + m;
    assert w / 0x80_0000 == 2 * size + sign;
  }

  /** A number that is packed as a negative one is read back as such, unless it is zero. */
  lemma PackedSign(x: nat)
    ensures Negative(GetCompact(x, true)) <==> x > 0
  {
    hide Pow, TopBytes, ByteLength;
    Unpacked(x, true);
    ReadBack(x, true);
    if x > 0 {
      MantissaRange(x);
      BackPositive(x);
    } else {
      Unique(0, Pow(256, Cut(x)), 0, 0);
    }
  }

  /** No number but zero is rounded to zero. */
  lemma BackPositive(x: nat)
    requires x > 0
    ensures Pow(256, Cut(x)) > 0 && x / Pow(256, Cut(x)) > 0
  {
    hide Pow;
    if Cut(x) > 0 {
      CutMantissa(x);
    } else {
      PowZero(256);
    }
  }

  /** How many bytes of a number are rounded away. */
  ghost function Cut(x: nat): nat {
    if CompactSize(x) > 3 then CompactSize(x) - 3 else 0
  }

  /** The mantissa that SetCompact reads back is the number without its cut-off bytes. */
  lemma ReadBack(x: nat, negative: bool)
    ensures Pow(256, Cut(x)) > 0 && Shifted(GetCompact(x, negative)) == x / Pow(256, Cut(x))
    ensures Exponent(GetCompact(x, negative)) == Cut(x)
  {
    var w := GetCompact(x, negative);
    Unpacked(x, negative);
    PowSmall();
    if x > 0 {
      TopBytesRange(x);
      var s := ByteLength(x);
      if s > 3 && TopBytes(x) >= 0x80_0000 {
        DivDiv(x, Pow(256, s - 3), 256);
        assert Pow(256, s - 2) == 256 * Pow(256, s - 3);
      }
    }
  }

  /******* Rounding *******/

  /** A number packed and read back. */
  ghost function Rounded(x: nat): nat {
    Value(GetCompact(x, false))
  }

  ghost predicate In256(x: nat) {
    x < Pow(256, 32)
  }

  /** Packing cuts off low bytes and nothing else; there is no overflow and no sign. */
  lemma RoundedForm(x: nat)
    requires In256(x)
    ensures Rounded(x) == x / Pow(256, Cut(x)) * Pow(256, Cut(x)) <= x
    ensures !Overflow(GetCompact(x, false)) && !Negative(GetCompact(x, false))
  {
    hide Pow, Overflow, Shifted, Exponent, CompactSize, CompactMantissa;
    var w := GetCompact(x, false);
    ReadBack(x, false);
    Unpacked(x, false);
    DivMod(x, Pow(256, Cut(x)));
    assert Exact(w) <= x;
    Unique(Exact(w), Pow(256, 32), 0, Exact(w));
    OverflowExact(w);
  }

  /** When bytes are cut off, what is left is a large mantissa. */
  lemma CutMantissa(x: nat)
    requires Cut(x) > 0
    ensures 0x8000 <= x / Pow(256, Cut(x))
  {
    hide Pow;
    MantissaRange(x);
    ReadBack(x, false);
    Unpacked(x, false);
    assert x > 0 by { ZeroIsExact(x); }
  }

  lemma ZeroIsExact(x: nat)
    ensures x == 0 ==> Cut(x) == 0
  {
  }

  /** Every word without overflow stands for a multiple of a power of 256 with a small factor. */
  lemma WordForm(w: nat)
    requires !Overflow(w)
    ensures Value(w) == Shifted(w) * Pow(256, Exponent(w))
  {
    hide Pow;
    OverflowExact(w);
    Unique(Exact(w), Pow(256, 32), 0, Exact(w));
  }

  /** The rounded number is the largest one that any word can express and that is not above x. */
  lemma RoundedIsLargest(x: nat, w: nat)
    requires In256(x) && !Overflow(w) && Value(w) <= x
    ensures Value(w) <= Rounded(x)
  {
    hide Pow, Overflow, Shifted, Exponent, Cut, Value, Rounded;
    RoundedForm(x);
    WordForm(w);
    var k := Cut(x);
    var p := Pow(256, k);
    var m, e := Shifted(w), Exponent(w);
    if e >= k {
      PowAdd(256, e - k, k);
      MulAssoc(m, Pow(256, e - k), p);
      MultipleBelow(x, p, m * Pow(256, e - k));
    } else {
      CutMantissa(x);
      PowAdd(256, k - 1 - e, e);
      PowAdd(256, 1, k - 1);
      PowSmall();
      SmallerPower(m, Pow(256, e), Pow(256, k - 1 - e), Pow(256, k - 1));
      MulLe(0x8000, x / p, p);
    }
  }

  /** A multiple of p not above x is not above x without its remainder. */
  lemma MultipleBelow(x: nat, p: nat, q: nat)
    requires p > 0 && q * p <= x
    ensures q * p <= x / p * p
  {
    DivMod(x, p);
    if q > x / p {
      MulLe(x / p + 1, q, p);
    }
    MulLe(q, x / p, p);
  }

  lemma SmallerPower(m: nat, a: nat, b: nat, c: nat)
    requires m < 0x80_0000 && c == b * a && b > 0
    ensures m * a <= 0x8000 * (256 * c)
  {
    MulLe(1, b, a);
    MulLe(m, 0x80_0000, a);
    assert a <= c;
  }

  /** Packing what was read back gives the same word. */
  lemma Repacked(x: nat)
    requires In256(x)
    ensures GetCompact(Rounded(x), false) == GetCompact(x, false)
  {
    hide Pow, Value, Rounded, ByteLength, GetCompact;
    RoundedForm(x);
    SameTop(x);
    assert GetCompact(Rounded(x), false) == GetCompact(x, false) by { SameWord(x, Rounded(x)); }
  }

  lemma SameWord(x: nat, y: nat)
    requires CompactSize(x) == CompactSize(y) && CompactMantissa(x) == CompactMantissa(y)
    ensures GetCompact(x, false) == GetCompact(y, false)
  {
  }

  lemma SameTop(x: nat)
    requires In256(x) && Rounded(x) == x / Pow(256, Cut(x)) * Pow(256, Cut(x)) <= x
    ensures CompactSize(Rounded(x)) == CompactSize(x) && CompactMantissa(Rounded(x)) == CompactMantissa(x)
  {
    hide Rounded;
    if Cut(x) == 0 {
      assert Rounded(x) == x;
    } else {
      CutTop(x, Rounded(x));
    }
  }

  lemma ByteLengthIs(x: nat, s: nat)
    requires s > 0 && Pow(256, s - 1) <= x < Pow(256, s)
    ensures ByteLength(x) == s
  {
    hide Pow;
    var t := ByteLength(x);
    if t < s {
      PowMonotoneExp(256, t, s - 1);
    } else if t > s {
      PowMonotoneExp(256, s, t - 1);
    }
  }

  lemma TimesThenDivide(q: nat, p: nat)
    requires p > 0
    ensures q * p / p == q
  {
    Unique(q * p, p, q, 0);
  }

  /** A number with its low bytes set to zero has the same length and the same mantissa. */
  lemma CutTop(x: nat, y: nat)
    requires Cut(x) > 0 && y == x / Pow(256, Cut(x)) * Pow(256, Cut(x)) <= x
    ensures CompactSize(y) == CompactSize(x) && CompactMantissa(y) == CompactMantissa(x)
  {
    hide Pow;
    var s, k := ByteLength(x), Cut(x);
    var q := x / Pow(256, k);
    ZeroIsExact(x);
    TopBytesRange(x);
    ReadBack(x, false);
    Unpacked(x, false);
    PowSmall();
    assert q == CompactMantissa(x);
    if TopBytes(x) < 0x80_0000 {
      CutWhole(x, y, s, q);
    } else {
      CutOneMore(x, y, s, q);
    }
  }

  lemma CutWhole(x: nat, y: nat, s: nat, q: nat)
    requires s > 3 && s == ByteLength(x) && x > 0 && y == q * Pow(256, s - 3) <= x && 0x1_0000 <= q
    ensures ByteLength(y) == s && TopBytes(y) == q
  {
    hide Pow;
    PowSmall();
    PowAdd(256, 2, s - 3);
    MulLe(0x1_0000, q, Pow(256, s - 3));
    ByteLengthIs(y, s);
    TimesThenDivide(q, Pow(256, s - 3));
  }

  lemma CutOneMore(x: nat, y: nat, s: nat, q: nat)
    requires s >= 3 && s == ByteLength(x) && x > 0 && y == q * Pow(256, s - 2) <= x && 0x8000 <= q
    ensures ByteLength(y) == s && TopBytes(y) == q * 256
  {
    hide Pow;
    PowSmall();
    PowAdd(256, 1, s - 3);
    PowAdd(256, 1, s - 2);
    MulLe(0x8000, q, Pow(256, s - 2));
    ByteLengthIs(y, s);
    MulAssoc(q, 256, Pow(256, s - 3));
    TimesThenDivide(q * 256, Pow(256, s - 3));
    PowZero(256);
  }

  /** Rounding is monotone, and rounding twice is rounding once. */
  lemma RoundedMonotone(x: nat, y: nat)
    requires In256(y) && x <= y
    ensures Rounded(x) <= Rounded(y) && Rounded(Rounded(y)) == Rounded(y)
  {
    hide Value, Overflow, GetCompact;
    RoundedForm(x);
    RoundedForm(y);
    RoundedIsLargest(y, GetCompact(x, false));
    Repacked(y);
  }
}

/** SetCompact and GetCompact on limbs. */
module CompactTargets {
  import opened Arith
  import opened Positional
  import opened BaseUint
  import opened Bits
  import opened Compact

  const WIDTH := 8

  lemma Modulus()
    ensures M(WIDTH) == Pow(256, 32) == Pow(2, 256)
  {
    hide Pow;
    MIsPower(WIDTH);
    BytePower(32);
  }

  /** The number of bytes from the number of bits. */
  lemma BytesOfBits(x: nat, bits: nat)
    requires if bits == 0 then x == 0 else Pow(2, bits - 1) <= x < Pow(2, bits)
    ensures ByteLength(x) == (bits + 7) / 8
  {
    hide Pow;
    if bits > 0 {
      var s := (bits + 7) / 8;
      BytePower(s);
      BytePower(s - 1);
      PowMonotoneExp(2, 8 * (s - 1), bits - 1);
      PowMonotoneExp(2, bits, 8 * s);
      ByteLengthIs(x, s);
    }
  }

  /** The value of the two low limbs, which is all of a small number. */
  method Low64(u: Uint) returns (r: nat)
    requires u.Valid() && u.pn.Length >= 2 && u.Value() < B
    ensures r == u.Value()
  {
    hide Val, Pow;
    LowLimbs(u.pn[..]);
    r := u.pn[0] + u.pn[1] * B;
  }

  lemma LowLimbs(d: Limbs)
    requires |d| >= 2 && V(d) < B
    ensures d[0] + d[1] * B == V(d)
  {
    hide Val, Pow;
    SplitVal(d, 2);
    ValStep(B, d, 0);
    ValStep(B, d, 1);
    assert d[..0] == [];
    ValNothing(B);
    MNext(0);
    MNext(1);
    var rest := V(d[2..]);
    assert rest == 0 by {
      if rest > 0 {
        MulLe(1, rest, M(2));
      }
    }
  }

  /** The top three bytes, or all of a shorter number moved up. */
  method TopWord(u: Uint, size: nat) returns (compact: nat)
    requires u.Valid() && u.pn.Length == WIDTH && size == ByteLength(u.Value())
    ensures compact == TopBytes(u.Value())
  {
    hide Val, Pow, V, ByteLength;
    TopBytesSmall(u.Value());
    if size <= 3 {
      var low := Low64(u);
      compact := low * Pow(256, 3 - size);
    } else {
      var bn := new Uint.Copy(u.pn[..]);
      bn.ShiftRight(8 * (size - 3));
      BytePower(size - 3);
      compact := Low64(bn);
    }
  }

  method PackCompact(u: Uint, negative: bool) returns (w: nat)
    requires u.Valid() && u.pn.Length == WIDTH
    ensures w == GetCompact(u.Value(), negative)
  {
    hide Val, Pow, V, ByteLength, TopBytes, Or, And;
    ghost var x := u.Value();
    var bits := u.Bits();
    BytesOfBits(x, bits);
    var size := (bits + 7) / 8;
    var compact := TopWord(u, size);
    TopBytesSmall(x);
    TestSign(compact);
    if And(compact, 0x80_0000) != 0 {
      compact := compact / 256;
      size := size + 1;
    }
    PackWord(size, compact);
    w := Or(compact, size * 0x100_0000);
    w := Or(w, if negative && And(w, 0x7f_ffff) != 0 then 0x80_0000 else 0);
  }

  lemma TestSign(compact: nat)
    requires compact < 0x100_0000
    ensures And(compact, 0x80_0000) != 0 <==> compact >= 0x80_0000
  {
    hide And;
    Masks(compact);
  }

  /** Mantissa, size and sign do not meet in a word. */
  lemma PackWord(size: nat, m: nat)
    requires m < 0x80_0000
    ensures var w := Or(m, size * 0x100_0000);
            && w == size * 0x100_0000 + m && And(w, 0x7f_ffff) == m && Or(w, 0) == w && Or(w, 0x80_0000) == w + 0x80_0000
  {
    hide Or, And, Pow;
    PowerOf23();
    PowNext(2, 23);
    OrIsPlus(m, size, 24);
    var w := Or(m, size * 0x100_0000);
    Fields(size, 0, m);
    Masks(w);
    OrCommutes(w, 0);
    OrZero(w);
    OrIsPlus(m, 1, 23);
    OrThree(m, size);
  }

  lemma OrThree(m: nat, size: nat)
    requires m < 0x80_0000
    ensures Or(size * 0x100_0000 + m, 0x80_0000) == size * 0x100_0000 + m + 0x80_0000
  {
    hide Pow, Or;
    PowerOf23();
    PowNext(2, 23);
    OrIsPlus(m, 2 * size, 23);
    OrIsPlus(0x80_0000, size, 24);
    OrIsPlus(m, 2 * size + 1, 23);
    OrIsPlus(m, 1, 23);
    OrAssociates(m, size * 0x100_0000, 0x80_0000);
    OrCommutes(size * 0x100_0000, 0x80_0000);
  }

  /** Three bytes fit in a limb. */
  lemma TopBytesSmall(x: nat)
    ensures TopBytes(x) < 0x100_0000 && (ByteLength(x) <= 3 ==> x < B)
  {
    hide Pow, ByteLength;
    if x == 0 {
      NoBytes();
    } else {
      TopBytesRange(x);
    }
    PowSmall();
    if ByteLength(x) <= 3 {
      PowMonotoneExp(256, ByteLength(x), 3);
    }
  }

  lemma NoBytes()
    ensures ByteLength(0) == 0 && TopBytes(0) == 0
  {
  }

  method UnpackCompact(u: Uint, w: nat) returns (negative: bool, overflow: bool)
    requires u.Valid() && u.pn.Length == WIDTH && w < WORD
    modifies u.pn
    ensures u.Valid() && u.Value() == Compact.Value(w)
    ensures negative == Negative(w) && overflow == Overflow(w)
  {
    hide Val, Pow, V;
    hide And;
    Masks(w);
    var size := w / 0x100_0000;
    var word := And(w, 0x7f_ffff);
    if size <= 3 {
      word := if size == 3 then word else if size == 2 then word / 0x100
              else if size == 1 then word / 0x1_0000 else word / 0x100_0000;
      SetSmall(u, word);
      SmallValue(w);
    } else {
      SetSmall(u, word);
      u.ShiftLeft(8 * (size - 3));
      BytePower(size - 3);
      Modulus();
    }
    negative := word != 0 && And(w, 0x80_0000) != 0;
    overflow := word != 0 && (size > 34 || (word > 0xff && size > 33) || (word > 0xffff && size > 32));
  }

  lemma SmallValue(w: nat)
    requires Size(w) <= 3
    ensures Compact.Value(w) == Shifted(w)
  {
    hide Pow;
    PowSmall();
    PowZero(256);
    PowMonotoneExp(256, 3, 32);
    Unique(Exact(w), Pow(256, 32), 0, Exact(w));
  }

  method SetSmall(u: Uint, word: nat)
    requires u.pn.Length == WIDTH && word < B
    modifies u.pn
    ensures u.Valid() && u.Value() == word
  {
    hide Val, Pow;
    u.SetZero();
    u.pn[0] := word;
    ValZeros(B, u.pn[..], 1);
    HeadOne(u.pn[..]);
  }
}
