/** The Bech32 checksum: a linear code over groups of five bits. */
module Bech32Checksum {
  function Xor(a: bv32, b: bv32): bv32 {
    a ^ b
  }

  function Xor8(a: bv8, b: bv8): bv8 {
    a ^ b
  }

  predicate Has(x: bv32, mask: bv32) {
    x & mask != 0
  }

  function Pick(x: bv32, mask: bv32, k: bv32): bv32 {
    If(Has(x, mask), k)
  }

  function If(p: bool, k: bv32): bv32 {
    if p then k else 0
  }

  /** The generator's multiple for the five bits that fall out at the top. */
  function Feedback(top: bv32): bv32 {
    Xor(Pick(top, 1, 0x3b6a57b2),
        Xor(Pick(top, 2, 0x26508e6d),
            Xor(Pick(top, 4, 0x1ea119fa),
                Xor(Pick(top, 8, 0x3d4233dd), Pick(top, 16, 0x2a1462b3)))))
  }

  function Shifted(c: bv32): bv32 {
    (c & 0x1ffffff) << 5
  }

  function Top(c: bv32): bv32 {
    c >> 25
  }

  function Wide(v: bv8): bv32 {
    v as bv32
  }

  /** One more value enters the remainder. */
  function Step(c: bv32, v: bv8): bv32 {
    Xor(Xor(Shifted(c), Wide(v)), Feedback(Top(c)))
  }

  /******* Linearity *******/

  lemma RegroupBits(a: bv32, b: bv32, c: bv32, d: bv32)
    ensures (a ^ b) ^ (c ^ d) == (a ^ c) ^ (b ^ d)
  {
  }

  lemma Regroup(a: bv32, b: bv32, c: bv32, d: bv32)
    ensures Xor(Xor(a, b), Xor(c, d)) == Xor(Xor(a, c), Xor(b, d))
  {
    RegroupBits(a, b, c, d);
    assert Xor(a, b) == a ^ b;
  }

  lemma Cancel(k: bv32)
    ensures Xor(k, k) == 0 && Xor(k, 0) == k && Xor(0, k) == k
  {
  }

  lemma HasLinear(a: bv32, b: bv32, mask: bv32)
    requires mask == 1 || mask == 2 || mask == 4 || mask == 8 || mask == 16
    ensures Has(Xor(a, b), mask) <==> Has(a, mask) != Has(b, mask)
  {
    if mask == 1 {
    } else if mask == 2 {
    } else if mask == 4 {
    } else if mask == 8 {
    }
  }

  lemma PickLinear(a: bv32, b: bv32, mask: bv32, k: bv32)
    requires mask == 1 || mask == 2 || mask == 4 || mask == 8 || mask == 16
    ensures Pick(Xor(a, b), mask, k) == Xor(Pick(a, mask, k), Pick(b, mask, k))
  {
    hide Has, Xor;
    HasLinear(a, b, mask);
    Cancel(k);
    Cancel(0);
  }

  lemma FeedbackLinear(a: bv32, b: bv32)
    ensures Feedback(Xor(a, b)) == Xor(Feedback(a), Feedback(b))
  {
    hide Pick, Xor;
    PickLinear(a, b, 1, 0x3b6a57b2);
    PickLinear(a, b, 2, 0x26508e6d);
    PickLinear(a, b, 4, 0x1ea119fa);
    PickLinear(a, b, 8, 0x3d4233dd);
    PickLinear(a, b, 16, 0x2a1462b3);
    var a4, b4 := Pick(a, 16, 0x2a1462b3), Pick(b, 16, 0x2a1462b3);
    var a3, b3 := Xor(Pick(a, 8, 0x3d4233dd), a4), Xor(Pick(b, 8, 0x3d4233dd), b4);
    var a2, b2 := Xor(Pick(a, 4, 0x1ea119fa), a3), Xor(Pick(b, 4, 0x1ea119fa), b3);
    var a1, b1 := Xor(Pick(a, 2, 0x26508e6d), a2), Xor(Pick(b, 2, 0x26508e6d), b2);
    Regroup(Pick(a, 8, 0x3d4233dd), Pick(b, 8, 0x3d4233dd), a4, b4);
    Regroup(Pick(a, 4, 0x1ea119fa), Pick(b, 4, 0x1ea119fa), a3, b3);
    Regroup(Pick(a, 2, 0x26508e6d), Pick(b, 2, 0x26508e6d), a2, b2);
    Regroup(Pick(a, 1, 0x3b6a57b2), Pick(b, 1, 0x3b6a57b2), a1, b1);
  }

  lemma ShiftsLinear(a: bv32, b: bv32)
    ensures Shifted(Xor(a, b)) == Xor(Shifted(a), Shifted(b)) && Top(Xor(a, b)) == Xor(Top(a), Top(b))
  {
  }

  lemma WideLinear(v: bv8, w: bv8)
    ensures Wide(Xor8(v, w)) == Xor(Wide(v), Wide(w))
  {
  }

  /** Adding two inputs adds the outputs. */
  lemma StepLinear(a: bv32, v: bv8, b: bv32, w: bv8)
    ensures Step(Xor(a, b), Xor8(v, w)) == Xor(Step(a, v), Step(b, w))
  {
    hide Feedback, Shifted, Top, Wide, Xor, Xor8;
    ShiftsLinear(a, b);
    WideLinear(v, w);
    FeedbackLinear(Top(a), Top(b));
    Regroup(Shifted(a), Shifted(b), Wide(v), Wide(w));
    Regroup(Xor(Shifted(a), Wide(v)), Xor(Shifted(b), Wide(w)), Feedback(Top(a)), Feedback(Top(b)));
  }

  lemma StepInRange(c: bv32, v: bv8)
    ensures Step(c, v) < 0x40000000
  {
  }

  lemma StepNonZero(c: bv32)
    requires c != 0 && c < 0x40000000
    ensures Step(c, 0) != 0
  {
  }

  /******* Whole inputs *******/

  type Data = seq<bv8>

  /** The remainder after all values have entered. */
  function Run(c: bv32, x: Data): bv32 {
    if x == [] then c else Step(Run(c, x[..|x| - 1]), x[|x| - 1])
  }

  function PolyMod(x: Data): bv32 {
    Run(1, x)
  }

  ghost function XorAll(x: Data, y: Data): (r: Data)
    requires |x| == |y|
    ensures |r| == |x|
  {
    if x == [] then [] else XorAll(x[..|x| - 1], y[..|y| - 1]) + [Xor8(x[|x| - 1], y[|y| - 1])]
  }

  lemma {:induction false} RunAppend(c: bv32, x: Data, y: Data)
    ensures Run(c, x + y) == Run(Run(c, x), y)
  {
    if y == [] {
      assert x + y == x;
    } else {
      RunAppend(c, x, y[..|y| - 1]);
      assert (x + y)[..|x + y| - 1] == x + y[..|y| - 1];
    }
  }

  lemma {:induction false} RunLinear(a: bv32, x: Data, b: bv32, y: Data)
    requires |x| == |y|
    ensures Run(Xor(a, b), XorAll(x, y)) == Xor(Run(a, x), Run(b, y))
  {
    hide Step, Xor, Xor8;
    if x != [] {
      var n := |x| - 1;
      RunLinear(a, x[..n], b, y[..n]);
      StepLinear(Run(a, x[..n]), x[n], Run(b, y[..n]), y[n]);
      assert XorAll(x, y)[..n] == XorAll(x[..n], y[..n]);
    }
  }

  ghost predicate Zeros(x: Data) {
    forall i | 0 <= i < |x| :: x[i] == 0
  }

  ghost predicate FiveBit(x: Data) {
    forall i | 0 <= i < |x| :: x[i] < 32
  }

  /** A difference, once there, never goes away. */
  lemma {:induction false} DifferenceStays(c: bv32, x: Data)
    requires c != 0 && c < 0x40000000 && Zeros(x)
    ensures Run(c, x) != 0 && Run(c, x) < 0x40000000
  {
    hide Step;
    if x != [] {
      var d := Run(c, x[..|x| - 1]);
      DifferenceStays(c, x[..|x| - 1]);
      StepNonZero(d);
      StepInRange(d, 0);
    }
  }

  /** A remainder of j groups of five bits is below this. */
  function Limit(j: nat): bv32
    requires j <= 6
  {
    if j == 0 then 1 else if j == 1 then 0x20 else if j == 2 then 0x400 else if j == 3 then 0x8000
    else if j == 4 then 0x100000 else if j == 5 then 0x2000000 else 0x40000000
  }

  function Join(c: bv32, v: bv8): bv32 {
    (c << 5) | Wide(v)
  }

  /** While fewer than six groups have entered nothing falls out at the top. */
  lemma SmallStep(c: bv32, v: bv8)
    requires c < 0x2000000 && v < 32
    ensures Step(c, v) == Join(c, v)
  {
    hide Feedback, Shifted, Top, Wide, Xor, Join;
    NothingOut(c);
    NoFeedback();
    Disjoint(c, v);
    Cancel(Join(c, v));
  }

  lemma NothingOut(c: bv32)
    requires c < 0x2000000
    ensures Shifted(c) == c << 5 && Top(c) == 0
  {
  }

  lemma NoFeedback()
    ensures Feedback(0) == 0
  {
  }

  lemma DisjointBits(s: bv32, w: bv32)
    requires s & 31 == 0 && w < 32
    ensures s ^ w == s | w
  {
  }

  lemma LowBitsClear(c: bv32, v: bv8)
    requires v < 32
    ensures (c << 5) & 31 == 0 && Wide(v) < 32
  {
  }

  lemma Disjoint(c: bv32, v: bv8)
    requires c < 0x2000000 && v < 32
    ensures Xor(c << 5, Wide(v)) == Join(c, v)
  {
    hide Wide;
    LowBitsClear(c, v);
    DisjointBits(c << 5, Wide(v));
  }

  lemma SmallStepFacts(c: bv32, v: bv8, j: nat)
    requires j <= 5 && c < Limit(j) && v < 32
    ensures Step(c, v) < Limit(j + 1) && (Step(c, v) == 0 <==> c == 0 && v == 0)
  {
    hide Step, Join;
    SmallStep(c, v);
    ShiftFacts(c, v, j);
  }

  lemma ShiftFacts(c: bv32, v: bv8, j: nat)
    requires j <= 5 && c < Limit(j) && v < 32
    ensures Join(c, v) < Limit(j + 1) && (Join(c, v) == 0 <==> c == 0 && v == 0)
  {
  }

  /** Up to six values, not all zero, leave a remainder other than zero. */
  lemma {:induction false} WindowNonZero(x: Data)
    requires |x| <= 6 && FiveBit(x)
    ensures Run(0, x) < Limit(|x|) && (Run(0, x) == 0 <==> Zeros(x))
  {
    hide Step;
    if x != [] {
      var n := |x| - 1;
      WindowNonZero(x[..n]);
      SmallStepFacts(Run(0, x[..n]), x[n], n);
      assert Zeros(x) <==> Zeros(x[..n]) && x[n] == 0;
    }
  }

  lemma {:induction false} XorAllAt(x: Data, y: Data, i: nat)
    requires i < |x| == |y|
    ensures XorAll(x, y)[i] == Xor8(x[i], y[i])
  {
    hide Xor8;
    var n := |x| - 1;
    if i < n {
      XorAllAt(x[..n], y[..n], i);
    }
  }

  lemma XorAllFacts(x: Data, y: Data)
    requires |x| == |y|
    ensures Zeros(XorAll(x, y)) <==> x == y
    ensures FiveBit(x) && FiveBit(y) ==> FiveBit(XorAll(x, y))
  {
    hide Xor8, XorAll;
    forall i | 0 <= i < |x|
      ensures XorAll(x, y)[i] == 0 <==> x[i] == y[i]
      ensures x[i] < 32 && y[i] < 32 ==> XorAll(x, y)[i] < 32
    {
      XorAllAt(x, y, i);
      ByteFacts(x[i], y[i]);
    }
  }

  lemma ByteFacts(v: bv8, w: bv8)
    ensures Xor8(v, w) == 0 <==> v == w
    ensures v < 32 && w < 32 ==> Xor8(v, w) < 32
  {
  }

  lemma Differ(a: bv32, b: bv32)
    ensures Xor(a, b) == 0 <==> a == b
  {
    BackAgain(a, b);
    Cancel(b);
    hide Xor;
  }

  lemma BackAgain(a: bv32, b: bv32)
    ensures Xor(Xor(a, b), b) == a
  {
  }

  /**
   * Two inputs that differ only inside six consecutive five-bit values have
   * different remainders, at any length: such an error never goes unnoticed.
   */
  lemma WindowDetected(before: Data, x: Data, y: Data, after: Data)
    requires |x| == |y| <= 6 && FiveBit(x) && FiveBit(y) && x != y
    ensures PolyMod(before + x + after) != PolyMod(before + y + after)
  {
    hide Step, Xor, Xor8, Run, XorAll;
    var p := Run(1, before);
    RunAppend(1, before + x, after);
    RunAppend(1, before + y, after);
    RunAppend(1, before, x);
    RunAppend(1, before, y);
    var a, b := Run(p, x), Run(p, y);
    RunLinear(p, x, p, y);
    Cancel(p);
    XorAllFacts(x, y);
    var d := XorAll(x, y);
    WindowNonZero(d);
    LimitFacts(|d|);
    RunLinear(a, after, b, after);
    XorAllFacts(after, after);
    DifferenceStays(Xor(a, b), XorAll(after, after));
    Differ(Run(a, after), Run(b, after));
  }

  lemma LimitFacts(j: nat)
    requires j <= 6
    ensures Limit(j) <= 0x40000000 && Limit(6) == 0x40000000 && Limit(0) == 1
  {
  }

  /******* Creating a checksum *******/

  /** The first k of the six groups of five bits of a remainder: all but 5 * (6 - k) of its bits. */
  function Prefix(m: bv32, k: nat): bv32
    requires k <= 6
    decreases 6 - k
  {
    if k == 6 then m else Shr5(Prefix(m, k + 1))
  }

  function Shr5(y: bv32): bv32 {
    y >> 5
  }

  function Group(m: bv32, k: nat): (g: bv8)
    requires k < 6
    ensures g < 32
  {
    Low5(Prefix(m, k + 1))
  }

  function Low5(x: bv32): (g: bv8)
    ensures g < 32
  {
    (x & 31) as bv8
  }

  /** The groups, highest first. */
  function Groups(m: bv32): (r: Data)
    ensures |r| == 6 && FiveBit(r)
  {
    seq(6, k requires 0 <= k < 6 => Group(m, k))
  }

  lemma ShiftBack(y: bv32)
    requires y < 0x40000000
    ensures Shr5(y) < 0x2000000 && y == Join(Shr5(y), Low5(y))
  {
  }

  predicate Under(y: bv32, k: nat)
    requires k <= 6
  {
    y < Limit(k)
  }

  lemma {:induction false} PrefixLimit(m: bv32, k: nat)
    requires Under(m, 6) && k <= 6
    ensures Under(Prefix(m, k), k)
    decreases 6 - k
  {
    hide Under, Shr5;
    if k < 6 {
      PrefixLimit(m, k + 1);
      LimitStep(Prefix(m, k + 1), k);
    }
  }

  lemma LimitStep(y: bv32, k: nat)
    requires k < 6 && Under(y, k + 1)
    ensures Under(Shr5(y), k)
  {
    if k == 0 {
    } else if k == 1 {
    } else if k == 2 {
    } else if k == 3 {
    } else if k == 4 {
    }
  }

  lemma UnderFacts(y: bv32, k: nat)
    requires k <= 6
    ensures Under(y, k) ==> y < 0x40000000
    ensures k == 6 && y < 0x40000000 ==> Under(y, k)
    ensures k == 0 && Under(y, k) ==> y == 0
  {
  }

  lemma PrefixStep(m: bv32, k: nat)
    requires m < 0x40000000 && k < 6
    ensures Prefix(m, k) < 0x2000000 && Prefix(m, k + 1) == Join(Prefix(m, k), Group(m, k))
  {
    hide Low5, Wide, Join, Shr5, Under;
    UnderFacts(m, 6);
    PrefixLimit(m, k + 1);
    UnderFacts(Prefix(m, k + 1), k + 1);
    ShiftBack(Prefix(m, k + 1));
  }

  /** Reading the groups back in gives the remainder itself. */
  lemma {:induction false} GroupsRun(m: bv32, k: nat)
    requires m < 0x40000000 && k <= 6
    ensures Run(0, Groups(m)[..k]) == Prefix(m, k)
  {
    hide Step, Prefix, Group, Join;
    if k > 0 {
      var g := Groups(m);
      GroupsRun(m, k - 1);
      PrefixStep(m, k - 1);
      SmallStep(Prefix(m, k - 1), Group(m, k - 1));
      assert g[..k][..k - 1] == g[..k - 1];
      assert g[k - 1] == Group(m, k - 1);
    } else {
      NoPrefix(m);
    }
  }

  lemma NoPrefix(m: bv32)
    requires m < 0x40000000
    ensures Prefix(m, 0) == 0 && Prefix(m, 6) == m
  {
    hide Under;
    UnderFacts(m, 6);
    PrefixLimit(m, 0);
    UnderFacts(Prefix(m, 0), 0);
  }

  const ZERO6: Data := [0, 0, 0, 0, 0, 0]

  function CreateChecksum(x: Data): (r: Data)
    ensures |r| == 6 && FiveBit(r)
  {
    Groups(Xor(PolyMod(x + ZERO6), 1))
  }

  predicate VerifyChecksum(x: Data) {
    PolyMod(x) == 1
  }

  lemma {:induction false} RunInRange(c: bv32, x: Data)
    requires x != []
    ensures Run(c, x) < 0x40000000
  {
    hide Step;
    StepInRange(Run(c, x[..|x| - 1]), x[|x| - 1]);
  }

  lemma XorOne(z: bv32)
    requires z < 0x40000000
    ensures Xor(z, 1) < 0x40000000 && Xor(z, Xor(z, 1)) == 1
  {
  }

  lemma XorZeros(x: Data, y: Data)
    requires |x| == |y| && Zeros(x)
    ensures XorAll(x, y) == y
  {
    hide Xor8, XorAll;
    forall i | 0 <= i < |x| ensures XorAll(x, y)[i] == y[i] {
      XorAllAt(x, y, i);
      ByteZero(y[i]);
    }
  }

  lemma ByteZero(v: bv8)
    ensures Xor8(0, v) == v
  {
  }

  /** The checksum created for any input is accepted. */
  lemma ChecksumAccepted(x: Data)
    ensures VerifyChecksum(x + CreateChecksum(x))
  {
    hide Step, Xor, XorAll, Run, Groups, Prefix;
    var p, z := Run(1, x), PolyMod(x + ZERO6);
    var m := Xor(z, 1);
    var g := Groups(m);
    RunInRange(1, x + ZERO6);
    XorOne(z);
    RunAppend(1, x, ZERO6);
    RunAppend(1, x, g);
    GroupsRun(m, 6);
    NoPrefix(m);
    assert g[..6] == g;
    RunLinear(p, ZERO6, 0, g);
    XorZeros(ZERO6, g);
    Cancel(p);
  }

  /** And it is the only one that is. */
  lemma ChecksumUnique(x: Data, checksum: Data)
    requires |checksum| == 6 && FiveBit(checksum)
    ensures VerifyChecksum(x + checksum) <==> checksum == CreateChecksum(x)
  {
    hide Run, Groups, PolyMod;
    ChecksumAccepted(x);
    if checksum != CreateChecksum(x) {
      WindowDetected(x, checksum, CreateChecksum(x), []);
      assert x + checksum + [] == x + checksum;
      assert x + CreateChecksum(x) + [] == x + CreateChecksum(x);
    }
  }
}

/** Bech32 strings: a readable prefix, a separator, and values of five bits with a checksum. */
module Bech32 {
  import opened Options
  import opened Bech32Checksum

  type Text = seq<bv8>

  const SEPARATOR: bv8 := 49
  const NONE: bv8 := 255

  /** The character of a value. */
  function Symbol(v: bv8): bv8
    requires v < 32
  {
    if v < 16 then SymbolLow(v) else SymbolHigh(v)
  }

  function SymbolLow(v: bv8): bv8 {
    if v == 0 then 113 else if v == 1 then 112 else if v == 2 then 122 else if v == 3 then 114 else if v == 4 then 121
    else if v == 5 then 57 else if v == 6 then 120 else if v == 7 then 56 else if v == 8 then 103 else if v == 9 then 102
    else if v == 10 then 50 else if v == 11 then 116 else if v == 12 then 118 else if v == 13 then 100 else if v == 14 then 119
    else 48
  }

  function SymbolHigh(v: bv8): bv8 {
    if v == 16 then 115 else if v == 17 then 51 else if v == 18 then 106 else if v == 19 then 110 else if v == 20 then 53
    else if v == 21 then 52 else if v == 22 then 107 else if v == 23 then 104 else if v == 24 then 99 else if v == 25 then 101
    else if v == 26 then 54 else if v == 27 then 109 else if v == 28 then 117 else if v == 29 then 97 else if v == 30 then 55
    else 108
  }

  function LowerCase(c: bv8): bv8 {
    if 65 <= c <= 90 then c + 32 else c
  }

  /** The value of a lower-case character, or NONE. */
  function ReverseLower(c: bv8): bv8 {
    if c < 97 then ReverseDigit(c) else ReverseLetter(c)
  }

  function ReverseDigit(c: bv8): bv8 {
    if c == 48 then 15 else if c == 50 then 10 else if c == 51 then 17 else if c == 52 then 21 else if c == 53 then 20
    else if c == 54 then 26 else if c == 55 then 30 else if c == 56 then 7 else if c == 57 then 5
    else NONE
  }

  function ReverseLetter(c: bv8): bv8 {
    if c == 97 then 29 else if c == 99 then 24 else if c == 100 then 13 else if c == 101 then 25 else if c == 102 then 9
    else if c == 103 then 8 else if c == 104 then 23 else if c == 106 then 18 else if c == 107 then 22 else if c == 108 then 31
    else if c == 109 then 27 else if c == 110 then 19 else if c == 112 then 1 else if c == 113 then 0 else if c == 114 then 3
    else if c == 115 then 16 else if c == 116 then 11 else if c == 117 then 28 else if c == 118 then 12 else if c == 119 then 14
    else if c == 120 then 6 else if c == 121 then 4 else if c == 122 then 2
    else NONE
  }

  /** Capital letters stand for the same values. */
  function Reverse(c: bv8): bv8 {
    ReverseLower(LowerCase(c))
  }

  lemma SymbolRange(v: bv8)
    requires v < 32
    ensures Symbol(v) != SEPARATOR && 33 <= Symbol(v) <= 126 && !(65 <= Symbol(v) <= 90)
  {
  }

  lemma LowReverse(v: bv8)
    requires v < 16
    ensures ReverseLower(SymbolLow(v)) == v
  {
  }

  lemma HighReverse(v: bv8)
    requires 16 <= v < 32
    ensures ReverseLower(SymbolHigh(v)) == v
  {
  }

  lemma DigitSymbol(c: bv8)
    requires ReverseDigit(c) != NONE
    ensures ReverseDigit(c) < 32 && Symbol(ReverseDigit(c)) == c
  {
  }

  lemma LetterSymbol(c: bv8)
    requires ReverseLetter(c) != NONE
    ensures ReverseLetter(c) < 32 && Symbol(ReverseLetter(c)) == c
  {
  }

  /** Every value has a character of its own, which is printable, not a capital and not the separator. */
  lemma SymbolFacts(v: bv8)
    requires v < 32
    ensures Reverse(Symbol(v)) == v && Symbol(v) != SEPARATOR && 33 <= Symbol(v) <= 126 && !(65 <= Symbol(v) <= 90)
  {
    hide SymbolLow, SymbolHigh, ReverseLower;
    SymbolRange(v);
    if v < 16 {
      LowReverse(v);
    } else {
      HighReverse(v);
    }
  }

  lemma ReverseFacts(c: bv8)
    requires Reverse(c) != NONE
    ensures Reverse(c) < 32 && Symbol(Reverse(c)) == LowerCase(c)
  {
    hide Symbol, ReverseDigit, ReverseLetter;
    if LowerCase(c) < 97 {
      DigitSymbol(LowerCase(c));
    } else {
      LetterSymbol(LowerCase(c));
    }
  }

  /******* What encoding and decoding mean *******/

  /** The prefix as it enters the checksum: the high bits, a zero, the low bits. */
  function ExpandPrefix(hrp: Text): Data {
    seq(|hrp|, i requires 0 <= i < |hrp| => HighBits(hrp[i])) + [0]
    + seq(|hrp|, i requires 0 <= i < |hrp| => LowBits(hrp[i]))
  }

  function HighBits(c: bv8): bv8 {
    c >> 5
  }

  function LowBits(c: bv8): bv8 {
    c & 31
  }

  ghost function Symbols(x: Data): (r: Text)
    requires FiveBit(x)
    ensures |r| == |x|
  {
    seq(|x|, i requires 0 <= i < |x| => Symbol(x[i]))
  }

  ghost function Encoded(hrp: Text, values: Data): Text
    requires FiveBit(values)
  {
    hrp + [SEPARATOR] + Symbols(values + CreateChecksum(ExpandPrefix(hrp) + values))
  }

  ghost predicate IsUpper(c: bv8) {
    65 <= c <= 90
  }

  ghost predicate IsLower(c: bv8) {
    97 <= c <= 122
  }

  ghost predicate Printable(s: Text) {
    forall i | 0 <= i < |s| :: 33 <= s[i] <= 126
  }

  ghost predicate MixedCase(s: Text) {
    (exists i :: 0 <= i < |s| && IsLower(s[i])) && (exists i :: 0 <= i < |s| && IsUpper(s[i]))
  }

  ghost function Lower(s: Text): (r: Text)
    ensures |r| == |s|
  {
    seq(|s|, i requires 0 <= i < |s| => LowerCase(s[i]))
  }

  /** The position of the last separator, or -1. */
  ghost function LastSeparator(s: Text): (r: int)
    ensures -1 <= r < |s| && (r >= 0 ==> s[r] == SEPARATOR) && forall i | r < i < |s| :: s[i] != SEPARATOR
  {
    if s == [] then -1 else if s[|s| - 1] == SEPARATOR then |s| - 1 else LastSeparator(s[..|s| - 1])
  }

  ghost function Values(s: Text): (r: Data)
    ensures |r| == |s|
  {
    seq(|s|, i requires 0 <= i < |s| => Reverse(s[i]))
  }

  ghost predicate Known(x: Data) {
    forall i | 0 <= i < |x| :: x[i] != NONE
  }

  ghost function Decoded(s: Text): Option<(Text, Data)> {
    var pos := LastSeparator(s);
    if !Printable(s) || MixedCase(s) || |s| > 1023 || pos < 1 || pos + 7 > |s| then None
    else
      var values := Values(s[pos + 1..]);
      var hrp := Lower(s[..pos]);
      if !Known(values) || !VerifyChecksum(ExpandPrefix(hrp) + values) then None
      else Some((hrp, values[..|values| - 6]))
  }

  /******* Round trips *******/

  ghost predicate GoodPrefix(hrp: Text) {
    hrp != [] && Printable(hrp) && forall i | 0 <= i < |hrp| :: !IsUpper(hrp[i])
  }

  lemma ValuesOfSymbols(x: Data)
    requires FiveBit(x)
    ensures Values(Symbols(x)) == x && Known(x) && Printable(Symbols(x))
    ensures forall i | 0 <= i < |x| :: Symbols(x)[i] != SEPARATOR && !IsUpper(Symbols(x)[i])
  {
    hide Symbol, Reverse;
    forall i | 0 <= i < |x|
      ensures Reverse(Symbols(x)[i]) == x[i] && x[i] != NONE && 33 <= Symbols(x)[i] <= 126
      ensures Symbols(x)[i] != SEPARATOR && !IsUpper(Symbols(x)[i])
    {
      SymbolFacts(x[i]);
    }
  }

  lemma SymbolsOfValues(s: Text)
    requires Known(Values(s))
    ensures FiveBit(Values(s)) && Symbols(Values(s)) == Lower(s)
  {
    hide Symbol, Reverse, LowerCase;
    forall i | 0 <= i < |s| ensures Values(s)[i] < 32 && Symbol(Values(s)[i]) == LowerCase(s[i]) {
      assert Values(s)[i] == Reverse(s[i]);
      ReverseFacts(s[i]);
    }
  }

  /** Nothing but small letters, digits and signs: no mixed case, and lower-casing changes nothing. */
  lemma NoCapitals(s: Text)
    requires forall i | 0 <= i < |s| :: !IsUpper(s[i])
    ensures !MixedCase(s) && Lower(s) == s
  {
  }

  /** The last separator of a text with none after position p is at p. */
  lemma SeparatorAt(s: Text, p: nat)
    requires p < |s| && s[p] == SEPARATOR && forall i | p < i < |s| :: s[i] != SEPARATOR
    ensures LastSeparator(s) == p
  {
    var r := LastSeparator(s);
    assert r >= p;
  }

  /** Decoding gives back what was encoded. */
  lemma DecodeEncoded(hrp: Text, values: Data)
    requires GoodPrefix(hrp) && FiveBit(values) && |hrp| + 1 + |values| + 6 <= 1023
    ensures Decoded(Encoded(hrp, values)) == Some((hrp, values))
  {
    hide CreateChecksum, Symbols, Values, ExpandPrefix, LastSeparator, Lower, MixedCase, VerifyChecksum, IsUpper;
    var checksum := CreateChecksum(ExpandPrefix(hrp) + values);
    var all := values + checksum;
    var s := Encoded(hrp, values);
    var tail := Symbols(all);
    ValuesOfSymbols(all);
    assert forall i | 0 <= i < |hrp| :: s[i] == hrp[i];
    assert forall i | 0 <= i < |tail| :: s[|hrp| + 1 + i] == tail[i];
    assert s[|hrp|] == SEPARATOR && !IsUpper(SEPARATOR) by { SeparatorFacts(); }
    forall i | 0 <= i < |s| ensures 33 <= s[i] <= 126 && !IsUpper(s[i]) && (i > |hrp| ==> s[i] != SEPARATOR) {
      assert i > |hrp| ==> s[i] == tail[i - |hrp| - 1];
    }
    NoCapitals(s);
    NoCapitals(hrp);
    SeparatorAt(s, |hrp|);
    assert s[..|hrp|] == hrp && s[|hrp| + 1..] == tail;
    ChecksumAccepted(ExpandPrefix(hrp) + values);
    assert ExpandPrefix(hrp) + values + checksum == ExpandPrefix(hrp) + all;
    assert all[..|all| - 6] == values;
  }

  lemma SeparatorFacts()
    ensures 33 <= SEPARATOR <= 126 && !IsUpper(SEPARATOR) && LowerCase(SEPARATOR) == SEPARATOR
  {
  }

  /** Encoding what was decoded gives back the text, in lower case. */
  lemma EncodeDecoded(s: Text)
    requires Decoded(s).Some?
    ensures var (hrp, values) := Decoded(s).value;
            FiveBit(values) && Encoded(hrp, values) == Lower(s)
  {
    hide CreateChecksum, Symbols, Values, ExpandPrefix, LastSeparator, MixedCase, VerifyChecksum, LowerCase;
    var pos := LastSeparator(s);
    var all := Values(s[pos + 1..]);
    var (hrp, values) := Decoded(s).value;
    SymbolsOfValues(s[pos + 1..]);
    var checksum := all[|all| - 6..];
    assert values + checksum == all;
    ChecksumUnique(ExpandPrefix(hrp) + values, checksum);
    assert ExpandPrefix(hrp) + values + checksum == ExpandPrefix(hrp) + all;
    SeparatorFacts();
    assert s == s[..pos] + [s[pos]] + s[pos + 1..];
    assert Lower(s) == Lower(s[..pos]) + [LowerCase(s[pos])] + Lower(s[pos + 1..]);
  }

  /******* Known texts *******/

  const CHARSET := "qpzry9x8gf2tvdw0s3jn54khce6mua7l"

  /** The characters of the 32 values, in order. */
  lemma CharsetLow()
    ensures Symbol(0) as int == CHARSET[0] as int
    ensures Symbol(1) as int == CHARSET[1] as int
    ensures Symbol(2) as int == CHARSET[2] as int
    ensures Symbol(3) as int == CHARSET[3] as int
    ensures Symbol(4) as int == CHARSET[4] as int
    ensures Symbol(5) as int == CHARSET[5] as int
    ensures Symbol(6) as int == CHARSET[6] as int
    ensures Symbol(7) as int == CHARSET[7] as int
    ensures Symbol(8) as int == CHARSET[8] as int
    ensures Symbol(9) as int == CHARSET[9] as int
    ensures Symbol(10) as int == CHARSET[10] as int
    ensures Symbol(11) as int == CHARSET[11] as int
    ensures Symbol(12) as int == CHARSET[12] as int
    ensures Symbol(13) as int == CHARSET[13] as int
    ensures Symbol(14) as int == CHARSET[14] as int
    ensures Symbol(15) as int == CHARSET[15] as int
  {
  }

  lemma CharsetMiddle()
    ensures Symbol(16) as int == CHARSET[16] as int
    ensures Symbol(17) as int == CHARSET[17] as int
    ensures Symbol(18) as int == CHARSET[18] as int
    ensures Symbol(19) as int == CHARSET[19] as int
    ensures Symbol(20) as int == CHARSET[20] as int
    ensures Symbol(21) as int == CHARSET[21] as int
    ensures Symbol(22) as int == CHARSET[22] as int
    ensures Symbol(23) as int == CHARSET[23] as int
  {
  }

  lemma CharsetHigh()
    ensures Symbol(24) as int == CHARSET[24] as int
    ensures Symbol(25) as int == CHARSET[25] as int
    ensures Symbol(26) as int == CHARSET[26] as int
    ensures Symbol(27) as int == CHARSET[27] as int
    ensures Symbol(28) as int == CHARSET[28] as int
    ensures Symbol(29) as int == CHARSET[29] as int
    ensures Symbol(30) as int == CHARSET[30] as int
    ensures Symbol(31) as int == CHARSET[31] as int
  {
  }

  lemma {:induction false} RunNext(x: Data, v: bv8, c: bv32)
    requires PolyMod(x) == c
    ensures PolyMod(x + [v]) == Step(c, v)
  {
    hide Step;
    assert (x + [v])[..|x|] == x;
  }

  lemma EmptyRun()
    ensures PolyMod([]) == 1
  {
  }

  lemma KnownSteps()
    ensures Step(0x1, 3) == 0x23
    ensures Step(0x23, 0) == 0x460
    ensures Step(0x460, 1) == 0x8c01
    ensures Step(0x8c01, 10) == 0x11802a
    ensures Step(0x11802a, 28) == 0x230055c
    ensures Step(0x230055c, 25) == 0x3d6afc2b
    ensures Step(0x3d6afc2b, 31) == 0x2f84386
    ensures Step(0x2f84386, 20) == 0x24622766
    ensures Step(0x24622766, 31) == 0x1
  {
  }

  /** The checksum of an empty text with prefix "a". */
  lemma KnownChecksum()
    ensures VerifyChecksum([3, 0, 1] + [10, 28, 25, 31, 20, 31])
    ensures CreateChecksum([3, 0, 1]) == [10, 28, 25, 31, 20, 31]
  {
    hide Step, CreateChecksum, PolyMod;
    KnownSteps();
    EmptyRun();
    var x0: Data := [];
    var x1 := x0 + [3];
    RunNext(x0, 3, 0x1);
    var x2 := x1 + [0];
    RunNext(x1, 0, 0x23);
    var x3 := x2 + [1];
    RunNext(x2, 1, 0x460);
    var x4 := x3 + [10];
    RunNext(x3, 10, 0x8c01);
    var x5 := x4 + [28];
    RunNext(x4, 28, 0x11802a);
    var x6 := x5 + [25];
    RunNext(x5, 25, 0x230055c);
    var x7 := x6 + [31];
    RunNext(x6, 31, 0x3d6afc2b);
    var x8 := x7 + [20];
    RunNext(x7, 20, 0x2f84386);
    var x9 := x8 + [31];
    RunNext(x8, 31, 0x24622766);
    assert x9 == [3, 0, 1] + [10, 28, 25, 31, 20, 31];
    ChecksumUnique([3, 0, 1], [10, 28, 25, 31, 20, 31]);
  }

  /** So that text is a12uel5l. */
  lemma KnownText()
    ensures Encoded([97], []) == [97, 49, 50, 117, 101, 108, 53, 108] && Decoded([97, 49, 50, 117, 101, 108, 53, 108]) == Some(([97], []))
  {
    hide CreateChecksum, PolyMod, Decoded;
    KnownChecksum();
    assert ExpandPrefix([97]) == [3, 0, 1] by {
      assert HighBits(97) == 3 && LowBits(97) == 1;
    }
    assert ExpandPrefix([97]) + [] == [3, 0, 1];
    var all: Data := [] + [10, 28, 25, 31, 20, 31];
    assert Symbols(all) == [50, 117, 101, 108, 53, 108];
    DecodeEncoded([97], []);
  }

  /******* Damaged texts *******/

  /** The two texts differ only at positions from a up to b. */
  ghost predicate DifferWithin(s: Text, t: Text, a: nat, b: nat) {
    |s| == |t| && forall i | 0 <= i < |s| && !(a <= i < b) :: s[i] == t[i]
  }

  /**
   * A text that was accepted is refused when up to six consecutive characters
   * after the separator are replaced, unless the change is only one of case
   * (or a new separator moves the end of the prefix).
   */
  lemma BurstRefused(s: Text, t: Text, a: nat, b: nat)
    requires Decoded(s).Some? && LastSeparator(s) < a <= b <= |s| && b - a <= 6
    requires DifferWithin(s, t, a, b) && Lower(s) != Lower(t) && forall i | a <= i < b :: t[i] != SEPARATOR
    ensures Decoded(t) == None
  {
    hide ExpandPrefix, LastSeparator, MixedCase, LowerCase, Printable, Symbols, Values, Known, Lower;
    var pos := LastSeparator(s);
    SeparatorAt(t, pos);
    assert s[..pos] == t[..pos];
    var first := ExpandPrefix(Lower(s[..pos]));
    var x, y := Values(s[pos + 1..]), Values(t[pos + 1..]);
    if Known(y) {
      SymbolsOfValues(s[pos + 1..]);
      SymbolsOfValues(t[pos + 1..]);
      if x == y {
        SameLower(s, t, pos + 1);
      } else {
        ValuesAgree(s, t, pos + 1, a, b);
        ValuesDiffer(first, x, y, a - pos - 1, b - pos - 1);
      }
    }
  }

  lemma ValuesAgree(s: Text, t: Text, n: nat, a: nat, b: nat)
    requires DifferWithin(s, t, a, b) && n <= a <= b <= |s|
    ensures var x, y := Values(s[n..]), Values(t[n..]);
            forall i | 0 <= i < |x| && !(a - n <= i < b - n) :: x[i] == y[i]
  {
    hide Reverse;
    forall i | 0 <= i < |s| - n && !(a - n <= i < b - n) ensures s[n..][i] == t[n..][i] {
      assert s[n + i] == t[n + i];
    }
  }

  lemma SameLower(s: Text, t: Text, n: nat)
    requires n <= |s| == |t| && s[..n] == t[..n] && Lower(s[n..]) == Lower(t[n..])
    ensures Lower(s) == Lower(t)
  {
    hide LowerCase;
    assert s == s[..n] + s[n..] && t == t[..n] + t[n..];
    assert Lower(s) == Lower(s[..n]) + Lower(s[n..]);
    assert Lower(t) == Lower(t[..n]) + Lower(t[n..]);
  }

  lemma DifferInside(x: Data, y: Data, a: nat, b: nat)
    requires a <= b <= |x| == |y| && x != y && forall i | 0 <= i < |x| && !(a <= i < b) :: x[i] == y[i]
    ensures x[a..b] != y[a..b]
  {
    var i :| 0 <= i < |x| && x[i] != y[i];
    assert x[a..b][i - a] == x[i] && y[a..b][i - a] == y[i];
  }

  lemma ValuesDiffer(first: Data, x: Data, y: Data, a: nat, b: nat)
    requires a <= b <= |x| == |y| && b - a <= 6 && FiveBit(x) && FiveBit(y) && x != y
    requires forall i | 0 <= i < |x| && !(a <= i < b) :: x[i] == y[i]
    ensures PolyMod(first + x) != PolyMod(first + y)
  {
    var before, after := first + x[..a], x[b..];
    assert first + x == before + x[a..b] + after;
    assert y[..a] == x[..a] && y[b..] == x[b..];
    assert first + y == before + y[a..b] + after;
    DifferInside(x, y, a, b);
    WindowDetected(before, x[a..b], y[a..b], after);
  }

  /******* The loops *******/

  method ComputePolyMod(v: Data) returns (c: bv32)
    ensures c == PolyMod(v)
  {
    hide Step;
    c := 1;
    for i := 0 to |v|
      invariant c == Run(1, v[..i])
    {
      c := Step(c, v[i]);
      assert v[..i + 1][..i] == v[..i];
    }
    assert v[..|v|] == v;
  }

  method ExpandHRP(hrp: Text) returns (r: Data)
    ensures r == ExpandPrefix(hrp)
  {
    hide HighBits, LowBits;
    var n := |hrp|;
    r := seq(2 * n + 1, i => 0);
    for i := 0 to n
      invariant |r| == 2 * n + 1 && r[n] == 0
      invariant forall j | 0 <= j < i :: r[j] == HighBits(hrp[j]) && r[j + n + 1] == LowBits(hrp[j])
    {
      r := r[i := HighBits(hrp[i])];
      r := r[i + n + 1 := LowBits(hrp[i])];
    }
    assert forall j | n < j < 2 * n + 1 :: r[j] == r[(j - n - 1) + n + 1];
  }

  method MakeChecksum(hrp: Text, values: Data) returns (r: Data)
    ensures r == CreateChecksum(ExpandPrefix(hrp) + values)
  {
    hide Group, Run;
    var enc := ExpandHRP(hrp);
    enc := enc + values;
    var mod := ComputePolyMod(enc + ZERO6);
    mod := Xor(mod, 1);
    r := [];
    for i := 0 to 6
      invariant |r| == i && forall j | 0 <= j < i :: r[j] == Group(mod, j)
    {
      r := r + [Group(mod, i)];
    }
  }

  /** The empty text when a value has more than five bits. */
  method Encode(hrp: Text, values: Data) returns (s: Text)
    ensures if FiveBit(values) then s == Encoded(hrp, values) else s == []
  {
    hide Symbol, CreateChecksum;
    var checksum := MakeChecksum(hrp, values);
    var combined := values + checksum;
    var symbols: Text := [];
    for i := 0 to |combined|
      invariant |symbols| == i
      invariant forall j | 0 <= j < i :: combined[j] < 32 && symbols[j] == Symbol(combined[j])
    {
      if combined[i] >= 32 {
        assert i < |values|;
        return [];
      }
      symbols := symbols + [Symbol(combined[i])];
    }
    assert forall j | 0 <= j < |values| :: values[j] == combined[j];
    s := hrp + [SEPARATOR] + symbols;
  }

  method ScanCase(s: Text) returns (ok: bool)
    ensures ok <==> Printable(s) && !MixedCase(s)
  {
    var lower, upper := false, false;
    for i := 0 to |s|
      invariant Printable(s[..i])
      invariant lower <==> exists j :: 0 <= j < i && IsLower(s[j])
      invariant upper <==> exists j :: 0 <= j < i && IsUpper(s[j])
    {
      var c := s[i];
      if c < 33 || c > 126 {
        return false;
      }
      if c >= 97 && c <= 122 {
        lower := true;
        assert IsLower(s[i]);
      }
      if c >= 65 && c <= 90 {
        upper := true;
        assert IsUpper(s[i]);
      }
    }
    ok := !(lower && upper);
  }

  method FindSeparator(s: Text) returns (pos: int)
    ensures pos == LastSeparator(s)
  {
    pos := |s| - 1;
    while pos >= 0 && s[pos] != SEPARATOR
      invariant -1 <= pos < |s| && forall i | pos < i < |s| :: s[i] != SEPARATOR
    {
      pos := pos - 1;
    }
    if pos >= 0 {
      SeparatorAt(s, pos);
    }
  }

  method Decode(s: Text) returns (r: Option<(Text, Data)>)
    ensures r == Decoded(s)
  {
    hide Reverse, LowerCase, MixedCase, PolyMod;
    var ok := ScanCase(s);
    if !ok {
      return None;
    }
    var pos := FindSeparator(s);
    if |s| > 1023 || pos < 1 || pos + 7 > |s| {
      return None;
    }
    var tail := s[pos + 1..];
    var values: Data := [];
    for i := 0 to |tail|
      invariant |values| == i && forall j | 0 <= j < i :: values[j] == Values(tail)[j] && values[j] != NONE
    {
      var rev := Reverse(tail[i]);
      if rev == NONE {
        assert Values(tail)[i] == NONE;
        return None;
      }
      values := values + [rev];
    }
    assert values == Values(tail);
    var hrp: Text := [];
    for i := 0 to pos
      invariant |hrp| == i && forall j | 0 <= j < i :: hrp[j] == Lower(s[..pos])[j]
    {
      hrp := hrp + [LowerCase(s[i])];
    }
    assert hrp == Lower(s[..pos]);
    var expanded := ExpandHRP(hrp);
    var check := ComputePolyMod(expanded + values);
    if check != 1 {
      return None;
    }
    r := Some((hrp, values[..|values| - 6]));
  }
}
