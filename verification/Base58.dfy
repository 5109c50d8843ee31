/**
 * Base58 text: byte strings as numbers in base 58, computed in buffers whose
 * sizes are fixed beforehand by rational approximations of the logarithms.
 */
module Base58 {
  import opened Options
  import opened Arith
  import opened Positional

  type Text = seq<nat>
  type Bytes = seq<nat>

  const ONE: nat := 49

  /** The characters: digits and letters without 0, I, O and l. */
  function Symbol(d: nat): (c: nat)
    requires d < 58
    ensures Index(c) == d && !IsSpace(c) && c != 0 && (c == ONE <==> d == 0)
  {
    if d < 9 then 49 + d
    else if d < 17 then 65 + (d - 9)
    else if d < 22 then 74 + (d - 17)
    else if d < 33 then 80 + (d - 22)
    else if d < 44 then 97 + (d - 33)
    else 109 + (d - 44)
  }

  /** The value of a character, or -1. */
  function Index(c: nat): (d: int)
    ensures -1 <= d < 58
  {
    if 49 <= c <= 57 then c - 49
    else if 65 <= c <= 72 then c - 65 + 9
    else if 74 <= c <= 78 then c - 74 + 17
    else if 80 <= c <= 90 then c - 80 + 22
    else if 97 <= c <= 107 then c - 97 + 33
    else if 109 <= c <= 122 then c - 109 + 44
    else -1
  }

  lemma IndexSymbol(c: nat)
    requires Index(c) >= 0
    ensures Symbol(Index(c)) == c
  {
  }

  /** The alphabet is that of digits and letters without 0, I, O and l, in the order of their codes. */
  lemma AlphabetIs(c: nat)
    ensures Index(c) >= 0 <==>
            (48 <= c <= 57 || 65 <= c <= 90 || 97 <= c <= 122) && c != 48 && c != 73 && c != 79 && c != 108
  {
  }

  lemma SymbolsIncrease(d: nat, e: nat)
    requires d < e < 58
    ensures Symbol(d) < Symbol(e)
  {
  }

  predicate IsSpace(c: nat) {
    9 <= c <= 13 || c == 32
  }

  lemma SpacesAre(c: nat)
    ensures IsSpace(c) <==> c in {9, 10, 11, 12, 13, 32}
  {
  }

  /******* Buffer sizes *******/

  lemma PowerOf2()
    ensures Pow(2, 9) == 512 && Pow(2, 10) == 1024
  {
    assert Pow(2, 5) == 32;
  }

  lemma PowerOf58()
    ensures Pow(58, 1) == 58 && Pow(58, 7) == 2207984167552
  {
    assert Pow(58, 4) == 11316496;
  }

  /** The two comparisons of powers behind the approximations of the logarithms. */
  lemma Constants()
    ensures Pow(2, 41) <= Pow(58, 7) && Pow(58, 22) <= Pow(2, 129)
  {
    hide Pow;
    PowerOf2();
    PowerOf58();
    PowAdd(2, 10, 10);
    PowAdd(2, 20, 20);
    PowAdd(2, 9, 40);
    PowAdd(2, 49, 40);
    PowAdd(2, 89, 40);
    PowAdd(58, 7, 7);
    PowAdd(58, 14, 7);
    PowAdd(58, 21, 1);
    assert Pow(2, 40) == 1099511627776 && Pow(2, 49) == 562949953421312 && Pow(2, 129) == 680564733841876926926749214863536422912;
    assert Pow(58, 22) == 624332378391008467754527498760580235264;
    assert Pow(2, 41) == 2 * Pow(2, 40) by { PowNext(2, 40); }
  }

  /** The buffer of the encoder holds every number of n bytes. */
  lemma EncodeFits(n: nat)
    ensures Pow(256, n) <= Pow(58, n * 138 / 100 + 1)
  {
    hide Pow;
    var s := n * 138 / 100 + 1;
    Constants();
    BytePower(n);
    PowMonotoneBase(Pow(2, 41), Pow(58, 7), s);
    PowPow(2, 41, s);
    PowSwap(58, 7, s);
    PowPow(2, 8 * n, 7);
    assert 8 * n * 7 <= 41 * s;
    PowMonotoneExp(2, 8 * n * 7, 41 * s);
    RootMonotone(Pow(256, n), Pow(58, s), 7);
  }

  /** The buffer of the decoder holds every number of m characters. */
  lemma DecodeFits(m: nat)
    ensures Pow(58, m) <= Pow(256, m * 733 / 1000 + 1)
  {
    hide Pow;
    var s := m * 733 / 1000 + 1;
    Constants();
    BytePower(s);
    PowMonotoneBase(Pow(58, 22), Pow(2, 129), m);
    PowPow(2, 129, m);
    PowSwap(58, 22, m);
    PowPow(2, 8 * s, 22);
    assert 129 * m <= 8 * s * 22;
    PowMonotoneExp(2, 129 * m, 8 * s * 22);
    RootMonotone(Pow(58, m), Pow(256, s), 22);
  }

  /******* What encoding and decoding mean *******/

  ghost function Rev(s: seq<nat>): (r: seq<nat>)
    ensures |r| == |s| && forall i | 0 <= i < |s| :: r[i] == s[|s| - 1 - i]
  {
    seq(|s|, i requires 0 <= i < |s| => s[|s| - 1 - i])
  }

  lemma RevRev(s: seq<nat>)
    ensures Rev(Rev(s)) == s
  {
  }

  /** How often x stands at the front. */
  ghost function Leading(s: seq<nat>, x: nat): (k: nat)
    ensures k <= |s| && (forall i | 0 <= i < k :: s[i] == x) && (k < |s| ==> s[k] != x)
  {
    if s == [] || s[0] != x then 0 else 1 + Leading(s[1..], x)
  }

  lemma {:induction false} LeadingIs(s: seq<nat>, x: nat, k: nat)
    requires k <= |s| && (forall i | 0 <= i < k :: s[i] == x) && (k < |s| ==> s[k] != x)
    ensures Leading(s, x) == k
    decreases k
  {
    if k > 0 {
      LeadingIs(s[1..], x, k - 1);
    }
  }

  ghost function Repeat(x: nat, k: nat): (r: seq<nat>)
    ensures |r| == k && forall i | 0 <= i < k :: r[i] == x
  {
    seq(k, i => x)
  }

  ghost function Symbols(d: seq<nat>): (r: Text)
    requires Digits(58, d)
    ensures |r| == |d| && forall i | 0 <= i < |d| :: r[i] == Symbol(d[i])
  {
    seq(|d|, i requires 0 <= i < |d| => Symbol(d[i]))
  }

  ghost predicate Known(t: Text) {
    forall i | 0 <= i < |t| :: Index(t[i]) >= 0
  }

  ghost function Indexes(t: Text): (r: seq<nat>)
    requires Known(t)
    ensures |r| == |t| && Digits(58, r) && forall i | 0 <= i < |t| :: r[i] == Index(t[i])
  {
    seq(|t|, i requires 0 <= i < |t| => Index(t[i]))
  }

  /** The number that the bytes after the leading zeros stand for, most significant first. */
  ghost function Encoded(v: Bytes): Text
  {
    var z := Leading(v, 0);
    Repeat(ONE, z) + Symbols(Rev(ToDigits(58, Val(256, Rev(v[z..])))))
  }

  ghost function DropSpaces(t: Text): (r: Text)
    ensures |r| <= |t| && r == t[|t| - |r|..] && (r != [] ==> !IsSpace(r[0]))
  {
    if t != [] && IsSpace(t[0]) then DropSpaces(t[1..]) else t
  }

  /** The length of the run of characters before the first space. */
  ghost function WordLength(t: Text): (k: nat)
    ensures k <= |t| && (forall i | 0 <= i < k :: !IsSpace(t[i])) && (k < |t| ==> IsSpace(t[k]))
  {
    if t == [] || IsSpace(t[0]) then 0 else 1 + WordLength(t[1..])
  }

  /** Spaces, ones, characters of the alphabet, spaces; and not more than max bytes. */
  ghost function Decoded(text: Text, max: int): Option<Bytes> {
    var s := DropSpaces(text);
    DecodedAfterOnes(Leading(s, ONE), s[Leading(s, ONE)..], max)
  }

  ghost function DecodedAfterOnes(z: nat, t: Text, max: int): Option<Bytes> {
    var k := WordLength(t);
    if !Known(t[..k]) || DropSpaces(t[k..]) != [] then None else FromDigits(z, Indexes(t[..k]), max)
  }

  /**
   * The bytes of a number given by its digits, most significant first, after z
   * zeros.  The limit is looked at after each zero and each digit, so that it
   * plays no role when there are none.
   */
  ghost function FromDigits(z: nat, e: seq<nat>, max: int): Option<Bytes> {
    var bytes := ToDigits(256, Val(58, Rev(e)));
    if z + |bytes| > max && (z > 0 || e != []) then None else Some(Repeat(0, z) + Rev(bytes))
  }

  /******* Round trips *******/

  /** Bytes without leading zeros are the digits of their number. */
  lemma RestDigits(b: nat, v: seq<nat>)
    requires b > 1 && Digits(b, v)
    ensures var rest := Rev(v[Leading(v, 0)..]); ToDigits(b, Val(b, rest)) == rest
  {
    var z := Leading(v, 0);
    var rest := Rev(v[z..]);
    ValToDigits(b, Val(b, rest));
    assert rest != [] ==> rest[|rest| - 1] == v[z];
    CanonicalUnique(b, ToDigits(b, Val(b, rest)), rest);
  }

  lemma {:induction false} NoSpaces(t: Text)
    requires SpaceFree(t)
    ensures DropSpaces(t) == t && WordLength(t) == |t|
  {
    if t != [] {
      NoSpaces(t[1..]);
    }
  }

  lemma Split(v: seq<nat>, x: nat)
    ensures Repeat(x, Leading(v, x)) + v[Leading(v, x)..] == v
  {
    hide Leading;
    var z := Leading(v, x);
    assert v[..z] == Repeat(x, z);
    assert v == v[..z] + v[z..];
  }

  lemma Prepended(x: nat, z: nat, rest: seq<nat>)
    requires rest != [] ==> rest[0] != x
    ensures var s := Repeat(x, z) + rest; Leading(s, x) == z && s[z..] == rest
  {
    hide Leading;
    var s := Repeat(x, z) + rest;
    assert z < |s| ==> s[z] == rest[0];
    LeadingIs(s, x, z);
  }

  lemma RevFirst(d: seq<nat>)
    requires Canonical(d)
    ensures Rev(d) != [] ==> Rev(d)[0] != 0
  {
  }

  ghost predicate SpaceFree(t: Text) {
    forall i | 0 <= i < |t| :: !IsSpace(t[i])
  }

  /** Decoding a text without spaces. */
  lemma DecodedWord(text: Text, max: int)
    requires SpaceFree(text)
    ensures var z := Leading(text, ONE);
            Decoded(text, max) == if Known(text[z..]) then FromDigits(z, Indexes(text[z..]), max) else None
  {
    hide Leading, DropSpaces, SpaceFree, Known, Indexes, FromDigits, DecodedAfterOnes;
    var z := Leading(text, ONE);
    NoSpaces(text);
    StillSpaceFree(text, z);
    WordOnly(z, text[z..], max);
  }

  lemma WordOnly(z: nat, t: Text, max: int)
    requires SpaceFree(t)
    ensures DecodedAfterOnes(z, t, max) == if Known(t) then FromDigits(z, Indexes(t), max) else None
  {
    hide DropSpaces, SpaceFree, Known, Indexes, FromDigits, WordLength;
    NoSpaces(t);
    StillSpaceFree(t, |t|);
    NoSpaces([]);
    assert t[..|t|] == t && t[|t|..] == [];
  }

  lemma StillSpaceFree(t: Text, k: nat)
    requires SpaceFree(t) && k <= |t|
    ensures SpaceFree(t[k..]) && SpaceFree([])
  {
  }

  lemma SymbolText(e: seq<nat>)
    requires Digits(58, e)
    ensures var t := Symbols(e); SpaceFree(t) && Known(t) && Indexes(t) == e && (e != [] && e[0] != 0 ==> t[0] != ONE)
  {
    hide Symbol, Index, IsSpace;
    assert Indexes(Symbols(e)) == e;
  }

  /** A text of z ones and then the symbols of digits that do not start with zero. */
  lemma ReadBack(z: nat, e: seq<nat>, max: int)
    requires Digits(58, e) && (e != [] ==> e[0] != 0)
    ensures Decoded(Repeat(ONE, z) + Symbols(e), max) == FromDigits(z, e, max)
  {
    hide Leading, Decoded, Digits, Known, Indexes, FromDigits;
    var t := Symbols(e);
    SymbolText(e);
    Prepended(ONE, z, t);
    OneIsNoSpace();
    DecodedWord(Repeat(ONE, z) + t, max);
  }

  /** Decoding gives back the bytes that were encoded. */
  lemma DecodeEncoded(v: Bytes, max: int)
    requires Digits(256, v)
    ensures Decoded(Encoded(v), max) == if |v| <= max || v == [] then Some(v) else None
  {
    hide Val, Symbol, Leading, ToDigits, Decoded, Symbols, FromDigits;
    var z := Leading(v, 0);
    var n := Val(256, Rev(v[z..]));
    ReadBack(z, Rev(ToDigits(58, n)), max);
    BytesBack(v, max);
  }

  /** The two changes of base undo each other. */
  lemma BytesBack(v: Bytes, max: int)
    requires Digits(256, v)
    ensures var z := Leading(v, 0);
            var e := Rev(ToDigits(58, Val(256, Rev(v[z..]))));
            FromDigits(z, e, max) == if |v| <= max || v == [] then Some(v) else None
  {
    hide Val, Leading, ToDigits;
    var z := Leading(v, 0);
    var n := Val(256, Rev(v[z..]));
    var d := ToDigits(58, n);
    RevRev(d);
    ValToDigits(58, n);
    RestDigits(256, v);
    RevRev(v[z..]);
    Split(v, 0);
    NoDigits(58, n);
    NoDigits(256, n);
  }

  lemma NoDigits(base: nat, n: nat)
    requires base > 1
    ensures ToDigits(base, n) == [] <==> n == 0
  {
  }

  ghost predicate AllSpaces(t: Text) {
    forall i | 0 <= i < |t| :: IsSpace(t[i])
  }

  lemma {:induction false} SpacesDropped(spaces: Text, t: Text)
    requires AllSpaces(spaces) && (t != [] ==> !IsSpace(t[0]))
    ensures DropSpaces(spaces + t) == t
  {
    hide IsSpace;
    if spaces == [] {
      assert spaces + t == t;
    } else {
      assert (spaces + t)[1..] == spaces[1..] + t;
      SpacesDropped(spaces[1..], t);
    }
  }

  /** Spaces before and after a text make no difference. */
  lemma SpacesIgnored(before: Text, text: Text, after: Text, max: int)
    requires SpaceFree(text) && text != [] && AllSpaces(before) && AllSpaces(after)
    ensures Decoded(before + text + after, max) == Decoded(text, max)
  {
    hide IsSpace, Leading, DropSpaces, DecodedAfterOnes;
    var s := text + after;
    assert before + text + after == before + s;
    SpacesDropped(before, s);
    SpacesDropped([], text);
    assert [] + text == text;
    LeadingBefore(text, after);
    var z := Leading(text, ONE);
    assert s[z..] == text[z..] + after;
    TrailingIgnored(z, text[z..], after, max);
  }

  lemma TrailingIgnored(z: nat, t: Text, after: Text, max: int)
    requires SpaceFree(t) && AllSpaces(after)
    ensures DecodedAfterOnes(z, t + after, max) == DecodedAfterOnes(z, t, max)
  {
    hide IsSpace, WordLength, DropSpaces, Known, FromDigits, Indexes;
    WordBefore(t, after);
    WordBefore(t, []);
    assert t + [] == t;
    SpacesDropped(after, []);
    assert after + [] == after;
    SpacesDropped([], []);
    assert (t + after)[..|t|] == t && (t + after)[|t|..] == after && t[..|t|] == t && t[|t|..] == [];
  }

  lemma LeadingBefore(text: Text, after: Text)
    requires SpaceFree(text) && AllSpaces(after)
    ensures Leading(text + after, ONE) == Leading(text, ONE)
  {
    hide IsSpace;
    OneIsNoSpace();
    var z := Leading(text, ONE);
    assert forall i | 0 <= i < z :: (text + after)[i] == ONE;
    assert z < |text + after| ==> (text + after)[z] != ONE;
    LeadingIs(text + after, ONE, z);
  }

  lemma {:induction false} WordBefore(t: Text, after: Text)
    requires SpaceFree(t) && AllSpaces(after)
    ensures WordLength(t + after) == |t|
  {
    hide IsSpace;
    WordLengthIs(t + after, |t|);
  }

  lemma OneIsNoSpace()
    ensures !IsSpace(ONE) && Index(ONE) == 0
  {
  }

  /** Bytes that are z zeros and then the digits of a number. */
  lemma WriteBack(z: nat, n: nat)
    ensures var v := Repeat(0, z) + Rev(ToDigits(256, n));
            Digits(256, v) && Encoded(v) == Repeat(ONE, z) + Symbols(Rev(ToDigits(58, n)))
  {
    hide Val, Leading, ToDigits, Symbols, Canonical;
    var bytes := ToDigits(256, n);
    RevFirst(bytes);
    Prepended(0, z, Rev(bytes));
    RevRev(bytes);
    ValToDigits(256, n);
  }

  /** Encoding what was decoded gives back a text without spaces. */
  lemma EncodeDecoded(text: Text, max: int)
    requires SpaceFree(text) && Decoded(text, max).Some?
    ensures Digits(256, Decoded(text, max).value) && Encoded(Decoded(text, max).value) == text
  {
    hide Val, Leading, ToDigits, Symbols, Encoded, Digits, Decoded, Rev;
    DecodedWord(text, max);
    var z := Leading(text, ONE);
    var t := text[z..];
    var x := Indexes(t);
    WriteBack(z, Val(58, Rev(x)));
    NoLeadingZero(t);
    RestDigits(58, x);
    assert x[0..] == x;
    RevRev(x);
    SymbolsOfIndexes(t);
    Split(text, ONE);
  }

  /** A text that does not start with a one has no leading zero digit. */
  lemma NoLeadingZero(t: Text)
    requires Known(t) && (t != [] ==> t[0] != ONE)
    ensures Leading(Indexes(t), 0) == 0
  {
    if t != [] {
      IndexSymbol(t[0]);
    }
    LeadingIs(Indexes(t), 0, 0);
  }

  lemma SymbolsOfIndexes(t: Text)
    requires Known(t)
    ensures Symbols(Indexes(t)) == t
  {
    forall i | 0 <= i < |t| ensures Symbol(Indexes(t)[i]) == t[i] {
      IndexSymbol(t[i]);
    }
  }

  /******* The loops *******/

  /** A buffer of digits, least significant first, of which the first length ones are in use. */
  ghost predicate Buffer(base: nat, d: seq<nat>, length: nat) {
    && length <= |d| && Digits(base, d) && Canonical(d[..length])
    && (forall i | length <= i < |d| :: d[i] == 0)
  }

  lemma CarryStep(v: nat, carry: nat, p: nat, mul: nat, x: nat, y: nat, add: nat, base: nat)
    requires base > 0 && v + carry * p == mul * y + add
    ensures var c := carry + mul * x; v + c % base * p + c / base * (base * p) == mul * (y + x * p) + add
  {
    CarryNext(v, carry, p, mul * x, mul * y + add, base);
    MulAssoc(mul, x, p);
    assert mul * (y + x * p) == mul * y + mul * (x * p);
  }

  /** Part of the way through a multiplication: the digits before i are done, the rest is untouched. */
  ghost predicate Carrying(base: nat, before: seq<nat>, now: seq<nat>, length: nat, mul: nat, add: nat, i: nat, carry: nat) {
    && i <= |now| == |before| && Digits(base, now)
    && Val(base, now[..i]) + carry * Pow(base, i) == mul * Val(base, before[..i]) + add
    && (forall j | i <= j < |now| :: now[j] == before[j])
    && (i > 0 && carry == 0 && i >= length ==> now[i - 1] != 0)
  }

  /** The digit that stays and the carry that goes on. */
  function Keep(base: nat, mul: nat, x: nat, carry: nat): nat
    requires base > 0
  {
    (carry + mul * x) % base
  }

  function Carry(base: nat, mul: nat, x: nat, carry: nat): nat
    requires base > 0
  {
    (carry + mul * x) / base
  }

  lemma CarryingStart(base: nat, d: seq<nat>, length: nat, mul: nat, add: nat)
    requires Digits(base, d)
    ensures Carrying(base, d, d, length, mul, add, 0, add)
  {
    assert d[..0] == [];
  }

  lemma CarryingStep(base: nat, before: seq<nat>, now: seq<nat>, length: nat, mul: nat, add: nat, i: nat, carry: nat)
    requires Carrying(base, before, now, length, mul, add, i, carry) && i < |now|
    requires base > 1 && mul > 0 && Buffer(base, before, length) && (carry != 0 || i < length)
    ensures Carrying(base, before, now[i := Keep(base, mul, now[i], carry)], length, mul, add, i + 1,
                     Carry(base, mul, now[i], carry))
  {
    hide Val, Pow;
    var c := carry + mul * now[i];
    var next := now[i := Keep(base, mul, now[i], carry)];
    CarryStep(Val(base, now[..i]), carry, Pow(base, i), mul, now[i], Val(base, before[..i]), add, base);
    LastDigit(c, base);
    TopDigit(before, length, i, carry, mul, c);
    ValStep(base, next, i);
    ValStep(base, before, i);
    assert next[..i] == now[..i];
    PowNext(base, i);
  }

  lemma CarryingDone(base: nat, before: seq<nat>, now: seq<nat>, length: nat, mul: nat, add: nat, i: nat, carry: nat)
    requires Carrying(base, before, now, length, mul, add, i, carry) && Buffer(base, before, length)
    requires mul * Val(base, before) + add < Pow(base, |before|)
    requires i == |now| || (carry == 0 && i >= length)
    ensures carry == 0 && Buffer(base, now, i) && Val(base, now) == mul * Val(base, before) + add
  {
    hide Val, Pow;
    assert now[..|now|] == now && before[..|now|] == before;
    if i == |now| {
      NothingLeft(Val(base, now), carry, Pow(base, i));
    }
    ValZeros(base, now, i);
    ValZeros(base, before, i);
  }

  /** In place: times mul, plus add.  The carry that is left in the end is zero. */
  method MulAdd(b: array<nat>, length: nat, base: nat, mul: nat, add: nat) returns (len: nat)
    requires base > 1 && mul > 0 && Buffer(base, b[..], length)
    requires mul * Val(base, b[..]) + add < Pow(base, b.Length)
    modifies b
    ensures Buffer(base, b[..], len)
    ensures Val(base, b[..]) == mul * old(Val(base, b[..])) + add
  {
    hide Carrying, Buffer, Val, Pow, Keep, Carry;
    ghost var before := b[..];
    BufferDigits(base, before, length);
    var carry: nat, i: nat := add, 0;
    CarryingStart(base, before, length, mul, add);
    while (carry != 0 || i < length) && i < b.Length
      invariant i <= b.Length && length <= b.Length && Carrying(base, before, b[..], length, mul, add, i, carry)
      decreases b.Length - i
    {
      CarryingStep(base, before, b[..], length, mul, add, i, carry);
      ghost var was := b[..];
      b[i], carry := Keep(base, mul, b[i], carry), Carry(base, mul, b[i], carry);
      assert b[..] == was[i := b[i]];
      i := i + 1;
    }
    CarryingDone(base, before, b[..], length, mul, add, i, carry);
    assert carry == 0;
    len := i;
  }

  lemma BufferDigits(base: nat, d: seq<nat>, length: nat)
    requires Buffer(base, d, length)
    ensures Digits(base, d) && length <= |d|
  {
  }

  lemma LastDigit(c: nat, base: nat)
    requires base > 1
    ensures c % base < base && (c / base == 0 ==> c % base == c)
  {
    DivMod(c, base);
  }

  /** The digit written last is not zero. */
  lemma TopDigit(before: seq<nat>, length: nat, i: nat, carried: nat, mul: nat, c: nat)
    requires i < |before| && mul > 0 && c == carried + mul * before[i] && length <= |before| && Canonical(before[..length])
    requires carried != 0 || i < length
    ensures i + 1 >= length ==> c != 0
  {
    if carried == 0 && i + 1 == length {
      assert before[..length][i] == before[i];
      MulLe(1, before[i], mul);
    }
  }

  lemma NothingLeft(v: nat, carry: nat, p: nat)
    requires v + carry * p < p
    ensures carry == 0
  {
    if carry > 0 {
      MulLe(1, carry, p);
    }
  }

  /** The number of the first k of the digits x, most significant first. */
  ghost function Head(from: nat, x: seq<nat>, k: nat): nat
    requires k <= |x|
  {
    Val(from, Rev(x[..k]))
  }

  lemma HeadStep(from: nat, x: seq<nat>, k: nat)
    requires k < |x| && Digits(from, x) && from > 0
    ensures Head(from, x, k + 1) == from * Head(from, x, k) + x[k]
    ensures Head(from, x, k + 1) < Pow(from, |x|)
  {
    hide Val, Pow;
    assert Rev(x[..k + 1]) == [x[k]] + Rev(x[..k]);
    ValCons(from, x[k], Rev(x[..k]));
    ValBound(from, Rev(x[..k + 1]));
    PowMonotoneExp(from, k + 1, |x|);
  }

  /** One more digit of x enters the buffer. */
  method Feed(b: array<nat>, length: nat, to: nat, from: nat, x: seq<nat>, k: nat) returns (len: nat)
    requires to > 1 && from > 0 && Buffer(to, b[..], length) && k < |x| && Digits(from, x)
    requires Pow(from, |x|) <= Pow(to, b.Length) && Val(to, b[..]) == Head(from, x, k)
    modifies b
    ensures Buffer(to, b[..], len) && Val(to, b[..]) == Head(from, x, k + 1)
  {
    hide Val, Pow, Buffer, Head;
    HeadStep(from, x, k);
    len := MulAdd(b, length, to, from, x[k]);
  }

  lemma BufferIsDigits(base: nat, d: seq<nat>, length: nat)
    requires base > 1 && Buffer(base, d, length)
    ensures d[..length] == ToDigits(base, Val(base, d))
  {
    hide Val, ToDigits;
    ValZeros(base, d, length);
    ValToDigits(base, Val(base, d));
    CanonicalUnique(base, d[..length], ToDigits(base, Val(base, d)));
  }

  lemma EmptyBuffer(base: nat, from: nat, size: nat, x: seq<nat>)
    requires base > 0
    ensures Buffer(base, Repeat(0, size), 0) && Val(base, Repeat(0, size)) == Head(from, x, 0)
  {
    ValZeros(base, Repeat(0, size), 0);
    assert Repeat(0, size)[..0] == [] && Rev(x[..0]) == [];
  }

  method NewBuffer(size: nat) returns (b: array<nat>)
    ensures fresh(b) && b.Length == size && b[..] == Repeat(0, size)
  {
    b := new nat[size](i => 0);
  }

  method SkipSpaces(text: Text, from: nat) returns (p: nat)
    requires from <= |text|
    ensures from <= p <= |text| && text[p..] == DropSpaces(text[from..])
  {
    hide IsSpace, DropSpaces;
    p := from;
    while p < |text| && IsSpace(text[p])
      invariant from <= p <= |text| && DropSpaces(text[from..]) == DropSpaces(text[p..])
    {
      DropOne(text[p..]);
      assert text[p..][1..] == text[p + 1..];
      p := p + 1;
    }
    DropOne(text[p..]);
  }

  lemma DropOne(t: Text)
    ensures DropSpaces(t) == if t != [] && IsSpace(t[0]) then DropSpaces(t[1..]) else t
  {
    hide IsSpace;
  }

  /** Answers None where the node answers false. */
  method DecodeBase58(text: Text, max: int) returns (r: Option<Bytes>)
    ensures r == Decoded(text, max)
  {
    hide Val, Pow, Buffer, ToDigits, Leading, DropSpaces, WordLength, Index, IsSpace;
    var p := SkipSpaces(text, 0);
    assert text[0..] == text;
    var s := text[p..];
    var zeroes := 0;
    while zeroes < |s| && s[zeroes] == ONE
      invariant zeroes <= |s| && forall i | 0 <= i < zeroes :: s[i] == ONE
      invariant zeroes == 0 || zeroes <= max
    {
      zeroes := zeroes + 1;
      if zeroes > max {
        assert Leading(s, ONE) >= zeroes;
        TooManyOnes(Leading(s, ONE), s[Leading(s, ONE)..], max);
        return None;
      }
    }
    LeadingIs(s, ONE, zeroes);
    r := DecodeAfterOnes(zeroes, s[zeroes..], max);
  }

  method DecodeAfterOnes(zeroes: nat, t: Text, max: int) returns (r: Option<Bytes>)
    requires zeroes == 0 || zeroes <= max
    ensures r == DecodedAfterOnes(zeroes, t, max)
  {
    hide Val, Pow, Buffer, ToDigits, DropSpaces, WordLength, IsSpace, Index, Head, Rev;
    var b := NewBuffer(|t| * 733 / 1000 + 1);
    DecodeFits(|t|);
    var k: nat, length: nat := 0, 0;
    var x: seq<nat> := [];
    EmptyBuffer(256, 58, b.Length, x);
    while k < |t| && !IsSpace(t[k])
      invariant k <= |t| && (forall i | 0 <= i < k :: !IsSpace(t[i]))
      invariant Read(t, k, x) && Buffer(256, b[..], length) && Val(256, b[..]) == Head(58, x, k)
      invariant zeroes + length <= max || (zeroes == 0 && k == 0)
    {
      var d := Index(t[k]);
      if d == -1 {
        UnknownCharacter(t, k);
        return None;
      }
      ReadOne(t, k, x, d);
      PowMonotoneExp(58, k + 1, |t|);
      x := x + [d];
      length := Feed(b, length, 256, 58, x, k);
      k := k + 1;
      if length + zeroes > max {
        BufferLength(256, b[..], length);
        TooLong(zeroes, t, max, x, k);
        return None;
      }
    }
    WordLengthIs(t, k);
    var p := SkipSpaces(t, k);
    if p < |t| {
      return None;
    }
    assert t[p..] == [];
    BufferIsDigits(256, b[..], length);
    BufferDigits(256, b[..], length);
    var bytes := Reversed(b, length);
    AllRead(t, k, x);
    r := Some(seq(zeroes, i => 0) + bytes);
  }

  method Reversed(b: array<nat>, length: nat) returns (r: seq<nat>)
    requires length <= b.Length
    ensures r == Rev(b[..length])
  {
    r := [];
    var top := length;
    while top > 0
      invariant 0 <= top <= length && |r| == length - top
      invariant forall i | 0 <= i < |r| :: r[i] == b[length - 1 - i]
    {
      top := top - 1;
      r := r + [b[top]];
    }
  }

  /** The digits of the first k characters. */
  ghost predicate Read(t: Text, k: nat, x: seq<nat>) {
    k == |x| <= |t| && Digits(58, x) && forall i | 0 <= i < k :: x[i] == Index(t[i])
  }

  lemma UnknownCharacter(t: Text, k: nat)
    requires k < |t| && Index(t[k]) == -1 && (forall i | 0 <= i <= k :: !IsSpace(t[i]))
    ensures !Known(t[..WordLength(t)])
  {
    hide Index;
    LongerWord(t, k + 1);
    assert t[..WordLength(t)][k] == t[k];
  }

  lemma {:induction false} LongerWord(t: Text, k: nat)
    requires k <= |t| && forall i | 0 <= i < k :: !IsSpace(t[i])
    ensures k <= WordLength(t)
    decreases k
  {
    if k > 0 {
      LongerWord(t[1..], k - 1);
    }
  }

  lemma {:induction false} WordLengthIs(t: Text, k: nat)
    requires k <= |t| && (forall i | 0 <= i < k :: !IsSpace(t[i])) && (k < |t| ==> IsSpace(t[k]))
    ensures WordLength(t) == k
    decreases k
  {
    if k > 0 {
      WordLengthIs(t[1..], k - 1);
    }
  }

  lemma ReadOne(t: Text, k: nat, x: seq<nat>, d: nat)
    requires Read(t, k, x) && k < |t| && d == Index(t[k])
    ensures Read(t, k + 1, x + [d]) && Digits(58, x + [d]) && Head(58, x + [d], k) == Head(58, x, k)
  {
    hide Val, Index, Rev;
    assert (x + [d])[..k] == x[..k];
  }

  lemma AllRead(t: Text, k: nat, x: seq<nat>)
    requires Read(t, k, x)
    ensures Known(t[..k]) && Indexes(t[..k]) == x && Head(58, x, k) == Val(58, Rev(x))
  {
    hide Val, Index;
    assert forall i | 0 <= i < k :: t[..k][i] == t[i];
    assert Indexes(t[..k]) == x;
    assert x[..k] == x;
  }

  lemma BufferLength(base: nat, d: seq<nat>, length: nat)
    requires base > 1 && Buffer(base, d, length)
    ensures |ToDigits(base, Val(base, d))| == length
  {
    BufferIsDigits(base, d, length);
  }

  /** A larger number has no fewer digits. */
  lemma {:induction false} MoreDigits(base: nat, m: nat, n: nat)
    requires base > 1 && m <= n
    ensures |ToDigits(base, m)| <= |ToDigits(base, n)|
    decreases m
  {
    if m > 0 {
      Shrinks(base, m);
      Shrinks(base, n);
      DivMonotone(m, n, base);
      MoreDigits(base, m / base, n / base);
    }
  }

  lemma {:induction false} HeadGrows(from: nat, x: seq<nat>, j: nat, k: nat)
    requires j <= k <= |x| && from > 0 && Digits(from, x)
    ensures Head(from, x, j) <= Head(from, x, k)
    decreases k
  {
    hide Head;
    if j < k {
      HeadGrows(from, x, j, k - 1);
      HeadStep(from, x, k - 1);
      MulLe(1, from, Head(from, x, k - 1));
    }
  }

  /** Once the bytes are too many they stay too many. */
  lemma TooLong(z: nat, t: Text, max: int, x: seq<nat>, k: nat)
    requires Read(t, k, x) && (forall i | 0 <= i < k :: !IsSpace(t[i]))
    requires k > 0 && z + |ToDigits(256, Head(58, x, k))| > max
    ensures DecodedAfterOnes(z, t, max) == None
  {
    hide Val, Index, WordLength, ToDigits, Rev, DropSpaces, IsSpace;
    LongerWord(t, k);
    var word := t[..WordLength(t)];
    if Known(word) {
      var y := Indexes(word);
      assert y[..k] == x[..k];
      assert y[..|y|] == y;
      HeadGrows(58, y, k, |y|);
      MoreDigits(256, Head(58, x, k), Head(58, y, |y|));
    }
  }

  lemma TooManyOnes(z: nat, t: Text, max: int)
    requires z > 0 && z > max
    ensures DecodedAfterOnes(z, t, max) == None
  {
  }

  method EncodeBase58(v: Bytes) returns (s: Text)
    requires Digits(256, v)
    ensures s == Encoded(v)
  {
    hide Val, Pow, Buffer, ToDigits, Symbol, Leading;
    var zeroes := 0;
    while zeroes < |v| && v[zeroes] == 0
      invariant zeroes <= |v| && forall i | 0 <= i < zeroes :: v[i] == 0
    {
      zeroes := zeroes + 1;
    }
    LeadingIs(v, 0, zeroes);
    var rest := v[zeroes..];
    var b := NewBuffer(|rest| * 138 / 100 + 1);
    EncodeFits(|rest|);
    EmptyBuffer(58, 256, b.Length, rest);
    var length: nat := 0;
    for k := 0 to |rest|
      invariant Buffer(58, b[..], length) && Val(58, b[..]) == Head(256, rest, k)
    {
      length := Feed(b, length, 58, 256, rest, k);
    }
    assert rest[..|rest|] == rest;
    BufferDigits(58, b[..], length);
    BufferIsDigits(58, b[..], length);
    var top := SkipZeros(b, length);
    assert length > 0 ==> b[..length][length - 1] == b[length - 1];
    s := Translate(zeroes, b, top);
  }

  /** Leave out zeros at the top. */
  method SkipZeros(b: array<nat>, length: nat) returns (top: nat)
    requires length <= b.Length
    ensures top <= length && (forall i | top <= i < length :: b[i] == 0) && (top == 0 || b[top - 1] != 0)
  {
    top := length;
    while top > 0 && b[top - 1] == 0
      invariant top <= length && forall i | top <= i < length :: b[i] == 0
    {
      top := top - 1;
    }
  }

  /** Ones for the zeroes, then the digits from the top. */
  method Translate(zeroes: nat, b: array<nat>, length: nat) returns (s: Text)
    requires length <= b.Length && Digits(58, b[..])
    ensures s == Repeat(ONE, zeroes) + Symbols(Rev(b[..length]))
  {
    hide Symbol;
    var top := length;
    s := seq(zeroes, i => ONE);
    var symbols: Text := [];
    while top > 0
      invariant 0 <= top <= length && |symbols| == length - top
      invariant forall i | 0 <= i < |symbols| :: symbols[i] == Symbol(b[length - 1 - i])
    {
      top := top - 1;
      symbols := symbols + [Symbol(b[top])];
    }
    assert symbols == Symbols(Rev(b[..length]));
    s := s + symbols;
  }
}
