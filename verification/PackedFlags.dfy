/** Collection flags packed eight to a byte. */
module PackedFlags {
  /** The bit that stands for position k of a byte. */
  function Mask(k: nat): bv8
    requires k < 8
  {
    if k == 0 then 1 else if k == 1 then 2 else if k == 2 then 4 else if k == 3 then 8
    else if k == 4 then 16 else if k == 5 then 32 else if k == 6 then 64 else 128
  }

  predicate Bit(m: bv8, k: nat)
    requires k < 8
  {
    m & Mask(k) != 0
  }

  function With(m: bv8, k: nat): bv8
    requires k < 8
  {
    m | Mask(k)
  }

  function Without(m: bv8, k: nat): bv8
    requires k < 8
  {
    m & !Mask(k)
  }

  lemma BitLaws(m: bv8, j: nat, k: nat)
    requires j < 8 && k < 8
    ensures Bit(With(m, j), k) <==> j == k || Bit(m, k)
    ensures Bit(Without(m, j), k) <==> j != k && Bit(m, k)
  {
  }

  class BitFlags {
    const mem: array<bv8>
    const size: nat

    ghost predicate Valid() {
      mem.Length == (size + 7) / 8
    }

    ghost predicate IsSet(i: nat)
      requires Valid() && i < size
      reads mem
    {
      Bit(mem[i / 8], i % 8)
    }

    ghost function Bits(): (b: seq<bool>)
      requires Valid()
      reads mem
      ensures |b| == size
    {
      seq(size, i requires 0 <= i < size reads mem => IsSet(i))
    }

    /** All flags are set. */
    constructor (size: nat)
      ensures Valid() && fresh(mem) && this.size == size && Bits() == seq(size, i => true)
    {
      this.size := size;
      mem := new bv8[(size + 7) / 8](i => 0xFF);
      new;
      forall i | 0 <= i < size ensures IsSet(i) {
        AllOnes(i % 8);
      }
    }

    method Set(s: nat)
      requires Valid() && s < size
      modifies mem
      ensures Bits() == old(Bits())[s := true]
    {
      hide Bit, With, Without;
      ghost var byte := mem[s / 8];
      mem[s / 8] := With(mem[s / 8], s % 8);
      forall i | 0 <= i < size ensures IsSet(i) == (i == s || old(IsSet(i))) {
        BitLaws(byte, s % 8, i % 8);
      }
    }

    method Unset(s: nat)
      requires Valid() && s < size
      modifies mem
      ensures Bits() == old(Bits())[s := false]
    {
      hide Bit, With, Without;
      ghost var byte := mem[s / 8];
      mem[s / 8] := Without(mem[s / 8], s % 8);
      forall i | 0 <= i < size ensures IsSet(i) == (i != s && old(IsSet(i))) {
        BitLaws(byte, s % 8, i % 8);
      }
    }

    method Test(s: nat) returns (b: bool)
      requires Valid() && s < size
      ensures b == Bits()[s]
    {
      b := Bit(mem[s / 8], s % 8);
    }
  }

  lemma AllOnes(k: nat)
    requires k < 8
    ensures Bit(0xFF, k)
  {
  }
}
