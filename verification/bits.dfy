/**
 * Population count on 32-bit words, the model of Go's `bits.OnesCount32`.
 *
 * Bit positions are `bv32` values below 32 so that every shift in the
 * proofs stays inside the bit-vector theory.
 */
module Bits {

  const AllOnes: bv32 := 0xFFFF_FFFF

  /** Bit `i` of `x` is set. */
  predicate Bit(x: bv32, i: bv32)
    requires i < 32
  {
    (x >> i) & 1 == 1
  }

  /** Number of set bits among positions `0 .. k-1`. */
  function OnesBelow(x: bv32, k: bv32): nat
    requires k <= 32
    decreases k
  {
    if k == 0 then 0 else OnesBelow(x, k - 1) + (if Bit(x, k - 1) then 1 else 0)
  }

  /** Number of positions below `k` where `a` and `b` carry the same bit. */
  function EqualBelow(a: bv32, b: bv32, k: bv32): nat
    requires k <= 32
    decreases k
  {
    if k == 0 then 0 else EqualBelow(a, b, k - 1) + (if Bit(a, k - 1) == Bit(b, k - 1) then 1 else 0)
  }

  /** Go's `bits.OnesCount32`. */
  function OnesCount32(x: bv32): nat {
    OnesBelow(x, 32)
  }

  lemma {:induction false} OnesOfAllOnes(k: bv32)
    requires k <= 32
    ensures OnesBelow(AllOnes, k) == k as int
    decreases k
  {
    if k != 0 {
      OnesOfAllOnes(k - 1);
      assert Bit(AllOnes, k - 1);
      assert (k - 1) as int == k as int - 1;
    }
  }

  /** Below `k` there are at most as many set bits as in the all-ones word, with equality exactly when every bit below `k` is set. */
  lemma {:induction false} OnesBound(x: bv32, k: bv32)
    requires k <= 32
    ensures OnesBelow(x, k) <= OnesBelow(AllOnes, k)
    ensures OnesBelow(x, k) == OnesBelow(AllOnes, k) <==> forall i: bv32 :: i < k ==> Bit(x, i)
    decreases k
  {
    if k != 0 {
      OnesBound(x, k - 1);
      assert Bit(AllOnes, k - 1);
      if forall i: bv32 :: i < k ==> Bit(x, i) {
        assert Bit(x, k - 1);
      } else {
        var j: bv32 :| j < k && !Bit(x, j);
        if j != k - 1 {
          assert j < k - 1;
        }
      }
    }
  }

  lemma ShiftStep(x: bv32, t: bv32, s: bv32)
    requires s < 32
    requires Bit(x, s) == Bit(t, s)
    requires x >> (s + 1) == t >> (s + 1)
    ensures x >> s == t >> s
  {
  }

  /** Words that agree on every bit below `k` and on everything from `k` up are equal. */
  lemma {:induction false} AgreeBelow(x: bv32, t: bv32, k: bv32)
    requires k <= 32
    requires forall i: bv32 :: i < k ==> Bit(x, i) == Bit(t, i)
    requires x >> k == t >> k
    ensures x == t
    decreases k
  {
    if k != 0 {
      var s := k - 1;
      assert Bit(x, s) == Bit(t, s);
      ShiftStep(x, t, s);
      assert s + 1 == k;
      AgreeBelow(x, t, s);
    }
  }

  /** A word with all 32 bits set is the all-ones word. */
  lemma AllBitsSet(x: bv32)
    requires forall i: bv32 :: i < 32 ==> Bit(x, i)
    ensures x == AllOnes
  {
    AgreeBelow(x, AllOnes, 32);
  }

  /** Bit `i` of XNOR(a, b) is set exactly when `a` and `b` agree at `i`. */
  lemma XnorBit(a: bv32, b: bv32, i: bv32)
    requires i < 32
    ensures Bit(!(a ^ b), i) <==> Bit(a, i) == Bit(b, i)
  {
  }

  /** Counting the set bits of XNOR(a, b) counts the positions where `a` and `b` agree. */
  lemma {:induction false} XnorCountsEqualBits(a: bv32, b: bv32, k: bv32)
    requires k <= 32
    ensures OnesBelow(!(a ^ b), k) == EqualBelow(a, b, k)
    decreases k
  {
    if k != 0 {
      XnorCountsEqualBits(a, b, k - 1);
      XnorBit(a, b, k - 1);
    }
  }

  /** XNOR(a, b) has every bit set exactly when a == b. */
  lemma XnorAllOnes(a: bv32, b: bv32)
    ensures !(a ^ b) == AllOnes <==> a == b
  {
  }

  /** The popcount of a word is at most 32, and is 32 exactly for the all-ones word. */
  lemma OnesCount32Range(x: bv32)
    ensures OnesCount32(x) <= 32
    ensures OnesCount32(x) == 32 <==> x == AllOnes
  {
    OnesOfAllOnes(32);
    OnesBound(x, 32);
    if OnesCount32(x) == 32 {
      AllBitsSet(x);
    }
  }
}
