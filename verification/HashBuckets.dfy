/**
 The arithmetic of src/contrib/uthash/uthash.h: bucket masks, the ideal chain length and
 the expand_mult of a bucket, and where bucket doubling moves the items of a chain.
 unsigned is modelled without its upper limit; a right shift is a division by a power of two.
 */
module HashBuckets {

  function Pow2(k: nat): (p: nat)
    ensures p > 0
  {
    if k == 0 then 1 else 2 * Pow2(k - 1)
  }

  /** The bitwise and of a and b. */
  function BitAnd(a: nat, b: nat): nat
  {
    if a == 0 || b == 0 then 0
    else (if a % 2 == 1 && b % 2 == 1 then 1 else 0) + 2 * BitAnd(a / 2, b / 2)
  }

  function ShiftRight(a: nat, k: nat): nat
  {
    if k == 0 then a else ShiftRight(a / 2, k - 1)
  }

  /** The last k binary digits of a. */
  function LowBits(a: nat, k: nat): nat
  {
    if k == 0 then 0 else a % 2 + 2 * LowBits(a / 2, k - 1)
  }

  /** HASH_TO_BKT. */
  function ToBucket(hashv: nat, numBuckets: nat): nat
    requires numBuckets > 0
  {
    BitAnd(hashv, numBuckets - 1)
  }

  lemma {:induction false} TwiceProduct(p: nat, q: nat)
    ensures (2 * p) * q == 2 * (p * q)
  {
  }

  /** Shifting divides by a power of two, and the digits shifted out are the remainder. */
  lemma {:induction false} ShiftDivides(a: nat, k: nat)
    ensures a == Pow2(k) * ShiftRight(a, k) + LowBits(a, k) && LowBits(a, k) < Pow2(k)
  {
    if k > 0 {
      ShiftDivides(a / 2, k - 1);
      TwiceProduct(Pow2(k - 1), ShiftRight(a / 2, k - 1));
    }
  }

  /** Masking with a power of two less one keeps the last digits. */
  lemma {:induction false} MaskIsLowBits(a: nat, k: nat)
    ensures BitAnd(a, Pow2(k) - 1) == LowBits(a, k)
  {
    if k > 0 {
      var p := Pow2(k - 1);
      assert (2 * p - 1) / 2 == p - 1 && (2 * p - 1) % 2 == 1;
      MaskIsLowBits(a / 2, k - 1);
    }
  }

  /** Masking the hash value with the number of buckets less one is the remainder of the division. */
  lemma {:induction false} BucketIsRemainder(hashv: nat, k: nat)
    ensures ToBucket(hashv, Pow2(k)) == hashv % Pow2(k)
  {
    MaskIsLowBits(hashv, k);
    ShiftDivides(hashv, k);
    UniqueRemainder(hashv, Pow2(k), ShiftRight(hashv, k), LowBits(hashv, k));
  }

  lemma {:induction false} UniqueRemainder(a: nat, m: nat, q: nat, r: nat)
    requires r < m && a == m * q + r
    ensures a % m == r
  {
    var d := a / m - q;
    assert a == m * (a / m) + a % m;
    assert m * d == r - a % m by {
      assert m * (a / m) - m * q == m * d;
    }
    MultipleIsLarge(m, d);
  }

  lemma {:induction false} MultipleIsLarge(m: nat, d: int)
    ensures d > 0 ==> m * d >= m
    ensures d < 0 ==> m * d + m <= 0
  {
  }

  lemma {:induction false} OneMoreBit(a: nat, k: nat)
    ensures LowBits(a, k) < Pow2(k)
    ensures LowBits(a, k + 1) == LowBits(a, k) || LowBits(a, k + 1) == LowBits(a, k) + Pow2(k)
  {
    if k > 0 {
      OneMoreBit(a / 2, k - 1);
    }
  }

  /** Buckets are in range, and doubling their number sends bucket b to b or b + n. */
  lemma {:induction false} BucketSplits(hashv: nat, k: nat)
    ensures var n := Pow2(k);
            var b, c := ToBucket(hashv, n), ToBucket(hashv, 2 * n);
            b < n && c < 2 * n && (c == b || c == b + n)
  {
    MaskIsLowBits(hashv, k);
    MaskIsLowBits(hashv, k + 1);
    OneMoreBit(hashv, k);
  }

  // -------------------------------------------------------- expansion figures

  /** The assignment to ideal_chain_maxlen, before the bucket count is doubled. */
  function IdealChainMaxlen(numItems: nat, log2NumBuckets: nat): nat
  {
    ShiftRight(numItems, log2NumBuckets + 1)
    + (if BitAnd(numItems, 2 * Pow2(log2NumBuckets) - 1) != 0 then 1 else 0)
  }

  /** It is the number of items divided by the new number of buckets, rounded up. */
  lemma {:induction false} IdealIsCeiling(numItems: nat, k: nat)
    ensures numItems <= Pow2(k + 1) * IdealChainMaxlen(numItems, k) < numItems + Pow2(k + 1)
    ensures numItems > 0 ==> IdealChainMaxlen(numItems, k) > 0
  {
    hide Pow2, ShiftRight, BitAnd, LowBits;
    DoubledPow2(k);
    MaskIsLowBits(numItems, k + 1);
    ShiftDivides(numItems, k + 1);
    RoundUp(Pow2(k + 1), ShiftRight(numItems, k + 1), LowBits(numItems, k + 1));
  }

  lemma {:induction false} DoubledPow2(k: nat)
    ensures Pow2(k + 1) == 2 * Pow2(k)
  {
  }

  lemma {:induction false} RoundUp(m: nat, q: nat, r: nat)
    requires r < m
    ensures var up := q + if r != 0 then 1 else 0; m * q + r <= m * up < m * q + r + m && (m * q + r > 0 ==> up > 0)
  {
    assert m * (q + 1) == m * q + m;
  }

  /** expand_mult of a new bucket after count items have been put into it one by one. */
  function ExpandMult(count: nat, ideal: nat): nat
  {
    if count == 0 then 0
    else
      var m := ExpandMult(count - 1, ideal);
      if count > ideal && count > m * ideal then m + 1 else m
  }

  lemma {:induction false} NextMultiple(m: nat, ideal: nat)
    ensures (m + 1) * ideal == m * ideal + ideal && (m - 1) * ideal == m * ideal - ideal
    ensures m == 0 ==> m * ideal == 0
  {
  }

  /** A bucket above the ideal length gets a multiplier that covers its chain to within one item, and no less. */
  lemma {:induction false} ExpandMultCovers(count: nat, ideal: nat)
    requires ideal > 0
    ensures var m := ExpandMult(count, ideal);
            if count <= ideal then m == 0 else m > 0 && (m - 1) * ideal < count <= m * ideal + 1
  {
    if count > 0 {
      ExpandMultCovers(count - 1, ideal);
      NextMultiple(ExpandMult(count - 1, ideal), ideal);
    }
  }

  lemma {:induction false} ExpandMultOfNone(count: nat)
    ensures ExpandMult(count, 0) == count
  {
    if count > 0 {
      ExpandMultOfNone(count - 1);
    }
  }

  lemma {:induction false} AtMostNine(m: nat, ideal: nat)
    requires ideal <= 9
    ensures m * ideal <= 9 * m
  {
  }

  /** An expansion whose ideal chain length is at most nine leaves no chain that another addition would find too long;
      one with a longer ideal length may. */
  lemma {:induction false} ShortAfterExpansion(count: nat, ideal: nat)
    ensures ideal <= 9 ==> count < (ExpandMult(count, ideal) + 1) * 10
    ensures ideal > 9 ==> !(10 < (ExpandMult(10, ideal) + 1) * 10)
  {
    if ideal == 0 {
      ExpandMultOfNone(count);
    } else {
      ExpandMultCovers(count, ideal);
      ExpandMultCovers(10, ideal);
      if ideal <= 9 {
        AtMostNine(ExpandMult(count, ideal), ideal);
      }
    }
  }

  function Excess(count: nat, ideal: nat): nat
  {
    if count > ideal then count - ideal else 0
  }

  /** The items beyond the ideal chain length, over all buckets. */
  function TotalExcess(counts: seq<nat>, ideal: nat): nat
  {
    if counts == [] then 0 else TotalExcess(counts[..|counts|-1], ideal) + Excess(counts[|counts|-1], ideal)
  }

  lemma {:induction false} ExcessAfterOneMore(counts: seq<nat>, c: nat, ideal: nat)
    requires c < |counts|
    ensures TotalExcess(counts[c := counts[c] + 1], ideal)
            == TotalExcess(counts, ideal) + (if counts[c] + 1 > ideal then 1 else 0)
  {
    var l := |counts| - 1;
    var counts' := counts[c := counts[c] + 1];
    if c == l {
      assert counts'[..l] == counts[..l];
    } else {
      assert counts'[..l] == counts[..l][c := counts[c] + 1];
      ExcessAfterOneMore(counts[..l], c, ideal);
    }
  }

  lemma {:induction false} NoExcess(counts: seq<nat>, ideal: nat)
    requires forall i :: 0 <= i < |counts| ==> counts[i] == 0
    ensures TotalExcess(counts, ideal) == 0
  {
    if counts != [] {
      NoExcess(counts[..|counts|-1], ideal);
    }
  }
}
