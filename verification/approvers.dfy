/** Enumeration of every OR-combination of a list of flag bitmasks, used when a
    rule approves a bitmask field through several flag values
    (pkg/security/secl/rules/approvers.go). */
module Approvers {

  /** A Go `int` flag value, seen as its 64-bit two's-complement bit pattern. */
  type Mask = bv64

  function Pow2(n: nat): (r: nat)
    ensures r >= 1
  {
    if n == 0 then 1 else 2 * Pow2(n - 1)
  }

  /** `i & (1 << j) > 0` for a non-negative index `i` and a shift `j` below 63:
      bit `j` of `i` in binary. */
  predicate BitSet(i: nat, j: nat) {
    if j == 0 then i % 2 == 1 else BitSet(i / 2, j - 1)
  }

  /** OR of `masks[k]` over the positions `k < j` whose bit is set in `i`. */
  function OrSelected(masks: seq<Mask>, i: nat, j: nat): Mask
    requires j <= |masks|
  {
    if j == 0 then 0
    else if BitSet(i, j - 1) then OrSelected(masks, i, j - 1) | masks[j - 1]
    else OrSelected(masks, i, j - 1)
  }

  /** OR of the first `j` masks. */
  function OrAll(masks: seq<Mask>, j: nat): Mask
    requires j <= |masks|
  {
    if j == 0 then 0 else OrAll(masks, j - 1) | masks[j - 1]
  }

  /** Go's `1 << n` on a 64-bit `int`: 0 once the shift reaches the width. */
  function CombinationCount(n: nat): int
  {
    if n >= 64 then 0 else if n == 63 then -(Pow2(63) as int) else Pow2(n)
  }

  /** `bitmaskCombinations`: entry `i` is the OR of the masks selected by the
      bits of `i`. With exactly 63 masks the count overflows to a negative
      capacity and `make` panics, so that length is excluded. */
  method BitmaskCombinations(masks: seq<Mask>) returns (result: seq<Mask>)
    requires |masks| != 63
    ensures |masks| == 0 ==> result == []
    ensures 0 < |masks| < 63 ==> |result| == Pow2(|masks|)
    ensures |masks| >= 64 ==> result == []
    ensures forall i :: 0 <= i < |result| ==> result[i] == OrSelected(masks, i, |masks|)
  {
    if |masks| == 0 {
      return [];
    }
    var count := CombinationCount(|masks|);
    result := [];
    var i := 0;
    while i < count
      invariant 0 <= i
      invariant count >= 0 ==> i <= count
      invariant |result| == i
      invariant forall k :: 0 <= k < i ==> result[k] == OrSelected(masks, k, |masks|)
    {
      var mask: Mask := 0;
      var j := 0;
      while j < |masks|
        invariant 0 <= j <= |masks|
        invariant mask == OrSelected(masks, i, j)
      {
        if BitSet(i, j) {
          mask := mask | masks[j];
        }
        j := j + 1;
      }
      result := result + [mask];
      i := i + 1;
    }
  }

  lemma {:induction false} ZeroHasNoBits(j: nat)
    ensures !BitSet(0, j)
  {
    if j > 0 {
      ZeroHasNoBits(j - 1);
    }
  }

  /** Index 0 selects nothing: the first combination is the empty mask. */
  lemma {:induction false} FirstCombinationIsEmpty(masks: seq<Mask>, j: nat)
    requires j <= |masks|
    ensures OrSelected(masks, 0, j) == 0
  {
    if j > 0 {
      FirstCombinationIsEmpty(masks, j - 1);
      ZeroHasNoBits(j - 1);
    }
  }

  /** Every bit below `n` is set in `2^n - 1`. */
  lemma {:induction false} AllOnesBit(n: nat, j: nat)
    requires j < n
    ensures BitSet(Pow2(n) - 1, j)
  {
    assert Pow2(n) == 2 * Pow2(n - 1);
    if j > 0 {
      assert (Pow2(n) - 1) / 2 == Pow2(n - 1) - 1;
      AllOnesBit(n - 1, j - 1);
    }
  }

  /** The all-ones index selects every mask: the last combination is the OR
      of all inputs. */
  lemma {:induction false} LastCombinationIsOrAll(masks: seq<Mask>, n: nat, j: nat)
    requires j <= n <= |masks|
    ensures OrSelected(masks, Pow2(n) - 1, j) == OrAll(masks, j)
  {
    if j > 0 {
      LastCombinationIsOrAll(masks, n, j - 1);
      AllOnesBit(n, j - 1);
    }
  }

  /** Every combination only carries bits present in the OR of all inputs. */
  lemma {:induction false} CombinationWithinOrAll(masks: seq<Mask>, i: nat, j: nat)
    requires j <= |masks|
    ensures OrSelected(masks, i, j) | OrAll(masks, j) == OrAll(masks, j)
  {
    if j > 0 {
      CombinationWithinOrAll(masks, i, j - 1);
    }
  }

  /** The properties of the returned list taken together. */
  lemma CombinationsShape(masks: seq<Mask>, result: seq<Mask>)
    requires 0 < |masks| < 63
    requires |result| == Pow2(|masks|)
    requires forall i :: 0 <= i < |result| ==> result[i] == OrSelected(masks, i, |masks|)
    ensures result[0] == 0
    ensures result[|result| - 1] == OrAll(masks, |masks|)
    ensures forall i :: 0 <= i < |result| ==> result[i] | OrAll(masks, |masks|) == OrAll(masks, |masks|)
  {
    FirstCombinationIsEmpty(masks, |masks|);
    LastCombinationIsOrAll(masks, |masks|, |masks|);
    forall i | 0 <= i < |result|
      ensures result[i] | OrAll(masks, |masks|) == OrAll(masks, |masks|)
    {
      CombinationWithinOrAll(masks, i, |masks|);
    }
  }
}
