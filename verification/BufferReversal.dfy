/**
 The two implementations of `reverse-buff32`: sixteen swaps, and a little-endian
 decode followed by a big-endian encode of each half.
 */
module BufferReversal {
  import opened Bytes

  /** One step of the fold: the bytes at `target` and `31 - target` change places.
      Both replacements read the bytes of the input. */
  function InnerReverse(target: nat, input: Buff): (r: Buff)
    requires |input| == 32 && target < 32
    ensures |r| == 32
  {
    var first := input[target := input[31 - target]];
    first[31 - target := input[target]]
  }

  /** The fold over the indices `target`, `target - 1`, ..., 16, from 31 downwards. */
  function FoldReverse(target: nat, input: Buff): (r: Buff)
    requires |input| == 32 && 15 <= target < 32
    ensures |r| == 32
    decreases target
  {
    if target == 15 then input else FoldReverse(target - 1, InnerReverse(target, input))
  }

  function ReverseBuff32(input: Buff): (r: Buff)
    requires |input| == 32
    ensures |r| == 32
  {
    FoldReverse(|input| - 1, input)
  }

  lemma {:induction false} FoldSwaps(target: nat, input: Buff, k: nat)
    requires |input| == 32 && 15 <= target < 32 && k < 32
    ensures FoldReverse(target, input)[k] == if 31 - target <= k <= target then input[31 - k] else input[k]
  {
    if target > 15 {
      var next := InnerReverse(target, input);
      FoldSwaps(target - 1, next, k);
      assert next[k] == if k == target || k == 31 - target then input[31 - k] else input[k];
      assert 31 - target < k < target ==> next[31 - k] == input[31 - k];
    }
  }

  /** The fold of swaps reverses every 32-byte buffer. */
  lemma SwapsReverse(input: Buff)
    requires |input| == 32
    ensures ReverseBuff32(input) == Reversed(input)
  {
    hide FoldReverse, Reversed;
    forall k | 0 <= k < 32
      ensures ReverseBuff32(input)[k] == Reversed(input)[k]
    {
      FoldSwaps(31, input, k);
    }
  }

  lemma ReverseTwice(input: Buff)
    requires |input| == 32
    ensures ReverseBuff32(ReverseBuff32(input)) == input
  {
    SwapsReverse(input);
    SwapsReverse(ReverseBuff32(input));
    ReversedTwice(input);
  }

  /** The type byte of an unsigned integer in the consensus encoding. */
  const UINT_PREFIX: Byte := 1

  function ToConsensusBuff(v: nat): (r: Buff)
    ensures |r| == 17
  {
    [UINT_PREFIX] + BE(16, v)
  }

  function ReverseBuff16(input: Buff): (r: Buff)
    requires |input| <= 16
    ensures |r| == 16
  {
    ToConsensusBuff(FromLE(input))[1..17]
  }

  function FastReverseBuff32(input: Buff): (r: Buff)
    requires |input| == 32
    ensures |r| == 32
  {
    ReverseBuff16(input[16..32]) + ReverseBuff16(input[0..16])
  }

  lemma HalfReversed(input: Buff)
    requires |input| == 16
    ensures ReverseBuff16(input) == Reversed(input)
  {
    BEOfFromLE(input);
    assert ToConsensusBuff(FromLE(input))[1..17] == BE(16, FromLE(input));
  }

  lemma {:induction false} ReversedConcat(front: Buff, back: Buff)
    ensures Reversed(front + back) == Reversed(back) + Reversed(front)
  {
    if front == [] {
      assert front + back == back && Reversed(back) + [] == Reversed(back);
    } else {
      ReversedConcat(front[1..], back);
      assert (front + back)[1..] == front[1..] + back;
      assert Reversed(back) + Reversed(front[1..]) + [front[0]] == Reversed(back) + (Reversed(front[1..]) + [front[0]]);
    }
  }

  /** The fast form computes the same on every 32-byte buffer. */
  lemma FastReverseAgrees(input: Buff)
    requires |input| == 32
    ensures FastReverseBuff32(input) == Reversed(input) == ReverseBuff32(input)
  {
    hide Reversed, FoldReverse, ReverseBuff16, ReverseBuff32;
    HalfReversed(input[16..32]);
    HalfReversed(input[0..16]);
    SwapsReverse(input);
    ReversedConcat(input[0..16], input[16..32]);
    assert input[0..16] + input[16..32] == input;
  }

  function Zeros(n: nat): (z: Buff)
    ensures |z| == n
  {
    if n == 0 then [] else [0] + Zeros(n - 1)
  }

  function Padded(input: Buff, n: nat): (r: Buff)
    ensures |r| == |input| + n
  {
    input + Zeros(n)
  }

  /** A shorter input is padded at its end before being reversed: it does not come
      back as its own reversal. */
  lemma ShortInputPadded(input: Buff)
    requires |input| <= 16
    ensures ReverseBuff16(input) == Reversed(Padded(input, 16 - |input|))
  {
    hide *;
    PaddedValue(input, 16 - |input|);
    PaddedReversed(input, Padded(input, 16 - |input|));
  }

  lemma PaddedReversed(input: Buff, padded: Buff)
    requires |input| <= 16 == |padded| && FromLE(input) == FromLE(padded)
    ensures ReverseBuff16(input) == Reversed(padded)
  {
    hide *;
    SameValueReversed(input, padded);
    HalfReversed(padded);
  }

  lemma SameValueReversed(a: Buff, b: Buff)
    requires |a| <= 16 && |b| <= 16 && FromLE(a) == FromLE(b)
    ensures ReverseBuff16(a) == ReverseBuff16(b)
  {
    hide FromLE, BE;
  }

  lemma {:induction false} ZeroValue(n: nat)
    ensures FromLE(Zeros(n)) == 0
  {
    if n > 0 {
      ZeroValue(n - 1);
      assert Zeros(n)[1..] == Zeros(n - 1);
    }
  }

  lemma {:induction false} PaddedValue(input: Buff, n: nat)
    ensures FromLE(Padded(input, n)) == FromLE(input)
  {
    if input == [] {
      assert Padded(input, n) == Zeros(n);
      ZeroValue(n);
    } else {
      assert Padded(input, n)[1..] == Padded(input[1..], n);
      PaddedValue(input[1..], n);
    }
  }
}
