/**
 Byte strings, their reversal, and the little- and big-endian encodings of numbers.
 */
module Bytes {

  type Byte = x: int | 0 <= x < 256
  type Buff = seq<Byte>

  function Reversed(s: Buff): (r: Buff)
    ensures |r| == |s|
    ensures forall k :: 0 <= k < |s| ==> r[k] == s[|s| - 1 - k]
  {
    if s == [] then [] else Reversed(s[1..]) + [s[0]]
  }

  lemma ReversedTwice(s: Buff)
    ensures Reversed(Reversed(s)) == s
  {
    var r := Reversed(s);
    assert forall k :: 0 <= k < |s| ==> Reversed(r)[k] == s[k];
  }

  /** 256 to the power `n`. */
  function Pow256(n: nat): (p: nat)
    ensures p > 0
  {
    if n == 0 then 1 else 256 * Pow256(n - 1)
  }

  /** The number a byte string denotes, least significant byte first. */
  function FromLE(s: Buff): (v: nat)
    ensures v < Pow256(|s|)
  {
    if s == [] then 0 else s[0] + 256 * FromLE(s[1..])
  }

  /** The `n` low bytes of `v`, least significant first. */
  function LE(n: nat, v: nat): (s: Buff)
    ensures |s| == n
  {
    if n == 0 then [] else [v % 256] + LE(n - 1, v / 256)
  }

  /** The `n` low bytes of `v`, most significant first. */
  function BE(n: nat, v: nat): (s: Buff)
    ensures |s| == n
  {
    if n == 0 then [] else BE(n - 1, v / 256) + [v % 256]
  }

  lemma {:induction false} FromLEOfLE(n: nat, v: nat)
    requires v < Pow256(n)
    ensures FromLE(LE(n, v)) == v
  {
    if n > 0 {
      FromLEOfLE(n - 1, v / 256);
      assert LE(n, v)[1..] == LE(n - 1, v / 256);
    }
  }

  lemma {:induction false} LEOfFromLE(s: Buff)
    ensures LE(|s|, FromLE(s)) == s
  {
    if s != [] {
      LEOfFromLE(s[1..]);
      assert FromLE(s) % 256 == s[0] && FromLE(s) / 256 == FromLE(s[1..]);
    }
  }

  /** Decoding one way and encoding the other reverses. */
  lemma {:induction false} BEOfFromLE(s: Buff)
    ensures BE(|s|, FromLE(s)) == Reversed(s)
  {
    if s != [] {
      BEOfFromLE(s[1..]);
      assert FromLE(s) % 256 == s[0] && FromLE(s) / 256 == FromLE(s[1..]);
    }
  }

  /** `s` stands at position `i` of `tx`. */
  predicate At(tx: Buff, i: nat, s: Buff) {
    i + |s| <= |tx| && tx[i..i + |s|] == s
  }

  lemma AtConcat(tx: Buff, i: nat, a: Buff, b: Buff)
    ensures At(tx, i, a + b) <==> At(tx, i, a) && At(tx, i + |a|, b)
  {
    var m := i + |a|;
    var j := m + |b|;
    if j <= |tx| {
      assert tx[i..j] == tx[i..m] + tx[m..j];
      if tx[i..j] == a + b {
        assert tx[i..m] == tx[i..j][..|a|] && tx[m..j] == tx[i..j][|a|..];
      }
    }
  }

  lemma AtStart(s: Buff, rest: Buff)
    ensures At(s + rest, 0, s)
  {
    assert (s + rest)[0..|s|] == s;
  }
}
