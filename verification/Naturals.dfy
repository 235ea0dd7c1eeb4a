/** Natural numbers and lists of indices that several modules share. */
module Naturals {

  function Min(a: nat, b: nat): nat { if a <= b then a else b }

  function Max(a: nat, b: nat): nat { if a <= b then b else a }

  /** The numbers below `n`, in order. */
  function Iota(n: nat): (s: seq<nat>)
    ensures |s| == n && forall i :: 0 <= i < n ==> s[i] == i
  {
    seq(n, i => i)
  }

  lemma IotaOnce(n: nat, i: nat)
    requires i < n
    ensures multiset(Iota(n))[i] == 1
  {
    assert Iota(n) == Iota(n)[..i] + [i] + Iota(n)[i + 1..];
  }
}
