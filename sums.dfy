/** Integer sums over sequences, the arithmetic behind per-rank counts and offsets. */
module Sums {

  /** Sum of a sequence, peeled from the back so that a prefix sum grows one entry at a time. */
  function Sum(s: seq<int>): int
  {
    if |s| == 0 then 0 else Sum(s[..|s| - 1]) + s[|s| - 1]
  }

  ghost predicate NonNegative(s: seq<int>)
  {
    forall i :: 0 <= i < |s| ==> s[i] >= 0
  }

  /** Every entry of `s` multiplied by `m`. */
  ghost function Scaled(s: seq<int>, m: int): seq<int>
  {
    seq(|s|, i requires 0 <= i < |s| => m * s[i])
  }

  /** Extending a prefix by one entry adds that entry to its sum. */
  lemma SumNext(s: seq<int>, i: int)
    requires 0 <= i < |s|
    ensures Sum(s[..i + 1]) == Sum(s[..i]) + s[i]
  {
    assert s[..i + 1][..i] == s[..i];
  }

  /** Scaling every entry scales the sum. */
  lemma {:induction false} SumScaled(s: seq<int>, m: int)
    ensures Sum(Scaled(s, m)) == m * Sum(s)
  {
    if |s| > 0 {
      var s' := s[..|s| - 1];
      assert Scaled(s, m)[..|s| - 1] == Scaled(s', m);
      SumScaled(s', m);
      assert m * (Sum(s') + s[|s| - 1]) == m * Sum(s') + m * s[|s| - 1];
    }
  }

  /** With no negative entry, a longer prefix never has a smaller sum. */
  lemma {:induction false} SumMonotone(s: seq<int>, i: int, j: int)
    requires NonNegative(s)
    requires 0 <= i <= j <= |s|
    ensures Sum(s[..i]) <= Sum(s[..j])
  {
    if i < j {
      SumMonotone(s, i, j - 1);
      SumNext(s, j - 1);
    }
  }

  lemma SumWhole(s: seq<int>)
    ensures Sum(s[..|s|]) == Sum(s)
  {
    assert s[..|s|] == s;
  }
}
