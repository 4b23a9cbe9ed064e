/** Exact sums of real weights. */
module Sums {

  function Sum(s: seq<real>): real {
    if s == [] then 0.0 else s[0] + Sum(s[1..])
  }

  predicate NonNegative(s: seq<real>) {
    forall i | 0 <= i < |s| :: s[i] >= 0.0
  }

  /** `s / t` on a numpy array. */
  function Scale(s: seq<real>, t: real): (r: seq<real>)
    requires t != 0.0
    ensures |r| == |s|
  {
    seq(|s|, i requires 0 <= i < |s| => s[i] / t)
  }

  lemma {:induction false} SumAppend(a: seq<real>, b: seq<real>)
    ensures Sum(a + b) == Sum(a) + Sum(b)
  {
    if a == [] {
      assert a + b == b;
    } else {
      assert (a + b)[1..] == a[1..] + b;
      SumAppend(a[1..], b);
    }
  }

  /** The sum of all but the last element, plus the last. */
  lemma SumSplitLast(s: seq<real>)
    requires s != []
    ensures Sum(s) == Sum(s[..|s| - 1]) + s[|s| - 1]
  {
    assert s == s[..|s| - 1] + [s[|s| - 1]];
    SumAppend(s[..|s| - 1], [s[|s| - 1]]);
  }

  /** Dividing every weight by t divides the total by t. */
  lemma {:induction false} SumScale(s: seq<real>, t: real)
    requires t != 0.0
    ensures Sum(Scale(s, t)) == Sum(s) / t
  {
    if s != [] {
      assert Scale(s, t)[1..] == Scale(s[1..], t);
      SumScale(s[1..], t);
    }
  }

  lemma {:induction false} SumNonNegative(s: seq<real>)
    requires NonNegative(s)
    ensures Sum(s) >= 0.0
  {
    if s != [] {
      SumNonNegative(s[1..]);
    }
  }

  /** A non-negative sequence: every element and every prefix is at most the total. */
  lemma {:induction false} NonNegativeBounded(s: seq<real>, n: nat)
    requires NonNegative(s) && n <= |s|
    ensures Sum(s[..n]) <= Sum(s)
    ensures forall i | 0 <= i < |s| :: s[i] <= Sum(s)
  {
    assert s == s[..n] + s[n..];
    SumAppend(s[..n], s[n..]);
    SumNonNegative(s[n..]);
    forall i | 0 <= i < |s| ensures s[i] <= Sum(s) {
      assert s == s[..i] + [s[i]] + s[i + 1..];
      SumAppend(s[..i] + [s[i]], s[i + 1..]);
      SumAppend(s[..i], [s[i]]);
      SumNonNegative(s[..i]);
      SumNonNegative(s[i + 1..]);
    }
  }

  /** A sequence whose total is not zero has an element that is not zero. */
  lemma {:induction false} NonZeroSumHasNonZero(s: seq<real>)
    requires Sum(s) != 0.0
    ensures exists i :: 0 <= i < |s| && s[i] != 0.0
  {
    if s[0] == 0.0 {
      NonZeroSumHasNonZero(s[1..]);
      var i :| 0 <= i < |s[1..]| && s[1..][i] != 0.0;
      assert s[i + 1] != 0.0;
    }
  }

  /** A non-negative sequence that sums to zero holds only zeros. */
  lemma NonNegativeZeroSum(s: seq<real>)
    requires NonNegative(s) && Sum(s) == 0.0
    ensures forall i | 0 <= i < |s| :: s[i] == 0.0
  {
    NonNegativeBounded(s, 0);
  }

  lemma {:induction false} SumOfZeros(s: seq<real>)
    requires forall i | 0 <= i < |s| :: s[i] == 0.0
    ensures Sum(s) == 0.0
  {
    if s != [] {
      SumOfZeros(s[1..]);
    }
  }
}
