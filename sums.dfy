/** Running sums and arithmetic means over sequences of reals, in the order a
    Java for-each loop visits them. */
module Sums {

  /** The sum of `s`, adding its elements from first to last. */
  function Sum(s: seq<real>): real
  {
    if s == [] then 0.0 else Sum(s[..|s| - 1]) + s[|s| - 1]
  }

  /** The arithmetic mean of a non-empty sequence. */
  function Mean(s: seq<real>): real
    requires s != []
  {
    Sum(s) / |s| as real
  }

  predicate AllWithin(s: seq<real>, lo: real, hi: real) {
    forall i :: 0 <= i < |s| ==> lo <= s[i] <= hi
  }

  /** A sum of `n` values lies between `n` times their lower bound and `n` times
      their upper bound. */
  lemma {:induction false} SumBounds(s: seq<real>, lo: real, hi: real)
    requires AllWithin(s, lo, hi)
    ensures |s| as real * lo <= Sum(s) <= |s| as real * hi
  {
    if s != [] {
      var init := s[..|s| - 1];
      assert AllWithin(init, lo, hi) by {
        forall i | 0 <= i < |init| ensures lo <= init[i] <= hi {
          assert init[i] == s[i];
        }
      }
      SumBounds(init, lo, hi);
      assert (|s| as real) * lo == (|init| as real) * lo + lo;
      assert (|s| as real) * hi == (|init| as real) * hi + hi;
    }
  }

  /** The mean of values in [lo, hi] is itself in [lo, hi]. */
  lemma MeanWithin(s: seq<real>, lo: real, hi: real)
    requires s != [] && AllWithin(s, lo, hi)
    ensures lo <= Mean(s) <= hi
  {
    var n := |s| as real;
    var total := Sum(s);
    SumBounds(s, lo, hi);
    assert n * lo <= total <= n * hi;
    DivMonotone(n * lo, total, n);
    DivMonotone(total, n * hi, n);
    MulDivCancel(lo, n);
    MulDivCancel(hi, n);
    assert Mean(s) == total / n;
  }

  lemma MulDivCancel(a: real, n: real)
    requires n > 0.0
    ensures (n * a) / n == a
  {
  }

  lemma DivMonotone(a: real, b: real, n: real)
    requires a <= b && n > 0.0
    ensures a / n <= b / n
  {
    assert b / n - a / n == (b - a) / n;
  }

  lemma SumOfThree(s: seq<real>)
    requires |s| == 3
    ensures Sum(s) == s[0] + s[1] + s[2]
  {
    assert s[..2][..1] == [s[0]];
    assert [s[0]][..0] == [];
    assert Sum(s[..2]) == Sum(s[..2][..1]) + s[1];
  }

  /** Summing `n` copies of one value gives `n` times that value. */
  lemma {:induction false} SumConstant(s: seq<real>, c: real)
    requires forall i :: 0 <= i < |s| ==> s[i] == c
    ensures Sum(s) == |s| as real * c
  {
    if s != [] {
      var init := s[..|s| - 1];
      SumConstant(init, c);
      assert (|s| as real) * c == (|init| as real) * c + c;
    }
  }
}
