/** Sequences of reals: the numpy array expressions the core is built from, over exact reals. */
module RealSeq {

  predicate NonNegative(s: seq<real>)
  {
    forall i :: 0 <= i < |s| ==> s[i] >= 0.0
  }

  predicate Positive(s: seq<real>)
  {
    forall i :: 0 <= i < |s| ==> s[i] > 0.0
  }

  predicate NonDecreasing(s: seq<real>)
  {
    forall i, j :: 0 <= i <= j < |s| ==> s[i] <= s[j]
  }

  predicate StrictlyIncreasing(s: seq<real>)
  {
    forall i, j :: 0 <= i < j < |s| ==> s[i] < s[j]
  }

  predicate StrictlyDecreasing(s: seq<real>)
  {
    forall i, j :: 0 <= i < j < |s| ==> s[i] > s[j]
  }

  /** `np.sum`. */
  function Sum(s: seq<real>): real
  {
    if s == [] then 0.0 else Sum(s[..|s| - 1]) + s[|s| - 1]
  }

  /** `np.cumsum`: the running total, one entry per input entry. */
  function CumSum(s: seq<real>): (r: seq<real>)
    ensures |r| == |s|
  {
    if s == [] then []
    else
      var prefix := CumSum(s[..|s| - 1]);
      var before := if prefix == [] then 0.0 else prefix[|prefix| - 1];
      prefix + [before + s[|s| - 1]]
  }

  /** Entry i of the running total is the sum of the first i + 1 entries. */
  lemma {:induction false} CumSumAt(s: seq<real>, i: nat)
    requires i < |s|
    ensures CumSum(s)[i] == Sum(s[..i + 1])
  {
    var init := s[..|s| - 1];
    if i < |s| - 1 {
      CumSumAt(init, i);
      assert init[..i + 1] == s[..i + 1];
    } else {
      assert s[..i + 1] == s;
      if i > 0 {
        CumSumAt(init, i - 1);
        assert init[..i] == init;
      }
    }
  }

  lemma {:induction false} SumNonNegative(s: seq<real>)
    requires NonNegative(s)
    ensures Sum(s) >= 0.0
  {
    if s != [] {
      SumNonNegative(s[..|s| - 1]);
    }
  }

  /** Summing a longer prefix of non-negative values never gives less. */
  lemma {:induction false} SumPrefixMonotone(s: seq<real>, i: nat, j: nat)
    requires NonNegative(s) && i <= j <= |s|
    ensures Sum(s[..i]) <= Sum(s[..j])
  {
    if i < j {
      SumPrefixMonotone(s, i, j - 1);
      assert s[..j][..j - 1] == s[..j - 1];
    }
  }

  /** Summing a longer prefix of positive values gives strictly more. */
  lemma SumPrefixStrict(s: seq<real>, i: nat, j: nat)
    requires Positive(s) && i < j <= |s|
    ensures Sum(s[..i]) < Sum(s[..j])
  {
    SumPrefixMonotone(s, i, j - 1);
    assert s[..j][..j - 1] == s[..j - 1];
  }

  /** For non-negative input the running total never decreases and ends at the total. */
  lemma {:induction false} CumSumNonDecreasing(s: seq<real>)
    requires NonNegative(s)
    ensures NonDecreasing(CumSum(s))
  {
    var c := CumSum(s);
    forall i, j | 0 <= i <= j < |s| ensures c[i] <= c[j] {
      CumSumAt(s, i);
      CumSumAt(s, j);
      SumPrefixMonotone(s, i + 1, j + 1);
    }
  }

  /** The running total ends at the total. */
  lemma CumSumLast(s: seq<real>)
    requires s != []
    ensures CumSum(s)[|s| - 1] == Sum(s)
  {
    CumSumAt(s, |s| - 1);
    assert s[..|s|] == s;
  }

  /** For positive input the running total strictly increases. */
  lemma {:induction false} CumSumStrictlyIncreasing(s: seq<real>)
    requires Positive(s)
    ensures StrictlyIncreasing(CumSum(s))
  {
    var c := CumSum(s);
    forall i, j | 0 <= i < j < |s| ensures c[i] < c[j] {
      CumSumAt(s, i);
      CumSumAt(s, j);
      SumPrefixStrict(s, i + 1, j + 1);
    }
  }

  /** Elementwise product `a * b` of two equal-length arrays. */
  function Product(a: seq<real>, b: seq<real>): (r: seq<real>)
    requires |a| == |b|
    ensures |r| == |a|
  {
    seq(|a|, i requires 0 <= i < |a| => a[i] * b[i])
  }

  /** The total is the total of a prefix plus the total of the rest. */
  lemma {:induction false} SumSplit(s: seq<real>, k: nat)
    requires k <= |s|
    ensures Sum(s) == Sum(s[..k]) + Sum(s[k..])
  {
    if k < |s| {
      var init := s[..|s| - 1];
      SumSplit(init, k);
      assert init[..k] == s[..k];
      assert s[k..][..|s| - k - 1] == init[k..];
    } else {
      assert s[..k] == s;
    }
  }

  /** Products of non-negative entries are non-negative. */
  lemma ProductNonNegative(a: seq<real>, b: seq<real>)
    requires |a| == |b| && NonNegative(a) && NonNegative(b)
    ensures NonNegative(Product(a, b))
  {
    forall i | 0 <= i < |a| ensures a[i] * b[i] >= 0.0 {
      MulNonNegative(a[i], b[i]);
    }
  }

  lemma MulNonNegative(x: real, y: real)
    requires x >= 0.0 && y >= 0.0
    ensures x * y >= 0.0
  {
  }

  /** A prefix of a product is the product of the prefixes. */
  lemma ProductPrefix(a: seq<real>, b: seq<real>, n: nat)
    requires |a| == |b| && n <= |a|
    ensures Product(a, b)[..n] == Product(a[..n], b[..n])
  {
    forall i | 0 <= i < n ensures Product(a, b)[..n][i] == Product(a[..n], b[..n])[i] {
    }
  }

  /** A suffix of a product is the product of the suffixes. */
  lemma ProductSuffix(a: seq<real>, b: seq<real>, n: nat)
    requires |a| == |b| && n <= |a|
    ensures Product(a, b)[n..] == Product(a[n..], b[n..])
  {
    forall i | 0 <= i < |a| - n ensures Product(a, b)[n..][i] == Product(a[n..], b[n..])[i] {
    }
  }

  /** With non-negative weights t and every w at most c, the sum of w t is at most c times the sum of t. */
  lemma {:induction false} SumProductAtMost(w: seq<real>, t: seq<real>, c: real)
    requires |w| == |t| && NonNegative(t)
    requires forall m :: 0 <= m < |w| ==> w[m] <= c
    ensures Sum(Product(w, t)) <= c * Sum(t)
  {
    if t != [] {
      var n := |t| - 1;
      SumProductAtMost(w[..n], t[..n], c);
      ProductPrefix(w, t, n);
      MulNonNegative(c - w[n], t[n]);
    }
  }

  /** With non-negative weights t and every w at least c, the sum of w t is at least c times the sum of t. */
  lemma {:induction false} SumProductAtLeast(w: seq<real>, t: seq<real>, c: real)
    requires |w| == |t| && NonNegative(t)
    requires forall m :: 0 <= m < |w| ==> w[m] >= c
    ensures Sum(Product(w, t)) >= c * Sum(t)
  {
    if t != [] {
      var n := |t| - 1;
      SumProductAtLeast(w[..n], t[..n], c);
      ProductPrefix(w, t, n);
      MulNonNegative(w[n] - c, t[n]);
    }
  }

  /** `k * a`. */
  function Scale(k: real, a: seq<real>): (r: seq<real>)
    ensures |r| == |a|
  {
    seq(|a|, i requires 0 <= i < |a| => k * a[i])
  }

  /** `a / d` for a scalar divisor. */
  function Divide(a: seq<real>, d: real): (r: seq<real>)
    requires d != 0.0
    ensures |r| == |a|
  {
    seq(|a|, i requires 0 <= i < |a| => a[i] / d)
  }

  lemma DivideMonotone(x: real, y: real, d: real)
    requires d > 0.0 && x <= y
    ensures x / d <= y / d
  {
    assert y / d - x / d == (y - x) / d;
  }

  lemma DivideStrict(x: real, y: real, d: real)
    requires d > 0.0 && x < y
    ensures x / d < y / d
  {
    assert y / d - x / d == (y - x) / d;
  }
}
