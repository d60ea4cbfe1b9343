/**
 * The array expressions inside `FilterClass` (pycoco/__init__.py): cumulative throughput,
 * the inverse-interpolation lookups built on it, the zero-throughput edge search and the
 * padding, spline evaluation and clamping done by `resample_response`.
 */
module FilterMath {
  import opened Outcomes
  import opened RealSeq
  import opened Interp

  datatype FilterError =
    | NotLoaded                  // the wavelength/throughput attributes were never set
    | EmptyFile                  // the filter file held no rows
    | ZeroTotalThroughput        // cumsum/sum divides by a zero total
    | NoPositiveThroughput       // np.where(throughput > 0) is empty
    | ZeroWavelength             // c / wavelength with a zero wavelength
    | SplineRejected             // the spline refuses its knots (x not strictly increasing, or k out of range)
    | Interpolation(cause: InterpError)

  /** A spline fit of order k through knots (xs, ys), evaluated at one point. */
  type SplineFit = (seq<real>, seq<real>, nat, real) -> real

  /** `simps(y, x)`: the integral of the samples y over the abscissae x. */
  type Integrator = (seq<real>, seq<real>) -> real

  /** `np.cumsum(s) / np.sum(s)`. */
  function NormalisedCumulative(s: seq<real>): (r: Result<seq<real>, FilterError>)
    ensures r.Success? <==> Sum(s) != 0.0
    ensures r.Success? ==> |r.value| == |s|
  {
    var total := Sum(s);
    if total == 0.0 then Failure(ZeroTotalThroughput)
    else Success(Divide(CumSum(s), total))
  }

  /** Dividing a non-decreasing sequence by a positive total keeps it non-decreasing. */
  lemma DivideNonDecreasing(cs: seq<real>, total: real)
    requires NonDecreasing(cs) && total > 0.0
    ensures NonDecreasing(Divide(cs, total))
  {
    var c := Divide(cs, total);
    forall i, j | 0 <= i <= j < |cs| ensures c[i] <= c[j] {
      DivideMonotone(cs[i], cs[j], total);
    }
  }

  /** Running totals of non-negative values stay between zero and the total. */
  lemma CumSumBounded(t: seq<real>)
    requires NonNegative(t)
    ensures forall i :: 0 <= i < |t| ==> 0.0 <= CumSum(t)[i] <= Sum(t)
  {
    forall i | 0 <= i < |t| ensures 0.0 <= CumSum(t)[i] <= Sum(t) {
      CumSumAt(t, i);
      SumPrefixMonotone(t, 0, i + 1);
      SumPrefixMonotone(t, i + 1, |t|);
      assert t[..|t|] == t;
      assert t[..0] == [];
    }
  }

  /**
   * For non-negative throughput with a positive total, the cumulative fraction has one
   * entry per sample, never decreases, stays in [0, 1] and ends at exactly 1.
   */
  lemma CumulativeFraction(t: seq<real>)
    requires NonNegative(t) && Sum(t) > 0.0
    ensures var c := NormalisedCumulative(t);
      && c.Success? && |c.value| == |t|
      && NonDecreasing(c.value)
      && c.value[|t| - 1] == 1.0
      && forall i :: 0 <= i < |t| ==> 0.0 <= c.value[i] <= 1.0
  {
    var total := Sum(t);
    var cs := CumSum(t);
    var c := Divide(cs, total);
    assert t != [];
    CumSumNonDecreasing(t);
    DivideNonDecreasing(cs, total);
    CumSumLast(t);
    DivideSelf(total);
    assert c[|t| - 1] == total / total;
    CumSumBounded(t);
    forall i | 0 <= i < |t| ensures 0.0 <= c[i] <= 1.0 {
      DivideMonotone(0.0, cs[i], total);
      DivideMonotone(cs[i], total, total);
    }
  }

  lemma DivideSelf(x: real)
    requires x != 0.0
    ensures x / x == 1.0
  {
    assert (x / x) * x == 1.0 * x;
  }

  /** A non-empty run of positive samples has a positive total. */
  lemma SumPositive(t: seq<real>)
    requires Positive(t) && t != []
    ensures Sum(t) > 0.0
  {
    SumPrefixStrict(t, 0, |t|);
    assert t[..|t|] == t;
    assert t[..0] == [];
  }

  /** With every sample positive the cumulative fraction strictly increases. */
  lemma CumulativeStrict(t: seq<real>)
    requires Positive(t) && t != []
    ensures var c := NormalisedCumulative(t);
      c.Success? && StrictlyIncreasing(c.value)
  {
    var total := Sum(t);
    SumPositive(t);
    var cs := CumSum(t);
    CumSumStrictlyIncreasing(t);
    forall i, j | 0 <= i < j < |t| ensures cs[i] / total < cs[j] / total {
      DivideStrict(cs[i], cs[j], total);
    }
  }

  /**
   * Inverse interpolation of the cumulative fraction of `weights` at `level`; on a
   * sorted wavelength grid any value found lies inside the grid's range.
   */
  function CumulativeLookup(w: seq<real>, weights: seq<real>, level: real): (r: Result<real, FilterError>)
    requires |w| == |weights|
    ensures NormalisedCumulative(weights).Failure? ==> r == Failure(NormalisedCumulative(weights).error)
    ensures r.Success? ==> |w| >= 2
    ensures r.Success? && NonDecreasing(w) ==> w[0] <= r.value <= w[|w| - 1]
  {
    var c :- NormalisedCumulative(weights);
    var v := Interp1d(c, w, level);
    if v.Success? && NonDecreasing(w) then
      InterpWithin(c, w, level);
      v.MapFailure(e => Interpolation(e))
    else
      v.MapFailure(e => Interpolation(e))
  }

  /**
   * `calculate_effective_wavelength`: where cumsum(λT)/sum(λT) reaches one half, which
   * on a sorted grid lies within the curve's wavelength range.
   */
  function EffectiveWavelength(w: seq<real>, t: seq<real>): (r: Result<real, FilterError>)
    requires |w| == |t|
    ensures r.Success? ==> |w| >= 2
    ensures r.Success? && NonDecreasing(w) ==> w[0] <= r.value <= w[|w| - 1]
  {
    CumulativeLookup(w, Product(w, t), 0.5)
  }

  /** The cumulative level below which the lower edge leaves pc/2 percent of the mass. */
  function LowerLevel(pc: real): real
  {
    0.0 + 0.5 * (0.01 * pc)
  }

  /** The cumulative level above which the upper edge leaves pc/2 percent of the mass. */
  function UpperLevel(pc: real): real
  {
    1.0 - 0.5 * (0.01 * pc)
  }

  /**
   * `calculate_edges`: for pc <= 100 the lower edge is at most the upper edge, and
   * both lie within the wavelength range.
   */
  lemma EdgesOrdered(w: seq<real>, t: seq<real>, pc: real)
    requires |w| == |t| && NonDecreasing(w) && pc <= 100.0
    requires CumulativeLookup(w, t, LowerLevel(pc)).Success?
    requires CumulativeLookup(w, t, UpperLevel(pc)).Success?
    ensures var lower := CumulativeLookup(w, t, LowerLevel(pc)).value;
      var upper := CumulativeLookup(w, t, UpperLevel(pc)).value;
      w[0] <= lower <= upper <= w[|w| - 1]
  {
    var c := NormalisedCumulative(t).value;
    InterpMonotone(c, w, LowerLevel(pc), UpperLevel(pc));
  }

  /**
   * Both edge lookups succeed for a non-negative curve with some throughput when
   * pc <= 100 and the first sample holds strictly less than pc/2 percent of the mass,
   * as it does for a curve that starts at zero throughput.
   */
  lemma EdgesDefined(w: seq<real>, t: seq<real>, pc: real)
    requires |w| == |t| >= 2 && NonNegative(t) && Sum(t) > 0.0 && pc <= 100.0
    requires NormalisedCumulative(t).Success? && NormalisedCumulative(t).value[0] < LowerLevel(pc)
    ensures CumulativeLookup(w, t, LowerLevel(pc)).Success?
    ensures CumulativeLookup(w, t, UpperLevel(pc)).Success?
  {
    CumulativeFraction(t);
  }

  lemma MulPositive(x: real, y: real)
    requires x > 0.0 && y > 0.0
    ensures x * y > 0.0
  {
  }

  /**
   * The step behind WeightedCumulativeBelow: with the mass split into p before and q after
   * a cut, weights at most c before the cut and at least c after it give a weighted
   * share before the cut no larger than the plain share.
   */
  lemma CrossBelow(pw: real, qw: real, p: real, q: real, c: real)
    requires p >= 0.0 && q >= 0.0
    requires pw <= c * p && qw >= c * q
    ensures pw * (p + q) <= p * (pw + qw)
  {
    MulMonotone(q, pw, c * p);
    MulMonotone(p, c * q, qw);
    assert q * (c * p) == p * (c * q);
    assert pw * (p + q) == pw * p + q * pw;
    assert p * (pw + qw) == p * pw + p * qw;
  }

  lemma RatioFromCross(a: real, s1: real, b: real, s2: real)
    requires s1 > 0.0 && s2 > 0.0 && a * s2 <= b * s1
    ensures a / s1 <= b / s2
  {
    var x, y := a / s1, b / s2;
    assert x * s1 == a && y * s2 == b;
    assert x * s1 * s2 == x * (s1 * s2);
    assert y * s2 * s1 == y * (s1 * s2);
    MulPositive(s1, s2);
    assert (x - y) * (s1 * s2) == x * (s1 * s2) - y * (s1 * s2);
    if x > y {
      MulPositive(x - y, s1 * s2);
    }
  }

  /**
   * Weighting a non-negative throughput by non-decreasing, non-negative wavelengths moves
   * its mass towards the red: the cumulative fraction of lambda T lies at or below the
   * cumulative fraction of T at every sample.
   */
  lemma WeightedCumulativeBelow(w: seq<real>, t: seq<real>)
    requires |w| == |t| && NonNegative(w) && NonDecreasing(w) && NonNegative(t)
    requires Sum(t) > 0.0 && Sum(Product(w, t)) > 0.0
    ensures var c, cw := NormalisedCumulative(t), NormalisedCumulative(Product(w, t));
      c.Success? && cw.Success? &&
      forall i :: 0 <= i < |t| ==> cw.value[i] <= c.value[i]
  {
    var wt := Product(w, t);
    forall i | 0 <= i < |t| ensures CumSum(wt)[i] / Sum(wt) <= CumSum(t)[i] / Sum(t) {
      WeightedShareBelow(w, t, i);
      CumSumAt(t, i);
      CumSumAt(wt, i);
    }
  }

  /** WeightedCumulativeBelow at one sample, on the prefix sums. */
  lemma WeightedShareBelow(w: seq<real>, t: seq<real>, i: nat)
    requires |w| == |t| && NonNegative(w) && NonDecreasing(w) && NonNegative(t) && i < |t|
    requires Sum(t) > 0.0 && Sum(Product(w, t)) > 0.0
    ensures Sum(Product(w, t)[..i + 1]) / Sum(Product(w, t)) <= Sum(t[..i + 1]) / Sum(t)
  {
    var wt := Product(w, t);
    var k := i + 1;
    SumSplit(t, k);
    SumSplit(wt, k);
    CutShareBelow(w, t, k, w[i]);
    var a, b := Sum(wt[..k]), Sum(t[..k]);
    assert a / Sum(wt) == a / (a + Sum(wt[k..]));
    assert b / Sum(t) == b / (b + Sum(t[k..]));
  }

  /** The weighted share of the mass before the cut at k, against the plain share. */
  lemma CutShareBelow(w: seq<real>, t: seq<real>, k: nat, c: real)
    requires |w| == |t| && NonNegative(t) && k <= |t|
    requires forall m :: 0 <= m < k ==> w[m] <= c
    requires forall m :: k <= m < |w| ==> w[m] >= c
    requires Sum(t[..k]) + Sum(t[k..]) > 0.0
    requires Sum(Product(w, t)[..k]) + Sum(Product(w, t)[k..]) > 0.0
    ensures var wt := Product(w, t);
      Sum(wt[..k]) / (Sum(wt[..k]) + Sum(wt[k..])) <= Sum(t[..k]) / (Sum(t[..k]) + Sum(t[k..]))
  {
    var wt := Product(w, t);
    PrefixWeightedBound(w, t, k, c);
    SuffixWeightedBound(w, t, k, c);
    ShareBelow(Sum(wt[..k]), Sum(wt[k..]), Sum(t[..k]), Sum(t[k..]), c);
  }

  /** Before the cut at k every wavelength is at most c, so the weighted mass is at most c times the mass. */
  lemma PrefixWeightedBound(w: seq<real>, t: seq<real>, k: nat, c: real)
    requires |w| == |t| && NonNegative(t) && k <= |t|
    requires forall m :: 0 <= m < k ==> w[m] <= c
    ensures Sum(Product(w, t)[..k]) <= c * Sum(t[..k])
    ensures Sum(t[..k]) >= 0.0
  {
    ProductPrefix(w, t, k);
    assert NonNegative(t[..k]);
    SumNonNegative(t[..k]);
    SumProductAtMost(w[..k], t[..k], c);
  }

  /** From the cut at k on every wavelength is at least c, so the weighted mass is at least c times the mass. */
  lemma SuffixWeightedBound(w: seq<real>, t: seq<real>, k: nat, c: real)
    requires |w| == |t| && NonNegative(t) && k <= |t|
    requires forall m :: k <= m < |w| ==> w[m] >= c
    ensures Sum(Product(w, t)[k..]) >= c * Sum(t[k..])
    ensures Sum(t[k..]) >= 0.0
  {
    ProductSuffix(w, t, k);
    assert NonNegative(t[k..]);
    SumNonNegative(t[k..]);
    assert forall m :: 0 <= m < |w[k..]| ==> w[k..][m] >= c;
    SumProductAtLeast(w[k..], t[k..], c);
  }

  /** CrossBelow read as shares of the totals. */
  lemma ShareBelow(pw: real, qw: real, p: real, q: real, c: real)
    requires p >= 0.0 && q >= 0.0 && p + q > 0.0 && pw + qw > 0.0
    requires pw <= c * p && qw >= c * q
    ensures pw / (pw + qw) <= p / (p + q)
  {
    CrossBelow(pw, qw, p, q, c);
    RatioFromCross(pw, pw + qw, p, p + q);
  }

  /**
   * The lower edge `calculate_edges` finds is at most the effective wavelength, for
   * non-negative throughput on a sorted grid of non-negative wavelengths with pc <= 100.
   */
  lemma LowerEdgeBelowEffective(w: seq<real>, t: seq<real>, pc: real)
    requires |w| == |t| && NonNegative(w) && NonDecreasing(w) && NonNegative(t) && pc <= 100.0
    requires CumulativeLookup(w, t, LowerLevel(pc)).Success?
    requires EffectiveWavelength(w, t).Success?
    ensures CumulativeLookup(w, t, LowerLevel(pc)).value <= EffectiveWavelength(w, t).value
  {
    var wt := Product(w, t);
    SumNonNegative(t);
    ProductNonNegative(w, t);
    SumNonNegative(wt);
    WeightedCumulativeBelow(w, t);
    InterpBelowCurve(NormalisedCumulative(t).value, NormalisedCumulative(wt).value, w, LowerLevel(pc), 0.5);
  }

  /**
   * The effective wavelength can lie above the upper edge: a narrow band at 2 angstrom
   * with a faint red tail out to 1000 angstrom, and pc = 3.
   */
  lemma EffectiveAboveUpperEdge()
    ensures var w, t := [1.0, 2.0, 1000.0], [0.0, 1.0, 0.02];
      && CumulativeLookup(w, t, UpperLevel(3.0)).Success?
      && EffectiveWavelength(w, t).Success?
      && CumulativeLookup(w, t, UpperLevel(3.0)).value < EffectiveWavelength(w, t).value
  {
    ExampleUpperEdge();
    ExampleEffectiveWavelength();
  }

  /** The upper edge of the example in EffectiveAboveUpperEdge, about 236.5 angstrom. */
  lemma ExampleUpperEdge()
    ensures CumulativeLookup([1.0, 2.0, 1000.0], [0.0, 1.0, 0.02], UpperLevel(3.0))
      == Success(Line(1.0 / 1.02, 2.0, 1.0, 1000.0, 0.985))
  {
    var w, t := [1.0, 2.0, 1000.0], [0.0, 1.0, 0.02];
    ThreeSamples(0.0, 1.0, 0.02);
    var c := Divide(CumSum(t), 1.02);
    assert c == [0.0, 1.0 / 1.02, 1.0];
    InterpBetweenKnots(c, w, 0.985, 2);
  }

  /** The effective wavelength of the example in EffectiveAboveUpperEdge, about 451.1 angstrom. */
  lemma ExampleEffectiveWavelength()
    ensures EffectiveWavelength([1.0, 2.0, 1000.0], [0.0, 1.0, 0.02])
      == Success(Line(2.0 / 22.0, 2.0, 1.0, 1000.0, 0.5))
  {
    var w, t := [1.0, 2.0, 1000.0], [0.0, 1.0, 0.02];
    assert Product(w, t) == [0.0, 2.0, 20.0];
    ThreeSamples(0.0, 2.0, 20.0);
    var c := Divide(CumSum([0.0, 2.0, 20.0]), 22.0);
    assert c == [0.0, 2.0 / 22.0, 1.0];
    InterpBetweenKnots(c, w, 0.5, 2);
  }

  /** Running totals and total of three samples. */
  lemma ThreeSamples(a: real, b: real, c: real)
    ensures CumSum([a, b, c]) == [a, a + b, a + b + c]
    ensures Sum([a, b, c]) == a + b + c
  {
    assert [a][..0] == [];
    assert CumSum([a]) == [a];
    assert [a, b][..1] == [a];
    assert CumSum([a, b]) == [a, a + b];
    assert [a, b, c][..2] == [a, b];
    assert Sum([a]) == a;
    assert Sum([a, b]) == a + b;
  }

  /** The index of the first positive sample, if any. */
  function FirstPositive(t: seq<real>): (r: Option<nat>)
    ensures r.Some? ==> r.value < |t| && t[r.value] > 0.0 && forall k :: 0 <= k < r.value ==> t[k] <= 0.0
    ensures r.None? ==> forall k :: 0 <= k < |t| ==> t[k] <= 0.0
  {
    if t == [] then None
    else if t[0] > 0.0 then Some(0)
    else match FirstPositive(t[1..])
      case None => None
      case Some(i) => Some(i + 1)
  }

  /** The index of the last positive sample, if any. */
  function LastPositive(t: seq<real>): (r: Option<nat>)
    ensures r.Some? ==> r.value < |t| && t[r.value] > 0.0 && forall k :: r.value < k < |t| ==> t[k] <= 0.0
    ensures r.None? ==> forall k :: 0 <= k < |t| ==> t[k] <= 0.0
  {
    if t == [] then None
    else if t[|t| - 1] > 0.0 then Some(|t| - 1)
    else LastPositive(t[..|t| - 1])
  }

  /**
   * `calculate_edges_zero`: the sample indices one step outside the first and last
   * positive samples, kept inside the array.
   */
  function EdgeIndicesZero(t: seq<real>): (r: Option<(nat, nat)>)
    ensures r.None? <==> forall k :: 0 <= k < |t| ==> t[k] <= 0.0
    ensures r.Some? ==>
      var first := FirstPositive(t).value;
      var last := LastPositive(t).value;
      && r.value.0 == (if first >= 1 then first - 1 else 0)
      && r.value.1 == (if last + 1 <= |t| - 1 then last + 1 else |t| - 1)
      && r.value.0 <= first <= last <= r.value.1 < |t|
  {
    match FirstPositive(t)
    case None => None
    case Some(first) =>
      var last := LastPositive(t).value;
      var low := if first - 1 < 0 then 0 else first - 1;
      var high := if last + 1 == |t| then last else last + 1;
      Some((low, high))
  }

  /** Every sample outside the chosen index window has zero or negative throughput. */
  lemma EdgeIndicesZeroCover(t: seq<real>)
    requires EdgeIndicesZero(t).Some?
    ensures var (lo, hi) := EdgeIndicesZero(t).value;
      forall k :: 0 <= k < |t| && (k < lo || hi < k) ==> t[k] <= 0.0
  {
  }

  /** `np.concatenate(([0, 1], w, [24999, 25000]))`. */
  function PadWavelength(w: seq<real>): seq<real>
  {
    [0.0, 1.0] + w + [24999.0, 25000.0]
  }

  /** `np.concatenate(([0, 0], t, [0, 0]))`. */
  function PadThroughput(t: seq<real>): seq<real>
  {
    [0.0, 0.0] + t + [0.0, 0.0]
  }

  /**
   * The padded curve is the original curve with zero-throughput samples added at
   * 0 and 1 angstrom and at 24999 and 25000 angstrom.
   */
  lemma PaddedCurve(w: seq<real>, t: seq<real>)
    requires |w| == |t|
    ensures var pw, pt := PadWavelength(w), PadThroughput(t);
      && |pw| == |pt| == |w| + 4
      && pw[..2] == [0.0, 1.0] && pw[|w| + 2..] == [24999.0, 25000.0]
      && pt[..2] == [0.0, 0.0] && pt[|w| + 2..] == [0.0, 0.0]
      && pw[2..|w| + 2] == w && pt[2..|w| + 2] == t
      && (NonNegative(t) ==> NonNegative(pt))
      && (StrictlyIncreasing(w) && (w != [] ==> 1.0 < w[0] && w[|w| - 1] < 24999.0) ==> StrictlyIncreasing(pw))
  {
    var pw := PadWavelength(w);
    if StrictlyIncreasing(w) && (w != [] ==> 1.0 < w[0] && w[|w| - 1] < 24999.0) {
      forall i, j | 0 <= i < j < |pw| ensures pw[i] < pw[j] {
        if 2 <= i && j < |w| + 2 {
          assert pw[i] == w[i - 2] && pw[j] == w[j - 2];
        } else if i < 2 && 2 <= j < |w| + 2 {
          assert w[0] <= w[j - 2];
        } else if 2 <= i < |w| + 2 && |w| + 2 <= j {
          assert w[i - 2] <= w[|w| - 1];
        }
      }
    }
  }

  /**
   * The knots `InterpolatedUnivariateSpline(x, y, k)` accepts: 1 <= k <= 5, more
   * points than k, and x strictly increasing. Here x is the padded wavelength grid.
   */
  predicate SplineAccepts(w: seq<real>, k: nat)
  {
    1 <= k <= 5 && |w| + 4 > k && StrictlyIncreasing(PadWavelength(w))
  }

  /**
   * For an order up to 3, the padded grid is accepted exactly when the
   * wavelengths strictly increase and lie strictly between 1 and 24999 angstrom.
   */
  lemma SplineAcceptsIff(w: seq<real>, k: nat)
    requires 1 <= k <= 3
    ensures SplineAccepts(w, k) <==>
      StrictlyIncreasing(w) && (w != [] ==> 1.0 < w[0] && w[|w| - 1] < 24999.0)
  {
    var pw := PadWavelength(w);
    PaddedCurve(w, w);
    if StrictlyIncreasing(pw) {
      forall i, j | 0 <= i < j < |w| ensures w[i] < w[j] {
        assert w[i] == pw[i + 2] && w[j] == pw[j + 2];
      }
      if w != [] {
        assert pw[1] == 1.0 && pw[2] == w[0];
        assert pw[|w| + 1] == w[|w| - 1] && pw[|w| + 2] == 24999.0;
      }
    }
  }

  /** `interp_func(grid)`: the spline evaluated at every grid point. */
  function SplineValues(fit: SplineFit, xs: seq<real>, ys: seq<real>, k: nat, grid: seq<real>): (r: seq<real>)
    ensures |r| == |grid|
  {
    seq(|grid|, i requires 0 <= i < |grid| => fit(xs, ys, k, grid[i]))
  }

  /** `a[np.where(a < 0.0)] = 0.0`, as a value. */
  function Clamped(s: seq<real>): (r: seq<real>)
    ensures |r| == |s|
  {
    seq(|s|, i requires 0 <= i < |s| => if s[i] < 0.0 then 0.0 else s[i])
  }

  /** Clamping leaves no negative value, keeps the non-negative ones and is idempotent. */
  lemma ClampedProperties(s: seq<real>)
    ensures NonNegative(Clamped(s))
    ensures forall i :: 0 <= i < |s| && s[i] >= 0.0 ==> Clamped(s)[i] == s[i]
    ensures forall i :: 0 <= i < |s| && s[i] < 0.0 ==> Clamped(s)[i] == 0.0
    ensures Clamped(Clamped(s)) == Clamped(s)
    ensures NonNegative(s) ==> Clamped(s) == s
  {
  }

  /** The throughput `resample_response` leaves behind on `grid`. */
  function ResampledThroughput(w: seq<real>, t: seq<real>, grid: seq<real>, k: nat, fit: SplineFit): (r: seq<real>)
    ensures |r| == |grid|
  {
    Clamped(SplineValues(fit, PadWavelength(w), PadThroughput(t), k, grid))
  }

  /**
   * The resampled throughput has one value per grid point, every value non-negative:
   * the spline through the padded curve at that point, or zero where the spline dips below.
   */
  lemma ResampledProperties(w: seq<real>, t: seq<real>, grid: seq<real>, k: nat, fit: SplineFit)
    ensures var r := ResampledThroughput(w, t, grid, k, fit);
      && |r| == |grid| && NonNegative(r)
      && forall i :: 0 <= i < |grid| ==>
           var v := fit(PadWavelength(w), PadThroughput(t), k, grid[i]);
           r[i] == (if v < 0.0 then 0.0 else v)
  {
    ClampedProperties(SplineValues(fit, PadWavelength(w), PadThroughput(t), k, grid));
  }
}
