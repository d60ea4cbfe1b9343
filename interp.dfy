/**
 * Linear interpolation as `scipy.interpolate.interp1d(x, y)` performs it with its
 * default settings (kind "linear", no extrapolation): the query point is located with
 * a left-sided binary search, the segment index is clipped into range, and the value
 * is read off the straight line through the two ends of that segment.
 */
module Interp {
  import opened Outcomes
  import opened RealSeq

  datatype InterpError =
    | LengthMismatch   // x and y differ in length
    | TooFewPoints     // fewer than two samples
    | NotSorted        // x not in non-decreasing order (the library would sort it first)
    | BelowRange       // the query is below x[0]
    | AboveRange       // the query is above x[n-1]
    | Undefined        // a zero-width segment: the library's answer is not a number

  /** `np.searchsorted(xs, p)` (side "left"): the number of leading entries below `p`. */
  function SearchSorted(xs: seq<real>, p: real): (r: nat)
    ensures r <= |xs|
    ensures forall k :: 0 <= k < r ==> xs[k] < p
    ensures r < |xs| ==> xs[r] >= p
  {
    if xs == [] then 0
    else if xs[0] < p then 1 + SearchSorted(xs[1..], p)
    else 0
  }

  /** On sorted input every entry from the returned index on is at least `p`. */
  lemma SearchSortedSplit(xs: seq<real>, p: real)
    requires NonDecreasing(xs)
    ensures forall k :: SearchSorted(xs, p) <= k < |xs| ==> xs[k] >= p
  {
  }

  /** A larger query never lands on an earlier index. */
  lemma SearchSortedMonotone(xs: seq<real>, p: real, q: real)
    requires NonDecreasing(xs) && p <= q
    ensures SearchSorted(xs, p) <= SearchSorted(xs, q)
  {
  }

  /** The right end of the segment used for `p`: the search index clipped into [1, n-1]. */
  function Segment(xs: seq<real>, p: real): (hi: nat)
    requires |xs| >= 2
    ensures 1 <= hi < |xs|
  {
    var i := SearchSorted(xs, p);
    if i < 1 then 1 else if i > |xs| - 1 then |xs| - 1 else i
  }

  /** interp1d(xs, ys)(p). */
  function Interp1d(xs: seq<real>, ys: seq<real>, p: real): (r: Result<real, InterpError>)
    ensures r.Success? <==>
      && |xs| == |ys| && |xs| >= 2 && NonDecreasing(xs)
      && xs[0] <= p <= xs[|xs| - 1]
      && !(p == xs[0] && xs[0] == xs[1])
  {
    if |xs| != |ys| then Failure(LengthMismatch)
    else if |xs| < 2 then Failure(TooFewPoints)
    else if !NonDecreasing(xs) then Failure(NotSorted)
    else if p < xs[0] then Failure(BelowRange)
    else if p > xs[|xs| - 1] then Failure(AboveRange)
    else
      var hi := Segment(xs, p);
      var lo := hi - 1;
      if xs[hi] == xs[lo] then Failure(Undefined)
      else
        Success(Line(xs[lo], ys[lo], xs[hi], ys[hi], p))
  }

  /** The straight line through (xlo, ylo) and (xhi, yhi), evaluated at p. */
  function Line(xlo: real, ylo: real, xhi: real, yhi: real, p: real): real
    requires xlo != xhi
  {
    var slope := (yhi - ylo) / (xhi - xlo);
    slope * (p - xlo) + ylo
  }

  /** The value of a successful query on the segment the search picks (a proof step). */
  lemma InterpValue(xs: seq<real>, ys: seq<real>, p: real)
    requires Interp1d(xs, ys, p).Success?
    ensures var hi := Segment(xs, p);
      xs[hi - 1] != xs[hi] && Interp1d(xs, ys, p).value == Line(xs[hi - 1], ys[hi - 1], xs[hi], ys[hi], p)
  {
  }

  /**
   * On sorted x, a query strictly above x[j-1] and at most x[j] takes the value of the
   * straight line through samples j-1 and j.
   */
  lemma InterpBetweenKnots(xs: seq<real>, ys: seq<real>, p: real, j: nat)
    requires |xs| == |ys| && NonDecreasing(xs) && 0 < j < |xs|
    requires xs[j - 1] < p <= xs[j]
    ensures Interp1d(xs, ys, p) == Success(Line(xs[j - 1], ys[j - 1], xs[j], ys[j], p))
  {
    assert SearchSorted(xs, p) == j;
  }

  /** At the first sample of a segment of positive width the value is the first y. */
  lemma InterpAtStart(xs: seq<real>, ys: seq<real>)
    requires |xs| == |ys| >= 2 && NonDecreasing(xs) && xs[0] < xs[1]
    ensures Interp1d(xs, ys, xs[0]) == Success(ys[0])
  {
    assert SearchSorted(xs, xs[0]) == 0;
    assert Segment(xs, xs[0]) == 1;
    var slope := (ys[1] - ys[0]) / (xs[1] - xs[0]);
    assert slope * (xs[0] - xs[0]) == 0.0;
    assert Line(xs[0], ys[0], xs[1], ys[1], xs[0]) == ys[0];
  }

  /**
   * Every successful query is one of the two cases above: the first sample, or a point
   * strictly above some x[j-1] and at most x[j].
   */
  lemma InterpCases(xs: seq<real>, ys: seq<real>, p: real)
    requires Interp1d(xs, ys, p).Success?
    ensures p == xs[0] || exists j :: 0 < j < |xs| && xs[j - 1] < p <= xs[j]
  {
    if p != xs[0] {
      var j := SearchSorted(xs, p);
      assert xs[|xs| - 1] >= p;
      assert 0 < j < |xs| && xs[j - 1] < p <= xs[j];
    }
  }

  /** A successful query lies on a segment whose ends bracket it. */
  lemma SegmentBrackets(xs: seq<real>, ys: seq<real>, p: real)
    requires Interp1d(xs, ys, p).Success?
    ensures xs[Segment(xs, p) - 1] <= p <= xs[Segment(xs, p)]
    ensures xs[Segment(xs, p) - 1] < xs[Segment(xs, p)]
  {
    SearchSortedSplit(xs, p);
  }

  /** Along a segment, the value is a weighted mean of the two end values. */
  lemma OnSegment(xlo: real, ylo: real, xhi: real, yhi: real, p: real)
    requires xlo <= p <= xhi && xlo < xhi && ylo <= yhi
    ensures ylo <= Line(xlo, ylo, xhi, yhi, p) <= yhi
  {
    var slope := (yhi - ylo) / (xhi - xlo);
    assert slope * (xhi - xlo) == yhi - ylo;
    assert slope >= 0.0;
    MulMonotone(slope, 0.0, p - xlo);
    MulMonotone(slope, p - xlo, xhi - xlo);
    assert slope * 0.0 == 0.0;
    assert Line(xlo, ylo, xhi, yhi, p) == slope * (p - xlo) + ylo;
  }

  lemma MulMonotone(k: real, a: real, b: real)
    requires k >= 0.0 && a <= b
    ensures k * a <= k * b
  {
    assert k * b - k * a == k * (b - a);
  }

  /**
   * Interpolating into a non-decreasing y lands between the two y values of the
   * segment used, hence inside [ys[0], ys[n-1]].
   */
  lemma InterpWithin(xs: seq<real>, ys: seq<real>, p: real)
    requires Interp1d(xs, ys, p).Success? && NonDecreasing(ys)
    ensures ys[Segment(xs, p) - 1] <= Interp1d(xs, ys, p).value <= ys[Segment(xs, p)]
    ensures ys[0] <= Interp1d(xs, ys, p).value <= ys[|ys| - 1]
  {
    var hi := Segment(xs, p);
    SegmentBrackets(xs, ys, p);
    InterpValue(xs, ys, p);
    OnSegment(xs[hi - 1], ys[hi - 1], xs[hi], ys[hi], p);
  }

  /** Within one segment a larger query gives a value at least as large. */
  lemma SameSegmentMonotone(xlo: real, ylo: real, xhi: real, yhi: real, p: real, q: real)
    requires xlo < xhi && ylo <= yhi && p <= q
    ensures Line(xlo, ylo, xhi, yhi, p) <= Line(xlo, ylo, xhi, yhi, q)
  {
    var slope := (yhi - ylo) / (xhi - xlo);
    assert slope >= 0.0;
    assert slope * (q - xlo) - slope * (p - xlo) == slope * (q - p);
  }

  /** Inverse interpolation into a non-decreasing y is monotone in the query. */
  lemma InterpMonotone(xs: seq<real>, ys: seq<real>, p: real, q: real)
    requires Interp1d(xs, ys, p).Success? && Interp1d(xs, ys, q).Success?
    requires NonDecreasing(ys) && p <= q
    ensures Interp1d(xs, ys, p).value <= Interp1d(xs, ys, q).value
  {
    var hp, hq := Segment(xs, p), Segment(xs, q);
    SearchSortedMonotone(xs, p, q);
    assert hp <= hq;
    if hp == hq {
      SegmentBrackets(xs, ys, p);
      InterpValue(xs, ys, p);
      InterpValue(xs, ys, q);
      SameSegmentMonotone(xs[hp - 1], ys[hp - 1], xs[hp], ys[hp], p, q);
    } else {
      InterpWithin(xs, ys, p);
      InterpWithin(xs, ys, q);
      assert ys[hp] <= ys[hq - 1];
    }
  }

  /** The line written as the first y plus the rise times the fraction of the run covered. */
  lemma LineAsFraction(xlo: real, ylo: real, xhi: real, yhi: real, p: real)
    requires xlo != xhi
    ensures Line(xlo, ylo, xhi, yhi, p) == ylo + (yhi - ylo) * ((p - xlo) / (xhi - xlo))
  {
  }

  /** Dividing a non-negative amount by a larger positive divisor gives no more. */
  lemma DivideAntitone(k: real, d1: real, d2: real)
    requires k >= 0.0 && 0.0 < d2 <= d1
    ensures k / d1 <= k / d2
  {
    var u1, u2 := k / d1, k / d2;
    assert u1 * d1 == k && u2 * d2 == k;
    assert u1 >= 0.0;
    MulMonotone(u1, d2, d1);
  }

  /** Moving the right end of a rising segment further right lowers the line at p. */
  lemma LineRightEndAntitone(xlo: real, ylo: real, h1: real, h2: real, yhi: real, p: real)
    requires ylo <= yhi && xlo <= p && xlo < h1 <= h2
    ensures Line(xlo, ylo, h2, yhi, p) <= Line(xlo, ylo, h1, yhi, p)
  {
    LineAsFraction(xlo, ylo, h1, yhi, p);
    LineAsFraction(xlo, ylo, h2, yhi, p);
    DivideAntitone(p - xlo, h2 - xlo, h1 - xlo);
    MulMonotone(yhi - ylo, (p - xlo) / (h2 - xlo), (p - xlo) / (h1 - xlo));
  }

  /** The fraction of the run covered at p is one minus the fraction still ahead. */
  lemma FractionComplement(l: real, h: real, p: real)
    requires l < h
    ensures (p - l) / (h - l) == 1.0 - (h - p) / (h - l)
  {
    var d := h - l;
    assert (p - l) / d + (h - p) / d == (p - l + (h - p)) / d;
    assert d / d == 1.0;
  }

  /** Moving the left end of a rising segment further right, up to p, lowers the line at p. */
  lemma LineLeftEndAntitone(l1: real, l2: real, ylo: real, h: real, yhi: real, p: real)
    requires ylo <= yhi && l1 <= l2 <= p <= h && l2 < h
    ensures Line(l2, ylo, h, yhi, p) <= Line(l1, ylo, h, yhi, p)
  {
    LineAsFraction(l1, ylo, h, yhi, p);
    LineAsFraction(l2, ylo, h, yhi, p);
    FractionComplement(l1, h, p);
    FractionComplement(l2, h, p);
    DivideAntitone(h - p, h - l1, h - l2);
    MulMonotone(yhi - ylo, (p - l2) / (h - l2), (p - l1) / (h - l1));
  }

  /**
   * The same rising y segment read against two x segments, the second lying to the
   * left of the first at both ends: the value at p on the first is at most the value
   * at a larger q on the second.
   */
  lemma LineShiftedSegment(a1: real, a2: real, b1: real, b2: real, ylo: real, yhi: real, p: real, q: real)
    requires a1 <= a2 && b1 <= b2 && a1 < b1 && a2 < b2 && ylo <= yhi
    requires a2 <= p <= q <= b1
    ensures Line(a2, ylo, b2, yhi, p) <= Line(a1, ylo, b1, yhi, q)
  {
    SameSegmentMonotone(a2, ylo, b2, yhi, p, q);
    if a2 == b1 {
      OnSegment(a1, ylo, b1, yhi, q);
      LineAsFraction(a2, ylo, b2, yhi, q);
    } else {
      LineRightEndAntitone(a2, ylo, b1, b2, yhi, q);
      LineLeftEndAntitone(a1, a2, ylo, b1, yhi, q);
    }
  }

  /**
   * Inverse interpolation into two cumulatives over the same grid, the second lying
   * pointwise at or below the first: a level on the first gives a value at most the
   * value of a level at least as high on the second.
   */
  lemma InterpBelowCurve(upper: seq<real>, lower: seq<real>, ys: seq<real>, p: real, q: real)
    requires |upper| == |lower| && NonDecreasing(ys) && p <= q
    requires forall i :: 0 <= i < |lower| ==> lower[i] <= upper[i]
    requires Interp1d(upper, ys, p).Success? && Interp1d(lower, ys, q).Success?
    ensures Interp1d(upper, ys, p).value <= Interp1d(lower, ys, q).value
  {
    var ju, jl := Segment(upper, p), Segment(lower, q);
    assert ju <= jl;
    InterpWithin(upper, ys, p);
    InterpWithin(lower, ys, q);
    if ju == jl {
      SegmentBrackets(upper, ys, p);
      SegmentBrackets(lower, ys, q);
      InterpValue(upper, ys, p);
      InterpValue(lower, ys, q);
      LineShiftedSegment(lower[ju - 1], upper[ju - 1], lower[ju], upper[ju], ys[ju - 1], ys[ju], p, q);
    } else {
      assert ys[ju] <= ys[jl - 1];
    }
  }

  /** With strictly increasing x the interpolant passes through every sample. */
  lemma InterpAtKnot(xs: seq<real>, ys: seq<real>, k: nat)
    requires |xs| == |ys| >= 2 && StrictlyIncreasing(xs) && k < |xs|
    ensures Interp1d(xs, ys, xs[k]) == Success(ys[k])
  {
    assert SearchSorted(xs, xs[k]) == k;
    var hi := Segment(xs, xs[k]);
    InterpValue(xs, ys, xs[k]);
    var slope := (ys[hi] - ys[hi - 1]) / (xs[hi] - xs[hi - 1]);
    if k == 0 {
      assert slope * (xs[k] - xs[hi - 1]) == 0.0;
    } else {
      assert hi == k;
      assert slope * (xs[hi] - xs[hi - 1]) == ys[hi] - ys[hi - 1];
    }
    assert Line(xs[hi - 1], ys[hi - 1], xs[hi], ys[hi], xs[k]) == ys[k];
  }
}
