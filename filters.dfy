/**
 * `FilterClass` of pycoco/__init__.py: a filter response curve loaded from a two-column
 * file, and the methods that derive its effective wavelength, frequencies and edges,
 * or resample it onto a new wavelength grid. Python attributes that may be missing
 * are `Option` fields; `loaded` says whether `wavelength` and `throughput` exist.
 */
module Filters {
  import opened Outcomes
  import opened RealSeq
  import opened Interp
  import opened FilterMath
  import opened Units
  import opened FileNames

  /** The first column of a two-column table. */
  function Wavelengths(rows: seq<(real, real)>): (r: seq<real>)
    ensures |r| == |rows|
  {
    seq(|rows|, i requires 0 <= i < |rows| => rows[i].0)
  }

  /** The second column of a two-column table. */
  function Throughputs(rows: seq<(real, real)>): (r: seq<real>)
    ensures |r| == |rows|
  {
    seq(|rows|, i requires 0 <= i < |rows| => rows[i].1)
  }

  /**
   * `c / wavelength_u` in hertz, for wavelengths in angstrom. A zero wavelength is an
   * error here; numpy would give an infinite frequency.
   */
  function FrequencyGrid(wu: seq<real>): (r: Result<seq<real>, FilterError>)
    ensures r.Success? <==> forall i :: 0 <= i < |wu| ==> wu[i] != 0.0
    ensures r.Success? ==> |r.value| == |wu|
    ensures r.Success? ==> forall i :: 0 <= i < |wu| ==> r.value[i] * wu[i] == SpeedOfLight
    ensures r.Failure? ==> r.error == ZeroWavelength
  {
    if exists i :: 0 <= i < |wu| && wu[i] == 0.0 then Failure(ZeroWavelength)
    else Success(seq(|wu|, i requires 0 <= i < |wu| => LambdaToNu(wu[i])))
  }

  /** Positive, strictly increasing wavelengths give positive, strictly decreasing frequencies. */
  lemma FrequencyGridDecreasing(wu: seq<real>)
    requires Positive(wu) && StrictlyIncreasing(wu)
    ensures FrequencyGrid(wu).Success?
    ensures Positive(FrequencyGrid(wu).value) && StrictlyDecreasing(FrequencyGrid(wu).value)
  {
    var f := FrequencyGrid(wu).value;
    forall i, j | 0 <= i < j < |wu| ensures f[i] > f[j] {
      ConversionAntitone(wu[i], wu[j]);
    }
  }

  /** `a[np.where(a < 0.0)] = 0.0`: every negative entry of `a` is set to zero in place. */
  method ClampNegative(a: array<real>)
    modifies a
    ensures a[..] == Clamped(old(a[..]))
  {
    ghost var before := a[..];
    for i := 0 to a.Length
      invariant a[..i] == Clamped(before)[..i]
      invariant a[i..] == before[i..]
    {
      assert a[i] == before[i];
      if a[i] < 0.0 {
        a[i] := 0.0;
      }
      assert a[..i + 1] == a[..i] + [a[i]];
      assert Clamped(before)[..i + 1] == Clamped(before)[..i] + [Clamped(before)[i]];
    }
    assert a[..] == a[..a.Length];
    assert Clamped(before) == Clamped(before)[..a.Length];
  }

  /** A lookup succeeds only where the cumulative throughput exists. */
  lemma LookupNeedsCumulative(w: seq<real>, t: seq<real>, level: real)
    requires |w| == |t|
    ensures CumulativeLookup(w, t, level).Success? ==> NormalisedCumulative(t).Success?
  {
  }

  /** The percentage of mass `read_filter_file` leaves outside the edges. */
  const DefaultEdgePercent: real := 3.0

  class FilterClass {
    var loaded: bool
    var wavelength: seq<real>
    var throughput: seq<real>
    var wavelengthU: Option<seq<real>>
    var filterName: Option<string>
    var filterFilePath: Option<string>
    var lambdaEffective: Option<real>
    var frequency: Option<seq<real>>
    var cumulativeThroughput: Option<seq<real>>
    var lowerEdge: Option<real>
    var upperEdge: Option<real>
    var wavelengthOrig: Option<seq<real>>
    var throughputOrig: Option<seq<real>>
    var effectiveArea: Option<real>

    /** Wavelength and throughput are sampled on the same points. */
    ghost predicate Valid()
      reads this
    {
      |wavelength| == |throughput|
    }

    /** `FilterClass()`: no curve and none of the derived attributes yet. */
    constructor()
      ensures Valid() && !loaded
      ensures wavelengthU.None? && filterName.None? && filterFilePath.None? && lambdaEffective.None?
      ensures frequency.None? && cumulativeThroughput.None? && lowerEdge.None? && upperEdge.None?
      ensures wavelengthOrig.None? && throughputOrig.None? && effectiveArea.None?
    {
      loaded := false;
      wavelength, throughput := [], [];
      wavelengthU, filterName, filterFilePath, lambdaEffective := None, None, None, None;
      frequency, cumulativeThroughput, lowerEdge, upperEdge := None, None, None, None;
      wavelengthOrig, throughputOrig, effectiveArea := None, None, None;
    }

    /**
     * `calculate_effective_wavelength`: where the wavelength-weighted cumulative
     * throughput reaches one half, which lies inside the curve's wavelength range.
     */
    method CalculateEffectiveWavelength() returns (r: Outcome<FilterError>)
      requires Valid()
      modifies this`lambdaEffective
      ensures Valid()
      ensures !loaded ==> r == Fail(NotLoaded) && lambdaEffective == old(lambdaEffective)
      ensures loaded ==> var e := EffectiveWavelength(wavelength, throughput);
        && (e.Success? ==> r == Pass && lambdaEffective == Some(e.value))
        && (e.Failure? ==> r == Fail(e.error) && lambdaEffective == old(lambdaEffective))
      ensures r == Pass && NonDecreasing(wavelength) ==>
        lambdaEffective.Some? && wavelength[0] <= lambdaEffective.value <= wavelength[|wavelength| - 1]
    {
      if !loaded {
        return Fail(NotLoaded);
      }
      var e := EffectiveWavelength(wavelength, throughput);
      if e.Failure? {
        return Fail(e.error);
      }
      lambdaEffective := Some(e.value);
      r := Pass;
    }

    /** `calculate_frequency`: c / wavelength_u for the wavelengths read from the file. */
    method CalculateFrequency() returns (r: Outcome<FilterError>)
      requires Valid()
      modifies this`frequency
      ensures Valid()
      ensures wavelengthU.None? ==> r == Fail(NotLoaded) && frequency == old(frequency)
      ensures wavelengthU.Some? ==> var g := FrequencyGrid(wavelengthU.value);
        && (g.Success? ==> r == Pass && frequency == Some(g.value))
        && (g.Failure? ==> r == Fail(g.error) && frequency == old(frequency))
    {
      if wavelengthU.None? {
        return Fail(NotLoaded);
      }
      var g := FrequencyGrid(wavelengthU.value);
      if g.Failure? {
        return Fail(g.error);
      }
      frequency := Some(g.value);
      r := Pass;
    }

    /**
     * `calculate_edges_zero`: the wavelengths one sample outside the first and last
     * positive throughput, clipped to the ends of the curve.
     */
    method CalculateEdgesZero() returns (r: Outcome<FilterError>)
      requires Valid()
      modifies this`lowerEdge, this`upperEdge
      ensures Valid()
      ensures !loaded ==> r == Fail(NotLoaded)
      ensures r.Fail? ==> lowerEdge == old(lowerEdge) && upperEdge == old(upperEdge)
      ensures loaded ==> match EdgeIndicesZero(throughput)
        case None => r == Fail(NoPositiveThroughput)
        case Some((lo, hi)) => r == Pass && lowerEdge == Some(wavelength[lo]) && upperEdge == Some(wavelength[hi])
      ensures r == Pass && NonDecreasing(wavelength) ==>
        lowerEdge.Some? && upperEdge.Some? && lowerEdge.value <= upperEdge.value
    {
      if !loaded {
        return Fail(NotLoaded);
      }
      match EdgeIndicesZero(throughput)
      case None =>
        r := Fail(NoPositiveThroughput);
      case Some((lo, hi)) =>
        upperEdge := Some(wavelength[hi]);
        lowerEdge := Some(wavelength[lo]);
        r := Pass;
    }

    /**
     * `calculate_edges(pc)`: stores the normalised cumulative throughput, then the
     * upper edge where it reaches 1 - pc/200, then the lower edge where it reaches
     * pc/200. An error stops the sequence, leaving the attributes set so far.
     */
    method CalculateEdges(pc: real) returns (r: Outcome<FilterError>)
      requires Valid()
      modifies this`cumulativeThroughput, this`lowerEdge, this`upperEdge
      ensures Valid()
      ensures !loaded ==> r == Fail(NotLoaded) && unchanged(this)
      ensures loaded ==>
        var c := NormalisedCumulative(throughput);
        var up := CumulativeLookup(wavelength, throughput, UpperLevel(pc));
        var low := CumulativeLookup(wavelength, throughput, LowerLevel(pc));
        && (c.Failure? ==> r == Fail(c.error) && unchanged(this))
        && (c.Success? ==> cumulativeThroughput == Some(c.value))
        && (c.Success? && up.Failure? ==>
              r == Fail(up.error) && upperEdge == old(upperEdge) && lowerEdge == old(lowerEdge))
        && (up.Success? ==> upperEdge == Some(up.value))
        && (up.Success? && low.Failure? ==> r == Fail(low.error) && lowerEdge == old(lowerEdge))
        && (up.Success? && low.Success? ==> r == Pass && lowerEdge == Some(low.value))
      ensures loaded ==>
        var up := CumulativeLookup(wavelength, throughput, UpperLevel(pc));
        var low := CumulativeLookup(wavelength, throughput, LowerLevel(pc));
        (r == Pass <==> up.Success? && low.Success?)
      ensures r == Pass ==>
        && loaded
        && cumulativeThroughput == Some(NormalisedCumulative(throughput).value)
        && upperEdge == Some(CumulativeLookup(wavelength, throughput, UpperLevel(pc)).value)
        && lowerEdge == Some(CumulativeLookup(wavelength, throughput, LowerLevel(pc)).value)
      ensures r == Pass && NonDecreasing(wavelength) && pc <= 100.0 ==>
        && lowerEdge.Some? && upperEdge.Some?
        && wavelength[0] <= lowerEdge.value <= upperEdge.value <= wavelength[|wavelength| - 1]
    {
      if !loaded {
        return Fail(NotLoaded);
      }
      var c := NormalisedCumulative(throughput);
      if c.Failure? {
        return Fail(c.error);
      }
      cumulativeThroughput := Some(c.value);
      var up := Interp1d(c.value, wavelength, UpperLevel(pc));
      if up.Failure? {
        return Fail(Interpolation(up.error));
      }
      upperEdge := Some(up.value);
      var low := Interp1d(c.value, wavelength, LowerLevel(pc));
      if low.Failure? {
        LookupNeedsCumulative(wavelength, throughput, UpperLevel(pc));
        return Fail(Interpolation(low.error));
      }
      lowerEdge := Some(low.value);
      if NonDecreasing(wavelength) && pc <= 100.0 {
        EdgesOrdered(wavelength, throughput, pc);
      }
      r := Pass;
    }

    /** The attributes `read_filter_file` sets from the file's rows and its path. */
    method LoadCurve(path: string, unitInAngstrom: real, rows: seq<(real, real)>)
      modifies this`loaded, this`wavelength, this`throughput, this`wavelengthU
      modifies this`filterFilePath, this`filterName
      ensures Valid() && loaded
      ensures wavelength == Wavelengths(rows) && throughput == Throughputs(rows)
      ensures wavelengthU == Some(Scale(unitInAngstrom, wavelength))
      ensures filterFilePath == Some(path) && filterName == Some(FilterNameFromPath(path))
    {
      wavelength, throughput := Wavelengths(rows), Throughputs(rows);
      loaded := true;
      wavelengthU := Some(Scale(unitInAngstrom, wavelength));
      filterFilePath := Some(path);
      filterName := Some(FilterNameFromPath(path));
    }

    /**
     * `read_filter_file`: with a readable non-empty two-column file, loads the curve,
     * names the filter after the file, and derives the effective wavelength and the
     * 3 percent edges. A missing file only warns; an empty one raises before any change.
     */
    method ReadFilterFile(path: string, unitInAngstrom: real, file: Option<seq<(real, real)>>)
      returns (r: Outcome<FilterError>)
      requires Valid()
      modifies this`loaded, this`wavelength, this`throughput, this`wavelengthU
      modifies this`filterFilePath, this`filterName, this`lambdaEffective
      modifies this`cumulativeThroughput, this`lowerEdge, this`upperEdge
      ensures Valid()
      ensures file.None? ==> r == Pass && unchanged(this)
      ensures file == Some([]) ==> r == Fail(EmptyFile) && unchanged(this)
      ensures file.Some? && file.value != [] ==>
        && loaded
        && wavelength == Wavelengths(file.value) && throughput == Throughputs(file.value)
        && wavelengthU == Some(Scale(unitInAngstrom, wavelength))
        && filterFilePath == Some(path) && filterName == Some(FilterNameFromPath(path))
      ensures file.Some? && file.value != [] ==>
        var e := EffectiveWavelength(wavelength, throughput);
        && (e.Failure? ==> r == Fail(e.error) && lambdaEffective == old(lambdaEffective))
        && (e.Success? ==> lambdaEffective == Some(e.value))
      ensures file.Some? && file.value != [] && EffectiveWavelength(wavelength, throughput).Failure? ==>
        && cumulativeThroughput == old(cumulativeThroughput)
        && upperEdge == old(upperEdge) && lowerEdge == old(lowerEdge)
      ensures file.Some? && file.value != [] && EffectiveWavelength(wavelength, throughput).Success? ==>
        var c := NormalisedCumulative(throughput);
        var up := CumulativeLookup(wavelength, throughput, UpperLevel(DefaultEdgePercent));
        var low := CumulativeLookup(wavelength, throughput, LowerLevel(DefaultEdgePercent));
        && (c.Failure? ==>
              && r == Fail(c.error) && cumulativeThroughput == old(cumulativeThroughput)
              && upperEdge == old(upperEdge) && lowerEdge == old(lowerEdge))
        && (c.Success? ==> cumulativeThroughput == Some(c.value))
        && (c.Success? && up.Failure? ==>
              r == Fail(up.error) && upperEdge == old(upperEdge) && lowerEdge == old(lowerEdge))
        && (up.Success? ==> upperEdge == Some(up.value))
        && (up.Success? && low.Failure? ==> r == Fail(low.error) && lowerEdge == old(lowerEdge))
        && (up.Success? && low.Success? ==> r == Pass && lowerEdge == Some(low.value))
      ensures file.Some? && file.value != [] ==>
        var e := EffectiveWavelength(wavelength, throughput);
        var up := CumulativeLookup(wavelength, throughput, UpperLevel(DefaultEdgePercent));
        var low := CumulativeLookup(wavelength, throughput, LowerLevel(DefaultEdgePercent));
        (r == Pass <==> e.Success? && up.Success? && low.Success?)
    {
      if file.None? {
        // the file is missing: `warnings.warn` only
        return Pass;
      }
      var rows := file.value;
      if rows == [] {
        return Fail(EmptyFile);
      }
      LoadCurve(path, unitInAngstrom, rows);
      ghost var w, t := wavelength, throughput;
      r := CalculateEffectiveWavelength();
      if r.Fail? {
        return;
      }
      assert lambdaEffective == Some(EffectiveWavelength(w, t).value);
      r := CalculateEdges(DefaultEdgePercent);
    }

    /**
     * `resample_response(new_wavelength, k)`: keeps the old curve, pads it with zero
     * throughput at 0, 1, 24999 and 25000 angstrom, evaluates an order-k spline through
     * the padded curve on the new grid and clamps negative values to zero. When the
     * spline refuses the padded knots it raises with the padded curve in place.
     */
    method ResampleResponse(newWavelength: seq<real>, k: nat, fit: SplineFit) returns (r: Outcome<FilterError>)
      requires Valid()
      modifies this`wavelength, this`throughput, this`wavelengthOrig, this`throughputOrig
      ensures Valid()
      ensures !loaded ==> r == Fail(NotLoaded) && unchanged(this)
      ensures loaded ==>
        && wavelengthOrig == Some(old(wavelength)) && throughputOrig == Some(old(throughput))
        && (r == Pass <==> SplineAccepts(old(wavelength), k))
      ensures loaded && !SplineAccepts(old(wavelength), k) ==>
        && r == Fail(SplineRejected)
        && wavelength == PadWavelength(old(wavelength)) && throughput == PadThroughput(old(throughput))
      ensures loaded && SplineAccepts(old(wavelength), k) ==>
        && wavelength == newWavelength
        && throughput == ResampledThroughput(old(wavelength), old(throughput), newWavelength, k, fit)
        && |throughput| == |newWavelength| && NonNegative(throughput)
    {
      if !loaded {
        // the warning branch calls the undefined name `warning`, which raises
        return Fail(NotLoaded);
      }
      wavelengthOrig := Some(wavelength);
      throughputOrig := Some(throughput);
      var paddedW := PadWavelength(wavelength);
      var paddedT := PadThroughput(throughput);
      wavelength, throughput := paddedW, paddedT;
      if !SplineAccepts(wavelengthOrig.value, k) {
        // `InterpolatedUnivariateSpline` raises ValueError
        return Fail(SplineRejected);
      }
      var values := new real[|newWavelength|](i requires 0 <= i < |newWavelength| => fit(paddedW, paddedT, k, newWavelength[i]));
      assert values[..] == SplineValues(fit, paddedW, paddedT, k, newWavelength);
      wavelength := newWavelength;
      ClampNegative(values);
      throughput := values[..];
      ClampedProperties(SplineValues(fit, paddedW, paddedT, k, newWavelength));
      r := Pass;
    }

    /**
     * `calculate_filter_area`, which pycoco/classes.py defines and this model does not
     * include: taken here to store the integral of the throughput over the wavelength.
     */
    method CalculateFilterArea(simps: Integrator) returns (r: Outcome<FilterError>)
      requires Valid()
      modifies this`effectiveArea
      ensures Valid()
      ensures !loaded ==> r == Fail(NotLoaded) && effectiveArea == old(effectiveArea)
      ensures loaded ==> r == Pass && effectiveArea == Some(simps(throughput, wavelength))
    {
      if !loaded {
        return Fail(NotLoaded);
      }
      effectiveArea := Some(simps(throughput, wavelength));
      r := Pass;
    }
  }
}
