/**
 * Synthetic photometry through a filter curve: `calc_filter_area` and its cache, and
 * the flux pipeline of `calc_spectrum_filter_flux` (resample the filter onto the
 * spectrum's grid when the grids differ, refresh a cached area, multiply throughput by
 * flux pointwise, integrate, optionally divide by the area). The integral is the
 * abstract `Integrator` and the spline the abstract `SplineFit`.
 */
module SyntheticPhotometry {
  import opened Outcomes
  import opened RealSeq
  import opened FilterMath
  import opened Filters
  import opened Spectra

  datatype FluxError =
    | FilterNotLoaded    // the filter object has no wavelength/throughput attributes
    | SpectrumNotLoaded  // the spectrum object has no wavelength/flux attributes
    | ResampleFailed     // `resample_response` raises: the spline refuses the padded grid
    | AreaUnbound        // `filter_area` is never bound when the filter has no `_effective_area`
    | ZeroArea           // the area is zero: numpy's answer is not a finite number

  /** The spline order `resample_response` uses by default. */
  const SplineOrder: nat := 1

  /** The part of a filter object the flux pipeline reads and writes. */
  datatype FilterCurve = FilterCurve(loaded: bool, wavelength: seq<real>, throughput: seq<real>, effectiveArea: Option<real>,
                                     wavelengthOrig: Option<seq<real>>, throughputOrig: Option<seq<real>>)

  function CurveOf(f: FilterClass): (c: FilterCurve)
    reads f`loaded, f`wavelength, f`throughput, f`effectiveArea, f`wavelengthOrig, f`throughputOrig
    ensures c.loaded == f.loaded && c.wavelength == f.wavelength
    ensures c.throughput == f.throughput && c.effectiveArea == f.effectiveArea
    ensures c.wavelengthOrig == f.wavelengthOrig && c.throughputOrig == f.throughputOrig
  {
    FilterCurve(f.loaded, f.wavelength, f.throughput, f.effectiveArea, f.wavelengthOrig, f.throughputOrig)
  }

  /** Whether `resample_response` onto `grid` runs at all and, if so, gets past the spline. */
  predicate Resamplable(c: FilterCurve, grid: seq<real>)
  {
    c.wavelength == grid || SplineAccepts(c.wavelength, SplineOrder)
  }

  /** The transmitted spectrum `throughput * flux`. */
  function Transmitted(throughput: seq<real>, flux: seq<real>): (r: seq<real>)
    requires |throughput| == |flux|
    ensures |r| == |flux|
    ensures forall i :: 0 <= i < |r| ==> r[i] == throughput[i] * flux[i]
  {
    Product(throughput, flux)
  }

  /** Scaling every flux value by k scales every transmitted value by k. */
  lemma TransmittedLinear(throughput: seq<real>, flux: seq<real>, k: real)
    requires |throughput| == |flux|
    ensures Transmitted(throughput, Scale(k, flux)) == Scale(k, Transmitted(throughput, flux))
  {
    var a, b := Transmitted(throughput, Scale(k, flux)), Scale(k, Transmitted(throughput, flux));
    forall i | 0 <= i < |a| ensures a[i] == b[i] {
      assert a[i] == throughput[i] * (k * flux[i]);
    }
  }

  /**
   * The filter after the first half of `calc_spectrum_filter_flux`: resampled onto
   * `grid`, with the old arrays kept, unless it is already on it; a cached area is
   * recomputed on that curve.
   */
  function OnGrid(c: FilterCurve, grid: seq<real>, fit: SplineFit, simps: Integrator): (r: FilterCurve)
    requires |c.wavelength| == |c.throughput| && Resamplable(c, grid)
    ensures r.loaded == c.loaded && r.wavelength == grid && |r.throughput| == |grid|
    ensures c.wavelength == grid ==>
      r.throughput == c.throughput && r.wavelengthOrig == c.wavelengthOrig && r.throughputOrig == c.throughputOrig
    ensures c.wavelength != grid ==>
      && NonNegative(r.throughput)
      && r.wavelengthOrig == Some(c.wavelength) && r.throughputOrig == Some(c.throughput)
    ensures r.effectiveArea.Some? <==> c.effectiveArea.Some?
    ensures r.effectiveArea.Some? ==> r.effectiveArea.value == simps(r.throughput, grid)
  {
    if c.wavelength == grid then
      var area := if c.effectiveArea.Some? then Some(simps(c.throughput, grid)) else None;
      c.(effectiveArea := area)
    else
      var t := ResampledThroughput(c.wavelength, c.throughput, grid, SplineOrder, fit);
      ResampledProperties(c.wavelength, c.throughput, grid, SplineOrder, fit);
      var area := if c.effectiveArea.Some? then Some(simps(t, grid)) else None;
      FilterCurve(c.loaded, grid, t, area, Some(c.wavelength), Some(c.throughput))
  }

  /** A curve already on the grid, with any area fresh, is left as it is. */
  lemma OnGridIdempotent(c: FilterCurve, grid: seq<real>, fit: SplineFit, simps: Integrator)
    requires |c.wavelength| == |c.throughput| && Resamplable(c, grid)
    ensures OnGrid(OnGrid(c, grid, fit, simps), grid, fit, simps) == OnGrid(c, grid, fit, simps)
  {
  }

  /**
   * What `calc_spectrum_filter_flux(filter_object=..., spectrum_object=..., correct_for_area)`
   * returns for a filter in state `c` and a spectrum with the given columns.
   */
  function FluxOf(c: FilterCurve, specLoaded: bool, sw: seq<real>, sf: seq<real>, correct: bool,
                  fit: SplineFit, simps: Integrator): (r: Result<real, FluxError>)
    requires |c.wavelength| == |c.throughput| && |sw| == |sf|
    ensures !c.loaded ==> r == Failure(FilterNotLoaded)
    ensures c.loaded && !specLoaded ==> r == Failure(SpectrumNotLoaded)
    ensures c.loaded && specLoaded && !Resamplable(c, sw) ==> r == Failure(ResampleFailed)
    ensures c.loaded && specLoaded && Resamplable(c, sw) && correct && c.effectiveArea.None? ==> r == Failure(AreaUnbound)
    ensures r.Success? <==>
      && c.loaded && specLoaded && Resamplable(c, sw)
      && (correct ==> c.effectiveArea.Some? && OnGrid(c, sw, fit, simps).effectiveArea.value != 0.0)
  {
    if !c.loaded then Failure(FilterNotLoaded)
    else if !specLoaded then Failure(SpectrumNotLoaded)
    else if !Resamplable(c, sw) then Failure(ResampleFailed)
    else
      var g := OnGrid(c, sw, fit, simps);
      var integrated := simps(Transmitted(g.throughput, sf), sw);
      if !correct then Success(integrated)
      else if g.effectiveArea.None? then Failure(AreaUnbound)
      else if g.effectiveArea.value == 0.0 then Failure(ZeroArea)
      else Success(integrated / g.effectiveArea.value)
  }

  /**
   * The filter as `calc_spectrum_filter_flux` leaves it: untouched when it or the
   * spectrum has no data, the padded curve when the spline refuses it, and otherwise
   * on the spectrum's grid.
   */
  function FluxState(c: FilterCurve, specLoaded: bool, sw: seq<real>, fit: SplineFit, simps: Integrator): (r: FilterCurve)
    requires |c.wavelength| == |c.throughput|
    ensures |r.wavelength| == |r.throughput|
    ensures r.loaded == c.loaded && (r.effectiveArea.Some? <==> c.effectiveArea.Some?)
    ensures !c.loaded || !specLoaded ==> r == c
    ensures c.loaded && specLoaded && Resamplable(c, sw) ==> r.wavelength == sw
    ensures c.loaded && specLoaded && !Resamplable(c, sw) ==>
      && r.wavelength == PadWavelength(c.wavelength) && r.throughput == PadThroughput(c.throughput)
      && r.wavelengthOrig == Some(c.wavelength) && r.throughputOrig == Some(c.throughput)
      && r.effectiveArea == c.effectiveArea
    ensures c.loaded && specLoaded && c.wavelength != sw ==>
      r.wavelengthOrig == Some(c.wavelength) && r.throughputOrig == Some(c.throughput)
  {
    if !c.loaded || !specLoaded then c
    else if !Resamplable(c, sw) then
      PaddedCurve(c.wavelength, c.throughput);
      c.(wavelength := PadWavelength(c.wavelength), throughput := PadThroughput(c.throughput),
         wavelengthOrig := Some(c.wavelength), throughputOrig := Some(c.throughput))
    else OnGrid(c, sw, fit, simps)
  }

  /**
   * Unless the spline refused it, running the pipeline again on the filter it leaves
   * behind gives the same answer and leaves the filter as it is.
   */
  lemma FluxIdempotent(c: FilterCurve, specLoaded: bool, sw: seq<real>, sf: seq<real>, correct: bool,
                       fit: SplineFit, simps: Integrator)
    requires |c.wavelength| == |c.throughput| && |sw| == |sf|
    requires FluxOf(c, specLoaded, sw, sf, correct, fit, simps) != Failure(ResampleFailed)
    ensures var d := FluxState(c, specLoaded, sw, fit, simps);
      && FluxOf(d, specLoaded, sw, sf, correct, fit, simps) == FluxOf(c, specLoaded, sw, sf, correct, fit, simps)
      && FluxState(d, specLoaded, sw, fit, simps) == d
  {
    if c.loaded && specLoaded {
      OnGridIdempotent(c, sw, fit, simps);
    }
  }

  /**
   * On success the flux is the integral of throughput times flux on the spectrum's
   * grid, divided by the filter area (the integral of the throughput) when corrected.
   */
  lemma FluxValue(c: FilterCurve, specLoaded: bool, sw: seq<real>, sf: seq<real>, correct: bool,
                  fit: SplineFit, simps: Integrator)
    requires |c.wavelength| == |c.throughput| && |sw| == |sf|
    requires FluxOf(c, specLoaded, sw, sf, correct, fit, simps).Success?
    ensures var t := OnGrid(c, sw, fit, simps).throughput;
      && (!correct ==> FluxOf(c, specLoaded, sw, sf, correct, fit, simps).value == simps(Transmitted(t, sf), sw))
      && (correct ==>
            && simps(t, sw) != 0.0
            && FluxOf(c, specLoaded, sw, sf, correct, fit, simps).value == simps(Transmitted(t, sf), sw) / simps(t, sw))
  {
  }

  /**
   * When the integral is linear on the transmitted spectrum, scaling the spectrum's
   * flux by k scales the synthetic flux by k.
   */
  lemma FluxScales(c: FilterCurve, specLoaded: bool, sw: seq<real>, sf: seq<real>, correct: bool,
                   fit: SplineFit, simps: Integrator, k: real)
    requires |c.wavelength| == |c.throughput| && |sw| == |sf|
    requires FluxOf(c, specLoaded, sw, sf, correct, fit, simps).Success?
    requires var t := OnGrid(c, sw, fit, simps).throughput;
      simps(Scale(k, Transmitted(t, sf)), sw) == k * simps(Transmitted(t, sf), sw)
    ensures var scaled := FluxOf(c, specLoaded, sw, Scale(k, sf), correct, fit, simps);
      scaled.Success? && scaled.value == k * FluxOf(c, specLoaded, sw, sf, correct, fit, simps).value
  {
    var g := OnGrid(c, sw, fit, simps);
    TransmittedLinear(g.throughput, sf, k);
    if correct {
      var i := simps(Transmitted(g.throughput, sf), sw);
      var a := g.effectiveArea.value;
      assert (k * i) / a == k * (i / a);
    }
  }

  /**
   * `calc_filter_area(filter_object=f)`: the cached `_effective_area` when present,
   * otherwise `calculate_filter_area` fills the cache and its value is returned.
   */
  method CalcFilterArea(f: FilterClass, simps: Integrator) returns (r: Result<real, FluxError>)
    requires f.Valid()
    modifies f`effectiveArea
    ensures f.Valid()
    ensures old(f.effectiveArea).Some? ==> r == Success(old(f.effectiveArea).value) && unchanged(f)
    ensures old(f.effectiveArea).None? && f.loaded ==>
      r == Success(simps(f.throughput, f.wavelength)) && f.effectiveArea == Some(r.value)
    ensures old(f.effectiveArea).None? && !f.loaded ==> r == Failure(FilterNotLoaded) && unchanged(f)
  {
    if f.effectiveArea.Some? {
      return Success(f.effectiveArea.value);
    }
    var o := f.CalculateFilterArea(simps);
    if o.Fail? {
      return Failure(FilterNotLoaded);
    }
    r := Success(f.effectiveArea.value);
  }

  /**
   * `calc_spectrum_filter_flux(filter_object=f, spectrum_object=s, correct_for_area=correct)`.
   * Its answer is `FluxOf` on the filter as it was, and it leaves the filter in the
   * state `FluxState` describes: resampled, with the old arrays kept, only when its
   * grid differed from the spectrum's.
   */
  method CalcSpectrumFilterFlux(f: FilterClass, s: SpectrumClass, correct: bool, fit: SplineFit, simps: Integrator)
    returns (r: Result<real, FluxError>)
    requires f.Valid() && s.Valid()
    modifies f`wavelength, f`throughput, f`wavelengthOrig, f`throughputOrig, f`effectiveArea
    ensures f.Valid()
    ensures r == FluxOf(old(CurveOf(f)), s.hasData, s.wavelength, s.flux, correct, fit, simps)
    ensures CurveOf(f) == FluxState(old(CurveOf(f)), s.hasData, s.wavelength, fit, simps)
    ensures r.Success? ==> f.wavelength == s.wavelength
  {
    if !f.loaded {
      return Failure(FilterNotLoaded);
    }
    if !s.hasData {
      return Failure(SpectrumNotLoaded);
    }
    if f.wavelength != s.wavelength {
      var o := f.ResampleResponse(s.wavelength, SplineOrder, fit);
      if o.Fail? {
        return Failure(ResampleFailed);
      }
    }
    var area: Option<real> := None;
    if f.effectiveArea.Some? {
      var _ := f.CalculateFilterArea(simps);
      area := f.effectiveArea;
    }
    var integrated := simps(Transmitted(f.throughput, s.flux), s.wavelength);
    if !correct {
      return Success(integrated);
    }
    if area.None? {
      return Failure(AreaUnbound);
    }
    if area.value == 0.0 {
      return Failure(ZeroArea);
    }
    r := Success(integrated / area.value);
  }
}
