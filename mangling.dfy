/**
 * The objective `manglemin` hands to the least-squares fitter: the fit parameters,
 * padded with a weight of 1.0 at each end, are the knot values of a clamped cubic
 * spline through the filters' effective wavelengths; a copy of the spectrum is
 * multiplied by that spline, and for every masked filter the residual is the fitted
 * flux minus the synthetic flux of the mangled copy. The spline is the abstract
 * `CubicSplineEval`; only its input validation is modelled.
 */
module Mangling {
  import opened Outcomes
  import opened RealSeq
  import opened OrderedDicts
  import opened FilterMath
  import opened Filters
  import opened Spectra
  import opened SyntheticPhotometry

  /** `CubicSpline(x, y, bc_type="clamped")` evaluated at a point. */
  type CubicSplineEval = (seq<real>, seq<real>, real) -> real

  datatype SplineError =
    | TooFewKnots         // fewer than two knots
    | KnotCountMismatch   // the knot values do not match the knots in number
    | KnotsNotIncreasing  // the knots are not strictly increasing

  datatype MangleError =
    | SplineFailed(reason: SplineError)
    | SpectrumMissing         // the copied spectrum has no wavelength/flux attributes
    | FluxFailed(flux: FluxError)

  /** One row of the data table: effective wavelength, fitted flux, mask and filter. */
  datatype MangleRow = MangleRow(lambdaEff: real, fitflux: real, mask: bool, filter: FilterClass)

  /** `array([params[key].value for key in params.keys()])`. */
  function ParamList(params: OrderedDict<real>): (r: seq<real>)
    requires params.Valid()
    ensures |r| == |params.keys|
    ensures forall i :: 0 <= i < |r| ==> r[i] == params.items[params.keys[i]]
  {
    Values(params)
  }

  /**
   * `append(append(1.0, paramlist), 1.0)`: the parameters in order, with a weight of 1.0
   * added at each end.
   */
  function Weights(paramlist: seq<real>): (w: seq<real>)
    ensures |w| == |paramlist| + 2
    ensures w[0] == 1.0 && w[|w| - 1] == 1.0
    ensures w[1..|w| - 1] == paramlist
    ensures forall i :: 0 <= i < |paramlist| ==> w[i + 1] == paramlist[i]
  {
    var w := [1.0] + paramlist + [1.0];
    assert w[1..|w| - 1] == paramlist;
    w
  }

  /** The validation `CubicSpline` performs on its knots before fitting. */
  function CheckSplineInput(x: seq<real>, y: seq<real>): (r: Outcome<SplineError>)
    ensures r == Pass <==> |x| >= 2 && |x| == |y| && StrictlyIncreasing(x)
    ensures |x| < 2 ==> r == Fail(TooFewKnots)
    ensures |x| >= 2 && |x| != |y| ==> r == Fail(KnotCountMismatch)
  {
    if |x| < 2 then Fail(TooFewKnots)
    else if |x| != |y| then Fail(KnotCountMismatch)
    else if !StrictlyIncreasing(x) then Fail(KnotsNotIncreasing)
    else Pass
  }

  /** The `lambda_eff` column of the whole table, the spline's knots. */
  function LambdaEffColumn(rows: seq<MangleRow>): (r: seq<real>)
    ensures |r| == |rows|
    ensures forall i :: 0 <= i < |r| ==> r[i] == rows[i].lambdaEff
  {
    seq(|rows|, i requires 0 <= i < |rows| => rows[i].lambdaEff)
  }

  /** `data_table[data_table["mask"]]`: the masked rows, in table order. */
  function Masked(rows: seq<MangleRow>): (r: seq<MangleRow>)
    ensures |r| <= |rows|
    ensures forall i :: 0 <= i < |r| ==> r[i].mask && r[i] in rows
    ensures forall i :: 0 <= i < |rows| && rows[i].mask ==> rows[i] in r
  {
    if rows == [] then []
    else if rows[0].mask then [rows[0]] + Masked(rows[1..])
    else Masked(rows[1..])
  }

  /** Masking a table split in two masks each part. */
  lemma {:induction false} MaskedConcat(a: seq<MangleRow>, b: seq<MangleRow>)
    ensures Masked(a + b) == Masked(a) + Masked(b)
  {
    if a == [] {
      assert a + b == b;
    } else {
      assert (a + b)[1..] == a[1..] + b;
      MaskedConcat(a[1..], b);
    }
  }

  /** Masking twice is masking once. */
  lemma {:induction false} MaskedIdempotent(rows: seq<MangleRow>)
    ensures Masked(Masked(rows)) == Masked(rows)
  {
    if rows != [] {
      MaskedIdempotent(rows[1..]);
    }
  }

  /** The `fitflux` column. */
  function FitFluxColumn(rows: seq<MangleRow>): (r: seq<real>)
    ensures |r| == |rows|
    ensures forall i :: 0 <= i < |r| ==> r[i] == rows[i].fitflux
  {
    seq(|rows|, i requires 0 <= i < |rows| => rows[i].fitflux)
  }

  /** The `filter_object` column of the masked rows. */
  function MaskedFilterList(rows: seq<MangleRow>): (r: seq<FilterClass>)
    ensures |r| == |Masked(rows)|
    ensures forall i :: 0 <= i < |r| ==> r[i] == Masked(rows)[i].filter
  {
    var m := Masked(rows);
    seq(|m|, i requires 0 <= i < |m| => m[i].filter)
  }

  /** The curves the filters hold, in order. */
  function CurvesOf(filters: seq<FilterClass>): (r: seq<FilterCurve>)
    reads Objects(filters)
    ensures |r| == |filters| && forall k :: 0 <= k < |filters| ==> r[k] == CurveOf(filters[k])
  {
    seq(|filters|, k requires 0 <= k < |filters| reads Objects(filters) => CurveOf(filters[k]))
  }

  /** `flux * SplObj(wavelength)`: the flux scaled pointwise by the spline on the same grid. */
  function MangledFlux(wavelength: seq<real>, flux: seq<real>, spline: CubicSplineEval,
                       x: seq<real>, y: seq<real>): (r: seq<real>)
    requires |wavelength| == |flux|
    ensures |r| == |flux|
  {
    seq(|flux|, i requires 0 <= i < |flux| => flux[i] * spline(x, y, wavelength[i]))
  }

  /** Where the spline is 1.0 on every sample, mangling leaves the flux as it is. */
  lemma MangledFluxUnit(wavelength: seq<real>, flux: seq<real>, spline: CubicSplineEval, x: seq<real>, y: seq<real>)
    requires |wavelength| == |flux|
    requires forall i :: 0 <= i < |wavelength| ==> spline(x, y, wavelength[i]) == 1.0
    ensures MangledFlux(wavelength, flux, spline, x, y) == flux
  {
  }

  /**
   * Mangling is the transmitted spectrum of the spline samples, so it is linear in the
   * flux and multiplies each sample by the spline's value there.
   */
  lemma MangledFluxLinear(wavelength: seq<real>, flux: seq<real>, spline: CubicSplineEval,
                          x: seq<real>, y: seq<real>, k: real)
    requires |wavelength| == |flux|
    ensures forall i :: 0 <= i < |flux| ==>
      MangledFlux(wavelength, flux, spline, x, y)[i] == flux[i] * spline(x, y, wavelength[i])
    ensures MangledFlux(wavelength, Scale(k, flux), spline, x, y) == Scale(k, MangledFlux(wavelength, flux, spline, x, y))
  {
    var a, b := MangledFlux(wavelength, Scale(k, flux), spline, x, y), Scale(k, MangledFlux(wavelength, flux, spline, x, y));
    forall i | 0 <= i < |a| ensures a[i] == b[i] {
      assert a[i] == (k * flux[i]) * spline(x, y, wavelength[i]);
    }
  }

  /** `fitflux - specflux`. */
  function Residuals(fitflux: seq<real>, specflux: seq<real>): (r: seq<real>)
    requires |fitflux| == |specflux|
    ensures |r| == |fitflux|
  {
    seq(|fitflux|, i requires 0 <= i < |fitflux| => fitflux[i] - specflux[i])
  }

  /** Adding each residual back to its synthetic flux gives the fitted flux. */
  lemma ResidualsInverse(fitflux: seq<real>, specflux: seq<real>)
    requires |fitflux| == |specflux|
    ensures forall i :: 0 <= i < |fitflux| ==> Residuals(fitflux, specflux)[i] + specflux[i] == fitflux[i]
    ensures Residuals(fitflux, specflux) == Scale(0.0, fitflux) <==> fitflux == specflux
  {
    var r := Residuals(fitflux, specflux);
    if r == Scale(0.0, fitflux) {
      forall i | 0 <= i < |fitflux| ensures fitflux[i] == specflux[i] {
        assert r[i] == 0.0 * fitflux[i];
      }
    }
  }

  /** Every snapshot is of a filter whose two columns agree in length. */
  predicate Sampled(curves: seq<FilterCurve>)
  {
    forall i :: 0 <= i < |curves| ==> |curves[i].wavelength| == |curves[i].throughput|
  }

  /**
   * The synthetic fluxes of filters in the states `curves`, taken in order with the
   * area correction; the first failure is the answer when one fails.
   */
  function SyntheticFluxList(curves: seq<FilterCurve>, specLoaded: bool, sw: seq<real>, sf: seq<real>,
                             fit: SplineFit, simps: Integrator): (r: Result<seq<real>, FluxError>)
    requires Sampled(curves) && |sw| == |sf|
    ensures r.Success? ==> |r.value| == |curves|
    decreases |curves|
  {
    if curves == [] then Success([])
    else
      var init :- SyntheticFluxList(curves[..|curves| - 1], specLoaded, sw, sf, fit, simps);
      var last :- FluxOf(curves[|curves| - 1], specLoaded, sw, sf, true, fit, simps);
      Success(init + [last])
  }

  /** The value list of a sequence of results, or the first failure among them. */
  function AllValues<T, E>(rs: seq<Result<T, E>>): (r: Result<seq<T>, E>)
    ensures r.Success? ==> |r.value| == |rs|
    decreases |rs|
  {
    if rs == [] then Success([])
    else
      var init :- AllValues(rs[..|rs| - 1]);
      var last :- rs[|rs| - 1];
      Success(init + [last])
  }

  /** The value list exists exactly when every result is a success, and lists their values. */
  lemma {:induction false} AllValuesShape<T, E>(rs: seq<Result<T, E>>)
    ensures AllValues(rs).Success? <==> forall k :: 0 <= k < |rs| ==> rs[k].Success?
    ensures AllValues(rs).Success? ==> forall k :: 0 <= k < |rs| ==> AllValues(rs).value[k] == rs[k].value
    decreases |rs|
  {
    if rs != [] {
      var n := |rs| - 1;
      var init := rs[..n];
      AllValuesShape(init);
      assert forall k :: 0 <= k < n ==> init[k] == rs[k];
    }
  }

  /** The index of the first failure, or the length when every result is a success. */
  function FirstFailure<T, E>(rs: seq<Result<T, E>>): (n: nat)
    ensures n <= |rs|
    ensures forall k :: 0 <= k < n ==> rs[k].Success?
    ensures n < |rs| ==> rs[n].Failure?
    decreases |rs|
  {
    if rs == [] then 0
    else
      var m := |rs| - 1;
      var init := FirstFailure(rs[..m]);
      assert forall k :: 0 <= k < m ==> rs[..m][k] == rs[k];
      if init < m then init else if rs[m].Failure? then m else |rs|
  }

  /** The value list fails exactly at the first failing result, with its error. */
  lemma AllValuesFirstFailure<T, E>(rs: seq<Result<T, E>>)
    ensures AllValues(rs).Success? <==> FirstFailure(rs) == |rs|
    ensures AllValues(rs).Failure? ==> AllValues(rs).error == rs[FirstFailure(rs)].error
    decreases |rs|
  {
    if rs != [] {
      var m := |rs| - 1;
      AllValuesFirstFailure(rs[..m]);
      assert forall k :: 0 <= k < m ==> rs[..m][k] == rs[k];
    }
  }

  /** The flux of every filter, in order, each on its own. */
  function FluxResults(curves: seq<FilterCurve>, specLoaded: bool, sw: seq<real>, sf: seq<real>,
                       fit: SplineFit, simps: Integrator): (r: seq<Result<real, FluxError>>)
    requires Sampled(curves) && |sw| == |sf|
    ensures |r| == |curves|
    ensures forall k :: 0 <= k < |curves| ==> r[k] == FluxOf(curves[k], specLoaded, sw, sf, true, fit, simps)
  {
    seq(|curves|, k requires 0 <= k < |curves| => FluxOf(curves[k], specLoaded, sw, sf, true, fit, simps))
  }

  /** The list is the value list of the individual fluxes. */
  lemma {:induction false} SyntheticFluxListAll(curves: seq<FilterCurve>, specLoaded: bool, sw: seq<real>, sf: seq<real>,
                                                fit: SplineFit, simps: Integrator)
    requires Sampled(curves) && |sw| == |sf|
    ensures SyntheticFluxList(curves, specLoaded, sw, sf, fit, simps) == AllValues(FluxResults(curves, specLoaded, sw, sf, fit, simps))
    decreases |curves|
  {
    if curves != [] {
      var n := |curves| - 1;
      SyntheticFluxListAll(curves[..n], specLoaded, sw, sf, fit, simps);
      var rs := FluxResults(curves, specLoaded, sw, sf, fit, simps);
      assert FluxResults(curves[..n], specLoaded, sw, sf, fit, simps) == rs[..n];
    }
  }

  /**
   * The list succeeds exactly when every filter's flux does, and then holds those
   * fluxes in filter order.
   */
  lemma SyntheticFluxListShape(curves: seq<FilterCurve>, specLoaded: bool, sw: seq<real>, sf: seq<real>,
                               fit: SplineFit, simps: Integrator)
    requires Sampled(curves) && |sw| == |sf|
    ensures SyntheticFluxList(curves, specLoaded, sw, sf, fit, simps).Success? <==>
      forall k :: 0 <= k < |curves| ==> FluxOf(curves[k], specLoaded, sw, sf, true, fit, simps).Success?
    ensures SyntheticFluxList(curves, specLoaded, sw, sf, fit, simps).Success? ==>
      forall k :: 0 <= k < |curves| ==>
        SyntheticFluxList(curves, specLoaded, sw, sf, fit, simps).value[k] == FluxOf(curves[k], specLoaded, sw, sf, true, fit, simps).value
  {
    SyntheticFluxListAll(curves, specLoaded, sw, sf, fit, simps);
    AllValuesShape(FluxResults(curves, specLoaded, sw, sf, fit, simps));
  }

  /** The filters once the first n of them have been through `calc_spectrum_filter_flux`. */
  function Staged(curves: seq<FilterCurve>, n: nat, specLoaded: bool, sw: seq<real>,
                  fit: SplineFit, simps: Integrator): (r: seq<FilterCurve>)
    requires Sampled(curves)
    ensures |r| == |curves| && Sampled(r)
    ensures forall k :: 0 <= k < |curves| ==> r[k] == if k < n then FluxState(curves[k], specLoaded, sw, fit, simps) else curves[k]
  {
    seq(|curves|, k requires 0 <= k < |curves| => if k < n then FluxState(curves[k], specLoaded, sw, fit, simps) else curves[k])
  }

  /** Moving the next filter through the pipeline advances the stage by one. */
  lemma StagedStep(curves: seq<FilterCurve>, i: nat, specLoaded: bool, sw: seq<real>, fit: SplineFit, simps: Integrator)
    requires Sampled(curves) && i < |curves|
    ensures Staged(curves, i, specLoaded, sw, fit, simps)[i] == curves[i]
    ensures Staged(curves, i, specLoaded, sw, fit, simps)[i := FluxState(curves[i], specLoaded, sw, fit, simps)]
         == Staged(curves, i + 1, specLoaded, sw, fit, simps)
  {
  }

  /**
   * The filters after the list comprehension of `manglemin`: every filter up to and
   * including the first whose flux fails has been through `calc_spectrum_filter_flux`,
   * and the rest are as they were.
   */
  function StatesAfter(curves: seq<FilterCurve>, specLoaded: bool, sw: seq<real>, sf: seq<real>,
                       fit: SplineFit, simps: Integrator): (r: seq<FilterCurve>)
    requires Sampled(curves) && |sw| == |sf|
    ensures |r| == |curves| && Sampled(r)
  {
    var n := FirstFailure(FluxResults(curves, specLoaded, sw, sf, fit, simps));
    Staged(curves, if n < |curves| then n + 1 else n, specLoaded, sw, fit, simps)
  }

  /**
   * When the list succeeds every filter has been through the pipeline; when it fails,
   * exactly the filters up to the one whose flux gives the failure have.
   */
  lemma StatesAfterShape(curves: seq<FilterCurve>, specLoaded: bool, sw: seq<real>, sf: seq<real>,
                         fit: SplineFit, simps: Integrator)
    requires Sampled(curves) && |sw| == |sf|
    ensures var list, r := SyntheticFluxList(curves, specLoaded, sw, sf, fit, simps), StatesAfter(curves, specLoaded, sw, sf, fit, simps);
      && (list.Success? ==> forall k :: 0 <= k < |curves| ==> r[k] == FluxState(curves[k], specLoaded, sw, fit, simps))
      && (list.Failure? ==> exists i :: (0 <= i < |curves|
            && FluxOf(curves[i], specLoaded, sw, sf, true, fit, simps) == Failure(list.error)
            && (forall k :: 0 <= k < i ==> FluxOf(curves[k], specLoaded, sw, sf, true, fit, simps).Success?)
            && (forall k :: 0 <= k <= i ==> r[k] == FluxState(curves[k], specLoaded, sw, fit, simps))
            && (forall k :: i < k < |curves| ==> r[k] == curves[k])))
  {
    var rs := FluxResults(curves, specLoaded, sw, sf, fit, simps);
    SyntheticFluxListAll(curves, specLoaded, sw, sf, fit, simps);
    AllValuesFirstFailure(rs);
    var n := FirstFailure(rs);
    if n < |curves| {
      assert rs[n] == FluxOf(curves[n], specLoaded, sw, sf, true, fit, simps);
      assert forall k :: 0 <= k < n ==> rs[k] == FluxOf(curves[k], specLoaded, sw, sf, true, fit, simps);
    }
  }

  /** When the list succeeds, every filter has been through the pipeline. */
  lemma StatesAfterSuccess(curves: seq<FilterCurve>, specLoaded: bool, sw: seq<real>, sf: seq<real>,
                           fit: SplineFit, simps: Integrator)
    requires Sampled(curves) && |sw| == |sf|
    requires SyntheticFluxList(curves, specLoaded, sw, sf, fit, simps).Success?
    ensures forall k :: 0 <= k < |curves| ==>
      StatesAfter(curves, specLoaded, sw, sf, fit, simps)[k] == FluxState(curves[k], specLoaded, sw, fit, simps)
    ensures StatesAfter(curves, specLoaded, sw, sf, fit, simps) == Staged(curves, |curves|, specLoaded, sw, fit, simps)
  {
    StatesAfterShape(curves, specLoaded, sw, sf, fit, simps);
    SyntheticFluxListAll(curves, specLoaded, sw, sf, fit, simps);
    AllValuesFirstFailure(FluxResults(curves, specLoaded, sw, sf, fit, simps));
  }

  /**
   * When the first i fluxes succeed and the next one fails, the filters up to i have
   * been through the pipeline and the rest are as they were.
   */
  lemma StatesAfterFailure(curves: seq<FilterCurve>, i: nat, fluxes: seq<real>, specLoaded: bool, sw: seq<real>, sf: seq<real>,
                           fit: SplineFit, simps: Integrator)
    requires Sampled(curves) && |sw| == |sf| && i < |curves|
    requires SyntheticFluxList(curves[..i], specLoaded, sw, sf, fit, simps) == Success(fluxes)
    requires FluxOf(curves[i], specLoaded, sw, sf, true, fit, simps).Failure?
    ensures forall k :: 0 <= k <= i ==>
      StatesAfter(curves, specLoaded, sw, sf, fit, simps)[k] == FluxState(curves[k], specLoaded, sw, fit, simps)
    ensures forall k :: i < k < |curves| ==> StatesAfter(curves, specLoaded, sw, sf, fit, simps)[k] == curves[k]
    ensures StatesAfter(curves, specLoaded, sw, sf, fit, simps) == Staged(curves, i + 1, specLoaded, sw, fit, simps)
  {
    var rs := FluxResults(curves, specLoaded, sw, sf, fit, simps);
    SyntheticFluxListShape(curves[..i], specLoaded, sw, sf, fit, simps);
    assert forall k :: 0 <= k < i ==> curves[..i][k] == curves[k];
    assert forall k :: 0 <= k < i ==> rs[k].Success?;
    assert rs[i].Failure?;
  }

  /**
   * The list comprehension of `manglemin`: `calc_spectrum_filter_flux` with the area
   * correction for each filter in turn, against the same spectrum. The filters are
   * distinct objects, so each is still in the state `curves` records when its turn comes.
   */
  method SyntheticFluxes(filters: seq<FilterClass>, s: SpectrumClass, ghost curves: seq<FilterCurve>,
                         fit: SplineFit, simps: Integrator)
    returns (r: Result<seq<real>, FluxError>)
    requires s.Valid() && Sampled(curves)
    requires |curves| == |filters|
    requires forall i :: 0 <= i < |filters| ==> filters[i].Valid() && CurveOf(filters[i]) == curves[i]
    requires forall i, j :: 0 <= i < j < |filters| ==> filters[i] != filters[j]
    modifies Objects(filters)`wavelength, Objects(filters)`throughput, Objects(filters)`wavelengthOrig,
             Objects(filters)`throughputOrig, Objects(filters)`effectiveArea
    ensures unchanged(s) && s.Valid()
    ensures r == SyntheticFluxList(curves, s.hasData, s.wavelength, s.flux, fit, simps)
    ensures forall k :: 0 <= k < |filters| ==>
      filters[k].Valid() && CurveOf(filters[k]) == StatesAfter(curves, s.hasData, s.wavelength, s.flux, fit, simps)[k]
  {
    var sl, sw, sf := s.hasData, s.wavelength, s.flux;
    var fluxes: seq<real> := [];
    var i := 0;
    while i < |filters|
      invariant 0 <= i <= |filters|
      invariant SyntheticFluxList(curves[..i], sl, sw, sf, fit, simps) == Success(fluxes)
      invariant forall j :: 0 <= j < |filters| ==> CurveOf(filters[j]) == Staged(curves, i, sl, sw, fit, simps)[j]
    {
      var v := FluxStep(filters, i, s, curves, fit, simps);
      if v.Failure? {
        ListStepFails(curves, i, fluxes, sl, sw, sf, fit, simps);
        StatesAfterFailure(curves, i, fluxes, sl, sw, sf, fit, simps);
        return Failure(v.error);
      }
      ListStep(curves, i, fluxes, v.value, sl, sw, sf, fit, simps);
      fluxes := fluxes + [v.value];
      i := i + 1;
    }
    assert curves[..|curves|] == curves;
    StatesAfterSuccess(curves, sl, sw, sf, fit, simps);
    r := Success(fluxes);
  }

  /**
   * `calc_spectrum_filter_flux` on the i-th of several distinct filters, once the
   * filters before it have had their turn; the others are untouched.
   */
  method FluxStep(filters: seq<FilterClass>, i: nat, s: SpectrumClass, ghost curves: seq<FilterCurve>,
                  fit: SplineFit, simps: Integrator)
    returns (v: Result<real, FluxError>)
    requires s.Valid() && i < |filters| == |curves| && Sampled(curves)
    requires forall j :: 0 <= j < |filters| ==> CurveOf(filters[j]) == Staged(curves, i, s.hasData, s.wavelength, fit, simps)[j]
    requires forall j, k :: 0 <= j < k < |filters| ==> filters[j] != filters[k]
    modifies {filters[i]}`wavelength, {filters[i]}`throughput, {filters[i]}`wavelengthOrig,
             {filters[i]}`throughputOrig, {filters[i]}`effectiveArea
    ensures unchanged(s)
    ensures v == FluxOf(curves[i], s.hasData, s.wavelength, s.flux, true, fit, simps)
    ensures forall j :: 0 <= j < |filters| ==> CurveOf(filters[j]) == Staged(curves, i + 1, s.hasData, s.wavelength, fit, simps)[j]
  {
    StagedStep(curves, i, s.hasData, s.wavelength, fit, simps);
    var f := filters[i];
    assert forall j :: 0 <= j < |filters| && j != i ==> filters[j] != f;
    v := CalcSpectrumFilterFlux(f, s, true, fit, simps);
  }

  /** A filter whose flux succeeds extends the list by that flux. */
  lemma ListStep(curves: seq<FilterCurve>, i: nat, fluxes: seq<real>, flux: real, specLoaded: bool, sw: seq<real>, sf: seq<real>,
                 fit: SplineFit, simps: Integrator)
    requires Sampled(curves) && |sw| == |sf| && i < |curves|
    requires SyntheticFluxList(curves[..i], specLoaded, sw, sf, fit, simps) == Success(fluxes)
    requires FluxOf(curves[i], specLoaded, sw, sf, true, fit, simps) == Success(flux)
    ensures SyntheticFluxList(curves[..i + 1], specLoaded, sw, sf, fit, simps) == Success(fluxes + [flux])
  {
    assert curves[..i + 1][..i] == curves[..i];
  }

  /** The first filter whose flux fails decides the answer for the whole list. */
  lemma ListStepFails(curves: seq<FilterCurve>, i: nat, fluxes: seq<real>, specLoaded: bool, sw: seq<real>, sf: seq<real>,
                      fit: SplineFit, simps: Integrator)
    requires Sampled(curves) && |sw| == |sf| && i < |curves|
    requires SyntheticFluxList(curves[..i], specLoaded, sw, sf, fit, simps) == Success(fluxes)
    requires FluxOf(curves[i], specLoaded, sw, sf, true, fit, simps).Failure?
    ensures SyntheticFluxList(curves, specLoaded, sw, sf, fit, simps)
         == Failure(FluxOf(curves[i], specLoaded, sw, sf, true, fit, simps).error)
  {
    assert curves[..i + 1][..i] == curves[..i];
    PrefixFails(curves, i + 1, specLoaded, sw, sf, fit, simps);
  }

  /** A failure among the first n filters is the failure of the whole list. */
  lemma {:induction false} PrefixFails(curves: seq<FilterCurve>, n: nat, specLoaded: bool, sw: seq<real>, sf: seq<real>,
                                       fit: SplineFit, simps: Integrator)
    requires Sampled(curves) && |sw| == |sf| && n <= |curves|
    requires SyntheticFluxList(curves[..n], specLoaded, sw, sf, fit, simps).Failure?
    ensures SyntheticFluxList(curves, specLoaded, sw, sf, fit, simps) == SyntheticFluxList(curves[..n], specLoaded, sw, sf, fit, simps)
    decreases |curves| - n
  {
    if n < |curves| {
      assert curves[..n + 1][..n] == curves[..n];
      PrefixFails(curves, n + 1, specLoaded, sw, sf, fit, simps);
    } else {
      assert curves[..n] == curves;
    }
  }

  /** What `manglemin` returns once the spline and the copied spectrum are in place. */
  function MangleResiduals(fitflux: seq<real>, fluxes: Result<seq<real>, FluxError>): (r: Result<seq<real>, MangleError>)
    requires fluxes.Success? ==> |fluxes.value| == |fitflux|
    ensures fluxes.Failure? ==> r == Failure(FluxFailed(fluxes.error))
    ensures fluxes.Success? ==> r.Success? && |r.value| == |fitflux|
    ensures fluxes.Success? ==> forall k :: 0 <= k < |fitflux| ==> r.value[k] + fluxes.value[k] == fitflux[k]
  {
    if fluxes.Failure? then Failure(FluxFailed(fluxes.error))
    else
      ResidualsInverse(fitflux, fluxes.value);
      Success(Residuals(fitflux, fluxes.value))
  }

  /**
   * `manglemin(params, SpectrumObject, data_table)`. The spectrum itself is never
   * touched: a deep copy is mangled. Each masked filter, in the state `curves` records,
   * is passed through `calc_spectrum_filter_flux` (with the area correction), which
   * may resample it.
   */
  method Manglemin(params: OrderedDict<real>, spectrum: SpectrumClass, rows: seq<MangleRow>,
                   spline: CubicSplineEval, fit: SplineFit, simps: Integrator)
    returns (r: Result<seq<real>, MangleError>, ghost curves: seq<FilterCurve>)
    requires params.Valid() && spectrum.Valid()
    requires forall i :: 0 <= i < |MaskedFilterList(rows)| ==> MaskedFilterList(rows)[i].Valid()
    requires forall i, j :: 0 <= i < j < |MaskedFilterList(rows)| ==> MaskedFilterList(rows)[i] != MaskedFilterList(rows)[j]
    modifies Objects(MaskedFilterList(rows))`wavelength, Objects(MaskedFilterList(rows))`throughput,
             Objects(MaskedFilterList(rows))`wavelengthOrig, Objects(MaskedFilterList(rows))`throughputOrig,
             Objects(MaskedFilterList(rows))`effectiveArea
    ensures unchanged(spectrum) && spectrum.Valid()
    ensures |curves| == |Masked(rows)| && Sampled(curves)
    ensures forall k :: 0 <= k < |curves| ==> curves[k] == old(CurveOf(MaskedFilterList(rows)[k]))
    ensures var check := CheckSplineInput(LambdaEffColumn(rows), Weights(ParamList(params)));
      && (check.Fail? ==> r == Failure(SplineFailed(check.error)))
      && (check.Pass? && !spectrum.hasData ==> r == Failure(SpectrumMissing))
      && (check.Pass? && spectrum.hasData ==>
            var mangled := MangledFlux(spectrum.wavelength, spectrum.flux, spline, LambdaEffColumn(rows), Weights(ParamList(params)));
            r == MangleResiduals(FitFluxColumn(Masked(rows)),
                                 SyntheticFluxList(curves, true, spectrum.wavelength, mangled, fit, simps)))
    ensures var check := CheckSplineInput(LambdaEffColumn(rows), Weights(ParamList(params)));
      && (check.Fail? || !spectrum.hasData ==>
            forall k :: 0 <= k < |curves| ==> CurveOf(MaskedFilterList(rows)[k]) == curves[k])
      && (check.Pass? && spectrum.hasData ==>
            var mangled := MangledFlux(spectrum.wavelength, spectrum.flux, spline, LambdaEffColumn(rows), Weights(ParamList(params)));
            forall k :: 0 <= k < |curves| ==>
              CurveOf(MaskedFilterList(rows)[k]) == StatesAfter(curves, true, spectrum.wavelength, mangled, fit, simps)[k])
  {
    var fs := MaskedFilterList(rows);
    curves := CurvesOf(fs);
    var copy := new SpectrumClass.Copy(spectrum);
    var weights := Weights(ParamList(params));
    var x := LambdaEffColumn(rows);
    var check := CheckSplineInput(x, weights);
    if check.Fail? {
      return Failure(SplineFailed(check.error)), curves;
    }
    if !copy.hasData {
      return Failure(SpectrumMissing), curves;
    }
    var mangled := MangledFlux(copy.wavelength, copy.flux, spline, x, weights);
    var specflux := CopyFluxes(fs, copy, mangled, curves, fit, simps);
    r := MangleResiduals(FitFluxColumn(Masked(rows)), specflux);
  }

  /**
   * `MangledSpectrumObject.flux = mangled_spec_flux`, then the mangled copy measured
   * through every filter in turn.
   */
  method CopyFluxes(filters: seq<FilterClass>, copy: SpectrumClass, mangled: seq<real>,
                    ghost curves: seq<FilterCurve>, fit: SplineFit, simps: Integrator)
    returns (r: Result<seq<real>, FluxError>)
    requires copy.Valid() && |mangled| == |copy.wavelength| && Sampled(curves)
    requires |curves| == |filters|
    requires forall i :: 0 <= i < |filters| ==> filters[i].Valid() && CurveOf(filters[i]) == curves[i]
    requires forall i, j :: 0 <= i < j < |filters| ==> filters[i] != filters[j]
    modifies copy`flux
    modifies Objects(filters)`wavelength, Objects(filters)`throughput, Objects(filters)`wavelengthOrig,
             Objects(filters)`throughputOrig, Objects(filters)`effectiveArea
    ensures copy.flux == mangled && copy.Valid()
    ensures r == SyntheticFluxList(curves, copy.hasData, copy.wavelength, mangled, fit, simps)
    ensures forall k :: 0 <= k < |filters| ==>
      CurveOf(filters[k]) == StatesAfter(curves, copy.hasData, copy.wavelength, mangled, fit, simps)[k]
  {
    copy.flux := mangled;
    r := SyntheticFluxes(filters, copy, curves, fit, simps);
  }

  /**
   * On success the residual has one entry per masked row, entry k being that row's
   * fitted flux minus the synthetic flux of its filter through the mangled copy.
   */
  lemma ResidualEntries(fitflux: seq<real>, curves: seq<FilterCurve>, sw: seq<real>, sf: seq<real>,
                        fit: SplineFit, simps: Integrator)
    requires Sampled(curves) && |sw| == |sf| && |fitflux| == |curves|
    requires MangleResiduals(fitflux, SyntheticFluxList(curves, true, sw, sf, fit, simps)).Success?
    ensures var r := MangleResiduals(fitflux, SyntheticFluxList(curves, true, sw, sf, fit, simps)).value;
      && |r| == |curves|
      && forall k :: 0 <= k < |curves| ==>
           FluxOf(curves[k], true, sw, sf, true, fit, simps).Success? &&
           r[k] == fitflux[k] - FluxOf(curves[k], true, sw, sf, true, fit, simps).value
  {
    SyntheticFluxListShape(curves, true, sw, sf, fit, simps);
  }
}
