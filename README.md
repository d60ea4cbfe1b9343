# pycoco filter bookkeeping and synthetic-photometry plumbing, in Dafny

This project models the exact, non-numerical layer of pycoco, a toolkit for building
supernova spectral templates from photometry and spectra:

- `FilterClass` (pycoco/__init__.py). A filter response curve read from a two-column
  file. The model covers how the filter name is taken from the path, and how the
  effective wavelength is computed as the inverse interpolation at one half of the
  wavelength-weighted cumulative throughput. It covers `calculate_frequency`, both
  edge finders (the percentage-of-mass edges from `cumsum/sum`, and the index edges
  around the positive throughput), and `resample_response`. `resample_response` pads
  the curve, evaluates a spline on a new grid and clamps negative values to zero by
  index assignment on an array.
- Spectra and the supernova container (pycoco/__init__.py). The model covers the
  wavelength window of `BaseSpectrumClass.load`, the strict containment test
  `filter_within_spec`, `_add_to_overlapping_filters`, and `SNClass.check_overlaps`,
  which runs over every spectrum and every filter. It also covers `_sort_phot`, which
  rebuilds the two `OrderedDict`s of the photometry container in ascending order of
  effective wavelength.
- Names (pycoco/__init__.py). The model covers `get_filter_from_filename` and
  `find_recon_spec` on a directory listing: the `.spec` name filter, and the `False`
  an empty listing gives.
- pycoco/kcorr.py. The model covers:
  - the analytic AB pseudo-spectrum: frequency grid, then wavelength, then f_lambda;
  - `nu_to_lambda` / `lambda_to_nu`;
  - the area cache of `calc_filter_area`;
  - `calc_spectrum_filter_flux`, which resamples only when the grids differ, multiplies
    pointwise, integrates, and optionally divides by the area, and which mutates the
    filter it is given;
  - the objective `manglemin` builds for the least-squares fit: weights padded with
    1.0, a deep copy of the spectrum scaled by a spline, and residuals over the masked
    rows.

All arithmetic is exact `real`. Foreign numerical code enters as function-typed
parameters:

- `SplineFit` is `InterpolatedUnivariateSpline` evaluated at a point.
- `CubicSplineEval` is the clamped `CubicSpline`.
- `Integrator` is `simps`.

`scipy.interpolate.interp1d` (linear, no extrapolation) follows the rule of scipy's
`_call_linear` branch: a left-sided `searchsorted`, so of a run of equal x values the
first one bounds the segment. The edge and effective-wavelength lookups depend on that
rule. For one-dimensional float64 input scipy hands the same call to `np.interp`,
which differs on runs of equal x values (see "## Left out").

The source is Python 2 (`StandardError`, `dict.iteritems`). LightCurves.LightCurveClass.SortPhot
models the Python 2 meaning of `np.array(self.data_filters.keys())[...]` in `_sort_phot`,
where `keys()` is a list; under Python 3 the same expression raises IndexError.

Python attributes
that may be missing are `Option` fields or a `loaded`/`hasData` flag. Exceptions are
`Result`/`Outcome` failures. Objects that Python updates in place are classes: the
filter, spectrum, light-curve and supernova containers. Modules follow the program:

- `Interp`: interp1d.
- `FilterMath`: the array expressions of `FilterClass`.
- `Filters`: `FilterClass`.
- `Spectra`: spectra and `filter_within_spec`.
- `LightCurves`: `_sort_phot`.
- `Supernova`: `check_overlaps`.
- `FileNames` and `PyStrings`: name handling.
- `Units` and `ABSpectrum`: kcorr.py conversions and the AB spectrum.
- `SyntheticPhotometry`: the area cache and the flux pipeline.
- `Mangling`: `manglemin`.

`RealSeq`, `OrderedDicts` and `Outcomes` are helper modules.

## Model

| member | source | states |
|---|---|---|
| Interp.Interp1d | pycoco/__init__.py:2136-2139 | A query succeeds exactly when x and y agree in length, there are at least two points, x is sorted, the query lies in [x0, xn-1], and it is not on a zero-width first segment. |
| Interp.InterpBetweenKnots | pycoco/__init__.py:2136-2139 | On sorted x, a query with x[j-1] < p <= x[j] gives the value at p of the straight line through samples j-1 and j. |
| Interp.InterpAtStart | pycoco/__init__.py:2136-2139 | On sorted x with x[0] < x[1], the query x[0] gives y[0]. |
| Interp.InterpCases | pycoco/__init__.py:2136-2139 | Every successful query is x[0] or lies in some (x[j-1], x[j]], so the two lemmas above give every successful value. |
| Interp.InterpWithin | pycoco/__init__.py:2208-2211 | Interpolating into a non-decreasing y gives a value between the two y values of its segment, and so within [y0, yn-1]. |
| Interp.InterpMonotone | pycoco/__init__.py:2208-2211 | Inverse interpolation into a non-decreasing cumulative is monotone in the level. |
| Interp.InterpAtKnot | pycoco/__init__.py:2136-2139 | With strictly increasing x, the interpolant passes through every sample. |
| FilterMath.NormalisedCumulative | pycoco/__init__.py:2207 | `cumsum/sum` succeeds exactly when the sum is non-zero, and then has one entry per sample. |
| FilterMath.CumulativeFraction | pycoco/__init__.py:2207 | For non-negative throughput with a positive sum, the cumulative has the same length, never decreases, stays in [0, 1] and ends at exactly 1. |
| FilterMath.CumulativeStrict | pycoco/__init__.py:2207 | With every sample positive, the cumulative strictly increases. |
| FilterMath.CumulativeLookup | pycoco/__init__.py:2207-2211 | A failing `cumsum/sum` is passed on. A successful lookup needs at least two samples and, on a sorted grid, lies within [wavelength[0], wavelength[n-1]]. |
| FilterMath.EffectiveWavelength | pycoco/__init__.py:2136-2139 | The lookup at one half of cumsum(lambda T)/sum(lambda T). On a sorted grid it lies within the curve's wavelength range. |
| FilterMath.WeightedCumulativeBelow | pycoco/__init__.py:2136-2211 | For non-negative throughput on non-negative, sorted wavelengths, with both totals positive, the cumulative of lambda T lies at or below the cumulative of T at every sample. |
| FilterMath.LowerEdgeBelowEffective | pycoco/__init__.py:2136-2211 | For non-negative throughput on non-negative, sorted wavelengths and pc <= 100, the lower edge is at most the effective wavelength. |
| FilterMath.EffectiveAboveUpperEdge | pycoco/__init__.py:2136-2211 | Wavelengths [1, 2, 1000], throughput [0, 1, 0.02] and pc = 3 give an upper edge below the effective wavelength. |
| FilterMath.EdgesOrdered | pycoco/__init__.py:2208-2211 | For pc <= 100 on a sorted grid: wavelength[0] <= lower edge <= upper edge <= wavelength[n-1]. |
| FilterMath.EdgesDefined | pycoco/__init__.py:2207-2211 | Both edge lookups succeed for a non-negative throughput with a positive sum, pc <= 100, and a first cumulative entry below pc/2 percent. Zero-throughput wings are allowed. |
| FilterMath.FirstPositive | pycoco/__init__.py:2180-2185 | The index of the first positive sample, with nothing positive before it; None exactly when no sample is positive. |
| FilterMath.LastPositive | pycoco/__init__.py:2180-2190 | The index of the last positive sample, with nothing positive after it; None exactly when no sample is positive. |
| FilterMath.EdgeIndicesZero | pycoco/__init__.py:2180-2193 | None exactly when no throughput is positive. Otherwise lower = max(first positive - 1, 0), upper = min(last positive + 1, n - 1), and 0 <= lower <= first <= last <= upper < n. |
| FilterMath.EdgeIndicesZeroCover | pycoco/__init__.py:2180-2193 | Every sample outside the chosen index window has throughput <= 0. |
| FilterMath.PaddedCurve | pycoco/__init__.py:2308-2309 | The padded curve is the original with zero-throughput samples at 0, 1 and 24999, 25000, and both columns keep equal lengths. |
| FilterMath.SplineAcceptsIff | pycoco/__init__.py:2307-2309 | For k <= 3, `InterpolatedUnivariateSpline` takes the padded knots exactly when the wavelengths strictly increase and lie strictly between 1 and 24999. |
| FilterMath.ClampedProperties | pycoco/__init__.py:2316 | Clamping keeps the length, leaves no negative value, keeps every non-negative value, and zeroes every negative one. |
| FilterMath.ResampledProperties | pycoco/__init__.py:2304-2316 | The resampled throughput has the new grid's length and is non-negative. |
| Filters.FrequencyGrid | pycoco/__init__.py:2143-2146 | c / wavelength_u succeeds exactly when no wavelength is zero, and then each frequency times its wavelength is c. |
| Filters.FrequencyGridDecreasing | pycoco/__init__.py:2143-2146 | Positive, strictly increasing wavelengths give positive, strictly decreasing frequencies. |
| Filters.ClampNegative | pycoco/__init__.py:2316 | The in-place clamp leaves the array equal to the clamped copy of its old contents. |
| Filters.FilterClass.constructor | pycoco/__init__.py:2101-2105 | A new filter has no curve and none of the derived attributes. |
| Filters.FilterClass.CalculateEffectiveWavelength | pycoco/__init__.py:2130-2140 | Stores the lookup at one half of cumsum(lambda T)/sum(lambda T), or fails. Fails with NotLoaded when there is no curve. On a sorted grid the stored value lies within the wavelength range. |
| Filters.FilterClass.CalculateFrequency | pycoco/__init__.py:2143-2146 | Stores c / wavelength_u, or fails on a missing curve or a zero wavelength. Nothing else changes. |
| Filters.FilterClass.CalculateEdgesZero | pycoco/__init__.py:2162-2193 | The edges become the wavelengths at the window of EdgeIndicesZero. Fails with no positive throughput or no curve, leaving the edges as they were. Lower <= upper on a sorted grid. |
| Filters.FilterClass.CalculateEdges | pycoco/__init__.py:2196-2213 | Stores the cumulative, then the upper edge, then the lower edge. The first error stops the sequence and keeps the attributes already set. Passes exactly when both lookups succeed. For pc <= 100 on a sorted grid, the edges are ordered inside the range. |
| Filters.FilterClass.LoadCurve | pycoco/__init__.py:2113-2119 | The curve is the file's two columns, wavelength_u is the scaled wavelength, and the name is derived from the path. |
| Filters.FilterClass.ReadFilterFile | pycoco/__init__.py:2108-2128 | A missing file changes nothing. An empty file fails before any change. Otherwise it loads and names the filter, then computes the effective wavelength and the 3 percent edges in that order. A failing effective wavelength leaves the cumulative and both edges as they were. A failing edge lookup keeps what CalculateEdges set before it. It passes exactly when all three lookups succeed. |
| Filters.FilterClass.ResampleResponse | pycoco/__init__.py:2291-2318 | An unloaded filter fails and changes nothing. Otherwise the old arrays go to the orig attributes and the arrays are padded. If the spline refuses the padded knots, it fails with SplineRejected and the padded arrays stay. If not, the wavelength becomes the new grid and the throughput the clamped spline: same length as the grid, non-negative. It passes exactly when the spline accepts. |
| Filters.FilterClass.CalculateFilterArea | pycoco/kcorr.py:200-203 | A loaded filter stores the integral of its throughput over its wavelength; an unloaded one fails with NotLoaded and keeps its area. |
| Spectra.Window | pycoco/__init__.py:335 | Keeps exactly the rows with wmin < wavelength < wmax. |
| Spectra.WindowConcat | pycoco/__init__.py:335 | The window keeps row order: windowing a concatenation concatenates the windows. |
| Spectra.WindowIdempotent | pycoco/__init__.py:335 | Windowing twice is windowing once. |
| Spectra.WindowInside | pycoco/__init__.py:335 | Every kept wavelength lies strictly inside the window. |
| Spectra.MinOf | pycoco/__init__.py:336 | A sample of the column that no sample undercuts. |
| Spectra.MaxOf | pycoco/__init__.py:337 | A sample of the column that no sample exceeds. |
| Spectra.AppendOverlap | pycoco/__init__.py:535-540 | The name goes to the end of the names already held. The result can be iterated exactly when a list existed before: the first append stores `np.array(name)`, a 0-d array that `len()` and `for` reject. |
| Spectra.SpectrumClass.Copy | pycoco/kcorr.py:478 | The deep copy holds the same values as the original. |
| Spectra.SpectrumClass.Load | pycoco/__init__.py:280-342 | A missing file changes nothing. An empty window fails and changes nothing. Otherwise the data are the windowed rows in order, the columns are taken from them, and the bounds are their extremes (kept by Valid). |
| Spectra.SpectrumClass.AddToOverlappingFilters | pycoco/__init__.py:535-540 | The overlap list becomes AppendOverlap of the old one: the 0-d one-name array on the first call, a 1-d array from the second on. |
| Spectra.FilterWithinSpec | pycoco/__init__.py:2880-2903 | The containment test is false whenever either edge or the spectrum's data is missing. |
| Spectra.FilterWithinSpecSamples | pycoco/__init__.py:2882-2903 | The containment test holds iff both edges and the data exist, some sample lies below the lower edge and some sample lies above the upper edge. |
| Supernova.OverlapNames | pycoco/__init__.py:2086-2093 | The names check_overlaps appends for one spectrum: at most one per filter key. |
| Supernova.OverlapNamesMembers | pycoco/__init__.py:2086-2093 | A filter is listed exactly when it is a key of `data_filters` and lies inside the spectrum. |
| Supernova.OverlapNamesConcat | pycoco/__init__.py:2086-2093 | The overlap list keeps `data_filters` order. |
| Supernova.AppendAllElements | pycoco/__init__.py:535-540 | Appending names one at a time puts them at the end in order. The list can be iterated exactly when it existed before or at least two names were appended. |
| Supernova.AppendAllSnoc | pycoco/__init__.py:535-540 | One more append extends the accumulated list by that name. |
| Supernova.SNClass.constructor | pycoco/__init__.py:1528-1546 | A new supernova has an empty photometry container and no spectra. |
| Supernova.SNClass.CheckOverlaps | pycoco/__init__.py:2077-2095 | Each spectrum's overlap list gains exactly the filters within it, in `data_filters` order. |
| Supernova.AddAllOverlaps | pycoco/__init__.py:2086-2093 | The outer loop: every spectrum's list gains its overlap names. |
| Supernova.AddOverlaps | pycoco/__init__.py:2088-2093 | The inner loop: one spectrum's list gains the names of the filters inside it, in key order. |
| LightCurves.Insert | pycoco/__init__.py:616 | Insertion adds one index and keeps the others. |
| LightCurves.InsertSorted | pycoco/__init__.py:616 | Insertion keeps a sorted index list sorted. |
| LightCurves.SortIndices | pycoco/__init__.py:616 | Sorting indices keeps their set and distinctness and orders them by value. |
| LightCurves.ArgSort | pycoco/__init__.py:616 | `argsort` lists each index 0..n-1 exactly once, in ascending order of value. |
| LightCurves.PermutedKeys | pycoco/__init__.py:616 | Permuting distinct keys by a permutation gives the same keys, each once. |
| LightCurves.EffectiveWavelengths | pycoco/__init__.py:616 | The effective wavelengths in key order; None exactly when some filter lacks one. |
| LightCurves.SortedFilterKeys | pycoco/__init__.py:616 | None exactly when some filter has no effective wavelength. |
| LightCurves.SortedFilterKeysOrder | pycoco/__init__.py:616 | The new key order is the filter keys again, each once, in ascending effective wavelength. |
| LightCurves.ReorderedKeys | pycoco/__init__.py:618-623 | Filling a new dictionary with distinct keys, one by one, lists exactly those keys in that order. |
| LightCurves.ReorderedItems | pycoco/__init__.py:621-623 | Every entry of the new dictionary is the one the old dictionary has under the same key. |
| LightCurves.Rebuild | pycoco/__init__.py:618-626 | Both new dictionaries list exactly the new keys, each mapped as before. Fails exactly when some key has no photometry table. |
| LightCurves.LightCurveClass.constructor | pycoco/__init__.py:693-706 | Both dictionaries start empty. |
| LightCurves.LightCurveClass.SortPhot | pycoco/__init__.py:603-630 | On success `data_filters` follows the sorted filter keys, `data` has the same keys in the same order, and the values are unchanged. A failure changes nothing. |
| LightCurves.SortPhotOrder | pycoco/__init__.py:616-626 | After sorting, the same keys appear, each once, in ascending effective wavelength. |
| FileNames.FilterNameFromPath | pycoco/__init__.py:2117-2119 | The name is the last '/'-segment up to its first '.': it holds neither character, starts the segment, and the segment ends the path. |
| FileNames.FilterNameRoundTrip | pycoco/__init__.py:2117-2119 | The file `dir/name.ext` is named `name`. |
| FileNames.GetFilterFromFilename | pycoco/__init__.py:2396-2409 | The filter name holds no '/' and is no longer than the file name it comes from. |
| FileNames.GetFilterRoundTrip | pycoco/__init__.py:2403-2409 | The file `dir/<snname>_<filter><type>` gives back `filter` when the type ends the name only and `filter` holds no `snname_`. |
| FileNames.ReconSpecMatches | pycoco/__init__.py:2631-2636 | Keeps exactly the listed names that pass the `.spec` test. |
| FileNames.ReconSpecMatchesConcat | pycoco/__init__.py:2631-2636 | The matches keep listing order. |
| FileNames.ReconSpecTest | pycoco/__init__.py:2631-2636 | A name matches iff it ends in ".spec" and, without its last 18 characters, is the SN name. |
| FileNames.FindReconSpec | pycoco/__init__.py:2627-2651 | An empty listing gives None, the source's `False`. Otherwise the result holds exactly the listed names that pass the `.spec` test. |
| PyStrings.SplitJoin | pycoco/__init__.py:2117-2118 | Joining the pieces of `split` with the separator gives back the string. |
| PyStrings.RemoveAll | pycoco/__init__.py:2405-2406 | Deleting every occurrence gives a string no longer than the original, made of its characters. |
| PyStrings.RemoveAllIsSplitJoin | pycoco/__init__.py:2405-2409 | Deleting every occurrence is splitting on it and joining with "". |
| Units.NuToLambda | pycoco/kcorr.py:340-347 | Wavelength times frequency is c, and it is positive for a positive frequency. |
| Units.LambdaToNu | pycoco/kcorr.py:350-357 | Frequency times wavelength is c, and it is positive for a positive wavelength. |
| Units.ConversionsInverse | pycoco/kcorr.py:340-357 | The two conversions undo each other for any non-zero argument. |
| Units.ConversionAntitone | pycoco/kcorr.py:340-357 | A larger positive argument gives a smaller result. |
| ABSpectrum.Frequencies | pycoco/kcorr.py:120 | The frequency grid has 1000 samples. |
| ABSpectrum.FrequenciesPositive | pycoco/kcorr.py:120 | The frequency grid runs from exactly 2e15 down to exactly 2e13, strictly decreasing and positive. |
| ABSpectrum.Wavelengths | pycoco/kcorr.py:127 | One wavelength per frequency sample. |
| ABSpectrum.WavelengthsPositive | pycoco/kcorr.py:127 | Wavelength times frequency is c at every sample; the wavelengths are positive and strictly increasing from c/2e15 to c/2e13. |
| ABSpectrum.FluxLambda | pycoco/kcorr.py:128-129 | One f_lambda per sample. |
| ABSpectrum.FluxLambdaShape | pycoco/kcorr.py:128-129 | Every f_lambda is positive and equals f_nu_AB c / lambda^2. |
| ABSpectrum.GenerateABPseudospectrum | pycoco/kcorr.py:114-133 | The `fnu` flag selects the frequency table. Both tables have 1000 rows. The f_nu table is the frequency grid with the constant flux f_nu_AB. The wavelength table holds Wavelengths and FluxLambda. |
| SyntheticPhotometry.Transmitted | pycoco/kcorr.py:206 | The transmitted spectrum is throughput[i] * flux[i], pointwise. |
| SyntheticPhotometry.TransmittedLinear | pycoco/kcorr.py:206 | Scaling every flux value by k scales every transmitted value by k. |
| SyntheticPhotometry.OnGrid | pycoco/kcorr.py:198-202 | For a filter the spline can resample: after the first half of the pipeline the filter is on the spectrum's grid. When the grids were equal the throughput and the orig attributes are unchanged. When resampled, the throughput is non-negative and the orig attributes hold the old arrays. A cached area is present iff it was before, and is then the integral of the new throughput. |
| SyntheticPhotometry.OnGridIdempotent | pycoco/kcorr.py:198-202 | Putting a filter on a grid it is already on changes nothing more. |
| SyntheticPhotometry.FluxOf | pycoco/kcorr.py:172-212 | Fails for an unloaded filter or spectrum, with ResampleFailed when the spline refuses the filter's padded curve, and for area correction without a cached area. Succeeds exactly when both are loaded, the filter can be put on the grid and, if correcting, the area exists and is non-zero. |
| SyntheticPhotometry.FluxState | pycoco/kcorr.py:198-202 | The filter the pipeline leaves behind. It is unchanged when filter or spectrum is unloaded. It is on the spectrum's grid when the spline accepts, and otherwise holds the padded arrays. The orig attributes are set whenever the grids differed. `loaded`, the lengths and the presence of an area are kept. |
| SyntheticPhotometry.FluxValue | pycoco/kcorr.py:206-212 | The flux is the integral of throughput times flux on the spectrum's grid. When corrected, it is divided by the integral of the throughput. |
| SyntheticPhotometry.FluxIdempotent | pycoco/kcorr.py:198-212 | Unless the spline refuses the curve, running the pipeline again on the filter it leaves behind gives the same answer and leaves that filter as it is. |
| SyntheticPhotometry.FluxScales | pycoco/kcorr.py:206-212 | If the integral is linear on the transmitted spectrum, scaling the spectrum's flux by k scales the flux by k. |
| SyntheticPhotometry.CalcFilterArea | pycoco/kcorr.py:156-161 | Returns a cached area unchanged without touching the filter. Otherwise computes, caches and returns it. Fails for an unloaded filter. |
| SyntheticPhotometry.CalcSpectrumFilterFlux | pycoco/kcorr.py:198-212 | The answer is FluxOf on the filter as it was, including the ResampleFailed error. Afterwards the filter is FluxState of its old state. On success it is on the spectrum's grid. |
| Mangling.ParamList | pycoco/kcorr.py:479 | The parameter values in key order. |
| Mangling.Weights | pycoco/kcorr.py:481 | The weights have length len(params) + 2, start and end with 1.0, and hold the parameters in order in between. |
| Mangling.CheckSplineInput | pycoco/kcorr.py:484 | The spline input is accepted iff there are at least two knots, as many values as knots, and strictly increasing knots. |
| Mangling.Masked | pycoco/kcorr.py:488-489 | Keeps exactly the masked rows. |
| Mangling.MaskedConcat | pycoco/kcorr.py:488-489 | Masking keeps table order. |
| Mangling.MaskedIdempotent | pycoco/kcorr.py:488-489 | Masking twice is masking once. |
| Mangling.MangledFlux | pycoco/kcorr.py:486 | One mangled value per flux sample. |
| Mangling.MangledFluxUnit | pycoco/kcorr.py:486 | A spline equal to 1.0 on every sample leaves the flux unchanged. |
| Mangling.MangledFluxLinear | pycoco/kcorr.py:486 | The mangled flux is flux[i] * s(lambda[i]) on the same grid, and is linear in the flux. |
| Mangling.Residuals | pycoco/kcorr.py:496 | One residual per fitted flux. |
| Mangling.ResidualsInverse | pycoco/kcorr.py:496 | Each residual plus its synthetic flux is the fitted flux; all residuals are zero iff the fluxes match. |
| Mangling.AllValuesShape | pycoco/kcorr.py:488-489 | Collecting a list of per-filter answers succeeds iff every answer does, and then keeps each value at its position. |
| Mangling.FirstFailure | pycoco/kcorr.py:488-489 | The index of the first failing answer: every answer before it succeeds, and it is the length when none fails. |
| Mangling.AllValuesFirstFailure | pycoco/kcorr.py:488-489 | Collecting the answers succeeds iff there is no first failure, and otherwise fails with that answer's error. |
| Mangling.SyntheticFluxListAll | pycoco/kcorr.py:488-489 | Building the flux list filter by filter is the same as computing every filter's flux and collecting the answers. |
| Mangling.SyntheticFluxListShape | pycoco/kcorr.py:488-489 | The list succeeds iff every filter's flux does, and then holds those fluxes in filter order. |
| Mangling.SyntheticFluxes | pycoco/kcorr.py:488-489 | Calling `calc_spectrum_filter_flux` on each filter in turn gives the flux list, with the first failure as the answer. The spectrum is not changed. Afterwards every filter is the StatesAfter entry for it: moved up to and including the first failing one, untouched after it. |
| Mangling.ListStepFails | pycoco/kcorr.py:488-489 | The first filter whose flux fails decides the whole list. |
| Mangling.PrefixFails | pycoco/kcorr.py:488-489 | A failure among the first n filters is the failure of the whole list. |
| Mangling.StatesAfterShape | pycoco/kcorr.py:488-489 | After the list comprehension, when every flux succeeds every filter is FluxState of its entry state. When one fails, the filters up to the first failing one are FluxState of their entry states and the rest are as they were. |
| Mangling.StatesAfterSuccess | pycoco/kcorr.py:488-489 | When the list succeeds every filter has been through the pipeline. |
| Mangling.StatesAfterFailure | pycoco/kcorr.py:488-489 | When the first i fluxes succeed and the next fails, exactly the filters up to i have been through the pipeline. |
| Mangling.FluxStep | pycoco/kcorr.py:488-489 | One turn of the comprehension: the i-th filter's flux, with that filter moved to its FluxState and the others untouched. |
| Mangling.MangleResiduals | pycoco/kcorr.py:496 | A flux failure is passed on. Otherwise there is one residual per masked row, and each residual plus that row's synthetic flux is its fitted flux. |
| Mangling.Manglemin | pycoco/kcorr.py:475-496 | The input spectrum is unchanged. A spline input error or a spectrum without data is reported, and then no filter changes. Otherwise the result is the residuals of the masked rows against the fluxes of the mangled copy, computed on the filters as they were on entry. Every filter is then the StatesAfter entry of its entry state against the mangled copy. |
| Mangling.CopyFluxes | pycoco/kcorr.py:478-489 | The deep copy gets the mangled flux and is then measured through every filter: the flux list and the filters' states are those of the original grid with the mangled flux. |
| Mangling.ResidualEntries | pycoco/kcorr.py:488-496 | On success entry k is the k-th masked row's fitflux minus that filter's synthetic flux. |

## Left out

- Floating point. All arithmetic is exact `real`. NaN handling in `np.nanmin`/`np.nanmax` and in interp1d is not modelled.
- Interp.Interp1d: unsorted x is a `NotSorted` failure. The library would sort x first.
- Interp.Interp1d: runs of equal x values follow the `_call_linear` rule of scipy (the first of the run bounds the segment, a zero-width segment is an `Undefined` failure). For these calls scipy uses `np.interp`, which takes the last of the run and never divides by zero. Two inputs where the two differ, both with pc = 100:
  - wavelengths [1, 2, 3, 4] with throughput [1, 1, 0, 2] have cumulative [0.25, 0.5, 0.5, 1.0]; the query 0.5 gives 2.0 here and 3.0 from `np.interp`;
  - wavelengths [1, 2, 3] with throughput [1, 0, 1] have cumulative [0.5, 0.5, 1.0], a zero-width first segment at the lower-edge level; the lower-edge query is `Undefined` here and 2.0 from `np.interp`.
- FilterMath.EffectiveWavelength: the effective wavelength is not proved to lie between the two edges, because for pc < 100 it need not lie below the upper edge. FilterMath.EffectiveAboveUpperEdge proves this for wavelengths [1, 2, 1000], throughput [0, 1, 0.02] and pc = 3: the upper edge is about 236.5 and the effective wavelength about 451.1. Only the lower half, lower edge <= effective wavelength, is proved (FilterMath.LowerEdgeBelowEffective).
- FilterMath.NormalisedCumulative: a zero sum is a failure. numpy gives a NaN array and the source carries on. This affects Filters.FilterClass.CalculateEffectiveWavelength, Filters.FilterClass.CalculateEdges and Filters.FilterClass.ReadFilterFile, which stop with that failure where the source stores NaN values.
- Filters.FrequencyGrid: a zero wavelength is a failure. numpy would give an infinite frequency.
- SyntheticPhotometry.FluxOf: a zero area is a `ZeroArea` failure. numpy would give a non-finite flux.
- The spline and the integral are abstract parameters:
  - `SplineFit` is InterpolatedUnivariateSpline, whose `*args`/`**kwargs` are not modelled;
  - `CubicSplineEval` is CubicSpline with `bc_type="clamped"`;
  - `Integrator` is `simps`.
  Nothing is assumed of them beyond being functions. FluxScales takes the linearity of the integral as a hypothesis.
- Mangling.CheckSplineInput: only the three knot checks are modelled, in the order `CubicSpline` makes them. Other checks (finite values, y shape) are left out.
- Mangling.Manglemin:
  - The synthetic fluxes of several rows that share one filter object are not modelled. The masked filters are required to be distinct objects, so each is in its entry state when its turn comes.
  - The `data_table` parameter is taken as given: the keyword argument the source passes. The lmfit fitter that calls the objective is left out.
- Supernova.SNClass.CheckOverlaps and Supernova.AddAllOverlaps: the spectra are required to be distinct objects. Two keys aliasing one spectrum are not modelled.
- LightCurves.ArgSort: numpy's argsort may order ties differently. The contracts state only "sorted and a permutation", which holds for any tie order.
- Spectra.AppendOverlap: `get_simplespecphot`, which iterates `_overlapping_filter_list` (pycoco/__init__.py:2059-2061), is not part of this model. A spectrum with exactly one overlapping filter after `check_overlaps` holds the 0-d `Scalar` form; iterating it raises TypeError, so that method falls into its bare `except`.
- Units.NuToLambda and Units.LambdaToNu: a zero argument is excluded by the requires. astropy would give an infinite result.
- Units: astropy units are reduced to plain reals in angstrom and hertz, with c = 2.99792458e18 angstrom/s. `wavelength_units` enters `read_filter_file` as a scale factor to angstrom.
- `calculate_filter_area` is defined in pycoco/classes.py, which is not part of this model. Filters.FilterClass.CalculateFilterArea takes it to store the integral of the throughput over the wavelength.
- File and table I/O enters as parameters:
  - `np.loadtxt` in `read_filter_file` is an optional row list (None: the path is not a file);
  - `Table.read` in `load` is an optional table;
  - `os.listdir` in `find_recon_spec` is a list of names.
  `check_file_path`, the loading branches of `calc_filter_area`/`calc_spectrum_filter_flux` that read a filter or spectrum by name from a directory, `find_recon_spec`'s file-existence check, warnings and verbose printing are omitted.
- Spectra.SpectrumClass.Load: the unit conversions and the column renaming of `load`, and its `wavelength_u` attribute, are left out. Only the window and the bounds are modelled. An empty window is a failure because `np.nanmin` raises on it.
- `set_plot_colour` in `read_filter_file` and all plotting are left out.
- Also left out:
  - `calculate_effective_frequency`;
  - `log10` and the zero-point and magnitude functions built on it (`calc_AB_zp`, `calc_vega_zp`, `calc_vega_mag`, `calc_m_darksky`);
  - `load_vega`, `load_AB`, `load_atmosphere`, `load_dark_sky_spectrum`, `save_mangle`, `save`;
  - `find_phot`, `load_stat`, `applymangle`, `calculate_fluxes`, `colour_from_model`;
  - the `offset` table;
  - all of pycoco/utils.py.
  They are I/O, transcendental floating point, or code that refers to undefined names.
