/**
 * `BaseSpectrumClass` / `SpectrumClass` of pycoco/__init__.py as far as the filter
 * bookkeeping needs them: the wavelength window applied on loading, the wavelength
 * bounds, the overlap list, and the containment test `filter_within_spec`.
 */
module Spectra {
  import opened Outcomes
  import opened RealSeq
  import opened Filters

  /** One row of a spectrum table. */
  datatype SpecRow = SpecRow(wavelength: real, flux: real)

  datatype SpectrumError =
    | EmptyWindow   // no row inside (wmin, wmax): `np.nanmin` of an empty column raises

  /** The default window of `load`, in angstrom. */
  const DefaultMinWavelength: real := 3500.0
  const DefaultMaxWavelength: real := 11000.0

  /** `table[(wavelength > wmin) & (wavelength < wmax)]`: the rows strictly inside the window. */
  function Window(rows: seq<SpecRow>, wmin: real, wmax: real): (r: seq<SpecRow>)
    ensures |r| <= |rows|
    ensures forall x :: x in r <==> x in rows && wmin < x.wavelength < wmax
  {
    if rows == [] then []
    else
      var rest := Window(rows[1..], wmin, wmax);
      if wmin < rows[0].wavelength < wmax then [rows[0]] + rest else rest
  }

  /** The window keeps the rows in their order: windowing a concatenation concatenates the windows. */
  lemma {:induction false} WindowConcat(a: seq<SpecRow>, b: seq<SpecRow>, wmin: real, wmax: real)
    ensures Window(a + b, wmin, wmax) == Window(a, wmin, wmax) + Window(b, wmin, wmax)
  {
    if a == [] {
      assert a + b == b;
    } else {
      assert (a + b)[1..] == a[1..] + b;
      WindowConcat(a[1..], b, wmin, wmax);
    }
  }

  /** Windowing twice with the same bounds changes nothing more. */
  lemma {:induction false} WindowIdempotent(rows: seq<SpecRow>, wmin: real, wmax: real)
    ensures Window(Window(rows, wmin, wmax), wmin, wmax) == Window(rows, wmin, wmax)
  {
    if rows != [] {
      WindowIdempotent(rows[1..], wmin, wmax);
      var rest := Window(rows[1..], wmin, wmax);
      if wmin < rows[0].wavelength < wmax {
        assert ([rows[0]] + rest)[1..] == rest;
      }
    }
  }

  /** Every kept wavelength lies strictly inside the window. */
  lemma WindowInside(rows: seq<SpecRow>, wmin: real, wmax: real)
    ensures var w := WavelengthColumn(Window(rows, wmin, wmax));
      forall i :: 0 <= i < |w| ==> wmin < w[i] < wmax
  {
    var kept := Window(rows, wmin, wmax);
    forall i | 0 <= i < |kept| ensures wmin < kept[i].wavelength < wmax {
      assert kept[i] in kept;
    }
  }

  /** The wavelength column. */
  function WavelengthColumn(rows: seq<SpecRow>): (r: seq<real>)
    ensures |r| == |rows|
  {
    seq(|rows|, i requires 0 <= i < |rows| => rows[i].wavelength)
  }

  /** The flux column. */
  function FluxColumn(rows: seq<SpecRow>): (r: seq<real>)
    ensures |r| == |rows|
  {
    seq(|rows|, i requires 0 <= i < |rows| => rows[i].flux)
  }

  /** `np.nanmin` of a non-empty column without NaN. */
  function MinOf(s: seq<real>): (m: real)
    requires s != []
    ensures exists i :: 0 <= i < |s| && s[i] == m
    ensures forall i :: 0 <= i < |s| ==> m <= s[i]
  {
    if |s| == 1 then s[0]
    else
      var rest := MinOf(s[1..]);
      assert forall i :: 1 <= i < |s| ==> s[i] == s[1..][i - 1];
      if s[0] <= rest then s[0] else rest
  }

  /** `np.nanmax` of a non-empty column without NaN. */
  function MaxOf(s: seq<real>): (m: real)
    requires s != []
    ensures exists i :: 0 <= i < |s| && s[i] == m
    ensures forall i :: 0 <= i < |s| ==> s[i] <= m
  {
    if |s| == 1 then s[0]
    else
      var rest := MaxOf(s[1..]);
      assert forall i :: 1 <= i < |s| ==> s[i] == s[1..][i - 1];
      if s[0] >= rest then s[0] else rest
  }

  /**
   * `_overlapping_filter_list`. The first `_add_to_overlapping_filters` stores
   * `np.array(name)`, a 0-d array holding one name; `np.append` ravels it, so from the
   * second name on the list is a 1-d array of names.
   */
  datatype OverlapList = Scalar(name: string) | Names(names: seq<string>)

  /** The names held, in order: the list raveled. */
  function Elements(l: OverlapList): seq<string>
  {
    match l
    case Scalar(n) => [n]
    case Names(ns) => ns
  }

  /** The names held by a possibly missing list; a missing list holds none. */
  function Held(list: Option<OverlapList>): seq<string>
  {
    if list.None? then [] else Elements(list.value)
  }

  /** `len()` and `for` accept the 1-d form only; the 0-d one-name array raises TypeError. */
  predicate Iterable(l: OverlapList)
  {
    l.Names?
  }

  /**
   * `_add_to_overlapping_filters`: the name goes to the end of the names held, and the
   * result can be iterated exactly when there was a list before.
   */
  function AppendOverlap(list: Option<OverlapList>, name: string): (r: OverlapList)
    ensures Elements(r) == Held(list) + [name]
    ensures Iterable(r) <==> list.Some?
  {
    match list
    case None => Scalar(name)
    case Some(l) => Names(Elements(l) + [name])
  }

  class SpectrumClass {
    var hasData: bool
    var data: seq<SpecRow>
    var wavelength: seq<real>
    var flux: seq<real>
    var minWavelength: real
    var maxWavelength: real
    var overlappingFilters: Option<OverlapList>

    /**
     * Flux and wavelength are sampled on the same points; once data is loaded the
     * wavelength column is non-empty and the bounds are its extremes.
     */
    ghost predicate Valid()
      reads this
    {
      && |wavelength| == |flux|
      && (hasData ==>
            && wavelength != []
            && minWavelength == MinOf(wavelength) && maxWavelength == MaxOf(wavelength))
    }

    /** `SpectrumClass()`: no data, no overlap list. */
    constructor()
      ensures Valid() && !hasData && overlappingFilters.None?
    {
      hasData := false;
      data, wavelength, flux := [], [], [];
      minWavelength, maxWavelength := 0.0, 0.0;
      overlappingFilters := None;
    }

    /** `copy.deepcopy`: a new object holding the same values. */
    constructor Copy(other: SpectrumClass)
      requires other.Valid()
      ensures Valid()
      ensures hasData == other.hasData && data == other.data
      ensures wavelength == other.wavelength && flux == other.flux
      ensures minWavelength == other.minWavelength && maxWavelength == other.maxWavelength
      ensures overlappingFilters == other.overlappingFilters
    {
      hasData := other.hasData;
      data := other.data;
      wavelength, flux := other.wavelength, other.flux;
      minWavelength, maxWavelength := other.minWavelength, other.maxWavelength;
      overlappingFilters := other.overlappingFilters;
    }

    /**
     * `load(..., wmin, wmax)` given the table read from the file, or `None` when the
     * path is not a file (a warning only). Keeps the rows strictly inside the window,
     * in their order, and records the extremes of the kept wavelengths.
     */
    method Load(table: Option<seq<SpecRow>>, wmin: real, wmax: real) returns (r: Outcome<SpectrumError>)
      requires Valid()
      modifies this`hasData, this`data, this`wavelength, this`flux, this`minWavelength, this`maxWavelength
      ensures Valid()
      ensures table.None? ==> r == Pass && unchanged(this)
      ensures table.Some? && Window(table.value, wmin, wmax) == [] ==> r == Fail(EmptyWindow) && unchanged(this)
      ensures table.Some? && Window(table.value, wmin, wmax) != [] ==>
        && r == Pass && hasData
        && data == Window(table.value, wmin, wmax)
        && wavelength == WavelengthColumn(data) && flux == FluxColumn(data)
      ensures table.Some? && r == Pass ==>
        forall i :: 0 <= i < |wavelength| ==> wmin < wavelength[i] < wmax
    {
      if table.None? {
        return Pass;
      }
      var kept := Window(table.value, wmin, wmax);
      if kept == [] {
        return Fail(EmptyWindow);
      }
      var w := WavelengthColumn(kept);
      minWavelength := MinOf(w);
      maxWavelength := MaxOf(w);
      data := kept;
      wavelength := w;
      flux := FluxColumn(kept);
      hasData := true;
      WindowInside(table.value, wmin, wmax);
      r := Pass;
    }

    /** `_add_to_overlapping_filters(name)`: `name` goes to the end of the overlap list. */
    method AddToOverlappingFilters(name: string)
      modifies this`overlappingFilters
      ensures overlappingFilters == Some(AppendOverlap(old(overlappingFilters), name))
    {
      overlappingFilters := Some(AppendOverlap(overlappingFilters, name));
    }
  }

  /**
   * `filter_within_spec`: the filter's edges lie strictly inside the spectrum's
   * wavelength bounds; false when either edge or the spectrum's data is missing.
   */
  predicate FilterWithinSpec(f: FilterClass, s: SpectrumClass)
    reads f`lowerEdge, f`upperEdge, s`hasData, s`minWavelength, s`maxWavelength
    ensures f.lowerEdge.None? || f.upperEdge.None? || !s.hasData ==> !FilterWithinSpec(f, s)
  {
    && f.lowerEdge.Some? && f.upperEdge.Some? && s.hasData
    && f.lowerEdge.value > s.minWavelength
    && f.upperEdge.value < s.maxWavelength
  }

  /**
   * The containment test holds exactly when both edges and the data exist, some
   * spectrum sample lies below the lower edge, and some sample lies above the upper edge.
   */
  lemma FilterWithinSpecSamples(f: FilterClass, s: SpectrumClass)
    requires s.Valid()
    ensures FilterWithinSpec(f, s) <==>
      && f.lowerEdge.Some? && f.upperEdge.Some? && s.hasData
      && (exists i :: 0 <= i < |s.wavelength| && s.wavelength[i] < f.lowerEdge.value)
      && (exists j :: 0 <= j < |s.wavelength| && s.wavelength[j] > f.upperEdge.value)
  {
    if f.lowerEdge.Some? && f.upperEdge.Some? && s.hasData {
      var lower, upper := f.lowerEdge.value, f.upperEdge.value;
      if exists i :: 0 <= i < |s.wavelength| && s.wavelength[i] < lower {
        var i :| 0 <= i < |s.wavelength| && s.wavelength[i] < lower;
        assert s.minWavelength <= s.wavelength[i];
      }
      if exists j :: 0 <= j < |s.wavelength| && s.wavelength[j] > upper {
        var j :| 0 <= j < |s.wavelength| && s.wavelength[j] > upper;
        assert s.wavelength[j] <= s.maxWavelength;
      }
    }
  }
}
