/**
 * `SNClass` of pycoco/__init__.py as far as `check_overlaps` needs it: the photometry
 * container and the spectra, an `OrderedDict` of `SpectrumClass` objects.
 */
module Supernova {
  import opened Outcomes
  import opened OrderedDicts
  import opened Filters
  import opened Spectra
  import opened LightCurves

  /**
   * The names, in key order, of the filters whose edges lie inside spectrum `s`:
   * what `check_overlaps` appends to that spectrum's overlap list.
   */
  function OverlapNames(keys: seq<string>, filters: map<string, FilterClass>, s: SpectrumClass): (r: seq<string>)
    requires forall k :: k in keys ==> k in filters
    reads filters.Values`lowerEdge, filters.Values`upperEdge, s`hasData, s`minWavelength, s`maxWavelength
    ensures |r| <= |keys|
  {
    if keys == [] then []
    else
      var init := OverlapNames(keys[..|keys| - 1], filters, s);
      var last := keys[|keys| - 1];
      if FilterWithinSpec(filters[last], s) then init + [last] else init
  }

  /** A filter is listed exactly when it is one of the keys and lies inside the spectrum. */
  lemma {:induction false} OverlapNamesMembers(keys: seq<string>, filters: map<string, FilterClass>, s: SpectrumClass)
    requires forall k :: k in keys ==> k in filters
    ensures forall k :: k in OverlapNames(keys, filters, s) <==> k in keys && FilterWithinSpec(filters[k], s)
  {
    if keys != [] {
      var init := keys[..|keys| - 1];
      OverlapNamesMembers(init, filters, s);
      assert forall k :: k in keys <==> k in init || k == keys[|keys| - 1];
    }
  }

  /** Matching a concatenation of key lists concatenates the matches: the key order is kept. */
  lemma {:induction false} OverlapNamesConcat(a: seq<string>, b: seq<string>, filters: map<string, FilterClass>, s: SpectrumClass)
    requires forall k :: k in a + b ==> k in filters
    ensures OverlapNames(a + b, filters, s) == OverlapNames(a, filters, s) + OverlapNames(b, filters, s)
    decreases |b|
  {
    if b == [] {
      assert a + b == a;
    } else {
      var b0 := b[..|b| - 1];
      assert (a + b)[..|a + b| - 1] == a + b0;
      OverlapNamesConcat(a, b0, filters, s);
    }
  }

  /** Appending `names` one at a time through `_add_to_overlapping_filters`, in order. */
  function AppendAll(list: Option<OverlapList>, names: seq<string>): Option<OverlapList>
    decreases |names|
  {
    if names == [] then list
    else Some(AppendOverlap(AppendAll(list, names[..|names| - 1]), names[|names| - 1]))
  }

  /**
   * The names appended go to the end in order, and the list can be iterated exactly when
   * it existed before or at least two names were appended.
   */
  lemma {:induction false} AppendAllElements(list: Option<OverlapList>, names: seq<string>)
    ensures names == [] ==> AppendAll(list, names) == list
    ensures names != [] ==> AppendAll(list, names).Some? && Elements(AppendAll(list, names).value) == Held(list) + names
    ensures names != [] ==> (Iterable(AppendAll(list, names).value) <==> list.Some? || |names| >= 2)
    decreases |names|
  {
    if names != [] {
      var init, last := names[..|names| - 1], names[|names| - 1];
      var prev := AppendAll(list, init);
      AppendAllElements(list, init);
      assert AppendAll(list, names) == Some(AppendOverlap(prev, last));
      assert Held(prev) == Held(list) + init;
      assert prev.Some? <==> list.Some? || init != [];
      assert init + [last] == names;
    }
  }

  /** One more append extends the accumulated list by that name. */
  lemma AppendAllSnoc(list: Option<OverlapList>, names: seq<string>, name: string)
    ensures AppendAll(list, names + [name]) == Some(AppendOverlap(AppendAll(list, names), name))
  {
    assert (names + [name])[..|names|] == names;
  }

  class SNClass {
    var name: string
    var phot: LightCurveClass
    var spec: OrderedDict<SpectrumClass>

    /** `SNClass(snname)`: an empty photometry container and no spectra. */
    constructor(snname: string)
      ensures name == snname && fresh(phot) && phot.Valid()
      ensures phot.data.keys == [] && phot.dataFilters.keys == []
      ensures spec.Valid() && spec.keys == []
    {
      name := snname;
      phot := new LightCurveClass();
      spec := Empty();
    }

    /**
     * `check_overlaps`: for every spectrum in key order, and every filter in
     * `data_filters` order, appends the filter's name to the spectrum's overlap list
     * when `filter_within_spec` holds. Only the spectra's overlap lists change.
     */
    method CheckOverlaps()
      requires phot.Valid() && spec.Valid()
      requires forall i, j :: 0 <= i < j < |spec.keys| ==> spec.items[spec.keys[i]] != spec.items[spec.keys[j]]
      modifies spec.items.Values`overlappingFilters
      ensures forall k :: k in spec.keys ==>
        spec.items[k].overlappingFilters ==
          AppendAll(old(spec.items[k].overlappingFilters),
                    OverlapNames(phot.dataFilters.keys, phot.dataFilters.items, spec.items[k]))
    {
      var fkeys := phot.dataFilters.keys;
      var filters := phot.dataFilters.items;
      var skeys := spec.keys;
      var spectra := spec.items;
      var objs := seq(|skeys|, j requires 0 <= j < |skeys| => spectra[skeys[j]]);
      assert forall j :: 0 <= j < |skeys| ==> objs[j] in spectra.Values;
      AddAllOverlaps(objs, fkeys, filters);
      assert forall k :: k in skeys ==> exists j :: 0 <= j < |skeys| && skeys[j] == k && spectra[k] == objs[j];
    }
  }

  /** The outer loop of `check_overlaps`: every spectrum in turn against every filter. */
  method AddAllOverlaps(spectra: seq<SpectrumClass>, fkeys: seq<string>, filters: map<string, FilterClass>)
    requires forall i, j :: 0 <= i < j < |spectra| ==> spectra[i] != spectra[j]
    requires forall k :: k in fkeys ==> k in filters
    modifies Objects(spectra)`overlappingFilters
    ensures forall j :: 0 <= j < |spectra| ==>
      spectra[j].overlappingFilters == AppendAll(old(spectra[j].overlappingFilters), OverlapNames(fkeys, filters, spectra[j]))
  {
    ghost var before := seq(|spectra|, j requires 0 <= j < |spectra| reads spectra => spectra[j].overlappingFilters);
    for i := 0 to |spectra|
      invariant forall j :: 0 <= j < |spectra| ==>
        spectra[j].overlappingFilters ==
          (if j < i then AppendAll(before[j], OverlapNames(fkeys, filters, spectra[j])) else before[j])
    {
      var s := spectra[i];
      assert forall j :: 0 <= j < |spectra| && j != i ==> spectra[j] != s;
      AddOverlaps(s, fkeys, filters);
    }
  }

  /** One key of `check_overlaps`' inner loop: the key is listed exactly when its filter lies inside the spectrum. */
  lemma OverlapStep(keys: seq<string>, j: nat, filters: map<string, FilterClass>, s: SpectrumClass)
    requires j < |keys| && forall k :: k in keys ==> k in filters
    ensures OverlapNames(keys[..j + 1], filters, s) ==
      OverlapNames(keys[..j], filters, s) + (if FilterWithinSpec(filters[keys[j]], s) then [keys[j]] else [])
  {
    assert keys[..j + 1][..j] == keys[..j];
  }

  /** The inner loop of `check_overlaps`: one spectrum against every filter, in key order. */
  method AddOverlaps(s: SpectrumClass, fkeys: seq<string>, filters: map<string, FilterClass>)
    requires forall k :: k in fkeys ==> k in filters
    modifies s`overlappingFilters
    ensures s.overlappingFilters == AppendAll(old(s.overlappingFilters), OverlapNames(fkeys, filters, s))
  {
    ghost var before := s.overlappingFilters;
    ghost var added: seq<string> := [];
    for j := 0 to |fkeys|
      invariant unchanged(s`hasData, s`minWavelength, s`maxWavelength)
      invariant added == OverlapNames(fkeys[..j], filters, s)
      invariant s.overlappingFilters == AppendAll(before, added)
    {
      var fname := fkeys[j];
      OverlapStep(fkeys, j, filters, s);
      if FilterWithinSpec(filters[fname], s) {
        AppendAllSnoc(before, added, fname);
        s.AddToOverlappingFilters(fname);
        added := added + [fname];
      }
    }
    assert fkeys[..|fkeys|] == fkeys;
  }
}
