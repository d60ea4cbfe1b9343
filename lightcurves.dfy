/**
 * The photometry container of pycoco/__init__.py (`BaseLightCurveClass` as
 * `PhotometryClass` initialises it): photometry tables and filter objects, each in an
 * `OrderedDict` keyed by filter name, and `_sort_phot`, which re-orders both by the
 * filters' effective wavelengths.
 */
module LightCurves {
  import opened Outcomes
  import opened OrderedDicts
  import opened Filters

  /** One photometric observation. */
  datatype PhotRow = PhotRow(mjd: real, flux: real, fluxErr: real, filter: string)

  type PhotTable = seq<PhotRow>

  datatype LightCurveError =
    | NoEffectiveWavelength   // a filter without `lambda_effective`
    | MissingPhotometry       // a filter key with no table in `data`

  /** Every index is below n. */
  predicate InRange(idx: seq<nat>, n: nat)
  {
    forall i :: 0 <= i < |idx| ==> idx[i] < n
  }

  /** The indices list `vals` in ascending order. */
  predicate SortedBy(vals: seq<real>, idx: seq<nat>)
    requires InRange(idx, |vals|)
  {
    forall i, j :: 0 <= i <= j < |idx| ==> vals[idx[i]] <= vals[idx[j]]
  }

  /** Inserts index x into a list of indices sorted by `vals`, before the first larger value. */
  function Insert(vals: seq<real>, x: nat, s: seq<nat>): (r: seq<nat>)
    requires x < |vals| && InRange(s, |vals|)
    ensures |r| == |s| + 1 && InRange(r, |vals|)
    ensures forall y :: y in r <==> y == x || y in s
  {
    if s == [] then [x]
    else if vals[x] <= vals[s[0]] then [x] + s
    else [s[0]] + Insert(vals, x, s[1..])
  }

  /** Inserting a new index into distinct indices keeps them distinct. */
  lemma {:induction false} InsertDistinct(vals: seq<real>, x: nat, s: seq<nat>)
    requires x < |vals| && InRange(s, |vals|)
    ensures Distinct(s) && x !in s ==> Distinct(Insert(vals, x, s))
  {
    if Distinct(s) && x !in s && s != [] && vals[x] > vals[s[0]] {
      InsertDistinct(vals, x, s[1..]);
      var rest := Insert(vals, x, s[1..]);
      assert s[0] !in rest;
      assert Insert(vals, x, s) == [s[0]] + rest;
    }
  }

  /** Insertion keeps a sorted list sorted. */
  lemma {:induction false} InsertSorted(vals: seq<real>, x: nat, s: seq<nat>)
    requires x < |vals| && InRange(s, |vals|) && SortedBy(vals, s)
    ensures SortedBy(vals, Insert(vals, x, s))
  {
    if s != [] && vals[x] > vals[s[0]] {
      InsertSorted(vals, x, s[1..]);
      var rest := Insert(vals, x, s[1..]);
      var r := [s[0]] + rest;
      forall k | 0 <= k < |rest| ensures vals[s[0]] <= vals[rest[k]] {
        assert rest[k] in rest;
        if rest[k] != x {
          var m :| 0 <= m < |s[1..]| && s[1..][m] == rest[k];
          assert s[m + 1] == rest[k];
        }
      }
      forall i, j | 0 <= i <= j < |r| ensures vals[r[i]] <= vals[r[j]] {
        if i > 0 {
          assert r[i] == rest[i - 1] && r[j] == rest[j - 1];
        } else if j > 0 {
          assert r[j] == rest[j - 1];
        }
      }
    }
  }

  /** Insertion sort of a list of indices by `vals`. */
  function SortIndices(vals: seq<real>, idxs: seq<nat>): (r: seq<nat>)
    requires InRange(idxs, |vals|)
    ensures |r| == |idxs| && InRange(r, |vals|)
    ensures forall y :: y in r <==> y in idxs
    ensures Distinct(idxs) ==> Distinct(r)
    ensures SortedBy(vals, r)
  {
    if idxs == [] then []
    else
      var rest := SortIndices(vals, idxs[1..]);
      InsertSorted(vals, idxs[0], rest);
      InsertDistinct(vals, idxs[0], rest);
      assert Distinct(idxs) ==> Distinct(idxs[1..]) && idxs[0] !in idxs[1..];
      Insert(vals, idxs[0], rest)
  }

  /** `range(n)`. */
  function Range(n: nat): (r: seq<nat>)
    ensures |r| == n && forall i :: 0 <= i < n ==> r[i] == i
  {
    seq(n, i requires 0 <= i < n => i)
  }

  /**
   * `np.argsort(vals)`: a permutation of 0 .. n-1 that lists `vals` in ascending order.
   * Ties may come out in any order in numpy; this model keeps them in input order.
   */
  function ArgSort(vals: seq<real>): (r: seq<nat>)
    ensures |r| == |vals| && InRange(r, |vals|) && Distinct(r)
    ensures forall i :: 0 <= i < |vals| ==> i in r
    ensures SortedBy(vals, r)
  {
    var all := Range(|vals|);
    forall i | 0 <= i < |vals| ensures i in all {
      assert all[i] == i;
    }
    SortIndices(vals, all)
  }

  /** `keys[perm]`. */
  function Permute(keys: seq<string>, perm: seq<nat>): (r: seq<string>)
    requires InRange(perm, |keys|)
    ensures |r| == |perm| && forall i :: 0 <= i < |perm| ==> r[i] == keys[perm[i]]
  {
    seq(|perm|, i requires 0 <= i < |perm| => keys[perm[i]])
  }

  /** Permuting distinct keys by a permutation gives distinct keys, the same ones. */
  lemma PermutedKeys(keys: seq<string>, perm: seq<nat>)
    requires Distinct(keys) && |perm| == |keys| && InRange(perm, |keys|) && Distinct(perm)
    requires forall i :: 0 <= i < |keys| ==> i in perm
    ensures Distinct(Permute(keys, perm))
    ensures forall k :: k in Permute(keys, perm) <==> k in keys
  {
    var r := Permute(keys, perm);
    forall k | k in keys ensures k in r {
      var j :| 0 <= j < |keys| && keys[j] == k;
      assert j in perm;
      var i :| 0 <= i < |perm| && perm[i] == j;
      assert r[i] == k;
    }
  }

  /** The effective wavelength of every filter, in key order, if all have one. */
  function EffectiveWavelengths(keys: seq<string>, items: map<string, FilterClass>): (r: Option<seq<real>>)
    requires forall k :: k in keys ==> k in items
    reads items.Values
    ensures r.None? <==> exists i :: 0 <= i < |keys| && items[keys[i]].lambdaEffective.None?
    ensures r.Some? ==> |r.value| == |keys|
    ensures r.Some? ==> forall i :: 0 <= i < |keys| ==> items[keys[i]].lambdaEffective == Some(r.value[i])
  {
    if keys == [] then Some([])
    else
      var last := items[keys[|keys| - 1]].lambdaEffective;
      match EffectiveWavelengths(keys[..|keys| - 1], items)
      case None => None
      case Some(init) => if last.None? then None else Some(init + [last.value])
  }

  /**
   * The key order `_sort_phot` builds: `keys[argsort(lambda_effective)]`, or None when
   * some filter has no effective wavelength.
   */
  function SortedFilterKeys(filters: OrderedDict<FilterClass>): (r: Option<seq<string>>)
    requires filters.Valid()
    reads filters.items.Values
    ensures r.None? <==> exists k :: k in filters.keys && filters.items[k].lambdaEffective.None?
  {
    assert forall k :: k in filters.keys ==> k in filters.items;
    match EffectiveWavelengths(filters.keys, filters.items)
    case None => None
    case Some(lams) => Some(Permute(filters.keys, ArgSort(lams)))
  }

  /**
   * The sorted keys are the filter keys again, each once, in ascending order of
   * effective wavelength.
   */
  lemma SortedFilterKeysOrder(filters: OrderedDict<FilterClass>)
    requires filters.Valid() && SortedFilterKeys(filters).Some?
    ensures var r := SortedFilterKeys(filters).value;
      && |r| == |filters.keys| && Distinct(r)
      && (forall k :: k in r <==> k in filters.keys)
      && forall i, j :: 0 <= i <= j < |r| ==>
           filters.items[r[i]].lambdaEffective.Some? && filters.items[r[j]].lambdaEffective.Some? &&
             filters.items[r[i]].lambdaEffective.value <= filters.items[r[j]].lambdaEffective.value
  {
    var lams := EffectiveWavelengths(filters.keys, filters.items).value;
    var perm := ArgSort(lams);
    var r := Permute(filters.keys, perm);
    PermutedKeys(filters.keys, perm);
    forall i, j | 0 <= i <= j < |r|
      ensures filters.items[r[i]].lambdaEffective.Some? && filters.items[r[j]].lambdaEffective.Some?
      ensures filters.items[r[i]].lambdaEffective.value <= filters.items[r[j]].lambdaEffective.value
    {
      assert r[i] == filters.keys[perm[i]] && r[j] == filters.keys[perm[j]];
      assert lams[perm[i]] <= lams[perm[j]];
    }
  }

  /** A new dictionary filled from `d` with the keys `ks`, in that order. */
  function Reordered<V>(d: OrderedDict<V>, ks: seq<string>): (r: OrderedDict<V>)
    requires forall i :: 0 <= i < |ks| ==> ks[i] in d.items
    ensures r.Valid()
    decreases |ks|
  {
    if ks == [] then Empty()
    else Assign(Reordered(d, ks[..|ks| - 1]), ks[|ks| - 1], d.items[ks[|ks| - 1]])
  }

  /** With distinct keys the new dictionary lists exactly `ks`, in that order. */
  lemma {:induction false} ReorderedKeys<V>(d: OrderedDict<V>, ks: seq<string>)
    requires Distinct(ks) && forall i :: 0 <= i < |ks| ==> ks[i] in d.items
    ensures Reordered(d, ks).keys == ks
    decreases |ks|
  {
    if ks != [] {
      var init, last := ks[..|ks| - 1], ks[|ks| - 1];
      assert Distinct(init) by {
        forall i, j | 0 <= i < j < |init| ensures init[i] != init[j] {
          assert init[i] == ks[i] && init[j] == ks[j];
        }
      }
      ReorderedKeys(d, init);
      var prev := Reordered(d, init);
      assert last !in prev.keys by {
        forall i | 0 <= i < |init| ensures init[i] != last {
          assert init[i] == ks[i];
        }
      }
      assert Reordered(d, ks) == Assign(prev, last, d.items[last]);
      assert ks == init + [last];
    }
  }

  /** Every entry of the new dictionary is the one `d` has under the same key. */
  lemma {:induction false} ReorderedItems<V>(d: OrderedDict<V>, ks: seq<string>)
    requires forall i :: 0 <= i < |ks| ==> ks[i] in d.items
    ensures forall k :: k in Reordered(d, ks).items ==> k in d.items && Reordered(d, ks).items[k] == d.items[k]
    decreases |ks|
  {
    if ks != [] {
      ReorderedItems(d, ks[..|ks| - 1]);
    }
  }

  /**
   * The loop of `_sort_phot`: two new dictionaries filled key by key in the order of
   * `newKeys`, one from `data` and one from `filters`. A key missing from `data` raises,
   * which `ok = false` reports.
   */
  method Rebuild(newKeys: seq<string>, data: OrderedDict<PhotTable>, filters: OrderedDict<FilterClass>)
    returns (ok: bool, sortedData: OrderedDict<PhotTable>, sortedFilters: OrderedDict<FilterClass>)
    requires Distinct(newKeys) && data.Valid() && filters.Valid()
    requires forall k :: k in newKeys ==> k in filters.items
    ensures ok <==> forall k :: k in newKeys ==> k in data.items
    ensures ok ==> sortedData.Valid() && sortedFilters.Valid()
    ensures ok ==> sortedData.keys == newKeys && sortedFilters.keys == newKeys
    ensures ok ==> forall k :: k in sortedData.items ==> k in data.items && sortedData.items[k] == data.items[k]
    ensures ok ==> forall k :: k in sortedFilters.items ==> k in filters.items && sortedFilters.items[k] == filters.items[k]
  {
    sortedData, sortedFilters := Empty(), Empty();
    for i := 0 to |newKeys|
      invariant forall j :: 0 <= j < i ==> newKeys[j] in data.items
      invariant sortedData == Reordered(data, newKeys[..i])
      invariant sortedFilters == Reordered(filters, newKeys[..i])
    {
      var k := newKeys[i];
      if k !in data.items {
        return false, sortedData, sortedFilters;
      }
      assert newKeys[..i + 1][..i] == newKeys[..i];
      sortedData := Assign(sortedData, k, data.items[k]);
      sortedFilters := Assign(sortedFilters, k, filters.items[k]);
    }
    assert newKeys[..|newKeys|] == newKeys;
    ReorderedKeys(data, newKeys);
    ReorderedKeys(filters, newKeys);
    ReorderedItems(data, newKeys);
    ReorderedItems(filters, newKeys);
    ok := true;
  }

  class LightCurveClass {
    var data: OrderedDict<PhotTable>
    var dataFilters: OrderedDict<FilterClass>

    ghost predicate Valid()
      reads this
    {
      data.Valid() && dataFilters.Valid()
    }

    /** `PhotometryClass()`: both dictionaries empty. */
    constructor()
      ensures Valid() && data.keys == [] && dataFilters.keys == []
    {
      data := Empty();
      dataFilters := Empty();
    }

    /**
     * `_sort_phot`: rebuilds `data` and `data_filters` with the filter keys in ascending
     * order of effective wavelength. Keys of `data` with no filter are dropped. A filter
     * without an effective wavelength, or without a table, raises and nothing changes.
     */
    method SortPhot() returns (r: Outcome<LightCurveError>)
      requires Valid()
      modifies this`data, this`dataFilters
      ensures Valid()
      ensures r.Fail? ==> unchanged(this)
      ensures old(SortedFilterKeys(dataFilters)).None? ==> r == Fail(NoEffectiveWavelength)
      ensures old(SortedFilterKeys(dataFilters)).Some? ==>
        (r == Pass <==> forall k :: k in old(dataFilters.keys) ==> k in old(data.items))
      ensures r == Pass ==>
        && dataFilters.keys == old(SortedFilterKeys(dataFilters)).value
        && data.keys == dataFilters.keys
        && (forall k :: k in dataFilters.items ==> k in old(dataFilters.items) && dataFilters.items[k] == old(dataFilters.items[k]))
        && (forall k :: k in data.items ==> k in old(data.items) && data.items[k] == old(data.items[k]))
    {
      var sorted := SortedFilterKeys(dataFilters);
      if sorted.None? {
        return Fail(NoEffectiveWavelength);
      }
      var newKeys := sorted.value;
      SortedFilterKeysOrder(dataFilters);
      var ok, sortedData, sortedFilters := Rebuild(newKeys, data, dataFilters);
      if !ok {
        return Fail(MissingPhotometry);
      }
      data := sortedData;
      dataFilters := sortedFilters;
      r := Pass;
    }
  }

  /**
   * After a successful `_sort_phot` the two dictionaries list the same filter keys as
   * before, each once, in ascending order of effective wavelength.
   */
  lemma SortPhotOrder(before: OrderedDict<FilterClass>, after: OrderedDict<FilterClass>)
    requires before.Valid() && after.Valid() && SortedFilterKeys(before).Some?
    requires after.keys == SortedFilterKeys(before).value
    requires forall k :: k in after.items ==> k in before.items && after.items[k] == before.items[k]
    ensures |after.keys| == |before.keys|
    ensures forall k :: k in after.keys <==> k in before.keys
    ensures forall i, j :: 0 <= i <= j < |after.keys| ==>
      after.items[after.keys[i]].lambdaEffective.Some? && after.items[after.keys[j]].lambdaEffective.Some? &&
      after.items[after.keys[i]].lambdaEffective.value <= after.items[after.keys[j]].lambdaEffective.value
  {
    SortedFilterKeysOrder(before);
  }
}
