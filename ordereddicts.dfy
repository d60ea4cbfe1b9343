/** `collections.OrderedDict` with string keys: the keys in insertion order and the mapping. */
module OrderedDicts {

  predicate Distinct<T(==)>(s: seq<T>)
  {
    forall i, j :: 0 <= i < j < |s| ==> s[i] != s[j]
  }

  /** The elements of a sequence, as a set. */
  function Objects<T>(xs: seq<T>): (r: set<T>)
    ensures forall i :: 0 <= i < |xs| ==> xs[i] in r
  {
    set i | 0 <= i < |xs| :: xs[i]
  }

  datatype OrderedDict<V> = OrderedDict(keys: seq<string>, items: map<string, V>) {
    /** Every key appears once, and exactly the listed keys are mapped. */
    ghost predicate Valid()
    {
      Distinct(keys) && forall k :: k in items <==> k in keys
    }
  }

  function Empty<V>(): (d: OrderedDict<V>)
    ensures d.Valid() && d.keys == []
  {
    OrderedDict([], map[])
  }

  /** `d[k] = v`: a new key goes to the end, an existing key keeps its place. */
  function Assign<V>(d: OrderedDict<V>, k: string, v: V): (r: OrderedDict<V>)
    requires d.Valid()
    ensures r.Valid()
    ensures r.items == d.items[k := v]
    ensures k in d.items ==> r.keys == d.keys
    ensures k !in d.items ==> r.keys == d.keys + [k]
  {
    if k in d.items then OrderedDict(d.keys, d.items[k := v])
    else OrderedDict(d.keys + [k], d.items[k := v])
  }

  /** The values in key order. */
  function Values<V>(d: OrderedDict<V>): (r: seq<V>)
    requires d.Valid()
    ensures |r| == |d.keys|
    ensures forall i :: 0 <= i < |r| ==> r[i] == d.items[d.keys[i]]
  {
    seq(|d.keys|, i requires 0 <= i < |d.keys| => d.items[d.keys[i]])
  }
}
