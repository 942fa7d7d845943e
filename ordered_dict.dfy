/**
 * A Python dict together with its iteration order: keys in insertion order,
 * an assignment to an existing key keeps its place, a new key goes last.
 */
module OrderedDicts {

  /** `s` with every occurrence of `k` removed, order kept. */
  function Without(s: seq<string>, k: string): (r: seq<string>)
    ensures forall x :: x in r <==> x in s && x != k
    ensures |r| <= |s|
  {
    if s == [] then []
    else if s[0] == k then Without(s[1..], k)
    else [s[0]] + Without(s[1..], k)
  }

  predicate Distinct(s: seq<string>) {
    forall i, j :: 0 <= i < j < |s| ==> s[i] != s[j]
  }

  lemma {:induction false} WithoutDistinct(s: seq<string>, k: string)
    requires Distinct(s)
    ensures Distinct(Without(s, k))
  {
    if s != [] {
      WithoutDistinct(s[1..], k);
      if s[0] != k {
        var r := Without(s[1..], k);
        assert s[0] !in r;
      }
    }
  }

  datatype ODict<V> = ODict(keys: seq<string>, vals: map<string, V>) {

    ghost predicate Valid() {
      Distinct(keys) && forall k :: k in vals <==> k in keys
    }

    /** `d[k] = v`. */
    function Set(k: string, v: V): (d: ODict<V>)
      requires Valid()
      ensures d.Valid()
      ensures d.vals == vals[k := v]
      ensures d.keys == if k in vals then keys else keys + [k]
    {
      ODict(if k in vals then keys else keys + [k], vals[k := v])
    }

    /** `d.setdefault(k, v)` as far as the dict is concerned. */
    function SetDefault(k: string, v: V): (d: ODict<V>)
      requires Valid()
      ensures d.Valid() && k in d.vals
      ensures k in vals ==> d == this
      ensures k !in vals ==> d == Set(k, v)
    {
      if k in vals then this else Set(k, v)
    }

    /** `del d[k]` (a key that is absent is left alone). */
    function Delete(k: string): (d: ODict<V>)
      requires Valid()
      ensures d.Valid()
      ensures d.vals == vals - {k}
    {
      WithoutDistinct(keys, k);
      ODict(Without(keys, k), vals - {k})
    }

    /** `d.items()`: the pairs in iteration order. */
    function Items(): (items: seq<(string, V)>)
      requires Valid()
      ensures |items| == |keys|
      ensures forall i :: 0 <= i < |items| ==> items[i] == (keys[i], vals[keys[i]])
    {
      seq(|keys|, i requires 0 <= i < |keys| => (keys[i], vals[keys[i]]))
    }
  }

  /** The keys of a list of pairs are pairwise different, as in any dict's items. */
  predicate DistinctKeys<V>(items: seq<(string, V)>) {
    forall i, j :: 0 <= i < j < |items| ==> items[i].0 != items[j].0
  }

  lemma ItemsDistinct<V>(d: ODict<V>)
    requires d.Valid()
    ensures DistinctKeys(d.Items())
  {
  }
}
