/** Python's `dict`: a finite map that remembers the order in which its keys
    were first inserted. Assigning to a key that is already present replaces
    the value and keeps the key's position; a new key goes to the end. */
module OrderedDicts {

  datatype ODict<K(==,!new), V> = ODict(keys: seq<K>, entries: map<K, V>) {

    /** The key list has no repeats and lists exactly the keys of the map. */
    ghost predicate Valid()
    {
      && (forall i, j :: 0 <= i < j < |keys| ==> keys[i] != keys[j])
      && (forall k :: k in entries <==> k in keys)
    }

    /** `len(d)` */
    function Size(): nat { |keys| }

    /** `d[k] = v` */
    function Put(k: K, v: V): (d: ODict<K, V>)
      requires Valid()
      ensures d.Valid()
      ensures d.entries == entries[k := v]
      ensures k in entries ==> d.keys == keys
      ensures k !in entries ==> d.keys == keys + [k]
    {
      if k in entries then ODict(keys, entries[k := v]) else ODict(keys + [k], entries[k := v])
    }

    /** `list(d.values())` */
    function Values(): (vs: seq<V>)
      requires Valid()
      ensures |vs| == |keys|
      ensures forall i :: 0 <= i < |keys| ==> vs[i] == entries[keys[i]]
    {
      seq(|keys|, i requires 0 <= i < |keys| => entries[keys[i]])
    }
  }

  /** `{}` */
  function Empty<K(==,!new), V>(): (d: ODict<K, V>)
    ensures d.Valid() && d.Size() == 0
  {
    ODict([], map[])
  }

  /** The sum of the values of `m` at the keys `ks`, in order. */
  function SumAt<K>(ks: seq<K>, m: map<K, int>): int
    requires forall i :: 0 <= i < |ks| ==> ks[i] in m
  {
    if ks == [] then 0 else SumAt(ks[..|ks| - 1], m) + m[ks[|ks| - 1]]
  }

  /** The sum of the values of an integer-valued dict. */
  function Sum<K(!new)>(d: ODict<K, int>): int
    requires d.Valid()
  {
    SumAt(d.keys, d.entries)
  }

  lemma {:induction false} SumAtUpdate<K>(ks: seq<K>, m: map<K, int>, k: K, v: int)
    requires forall i :: 0 <= i < |ks| ==> ks[i] in m
    requires forall i, j :: 0 <= i < j < |ks| ==> ks[i] != ks[j]
    ensures SumAt(ks, m[k := v]) == SumAt(ks, m) + (if k in ks then v - m[k] else 0)
    decreases |ks|
  {
    if ks != [] {
      var init := ks[..|ks| - 1];
      SumAtUpdate(init, m, k, v);
      assert k in ks <==> k in init || k == ks[|ks| - 1];
      if k == ks[|ks| - 1] {
        assert k !in init;
      }
    }
  }

  /** Putting `v` under a key changes the sum by `v` minus what was there
      (nothing, for a new key). */
  lemma SumPut<K(!new)>(d: ODict<K, int>, k: K, v: int)
    requires d.Valid()
    ensures Sum(d.Put(k, v)) == Sum(d) + v - (if k in d.entries then d.entries[k] else 0)
  {
    SumAtUpdate(d.keys, d.entries, k, v);
    if k !in d.entries {
      var ks := d.keys + [k];
      assert ks[..|ks| - 1] == d.keys;
      assert SumAt(ks, d.entries[k := v]) == SumAt(d.keys, d.entries[k := v]) + v;
    }
  }

  /** A dict whose values are all 0 sums to 0. */
  lemma SumZero<K(!new)>(d: ODict<K, int>)
    requires d.Valid()
    requires forall k :: k in d.entries ==> d.entries[k] == 0
    ensures Sum(d) == 0
  {
    SumAtZero(d.keys, d.entries);
  }

  lemma {:induction false} SumAtZero<K>(ks: seq<K>, m: map<K, int>)
    requires forall i :: 0 <= i < |ks| ==> ks[i] in m && m[ks[i]] == 0
    ensures SumAt(ks, m) == 0
  {
    if ks != [] {
      SumAtZero(ks[..|ks| - 1], m);
    }
  }
}
