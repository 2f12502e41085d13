/** A Python `dict` keyed by strings.  Python dictionaries remember the
    order in which keys were first inserted; the ledger depends on it
    (`list(d.values())[-1]`, `next(iter(d.values()))`), so a dictionary is
    its keys in insertion order together with the key-to-value map. */
module Dicts {

  datatype Dict<V> = Dict(keys: seq<string>, entries: map<string, V>) {

    /** Every key occurs once (`KeysDistinct`), and the keys are exactly
        the mapped ones. */
    ghost predicate Valid() {
      && (forall i, j :: 0 <= i < j < |keys| ==> KeyAt(i) != KeyAt(j))
      && (forall k :: k in entries <==> k in keys)
    }

    /** The key in position `i`. */
    function KeyAt(i: int): string
      requires 0 <= i < |keys|
    {
      keys[i]
    }

    /** `d[k] = v`: a new key goes to the end; an existing key keeps its
        place and only its value changes. */
    function Put(k: string, v: V): (d: Dict<V>)
      ensures Valid() ==> d.Valid()
      ensures k in entries ==> d.keys == keys
      ensures k !in entries ==> d.keys == keys + [k]
      ensures d.entries.Keys == entries.Keys + {k} && d.entries[k] == v
      ensures forall k' :: k' in entries && k' != k ==> d.entries[k'] == entries[k']
    {
      if k in entries then
        var d := Dict(keys, entries[k := v]);
        assert Valid() ==> d.Valid() by {
          if Valid() {
            forall i, j | 0 <= i < j < |d.keys| ensures d.KeyAt(i) != d.KeyAt(j) {
              assert d.KeyAt(i) == KeyAt(i) && d.KeyAt(j) == KeyAt(j);
            }
          }
        }
        d
      else
        var d := Dict(keys + [k], entries[k := v]);
        assert Valid() ==> d.Valid() by {
          if Valid() {
            forall i, j | 0 <= i < j < |d.keys| ensures d.KeyAt(i) != d.KeyAt(j) {
              if j < |keys| {
                assert d.KeyAt(i) == KeyAt(i) && d.KeyAt(j) == KeyAt(j);
              } else {
                assert d.KeyAt(i) in keys;
              }
            }
          }
        }
        d
    }

    /** The values of the keys `ks`, in that order. */
    function ValuesOf(ks: seq<string>): (vs: seq<V>)
      requires forall k :: k in ks ==> k in entries
      ensures |vs| == |ks|
      ensures forall i :: 0 <= i < |ks| ==> vs[i] == entries[ks[i]]
    {
      if ks == [] then []
      else ValuesOf(ks[..|ks| - 1]) + [entries[ks[|ks| - 1]]]
    }

    /** `list(d.values())`: the values in insertion order of their keys. */
    function Values(): (vs: seq<V>)
      requires Valid()
      ensures |vs| == |keys|
      ensures forall i :: 0 <= i < |keys| ==> vs[i] == entries[keys[i]]
    {
      ValuesOf(keys)
    }
  }

  /** The keys of a well-formed dictionary are distinct, so there are as
      many of them as there are entries. */
  lemma KeysDistinct<V>(d: Dict<V>)
    requires d.Valid()
    ensures forall i, j :: 0 <= i < j < |d.keys| ==> d.keys[i] != d.keys[j]
    ensures |d.keys| == |d.entries|
  {
    forall i, j | 0 <= i < j < |d.keys| ensures d.keys[i] != d.keys[j] {
      assert d.KeyAt(i) != d.KeyAt(j);
    }
    assert d.entries.Keys == set k | k in d.keys;
    DistinctCardinality(d.keys);
  }

  /** A sequence without repetitions has as many elements as its set. */
  lemma {:induction false} DistinctCardinality(s: seq<string>)
    requires forall i, j :: 0 <= i < j < |s| ==> s[i] != s[j]
    ensures |set k | k in s| == |s|
    decreases |s|
  {
    if s != [] {
      var t := s[..|s| - 1];
      DistinctCardinality(t);
      assert (set k | k in s) == (set k | k in t) + {s[|s| - 1]};
    }
  }

  /** `{}` */
  function Empty<V>(): (d: Dict<V>)
    ensures d.Valid() && d.keys == [] && d.entries == map[]
  {
    Dict([], map[])
  }

  /** Storing under a new key appends its value to `values()`. */
  lemma PutNewValues<V>(d: Dict<V>, k: string, v: V)
    requires d.Valid() && k !in d.entries
    ensures d.Put(k, v).Values() == d.Values() + [v]
  {
    var e := d.Put(k, v);
    var vs, ws := d.Values(), e.Values();
    assert |ws| == |vs| + 1;
    forall i | 0 <= i < |ws| ensures ws[i] == (vs + [v])[i] {
      if i < |vs| {
        assert e.keys[i] == d.keys[i] != k;
      }
    }
  }
}
