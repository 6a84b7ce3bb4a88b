/**
 * Python's `dict` with string keys and its insertion order: a key keeps its position when
 * its value is replaced, a new key goes to the end, and `values()` lists
 * the values in key order.
 */
module Dicts {
  import opened Wrappers
  import opened Seqs

  datatype RawDict<V> = RawDict(order: seq<string>, entries: map<string, V>)

  /** The order lists every key exactly once. */
  ghost predicate Valid<V>(d: RawDict<V>) {
    Distinct(d.order) && forall k :: k in d.entries <==> k in d.order
  }

  type Dict<V> = d: RawDict<V> | Valid(d) witness RawDict([], map[])

  function Empty<V>(): Dict<V> {
    RawDict([], map[])
  }

  /** `k in d and d[k]`, as an option. */
  function Get<V>(d: Dict<V>, k: string): Option<V> {
    if k in d.entries then Some(d.entries[k]) else None
  }

  /** `d[k] = v`: a new key is appended to the order, an existing one keeps its place. */
  function Put<V>(d: Dict<V>, k: string, v: V): (r: Dict<V>)
    ensures r.entries == d.entries[k := v]
  {
    if k in d.entries then RawDict(d.order, d.entries[k := v])
    else RawDict(d.order + [k], d.entries[k := v])
  }

  /** `s` with every occurrence of `k` removed. */
  function Without(s: seq<string>, k: string): (r: seq<string>)
    ensures forall x :: x in r <==> x in s && x != k
    ensures Distinct(s) ==> Distinct(r)
  {
    if |s| == 0 then []
    else
      var rest := Without(s[1..], k);
      assert Distinct(s) ==> Distinct(s[1..]) && s[0] !in s[1..];
      (if s[0] == k then [] else [s[0]]) + rest
  }

  /** `del d[k]`. */
  function Remove<V>(d: Dict<V>, k: string): (r: Dict<V>)
    ensures r.entries == d.entries - {k}
  {
    RawDict(Without(d.order, k), d.entries - {k})
  }

  /** `list(d.values())`. */
  function Values<V>(d: Dict<V>): (r: seq<V>)
    ensures |r| == |d.order|
    ensures forall i :: 0 <= i < |r| ==> d.order[i] in d.entries && r[i] == d.entries[d.order[i]]
  {
    seq(|d.order|, i requires 0 <= i < |d.order| => d.entries[d.order[i]])
  }

  /** Every stored value is listed by `values()`, and nothing else is. */
  lemma ValuesComplete<V>(d: Dict<V>)
    ensures forall k :: k in d.entries ==> d.entries[k] in Values(d)
    ensures forall v :: v in Values(d) ==> exists k :: k in d.entries && d.entries[k] == v
  {
    forall k | k in d.entries
      ensures d.entries[k] in Values(d)
    {
      var i :| 0 <= i < |d.order| && d.order[i] == k;
      assert Values(d)[i] == d.entries[k];
    }
  }

  /** Inserting a new key appends its value to `values()`. */
  lemma ValuesPutNew<V>(d: Dict<V>, k: string, v: V)
    requires k !in d.entries
    ensures Values(Put(d, k, v)) == Values(d) + [v]
  {
  }

  /** Replacing the value of an existing key keeps every other value in its place. */
  lemma ValuesPutExisting<V>(d: Dict<V>, k: string, v: V, i: nat)
    requires i < |d.order| && d.order[i] == k
    ensures Values(Put(d, k, v)) == Values(d)[i := v]
  {
    assert k in d.entries;
    var r := Values(Put(d, k, v));
    forall j | 0 <= j < |r|
      ensures r[j] == Values(d)[i := v][j]
    {
      if j != i {
        assert d.order[j] != k;
      }
    }
  }
}
