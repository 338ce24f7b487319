/**
 * Python's `dict` with string keys, as the graph builder uses it: assignment
 * keeps a key at the position where it was first inserted and stores the
 * latest value under it; iteration follows insertion order.
 */
module Dicts {
  import opened Wrappers
  import opened Strings

  /** The keys in insertion order and the value stored under each. */
  datatype Dict<V> = Dict(keys: seq<string>, values: map<string, V>)

  predicate Valid<V>(d: Dict<V>) {
    && (forall k | k in d.keys :: k in d.values)
    && (forall k | k in d.values :: k in d.keys)
    && (forall i, j | 0 <= i < j < |d.keys| :: d.keys[i] != d.keys[j])
  }

  function Empty<V>(): (r: Dict<V>)
    ensures Valid(r) && r.keys == []
  {
    Dict([], map[])
  }

  /** `d[k] = v`. */
  function Put<V>(d: Dict<V>, k: string, v: V): (r: Dict<V>)
    requires Valid(d)
    ensures Valid(r)
    ensures r.values == d.values[k := v]
    ensures k in d.values ==> r.keys == d.keys
    ensures k !in d.values ==> r.keys == d.keys + [k]
  {
    if k in d.values then Dict(d.keys, d.values[k := v]) else Dict(d.keys + [k], d.values[k := v])
  }

  /** `d.get(k)`. */
  function Get<V>(d: Dict<V>, k: string): Option<V> {
    if k in d.values then Some(d.values[k]) else None
  }

  /**
   * The dict that a loop over `xs` builds when it assigns `d[k] = val(x, k)`
   * for each element `x` whose key `key(x)` is `Some(k)` and skips the others.
   */
  function FromItems<T, V>(xs: seq<T>, key: T -> Option<string>, val: (T, string) -> V): (d: Dict<V>)
    ensures Valid(d)
    decreases |xs|
  {
    if xs == [] then Empty()
    else
      var d := FromItems(xs[..|xs| - 1], key, val);
      match key(xs[|xs| - 1])
      case None => d
      case Some(k) => Put(d, k, val(xs[|xs| - 1], k))
  }

  /** The keys of the elements that have one, in order, duplicates included. */
  function PresentKeys<T>(xs: seq<T>, key: T -> Option<string>): (r: seq<string>)
    ensures forall k :: k in r <==> exists i | 0 <= i < |xs| :: key(xs[i]) == Some(k)
    decreases |xs|
  {
    if xs == [] then []
    else
      var init := xs[..|xs| - 1];
      assert forall i | 0 <= i < |init| :: init[i] == xs[i];
      PresentKeys(init, key) + (match key(xs[|xs| - 1]) case None => [] case Some(k) => [k])
  }

  /** Iteration order: the distinct keys in order of first occurrence. */
  lemma {:induction false} FromItemsKeys<T, V>(xs: seq<T>, key: T -> Option<string>, val: (T, string) -> V)
    ensures FromItems(xs, key, val).keys == Distinct(PresentKeys(xs, key))
    decreases |xs|
  {
    if xs != [] {
      var init := xs[..|xs| - 1];
      FromItemsKeys(init, key, val);
      var ks := PresentKeys(init, key);
      match key(xs[|xs| - 1])
      case None =>
        assert PresentKeys(xs, key) == ks + [];
        assert ks + [] == ks;
      case Some(k) =>
        var all := ks + [k];
        assert PresentKeys(xs, key) == all;
        assert all[..|all| - 1] == ks;
        assert k in FromItems(init, key, val).values <==> k in Distinct(ks);
    }
  }

  /** A key is present exactly when some element has it. */
  lemma {:induction false} FromItemsHas<T, V>(xs: seq<T>, key: T -> Option<string>, val: (T, string) -> V, k: string)
    ensures k in FromItems(xs, key, val).values <==> k in PresentKeys(xs, key)
    decreases |xs|
  {
    if xs != [] {
      FromItemsHas(xs[..|xs| - 1], key, val, k);
    }
  }

  /** `i` is the last position of `xs` whose key is `k`. */
  predicate LastWithKey<T>(xs: seq<T>, key: T -> Option<string>, k: string, i: int) {
    0 <= i < |xs| && key(xs[i]) == Some(k) && forall j | i < j < |xs| :: key(xs[j]) != Some(k)
  }

  /** An element with another key leaves the entry for `k` as it was. */
  lemma FromItemsOther<T, V>(xs: seq<T>, key: T -> Option<string>, val: (T, string) -> V, k: string)
    requires xs != [] && key(xs[|xs| - 1]) != Some(k)
    ensures var d := FromItems(xs[..|xs| - 1], key, val);
      && (k in FromItems(xs, key, val).values <==> k in d.values)
      && (k in d.values ==> FromItems(xs, key, val).values[k] == d.values[k])
  {
  }

  lemma LastWithKeyExtends<T>(xs: seq<T>, key: T -> Option<string>, k: string, i: int)
    requires xs != [] && key(xs[|xs| - 1]) != Some(k)
    requires LastWithKey(xs[..|xs| - 1], key, k, i)
    ensures LastWithKey(xs, key, k, i) && xs[i] == xs[..|xs| - 1][i]
  {
    var init := xs[..|xs| - 1];
    forall j | i < j < |xs|
      ensures key(xs[j]) != Some(k)
    {
      if j < |init| {
        assert xs[j] == init[j];
      }
    }
  }

  /** The value stored under a key comes from the last element with that key: later duplicates overwrite earlier ones. */
  lemma {:induction false} FromItemsLast<T, V>(xs: seq<T>, key: T -> Option<string>, val: (T, string) -> V, k: string)
    requires k in FromItems(xs, key, val).values
    ensures exists i :: LastWithKey(xs, key, k, i) && FromItems(xs, key, val).values[k] == val(xs[i], k)
    decreases |xs|
  {
    var n := |xs| - 1;
    if key(xs[n]) == Some(k) {
      assert LastWithKey(xs, key, k, n);
    } else {
      var init := xs[..n];
      FromItemsOther(xs, key, val, k);
      FromItemsLast(init, key, val, k);
      var i :| LastWithKey(init, key, k, i) && FromItems(init, key, val).values[k] == val(init[i], k);
      LastWithKeyExtends(xs, key, k, i);
    }
  }

  /** One more loop iteration: the dict for a longer prefix. */
  lemma FromItemsStep<T, V>(xs: seq<T>, key: T -> Option<string>, val: (T, string) -> V, i: nat)
    requires i < |xs|
    ensures FromItems(xs[..i + 1], key, val) ==
      match key(xs[i]) case None => FromItems(xs[..i], key, val) case Some(k) => Put(FromItems(xs[..i], key, val), k, val(xs[i], k))
  {
    assert xs[..i + 1][..i] == xs[..i];
  }
}
