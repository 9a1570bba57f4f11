/** Python dictionaries with string keys, where iteration order matters: the
    entries in insertion order, each key at most once. */
module Dicts {
  import opened Values

  predicate DistinctKeys<V>(d: seq<(string, V)>)
  {
    forall i, j :: 0 <= i < j < |d| ==> d[i].0 != d[j].0
  }

  /** `d.get(k)`, with `None` for a missing key. */
  function Lookup<V>(d: seq<(string, V)>, k: string): (r: Option<V>)
    ensures r.Some? <==> exists i :: 0 <= i < |d| && d[i].0 == k
  {
    if d == [] then None
    else if d[0].0 == k then Some(d[0].1)
    else
      assert forall i :: 1 <= i < |d| ==> d[i] == d[1..][i - 1];
      Lookup(d[1..], k)
  }

  /** `d[k] = v`: an existing key keeps its place, a new key goes last. */
  function Assign<V>(d: seq<(string, V)>, k: string, v: V): seq<(string, V)>
  {
    if d == [] then [(k, v)]
    else if d[0].0 == k then [(k, v)] + d[1..]
    else [d[0]] + Assign(d[1..], k, v)
  }

  /** After `d[k] = v`, `k` looks up `v` and every other key what it did before. */
  lemma {:induction false} AssignLookup<V>(d: seq<(string, V)>, k: string, v: V, key: string)
    ensures Lookup(Assign(d, k, v), key) == if key == k then Some(v) else Lookup(d, key)
  {
    if d != [] && d[0].0 != k {
      AssignLookup(d[1..], k, v, key);
      var rest := Assign(d[1..], k, v);
      assert Assign(d, k, v) == [d[0]] + rest;
      assert ([d[0]] + rest)[1..] == rest;
    } else if d != [] {
      assert Assign(d, k, v)[1..] == d[1..];
    }
  }

  /** Assigning an existing key replaces its pair in place. */
  lemma {:induction false} AssignExisting<V>(d: seq<(string, V)>, k: string, v: V, p: nat)
    requires p < |d| && d[p].0 == k
    requires forall i :: 0 <= i < p ==> d[i].0 != k
    ensures Assign(d, k, v) == d[p := (k, v)]
  {
    if p == 0 {
      assert Assign(d, k, v) == [(k, v)] + d[1..];
    } else {
      var t := d[1..];
      assert forall i :: 0 <= i < p - 1 ==> t[i] == d[i + 1];
      AssignExisting(t, k, v, p - 1);
      assert Assign(d, k, v) == [d[0]] + t[p - 1 := (k, v)];
    }
  }

  /** Assigning keeps the keys distinct. */
  lemma AssignDistinct<V>(d: seq<(string, V)>, k: string, v: V)
    requires DistinctKeys(d)
    ensures DistinctKeys(Assign(d, k, v))
  {
    if Lookup(d, k).None? {
      AssignNew(d, k, v);
      assert forall i :: 0 <= i < |d| ==> d[i].0 != k;
    } else {
      var p :| 0 <= p < |d| && d[p].0 == k;
      AssignExisting(d, k, v, p);
    }
  }

  /** `dict(pairs)`: the pairs assigned one after another. */
  function DictOf<V>(pairs: seq<(string, V)>): seq<(string, V)>
  {
    if pairs == [] then []
    else Assign(DictOf(pairs[..|pairs| - 1]), pairs[|pairs| - 1].0, pairs[|pairs| - 1].1)
  }

  /** The value of the last pair with key `k`. */
  function LastValue<V>(pairs: seq<(string, V)>, k: string): Option<V>
  {
    if pairs == [] then None
    else if pairs[|pairs| - 1].0 == k then Some(pairs[|pairs| - 1].1)
    else LastValue(pairs[..|pairs| - 1], k)
  }

  /** A dictionary built from pairs has each key once, and a key looks up the
      value of its last pair. */
  lemma {:induction false} DictOfLookup<V>(pairs: seq<(string, V)>, k: string)
    ensures DistinctKeys(DictOf(pairs))
    ensures Lookup(DictOf(pairs), k) == LastValue(pairs, k)
  {
    if pairs != [] {
      var init := pairs[..|pairs| - 1];
      DictOfLookup(init, k);
      AssignDistinct(DictOf(init), pairs[|pairs| - 1].0, pairs[|pairs| - 1].1);
      AssignLookup(DictOf(init), pairs[|pairs| - 1].0, pairs[|pairs| - 1].1, k);
    }
  }

  /** Assigning a new key appends it. */
  lemma {:induction false} AssignNew<V>(d: seq<(string, V)>, k: string, v: V)
    requires Lookup(d, k).None?
    ensures Assign(d, k, v) == d + [(k, v)]
  {
    if d != [] {
      assert Lookup(d[1..], k).None?;
      AssignNew(d[1..], k, v);
      assert d == [d[0]] + d[1..];
    }
  }

  /** Dropping the last pair keeps the keys distinct, and the dropped key is
      not among the others. */
  lemma DistinctInit<V>(pairs: seq<(string, V)>)
    requires pairs != [] && DistinctKeys(pairs)
    ensures DistinctKeys(pairs[..|pairs| - 1])
    ensures Lookup(pairs[..|pairs| - 1], pairs[|pairs| - 1].0).None?
  {
    var n := |pairs| - 1;
    assert forall i :: 0 <= i < n ==> pairs[..n][i] == pairs[i];
  }

  /** Pairs with distinct keys already are their dictionary. */
  lemma {:induction false} DictOfDistinct<V>(pairs: seq<(string, V)>)
    requires DistinctKeys(pairs)
    ensures DictOf(pairs) == pairs
  {
    if pairs != [] {
      var n := |pairs| - 1;
      var init := pairs[..n];
      DistinctInit(pairs);
      DictOfDistinct(init);
      AssignNew(init, pairs[n].0, pairs[n].1);
      assert pairs == init + [(pairs[n].0, pairs[n].1)];
    }
  }

  // ---------------------------------------------------------------------------
  // Maps filled by a loop: `index[key] = value` for every entry that has a key.

  /** The map after assigning each keyed entry in turn. */
  function Indexed<K(==), V>(entries: seq<(Option<K>, V)>): map<K, V>
  {
    if entries == [] then map[]
    else
      var e := entries[|entries| - 1];
      var m := Indexed(entries[..|entries| - 1]);
      match e.0 case Some(k) => m[k := e.1] case None => m
  }

  /** Entry `i` is the last one with key `k`. */
  predicate LastEntry<K(==), V>(entries: seq<(Option<K>, V)>, k: K, i: int)
  {
    0 <= i < |entries| && entries[i].0 == Some(k) &&
    forall j :: i < j < |entries| ==> entries[j].0 != Some(k)
  }

  /** A key is in the index exactly when some entry has it. */
  lemma {:induction false} IndexedKeys<K, V>(entries: seq<(Option<K>, V)>, k: K)
    ensures k in Indexed(entries) <==> exists i :: 0 <= i < |entries| && entries[i].0 == Some(k)
  {
    if entries != [] {
      var n := |entries| - 1;
      IndexedKeys(entries[..n], k);
      assert forall i :: 0 <= i < n ==> entries[..n][i] == entries[i];
    }
  }

  /** A key maps to the value of the last entry that has it: later entries
      overwrite earlier ones. */
  lemma {:induction false} IndexedLastWins<K, V>(entries: seq<(Option<K>, V)>, k: K)
    requires k in Indexed(entries)
    ensures exists i :: LastEntry(entries, k, i) && Indexed(entries)[k] == entries[i].1
  {
    var n := |entries| - 1;
    if entries[n].0 == Some(k) {
      assert LastEntry(entries, k, n);
    } else {
      var init := entries[..n];
      IndexedLastWins(init, k);
      var i :| LastEntry(init, k, i) && Indexed(init)[k] == init[i].1;
      assert forall j :: 0 <= j < n ==> init[j] == entries[j];
      assert LastEntry(entries, k, i);
    }
  }

  /** Every value in the index is the value of some entry. */
  lemma IndexedIds<K, V>(entries: seq<(Option<K>, V)>, k: K)
    requires k in Indexed(entries)
    ensures exists i :: 0 <= i < |entries| && Indexed(entries)[k] == entries[i].1
  {
    IndexedLastWins(entries, k);
  }
}
