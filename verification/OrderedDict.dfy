/** Insertion-ordered dictionaries: Python's `dict` and JavaScript's `Map`, as the list of
    their entries. Writing a present key keeps its place; a new key goes last. */
module OrderedDict {

  datatype Option<+T> = None | Some(value: T)

  type Dict<V> = seq<(string, V)>

  predicate Has<V>(d: Dict<V>, key: string)
    decreases |d|
  {
    d != [] && (d[0].0 == key || Has(d[1..], key))
  }

  /** No key occurs twice, which holds of every dictionary. */
  predicate Distinct<V>(d: Dict<V>)
    decreases |d|
  {
    d == [] || (!Has(d[1..], d[0].0) && Distinct(d[1..]))
  }

  function Lookup<V>(d: Dict<V>, key: string): (r: Option<V>)
    ensures r.Some? <==> Has(d, key)
    decreases |d|
  {
    if d == [] then None else if d[0].0 == key then Some(d[0].1) else Lookup(d[1..], key)
  }

  function Put<V>(d: Dict<V>, key: string, value: V): Dict<V>
    decreases |d|
  {
    if d == [] then [(key, value)]
    else if d[0].0 == key then [(key, value)] + d[1..]
    else [d[0]] + Put(d[1..], key, value)
  }

  /** `d.pop(key, None)`. */
  function Remove<V>(d: Dict<V>, key: string): Dict<V>
    decreases |d|
  {
    if d == [] then [] else if d[0].0 == key then d[1..] else [d[0]] + Remove(d[1..], key)
  }

  function PutAll<V>(d: Dict<V>, updates: Dict<V>): Dict<V>
    decreases |updates|
  {
    if updates == [] then d else PutAll(Put(d, updates[0].0, updates[0].1), updates[1..])
  }

  /** Two batches one after the other are one batch. */
  lemma {:induction false} PutAllConcat<V>(d: Dict<V>, a: Dict<V>, b: Dict<V>)
    ensures PutAll(d, a + b) == PutAll(PutAll(d, a), b)
    decreases |a|
  {
    if a == [] {
      assert a + b == b;
    } else {
      assert (a + b)[1..] == a[1..] + b;
      PutAllConcat(Put(d, a[0].0, a[0].1), a[1..], b);
    }
  }

  lemma {:induction false} HasIndex<V>(d: Dict<V>, key: string)
    ensures Has(d, key) <==> exists i :: 0 <= i < |d| && d[i].0 == key
    decreases |d|
  {
    if d != [] {
      HasIndex(d[1..], key);
      assert forall i :: 0 <= i < |d[1..]| ==> d[1..][i] == d[i + 1];
      assert forall i :: 0 < i < |d| ==> d[i] == d[1..][i - 1];
    }
  }

  lemma {:induction false} DistinctByIndex<V>(d: Dict<V>)
    requires forall i, j :: 0 <= i < j < |d| ==> d[i].0 != d[j].0
    ensures Distinct(d)
    decreases |d|
  {
    if d != [] {
      HasIndex(d[1..], d[0].0);
      DistinctByIndex(d[1..]);
    }
  }

  lemma {:induction false} EarlierKeysDiffer<V>(d: Dict<V>, n: nat)
    requires Distinct(d) && n < |d|
    ensures forall i :: 0 <= i < n ==> d[i].0 != d[n].0
    decreases |d|
  {
    if n > 0 {
      HasIndex(d[1..], d[0].0);
      EarlierKeysDiffer(d[1..], n - 1);
      assert forall i :: 0 <= i < |d[1..]| ==> d[1..][i] == d[i + 1];
      assert forall i :: 1 <= i < n ==> d[i] == d[1..][i - 1];
    }
  }

  lemma {:induction false} LookupEntry<V>(d: Dict<V>, i: nat)
    requires Distinct(d) && i < |d|
    ensures Lookup(d, d[i].0) == Some(d[i].1)
    decreases |d|
  {
    if i > 0 {
      HasIndex(d[1..], d[0].0);
      assert d[1..][i - 1] == d[i];
      LookupEntry(d[1..], i - 1);
    }
  }

  /** A write changes one key and no other. */
  lemma {:induction false} PutLookup<V>(d: Dict<V>, key: string, value: V, k: string)
    ensures Lookup(Put(d, key, value), k) == if k == key then Some(value) else Lookup(d, k)
    decreases |d|
  {
    if d != [] && d[0].0 != key {
      PutLookup(d[1..], key, value, k);
    }
  }

  lemma {:induction false} PutDistinct<V>(d: Dict<V>, key: string, value: V)
    requires Distinct(d)
    ensures Distinct(Put(d, key, value))
    decreases |d|
  {
    if d != [] && d[0].0 != key {
      PutDistinct(d[1..], key, value);
      PutLookup(d[1..], key, value, d[0].0);
    }
  }

  lemma {:induction false} PutFresh<V>(d: Dict<V>, key: string, value: V)
    requires !Has(d, key)
    ensures Put(d, key, value) == d + [(key, value)]
    decreases |d|
  {
    if d != [] {
      PutFresh(d[1..], key, value);
      assert d == [d[0]] + d[1..];
    }
  }

  lemma {:induction false} RemoveLookup<V>(d: Dict<V>, key: string, k: string)
    requires Distinct(d)
    ensures Lookup(Remove(d, key), k) == if k == key then None else Lookup(d, k)
    ensures Distinct(Remove(d, key))
    decreases |d|
  {
    if d != [] && d[0].0 != key {
      RemoveLookup(d[1..], key, k);
      RemoveLookup(d[1..], key, d[0].0);
    }
  }

  /** A batch of writes: the batch wins on its own keys and touches no other. */
  lemma {:induction false} PutAllLookup<V>(d: Dict<V>, updates: Dict<V>, k: string)
    requires Distinct(updates)
    ensures Lookup(PutAll(d, updates), k) == if Has(updates, k) then Lookup(updates, k) else Lookup(d, k)
    decreases |updates|
  {
    if updates != [] {
      PutLookup(d, updates[0].0, updates[0].1, k);
      PutAllLookup(Put(d, updates[0].0, updates[0].1), updates[1..], k);
    }
  }

  lemma {:induction false} PutAllDistinct<V>(d: Dict<V>, updates: Dict<V>)
    requires Distinct(d)
    ensures Distinct(PutAll(d, updates))
    decreases |updates|
  {
    if updates != [] {
      PutDistinct(d, updates[0].0, updates[0].1);
      PutAllDistinct(Put(d, updates[0].0, updates[0].1), updates[1..]);
    }
  }
}
