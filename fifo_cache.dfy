/** The bounded caches of the image processor, the PDF merger and the file manager:
    a Python dict that, once it holds `max` entries, drops the key inserted first
    (`del cache[next(iter(cache))]`) before storing the new one. */
module FifoCache {
  import opened Common

  /** A dict as Python keeps it: `order` lists the keys in insertion order. */
  datatype Cache<K, V> = Cache(order: seq<K>, entries: map<K, V>)

  function EmptyCache<K, V>(): Cache<K, V> {
    Cache([], map[])
  }

  ghost predicate Valid<K, V>(c: Cache<K, V>) {
    NoDup(c.order) && Elems(c.order) == c.entries.Keys
  }

  /** `len(cache)`. */
  function Size<K, V>(c: Cache<K, V>): nat {
    |c.order|
  }

  /** `del cache[k]`. */
  function Remove<K(==), V>(c: Cache<K, V>, k: K): Cache<K, V> {
    Cache(RemoveKey(c.order, k), c.entries - {k})
  }

  function RemoveKey<K(==)>(s: seq<K>, k: K): (r: seq<K>)
    ensures Elems(r) == Elems(s) - {k}
    ensures NoDup(s) ==> NoDup(r)
    ensures NoDup(s) && k in s ==> |r| == |s| - 1
    ensures k !in s ==> r == s
  {
    if s == [] then []
    else
      assert s == [s[0]] + s[1..];
      NoDupTail(s);
      var rest := RemoveKey(s[1..], k);
      if s[0] == k then rest
      else
        assert s[0] in rest ==> s[0] in Elems(rest);
        NoDupCons(s[0], rest);
        assert Elems([s[0]] + rest) == {s[0]} + Elems(rest);
        [s[0]] + rest
  }

  lemma NoDupTail<T>(s: seq<T>)
    requires s != []
    ensures NoDup(s) ==> NoDup(s[1..]) && s[0] !in s[1..]
  {
  }

  lemma NoDupCons<T>(x: T, t: seq<T>)
    ensures x !in t && NoDup(t) ==> NoDup([x] + t)
  {
    if x !in t && NoDup(t) {
      var s := [x] + t;
      forall i, j | 0 <= i < j < |s| ensures s[i] != s[j] {
        assert s[j] == t[j - 1];
        if i > 0 { assert s[i] == t[i - 1]; }
      }
    }
  }

  /** `cache[k] = v`: a present key keeps its place, a new one goes last. */
  function Put<K(==), V>(c: Cache<K, V>, k: K, v: V): Cache<K, V> {
    if k in c.entries then Cache(c.order, c.entries[k := v])
    else Cache(c.order + [k], c.entries[k := v])
  }

  /** `_add_to_cache`: evict the oldest key when full, then store. The source's
      capacities are all positive, so a full cache is never empty. */
  function Insert<K(==), V>(c: Cache<K, V>, cap: nat, k: K, v: V): Cache<K, V>
    requires cap > 0
  {
    if |c.order| >= cap then Put(Remove(c, c.order[0]), k, v) else Put(c, k, v)
  }

  /** `cache.get(k)`. */
  function Lookup<K, V>(c: Cache<K, V>, k: K): Option<V> {
    if k in c.entries then Some(c.entries[k]) else None
  }

  // ------------------------------------------------------------------ lemmas

  lemma PutValid<K, V>(c: Cache<K, V>, k: K, v: V)
    requires Valid(c)
    ensures Valid(Put(c, k, v))
    ensures Size(Put(c, k, v)) == if k in c.entries then Size(c) else Size(c) + 1
  {
    if k !in c.entries {
      assert k !in c.order;
      var o := c.order + [k];
      assert forall i :: 0 <= i < |c.order| ==> o[i] == c.order[i];
    }
  }

  /** After an insertion the key maps to the new value, and the cache stays a
      well-formed dict. */
  lemma InsertStores<K, V>(c: Cache<K, V>, cap: nat, k: K, v: V)
    requires Valid(c) && cap > 0
    ensures Valid(Insert(c, cap, k, v))
    ensures Lookup(Insert(c, cap, k, v), k) == Some(v)
  {
    if |c.order| >= cap {
      PutValid(Remove(c, c.order[0]), k, v);
    } else {
      PutValid(c, k, v);
    }
  }

  /** A cache that is within its capacity stays within it. */
  lemma InsertBounded<K, V>(c: Cache<K, V>, cap: nat, k: K, v: V)
    requires Valid(c) && cap > 0 && Size(c) <= cap
    ensures Size(Insert(c, cap, k, v)) <= cap
  {
    if |c.order| >= cap {
      PutValid(Remove(c, c.order[0]), k, v);
    } else {
      PutValid(c, k, v);
    }
  }

  /** A cache already over its capacity (the file manager can lower the capacity
      under the current size) never grows again: every insertion evicts first. */
  lemma InsertOverCapacityNeverGrows<K, V>(c: Cache<K, V>, cap: nat, k: K, v: V)
    requires Valid(c) && cap > 0 && Size(c) > cap
    ensures Size(Insert(c, cap, k, v)) <= Size(c)
  {
    PutValid(Remove(c, c.order[0]), k, v);
  }

  /** When full, the key inserted first leaves the cache (unless it is the key
      being stored); every other entry is kept unchanged. */
  lemma InsertEvictsOldest<K, V>(c: Cache<K, V>, cap: nat, k: K, v: V)
    requires Valid(c) && cap > 0 && Size(c) >= cap
    ensures k != c.order[0] ==> Lookup(Insert(c, cap, k, v), c.order[0]) == None
    ensures forall x :: x in c.entries && x != c.order[0] && x != k ==>
              Lookup(Insert(c, cap, k, v), x) == Some(c.entries[x])
  {
  }

  /** Storing a key that is already present into a full cache still evicts the
      oldest entry, so the cache shrinks by one. */
  lemma FullUpdateShrinks<K, V>(c: Cache<K, V>, cap: nat, k: K, v: V)
    requires Valid(c) && cap > 0 && Size(c) >= cap && k in c.entries && k != c.order[0]
    ensures Size(Insert(c, cap, k, v)) == Size(c) - 1
  {
    assert c.order[0] in c.order;
    var r := Remove(c, c.order[0]);
    assert k in r.entries;
    PutValid(r, k, v);
  }

  /** Below capacity nothing is evicted. */
  lemma InsertKeepsWhenRoom<K, V>(c: Cache<K, V>, cap: nat, k: K, v: V)
    requires Valid(c) && cap > 0 && Size(c) < cap
    ensures forall x :: x in c.entries && x != k ==> Lookup(Insert(c, cap, k, v), x) == Some(c.entries[x])
  {
  }
}
