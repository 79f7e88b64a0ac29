/** The JavaScript `Map` as the handlers use it to remove duplicates from a list:
    `items.forEach(x => m.set(key(x), x))` followed by `Array.from(m.values())`.
    A `Map` remembers the order in which keys were first set; setting a key that
    is already present replaces its value in place. */
module JsMap {

  datatype JsMap<K, V> = JsMap(keys: seq<K>, vals: map<K, V>)

  /** Keys are listed once each, and exactly the keys that have a value. */
  ghost predicate Valid<K(!new), V>(m: JsMap<K, V>) {
    (forall i, j :: 0 <= i < j < |m.keys| ==> m.keys[i] != m.keys[j])
    && (forall k :: k in m.vals <==> k in m.keys)
  }

  function Empty<K(==,!new), V>(): (m: JsMap<K, V>)
    ensures Valid(m) && m.keys == []
  {
    JsMap([], map[])
  }

  /** `m.set(k, v)`. */
  function Set<K(==,!new), V>(m: JsMap<K, V>, k: K, v: V): (r: JsMap<K, V>)
    requires Valid(m)
    ensures Valid(r)
    ensures r.vals == m.vals[k := v]
    ensures k in m.keys ==> r.keys == m.keys
    ensures k !in m.keys ==> r.keys == m.keys + [k]
  {
    if k in m.keys then JsMap(m.keys, m.vals[k := v]) else JsMap(m.keys + [k], m.vals[k := v])
  }

  /** `Array.from(m.values())`, in key order. */
  function Values<K(==,!new), V>(m: JsMap<K, V>): (r: seq<V>)
    requires Valid(m)
    ensures |r| == |m.keys|
    ensures forall i :: 0 <= i < |r| ==> r[i] == m.vals[m.keys[i]]
  {
    seq(|m.keys|, i requires 0 <= i < |m.keys| && Valid(m) => m.vals[m.keys[i]])
  }

  /** The map after setting every item under its key, first to last. */
  function Index<T, K(==,!new)>(items: seq<T>, key: T -> K): (m: JsMap<K, T>)
    ensures Valid(m)
  {
    if items == [] then Empty()
    else
      var n := |items| - 1;
      Set(Index(items[..n], key), key(items[n]), items[n])
  }

  /** The loop the handlers write: set every item under its key, then list the values. */
  method DedupeBy<T, K(==,!new)>(items: seq<T>, key: T -> K) returns (r: seq<T>)
    ensures r == Values(Index(items, key))
  {
    var m := Empty();
    var i := 0;
    while i < |items|
      invariant 0 <= i <= |items|
      invariant m == Index(items[..i], key)
    {
      assert items[..i + 1][..i] == items[..i];
      m := Set(m, key(items[i]), items[i]);
      i := i + 1;
    }
    assert items[..|items|] == items;
    r := Values(m);
  }

  /** The keys are exactly the keys of the items, and each value is the last item
      set under its key. */
  lemma IndexContents<T, K(!new)>(items: seq<T>, key: T -> K)
    ensures forall k :: k in Index(items, key).keys <==> exists i :: 0 <= i < |items| && key(items[i]) == k
    ensures forall k :: k in Index(items, key).vals ==>
      exists i :: 0 <= i < |items| && items[i] == Index(items, key).vals[k] && key(items[i]) == k
        && forall j :: i < j < |items| ==> key(items[j]) != k
  {
    IndexKeys(items, key);
    IndexVals(items, key);
  }

  lemma IndexKeys<T, K(!new)>(items: seq<T>, key: T -> K)
    ensures forall k :: k in Index(items, key).keys <==> exists i :: 0 <= i < |items| && key(items[i]) == k
  {
    forall k ensures k in Index(items, key).keys <==> exists i :: 0 <= i < |items| && key(items[i]) == k {
      KeyOccurs(items, key, k);
    }
  }

  lemma {:induction false} KeyOccurs<T, K(!new)>(items: seq<T>, key: T -> K, k: K)
    ensures k in Index(items, key).keys <==> exists i :: 0 <= i < |items| && key(items[i]) == k
  {
    if items != [] {
      var n := |items| - 1;
      var p := items[..n];
      KeyOccurs(p, key, k);
      if k in Index(items, key).keys && k != key(items[n]) {
        var i :| 0 <= i < |p| && key(p[i]) == k;
        assert key(items[i]) == k;
      }
      if k !in Index(items, key).keys {
        forall i | 0 <= i < |items| ensures key(items[i]) != k {
          if i < n { assert items[i] == p[i]; }
        }
      }
    }
  }

  lemma IndexVals<T, K(!new)>(items: seq<T>, key: T -> K)
    ensures forall k :: k in Index(items, key).vals ==>
      exists i :: 0 <= i < |items| && items[i] == Index(items, key).vals[k] && key(items[i]) == k
        && forall j :: i < j < |items| ==> key(items[j]) != k
  {
    forall k | k in Index(items, key).vals
      ensures exists i :: (0 <= i < |items| && items[i] == Index(items, key).vals[k] && key(items[i]) == k
        && forall j :: i < j < |items| ==> key(items[j]) != k)
    {
      var i := LastWithKey(items, key, k);
    }
  }

  /** The position of the last item with key `k`, whose value the map holds. */
  lemma {:induction false} LastWithKey<T, K(!new)>(items: seq<T>, key: T -> K, k: K) returns (i: nat)
    requires k in Index(items, key).vals
    ensures i < |items| && items[i] == Index(items, key).vals[k] && key(items[i]) == k
    ensures forall j :: i < j < |items| ==> key(items[j]) != k
  {
    var n := |items| - 1;
    var p := items[..n];
    if k == key(items[n]) {
      i := n;
    } else {
      assert k in Index(p, key).vals;
      i := LastWithKey(p, key, k);
      assert items[i] == p[i];
      forall j | i < j < |items| ensures key(items[j]) != k {
        if j < n { assert items[j] == p[j]; }
      }
    }
  }

  /** Keys appear in the order of their first occurrence among the items. */
  lemma {:induction false} IndexOrder<T, K(!new)>(items: seq<T>, key: T -> K, a: nat, b: nat, i: nat)
    requires a < b < |Index(items, key).keys|
    requires i < |items| && key(items[i]) == Index(items, key).keys[b]
    ensures exists j :: 0 <= j < i && key(items[j]) == Index(items, key).keys[a]
  {
    var n := |items| - 1;
    var p := items[..n];
    var m := Index(items, key);
    var mp := Index(p, key);
    if i == n && m.keys[b] !in mp.keys {
      OrderOfNewKey(items, key, a, b);
    } else {
      var i' := i;
      if i == n {
        IndexKeys(p, key);
        i' :| 0 <= i' < |p| && key(p[i']) == m.keys[b];
      } else {
        assert items[i] == p[i];
        KeyOccurs(p, key, key(p[i]));
      }
      OldKeyPosition(items, key, b);
      IndexOrder(p, key, a, b, i');
      var j :| 0 <= j < i' && key(p[j]) == mp.keys[a];
      assert key(items[j]) == m.keys[a];
    }
  }

  /** A key the last item adds comes after every earlier key, each of which
      some earlier item carries. */
  lemma OrderOfNewKey<T, K(!new)>(items: seq<T>, key: T -> K, a: nat, b: nat)
    requires items != [] && a < b < |Index(items, key).keys|
    requires Index(items, key).keys[b] == key(items[|items| - 1])
    requires Index(items, key).keys[b] !in Index(items[..|items| - 1], key).keys
    ensures exists j :: 0 <= j < |items| - 1 && key(items[j]) == Index(items, key).keys[a]
  {
    var n := |items| - 1;
    var p := items[..n];
    var m := Index(items, key);
    var mp := Index(p, key);
    assert m.keys == mp.keys + [key(items[n])];
    IndexKeys(p, key);
    assert m.keys[a] == mp.keys[a] && mp.keys[a] in mp.keys;
    var j :| 0 <= j < |p| && key(p[j]) == m.keys[a];
    assert key(items[j]) == m.keys[a];
  }

  /** A key that was already present keeps its position. */
  lemma OldKeyPosition<T, K(!new)>(items: seq<T>, key: T -> K, b: nat)
    requires items != [] && b < |Index(items, key).keys|
    requires Index(items, key).keys[b] in Index(items[..|items| - 1], key).keys
    ensures b < |Index(items[..|items| - 1], key).keys|
    ensures Index(items[..|items| - 1], key).keys[b] == Index(items, key).keys[b]
  {
  }

  /** Each listed value is stored under its own key. */
  lemma ValueKeys<T, K(!new)>(items: seq<T>, key: T -> K)
    ensures forall i :: 0 <= i < |Index(items, key).keys| ==>
      key(Values(Index(items, key))[i]) == Index(items, key).keys[i]
  {
    var m := Index(items, key);
    IndexContents(items, key);
    forall i | 0 <= i < |m.keys| ensures key(Values(m)[i]) == m.keys[i] {
      var k := m.keys[i];
      assert k in m.vals;
    }
  }

  /** The deduplicated list holds one item per distinct key, and every key of the
      input is represented. */
  lemma DedupedKeys<T, K(!new)>(items: seq<T>, key: T -> K)
    ensures var r := Values(Index(items, key));
      (forall i, j :: 0 <= i < j < |r| ==> key(r[i]) != key(r[j]))
      && (forall x :: x in items ==> exists i :: 0 <= i < |r| && key(r[i]) == key(x))
  {
    var m := Index(items, key);
    var r := Values(m);
    ValueKeys(items, key);
    IndexContents(items, key);
    forall x | x in items ensures exists i :: 0 <= i < |r| && key(r[i]) == key(x) {
      var l :| 0 <= l < |items| && items[l] == x;
      assert key(x) in m.keys;
      var i :| 0 <= i < |m.keys| && m.keys[i] == key(x);
      assert key(r[i]) == key(x);
    }
  }

  /** Every listed item comes from the input, and it is the last input item with
      its key. */
  lemma DedupedLast<T, K(!new)>(items: seq<T>, key: T -> K)
    ensures var r := Values(Index(items, key));
      forall i :: 0 <= i < |r| ==> exists l :: (0 <= l < |items| && items[l] == r[i]
        && forall j :: l < j < |items| ==> key(items[j]) != key(r[i]))
  {
    var m := Index(items, key);
    var r := Values(m);
    ValueKeys(items, key);
    IndexContents(items, key);
    forall i | 0 <= i < |r| ensures exists l :: (0 <= l < |items| && items[l] == r[i]
        && forall j :: l < j < |items| ==> key(items[j]) != key(r[i]))
    {
      assert m.keys[i] in m.vals;
    }
  }
}
