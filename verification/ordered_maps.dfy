/**
 * Insertion-ordered dictionaries, as Python's `dict` behaves: iteration
 * follows the order in which keys were FIRST inserted, and assigning to an
 * existing key replaces its value without moving it.
 */
module OrderedMaps {
  import opened Options

  /** `order` lists the keys in first-insertion order; `entries` holds the values. */
  datatype OrderedMap<K, V> = OrderedMap(order: seq<K>, entries: map<K, V>)

  /** No key is listed twice. */
  predicate Distinct<K(==)>(s: seq<K>)
  {
    forall i, j :: 0 <= i < j < |s| ==> s[i] != s[j]
  }

  /** The order lists every key exactly once and nothing else. */
  ghost predicate Valid<K(!new), V>(m: OrderedMap<K, V>)
  {
    && Distinct(m.order)
    && (forall k :: k in m.entries <==> k in m.order)
  }

  function Empty<K(!new), V>(): (m: OrderedMap<K, V>)
    ensures Valid(m)
    ensures m.entries == map[]
  {
    OrderedMap([], map[])
  }

  /** Python's `d[k] = v`. */
  function Put<K(!new), V>(m: OrderedMap<K, V>, k: K, v: V): (r: OrderedMap<K, V>)
    requires Valid(m)
    ensures Valid(r)
    ensures r.entries.Keys == m.entries.Keys + {k}
    ensures k in r.entries && r.entries[k] == v
    ensures forall k' :: k' in m.entries && k' != k ==> r.entries[k'] == m.entries[k']
    // an existing key keeps its place; a new one goes last
    ensures k in m.entries ==> r.order == m.order
    ensures k !in m.entries ==> r.order == m.order + [k]
  {
    if k in m.entries then OrderedMap(m.order, m.entries[k := v])
    else OrderedMap(m.order + [k], m.entries[k := v])
  }

  /** Python's `len(d) > 0`. */
  predicate NonEmpty<K, V>(m: OrderedMap<K, V>)
  {
    |m.entries| > 0
  }

  /**
   * A loop that visits `xs` in order and, for each element that yields an
   * entry `(k, v)`, performs `d[k] = v` on an initially empty dictionary.
   */
  function PutAll<T, K(!new), V>(xs: seq<T>, entry: T -> Option<(K, V)>): (m: OrderedMap<K, V>)
    ensures Valid(m)
    decreases |xs|
  {
    if |xs| == 0 then Empty()
    else
      var m := PutAll(xs[..|xs| - 1], entry);
      match entry(xs[|xs| - 1])
      case None => m
      case Some(kv) => Put(m, kv.0, kv.1)
  }

  /** Some element before position `j` yields an entry with key `k`. */
  ghost predicate KeyedBefore<T, K, V>(xs: seq<T>, j: int, k: K, entry: T -> Option<(K, V)>)
    requires 0 <= j <= |xs|
  {
    exists i :: 0 <= i < j && entry(xs[i]).Some? && entry(xs[i]).value.0 == k
  }

  /** No element after position `i` yields an entry with the key `xs[i]` yields. */
  ghost predicate LastOfKey<T, K, V>(xs: seq<T>, i: int, entry: T -> Option<(K, V)>)
    requires 0 <= i < |xs| && entry(xs[i]).Some?
  {
    forall j :: i < j < |xs| && entry(xs[j]).Some? ==> entry(xs[j]).value.0 != entry(xs[i]).value.0
  }

  /**
   * `order` lists keys in the order of the first element yielding each: an
   * element yielding a later key comes after one yielding an earlier key.
   */
  ghost predicate InKeyOrder<T, K, V>(xs: seq<T>, order: seq<K>, entry: T -> Option<(K, V)>)
  {
    forall p, q, j ::
      (0 <= p < q < |order| && 0 <= j < |xs| &&
       entry(xs[j]).Some? && entry(xs[j]).value.0 == order[q]) ==>
      KeyedBefore(xs, j, order[p], entry)
  }

  /** Dropping the last element does not change what comes before it. */
  lemma KeyedBeforeInit<T, K, V>(xs: seq<T>, entry: T -> Option<(K, V)>)
    requires |xs| > 0
    ensures forall k, j :: 0 <= j < |xs| ==>
              KeyedBefore(xs[..|xs| - 1], j, k, entry) == KeyedBefore(xs, j, k, entry)
  {
    var init := xs[..|xs| - 1];
    forall k, j | 0 <= j < |xs|
      ensures KeyedBefore(init, j, k, entry) == KeyedBefore(xs, j, k, entry)
    {
      if KeyedBefore(xs, j, k, entry) {
        var i :| 0 <= i < j && entry(xs[i]).Some? && entry(xs[i]).value.0 == k;
        assert init[i] == xs[i];
      }
    }
  }

  /** A key is present exactly when some element yields it. */
  lemma {:induction false} PutAllKeys<T, K(!new), V>(xs: seq<T>, entry: T -> Option<(K, V)>)
    ensures forall k :: k in PutAll(xs, entry).entries <==> KeyedBefore(xs, |xs|, k, entry)
    decreases |xs|
  {
    if |xs| > 0 {
      var n := |xs| - 1;
      PutAllKeys(xs[..n], entry);
      KeyedBeforeInit(xs, entry);
      forall k
        ensures KeyedBefore(xs, |xs|, k, entry) <==>
                KeyedBefore(xs, n, k, entry) || (entry(xs[n]).Some? && entry(xs[n]).value.0 == k)
      {
        if KeyedBefore(xs, |xs|, k, entry) {
          var i :| 0 <= i < |xs| && entry(xs[i]).Some? && entry(xs[i]).value.0 == k;
          if i < n { assert KeyedBefore(xs, n, k, entry); }
        }
      }
    }
  }

  /** Every stored value is the value some element yielded for that key. */
  lemma {:induction false} PutAllValues<T, K(!new), V>(xs: seq<T>, entry: T -> Option<(K, V)>)
    ensures forall k :: k in PutAll(xs, entry).entries ==>
              exists i :: 0 <= i < |xs| && entry(xs[i]) == Some((k, PutAll(xs, entry).entries[k]))
    decreases |xs|
  {
    if |xs| > 0 {
      var n := |xs| - 1;
      var m0 := PutAll(xs[..n], entry);
      var m := PutAll(xs, entry);
      PutAllValues(xs[..n], entry);
      forall k | k in m.entries
        ensures exists i :: 0 <= i < |xs| && entry(xs[i]) == Some((k, m.entries[k]))
      {
        if entry(xs[n]).Some? && entry(xs[n]).value.0 == k {
          assert entry(xs[n]) == Some((k, m.entries[k]));
        } else {
          var i :| 0 <= i < n && entry(xs[..n][i]) == Some((k, m0.entries[k]));
          assert xs[..n][i] == xs[i];
        }
      }
    }
  }

  /** The element that yields a key LAST decides that key's value. */
  lemma {:induction false} PutAllLastWins<T, K(!new), V>(xs: seq<T>, entry: T -> Option<(K, V)>)
    ensures forall i :: 0 <= i < |xs| && entry(xs[i]).Some? && LastOfKey(xs, i, entry) ==>
              entry(xs[i]).value.0 in PutAll(xs, entry).entries &&
              PutAll(xs, entry).entries[entry(xs[i]).value.0] == entry(xs[i]).value.1
    decreases |xs|
  {
    if |xs| > 0 {
      var n := |xs| - 1;
      var init := xs[..n];
      PutAllLastWins(init, entry);
      forall i | 0 <= i < |xs| && entry(xs[i]).Some? && LastOfKey(xs, i, entry)
        ensures entry(xs[i]).value.0 in PutAll(xs, entry).entries &&
                PutAll(xs, entry).entries[entry(xs[i]).value.0] == entry(xs[i]).value.1
      {
        if i < n {
          assert init[i] == xs[i];
          assert LastOfKey(init, i, entry);
        }
      }
    }
  }

  /** Keys are listed in the order of the first element that yields each. */
  lemma {:induction false} PutAllOrder<T, K(!new), V>(xs: seq<T>, entry: T -> Option<(K, V)>)
    ensures InKeyOrder(xs, PutAll(xs, entry).order, entry)
    decreases |xs|, 1
  {
    var m := PutAll(xs, entry);
    forall p, q, j | 0 <= p < q < |m.order| && 0 <= j < |xs| &&
                     entry(xs[j]).Some? && entry(xs[j]).value.0 == m.order[q]
      ensures KeyedBefore(xs, j, m.order[p], entry)
    {
      PutAllOrderAt(xs, entry, p, q, j);
    }
  }

  /** One instance of `PutAllOrder`, by induction on the length of `xs`. */
  lemma {:induction false} PutAllOrderAt<T, K(!new), V>(xs: seq<T>, entry: T -> Option<(K, V)>, p: int, q: int, j: int)
    requires 0 <= p < q < |PutAll(xs, entry).order| && 0 <= j < |xs|
    requires entry(xs[j]).Some? && entry(xs[j]).value.0 == PutAll(xs, entry).order[q]
    ensures KeyedBefore(xs, j, PutAll(xs, entry).order[p], entry)
    decreases |xs|, 0
  {
    var n := |xs| - 1;
    var init := xs[..n];
    var m0 := PutAll(init, entry);
    var m := PutAll(xs, entry);
    assert m.order[..|m0.order|] == m0.order && |m.order| <= |m0.order| + 1;
    var kp := m.order[p];
    assert kp == m0.order[p];
    if j < n {
      assert init[j] == xs[j];
      if q < |m0.order| {
        assert KeyedBefore(init, j, kp, entry) by { PutAllOrder(init, entry); }
        var i :| 0 <= i < j && entry(init[i]).Some? && entry(init[i]).value.0 == kp;
        assert xs[i] == init[i];
      } else {
        PutAllKeys(init, entry);
        assert false;
      }
    } else if q < |m0.order| {
      var k := m0.order[q];
      assert KeyedBefore(init, n, k, entry) by { PutAllKeys(init, entry); }
      var j' :| 0 <= j' < n && entry(init[j']).Some? && entry(init[j']).value.0 == k;
      assert KeyedBefore(init, j', kp, entry) by { PutAllOrder(init, entry); }
      var i :| 0 <= i < j' && entry(init[i]).Some? && entry(init[i]).value.0 == kp;
      assert xs[i] == init[i];
    } else {
      assert KeyedBefore(init, n, kp, entry) by { PutAllKeys(init, entry); }
      var i :| 0 <= i < n && entry(init[i]).Some? && entry(init[i]).value.0 == kp;
      assert xs[i] == init[i];
    }
  }
}
