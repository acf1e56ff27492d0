/** Collections of keys with values, and the maps they stand for. */
module Entries {

  datatype Entry<K, V> = Entry(key: K, value: V)

  /** No key occurs twice. */
  ghost predicate Unique<K, V>(items: multiset<Entry<K, V>>) {
    && (forall e :: e in items ==> items[e] == 1)
    && (forall e, f :: e in items && f in items && e.key == f.key ==> e == f)
  }

  ghost predicate HasKey<K, V>(items: multiset<Entry<K, V>>, k: K) {
    exists e :: e in items && e.key == k
  }

  /** The map that a collection of entries stands for. */
  ghost function MapOf<K, V>(items: multiset<Entry<K, V>>): (m: map<K, V>)
    requires Unique(items)
    ensures forall e :: e in items ==> e.key in m && m[e.key] == e.value
    ensures forall k :: k in m ==> HasKey(items, k)
  {
    var m := map e | e in items :: e.key := e.value;
    assert forall k :: k in m ==> exists e :: e in items && e.key == k;
    m
  }

  lemma OneMore<K, V>(items: multiset<Entry<K, V>>, e: Entry<K, V>, all: multiset<Entry<K, V>>)
    requires all == items + multiset{e}
    ensures forall f :: f in all <==> f in items || f == e
    ensures forall f :: f in items && f != e ==> all[f] == items[f]
    ensures all[e] == items[e] + 1
  {
    forall f ensures all[f] == items[f] + (if f == e then 1 else 0) {}
  }

  lemma UniqueAdd<K, V>(items: multiset<Entry<K, V>>, e: Entry<K, V>, all: multiset<Entry<K, V>>)
    requires all == items + multiset{e} && Unique(items) && !HasKey(items, e.key)
    ensures Unique(all)
  {
    OneMore(items, e, all);
    assert e !in items;
  }

  lemma UniqueRemove<K, V>(items: multiset<Entry<K, V>>, e: Entry<K, V>, all: multiset<Entry<K, V>>)
    requires all == items + multiset{e} && Unique(all)
    ensures Unique(items) && !HasKey(items, e.key)
  {
    OneMore(items, e, all);
    assert e !in items;
  }

  lemma MapAdd<K, V>(items: multiset<Entry<K, V>>, e: Entry<K, V>, all: multiset<Entry<K, V>>)
    requires all == items + multiset{e} && Unique(items) && !HasKey(items, e.key)
    ensures Unique(all) && MapOf(all) == MapOf(items)[e.key := e.value] && e.key !in MapOf(items)
  {
    UniqueAdd(items, e, all);
    OneMore(items, e, all);
    MapsAgree(items, e, all);
  }

  lemma MapsAgree<K, V>(items: multiset<Entry<K, V>>, e: Entry<K, V>, all: multiset<Entry<K, V>>)
    requires Unique(items) && Unique(all) && !HasKey(items, e.key) && forall f :: f in all <==> f in items || f == e
    ensures MapOf(all) == MapOf(items)[e.key := e.value] && e.key !in MapOf(items)
  {
    hide Unique, MapOf;
    var m1, m2 := MapOf(all), MapOf(items);
    forall k | k in m1 ensures k == e.key || (k in m2 && m1[k] == m2[k]) {
      var f :| f in all && f.key == k;
    }
    forall k | k in m2 ensures k in m1 && k != e.key {
      var f :| f in items && f.key == k;
      assert f in all;
    }
  }

  lemma MapRemove<K, V>(items: multiset<Entry<K, V>>, e: Entry<K, V>, all: multiset<Entry<K, V>>)
    requires all == items + multiset{e} && Unique(all)
    ensures Unique(items) && MapOf(items) == MapOf(all) - {e.key}
    ensures e.key in MapOf(all) && MapOf(all)[e.key] == e.value
  {
    UniqueRemove(items, e, all);
    hide Unique, HasKey, MapOf;
    MapAdd(items, e, all);
    MapMinus(MapOf(items), e.key, e.value);
  }

  lemma MapMinus<K, V>(m: map<K, V>, k: K, v: V)
    requires k !in m
    ensures m[k := v] - {k} == m
  {
    assert (m[k := v] - {k}).Keys == m.Keys;
  }

  // ----- multisets -----

  lemma Shift<T>(a: multiset<T>, b: multiset<T>, c: multiset<T>, d: multiset<T>, e: multiset<T>)
    requires a + b == c + d
    ensures (a + e) + b == (c + e) + d
  {
    forall x ensures ((a + e) + b)[x] == ((c + e) + d)[x] {
      assert (a + b)[x] == (c + d)[x];
    }
  }

  lemma Cancel<T>(a: multiset<T>, b: multiset<T>, c: multiset<T>, d: multiset<T>)
    requires a + b == c + (b + d)
    ensures a == c + d
  {
    forall x ensures a[x] == (c + d)[x] {
      assert (a + b)[x] == (c + (b + d))[x];
    }
  }
}
