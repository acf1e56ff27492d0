/** The tables of dict.c as values: buckets of chained entries, and what all buckets hold together. */
module DictTables {
  import opened Wrappers
  import opened Entries

  type Chain<K, V> = seq<Entry<K, V>>

  type Table<K, V> = seq<Chain<K, V>>

  predicate IsPow2(n: nat) {
    n == 1 || (n > 1 && n % 2 == 0 && IsPow2(n / 2))
  }

  /** Everything a table holds. */
  ghost function Items<K, V>(t: Table<K, V>): multiset<Entry<K, V>> {
    if t == [] then multiset{} else Items(t[..|t| - 1]) + multiset(t[|t| - 1])
  }

  lemma {:induction false} ItemsIn<K, V>(t: Table<K, V>, e: Entry<K, V>)
    ensures e in Items(t) <==> exists i :: 0 <= i < |t| && e in t[i]
  {
    if t != [] {
      var n := |t| - 1;
      ItemsIn(t[..n], e);
      if e in Items(t[..n]) {
        var i :| 0 <= i < n && e in t[..n][i];
        assert e in t[i];
      } else if e in t[n] {
        assert e in multiset(t[n]);
      }
      if i :| 0 <= i < |t| && e in t[i] {
        if i < n { assert e in t[..n][i]; } else { assert e in multiset(t[n]); }
      }
    }
  }

  /** Changing one bucket changes what the table holds by just that bucket. */
  lemma {:induction false} ItemsUpdate<K, V>(t: Table<K, V>, i: nat, c: Chain<K, V>)
    requires i < |t|
    ensures Items(t[i := c]) + multiset(t[i]) == Items(t) + multiset(c)
  {
    var n := |t| - 1;
    var u := t[i := c];
    assert Items(u) == Items(u[..n]) + multiset(u[n]);
    if i == n {
      assert u[..n] == t[..n];
    } else {
      ItemsUpdate(t[..n], i, c);
      assert u[..n] == t[..n][i := c];
      Shift(Items(u[..n]), multiset(t[i]), Items(t[..n]), multiset(c), multiset(t[n]));
    }
  }

  lemma ItemsEmpty<K, V>(t: Table<K, V>)
    ensures Items(t) == multiset{} <==> forall i :: 0 <= i < |t| ==> t[i] == []
  {
    forall e ensures e in Items(t) <==> exists i :: 0 <= i < |t| && e in t[i] { ItemsIn(t, e); }
    forall i | 0 <= i < |t| ensures t[i] == [] || t[i][0] in Items(t) { FirstIn(t[i]); }
    if Items(t) != multiset{} {
      var e :| e in Items(t);
      var i :| 0 <= i < |t| && e in t[i];
      assert t[i] != [];
    }
  }

  lemma FirstIn<K, V>(c: Chain<K, V>)
    ensures c == [] || c[0] in c
  {
  }

  /** Every entry is in the bucket its hash selects, and no key is twice in a bucket. */
  ghost predicate Placed<K, V>(hash: K -> nat, t: Table<K, V>) {
    forall i, j :: 0 <= i < |t| && 0 <= j < |t[i]| ==> hash(t[i][j].key) % |t| == i
  }

  /** Entries are found in the bucket that their hash selects. */
  lemma PlacedIn<K, V>(hash: K -> nat, t: Table<K, V>, e: Entry<K, V>)
    requires Placed(hash, t) && |t| > 0
    ensures e in Items(t) <==> e in t[hash(e.key) % |t|]
  {
    ItemsIn(t, e);
    if i :| 0 <= i < |t| && e in t[i] {
      var j :| 0 <= j < |t[i]| && t[i][j] == e;
      assert hash(t[i][j].key) % |t| == i;
    }
  }

  // ----- chains -----

  /** Where the first entry with the key is; the length of the chain if there is none. */
  function Position<K(==), V>(c: Chain<K, V>, k: K): (j: nat)
    ensures j <= |c| && (j < |c| ==> c[j].key == k) && forall i :: 0 <= i < j ==> c[i].key != k
  {
    if c == [] || c[0].key == k then 0 else 1 + Position(c[1..], k)
  }

  function Without<K, V>(c: Chain<K, V>, j: nat): Chain<K, V>
    requires j < |c|
  {
    c[..j] + c[j + 1..]
  }

  lemma WithoutItems<K, V>(c: Chain<K, V>, j: nat)
    requires j < |c|
    ensures multiset(Without(c, j)) + multiset{c[j]} == multiset(c)
  {
    assert c == c[..j] + [c[j]] + c[j + 1..];
  }

  lemma PushItems<K, V>(c: Chain<K, V>, e: Entry<K, V>)
    ensures multiset([e] + c) == multiset(c) + multiset{e}
  {
    assert multiset([e]) == multiset{e};
  }

  // ----- buckets -----

  /** The bucket of a key. */
  function Bucket<K, V>(hash: K -> nat, t: Table<K, V>, k: K): (i: nat)
    requires t != []
    ensures i < |t|
  {
    hash(k) % |t|
  }

  function Push<K, V>(hash: K -> nat, t: Table<K, V>, e: Entry<K, V>): (u: Table<K, V>)
    requires t != []
    ensures |u| == |t|
  {
    var i := Bucket(hash, t, e.key);
    t[i := [e] + t[i]]
  }

  lemma PushKeeps<K, V>(hash: K -> nat, t: Table<K, V>, e: Entry<K, V>)
    requires t != [] && Placed(hash, t)
    ensures Placed(hash, Push(hash, t, e)) && Items(Push(hash, t, e)) == Items(t) + multiset{e}
  {
    var i := Bucket(hash, t, e.key);
    ItemsUpdate(t, i, [e] + t[i]);
    PushItems(t[i], e);
    Cancel(Items(Push(hash, t, e)), multiset(t[i]), Items(t), multiset{e});
  }

  function Unlink<K, V>(t: Table<K, V>, i: nat, j: nat): (u: Table<K, V>)
    requires i < |t| && j < |t[i]|
    ensures |u| == |t|
  {
    t[i := Without(t[i], j)]
  }

  lemma UnlinkKeeps<K, V>(hash: K -> nat, t: Table<K, V>, i: nat, j: nat)
    requires i < |t| && j < |t[i]| && Placed(hash, t)
    ensures Placed(hash, Unlink(t, i, j)) && Items(t) == Items(Unlink(t, i, j)) + multiset{t[i][j]}
  {
    var c := Without(t[i], j);
    ItemsUpdate(t, i, c);
    WithoutItems(t[i], j);
    Cancel(Items(t), multiset(c), Items(Unlink(t, i, j)), multiset{t[i][j]});
  }

  function SetValue<K, V>(t: Table<K, V>, i: nat, j: nat, v: V): (u: Table<K, V>)
    requires i < |t| && j < |t[i]|
    ensures |u| == |t|
  {
    t[i := t[i][j := Entry(t[i][j].key, v)]]
  }

  /** Setting a value is taking the entry out and putting a new one in. */
  lemma SetValueKeeps<K, V>(hash: K -> nat, t: Table<K, V>, i: nat, j: nat, v: V)
    requires i < |t| && j < |t[i]| && Placed(hash, t)
    ensures Placed(hash, SetValue(t, i, j, v))
    ensures Items(SetValue(t, i, j, v)) == Items(Unlink(t, i, j)) + multiset{Entry(t[i][j].key, v)}
  {
    var e, c := Entry(t[i][j].key, v), t[i][j := Entry(t[i][j].key, v)];
    var u, w := SetValue(t, i, j, v), Unlink(t, i, j);
    WithoutItems(c, j);
    assert Without(c, j) == Without(t[i], j);
    ItemsUpdate(w, i, c);
    assert w[i := c] == u;
    Cancel(Items(u), multiset(w[i]), Items(w), multiset{e});
  }
}
