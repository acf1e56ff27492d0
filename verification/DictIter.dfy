/** Safe iterators of dict.c.  An iterator stands at an entry and has saved the one after it, so that the
    caller may delete what was returned.  Entries are named by their keys. */
module DictIter {
  import opened Wrappers
  import opened Entries
  import opened DictTables
  import opened DictState

  /** The fields of an iterator: table and bucket, the entry it stands at, the entry saved as the next. */
  datatype It<K> = It(table: int, index: int, entry: Option<K>, next: Option<K>)

  function Fresh<K>(): It<K> { It(0, -1, None, None) }

  function TableAt<K, V>(st: St<K, V>, table: int): Table<K, V> { if table == 0 then st.t0 else st.t1 }

  function KeyAt<K, V>(c: Chain<K, V>, j: nat): Option<K> { if j < |c| then Some(c[j].key) else None }

  /** The entry after one in its chain. */
  function After<K(==), V>(c: Chain<K, V>, k: K): Option<K> { KeyAt(c, Position(c, k) + 1) }

  /** The iterator makes sense: the saved entry is in the bucket it stands at. */
  ghost predicate ItOk<K, V>(st: St<K, V>, it: It<K>) {
    && it.index >= -1 && (it.table == 0 || (it.table == 1 && Rehashing(st)))
    && (it.entry.Some? && it.next.Some? ==>
          var t := TableAt(st, it.table);
          0 <= it.index < |t| && Position(t[it.index], it.next.value) < |t[it.index]|)
    && (it.entry.Some? ==> 0 <= it.index < |TableAt(st, it.table)|)
  }

  /** Go on to the given bucket. */
  function Enter<K, V>(t: Table<K, V>, table: int, index: int): It<K>
    requires 0 <= index < |t|
  {
    It(table, index, KeyAt(t[index], 0), KeyAt(t[index], 1))
  }

  predicate ItRange<K, V>(st: St<K, V>, it: It<K>) {
    && it.index >= -1 && (it.table == 0 || it.table == 1)
    && (it.entry.Some? ==> 0 <= it.index < |TableAt(st, it.table)|)
  }

  lemma ItOkRange<K, V>(st: St<K, V>, it: It<K>)
    requires ItOk(st, it)
    ensures ItRange(st, it)
  {
  }

  lemma ItOkSame<K, V>(st: St<K, V>, n: int, it: It<K>)
    requires ItOk(st, it)
    ensures ItOk(st.(iterators := n), it)
  {
  }

  /** One turn of the loop of dictNext; the flag tells that there is nothing left. */
  function Turn<K(==), V>(st: St<K, V>, it: It<K>): (It<K>, bool)
    requires ItRange(st, it) && (Rehashing(st) ==> st.t1 != [])
  {
    var t := TableAt(st, it.table);
    if it.entry.None? then
      var index := it.index + 1;
      if index < |t| then (Enter(t, it.table, index), false)
      else if Rehashing(st) && it.table == 0 then (Enter(st.t1, 1, 0), false)
      else (it.(index := index), true)
    else if it.next.None? then (it.(entry := None), false)
    else (it.(entry := it.next, next := After(t[it.index], it.next.value)), false)
  }

  /** dictNext: the iterator afterwards and the key returned. */
  function Next<K(==), V>(st: St<K, V>, it: It<K>): (It<K>, Option<K>)
    requires ItRange(st, it) && (Rehashing(st) ==> st.t1 != [])
    decreases 1 - it.table, if it.index < |TableAt(st, it.table)| then |TableAt(st, it.table)| - it.index else 0, it.entry.Some?
  {
    var (it', done) := Turn(st, it);
    if done then (it', None)
    else if it'.entry.Some? then (it', it'.entry)
    else Next(st, it')
  }

  lemma NextTurn<K, V>(st: St<K, V>, it: It<K>)
    requires ItRange(st, it) && (Rehashing(st) ==> st.t1 != [])
    ensures
      var (it', done) := Turn(st, it);
      && (!done && it'.entry.None? ==> ItRange(st, it'))
      && Next(st, it) == if done then (it', None) else if it'.entry.Some? then (it', it'.entry) else Next(st, it')
    ensures
      var (it', done) := Turn(st, it);
      !done && it'.entry.None? ==>
        it'.table > it.table || (it'.table == it.table &&
          (it'.index > it.index || (it'.index == it.index && it.entry.Some?)) && (it'.index < |TableAt(st, it.table)|))
  {
  }

  // ----- what is ahead of an iterator -----

  /** Place j of bucket i is ahead of an iterator at the given bucket that has saved the given entry. */
  predicate PlaceAhead<K(==), V>(t: Table<K, V>, index: int, saved: Option<K>, i: nat, j: nat)
    requires i < |t|
  {
    i > index || (i == index && saved.Some? && j >= Position(t[i], saved.value))
  }

  ghost predicate AheadIn<K, V>(t: Table<K, V>, index: int, saved: Option<K>, k: K) {
    exists i: nat, j: nat :: i < |t| && j < |t[i]| && t[i][j].key == k && PlaceAhead(t, index, saved, i, j)
  }

  function Saved<K>(it: It<K>): Option<K> { if it.entry.Some? then it.next else None }

  ghost predicate Ahead<K, V>(st: St<K, V>, it: It<K>, k: K) {
    || AheadIn(TableAt(st, it.table), it.index, Saved(it), k)
    || (it.table == 0 && Rehashing(st) && AheadIn(st.t1, -1, None, k))
  }

  /** Keys are at one place only. */
  ghost predicate OnePlace<K, V>(st: St<K, V>) {
    && Distinct(st.t0) && Distinct(st.t1)
    && forall i: nat, j: nat, i': nat, j': nat ::
         i < |st.t0| && j < |st.t0[i]| && i' < |st.t1| && j' < |st.t1[i']| ==> st.t0[i][j].key != st.t1[i'][j'].key
  }

  ghost predicate Distinct<K, V>(t: Table<K, V>) {
    forall i: nat, j: nat, i': nat, j': nat ::
      i < |t| && j < |t[i]| && i' < |t| && j' < |t[i']| && t[i][j].key == t[i'][j'].key ==> i == i' && j == j'
  }

  lemma ValidDistinct<K, V>(hash: K -> nat, t: Table<K, V>)
    requires Placed(hash, t) && Unique(Items(t))
    ensures Distinct(t)
  {
    forall i: nat, j: nat, i': nat, j': nat |
      i < |t| && j < |t[i]| && i' < |t| && j' < |t[i']| && t[i][j].key == t[i'][j'].key
      ensures i == i' && j == j'
    {
      assert hash(t[i][j].key) % |t| == i;
      assert hash(t[i'][j'].key) % |t| == i';
      ItemsIn(t, t[i][j]);
      ItemsIn(t, t[i'][j']);
      assert t[i][j] in t[i] && t[i'][j'] in t[i'];
      if j != j' { TwiceInChain(t, i, if j < j' then j else j', if j < j' then j' else j); }
    }
  }

  lemma TwiceInChain<K, V>(t: Table<K, V>, i: nat, j: nat, j': nat)
    requires i < |t| && j < j' < |t[i]| && t[i][j] == t[i][j']
    ensures Items(t)[t[i][j]] >= 2
  {
    var c, e := t[i], t[i][j];
    assert c == c[..j] + [e] + c[j + 1..j'] + [e] + c[j' + 1..];
    assert multiset(c)[e] >= 2;
    ItemsUpdate(t, i, []);
    assert Items(t) == Items(t[i := []]) + multiset(c);
  }

  lemma ValidOnePlace<K, V>(hash: K -> nat, st: St<K, V>)
    requires Valid(hash, st)
    ensures OnePlace(st)
  {
    PartsUnique(Items(st.t0), Items(st.t1));
    ValidDistinct(hash, st.t0);
    ValidDistinct(hash, st.t1);
    forall i: nat, j: nat, i': nat, j': nat | i < |st.t0| && j < |st.t0[i]| && i' < |st.t1| && j' < |st.t1[i']|
      ensures st.t0[i][j].key != st.t1[i'][j'].key
    {
      ItemsIn(st.t0, st.t0[i][j]);
      ItemsIn(st.t1, st.t1[i'][j']);
      assert st.t0[i][j] in st.t0[i] && st.t1[i'][j'] in st.t1[i'];
    }
  }

  lemma PartsUnique<K, V>(a: multiset<Entry<K, V>>, b: multiset<Entry<K, V>>)
    requires Unique(a + b)
    ensures Unique(a) && Unique(b)
    ensures forall e, f :: e in a && f in b ==> e.key != f.key
  {
    forall e ensures (a + b)[e] == a[e] + b[e] {}
  }

  lemma PositionIs<K, V>(t: Table<K, V>, i: nat, j: nat)
    requires Distinct(t) && i < |t| && j < |t[i]|
    ensures Position(t[i], t[i][j].key) == j
  {
    var p := Position(t[i], t[i][j].key);
    assert p <= j;
    assert t[i][p].key == t[i][j].key;
  }

  // ----- what a turn does -----

  /** From one bucket to the next: the first entry is passed. */
  lemma EnterPasses<K, V>(t: Table<K, V>, table: int, index: int, k: K)
    requires Distinct(t) && 0 <= index < |t|
    ensures
      var it := Enter(t, table, index);
      AheadIn(t, index - 1, None, k) <==> (it.entry == Some(k) || AheadIn(t, index, Saved(it), k))
    ensures
      var it := Enter(t, table, index);
      it.entry == Some(k) ==> !AheadIn(t, index, Saved(it), k)
  {
    var it := Enter(t, table, index);
    var saved := Saved(it);
    if |t[index]| > 1 { PositionIs(t, index, 1); }
    forall i: nat, j: nat | i < |t| && j < |t[i]|
      ensures PlaceAhead(t, index - 1, None, i, j) <==> (i == index && j == 0) || PlaceAhead(t, index, saved, i, j)
      ensures i == index && j == 0 ==> !PlaceAhead(t, index, saved, i, j)
    {
    }
    if AheadIn(t, index - 1, None, k) {
      var i: nat, j: nat :| i < |t| && j < |t[i]| && t[i][j].key == k && PlaceAhead(t, index - 1, None, i, j);
      assert it.entry == Some(k) || PlaceAhead(t, index, saved, i, j);
    }
    if it.entry == Some(k) { assert t[index][0].key == k && PlaceAhead(t, index - 1, None, index, 0); }
    if AheadIn(t, index, saved, k) {
      var i: nat, j: nat :| i < |t| && j < |t[i]| && t[i][j].key == k && PlaceAhead(t, index, saved, i, j);
      assert PlaceAhead(t, index - 1, None, i, j);
    }
  }

  /** From one entry to the saved one: that one is passed. */
  lemma SavedPasses<K, V>(t: Table<K, V>, index: nat, n: K, k: K)
    requires Distinct(t) && index < |t| && Position(t[index], n) < |t[index]|
    ensures AheadIn(t, index, Some(n), k) <==> (n == k || AheadIn(t, index, After(t[index], n), k))
    ensures n == k ==> !AheadIn(t, index, After(t[index], n), k)
  {
    var p, saved := Position(t[index], n), After(t[index], n);
    if p + 1 < |t[index]| { PositionIs(t, index, p + 1); }
    forall i: nat, j: nat | i < |t| && j < |t[i]|
      ensures PlaceAhead(t, index, Some(n), i, j) <==> (i == index && j == p) || PlaceAhead(t, index, saved, i, j)
      ensures i == index && j == p ==> !PlaceAhead(t, index, saved, i, j)
    {
    }
    if AheadIn(t, index, Some(n), k) {
      var i: nat, j: nat :| i < |t| && j < |t[i]| && t[i][j].key == k && PlaceAhead(t, index, Some(n), i, j);
      assert n == k || PlaceAhead(t, index, saved, i, j);
    }
    if n == k { assert t[index][p].key == k && PlaceAhead(t, index, Some(n), index, p); }
    if AheadIn(t, index, saved, k) {
      var i: nat, j: nat :| i < |t| && j < |t[i]| && t[i][j].key == k && PlaceAhead(t, index, saved, i, j);
      assert PlaceAhead(t, index, Some(n), i, j);
    }
  }

  lemma NothingBehindLast<K, V>(t: Table<K, V>, index: int, k: K)
    requires index >= |t| - 1
    ensures !AheadIn(t, index, None, k)
  {
  }

  /** A turn passes the entry it ends at, and nothing else. */
  lemma TurnPasses<K, V>(st: St<K, V>, it: It<K>, k: K)
    requires OnePlace(st) && ItOk(st, it) && (Rehashing(st) ==> st.t1 != [])
    ensures
      var (it', done) := Turn(st, it);
      && ItOk(st, it')
      && (Ahead(st, it, k) <==> (!done && it'.entry == Some(k)) || Ahead(st, it', k))
      && (it'.entry == Some(k) && !done ==> !Ahead(st, it', k))
      && (done ==> !Ahead(st, it, k) && !Ahead(st, it', k))
  {
    var t := TableAt(st, it.table);
    hide AheadIn, Distinct;
    assert Distinct(t) by { if it.table == 0 {} }
    if it.entry.None? {
      var index := it.index + 1;
      if index < |t| {
        EnterPasses(t, it.table, index, k);
        if it.table == 0 && Rehashing(st) { Elsewhere(st, index, k); }
      } else {
        NothingBehindLast(t, it.index, k);
        NothingBehindLast(t, index, k);
        if Rehashing(st) && it.table == 0 { EnterPasses(st.t1, 1, 0, k); }
      }
    } else if it.next.Some? {
      SavedPasses(t, it.index, it.next.value, k);
      SavedOk(t, it.index, it.next.value);
      if it.table == 0 && Rehashing(st) { ElsewhereKey(st, it.index, it.next.value); }
    }
  }

  lemma SavedOk<K, V>(t: Table<K, V>, index: nat, n: K)
    requires Distinct(t) && index < |t| && Position(t[index], n) < |t[index]|
    ensures After(t[index], n).Some? ==> Position(t[index], After(t[index], n).value) < |t[index]|
  {
    var p := Position(t[index], n);
    if p + 1 < |t[index]| { PositionIs(t, index, p + 1); }
  }

  /** An entry of table 0 is not in table 1. */
  lemma Elsewhere<K, V>(st: St<K, V>, index: nat, k: K)
    requires OnePlace(st) && index < |st.t0|
    ensures KeyAt(st.t0[index], 0) == Some(k) ==> !AheadIn(st.t1, -1, None, k)
    ensures |st.t0[index]| > 1 ==> Position(st.t0[index], st.t0[index][1].key) == 1
  {
    if |st.t0[index]| > 1 { PositionIs(st.t0, index, 1); }
  }

  lemma ElsewhereKey<K, V>(st: St<K, V>, index: nat, n: K)
    requires OnePlace(st) && index < |st.t0| && Position(st.t0[index], n) < |st.t0[index]|
    ensures !AheadIn(st.t1, -1, None, n)
  {
    assert st.t0[index][Position(st.t0[index], n)].key == n;
  }

  /** dictNext returns a key that was ahead, which then no longer is; when it returns nothing, nothing is. */
  lemma {:induction false} NextPasses<K, V>(st: St<K, V>, it: It<K>, k: K)
    requires OnePlace(st) && ItOk(st, it) && (Rehashing(st) ==> st.t1 != [])
    ensures
      var (it', r) := Next(st, it);
      && ItOk(st, it')
      && (Ahead(st, it, k) <==> r == Some(k) || Ahead(st, it', k))
      && (r == Some(k) ==> !Ahead(st, it', k))
      && (r.None? ==> !Ahead(st, it', k))
    decreases 1 - it.table, if it.index < |TableAt(st, it.table)| then |TableAt(st, it.table)| - it.index else 0, it.entry.Some?
  {
    TurnPasses(st, it, k);
    var (it', done) := Turn(st, it);
    hide Ahead, OnePlace;
    if !done && it'.entry.None? { NextPasses(st, it', k); }
  }

  lemma TurnOk<K, V>(st: St<K, V>, it: It<K>)
    requires OnePlace(st) && ItOk(st, it) && (Rehashing(st) ==> st.t1 != [])
    ensures ItOk(st, Turn(st, it).0)
  {
    var t := TableAt(st, it.table);
    assert Distinct(t) by { if it.table == 0 {} }
    if it.entry.None? {
      var index := it.index + 1;
      if index < |t| {
        if |t[index]| > 1 { PositionIs(t, index, 1); }
      } else if Rehashing(st) && it.table == 0 {
        if |st.t1[0]| > 1 { PositionIs(st.t1, 0, 1); }
      }
    } else if it.next.Some? {
      SavedOk(t, it.index, it.next.value);
    }
  }

  lemma {:induction false} NextOk<K, V>(st: St<K, V>, it: It<K>)
    requires OnePlace(st) && ItOk(st, it) && (Rehashing(st) ==> st.t1 != [])
    ensures ItOk(st, Next(st, it).0)
    decreases 1 - it.table, if it.index < |TableAt(st, it.table)| then |TableAt(st, it.table)| - it.index else 0, it.entry.Some?
  {
    TurnOk(st, it);
    var (it', done) := Turn(st, it);
    hide OnePlace;
    if !done && it'.entry.None? { NextOk(st, it'); }
  }

  // ----- updates while an iterator is open -----

  /** The entry saved by an iterator is in the bucket. */
  predicate SavedIn<K(==), V>(t: Table<K, V>, index: int, saved: Option<K>) {
    saved.Some? ==> 0 <= index < |t| && Position(t[index], saved.value) < |t[index]|
  }

  lemma PositionPush<K, V>(c: Chain<K, V>, e: Entry<K, V>, k: K)
    requires k != e.key
    ensures Position([e] + c, k) == Position(c, k) + 1
  {
    assert ([e] + c)[1..] == c;
  }

  /** A new entry moves those of its bucket by one place. */
  lemma PushPlace<K, V>(hash: K -> nat, t: Table<K, V>, e: Entry<K, V>, index: int, saved: Option<K>, i: nat, j: nat)
    requires t != [] && SavedIn(t, index, saved) && saved != Some(e.key) && i < |t| && j < |t[i]|
    ensures
      var u := Push(hash, t, e);
      var j' := if i == Bucket(hash, t, e.key) then j + 1 else j;
      && j' < |u[i]| && u[i][j'] == t[i][j]
      && PlaceAhead(u, index, saved, i, j') == PlaceAhead(t, index, saved, i, j)
  {
    if saved.Some? { PositionPush(t[index], e, saved.value); }
  }

  /** A new entry does not change what else is ahead. */
  lemma PushAhead<K, V>(hash: K -> nat, t: Table<K, V>, e: Entry<K, V>, index: int, saved: Option<K>, k: K)
    requires t != [] && SavedIn(t, index, saved) && saved != Some(e.key) && k != e.key
    ensures SavedIn(Push(hash, t, e), index, saved)
    ensures AheadIn(Push(hash, t, e), index, saved, k) <==> AheadIn(t, index, saved, k)
  {
    var b: nat, u: Table<K, V> := Bucket(hash, t, e.key), Push(hash, t, e);
    if saved.Some? { PositionPush(t[index], e, saved.value); }
    assert u[b] == [e] + t[b];
    assert forall i :: 0 <= i < |t| && i != b ==> u[i] == t[i];
    hide PlaceAhead, Push, Bucket;
    if AheadIn(t, index, saved, k) {
      var i: nat, j: nat :| i < |t| && j < |t[i]| && t[i][j].key == k && PlaceAhead(t, index, saved, i, j);
      PushPlace(hash, t, e, index, saved, i, j);
      var j' := if i == b then j + 1 else j;
      assert u[i][j'].key == k && PlaceAhead(u, index, saved, i, j');
    }
    if AheadIn(u, index, saved, k) {
      var i: nat, j: nat :| i < |u| && j < |u[i]| && u[i][j].key == k && PlaceAhead(u, index, saved, i, j);
      var j' := if i == b then j - 1 else j;
      PushPlace(hash, t, e, index, saved, i, j');
    }
  }

  lemma {:induction false} PositionWithout<K, V>(c: Chain<K, V>, j: nat, k: K)
    requires j < |c| && c[j].key != k
    ensures Position(Without(c, j), k) == if j < Position(c, k) then Position(c, k) - 1 else Position(c, k)
  {
    WithoutHead(c, j);
    hide Without;
    if j > 0 && c[0].key != k { PositionWithout(c[1..], j - 1, k); }
  }

  lemma WithoutHead<K, V>(c: Chain<K, V>, j: nat)
    requires j < |c|
    ensures j == 0 ==> Without(c, j) == c[1..]
    ensures j > 0 ==> |Without(c, j)| > 0 && Without(c, j)[0] == c[0] && Without(c, j)[1..] == Without(c[1..], j - 1)
  {
  }

  /** Where place j of a chain was before place p was taken out. */
  function Back(p: nat, j: nat): nat { if j >= p then j + 1 else j }

  lemma UnlinkPlace<K, V>(t: Table<K, V>, b: nat, p: nat, index: int, saved: Option<K>, i: nat, j: nat)
    requires b < |t| && p < |t[b]| && SavedIn(t, index, saved) && saved != Some(t[b][p].key)
    requires i < |t| && j < |Unlink(t, b, p)[i]|
    ensures
      var j' := if i == b then Back(p, j) else j;
      && j' < |t[i]| && Unlink(t, b, p)[i][j] == t[i][j']
      && PlaceAhead(Unlink(t, b, p), index, saved, i, j) == PlaceAhead(t, index, saved, i, j')
  {
    if saved.Some? && index == b { PositionWithout(t[b], p, saved.value); }
  }

  /** Deleting an entry does not change what else is ahead, unless it is the saved one. */
  lemma UnlinkAhead<K, V>(t: Table<K, V>, b: nat, p: nat, index: int, saved: Option<K>, k: K)
    requires b < |t| && p < |t[b]| && SavedIn(t, index, saved) && saved != Some(t[b][p].key) && k != t[b][p].key
    ensures SavedIn(Unlink(t, b, p), index, saved)
    ensures AheadIn(Unlink(t, b, p), index, saved, k) <==> AheadIn(t, index, saved, k)
  {
    var u: Table<K, V> := Unlink(t, b, p);
    if saved.Some? && index == b { PositionWithout(t[b], p, saved.value); }
    assert |u[b]| == |t[b]| - 1;
    assert forall i :: 0 <= i < |t| && i != b ==> u[i] == t[i];
    hide PlaceAhead, Unlink;
    if AheadIn(t, index, saved, k) {
      var i: nat, j: nat :| i < |t| && j < |t[i]| && t[i][j].key == k && PlaceAhead(t, index, saved, i, j);
      var j' := if i == b && j > p then j - 1 else j;
      UnlinkPlace(t, b, p, index, saved, i, j');
      assert u[i][j'].key == k && PlaceAhead(u, index, saved, i, j');
    }
    if AheadIn(u, index, saved, k) {
      var i: nat, j: nat :| i < |u| && j < |u[i]| && u[i][j].key == k && PlaceAhead(u, index, saved, i, j);
      UnlinkPlace(t, b, p, index, saved, i, j);
    }
  }

  lemma {:induction false} PositionSet<K, V>(c: Chain<K, V>, j: nat, v: V, k: K)
    requires j < |c|
    ensures Position(c[j := Entry(c[j].key, v)], k) == Position(c, k)
  {
    var d := c[j := Entry(c[j].key, v)];
    if c[0].key != k {
      if j == 0 { assert d[1..] == c[1..]; }
      else { assert d[1..] == c[1..][j - 1 := Entry(c[j].key, v)]; PositionSet(c[1..], j - 1, v, k); }
    }
  }

  lemma SetAhead<K, V>(t: Table<K, V>, b: nat, p: nat, v: V, index: int, saved: Option<K>, k: K)
    requires b < |t| && p < |t[b]| && SavedIn(t, index, saved)
    ensures SavedIn(SetValue(t, b, p, v), index, saved)
    ensures AheadIn(SetValue(t, b, p, v), index, saved, k) <==> AheadIn(t, index, saved, k)
  {
    var u: Table<K, V> := SetValue(t, b, p, v);
    if saved.Some? && index == b { PositionSet(t[b], p, v, saved.value); }
    forall i: nat, j: nat | i < |t| && j < |t[i]|
      ensures u[i][j].key == t[i][j].key && PlaceAhead(u, index, saved, i, j) == PlaceAhead(t, index, saved, i, j)
    {
    }
    if AheadIn(t, index, saved, k) {
      var i: nat, j: nat :| i < |t| && j < |t[i]| && t[i][j].key == k && PlaceAhead(t, index, saved, i, j);
      assert u[i][j].key == k && PlaceAhead(u, index, saved, i, j);
    }
    if AheadIn(u, index, saved, k) {
      var i: nat, j: nat :| i < |u| && j < |u[i]| && u[i][j].key == k && PlaceAhead(u, index, saved, i, j);
      assert t[i][j].key == k && PlaceAhead(t, index, saved, i, j);
    }
  }

  /** Whatever is ahead is in the dictionary; so is a saved entry. */
  lemma AheadIsThere<K, V>(hash: K -> nat, st: St<K, V>, it: It<K>, k: K)
    requires Valid(hash, st) && ItOk(st, it)
    ensures Ahead(st, it, k) || Saved(it) == Some(k) ==> k in Contents(hash, st)
    ensures Saved(it) == Some(k) ==> Ahead(st, it, k)
  {
    var t := TableAt(st, it.table);
    if Saved(it) == Some(k) {
      var j := Position(t[it.index], k);
      assert t[it.index][j].key == k && PlaceAhead(t, it.index, Saved(it), it.index, j);
    }
    if AheadIn(t, it.index, Saved(it), k) {
      var i: nat, j: nat :| i < |t| && j < |t[i]| && t[i][j].key == k && PlaceAhead(t, it.index, Saved(it), i, j);
      PlaceIsThere(hash, st, it.table, i, j);
    } else if it.table == 0 && Rehashing(st) && AheadIn(st.t1, -1, None, k) {
      var i: nat, j: nat :| i < |st.t1| && j < |st.t1[i]| && st.t1[i][j].key == k && PlaceAhead(st.t1, -1, None, i, j);
      PlaceIsThere(hash, st, 1, i, j);
    }
  }

  lemma PlaceIsThere<K, V>(hash: K -> nat, st: St<K, V>, table: int, i: nat, j: nat)
    requires Valid(hash, st) && (table == 0 || table == 1)
    requires i < |TableAt(st, table)| && j < |TableAt(st, table)[i]|
    ensures TableAt(st, table)[i][j].key in Contents(hash, st)
  {
    var t := TableAt(st, table);
    ItemsIn(t, t[i][j]);
    assert t[i][j] in t[i];
    assert t[i][j] in All(st);
    ContentsKeys(hash, st, t[i][j].key);
  }
}
