/** What one call of dictScan or dictNext gives, without regard to how it goes through the tables. */
module DictCalls {
  import opened Wrappers
  import opened Entries
  import opened DictTables
  import opened DictState
  import opened Division
  import opened ReverseBits
  import opened ScanCursor
  import opened DictScan
  import DictIter

  // ----- buckets -----

  ghost predicate Different(s: seq<nat>) { forall i, j :: 0 <= i < j < |s| ==> s[i] != s[j] }

  /** Different buckets hold different entries. */
  lemma {:induction false} ChainsPart<K, V>(t: Table<K, V>, buckets: seq<nat>)
    requires Different(buckets)
    ensures multiset(Chains(t, buckets)) <= Items(t)
    decreases |buckets|
  {
    if buckets != [] {
      var i, rest := buckets[0], buckets[1..];
      assert forall k :: 0 <= k < |rest| ==> rest[k] == buckets[k + 1];
      if i < |t| {
        var u := t[i := []];
        ItemsUpdate(t, i, []);
        assert forall k :: 0 <= k < |rest| ==> rest[k] != i;
        SameChains(t, u, rest);
        ChainsPart(u, rest);
        assert multiset(t[i] + Chains(t, rest)) == multiset(t[i]) + multiset(Chains(t, rest));
        assert Items(t) == Items(u) + multiset(t[i]);
      } else {
        ChainsPart(t, rest);
        assert [] + Chains(t, rest) == Chains(t, rest);
      }
    }
  }

  lemma {:induction false} SameChains<K, V>(t: Table<K, V>, u: Table<K, V>, buckets: seq<nat>)
    requires |t| == |u| && forall k :: 0 <= k < |buckets| && buckets[k] < |t| ==> t[buckets[k]] == u[buckets[k]]
    ensures Chains(t, buckets) == Chains(u, buckets)
    decreases |buckets|
  {
    if buckets != [] { SameChains(t, u, buckets[1..]); }
  }

  lemma {:induction false} ChainsIn<K, V>(t: Table<K, V>, buckets: seq<nat>, e: Entry<K, V>) returns (i: nat)
    requires e in Chains(t, buckets)
    ensures i in buckets && i < |t| && e in t[i]
    decreases |buckets|
  {
    if buckets[0] < |t| && e in t[buckets[0]] { i := buckets[0]; } else { i := ChainsIn(t, buckets[1..], e); }
  }

  /** No bucket is visited twice. */
  lemma {:induction false} VisitsDiffer(w: nat, b0: nat, b1: nat, v: nat)
    requires b0 <= b1 <= w
    ensures Different(Visits(w, b0, b1, v))
    decreases P(b1 - b0) - High(b0, b1, v)
  {
    var v' := Up(w, b0, v);
    UpHigh(w, b0, b1, v);
    UpIs(w, b0, v);
    hide P, Div, Mod, High, Up;
    if High(b0, b1, v') != 0 {
      VisitsAre(w, b0, b1, v', v);
      VisitsDiffer(w, b0, b1, v');
      var s := Visits(w, b0, b1, v');
      assert Visits(w, b0, b1, v) == [Mod(v, P(b1))] + s;
      assert forall k :: 0 <= k < |s| ==> s[k] in s;
    }
  }

  // ----- dictScan -----

  /** The entry is one for this call: its hash agrees with the cursor in the bits of the smaller table and, if it is in the
      larger one, it is not behind the cursor there. */
  ghost predicate Due<K, V>(hash: K -> nat, st: St<K, V>, v: nat, e: Entry<K, V>)
    requires Bits(Small(st)) <= Bits(Large(st))
  {
    var b0, b1 := Bits(Small(st)), Bits(Large(st));
    && Mod(hash(e.key), P(b0)) == Mod(v, P(b0))
    && (e in Items(Small(st)) || High(b0, b1, hash(e.key)) >= High(b0, b1, v))
  }

  /** A call reports just the entries that are due, and each of them once. */
  lemma ScanExactly<K, V>(w: nat, hash: K -> nat, st: St<K, V>, v: nat, e: Entry<K, V>)
    requires Valid(hash, st) && Fits(w, st)
    ensures e in Scan(w, st, v).1 <==> e in All(st) && Due(hash, st, v, e)
    ensures multiset(Scan(w, st, v).1)[e] <= 1
  {
    if st.used0 + st.used1 == 0 { NothingThere(hash, st); return; }
    UsedHasTable(hash, st);
    Sizes(hash, st);
    ScanPart(w, hash, st, v);
    AtMostOnce(hash, st, e);
    if e in Scan(w, st, v).1 { ReportedIsDue(w, hash, st, v, e); }
    if e in All(st) && Due(hash, st, v, e) { DueIsReported(w, hash, st, v, e); }
  }

  lemma NothingThere<K, V>(hash: K -> nat, st: St<K, V>)
    requires Valid(hash, st) && st.used0 + st.used1 == 0
    ensures All(st) == multiset{}
  {
    hide Unique, Items;
  }

  lemma AtMostOnce<K, V>(hash: K -> nat, st: St<K, V>, e: Entry<K, V>)
    requires Valid(hash, st)
    ensures All(st)[e] <= 1
  {
  }

  lemma ScanPart<K, V>(w: nat, hash: K -> nat, st: St<K, V>, v: nat)
    requires Valid(hash, st) && Fits(w, st) && st.used0 + st.used1 != 0
    ensures multiset(Scan(w, st, v).1) <= All(st)
  {
    hide Items, Visits, Chains, Unique, P, Mod;
    var b0, b1 := Bits(Small(st)), Bits(Large(st));
    var one, more := [Mod(v, P(b0))], Visits(w, b0, b1, v);
    ChainsPart(Small(st), one);
    VisitsDiffer(w, b0, b1, v);
    ChainsPart(Large(st), more);
    var x, y := Chains(Small(st), one), Chains(Large(st), more);
    assert multiset(x + y) == multiset(x) + multiset(y);
  }

  lemma ReportedIsDue<K, V>(w: nat, hash: K -> nat, st: St<K, V>, v: nat, e: Entry<K, V>)
    requires Valid(hash, st) && Fits(w, st) && st.used0 + st.used1 != 0 && e in Scan(w, st, v).1
    requires |Small(st)| == P(Bits(Small(st))) && |Large(st)| == P(Bits(Large(st)))
    ensures Due(hash, st, v, e)
  {
    hide Items, Visits, Chains, Unique, P, Div;
    var b0, b1 := Bits(Small(st)), Bits(Large(st));
    if e in Chains(Small(st), [Mod(v, P(b0))]) {
      var i := ChainsIn(Small(st), [Mod(v, P(b0))], e);
      BucketOf(hash, Small(st), i, e);
    } else {
      var i := ChainsIn(Large(st), Visits(w, b0, b1, v), e);
      BucketOf(hash, Large(st), i, e);
      VisitsAre(w, b0, b1, v, hash(e.key));
    }
  }

  lemma BucketOf<K, V>(hash: K -> nat, t: Table<K, V>, i: nat, e: Entry<K, V>)
    requires Placed(hash, t) && i < |t| && e in t[i]
    ensures e in Items(t) && Mod(hash(e.key), |t|) == i
  {
    hide Items, Mod;
    ItemsIn(t, e);
    var j :| 0 <= j < |t[i]| && t[i][j] == e;
    assert hash(t[i][j].key) % |t| == i;
    ModIs(hash(e.key), |t|);
  }

  lemma DueIsReported<K, V>(w: nat, hash: K -> nat, st: St<K, V>, v: nat, e: Entry<K, V>)
    requires Valid(hash, st) && Fits(w, st) && e in All(st) && Due(hash, st, v, e)
    ensures e in Scan(w, st, v).1
  {
    hide Visits, High, P, Div, Mod, Unique;
    WhereIsIt(hash, st, e);
    Sizes(hash, st);
    if e in Items(Small(st)) {
      var b0 := Bits(Small(st));
      PlacedIn(hash, Small(st), e);
      ModIs(hash(e.key), |Small(st)|);
      InChains(Small(st), [Mod(v, P(b0))], Mod(v, P(b0)), e);
    } else {
      CallReports(w, hash, st, v, e);
    }
  }

  lemma ModIs(x: nat, n: nat)
    requires n > 0
    ensures Mod(x, n) == x % n
  {
    DivUnique(x, n, x / n, x % n);
  }

  // ----- dictNext -----

  /** What is returned is a key of the dictionary. */
  lemma {:induction false} ReturnedIsThere<K, V>(hash: K -> nat, st: St<K, V>, it: DictIter.It<K>)
    requires Valid(hash, st) && DictIter.ItOk(st, it)
    ensures Rehashing(st) ==> st.t1 != []
    ensures DictIter.ItRange(st, it) && (DictIter.Next(st, it).1.Some? ==> HasKey(All(st), DictIter.Next(st, it).1.value))
    decreases 1 - it.table, if it.index < |DictIter.TableAt(st, it.table)| then |DictIter.TableAt(st, it.table)| - it.index else 0,
      it.entry.Some?
  {
    TableSizes(hash, st);
    DictIter.ItOkRange(st, it);
    DictIter.ValidOnePlace(hash, st);
    DictIter.TurnOk(st, it);
    DictIter.NextTurn(st, it);
    TurnIsThere(hash, st, it);
    hide Valid, DictIter.ItOk, DictIter.Turn, DictIter.OnePlace, HasKey, All;
    var (it', done) := DictIter.Turn(st, it);
    if !done && it'.entry.None? { ReturnedIsThere(hash, st, it'); }
  }

  lemma TurnIsThere<K, V>(hash: K -> nat, st: St<K, V>, it: DictIter.It<K>)
    requires Valid(hash, st) && DictIter.ItOk(st, it) && DictIter.ItRange(st, it) && (Rehashing(st) ==> st.t1 != [])
    ensures var (it', done) := DictIter.Turn(st, it); !done && it'.entry.Some? ==> HasKey(All(st), it'.entry.value)
  {
    hide Items, Unique, Placed;
    var t := DictIter.TableAt(st, it.table);
    if it.entry.None? {
      if it.index + 1 < |t| { FirstThere(st, t, it.index + 1, 0); }
      else if Rehashing(st) && it.table == 0 { FirstThere(st, st.t1, 0, 0); }
    } else if it.next.Some? {
      FirstThere(st, t, it.index, Position(t[it.index], it.next.value));
    }
  }

  lemma FirstThere<K, V>(st: St<K, V>, t: Table<K, V>, i: nat, j: nat)
    requires (t == st.t0 || t == st.t1) && i < |t|
    ensures j < |t[i]| ==> HasKey(All(st), t[i][j].key)
  {
    if j < |t[i]| {
      ItemsIn(t, t[i][j]);
      assert t[i][j] in t[i] && t[i][j] in All(st);
    }
  }
}
