/** dictScan: a scan through a dictionary that may be rehashed between two calls. */
module DictScan {
  import opened Entries
  import opened DictTables
  import opened DictState
  import opened Division
  import opened ReverseBits
  import opened ScanCursor

  function Log2(n: nat): nat { if n <= 1 then 0 else 1 + Log2(n / 2) }

  lemma {:induction false} LogOf(n: nat)
    requires IsPow2(n)
    ensures P(Log2(n)) == n
  {
    if n > 1 { LogOf(n / 2); }
  }

  /** The smaller and the larger one of the tables in use. */
  function Small<K, V>(st: St<K, V>): Table<K, V> {
    if Rehashing(st) && |st.t0| > |st.t1| then st.t1 else st.t0
  }

  function Large<K, V>(st: St<K, V>): Table<K, V> {
    if !Rehashing(st) || |st.t0| > |st.t1| then st.t0 else st.t1
  }

  function Bits<K, V>(t: Table<K, V>): nat { Log2(|t|) }

  /** The table sizes fit into a word of w bits. */
  predicate Fits<K, V>(w: nat, st: St<K, V>) { Bits(Small(st)) <= Bits(Large(st)) <= w }

  // ----- the loop over the expansions -----

  /** Increment the bits that the smaller mask leaves out. */
  function UpBy(w: nat, size: nat, v: nat): nat
    requires size > 0
  {
    Mod((Div(v, size) + 1) * size, P(w)) + Mod(v, size)
  }

  function Up(w: nat, b0: nat, v: nat): nat { UpBy(w, P(b0), v) }

  lemma UpIs(w: nat, b0: nat, v: nat)
    requires b0 <= w
    ensures Div(Up(w, b0, v), P(b0)) == Mod(Div(v, P(b0)) + 1, P(w - b0)) && Mod(Up(w, b0, v), P(b0)) == Mod(v, P(b0))
    ensures Up(w, b0, v) < P(w)
  {
    hide P, Div, Mod;
    var q := Div(v, P(b0)) + 1;
    PowAdd(b0, w - b0);
    ModProduct(q, P(b0), P(w - b0));
    var r := Mod(q, P(w - b0));
    DivUnique(Up(w, b0, v), P(b0), r, Mod(v, P(b0)));
    Smaller(r, P(w - b0), P(b0));
  }

  lemma ModProduct(q: nat, p: nat, m: nat)
    requires p > 0 && m > 0
    ensures p * m > 0 && Mod(q * p, p * m) == Mod(q, m) * p
  {
    hide Div, Mod;
    NonZero(p, m);
    var a, r := Div(q, m), Mod(q, m);
    assert q * p == (a * m + r) * p;
    Distribute(a, m, r, p);
    Smaller(r, m, p);
    DivUnique(q * p, p * m, a, r * p);
  }

  lemma Distribute(a: nat, m: nat, r: nat, p: nat)
    ensures (a * m + r) * p == a * (p * m) + r * p && m * p == p * m
  {
    assert (a * m) * p == a * (m * p);
  }

  lemma UpHigh(w: nat, b0: nat, b1: nat, v: nat)
    requires b0 <= b1 <= w
    ensures
      var h := High(b0, b1, v);
      High(b0, b1, Up(w, b0, v)) == if h + 1 == P(b1 - b0) then 0 else h + 1
  {
    hide P, Div, Mod;
    UpIs(w, b0, v);
    var q, m, d := Div(v, P(b0)), P(w - b0), P(b1 - b0);
    PowAdd(b1 - b0, w - b1);
    PositivePow(b1 - b0);
    PositivePow(w - b1);
    ModMod(q + 1, d, P(w - b1));
    ModNext(q, d);
  }

  lemma ModMod(x: nat, d: nat, k: nat)
    requires d > 0 && k > 0
    ensures d * k > 0 && Mod(Mod(x, d * k), d) == Mod(x, d)
  {
    hide Div, Mod;
    NonZero(d, k);
    var a, r := Div(x, d * k), Mod(x, d * k);
    var b, s := Div(r, d), Mod(r, d);
    assert x == a * (d * k) + b * d + s;
    assert a * (d * k) == (a * k) * d;
    Collect(a * k, b, d);
    DivUnique(x, d, a * k + b, s);
  }

  lemma Collect(a: nat, b: nat, d: nat)
    ensures a * d + b * d == (a + b) * d
  {
  }

  lemma ModNext(q: nat, d: nat)
    requires d > 0
    ensures Mod(q + 1, d) == if Mod(q, d) + 1 == d then 0 else Mod(q, d) + 1
  {
    hide Div, Mod;
    var a, r := Div(q, d), Mod(q, d);
    Collect(a, 1, d);
    if r + 1 == d { DivUnique(q + 1, d, a + 1, 0); } else { DivUnique(q + 1, d, a, r + 1); }
  }

  /** The buckets of the larger table that one call visits. */
  function Visits(w: nat, b0: nat, b1: nat, v: nat): (s: seq<nat>)
    requires b0 <= b1 <= w
    ensures |s| > 0
    decreases P(b1 - b0) - High(b0, b1, v)
  {
    UpHigh(w, b0, b1, v);
    var v' := Up(w, b0, v);
    [Mod(v, P(b1))] + if High(b0, b1, v') == 0 then [] else Visits(w, b0, b1, v')
  }

  /** They are the expansions of the cursor whose high bits are not below those of the cursor. */
  lemma {:induction false} VisitsAre(w: nat, b0: nat, b1: nat, v: nat, x: nat)
    requires b0 <= b1 <= w
    ensures Mod(x, P(b1)) in Visits(w, b0, b1, v)
            <==> Mod(x, P(b0)) == Mod(v, P(b0)) && High(b0, b1, x) >= High(b0, b1, v)
    decreases P(b1 - b0) - High(b0, b1, v)
  {
    var v' := Up(w, b0, v);
    UpHigh(w, b0, b1, v);
    UpIs(w, b0, v);
    SameBucket(b0, b1, x, v);
    hide P, Div, Mod, High, Up;
    if High(b0, b1, v') != 0 { VisitsAre(w, b0, b1, v', x); }
  }

  /** Two numbers share a bucket of the larger table if low and high bits agree. */
  lemma SameBucket(b0: nat, b1: nat, x: nat, y: nat)
    requires b0 <= b1
    ensures Mod(x, P(b1)) == Mod(y, P(b1)) <==> Mod(x, P(b0)) == Mod(y, P(b0)) && High(b0, b1, x) == High(b0, b1, y)
    ensures High(b0, b1, x) < P(b1 - b0) && High(b0, b1, y) < P(b1 - b0)
  {
    hide P, Div, Mod;
    BucketSplit(b0, b1, x);
    BucketSplit(b0, b1, y);
    if Mod(x, P(b1)) == Mod(y, P(b1)) {
      DivUnique(Mod(x, P(b1)), P(b0), High(b0, b1, x), Mod(x, P(b0)));
      DivUnique(Mod(y, P(b1)), P(b0), High(b0, b1, y), Mod(y, P(b0)));
    }
  }

  lemma BucketSplit(b0: nat, b1: nat, x: nat)
    requires b0 <= b1
    ensures Mod(x, P(b1)) == High(b0, b1, x) * P(b0) + Mod(x, P(b0))
  {
    hide P, Div, Mod;
    PowAdd(b0, b1 - b0);
    SplitMod(x, P(b0), P(b1 - b0));
  }

  /** The rest for a product, from the rest for one factor and that of the quotient for the other. */
  lemma SplitMod(x: nat, p: nat, d: nat)
    requires p > 0 && d > 0
    ensures p * d > 0 && Mod(x, p * d) == Mod(Div(x, p), d) * p + Mod(x, p)
  {
    hide Div, Mod;
    var q, low := Div(x, p), Mod(x, p);
    var a, h := Div(q, d), Mod(q, d);
    Distribute(a, d, h, p);
    Smaller(h, d, p);
    NonZero(p, d);
    assert q * p == (a * d + h) * p;
    var pd := p * d;
    assert x == a * pd + (h * p + low);
    DivUnique(x, pd, a, h * p + low);
  }

  // ----- one call -----

  /** The entries of some buckets, one bucket after the other. */
  function Chains<K, V>(t: Table<K, V>, buckets: seq<nat>): seq<Entry<K, V>> {
    if buckets == [] then []
    else (if buckets[0] < |t| then t[buckets[0]] else []) + Chains(t, buckets[1..])
  }

  lemma {:induction false} InChains<K, V>(t: Table<K, V>, buckets: seq<nat>, i: nat, e: Entry<K, V>)
    requires i in buckets && i < |t| && e in t[i]
    ensures e in Chains(t, buckets)
  {
    if buckets[0] != i { InChains(t, buckets[1..], i, e); }
  }

  /** dictScan: the new cursor and the entries that are reported. */
  function Scan<K, V>(w: nat, st: St<K, V>, v: nat): (nat, seq<Entry<K, V>>)
    requires Fits(w, st)
  {
    if st.used0 + st.used1 == 0 then (0, [])
    else
      var b0, b1 := Bits(Small(st)), Bits(Large(st));
      (Next(w, b0, v),
       Chains(Small(st), [Mod(v, P(b0))]) + if Rehashing(st) then Chains(Large(st), Visits(w, b0, b1, v)) else [])
  }

  /** The bits of the cursor between the two masks are ones, all to the right; there are none as long as
      tables only grow. */
  predicate Complete<K, V>(st: St<K, V>, v: nat)
    requires Bits(Small(st)) <= Bits(Large(st))
  {
    OnlyOnes(High(Bits(Small(st)), Bits(Large(st)), v))
  }

  lemma Sizes<K, V>(hash: K -> nat, st: St<K, V>)
    requires Valid(hash, st) && st.t0 != []
    ensures |Small(st)| == P(Bits(Small(st))) && |Large(st)| == P(Bits(Large(st)))
    ensures Bits(Small(st)) <= Bits(Large(st))
  {
    LogOf(|st.t0|);
    if Rehashing(st) { LogOf(|st.t1|); }
    var a, b := Bits(Small(st)), Bits(Large(st));
    if b < a { PowMonotone(b + 1, a); }
  }

  lemma WhereIsIt<K, V>(hash: K -> nat, st: St<K, V>, e: Entry<K, V>)
    requires Valid(hash, st) && e in All(st)
    ensures st.t0 != [] && |Small(st)| > 0 && |Large(st)| > 0 && st.used0 + st.used1 > 0
    ensures e in Small(st)[hash(e.key) % |Small(st)|] || (Rehashing(st) && e in Large(st)[hash(e.key) % |Large(st)|])
  {
    assert Items<K, V>([]) == multiset{};
    if st.t0 != [] { PlacedIn(hash, st.t0, e); }
    if st.t1 != [] { PlacedIn(hash, st.t1, e); }
    SomeUsed(Items(st.t0), e);
    SomeUsed(Items(st.t1), e);
  }

  lemma SomeUsed<T>(a: multiset<T>, e: T)
    ensures e in a ==> |a| > 0
  {
  }

  /** A call reports an entry whose low bits are those of the cursor, if the entry is in the smaller
      table or its high bits are not below those of the cursor. */
  lemma CallReports<K, V>(w: nat, hash: K -> nat, st: St<K, V>, v: nat, e: Entry<K, V>)
    requires Valid(hash, st) && Fits(w, st) && e in All(st)
    requires
      var b0, b1 := Bits(Small(st)), Bits(Large(st));
      Mod(hash(e.key), P(b0)) == Mod(v, P(b0)) && High(b0, b1, hash(e.key)) >= High(b0, b1, v)
    ensures e in Scan(w, st, v).1
  {
    WhereIsIt(hash, st, e);
    Sizes(hash, st);
    var h, b0, b1 := hash(e.key), Bits(Small(st)), Bits(Large(st));
    VisitsAre(w, b0, b1, v, h);
    hide Visits, Small, Large, Valid, High;
    if e in Small(st)[h % |Small(st)|] {
      InChains(Small(st), [Mod(v, P(b0))], Mod(v, P(b0)), e);
    } else {
      InChains(Large(st), Visits(w, b0, b1, v), Mod(h, P(b1)), e);
    }
  }

  /** A complete call leaves nothing behind unreported: what the cursor passes was behind it before or is
      reported now. */
  lemma CallCovers<K, V>(w: nat, hash: K -> nat, st: St<K, V>, v: nat, e: Entry<K, V>)
    requires Valid(hash, st) && Fits(w, st) && e in All(st) && Complete(st, v)
    requires Passes(w, Bits(Small(st)), v, hash(e.key))
    ensures Order(w, hash(e.key)) < Order(w, v) || e in Scan(w, st, v).1
  {
    CompletePassed(w, Bits(Small(st)), Bits(Large(st)), v, hash(e.key));
    hide Valid, Small, Large, Scan, Passes, OnlyOnes, High, Order;
    if Order(w, hash(e.key)) >= Order(w, v) { CallReports(w, hash, st, v, e); }
  }

  /** Exactly the complete calls visit the buckets of all that they pass. */
  lemma CompleteIsNeeded(w: nat, b0: nat, b1: nat, v: nat)
    requires b0 <= b1 <= w
    ensures
      OnlyOnes(High(b0, b1, v)) <==>
      forall x: nat :: Passes(w, b0, v, x) && Order(w, x) >= Order(w, v) ==> Mod(x, P(b1)) in Visits(w, b0, b1, v)
  {
    hide OnlyOnes, High, Visits, Passes, Order, P, Mod, Div;
    if OnlyOnes(High(b0, b1, v)) {
      forall x: nat | Passes(w, b0, v, x) && Order(w, x) >= Order(w, v)
        ensures Mod(x, P(b1)) in Visits(w, b0, b1, v)
      {
        CompletePassed(w, b0, b1, v, x);
        VisitsAre(w, b0, b1, v, x);
      }
    } else {
      var x := IncompletePassed(w, b0, b1, v);
      VisitsAre(w, b0, b1, v, x);
    }
  }

  // ----- small facts for the method -----

  predicate SizesFit(w: nat, small: nat, large: nat) {
    small == P(Log2(small)) && large == P(Log2(large)) && Log2(small) <= Log2(large) <= w
  }

  lemma ScanIs<K, V>(w: nat, hash: K -> nat, st: St<K, V>, v: nat)
    requires Valid(hash, st) && Fits(w, st) && st.used0 + st.used1 != 0
    ensures SizesFit(w, |Small(st)|, |Large(st)|) && SizesFit(w, |Small(st)|, |Small(st)|)
    ensures
      var b0, b1 := Log2(|Small(st)|), Log2(|Large(st)|);
      Scan(w, st, v) == (Next(w, b0, v),
                         Small(st)[Mod(v, |Small(st)|)]
                         + if Rehashing(st) then Chains(Large(st), Visits(w, b0, b1, v)) else [])
  {
    UsedHasTable(hash, st);
    Sizes(hash, st);
    hide Valid, Next, Visits, P, Mod, Log2;
    OneBucket(Small(st), Mod(v, |Small(st)|));
  }

  lemma OneBucket<K, V>(t: Table<K, V>, i: nat)
    requires i < |t|
    ensures Chains(t, [i]) == t[i]
  {
    assert Chains(t, []) == [];
  }

  lemma VisitsStep<K, V>(t: Table<K, V>, w: nat, b0: nat, b1: nat, v: nat)
    requires b0 <= b1 <= w && |t| == P(b1)
    ensures
      var v' := Up(w, b0, v);
      Chains(t, Visits(w, b0, b1, v))
      == t[Mod(v, P(b1))] + if High(b0, b1, v') == 0 then [] else Chains(t, Visits(w, b0, b1, v'))
  {
    var v' := Up(w, b0, v);
    var rest := if High(b0, b1, v') == 0 then [] else Visits(w, b0, b1, v');
    assert Visits(w, b0, b1, v) == [Mod(v, P(b1))] + rest;
    assert ([Mod(v, P(b1))] + rest)[1..] == rest;
    hide P, Mod, Div, High, Up, Visits;
  }

  /** The next cursor depends on the low bits only. */
  lemma SameNext(w: nat, b: nat, v: nat, v': nat)
    requires b <= w && Mod(v, P(b)) == Mod(v', P(b))
    ensures Next(w, b, v) == Next(w, b, v')
  {
  }

  lemma Swap(a: nat, b: nat)
    ensures a * b == b * a
  {
  }

  lemma Ratio(w: nat, small: nat, large: nat)
    requires SizesFit(w, small, large)
    ensures small > 0 && Div(large, small) == P(Log2(large) - Log2(small))
  {
    hide P, Div, Mod;
    var d := Log2(large) - Log2(small);
    PowAdd(Log2(small), d);
    Swap(small, P(d));
    DivUnique(large, small, P(d), 0);
  }
}
