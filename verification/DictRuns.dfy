/** Whole runs of a dictionary: any sequence of operations, and scans in between. */
module DictRuns {
  import opened Entries
  import opened DictTables
  import opened DictState
  import opened Division
  import opened ReverseBits
  import opened ScanCursor
  import opened DictScan

  datatype Op<K, V> =
    | AddOp(k: K, v: V, canResize: bool)
    | ReplaceOp(k: K, v: V, canResize: bool)
    | DeleteOp(k: K)
    | FindOp(k: K)
    | RehashOp(n: nat)
    | ExpandOp(size: int)
    | ResizeOp(canResize: bool)
    | IteratorsOp(count: int)

  ghost function Do<K, V>(hash: K -> nat, st: St<K, V>, op: Op<K, V>): (st': St<K, V>)
    requires Valid(hash, st)
    ensures Valid(hash, st')
  {
    match op
    case AddOp(k, v, canResize) => Add(hash, st, canResize, k, v).0
    case ReplaceOp(k, v, canResize) => Replace(hash, st, canResize, k, v).0
    case DeleteOp(k) => Delete(hash, st, k).0
    case FindOp(k) => if st.t0 == [] then st else RehashStep(hash, st)
    case RehashOp(n) => Rehash(hash, st, n)
    case ExpandOp(size) => ExpandKeeps(hash, st, size); Expand(st, size)
    case ResizeOp(canResize) => ExpandKeeps(hash, st, Minimal(st)); if canResize then Expand(st, Minimal(st)) else st
    case IteratorsOp(n) => st.(iterators := n)
  }

  /** The size that dictResize asks for. */
  function Minimal<K, V>(st: St<K, V>): int {
    if st.used0 < DICT_HT_INITIAL_SIZE then DICT_HT_INITIAL_SIZE else st.used0
  }

  /** What an operation does to a map. */
  function DoMap<K, V>(m: map<K, V>, op: Op<K, V>): map<K, V> {
    match op
    case AddOp(k, v, _) => if k in m then m else m[k := v]
    case ReplaceOp(k, v, _) => m[k := v]
    case DeleteOp(k) => m - {k}
    case _ => m
  }

  ghost function Run<K, V>(hash: K -> nat, st: St<K, V>, ops: seq<Op<K, V>>): (st': St<K, V>)
    requires Valid(hash, st)
    ensures Valid(hash, st')
    decreases |ops|
  {
    if |ops| == 0 then st else Run(hash, Do(hash, st, ops[0]), ops[1..])
  }

  function RunMap<K, V>(m: map<K, V>, ops: seq<Op<K, V>>): map<K, V>
    decreases |ops|
  {
    if ops == [] then m else RunMap(DoMap(m, ops[0]), ops[1..])
  }

  lemma DoContents<K, V>(hash: K -> nat, st: St<K, V>, op: Op<K, V>)
    requires Valid(hash, st)
    ensures Contents(hash, Do(hash, st, op)) == DoMap(Contents(hash, st), op)
  {
    hide Shape, Unique, MapOf, All, Add, Replace, Delete, RehashStep, Rehash, Expand;
    match op
    case AddOp(k, v, canResize) => AddContents(hash, st, canResize, k, v);
    case ReplaceOp(k, v, canResize) => ReplaceContents(hash, st, canResize, k, v);
    case DeleteOp(k) => DeleteContents(hash, st, k);
    case ExpandOp(size) => ExpandKeeps(hash, st, size);
    case ResizeOp(_) => ExpandKeeps(hash, st, Minimal(st));
    case IteratorsOp(n) => SameTables(st, n);
    case _ =>
  }

  lemma SameTables<K, V>(st: St<K, V>, n: int)
    ensures All(st.(iterators := n)) == All(st)
  {
  }

  /** Through any sequence of operations the two tables represent one map. */
  lemma {:induction false} RunContents<K, V>(hash: K -> nat, st: St<K, V>, ops: seq<Op<K, V>>)
    requires Valid(hash, st)
    ensures Contents(hash, Run(hash, st, ops)) == RunMap(Contents(hash, st), ops)
    decreases |ops|
  {
    hide Valid, Contents, Do;
    if ops != [] {
      DoContents(hash, st, ops[0]);
      RunContents(hash, Do(hash, st, ops[0]), ops[1..]);
    }
  }

  // ----- no operation but a resize to less shrinks the smaller table -----

  predicate Shrinks<K, V>(st: St<K, V>, op: Op<K, V>) {
    match op
    case ExpandOp(size) => CanExpand(st, size) && NextPower(DICT_HT_INITIAL_SIZE, size) < |st.t0|
    case ResizeOp(canResize) =>
      canResize && CanExpand(st, Minimal(st)) && NextPower(DICT_HT_INITIAL_SIZE, Minimal(st)) < |st.t0|
    case _ => false
  }

  lemma DoSize<K, V>(hash: K -> nat, st: St<K, V>, op: Op<K, V>)
    requires Valid(hash, st) && !Shrinks(st, op)
    ensures |Small(Do(hash, st, op))| >= |Small(st)|
  {
    hide Shape, Unique, Rehash, Add, Replace, Delete, RehashStep, NextPower;
    match op
    case AddOp(k, v, canResize) => AddSize(hash, st, canResize, k, v);
    case ReplaceOp(k, v, canResize) => ReplaceSize(hash, st, canResize, k, v);
    case DeleteOp(k) => DeleteSize(hash, st, k);
    case FindOp(_) => StepSize(hash, st);
    case RehashOp(n) => RehashSize(hash, st, n);
    case _ => hide Valid;
  }

  lemma {:induction false} RehashSize<K, V>(hash: K -> nat, st: St<K, V>, n: nat)
    requires Valid(hash, st)
    ensures |Small(Rehash(hash, st, n))| >= |Small(st)|
    decreases n
  {
    hide Small, RehashOne, NextFull, Shape, Unique, Rehash;
    if Rehashing(st) && n > 0 {
      if st.used0 != 0 {
        RehashGoesOn(hash, st, n);
        RehashPlace(hash, st);
        OneSize(hash, st);
        RehashSize(hash, RehashOne(hash, st), n - 1);
      } else {
        RehashEnds(hash, st, n);
        EndSize(st);
      }
    } else {
      RehashIdle(hash, st, n);
    }
  }

  lemma OneSize<K, V>(hash: K -> nat, st: St<K, V>)
    requires Rehashing(st) && st.t1 != [] && 0 <= st.rehashidx <= |st.t0| && NextFull(st.t0, st.rehashidx) < |st.t0|
    ensures |Small(RehashOne(hash, st))| == |Small(st)|
  {
    hide MoveChain, NextFull;
  }

  lemma EndSize<K, V>(st: St<K, V>)
    requires Rehashing(st)
    ensures |Small(St(st.t1, st.used1, [], 0, -1, st.iterators))| >= |Small(st)|
  {
  }

  lemma RehashIdle<K, V>(hash: K -> nat, st: St<K, V>, n: nat)
    requires Valid(hash, st) && (!Rehashing(st) || n == 0)
    ensures Rehash(hash, st, n) == st
  {
    hide Shape, Unique;
  }

  lemma AddSize<K, V>(hash: K -> nat, st: St<K, V>, canResize: bool, k: K, v: V)
    requires Valid(hash, st)
    ensures |Small(Add(hash, st, canResize, k, v).0)| >= |Small(st)|
  {
    hide Valid, Rehash, Lookup;
    RehashSize(hash, st, 1);
    AddIs(hash, st, canResize, k, v);
    hide Add, RehashStep;
    StepSize(hash, st);
    var st1 := RehashStep(hash, st);
    ExpandedSize(st1, canResize);
  }

  lemma StepSize<K, V>(hash: K -> nat, st: St<K, V>)
    requires Valid(hash, st)
    ensures |Small(RehashStep(hash, st))| >= |Small(st)|
  {
    RehashSize(hash, st, 1);
    hide Valid, Rehash;
  }

  lemma ExpandedSize<K, V>(st: St<K, V>, canResize: bool)
    ensures |Small(ExpandIfNeeded(st, canResize))| >= |Small(st)|
  {
  }

  lemma ReplaceSize<K, V>(hash: K -> nat, st: St<K, V>, canResize: bool, k: K, v: V)
    requires Valid(hash, st)
    ensures |Small(Replace(hash, st, canResize, k, v).0)| >= |Small(st)|
  {
    hide Shape, Unique, Rehash, RehashStep, Add, Replace, Lookup;
    AddSize(hash, st, canResize, k, v);
    ReplaceIs(hash, st, canResize, k, v);
    StepSize(hash, Add(hash, st, canResize, k, v).0);
  }

  lemma DeleteSize<K, V>(hash: K -> nat, st: St<K, V>, k: K)
    requires Valid(hash, st)
    ensures |Small(Delete(hash, st, k).0)| >= |Small(st)|
  {
    StepSize(hash, st);
    if st.t0 == [] { DeleteNone(hash, st, k); } else { DeleteIs(hash, st, k); }
    hide Shape, Unique, Rehash, RehashStep, Delete, Lookup;
  }

  // ----- scans -----

  /** A scan: call i finds the tables sts[i] and the cursor vs[i]; the last cursor is 0. */
  ghost predicate ScanRun<K, V>(w: nat, hash: K -> nat, sts: seq<St<K, V>>, vs: seq<nat>) {
    && |sts| > 0 && |vs| == |sts| + 1 && vs[0] == 0 && vs[|sts|] == 0
    && forall i :: 0 <= i < |sts| ==> Valid(hash, sts[i]) && Fits(w, sts[i]) && vs[i + 1] == Scan(w, sts[i], vs[i]).0
  }

  ghost predicate Present<K, V>(hash: K -> nat, st: St<K, V>, k: K)
    requires Valid(hash, st)
  {
    k in Contents(hash, st)
  }

  ghost predicate Reports<K, V>(w: nat, st: St<K, V>, v: nat, k: K)
    requires Fits(w, st)
  {
    exists e :: e in Scan(w, st, v).1 && e.key == k
  }

  /** One of the first n calls reports the key. */
  ghost predicate Reported<K, V>(w: nat, hash: K -> nat, sts: seq<St<K, V>>, vs: seq<nat>, k: K, n: nat)
    requires ScanRun(w, hash, sts, vs)
  {
    exists i :: 0 <= i < n && i < |sts| && Reports(w, sts[i], vs[i], k)
  }

  lemma CallForKey<K, V>(w: nat, hash: K -> nat, st: St<K, V>, v: nat, k: K)
    requires Valid(hash, st) && Fits(w, st) && Present(hash, st, k) && Complete(st, v)
    requires Scan(w, st, v).0 == 0 || Order(w, hash(k)) < Order(w, Scan(w, st, v).0)
    ensures Order(w, hash(k)) < Order(w, v) || Reports(w, st, v, k)
  {
    ContentsKeys(hash, st, k);
    var e :| e in All(st) && e.key == k;
    WhereIsIt(hash, st, e);
    hide Valid, Complete, Chains, Visits, Order;
    CallCovers(w, hash, st, v, e);
  }

  /** What is behind the cursor has been reported. */
  lemma {:induction false} BehindIsReported<K, V>(w: nat, hash: K -> nat, sts: seq<St<K, V>>, vs: seq<nat>, k: K, n: nat)
    requires ScanRun(w, hash, sts, vs) && n <= |sts|
    requires forall i :: 0 <= i < |sts| ==> Complete(sts[i], vs[i])
    requires forall i :: 0 <= i < |sts| ==> Present(hash, sts[i], k)
    requires Order(w, hash(k)) < Order(w, vs[n])
    ensures Reported(w, hash, sts, vs, k, n)
    decreases n
  {
    hide Valid, Complete, Scan, Present, Reports, Order, Fits;
    if n == 0 {
      StartsFirst(w);
    } else {
      CallForKey(w, hash, sts[n - 1], vs[n - 1], k);
      if !Reports(w, sts[n - 1], vs[n - 1], k) { BehindIsReported(w, hash, sts, vs, k, n - 1); }
    }
  }

  lemma StartsFirst(w: nat)
    ensures Order(w, 0) == 0
  {
    RevZero(w);
  }

  /** A scan reports every key that is there at each call, if all calls are complete. */
  lemma ScanReportsAll<K, V>(w: nat, hash: K -> nat, sts: seq<St<K, V>>, vs: seq<nat>, k: K)
    requires ScanRun(w, hash, sts, vs)
    requires forall i :: 0 <= i < |sts| ==> Complete(sts[i], vs[i])
    requires forall i :: 0 <= i < |sts| ==> Present(hash, sts[i], k)
    ensures Reported(w, hash, sts, vs, k, |sts|)
  {
    hide Valid, Complete, Scan, Present, Reports, Order, Fits;
    var n := |sts|;
    CallForKey(w, hash, sts[n - 1], vs[n - 1], k);
    if !Reports(w, sts[n - 1], vs[n - 1], k) { BehindIsReported(w, hash, sts, vs, k, n - 1); }
  }

  /** The calls are complete if the smaller table never gets smaller. */
  lemma GrowingIsComplete<K, V>(w: nat, hash: K -> nat, sts: seq<St<K, V>>, vs: seq<nat>, i: nat)
    requires ScanRun(w, hash, sts, vs) && i < |sts|
    requires forall j :: 0 <= j < |sts| - 1 ==> |Small(sts[j])| <= |Small(sts[j + 1])|
    ensures Complete(sts[i], vs[i])
  {
    if i == 0 {
      NoHighBits(Bits(Small(sts[0])), Bits(Large(sts[0])), 0);
    } else {
      CursorBound(w, hash, sts[i - 1], vs[i - 1]);
      BitsMonotone(|Small(sts[i - 1])|, |Small(sts[i])|);
      PowMonotone(Bits(Small(sts[i - 1])), Bits(Small(sts[i])));
      NoHighBits(Bits(Small(sts[i])), Bits(Large(sts[i])), vs[i]);
    }
    PositivePow(Bits(Small(sts[0])));
  }

  lemma CursorBound<K, V>(w: nat, hash: K -> nat, st: St<K, V>, v: nat)
    requires Fits(w, st)
    ensures Scan(w, st, v).0 < P(Bits(Small(st)))
  {
    NextBound(w, Bits(Small(st)), v);
  }

  lemma {:induction false} BitsMonotone(m: nat, n: nat)
    requires m <= n
    ensures Log2(m) <= Log2(n)
    decreases n
  {
    if m > 1 { BitsMonotone(m / 2, n / 2); }
  }

  lemma NoHighBits(b0: nat, b1: nat, v: nat)
    requires b0 <= b1 && v < P(b0)
    ensures OnlyOnes(High(b0, b1, v))
  {
    hide P, Div, Mod;
    DivUnique(v, P(b0), 0, v);
    PositivePow(b1 - b0);
    DivUnique(0, P(b1 - b0), 0, 0);
    NoOnes();
  }

  /** They are also complete if the larger table is never more than twice as large as the smaller one. */
  lemma HalfIsComplete<K, V>(hash: K -> nat, st: St<K, V>, v: nat)
    requires Valid(hash, st) && |Large(st)| <= 2 * |Small(st)|
    ensures Bits(Small(st)) <= Bits(Large(st)) && Complete(st, v)
  {
    if st.t0 == [] {
      NoTableBits(hash, st);
      NoHighBits(0, 0, 0);
      DivUnique(v, 1, v, 0);
      assert P(0) == 1;
      OneOrNone(Mod(Div(v, P(0)), P(0)));
    } else {
      Sizes(hash, st);
      var b0, b1 := Bits(Small(st)), Bits(Large(st));
      hide Valid, Div, Mod;
      TwiceIsOne(b0, b1);
      OneOrNone(High(b0, b1, v));
    }
  }

  lemma TwiceIsOne(b0: nat, b1: nat)
    requires b0 <= b1 && P(b1) <= 2 * P(b0)
    ensures P(b1 - b0) <= 2
  {
    PStep(1);
    PStep(b0 + 1);
    PStep(b0 + 2);
    PositivePow(b0);
    if b1 > b0 + 1 { PowMonotone(b0 + 2, b1); }
  }

  lemma NoTableBits<K, V>(hash: K -> nat, st: St<K, V>)
    requires Valid(hash, st) && st.t0 == []
    ensures Bits(Small(st)) == 0 && Bits(Large(st)) == 0
  {
  }

  lemma OneOrNone(h: nat)
    requires h < 2
    ensures OnlyOnes(h)
  {
    NoOnes();
    if h == 1 { assert 1 + 1 == P(1) by { assert P(1) == 2 * P(0) && P(0) == 1; } }
  }

  /** Any operations between the calls, but no resize to less. */
  ghost predicate Between<K, V>(hash: K -> nat, st: St<K, V>, st': St<K, V>, ops: seq<Op<K, V>>)
    requires Valid(hash, st)
    decreases |ops|
  {
    if ops == [] then st' == st
    else !Shrinks(st, ops[0]) && Between(hash, Do(hash, st, ops[0]), st', ops[1..])
  }

  lemma {:induction false} BetweenGrows<K, V>(hash: K -> nat, st: St<K, V>, st': St<K, V>, ops: seq<Op<K, V>>)
    requires Valid(hash, st) && Between(hash, st, st', ops)
    ensures |Small(st)| <= |Small(st')| && st' == Run(hash, st, ops)
    decreases |ops|
  {
    hide Valid, Do, Small, Shrinks;
    if ops != [] {
      DoSize(hash, st, ops[0]);
      BetweenGrows(hash, Do(hash, st, ops[0]), st', ops[1..]);
    }
  }

  /** The guarantee of dictScan: whatever is done between the calls, as long as nothing shrinks the table,
      a key that is there at every call is reported. */
  lemma ScanGuarantee<K, V>(w: nat, hash: K -> nat, sts: seq<St<K, V>>, vs: seq<nat>, opss: seq<seq<Op<K, V>>>, k: K)
    requires ScanRun(w, hash, sts, vs) && |opss| == |sts| - 1
    requires forall i :: 0 <= i < |opss| ==> Between(hash, sts[i], sts[i + 1], opss[i])
    requires forall i :: 0 <= i < |sts| ==> Present(hash, sts[i], k)
    ensures Reported(w, hash, sts, vs, k, |sts|)
  {
    hide Valid, Complete, Scan, Present, Reports, Order, Between, Small;
    forall j | 0 <= j < |sts| - 1 ensures |Small(sts[j])| <= |Small(sts[j + 1])| {
      BetweenGrows(hash, sts[j], sts[j + 1], opss[j]);
    }
    forall i | 0 <= i < |sts| ensures Complete(sts[i], vs[i]) { GrowingIsComplete(w, hash, sts, vs, i); }
    ScanReportsAll(w, hash, sts, vs, k);
  }

  // ----- a table that does not change -----

  /** The cursor after n calls. */
  function Cursor<K, V>(w: nat, st: St<K, V>, n: nat): nat
    requires Fits(w, st)
  {
    if n == 0 then 0 else Scan(w, st, Cursor(w, st, n - 1)).0
  }

  /** Call n is for the bucket whose reversed number is n. */
  lemma {:induction false} CursorIs<K, V>(w: nat, st: St<K, V>, n: nat)
    requires Fits(w, st) && st.used0 + st.used1 != 0 && n < P(Bits(Small(st)))
    ensures Cursor(w, st, n) == Rev(Bits(Small(st)), n)
  {
    var b := Bits(Small(st));
    hide P, Rev, Small, Large, Next, Div, Mod;
    if n == 0 {
      RevZero(b);
    } else {
      CursorIs(w, st, n - 1);
      NextIs(w, b, Rev(b, n - 1));
      RevRev(b, n - 1);
      DivUnique(n - 1, P(b), 0, n - 1);
    }
  }

  /** A scan of an unchanging table takes one call per bucket and visits each bucket exactly once. */
  lemma ScanVisitsOnce<K, V>(w: nat, hash: K -> nat, st: St<K, V>, bucket: nat) returns (n: nat)
    requires Valid(hash, st) && Fits(w, st) && !Rehashing(st) && st.used0 != 0 && bucket < |st.t0|
    ensures Cursor(w, st, |st.t0|) == 0
    ensures forall m :: 0 < m < |st.t0| ==> Cursor(w, st, m) != 0
    ensures n < |st.t0| && Cursor(w, st, n) == bucket && Scan(w, st, Cursor(w, st, n)).1 == st.t0[bucket]
    ensures forall m :: 0 <= m < |st.t0| && m != n ==> Cursor(w, st, m) != bucket
    ensures forall m :: 0 <= m < |st.t0| ==> Cursor(w, st, m) < |st.t0|
  {
    var b := Bits(st.t0);
    HasTable(hash, st);
    Sizes(hash, st);
    n := Rev(b, bucket);
    hide Valid, P, Rev, Next, Div, Mod;
    forall m | 0 <= m < P(b) ensures Cursor(w, st, m) == Rev(b, m) < P(b) && Rev(b, Rev(b, m)) == m {
      CursorIs(w, st, m);
      RevBound(b, m);
      RevRev(b, m);
      DivUnique(m, P(b), 0, m);
    }
    RevZero(b);
    PositivePow(b);
    LastCursor(w, b, st);
    assert Mod(bucket, P(b)) == bucket by { DivUnique(bucket, P(b), 0, bucket); }
    OneBucket(st.t0, bucket);
  }

  lemma HasTable<K, V>(hash: K -> nat, st: St<K, V>)
    requires Valid(hash, st) && !Rehashing(st)
    ensures st.used1 == 0
  {
    hide Unique;
  }

  lemma LastCursor<K, V>(w: nat, b: nat, st: St<K, V>)
    requires Fits(w, st) && !Rehashing(st) && st.used0 + st.used1 != 0 && b == Bits(st.t0) && |st.t0| == P(b)
    ensures Cursor(w, st, |st.t0|) == 0
  {
    PositivePow(b);
    hide P, Rev, Next, Div, Mod;
    CursorIs(w, st, P(b) - 1);
    NextIs(w, b, Rev(b, P(b) - 1));
    RevRev(b, P(b) - 1);
    DivUnique(P(b) - 1, P(b), 0, P(b) - 1);
    RevZero(b);
  }
}
