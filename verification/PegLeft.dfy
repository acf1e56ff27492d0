/** What verifygrammar rejects, without regard to how it finds out (lptree.c:899-995): rules that call themselves before
    anything that must consume, and repetitions of what may be empty. */
module PegLeft {
  import opened Wrappers
  import opened PegTree
  import opened PegAnalysis
  import opened PegVerify

  // ----- the relations -----

  /** t may be passed without consuming, with calls at most h deep. */
  predicate EmptyWithin(g: seq<Tree>, t: Tree, h: nat)
    decreases h, t
  {
    match t
    case TTrue => true
    case TRep(_) => true
    case TNot(_) => true
    case TAnd(_) => true
    case TBehind(_, _) => true
    case TSeq(p1, p2) => EmptyWithin(g, p1, h) && EmptyWithin(g, p2, h)
    case TChoice(p1, p2) => EmptyWithin(g, p1, h) || EmptyWithin(g, p2, h)
    case TCall(r) => r < |g| && h > 0 && EmptyWithin(g, g[r], h - 1)
    case TGrammar(_) => Nullable(g, t)
    case _ => false
  }

  ghost predicate CanBeEmpty(g: seq<Tree>, t: Tree) { exists h: nat :: EmptyWithin(g, t, h) }

  /** t calls rule m before anything that must consume. */
  ghost predicate LeftCalls(g: seq<Tree>, t: Tree, m: nat)
    decreases t
  {
    match t
    case TCall(r) => r == m
    case TRep(p) => LeftCalls(g, p, m)
    case TNot(p) => LeftCalls(g, p, m)
    case TAnd(p) => LeftCalls(g, p, m)
    case TSeq(p1, p2) => LeftCalls(g, p1, m) || (CanBeEmpty(g, p1) && LeftCalls(g, p2, m))
    case TChoice(p1, p2) => LeftCalls(g, p1, m) || LeftCalls(g, p2, m)
    case _ => false
  }

  /** A row of n such calls starts in t.  A call of a rule that is not there counts as a row without end. */
  ghost predicate Chain(g: seq<Tree>, t: Tree, n: nat)
    decreases n
  {
    n == 0 || exists m: nat :: LeftCalls(g, t, m) && (m < |g| ==> Chain(g, g[m], n - 1))
  }

  /** u is a part of t, but not inside a grammar in it. */
  predicate Within(t: Tree, u: Tree)
    decreases t
  {
    t == u ||
    match t
    case TRep(p) => Within(p, u)
    case TNot(p) => Within(p, u)
    case TAnd(p) => Within(p, u)
    case TBehind(_, p) => Within(p, u)
    case TSeq(p1, p2) => Within(p1, u) || Within(p2, u)
    case TChoice(p1, p2) => Within(p1, u) || Within(p2, u)
    case _ => false
  }

  ghost predicate EmptyLoop(g: seq<Tree>, t: Tree) { exists p :: Within(t, TRep(p)) && Nullable(g, p) }

  // ----- verifyrule -----

  lemma {:induction false} EmptyMore(g: seq<Tree>, t: Tree, h: nat, h': nat)
    requires h <= h' && EmptyWithin(g, t, h)
    ensures EmptyWithin(g, t, h')
    decreases h, t
  {
    match t
    case TSeq(p1, p2) => EmptyMore(g, p1, h, h'); EmptyMore(g, p2, h, h');
    case TChoice(p1, p2) => if EmptyWithin(g, p1, h) { EmptyMore(g, p1, h, h'); } else { EmptyMore(g, p2, h, h'); }
    case TCall(r) => EmptyMore(g, g[r], h - 1, h' - 1);
    case _ =>
  }

  /** Where verifyrule finds no error it tells what may be empty. */
  lemma {:induction false} VerifiedWithin(g: seq<Tree>, t: Tree, d: nat, h: nat)
    requires VerifyRule(g, t, d, false).Some? && d <= h
    ensures VerifyRule(g, t, d, false).value == EmptyWithin(g, t, h)
    decreases d, t
  {
    match t
    case TNot(p) => VerifyFlag(g, p, d, true);
    case TRep(p) => VerifyFlag(g, p, d, true);
    case TAnd(p) => VerifyFlag(g, p, d, true);
    case TCall(r) => VerifiedWithin(g, g[r], d - 1, h - 1);
    case TSeq(p1, p2) =>
      VerifiedWithin(g, p1, d, h);
      if VerifyRule(g, p1, d, false).value { VerifiedWithin(g, p2, d, h); }
    case TChoice(p1, p2) =>
      VerifiedWithin(g, p1, d, h);
      VerifyFlag(g, p2, d, VerifyRule(g, p1, d, false).value);
      VerifiedWithin(g, p2, d, h);
    case _ =>
  }

  lemma VerifiedEmpty(g: seq<Tree>, t: Tree, d: nat)
    requires VerifyRule(g, t, d, false).Some?
    ensures VerifyRule(g, t, d, false).value == CanBeEmpty(g, t)
  {
    VerifiedWithin(g, t, d, d);
    if h: nat :| EmptyWithin(g, t, h) {
      EmptyMore(g, t, h, h + d);
      VerifiedWithin(g, t, d, h + d);
    }
  }

  /** What p calls, t calls. */
  ghost predicate Includes(g: seq<Tree>, t: Tree, p: Tree) {
    forall m: nat :: LeftCalls(g, p, m) ==> LeftCalls(g, t, m)
  }

  lemma ChainPart(g: seq<Tree>, p: Tree, t: Tree, n: nat)
    requires Chain(g, p, n) && Includes(g, t, p)
    ensures Chain(g, t, n)
  {
    hide LeftCalls;
  }

  /** verifyrule fails if and only if a row of more left calls starts than it may follow. */
  lemma {:induction false} FailsOnChains(g: seq<Tree>, t: Tree, d: nat, nb: bool)
    ensures VerifyRule(g, t, d, nb).None? <==> Chain(g, t, d + 1)
    decreases d, t
  {
    match t
    case TNot(p) => FailsOnChains(g, p, d, true); SameChains(g, p, t, d + 1);
    case TAnd(p) => FailsOnChains(g, p, d, true); SameChains(g, p, t, d + 1);
    case TRep(p) => FailsOnChains(g, p, d, true); SameChains(g, p, t, d + 1);
    case TCall(r) => if r < |g| && d > 0 { FailsOnChains(g, g[r], d - 1, nb); } CallChain(g, r, d + 1);
    case TSeq(p1, p2) =>
      FailsOnChains(g, p1, d, false);
      if VerifyRule(g, p1, d, false).None? { ChainPart(g, p1, t, d + 1); }
      else {
        VerifiedEmpty(g, p1, d);
        if CanBeEmpty(g, p1) { FailsOnChains(g, p2, d, nb); EitherChain(g, p1, p2, t, d + 1); }
        else { SameChains(g, p1, t, d + 1); }
      }
    case TChoice(p1, p2) =>
      FailsOnChains(g, p1, d, nb);
      if VerifyRule(g, p1, d, nb).Some? { FailsOnChains(g, p2, d, VerifyRule(g, p1, d, nb).value); }
      EitherChain(g, p1, p2, t, d + 1);
    case _ => assert forall m: nat :: !LeftCalls(g, t, m);
  }

  lemma SameChains(g: seq<Tree>, p: Tree, t: Tree, n: nat)
    requires Includes(g, t, p) && Includes(g, p, t)
    ensures Chain(g, p, n) == Chain(g, t, n)
  {
    hide Includes, Chain;
    if Chain(g, p, n) { ChainPart(g, p, t, n); }
    if Chain(g, t, n) { ChainPart(g, t, p, n); }
  }

  /** What t calls, p1 or p2 calls. */
  ghost predicate Shares(g: seq<Tree>, t: Tree, p1: Tree, p2: Tree) {
    forall m: nat :: LeftCalls(g, t, m) ==> LeftCalls(g, p1, m) || LeftCalls(g, p2, m)
  }

  lemma EitherChain(g: seq<Tree>, p1: Tree, p2: Tree, t: Tree, n: nat)
    requires Includes(g, t, p1) && Includes(g, t, p2) && Shares(g, t, p1, p2)
    ensures Chain(g, t, n) == (Chain(g, p1, n) || Chain(g, p2, n))
  {
    hide Includes, Shares, Chain;
    if Chain(g, p1, n) { ChainPart(g, p1, t, n); }
    if Chain(g, p2, n) { ChainPart(g, p2, t, n); }
    if Chain(g, t, n) { ChainOfEither(g, p1, p2, t, n); }
  }

  lemma ChainOfEither(g: seq<Tree>, p1: Tree, p2: Tree, t: Tree, n: nat)
    requires Chain(g, t, n) && Shares(g, t, p1, p2)
    ensures Chain(g, p1, n) || Chain(g, p2, n)
  {
    hide LeftCalls;
    if n > 0 { var m: nat :| LeftCalls(g, t, m) && (m < |g| ==> Chain(g, g[m], n - 1)); }
  }

  lemma CallChain(g: seq<Tree>, r: nat, n: nat)
    requires n > 0
    ensures Chain(g, TCall(r), n) == (r < |g| ==> Chain(g, g[r], n - 1))
  {
    assert LeftCalls(g, TCall(r), r) && forall m: nat :: LeftCalls(g, TCall(r), m) ==> m == r;
  }

  // ----- checkloops -----

  lemma {:induction false} ChecksLoops(g: seq<Tree>, t: Tree)
    ensures CheckLoops(g, t) <==> EmptyLoop(g, t)
    decreases t
  {
    match t
    case TRep(p) =>
      ChecksLoops(g, p);
      assert Within(t, TRep(p));
      assert forall q :: Within(t, TRep(q)) <==> q == p || Within(p, TRep(q));
    case TNot(p) => ChecksLoops(g, p); assert forall q :: Within(t, TRep(q)) <==> Within(p, TRep(q));
    case TAnd(p) => ChecksLoops(g, p); assert forall q :: Within(t, TRep(q)) <==> Within(p, TRep(q));
    case TBehind(_, p) => ChecksLoops(g, p); assert forall q :: Within(t, TRep(q)) <==> Within(p, TRep(q));
    case TSeq(p1, p2) =>
      ChecksLoops(g, p1);
      ChecksLoops(g, p2);
      assert forall q :: Within(t, TRep(q)) <==> Within(p1, TRep(q)) || Within(p2, TRep(q));
    case TChoice(p1, p2) =>
      ChecksLoops(g, p1);
      ChecksLoops(g, p2);
      assert forall q :: Within(t, TRep(q)) <==> Within(p1, TRep(q)) || Within(p2, TRep(q));
    case _ => assert forall q :: !Within(t, TRep(q));
  }

  // ----- verifygrammar -----

  /** A grammar is accepted if and only if no used rule starts a row of more than MAXRULES left calls or has a
      repetition of what may be empty. */
  lemma AcceptedExactly(g: seq<Tree>)
    ensures
      VerifyGrammar(g) <==>
      forall n :: 0 <= n < |g| && Used(g, n) ==> !Chain(g, g[n], MAXRULES + 1) && !EmptyLoop(g, g[n])
  {
    hide VerifyRule, CheckLoops, Chain, EmptyLoop, Used;
    forall n | 0 <= n < |g|
      ensures VerifyRule(g, g[n], MAXRULES, false).None? <==> Chain(g, g[n], MAXRULES + 1)
      ensures CheckLoops(g, g[n]) <==> EmptyLoop(g, g[n])
    {
      FailsOnChains(g, g[n], MAXRULES, false);
      ChecksLoops(g, g[n]);
    }
  }

  // ----- left recursion -----

  /** Every call is of a rule of the grammar. */
  ghost predicate CallsInside(g: seq<Tree>) {
    forall n, m: nat :: 0 <= n < |g| && Calls(g[n], m) ==> m < |g|
  }

  /** Each rule of the path is called by the one in front of it, before anything that must consume. */
  ghost predicate Path(g: seq<Tree>, path: seq<nat>) {
    && (forall k :: 0 <= k < |path| ==> path[k] < |g|)
    && (forall k :: 0 <= k < |path| - 1 ==> LeftCalls(g, g[path[k]], path[k + 1]))
  }

  /** Rule n may come back to itself without having consumed anything. */
  ghost predicate LeftRecursive(g: seq<Tree>, n: nat) {
    exists path :: |path| >= 2 && path[0] == n == path[|path| - 1] && Path(g, path)
  }

  lemma {:induction false} LeftCallsCall(g: seq<Tree>, t: Tree, m: nat)
    requires LeftCalls(g, t, m)
    ensures Calls(t, m)
    decreases t
  {
    match t
    case TRep(p) => LeftCallsCall(g, p, m);
    case TNot(p) => LeftCallsCall(g, p, m);
    case TAnd(p) => LeftCallsCall(g, p, m);
    case TSeq(p1, p2) => if LeftCalls(g, p1, m) { LeftCallsCall(g, p1, m); } else { LeftCallsCall(g, p2, m); }
    case TChoice(p1, p2) => if LeftCalls(g, p1, m) { LeftCallsCall(g, p1, m); } else { LeftCallsCall(g, p2, m); }
    case _ =>
  }

  lemma {:induction false} ChainPath(g: seq<Tree>, n: nat, k: nat) returns (path: seq<nat>)
    requires CallsInside(g) && n < |g| && Chain(g, g[n], k)
    ensures |path| == k + 1 && path[0] == n && Path(g, path)
    decreases k
  {
    if k == 0 { path := [n]; }
    else {
      var m: nat :| LeftCalls(g, g[n], m) && (m < |g| ==> Chain(g, g[m], k - 1));
      LeftCallsCall(g, g[n], m);
      var rest := ChainPath(g, m, k - 1);
      path := [n] + rest;
    }
  }

  lemma {:induction false} CycleChain(g: seq<Tree>, path: seq<nat>, i: nat, k: nat)
    requires |path| >= 2 && path[0] == path[|path| - 1] && Path(g, path) && i < |path| - 1
    ensures Chain(g, g[path[i]], k)
    decreases k
  {
    if k > 0 {
      CycleChain(g, path, if i + 1 == |path| - 1 then 0 else i + 1, k - 1);
      assert LeftCalls(g, g[path[i]], path[i + 1]);
    }
  }

  function Below(n: nat): set<nat> { if n == 0 then {} else Below(n - 1) + {n - 1} }

  lemma {:induction false} BelowIs(n: nat)
    ensures |Below(n)| == n && forall k: nat :: k in Below(n) <==> k < n
  {
    if n > 0 { BelowIs(n - 1); }
  }

  ghost predicate Repeats(s: seq<nat>) { exists i, j :: 0 <= i < j < |s| && s[i] == s[j] }

  lemma {:induction false} Distinct(s: seq<nat>, n: nat)
    requires !Repeats(s) && forall k :: 0 <= k < |s| ==> s[k] < n
    ensures |s| <= n
  {
    DistinctSize(s);
    BelowIs(n);
    assert Elements(s) <= Below(n);
    if Elements(s) != Below(n) { Fewer(Elements(s), Below(n)); }
  }

  function Elements(s: seq<nat>): set<nat> { set x | x in s }

  lemma {:induction false} DistinctSize(s: seq<nat>)
    requires !Repeats(s)
    ensures |Elements(s)| == |s|
  {
    if s != [] {
      var n := |s| - 1;
      var r := s[..n];
      assert s == r + [s[n]];
      assert forall i, j :: 0 <= i < j < |r| ==> r[i] == s[i] && r[j] == s[j] && s[i] != s[j];
      DistinctSize(r);
      assert forall i :: 0 <= i < |r| ==> r[i] == s[i] && s[i] != s[n];
      assert Elements(s) == Elements(r) + {s[n]};
    }
  }

  /** On a path longer than there are rules, some rule comes back to itself. */
  lemma PathRepeats(g: seq<Tree>, path: seq<nat>) returns (i: nat)
    requires Path(g, path) && |path| > |g|
    ensures i < |path| && LeftRecursive(g, path[i])
  {
    if !Repeats(path) { Distinct(path, |g|); }
    var a, b :| 0 <= a < b < |path| && path[a] == path[b];
    i := a;
    var cycle := path[a..b + 1];
    assert forall k :: 0 <= k < |cycle| - 1 ==> LeftCalls(g, g[cycle[k]], cycle[k + 1]) by {
      forall k | 0 <= k < |cycle| - 1 ensures LeftCalls(g, g[cycle[k]], cycle[k + 1]) {
        assert cycle[k] == path[a + k] && cycle[k + 1] == path[a + k + 1];
      }
    }
    assert Path(g, cycle);
  }

  lemma OnPathUsed(g: seq<Tree>, path: seq<nat>, i: nat)
    requires Path(g, path) && i < |path| && Used(g, path[0])
    ensures Used(g, path[i])
  {
    if i > 0 { LeftCallsCall(g, g[path[i - 1]], path[i]); }
  }

  /** A grammar of no more than MAXRULES rules (newgrammar lets no other pass) is accepted if and only if no used rule is
      left recursive or has a repetition of what may be empty. */
  lemma AcceptedIffNotLeftRecursive(g: seq<Tree>)
    requires |g| <= MAXRULES && CallsInside(g)
    ensures
      VerifyGrammar(g) <==>
      forall n :: 0 <= n < |g| && Used(g, n) ==> !LeftRecursive(g, n) && !EmptyLoop(g, g[n])
  {
    hide VerifyGrammar, Chain, EmptyLoop, Used, LeftCalls, CallsInside, LeftRecursive, Path;
    AcceptedExactly(g);
    if n :| 0 <= n < |g| && Used(g, n) && Chain(g, g[n], MAXRULES + 1) {
      var path := ChainPath(g, n, MAXRULES + 1);
      var i := PathRepeats(g, path);
      OnPathUsed(g, path, i);
      InPath(g, path, i);
    }
    forall n | 0 <= n < |g| && LeftRecursive(g, n) ensures Chain(g, g[n], MAXRULES + 1) { RecursiveChain(g, n); }
  }

  lemma InPath(g: seq<Tree>, path: seq<nat>, i: nat)
    requires Path(g, path) && i < |path|
    ensures path[i] < |g|
  {
  }

  lemma RecursiveChain(g: seq<Tree>, n: nat)
    requires n < |g| && LeftRecursive(g, n)
    ensures Chain(g, g[n], MAXRULES + 1)
  {
    var path :| |path| >= 2 && path[0] == n == path[|path| - 1] && Path(g, path);
    CycleChain(g, path, 0, MAXRULES + 1);
  }

  /** Such a grammar can be used as a pattern, and matching any of its used rules ends. */
  lemma NotLeftRecursiveTerminates(g: seq<Tree>, n: nat, s: seq<Byte>, i: nat)
    requires 0 < |g| <= MAXRULES && CallsInside(g) && forall m :: 0 <= m < |g| ==> NoGrammar(g[m]) && BehindsOk(g, g[m])
    requires forall m :: 0 <= m < |g| && Used(g, m) ==> !LeftRecursive(g, m) && !EmptyLoop(g, g[m])
    requires n < |g| && Used(g, n) && i <= |s|
    ensures AcceptedGrammar(g) && Acceptable([], TGrammar(g)) && Defined(g, g[n], s, i)
  {
    hide VerifyGrammar, EmptyLoop, Used, LeftRecursive, BehindsOk, Defined;
    AcceptedIffNotLeftRecursive(g);
    UsedRule(g, n);
    Terminates(g, g[n], s, i, MAXRULES);
  }

  // ----- what may be empty -----

  /** What matches without consuming can be empty: so what cannot be must consume. */
  lemma {:induction false} MatchedIsEmpty(k: nat, g: seq<Tree>, t: Tree, s: seq<Byte>, i: nat)
    requires i <= |s| && Eval(k, g, t, s, i) == Ok(i)
    ensures EmptyWithin(g, t, k)
    decreases k, t
  {
    match t
    case TSeq(p1, p2) => MatchedIsEmpty(k, g, p1, s, i); MatchedIsEmpty(k, g, p2, s, i);
    case TChoice(p1, p2) =>
      if Eval(k, g, p1, s, i).Ok? { MatchedIsEmpty(k, g, p1, s, i); } else { MatchedIsEmpty(k, g, p2, s, i); }
    case TCall(r) => MatchedIsEmpty(k - 1, g, g[r], s, i);
    case TGrammar(_) => NullableSound(k, g, t, DEPTH, s, i);
    case _ =>
  }

  // ----- two grammars -----

  /** A <- 'a' A / 'b' */
  function RightRecursion(a: Byte, b: Byte): seq<Tree> { [TChoice(TSeq(TChar(a), TCall(0)), TChar(b))] }

  /** A <- A 'a' / 'b' */
  function LeftRecursion(a: Byte, b: Byte): seq<Tree> { [TChoice(TSeq(TCall(0), TChar(a)), TChar(b))] }

  lemma OneRule(t: Tree, c: Byte)
    requires NoGrammar(t) && BehindsOk([TChoice(t, TChar(c))], t) && !CheckLoops([TChoice(t, TChar(c))], t)
    requires forall m: nat :: Calls(t, m) ==> m == 0
    ensures
      var g := [TChoice(t, TChar(c))];
      CallsInside(g) && NoGrammar(g[0]) && BehindsOk(g, g[0]) && !EmptyLoop(g, g[0]) && Used(g, 0)
      && forall m: nat :: LeftCalls(g, g[0], m) == LeftCalls(g, t, m)
  {
    var g := [TChoice(t, TChar(c))];
    assert !CheckLoops(g, TChar(c));
    ChecksLoops(g, g[0]);
    assert NoGrammar(TChar(c)) && BehindsOk(g, TChar(c));
    assert forall m: nat :: !Calls(TChar(c), m) && !LeftCalls(g, TChar(c), m);
  }

  lemma RightIsAccepted(a: Byte, b: Byte)
    ensures AcceptedGrammar(RightRecursion(a, b))
  {
    var g, x, y := RightRecursion(a, b), TChar(a), TCall(0);
    assert !CanBeEmpty(g, x);
    assert forall m: nat :: !LeftCalls(g, x, m) && !Calls(x, m);
    assert forall m: nat :: !LeftCalls(g, TSeq(x, y), m);
    assert BehindsOk(g, x) && BehindsOk(g, y) && !CheckLoops(g, x) && !CheckLoops(g, y);
    OneRule(TSeq(x, y), b);
    forall path: seq<nat> | |path| >= 2 && path[0] == 0 ensures !Path(g, path) {
      assert !LeftCalls(g, g[path[0]], path[1]);
    }
    NotLeftRecursiveTerminates(g, 0, [], 0);
  }

  lemma LeftIsRejected(a: Byte, b: Byte)
    ensures !VerifyGrammar(LeftRecursion(a, b))
  {
    var g, x, y := LeftRecursion(a, b), TCall(0), TChar(a);
    assert LeftCalls(g, TSeq(x, y), 0);
    assert forall m: nat :: !Calls(y, m);
    assert BehindsOk(g, x) && BehindsOk(g, y) && !CheckLoops(g, x) && !CheckLoops(g, y);
    OneRule(TSeq(x, y), b);
    assert Path(g, [0, 0]);
    assert LeftRecursive(g, 0);
    AcceptedIffNotLeftRecursive(g);
  }
}
