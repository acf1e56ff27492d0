/** What becomes of the theorem when coderep gives the body of a loop 0 for opt (lpcode.c:740).

    A generator that does so is the one that there is, applied to a pattern whose loop bodies p are p * true:
    the empty pattern at the end of a body takes opt and generates nothing. */
module PegGuard {
  import opened Wrappers
  import opened PegTree
  import opened PegAnalysis
  import opened PegMachine
  import opened PegCode
  import opened PegClose
  import opened PegVerify
  import opened PegThread
  import opened PegCompiler
  import opened PegTheorem

  /** The pattern with guarded loops; a loop over a charset has no body to generate. */
  function Guard(t: Tree): Tree
    decreases t
  {
    match t
    case TRep(p) => if ToCharset(p).Some? then t else TRep(TSeq(Guard(p), TTrue))
    case TSeq(p1, p2) => TSeq(Guard(p1), Guard(p2))
    case TChoice(p1, p2) => TChoice(Guard(p1), Guard(p2))
    case TNot(p) => TNot(Guard(p))
    case TAnd(p) => TAnd(Guard(p))
    case TBehind(n, p) => TBehind(n, Guard(p))
    case TGrammar(rs) => TGrammar(GuardAll(rs))
    case _ => t
  }

  function GuardAll(g: seq<Tree>): (u: seq<Tree>)
    ensures |u| == |g|
    ensures forall n :: 0 <= n < |g| ==> u[n] == Guard(g[n])
    decreases g
  {
    seq(|g|, n requires 0 <= n < |g| => Guard(g[n]))
  }

  lemma GuardCharset(t: Tree)
    ensures ToCharset(Guard(t)) == ToCharset(t) && (Guard(t).TTrue? <==> t.TTrue?)
  {
  }

  // ----- guarding changes no analysis -----

  lemma {:induction false} GuardCheck(g: seq<Tree>, t: Tree, pred: Pred, d: nat)
    ensures CheckAux(GuardAll(g), Guard(t), pred, d) == CheckAux(g, t, pred, d)
    decreases d, t
  {
    match t
    case TAnd(p) => GuardCheck(g, p, pred, d);
    case TSeq(p1, p2) => GuardCheck(g, p1, pred, d); GuardCheck(g, p2, pred, d);
    case TChoice(p1, p2) => GuardCheck(g, p1, pred, d); GuardCheck(g, p2, pred, d);
    case TGrammar(rs) => if |rs| > 0 { GuardCheck(rs, rs[0], pred, d); }
    case TCall(r) => if r < |g| && d > 0 { GuardCheck(g, g[r], pred, d - 1); }
    case _ =>
  }

  lemma {:induction false} GuardFixedLen(g: seq<Tree>, t: Tree, count: nat, len: nat)
    ensures FixedLenX(GuardAll(g), Guard(t), count, len) == FixedLenX(g, t, count, len)
    decreases if count <= MAXRULES then MAXRULES - count else 0, t
  {
    match t
    case TGrammar(rs) => if |rs| > 0 { GuardFixedLen(rs, rs[0], count, len); }
    case TCall(r) => if r < |g| && count < MAXRULES { GuardFixedLen(g, g[r], count + 1, len); }
    case TSeq(p1, p2) =>
      GuardFixedLen(g, p1, count, len);
      var n := FixedLenX(g, p1, count, len);
      if n >= 0 { GuardFixedLen(g, p2, count, n); }
    case TChoice(p1, p2) => GuardFixedLen(g, p1, count, len); GuardFixedLen(g, p2, count, len);
    case _ =>
  }

  lemma {:induction false} GuardHeadFail(g: seq<Tree>, t: Tree, d: nat)
    ensures HeadFailAux(GuardAll(g), Guard(t), d) == HeadFailAux(g, t, d)
    decreases d, t
  {
    match t
    case TAnd(p) => GuardHeadFail(g, p, d);
    case TSeq(p1, p2) => GuardHeadFail(g, p1, d); GuardCheck(g, p2, PEnofail, DEPTH);
    case TChoice(p1, p2) => GuardHeadFail(g, p1, d); GuardHeadFail(g, p2, d);
    case TGrammar(rs) => if |rs| > 0 { GuardHeadFail(rs, rs[0], d); }
    case TCall(r) => if r < |g| && d > 0 { GuardHeadFail(g, g[r], d - 1); }
    case _ =>
  }

  /** Fewer calls followed, more patterns taken for nullable. */
  lemma {:induction false} NullableShallower(g: seq<Tree>, t: Tree, d: nat, d': nat)
    requires d <= d' && CheckAux(g, t, PEnullable, d')
    ensures CheckAux(g, t, PEnullable, d)
    decreases d, t
  {
    match t
    case TSeq(p1, p2) => NullableShallower(g, p1, d, d'); NullableShallower(g, p2, d, d');
    case TChoice(p1, p2) =>
      if CheckAux(g, p2, PEnullable, d') { NullableShallower(g, p2, d, d'); } else { NullableShallower(g, p1, d, d'); }
    case TGrammar(rs) => if |rs| > 0 { NullableShallower(rs, rs[0], d, d'); }
    case TCall(r) => if r < |g| && d > 0 { NullableShallower(g, g[r], d - 1, d' - 1); }
    case _ =>
  }

  /** What follows a pattern that is not nullable has no part in its first set. */
  lemma {:induction false} FollowUnused(g: seq<Tree>, t: Tree, f: Charset, f': Charset, d: nat, d1: nat)
    requires d1 <= DEPTH && !CheckAux(g, t, PEnullable, d1)
    ensures GetFirst(g, t, f, d) == GetFirst(g, t, f', d)
    decreases d1, t
  {
    match t
    case TSeq(p1, p2) =>
      if Nullable(g, p1) {
        NullableShallower(g, p1, d1, DEPTH);
        FollowUnused(g, p2, f, f', d, d1);
      }
    case TChoice(p1, p2) => FollowUnused(g, p1, f, f', d, d1); FollowUnused(g, p2, f, f', d, d1);
    case TGrammar(rs) => FollowUnused(rs, rs[0], f, f', d, d1);
    case TCall(r) => if d > 0 { FollowUnused(g, g[r], f, f', d - 1, d1 - 1); }
    case _ =>
  }

  lemma {:induction false} GuardFirst(g: seq<Tree>, t: Tree, f: Charset, d: nat)
    ensures GetFirst(GuardAll(g), Guard(t), f, d) == GetFirst(g, t, f, d)
    decreases d, t
  {
    match t
    case TRep(p) =>
      if ToCharset(p).None? {
        var u, b := GuardAll(g), TSeq(Guard(p), TTrue);
        assert Guard(t) == TRep(b);
        GuardFirst(g, p, f, d);
        GuardCheck(g, p, PEnullable, DEPTH);
        if !Nullable(g, p) {
          GuardFirst(g, p, FULL, d);
          FollowUnused(g, p, f, FULL, d, DEPTH);
        }
        assert GetFirst(u, TTrue, f, d) == FirstInfo(f, true);
        assert GetFirst(u, b, f, d).cs == GetFirst(g, p, f, d).cs;
      }
    case TSeq(p1, p2) =>
      GuardCheck(g, p1, PEnullable, DEPTH);
      if !Nullable(g, p1) {
        GuardFirst(g, p1, FULL, d);
      } else {
        GuardFirst(g, p2, f, d);
        GuardFirst(g, p1, GetFirst(g, p2, f, d).cs, d);
      }
    case TChoice(p1, p2) => GuardFirst(g, p1, f, d); GuardFirst(g, p2, f, d);
    case TAnd(p) => GuardFirst(g, p, f, d);
    case TNot(p) => GuardCharset(p);
    case TGrammar(rs) => if |rs| > 0 { GuardFirst(rs, rs[0], f, d); }
    case TCall(r) => if r < |g| && d > 0 { GuardFirst(g, g[r], f, d - 1); }
    case _ =>
  }

  lemma {:induction false} GuardVerify(g: seq<Tree>, t: Tree, d: nat, nb: bool)
    ensures VerifyRule(GuardAll(g), Guard(t), d, nb) == VerifyRule(g, t, d, nb)
    decreases d, t
  {
    match t
    case TNot(p) => GuardVerify(g, p, d, true);
    case TAnd(p) => GuardVerify(g, p, d, true);
    case TRep(p) =>
      if ToCharset(p).None? {
        GuardVerify(g, p, d, false);
        VerifyFlag(g, p, d, true);
        var b := TSeq(Guard(p), TTrue);
        assert Guard(t) == TRep(b) && VerifyRule(GuardAll(g), TTrue, d, true) == Some(true);
        assert VerifyRule(GuardAll(g), b, d, true) == VerifyRule(g, p, d, true);
      }
    case TCall(r) => if r < |g| && d > 0 { GuardVerify(g, g[r], d - 1, nb); }
    case TSeq(p1, p2) => GuardVerify(g, p1, d, false); GuardVerify(g, p2, d, nb);
    case TChoice(p1, p2) =>
      GuardVerify(g, p1, d, nb);
      if VerifyRule(g, p1, d, nb).Some? { GuardVerify(g, p2, d, VerifyRule(g, p1, d, nb).value); }
    case TGrammar(_) => GuardCheck(g, t, PEnullable, DEPTH);
    case _ =>
  }

  // ----- guarded patterns are as good as unguarded ones -----

  /** Guarding changes no match. */
  lemma {:induction false} GuardMeans(k: nat, g: seq<Tree>, t: Tree, s: seq<Byte>, i: nat)
    requires i <= |s|
    ensures Eval(k, GuardAll(g), Guard(t), s, i) == Eval(k, g, t, s, i)
    decreases k, t
  {
    match t
    case TRep(p) =>
      if ToCharset(p).Some? {
        SpanMeans(k, GuardAll(g), g, p, s, i);
      } else {
        var u, b := GuardAll(g), TSeq(Guard(p), TTrue);
        assert Guard(t) == TRep(b);
        GuardMeans(k, g, p, s, i);
        var o := Eval(k, g, p, s, i);
        assert o.Ok? ==> Eval(k, u, TTrue, s, o.pos) == o;
        assert Eval(k, u, b, s, i) == o;
        if o.Ok? && k > 0 { GuardMeans(k - 1, g, t, s, o.pos); }
      }
    case TSeq(p1, p2) =>
      GuardMeans(k, g, p1, s, i);
      var o := Eval(k, g, p1, s, i);
      if o.Ok? { GuardMeans(k, g, p2, s, o.pos); }
    case TChoice(p1, p2) => GuardMeans(k, g, p1, s, i); GuardMeans(k, g, p2, s, i);
    case TNot(p) => GuardMeans(k, g, p, s, i);
    case TAnd(p) => GuardMeans(k, g, p, s, i);
    case TBehind(n, p) => if n <= i { GuardMeans(k, g, p, s, i - n); }
    case TCall(r) => if r < |g| && k > 0 { GuardMeans(k - 1, g, g[r], s, i); }
    case TGrammar(rs) => if |rs| > 0 && k > 0 { GuardMeans(k - 1, rs, rs[0], s, i); }
    case _ =>
  }

  lemma {:induction false} SpanMeans(k: nat, g: seq<Tree>, g': seq<Tree>, p: Tree, s: seq<Byte>, i: nat)
    requires i <= |s| && ToCharset(p).Some?
    ensures Eval(k, g, TRep(p), s, i) == Eval(k, g', TRep(p), s, i)
    decreases k
  {
    var o := Eval(k, g, p, s, i);
    if o.Ok? && k > 0 { SpanMeans(k - 1, g, g', p, s, o.pos); }
  }

  lemma {:induction false} GuardWellFormed(g: seq<Tree>, t: Tree)
    requires WellFormed(g, t)
    ensures WellFormed(GuardAll(g), Guard(t))
    decreases t
  {
    match t
    case TRep(p) => if ToCharset(p).None? { GuardWellFormed(g, p); }
    case TSeq(p1, p2) => GuardWellFormed(g, p1); GuardWellFormed(g, p2);
    case TChoice(p1, p2) => GuardWellFormed(g, p1); GuardWellFormed(g, p2);
    case TNot(p) => GuardWellFormed(g, p);
    case TAnd(p) => GuardWellFormed(g, p);
    case TBehind(_, p) => GuardWellFormed(g, p); GuardFixedLen(g, p, 0, 0);
    case TGrammar(rs) => forall n | 0 <= n < |rs| ensures WellFormed(GuardAll(rs), Guard(rs[n])) { GuardWellFormed(rs, rs[n]); }
    case _ =>
  }

  lemma {:induction false} GuardSyntax(t: Tree)
    ensures NoGrammar(Guard(t)) == NoGrammar(t)
    ensures forall n: nat :: Calls(Guard(t), n) == Calls(t, n)
    decreases t
  {
    match t
    case TRep(p) =>
      if ToCharset(p).None? {
        GuardSyntax(p);
        var b := TSeq(Guard(p), TTrue);
        assert Guard(t) == TRep(b) && NoGrammar(TTrue) && NoGrammar(b) == NoGrammar(p);
        assert forall n: nat :: Calls(b, n) == Calls(Guard(p), n) || Calls(TTrue, n);
      }
    case TSeq(p1, p2) => GuardSyntax(p1); GuardSyntax(p2);
    case TChoice(p1, p2) => GuardSyntax(p1); GuardSyntax(p2);
    case TNot(p) => GuardSyntax(p);
    case TAnd(p) => GuardSyntax(p);
    case TBehind(_, p) => GuardSyntax(p);
    case _ =>
  }

  lemma {:induction false} GuardLoops(g: seq<Tree>, t: Tree)
    ensures CheckLoops(GuardAll(g), Guard(t)) == CheckLoops(g, t)
    decreases t
  {
    match t
    case TRep(p) =>
      if ToCharset(p).None? {
        var u, b := GuardAll(g), TSeq(Guard(p), TTrue);
        GuardLoops(g, p);
        GuardCheck(g, p, PEnullable, DEPTH);
        assert Guard(t) == TRep(b) && CheckAux(u, TTrue, PEnullable, DEPTH) && !CheckLoops(u, TTrue);
        assert CheckAux(u, b, PEnullable, DEPTH) == CheckAux(u, Guard(p), PEnullable, DEPTH) && CheckLoops(u, b) == CheckLoops(u, Guard(p));
      }
    case TSeq(p1, p2) => GuardLoops(g, p1); GuardLoops(g, p2);
    case TChoice(p1, p2) => GuardLoops(g, p1); GuardLoops(g, p2);
    case TNot(p) => GuardLoops(g, p);
    case TAnd(p) => GuardLoops(g, p);
    case TBehind(_, p) => GuardLoops(g, p);
    case _ =>
  }

  lemma GuardVerifyGrammar(g: seq<Tree>)
    requires VerifyGrammar(g)
    ensures VerifyGrammar(GuardAll(g))
  {
    var u := GuardAll(g);
    forall n | 0 <= n < |u| && Used(u, n) ensures VerifyRule(u, u[n], MAXRULES, false).Some? && !CheckLoops(u, u[n]) {
      if n != 0 {
        var m :| 0 <= m < |u| && Calls(u[m], n);
        GuardSyntax(g[m]);
        assert Calls(g[m], n);
      }
      GuardVerify(g, g[n], MAXRULES, false);
      GuardLoops(g, g[n]);
    }
  }

  lemma {:induction false} GuardBehinds(g: seq<Tree>, t: Tree)
    requires BehindsOk(g, t)
    ensures BehindsOk(GuardAll(g), Guard(t))
    decreases t, 0
  {
    match t
    case TRep(p) => if ToCharset(p).None? { GuardBehinds(g, p); }
    case TSeq(p1, p2) => GuardBehinds(g, p1); GuardBehinds(g, p2);
    case TChoice(p1, p2) => GuardBehinds(g, p1); GuardBehinds(g, p2);
    case TNot(p) => GuardBehinds(g, p);
    case TAnd(p) => GuardBehinds(g, p);
    case TBehind(_, p) => GuardSyntax(p); GuardAcceptable(g, p);
    case _ =>
  }

  lemma {:induction false} GuardAccepted(g: seq<Tree>)
    requires AcceptedGrammar(g)
    ensures AcceptedGrammar(GuardAll(g))
    decreases g, 0
  {
    var u := GuardAll(g);
    GuardVerifyGrammar(g);
    forall n | 0 <= n < |u| ensures NoGrammar(u[n]) && BehindsOk(u, u[n]) && forall m: nat :: Calls(u[n], m) ==> m < |u| {
      GuardSyntax(g[n]);
      GuardBehinds(g, g[n]);
    }
  }

  lemma {:induction false} GuardAcceptable(g: seq<Tree>, t: Tree)
    requires Acceptable(g, t)
    ensures Acceptable(GuardAll(g), Guard(t))
    decreases t, 1
  {
    match t
    case TRep(p) =>
      if ToCharset(p).None? { GuardAcceptable(g, p); GuardCheck(g, p, PEnullable, DEPTH); }
    case TSeq(p1, p2) => GuardAcceptable(g, p1); GuardAcceptable(g, p2);
    case TChoice(p1, p2) => GuardAcceptable(g, p1); GuardAcceptable(g, p2);
    case TNot(p) => GuardAcceptable(g, p);
    case TAnd(p) => GuardAcceptable(g, p);
    case TBehind(_, p) => GuardAcceptable(g, p);
    case TGrammar(rs) => GuardAccepted(rs);
    case _ =>
  }

  /** No guarded pattern is miscompiled. */
  lemma {:induction false} GuardIsSafe(g: seq<Tree>, t: Tree, opt: bool, fl: Charset)
    ensures SafeOpt(GuardAll(g), Guard(t), opt, fl)
    decreases t
  {
    var u := GuardAll(g);
    match t
    case TRep(p) => if ToCharset(p).None? { GuardIsSafe(g, p, false, FollowOf(u, Guard(p), TTrue, FULL)); }
    case TSeq(p1, p2) => GuardIsSafe(g, p1, false, FollowOf(u, Guard(p1), Guard(p2), fl)); GuardIsSafe(g, p2, opt, fl);
    case TChoice(p1, p2) =>
      GuardIsSafe(g, p1, false, fl);
      GuardIsSafe(g, p1, true, FULL);
      GuardIsSafe(g, p1, false, FULL);
      GuardIsSafe(g, p2, opt, fl);
    case TNot(p) => GuardIsSafe(g, p, false, FULL);
    case TAnd(p) => GuardIsSafe(g, p, false, FULL);
    case TBehind(_, p) => GuardIsSafe(g, p, false, FULL);
    case TGrammar(rs) =>
      forall n | 0 <= n < |rs| ensures SafeOpt(GuardAll(rs), GuardAll(rs)[n], false, FULL) { GuardIsSafe(rs, rs[n], false, FULL); }
    case _ =>
  }

  /** The code of a guarded loop is what coderep emits, with 0 as opt for its body. */
  lemma GuardedLoop(tl: bool, g: seq<Tree>, p: Tree, opt: bool, tt: Test, fl: Charset)
    requires ToCharset(p).None?
    ensures
      var u, f := GuardAll(g), First(g, p, FULL);
      Gen(tl, u, Guard(TRep(p)), opt, tt, fl)
      == if TestEndsLoop(g, p, fl) then LoopByTest(f.cs, Gen(tl, u, Guard(p), false, TestOf(f.cs, false), FULL))
         else LoopByChoice(f, opt, Gen(tl, u, Guard(p), false, NoTest, FULL))
  {
    hide GetFirst, HeadFailAux, CheckAux, TestCode, TestOf, LoopByTest, LoopByChoice;
    GuardedBody(g, p);
    BodyGen(tl, GuardAll(g), Guard(p), opt, TestOf(First(g, p, FULL).cs, false));
    BodyGen(tl, GuardAll(g), Guard(p), false, NoTest);
  }

  /** The analyses of a guarded body. */
  lemma GuardedBody(g: seq<Tree>, p: Tree)
    ensures
      var u, b := GuardAll(g), TSeq(Guard(p), TTrue);
      First(u, b, FULL) == First(g, p, FULL) && HeadFail(u, b) == HeadFail(g, p)
  {
    var u, b := GuardAll(g), TSeq(Guard(p), TTrue);
    GuardHeadFail(g, p, DEPTH);
    GuardFirst(g, p, FULL, DEPTH);
    assert GetFirst(u, TTrue, FULL, DEPTH) == FirstInfo(FULL, true) && CheckAux(u, TTrue, PEnofail, DEPTH);
    assert GetFirst(u, b, FULL, DEPTH) == GetFirst(g, p, FULL, DEPTH);
    assert HeadFailAux(u, b, DEPTH) == HeadFailAux(g, p, DEPTH);
  }

  lemma BodyGen(tl: bool, u: seq<Tree>, b: Tree, opt: bool, tt: Test)
    ensures Gen(tl, u, TSeq(b, TTrue), opt, tt, FULL) == Gen(tl, u, b, false, tt, FULL)
  {
    hide GetFirst, NeedFollow;
    assert Gen(tl, u, TTrue, opt, TestAfter(u, b, tt), FULL) == [];
    assert FollowOf(u, b, TTrue, FULL) == FULL by { TrueFirst(u); }
  }

  lemma TrueFirst(u: seq<Tree>)
    ensures First(u, TTrue, FULL).cs == FULL
  {
  }

  /** With 0 as opt for the bodies of loops, every acceptable pattern is compiled to what it means. */
  lemma GuardedMeans(t: Tree, code: seq<Slot>, s: seq<Byte>, init: nat, e: State)
    requires WellFormed([], t) && Acceptable([], t) && Keeps(Program(Guard(t)), code) && init <= |s|
    ensures Defined([], t, s, init)
    ensures Halted(e) ==> (Reaches(code, s, Start(init), e) <==> e == Verdict(Result([], t, s, init)))
  {
    hide WellFormed, Acceptable, SafeOpt, Eval, Program, Keeps, Reaches, Guard;
    assert GuardAll([]) == [];
    GuardWellFormed([], t);
    GuardAcceptable([], t);
    GuardIsSafe([], t, false, FULL);
    PatternTerminates([], t, s, init);
    CompiledMeans(Guard(t), code, s, init, e);
    SameResult(t, s, init);
  }

  lemma SameResult(t: Tree, s: seq<Byte>, init: nat)
    requires init <= |s| && Defined([], t, s, init) && Defined([], Guard(t), s, init)
    ensures Result([], Guard(t), s, init) == Result([], t, s, init)
  {
    assert GuardAll([]) == [];
    var o := Result([], Guard(t), s, init);
    var k: nat :| Eval(k, [], Guard(t), s, init) == o;
    GuardMeans(k, [], t, s, init);
    MeansDeterministic([], t, s, init, o, Result([], t, s, init));
  }
}
