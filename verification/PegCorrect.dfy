/** The generated code means what the pattern means.

    The theorem about a piece of code (Simulates) is codegen's contract: fl is a set outside of which
    whatever follows fails, tt is a test known to hold, and opt says that the choice on top of the
    stack leads to the place behind this code, so that the code may leave through it. */
module PegCorrect {
  import opened Wrappers
  import opened PegTree
  import opened PegAnalysis
  import opened PegMachine
  import opened PegCode
  import opened PegBlocks
  import opened PegClose

  ghost predicate Pre(code: seq<Slot>, s: seq<Byte>, g: seq<Tree>, rp: seq<int>, t: Tree, opt: bool, tt: Test,
                      fl: Charset, p: int, i: nat, stk: Stk)
  {
    && i <= |s|
    && WellFormed(g, t) && SafeOpt(g, t, opt, fl)
    && RulesLoaded(code, g, rp) && RulesSafe(g)
    && Loaded(code, p, Gen(false, g, t, opt, tt, fl), rp)
    && Holds(tt, s, i)
    && (opt ==> fl == FULL && stk.Choice?)
  }

  /** The loop inside ISpan is the repetition of its set. */
  lemma {:induction false} SpanIsRep(k: nat, g: seq<Tree>, p: Tree, code: seq<Slot>, at: int, s: seq<Byte>, i: nat)
    requires i <= |s| && ToCharset(p).Some?
    requires forall c: Byte :: InBuffer(code, at, c) <==> c in ToCharset(p).value
    requires !Eval(k, g, TRep(p), s, i).Unknown?
    ensures Eval(k, g, TRep(p), s, i) == Ok(SpanEnd(code, at, s, i))
    decreases k
  {
    CharsetMeans(k, g, p, s, i);
    if i < |s| && s[i] in ToCharset(p).value { SpanIsRep(k - 1, g, p, code, at, s, i + 1); }
  }

  lemma Simulates(k: nat, code: seq<Slot>, s: seq<Byte>, g: seq<Tree>, rp: seq<int>, t: Tree, opt: bool, tt: Test,
                  fl: Charset, p: int, i: nat, stk: Stk)
    requires Pre(code, s, g, rp, t, opt, tt, fl, p, i, stk)
    ensures Gives(code, s, Run(p, i, stk), p + |Gen(false, g, t, opt, tt, fl)|, Eval(k, g, t, s, i), stk, opt, fl)
    decreases k, t, 2
  {
    hide GetFirst, HeadFailAux, CheckAux, FixedLenX, First, TestCode, ChoiceByTest, ChoiceByChoice, LoopByTest,
      LoopByChoice, NotByTest, NotByChoice, AndByChoice, CloseCalls, RulesCode, Loaded, RulesLoaded, RulesSafe,
      TestDecides, TestEndsLoop;
    match t
    case TChar(_) => SimulatesChar(k, code, s, g, rp, t, opt, tt, fl, p, i, stk);
    case TAny => SimulatesChar(k, code, s, g, rp, t, opt, tt, fl, p, i, stk);
    case TSet(_) => SimulatesChar(k, code, s, g, rp, t, opt, tt, fl, p, i, stk);
    case TTrue => Stay(code, s, Run(p, i, stk)); GetsBehind(code, s, Run(p, i, stk), p, i, stk, opt, fl);
    case TFalse => LoadedInst(code, p, IFail, 0, rp); One(code, s, Run(p, i, stk));
    case TSeq(_, _) => SimulatesSeq(k, code, s, g, rp, t, opt, tt, fl, p, i, stk);
    case TChoice(p1, p2) =>
      if TestDecides(g, p1, p2, fl) { SimulatesChoiceByTest(k, code, s, g, rp, t, opt, tt, fl, p, i, stk); }
      else if opt && p2.TTrue? { SimulatesOption(k, code, s, g, rp, t, tt, fl, p, i, stk); }
      else { SimulatesChoice(k, code, s, g, rp, t, opt, tt, fl, p, i, stk); }
    case TRep(b) =>
      if ToCharset(b).Some? { SimulatesSpan(k, code, s, g, rp, t, opt, tt, fl, p, i, stk); }
      else if TestEndsLoop(g, b, fl) { SimulatesLoopByTest(k, code, s, g, rp, t, opt, tt, fl, p, i, stk); }
      else { SimulatesLoop(k, code, s, g, rp, t, opt, tt, fl, p, i, stk); }
    case TNot(_) => SimulatesNot(k, code, s, g, rp, t, opt, tt, fl, p, i, stk);
    case TAnd(_) => SimulatesAnd(k, code, s, g, rp, t, opt, tt, fl, p, i, stk);
    case TBehind(_, _) => SimulatesBehind(k, code, s, g, rp, t, opt, tt, fl, p, i, stk);
    case TCall(_) => SimulatesCall(k, code, s, g, rp, t, opt, tt, fl, p, i, stk);
    case TGrammar(_) => SimulatesGrammar(k, code, s, g, rp, t, opt, tt, fl, p, i, stk);
  }

  lemma SimulatesChar(k: nat, code: seq<Slot>, s: seq<Byte>, g: seq<Tree>, rp: seq<int>, t: Tree, opt: bool, tt: Test,
                      fl: Charset, p: int, i: nat, stk: Stk)
    requires Pre(code, s, g, rp, t, opt, tt, fl, p, i, stk)
    requires t.TChar? || t.TSet? || t.TAny?
    ensures Gives(code, s, Run(p, i, stk), p + |Gen(false, g, t, opt, tt, fl)|, Eval(k, g, t, s, i), stk, opt, fl)
  {
    hide First, HeadFail, CloseCalls, RulesCode, RulesLoaded, RulesSafe, Reaches, GetFirst, HeadFailAux, CheckAux,
      FixedLenX, TestCode;
    var c := Gen(false, g, t, opt, tt, fl);
    LoadedAt(code, p, c, rp, 0);
    One(code, s, Run(p, i, stk));
    if t.TSet? {
      ClassIs(t.cs);
      if c[0] == Inst(ISet, 0) {
        Split(code, p, [Inst(ISet, 0)], Buffer(t.cs), rp);
        if i < |s| { LoadedBuffer(code, p + 1, t.cs, rp, s[i]); }
      }
    }
    if Eval(k, g, t, s, i).Ok? { GetsBehind(code, s, Run(p, i, stk), p + |c|, i + 1, stk, opt, fl); }
  }

  lemma SimulatesSeq(k: nat, code: seq<Slot>, s: seq<Byte>, g: seq<Tree>, rp: seq<int>, t: Tree, opt: bool, tt: Test,
                     fl: Charset, p: int, i: nat, stk: Stk)
    requires Pre(code, s, g, rp, t, opt, tt, fl, p, i, stk)
    requires t.TSeq?
    ensures Gives(code, s, Run(p, i, stk), p + |Gen(false, g, t, opt, tt, fl)|, Eval(k, g, t, s, i), stk, opt, fl)
    decreases k, t, 0
  {
    hide Loaded, Reaches, RulesLoaded, RulesSafe, CloseCalls, RulesCode, Backtrack, GetFirst, HeadFailAux,
      CheckAux, FixedLenX, TestCode;
    var fl1, tt2 := FollowOf(g, t.p1, t.p2, fl), TestAfter(g, t.p1, tt);
    var c1, c2 := Gen(false, g, t.p1, false, tt, fl1), Gen(false, g, t.p2, opt, tt2, fl);
    Split(code, p, c1, c2, rp);
    Simulates(k, code, s, g, rp, t.p1, false, tt, fl1, p, i, stk);
    var a := Run(p, i, stk);
    var o := Eval(k, g, t.p1, s, i);
    if o.Ok? {
      if FixedLen(g, t.p1) == 0 { FixedLenSound(k, g, t.p1, 0, 0, s, i); }
      if Reaches(code, s, a, Run(p + |c1|, o.pos, stk)) {
        Simulates(k, code, s, g, rp, t.p2, opt, tt2, fl, p + |c1|, o.pos, stk);
        From(code, s, a, Run(p + |c1|, o.pos, stk), p + |c1| + |c2|, Eval(k, g, t.p2, s, o.pos), stk, opt, fl);
      } else if Eval(k, g, t.p2, s, o.pos).Ok? {
        FirstSound(k, g, t.p2, fl, DEPTH, s, o.pos);
      }
    }
  }

  lemma SimulatesChoiceByTest(k: nat, code: seq<Slot>, s: seq<Byte>, g: seq<Tree>, rp: seq<int>, t: Tree, opt: bool, tt: Test,
                              fl: Charset, p: int, i: nat, stk: Stk)
    requires Pre(code, s, g, rp, t, opt, tt, fl, p, i, stk)
    requires t.TChoice? && TestDecides(g, t.p1, t.p2, fl)
    ensures Gives(code, s, Run(p, i, stk), p + |Gen(false, g, t, opt, tt, fl)|, Eval(k, g, t, s, i), stk, opt, fl)
    decreases k, t, 0
  {
    hide FixedLen, HasOff, Target, IsOp, NeedFollow, Nullable, Succeeds, GetFirst, HeadFailAux, CheckAux,
      FixedLenX, TestCode, Reaches, Loaded, ChoiceByTest, ChoiceByChoice, RulesLoaded, RulesSafe, CloseCalls,
      RulesCode;
    var f1 := First(g, t.p1, FULL);
    var tt1 := TestOf(f1.cs, false);
    var b1, b2 := Gen(false, g, t.p1, false, tt1, fl), Gen(false, g, t.p2, opt, NoTest, fl);
    var n, l, q := LayoutChoiceByTest(code, p, f1.cs, b1, b2, t.p2.TTrue?, rp);
    var o1, o2 := Eval(k, g, t.p1, s, i), Eval(k, g, t.p2, s, i);
    if o1.Unknown? { return; }
    TestIsExact(k, g, t.p1, s, i);
    if Passes(f1.cs, false, s, i) {
      Simulates(k, code, s, g, rp, t.p1, false, tt1, fl, n, i, stk);
      if o1.Fail? && o2.Ok? { FirstSound(k, g, t.p2, fl, DEPTH, s, i); }
    } else {
      Simulates(k, code, s, g, rp, t.p2, opt, NoTest, fl, l, i, stk);
    }
    RunChoiceByTest(code, s, p, f1.cs, b1, b2, t.p2.TTrue?, rp, i, stk, opt, fl, o1, o2);
  }

  /** A pattern whose test says no does not match; with headfail, it matches whenever the test says yes. */
  lemma TestIsExact(k: nat, g: seq<Tree>, p: Tree, s: seq<Byte>, i: nat)
    requires i <= |s| && !Eval(k, g, p, s, i).Unknown?
    ensures
      var f := First(g, p, FULL);
      && (!Passes(f.cs, f.e, s, i) ==> Eval(k, g, p, s, i).Fail?)
      && (HeadFail(g, p) ==> !f.e && (Passes(f.cs, false, s, i) <==> Eval(k, g, p, s, i).Ok?))
  {
    if HeadFail(g, p) {
      HeadFailExact(k, g, p, DEPTH, s, i);
      HeadFailNotEmpty(g, p, FULL, DEPTH);
    }
    if Eval(k, g, p, s, i).Ok? { FirstSound(k, g, p, FULL, DEPTH, s, i); }
  }

  /** With opt, p1 / true reuses the choice on top of the stack. */
  lemma SimulatesOption(k: nat, code: seq<Slot>, s: seq<Byte>, g: seq<Tree>, rp: seq<int>, t: Tree, tt: Test,
                        fl: Charset, p: int, i: nat, stk: Stk)
    requires Pre(code, s, g, rp, t, true, tt, fl, p, i, stk)
    requires t.TChoice? && t.p2.TTrue? && !TestDecides(g, t.p1, t.p2, fl)
    ensures Gives(code, s, Run(p, i, stk), p + |Gen(false, g, t, true, tt, fl)|, Eval(k, g, t, s, i), stk, true, fl)
    decreases k, t, 0
  {
    hide First, HeadFail, TestDecides, ChoiceByTest, ChoiceByChoice, TestCode, RulesLoaded, RulesSafe, CloseCalls,
      RulesCode, Loaded, FixedLen;
    var b := Gen(false, g, t.p1, true, NoTest, FULL);
    Split(code, p, Jump(IPartialCommit, 2), b, rp);
    LoadedJump(code, p, IPartialCommit, 2, rp);
    var a, stk' := Run(p, i, stk), Choice(stk.pc, i, stk.below);
    One(code, s, a);
    Simulates(k, code, s, g, rp, t.p1, true, NoTest, FULL, p + 2, i, stk');
    From(code, s, a, Run(p + 2, i, stk'), p + 2 + |b|, Eval(k, g, t.p1, s, i), stk', true, FULL);
    assert Eval(k, g, t.p2, s, i) == Ok(i);
  }

  lemma SimulatesChoice(k: nat, code: seq<Slot>, s: seq<Byte>, g: seq<Tree>, rp: seq<int>, t: Tree, opt: bool, tt: Test,
                        fl: Charset, p: int, i: nat, stk: Stk)
    requires Pre(code, s, g, rp, t, opt, tt, fl, p, i, stk)
    requires t.TChoice? && !TestDecides(g, t.p1, t.p2, fl) && !(opt && t.p2.TTrue?)
    ensures Gives(code, s, Run(p, i, stk), p + |Gen(false, g, t, opt, tt, fl)|, Eval(k, g, t, s, i), stk, opt, fl)
    decreases k, t, 0
  {
    hide HeadFail, FixedLen, HasOff, Target, IsOp, NeedFollow, Nullable, First, Succeeds, GetFirst, HeadFailAux,
      CheckAux, FixedLenX, TestCode, Reaches, Loaded, ChoiceByTest, ChoiceByChoice, TestDecides, RulesLoaded,
      RulesSafe, CloseCalls, RulesCode, Backtrack;
    var f1 := First(g, t.p1, FULL);
    var tt1, empty2 := TestOf(f1.cs, f1.e), t.p2.TTrue?;
    var b1, b2 := Gen(false, g, t.p1, empty2, tt1, FULL), Gen(false, g, t.p2, opt, NoTest, fl);
    var n, c, l, q := LayoutChoice(code, p, f1, b1, b2, rp);
    var o1, o2 := Eval(k, g, t.p1, s, i), Eval(k, g, t.p2, s, i);
    if o1.Unknown? { return; }
    TestIsExact(k, g, t.p1, s, i);
    if Passes(f1.cs, f1.e, s, i) {
      Simulates(k, code, s, g, rp, t.p1, empty2, tt1, FULL, n + 2, i, Choice(l, i, stk));
    }
    if o1.Fail? { Simulates(k, code, s, g, rp, t.p2, opt, NoTest, fl, l, i, stk); }
    RunChoice(code, s, p, f1, b1, b2, empty2, rp, i, stk, opt, fl, o1, o2);
  }

  lemma SimulatesSpan(k: nat, code: seq<Slot>, s: seq<Byte>, g: seq<Tree>, rp: seq<int>, t: Tree, opt: bool, tt: Test,
                      fl: Charset, p: int, i: nat, stk: Stk)
    requires Pre(code, s, g, rp, t, opt, tt, fl, p, i, stk)
    requires t.TRep? && ToCharset(t.p).Some?
    ensures Gives(code, s, Run(p, i, stk), p + |Gen(false, g, t, opt, tt, fl)|, Eval(k, g, t, s, i), stk, opt, fl)
  {
    var cs := ToCharset(t.p).value;
    Split(code, p, [Inst(ISpan, 0)], Buffer(cs), rp);
    LoadedInst(code, p, ISpan, 0, rp);
    forall c: Byte ensures InBuffer(code, p + 1, c) <==> c in cs { LoadedBuffer(code, p + 1, cs, rp, c); }
    var a := Run(p, i, stk);
    One(code, s, a);
    if !Eval(k, g, t, s, i).Unknown? {
      SpanIsRep(k, g, t.p, code, p + 1, s, i);
      GetsBehind(code, s, a, p + CHARSETINSTSIZE, SpanEnd(code, p + 1, s, i), stk, opt, fl);
    }
  }

  lemma SimulatesLoopByTest(k: nat, code: seq<Slot>, s: seq<Byte>, g: seq<Tree>, rp: seq<int>, t: Tree, opt: bool, tt: Test,
                            fl: Charset, p: int, i: nat, stk: Stk)
    requires Pre(code, s, g, rp, t, opt, tt, fl, p, i, stk)
    requires t.TRep? && ToCharset(t.p).None? && TestEndsLoop(g, t.p, fl)
    ensures Gives(code, s, Run(p, i, stk), p + |Gen(false, g, t, opt, tt, fl)|, Eval(k, g, t, s, i), stk, opt, fl)
    decreases k, t, 0
  {
    hide GetFirst, HeadFailAux, CheckAux, FixedLenX, TestCode, Reaches, Loaded, LoopByTest, LoopByChoice,
      RulesLoaded, RulesSafe, CloseCalls, RulesCode, Backtrack, ToCharset;
    var f := First(g, t.p, FULL);
    var ttb := TestOf(f.cs, false);
    if opt { OptUnused(false, g, t.p, ttb, FULL); }
    var b := Gen(false, g, t.p, false, ttb, FULL);
    var n, j, q := LayoutLoopByTest(code, p, f.cs, b, rp);
    var o := Eval(k, g, t.p, s, i);
    if o.Unknown? || (o.Ok? && k == 0) { return; }
    TestIsExact(k, g, t.p, s, i);
    if Passes(f.cs, false, s, i) { Simulates(k, code, s, g, rp, t.p, false, ttb, FULL, n, i, stk); }
    var o' := Unknown;
    if o.Ok? {
      o' := Eval(k - 1, g, t, s, o.pos);
      Simulates(k - 1, code, s, g, rp, t, opt, NoTest, fl, p, o.pos, stk);
    }
    RunLoopByTest(code, s, p, f.cs, b, rp, i, stk, opt, fl, o, o');
  }

  /** A loop under a choice: run the body until it fails, and leave through the choice. */
  lemma LoopRuns(k: nat, code: seq<Slot>, s: seq<Byte>, g: seq<Tree>, rp: seq<int>, p: Tree, l1: int, i: nat, stk: Stk)
    requires stk.Choice? && i <= |s|
    requires WellFormed(g, p) && SafeOpt(g, p, false, FULL) && RulesLoaded(code, g, rp) && RulesSafe(g)
    requires Loaded(code, l1, Gen(false, g, p, false, NoTest, FULL), rp)
    requires
      var l := l1 + |Gen(false, g, p, false, NoTest, FULL)|;
      IsOp(code, l, IPartialCommit) && HasOff(code, l) && Target(code, l) == l1
    requires Eval(k, g, TRep(p), s, i).Ok?
    ensures Reaches(code, s, Run(l1, i, Choice(stk.pc, i, stk.below)),
                    Run(stk.pc, Eval(k, g, TRep(p), s, i).pos, stk.below))
    decreases k, TRep(p), 0
  {
    hide Loaded, RulesLoaded, RulesSafe, WellFormed, SafeOpt, Gen;
    var stk' := Choice(stk.pc, i, stk.below);
    var a := Run(l1, i, stk');
    Simulates(k, code, s, g, rp, p, false, NoTest, FULL, l1, i, stk');
    var o := Eval(k, g, p, s, i);
    if o.Ok? {
      var l := l1 + |Gen(false, g, p, false, NoTest, FULL)|;
      Then(code, s, a, Run(l, o.pos, stk'));
      LoopRuns(k - 1, code, s, g, rp, p, l1, o.pos, stk);
      Trans(code, s, a, Run(l1, o.pos, Choice(stk.pc, o.pos, stk.below)),
            Run(stk.pc, Eval(k, g, TRep(p), s, i).pos, stk.below));
    }
  }

  lemma SimulatesLoop(k: nat, code: seq<Slot>, s: seq<Byte>, g: seq<Tree>, rp: seq<int>, t: Tree, opt: bool, tt: Test,
                      fl: Charset, p: int, i: nat, stk: Stk)
    requires Pre(code, s, g, rp, t, opt, tt, fl, p, i, stk)
    requires t.TRep? && ToCharset(t.p).None? && !TestEndsLoop(g, t.p, fl)
    ensures Gives(code, s, Run(p, i, stk), p + |Gen(false, g, t, opt, tt, fl)|, Eval(k, g, t, s, i), stk, opt, fl)
    decreases k, t, 1
  {
    hide First, TestOf, GetFirst, HeadFailAux, CheckAux, FixedLenX, TestCode, Loaded, LoopByTest, LoopByChoice,
      TestEndsLoop, RulesLoaded, RulesSafe, CloseCalls, RulesCode, ToCharset;
    var f := First(g, t.p, FULL);
    var b := Gen(false, g, t.p, false, NoTest, FULL);
    var n, c, q := LayoutLoop(code, p, f, opt, b, rp);
    var a, o := Run(p, i, stk), Eval(k, g, t, s, i);
    NoFailSound(k, g, t, 0, s, i);
    if o.Unknown? { return; }
    TestRuns(code, s, p, f.cs, f.e, q - p, rp, i, stk);
    TestIsExact(k, g, t.p, s, i);
    if Passes(f.cs, f.e, s, i) {
      var stk' := if opt then Choice(stk.pc, i, stk.below) else Choice(q, i, stk);
      Then(code, s, a, Run(n, i, stk));
      LoopRuns(k, code, s, g, rp, t.p, n + 2, i, stk');
      Trans(code, s, a, Run(n + 2, i, stk'), Run(stk'.pc, o.pos, stk'.below));
    } else {
      GetsBehind(code, s, a, q, i, stk, opt, fl);
    }
  }

  lemma SimulatesNot(k: nat, code: seq<Slot>, s: seq<Byte>, g: seq<Tree>, rp: seq<int>, t: Tree, opt: bool, tt: Test,
                     fl: Charset, p: int, i: nat, stk: Stk)
    requires Pre(code, s, g, rp, t, opt, tt, fl, p, i, stk)
    requires t.TNot?
    ensures Gives(code, s, Run(p, i, stk), p + |Gen(false, g, t, opt, tt, fl)|, Eval(k, g, t, s, i), stk, opt, fl)
    decreases k, t, 0
  {
    hide First, TestOf, Succeeds, GetFirst, HeadFailAux, CheckAux, FixedLenX, TestCode, Reaches, Loaded, NotByTest,
      NotByChoice, RulesLoaded, RulesSafe, CloseCalls, RulesCode;
    var f := First(g, t.p, FULL);
    var o := Eval(k, g, t.p, s, i);
    if o.Unknown? { return; }
    TestIsExact(k, g, t.p, s, i);
    if HeadFail(g, t.p) {
      RunNotByTest(code, s, p, f, rp, i, stk, opt, fl);
    } else {
      var b := Gen(false, g, t.p, false, NoTest, FULL);
      var n, c, q := LayoutNot(code, p, f, b, rp);
      if Passes(f.cs, f.e, s, i) {
        Simulates(k, code, s, g, rp, t.p, false, NoTest, FULL, n + 2, i, Choice(q, i, stk));
      }
      RunNot(code, s, p, f, b, rp, i, stk, opt, fl, o);
    }
  }

  lemma SimulatesAnd(k: nat, code: seq<Slot>, s: seq<Byte>, g: seq<Tree>, rp: seq<int>, t: Tree, opt: bool, tt: Test,
                     fl: Charset, p: int, i: nat, stk: Stk)
    requires Pre(code, s, g, rp, t, opt, tt, fl, p, i, stk)
    requires t.TAnd?
    ensures Gives(code, s, Run(p, i, stk), p + |Gen(false, g, t, opt, tt, fl)|, Eval(k, g, t, s, i), stk, opt, fl)
    decreases k, t, 1
  {
    hide Gen, Eval, Pre, Gives, FixedLenX;
    if 0 <= FixedLen(g, t.p) <= MAXBEHIND {
      SimulatesAndBack(k, code, s, g, rp, t, opt, tt, fl, p, i, stk);
    } else {
      SimulatesAndChoice(k, code, s, g, rp, t, opt, tt, fl, p, i, stk);
    }
  }

  /** A pattern of fixed length is matched and gone back over. */
  lemma SimulatesAndBack(k: nat, code: seq<Slot>, s: seq<Byte>, g: seq<Tree>, rp: seq<int>, t: Tree, opt: bool, tt: Test,
                         fl: Charset, p: int, i: nat, stk: Stk)
    requires Pre(code, s, g, rp, t, opt, tt, fl, p, i, stk)
    requires t.TAnd? && 0 <= FixedLen(g, t.p) <= MAXBEHIND
    ensures Gives(code, s, Run(p, i, stk), p + |Gen(false, g, t, opt, tt, fl)|, Eval(k, g, t, s, i), stk, opt, fl)
    decreases k, t, 0
  {
    hide HasOff, Target, IsOp, HeadFail, First, GetFirst, HeadFailAux, CheckAux, FixedLenX, TestCode, Step, Buffer,
      Reaches, Loaded, Succeeds, Backtrack, Nullable, AndByChoice, RulesLoaded, RulesSafe, CloseCalls, RulesCode;
    var n := FixedLen(g, t.p);
    var b := Gen(false, g, t.p, false, tt, FULL);
    var o := Eval(k, g, t.p, s, i);
    Split(code, p, b, if n > 0 then [Inst(IBehind, n)] else [], rp);
    Simulates(k, code, s, g, rp, t.p, false, tt, FULL, p, i, stk);
    if o.Ok? { FixedLenSound(k, g, t.p, 0, 0, s, i); }
    RunThenBack(code, s, p, b, n, rp, i, stk, opt, fl, o);
  }

  lemma SimulatesAndChoice(k: nat, code: seq<Slot>, s: seq<Byte>, g: seq<Tree>, rp: seq<int>, t: Tree, opt: bool, tt: Test,
                           fl: Charset, p: int, i: nat, stk: Stk)
    requires Pre(code, s, g, rp, t, opt, tt, fl, p, i, stk)
    requires t.TAnd? && !(0 <= FixedLen(g, t.p) <= MAXBEHIND)
    ensures Gives(code, s, Run(p, i, stk), p + |Gen(false, g, t, opt, tt, fl)|, Eval(k, g, t, s, i), stk, opt, fl)
    decreases k, t, 0
  {
    hide HasOff, Target, IsOp, HeadFail, First, GetFirst, HeadFailAux, CheckAux, FixedLenX, TestCode, Step, Buffer,
      Reaches, Loaded, Succeeds, Backtrack, Nullable, AndByChoice, RulesLoaded, RulesSafe, CloseCalls, RulesCode;
    var b := Gen(false, g, t.p, false, tt, FULL);
    var o := Eval(k, g, t.p, s, i);
    var c, q := LayoutAnd(code, p, b, rp);
    Simulates(k, code, s, g, rp, t.p, false, tt, FULL, p + 2, i, Choice(q - 1, i, stk));
    RunAnd(code, s, p, b, rp, i, stk, opt, fl, o);
  }

  lemma SimulatesBehind(k: nat, code: seq<Slot>, s: seq<Byte>, g: seq<Tree>, rp: seq<int>, t: Tree, opt: bool, tt: Test,
                        fl: Charset, p: int, i: nat, stk: Stk)
    requires Pre(code, s, g, rp, t, opt, tt, fl, p, i, stk)
    requires t.TBehind?
    ensures Gives(code, s, Run(p, i, stk), p + |Gen(false, g, t, opt, tt, fl)|, Eval(k, g, t, s, i), stk, opt, fl)
    decreases k, t, 0
  {
    hide Loaded, RulesLoaded, RulesSafe, CloseCalls, RulesCode, Reaches, Succeeds, First, HeadFail, Backtrack,
      GetFirst, HeadFailAux, CheckAux, FixedLenX, TestCode;
    var b := Gen(false, g, t.p, false, NoTest, FULL);
    Split(code, p, if t.n > 0 then [Inst(IBehind, t.n)] else [], b, rp);
    var o := Unknown;
    if t.n <= i {
      o := Eval(k, g, t.p, s, i - t.n);
      Simulates(k, code, s, g, rp, t.p, false, NoTest, FULL, p + (if t.n > 0 then 1 else 0), i - t.n, stk);
      if o.Ok? { FixedLenSound(k, g, t.p, 0, 0, s, i - t.n); }
    }
    RunBehind(code, s, p, b, t.n, rp, i, stk, opt, fl, o);
  }

  lemma SimulatesCall(k: nat, code: seq<Slot>, s: seq<Byte>, g: seq<Tree>, rp: seq<int>, t: Tree, opt: bool, tt: Test,
                      fl: Charset, p: int, i: nat, stk: Stk)
    requires Pre(code, s, g, rp, t, opt, tt, fl, p, i, stk)
    requires t.TCall?
    ensures Gives(code, s, Run(p, i, stk), p + |Gen(false, g, t, opt, tt, fl)|, Eval(k, g, t, s, i), stk, opt, fl)
    decreases k, t, 0
  {
    hide CloseCalls, RulesCode, GetFirst, HeadFailAux, CheckAux, FixedLenX, First;
    var c := [Inst(IOpenCall, t.rule), Hole];
    LoadedAt(code, p, c, rp, 0);
    LoadedAt(code, p, c, rp, 1);
    if k == 0 { return; }
    var a := Run(p, i, stk);
    One(code, s, a);
    RuleRuns(k - 1, code, s, g, rp, t.rule, p + 2, i, stk);
    var o := Eval(k, g, t, s, i);
    if o.Ok? {
      Trans(code, s, a, Run(rp[t.rule], i, Ret(p + 2, stk)), Run(p + 2, o.pos, stk));
      GetsBehind(code, s, a, p + 2, o.pos, stk, opt, fl);
    } else if o.Fail? {
      Trans(code, s, a, Run(rp[t.rule], i, Ret(p + 2, stk)), Backtrack(stk));
    }
  }

  lemma RuleAt(code: seq<Slot>, g: seq<Tree>, rp: seq<int>, n: nat)
    requires RulesLoaded(code, g, rp) && RulesSafe(g) && n < |g|
    ensures |rp| == |g| && WellFormed(g, g[n]) && SafeOpt(g, g[n], false, FULL)
    ensures Loaded(code, rp[n], Gen(false, g, g[n], false, NoTest, FULL) + [Inst(IRet, 0)], rp)
  {
  }

  /** A rule returns to its caller with the result of its body. */
  lemma RuleRuns(k: nat, code: seq<Slot>, s: seq<Byte>, g: seq<Tree>, rp: seq<int>, n: nat, back: int, i: nat, stk: Stk)
    requires RulesLoaded(code, g, rp) && RulesSafe(g) && n < |g| && i <= |s|
    ensures
      var o := Eval(k, g, g[n], s, i);
      var a := Run(rp[n], i, Ret(back, stk));
      && (o.Ok? ==> Reaches(code, s, a, Run(back, o.pos, stk)))
      && (o.Fail? ==> Reaches(code, s, a, Backtrack(stk)))
    decreases k, g[n], 3
  {
    hide Gen, Loaded, RulesLoaded, RulesSafe, WellFormed, SafeOpt, Eval, Reaches;
    RuleAt(code, g, rp, n);
    var body := Gen(false, g, g[n], false, NoTest, FULL);
    Split(code, rp[n], body, [Inst(IRet, 0)], rp);
    LoadedInst(code, rp[n] + |body|, IRet, 0, rp);
    Simulates(k, code, s, g, rp, g[n], false, NoTest, FULL, rp[n], i, Ret(back, stk));
    var o := Eval(k, g, g[n], s, i);
    if o.Ok? { Then(code, s, Run(rp[n], i, Ret(back, stk)), Run(rp[n] + |body|, o.pos, Ret(back, stk))); }
  }

  lemma CallStep(code: seq<Slot>, s: seq<Byte>, p: int, i: nat, stk: Stk)
    requires IsOp(code, p, ICall) && HasOff(code, p)
    ensures Step(code, s, Run(p, i, stk)) == Run(Target(code, p), i, Ret(p + 2, stk))
  {
  }

  lemma JumpStep(code: seq<Slot>, s: seq<Byte>, p: int, i: nat, stk: Stk)
    requires IsOp(code, p, IJmp) && HasOff(code, p)
    ensures Step(code, s, Run(p, i, stk)) == Run(Target(code, p), i, stk)
  {
  }

  lemma SimulatesGrammar(k: nat, code: seq<Slot>, s: seq<Byte>, g: seq<Tree>, rp: seq<int>, t: Tree, opt: bool, tt: Test,
                         fl: Charset, p: int, i: nat, stk: Stk)
    requires Pre(code, s, g, rp, t, opt, tt, fl, p, i, stk)
    requires t.TGrammar?
    ensures Gives(code, s, Run(p, i, stk), p + |Gen(false, g, t, opt, tt, fl)|, Eval(k, g, t, s, i), stk, opt, fl)
    decreases k, t, 0
  {
    hide RulePositions, First, HeadFail, Nullable, Succeeds, GetFirst, HeadFailAux, CheckAux, FixedLenX, TestCode,
      Loaded, CloseCalls, RulesCode, Reaches, Step, Target, HasOff;
    var rs := t.rules;
    var n := |RulesCode(false, rs, |rs|)|;
    var rp' := LayoutGrammar(code, p, rs, rp);
    var a := Run(p, i, stk);
    CallStep(code, s, p, i, stk);
    One(code, s, a);
    if k == 0 { return; }
    RuleRuns(k - 1, code, s, rs, rp', 0, p + 2, i, stk);
    var o := Eval(k, g, t, s, i);
    if o.Ok? {
      JumpStep(code, s, p + 2, o.pos, stk);
      Trans(code, s, a, Run(rp'[0], i, Ret(p + 2, stk)), Run(p + 2, o.pos, stk));
      Then(code, s, a, Run(p + 2, o.pos, stk));
      GetsBehind(code, s, a, p + 4 + n, o.pos, stk, opt, fl);
    } else if o.Fail? {
      Trans(code, s, a, Run(rp'[0], i, Ret(p + 2, stk)), Backtrack(stk));
    }
  }
}
