/** SafeOpt says exactly where giving opt on to the body of a loop (lpcode.c:740) makes another program. */
module PegGuardExact {
  import opened Wrappers
  import opened PegTree
  import opened PegAnalysis
  import opened PegMachine
  import opened PegCode
  import opened PegBlocks
  import opened PegClose
  import opened PegCompiler
  import opened PegGuard

  /** A slot that closing the calls of a grammar leaves alone. */
  predicate Plain(x: Slot) { !x.Hole? && !(x.Inst? && x.op == IOpenCall) }

  /** Two pieces of code differ in such a slot. */
  ghost predicate Differ(x: seq<Slot>, y: seq<Slot>) {
    exists k: nat :: k < |x| && k < |y| && Plain(x[k]) && Plain(y[k]) && x[k] != y[k]
  }

  ghost predicate Alike(same: bool, x: seq<Slot>, y: seq<Slot>) {
    if same then x == y else Differ(x, y)
  }

  /** Pieces of code with the same layout around them. */
  lemma Inside(h: seq<Slot>, h': seq<Slot>, x: seq<Slot>, y: seq<Slot>, e: seq<Slot>, e': seq<Slot>)
    requires |h| == |h'| && Differ(x, y)
    ensures Differ(h + x + e, h' + y + e')
  {
    var k: nat :| k < |x| && k < |y| && Plain(x[k]) && Plain(y[k]) && x[k] != y[k];
    assert (h + x + e)[|h| + k] == x[k] && (h' + y + e')[|h| + k] == y[k];
  }

  lemma Around(same: bool, h: seq<Slot>, h': seq<Slot>, x: seq<Slot>, y: seq<Slot>, e: seq<Slot>, e': seq<Slot>)
    requires |h| == |h'| && Alike(same, x, y) && (x == y ==> h == h' && e == e')
    ensures Alike(same, h + x + e, h' + y + e')
  {
    if !same { Inside(h, h', x, y, e, e'); }
  }

  lemma Two(b1: bool, b2: bool, h: seq<Slot>, h': seq<Slot>, x1: seq<Slot>, y1: seq<Slot>, m: seq<Slot>, m': seq<Slot>,
            x2: seq<Slot>, y2: seq<Slot>)
    requires |h| == |h'| && |m| == |m'| && Alike(b1, x1, y1) && Alike(b2, x2, y2)
    requires x1 == y1 && x2 == y2 ==> h == h' && m == m'
    ensures Alike(b1 && b2, h + x1 + m + x2, h' + y1 + m' + y2)
  {
    if !b1 {
      Inside(h, h', x1, y1, m + x2, m' + y2);
      assert h + x1 + m + x2 == h + x1 + (m + x2) && h' + y1 + m' + y2 == h' + y1 + (m' + y2);
    } else if !b2 {
      Inside(h + x1 + m, h' + y1 + m', x2, y2, [], []);
      assert h + x1 + m + x2 == h + x1 + m + x2 + [] && h' + y1 + m' + y2 == h' + y1 + m' + y2 + [];
    }
  }

  // ----- the same analyses on both sides -----

  lemma SameAnalyses(g: seq<Tree>, t: Tree, f: Charset)
    ensures
      var u, t' := GuardAll(g), Guard(t);
      && First(u, t', f) == First(g, t, f) && HeadFail(u, t') == HeadFail(g, t) && FixedLen(u, t') == FixedLen(g, t)
      && ToCharset(t') == ToCharset(t) && (t'.TTrue? <==> t.TTrue?)
  {
    GuardFirst(g, t, f, DEPTH);
    GuardHeadFail(g, t, DEPTH);
    GuardFixedLen(g, t, 0, 0);
    GuardCharset(t);
  }

  lemma {:induction false} SameFollow(t: Tree)
    ensures NeedFollow(Guard(t)) == NeedFollow(t)
  {
    match t
    case TSeq(_, p2) => SameFollow(p2);
    case _ =>
  }

  // ----- what the generator makes of each form -----

  lemma SeqGen(tl: bool, g: seq<Tree>, p1: Tree, p2: Tree, opt: bool, tt: Test, fl: Charset)
    ensures Gen(tl, g, TSeq(p1, p2), opt, tt, fl)
         == Gen(tl, g, p1, false, tt, FollowOf(g, p1, p2, fl)) + Gen(tl, g, p2, opt, TestAfter(g, p1, tt), fl)
  {
  }

  lemma AndGen(tl: bool, g: seq<Tree>, p: Tree, opt: bool, tt: Test, fl: Charset)
    ensures
      var n, b := FixedLen(g, p), Gen(tl, g, p, false, tt, FULL);
      Gen(tl, g, TAnd(p), opt, tt, fl)
      == if 0 <= n <= MAXBEHIND then b + (if n > 0 then [Inst(IBehind, n)] else []) else AndByChoice(b)
  {
  }

  lemma SeqAlike(tl: bool, g: seq<Tree>, p1: Tree, p2: Tree, tt: Test, fl: Charset)
    ensures
      var u, q1, q2 := GuardAll(g), Guard(p1), Guard(p2);
      FollowOf(u, q1, q2, fl) == FollowOf(g, p1, p2, fl) && TestAfter(u, q1, tt) == TestAfter(g, p1, tt)
  {
    SameAnalyses(g, p1, FULL);
    SameAnalyses(g, p2, fl);
    SameFollow(p1);
  }

  lemma ChoiceAlike(g: seq<Tree>, p1: Tree, p2: Tree, fl: Charset)
    ensures
      var u, q1, q2 := GuardAll(g), Guard(p1), Guard(p2);
      First(u, q1, FULL) == First(g, p1, FULL) && TestDecides(u, q1, q2, fl) == TestDecides(g, p1, p2, fl)
      && (q2.TTrue? <==> p2.TTrue?)
  {
    SameAnalyses(g, p1, FULL);
    SameAnalyses(g, p2, fl);
  }

  // ----- where the programs differ -----

  lemma ByTestAlike(b1: bool, b2: bool, cs: Charset, x1: seq<Slot>, y1: seq<Slot>, x2: seq<Slot>, y2: seq<Slot>, e: bool)
    requires Alike(b1, x1, y1) && Alike(b2, x2, y2)
    ensures Alike(b1 && b2, ChoiceByTest(cs, x1, x2, e), ChoiceByTest(cs, y1, y2, e))
  {
    hide Alike, Differ, TestCode;
    var m, m' := if e then [] else Jump(IJmp, 2 + |x2|), if e then [] else Jump(IJmp, 2 + |y2|);
    var n := |TestCode(cs, false, Hole)|;
    TestSize(cs, false, n + |x1| + |m|);
    TestSize(cs, false, n + |y1| + |m'|);
    Two(b1, b2, TestCode(cs, false, Off(n + |x1| + |m|)), TestCode(cs, false, Off(n + |y1| + |m'|)), x1, y1, m, m', x2, y2);
  }

  lemma ByChoiceAlike(b1: bool, b2: bool, f: FirstInfo, x1: seq<Slot>, y1: seq<Slot>, x2: seq<Slot>, y2: seq<Slot>)
    requires Alike(b1, x1, y1) && Alike(b2, x2, y2)
    ensures Alike(b1 && b2, ChoiceByChoice(f, x1, x2), ChoiceByChoice(f, y1, y2))
  {
    hide Alike, Differ, TestCode;
    var n := |TestCode(f.cs, f.e, Hole)|;
    TestSize(f.cs, f.e, n + 2 + |x1| + 2);
    TestSize(f.cs, f.e, n + 2 + |y1| + 2);
    Two(b1, b2, TestCode(f.cs, f.e, Off(n + 2 + |x1| + 2)) + Jump(IChoice, 2 + |x1| + 2),
        TestCode(f.cs, f.e, Off(n + 2 + |y1| + 2)) + Jump(IChoice, 2 + |y1| + 2), x1, y1,
        Jump(ICommit, 2 + |x2|), Jump(ICommit, 2 + |y2|), x2, y2);
  }

  lemma LoopByTestAlike(same: bool, cs: Charset, x: seq<Slot>, y: seq<Slot>)
    requires Alike(same, x, y)
    ensures Alike(same, LoopByTest(cs, x), LoopByTest(cs, y))
  {
    hide Alike, Differ, TestCode;
    var n := |TestCode(cs, false, Hole)|;
    TestSize(cs, false, n + |x| + 2);
    TestSize(cs, false, n + |y| + 2);
    Around(same, TestCode(cs, false, Off(n + |x| + 2)), TestCode(cs, false, Off(n + |y| + 2)), x, y,
           Jump(IJmp, -(n + |x|)), Jump(IJmp, -(n + |y|)));
  }

  /** A loop entered by a partial commit, or not: the instruction behind the test is another one in any case. */
  lemma LoopByChoiceAlike(same: bool, f: FirstInfo, o: bool, o': bool, x: seq<Slot>, y: seq<Slot>)
    requires Alike(same, x, y)
    ensures Alike(same && o == o', LoopByChoice(f, o, x), LoopByChoice(f, o', y))
  {
    var n := |TestCode(f.cs, f.e, Hole)|;
    var h, h' := TestCode(f.cs, f.e, Off(n + 2 + |x| + 2)), TestCode(f.cs, f.e, Off(n + 2 + |y| + 2));
    var j, j' := if o then Jump(IPartialCommit, 2) else Jump(IChoice, 2 + |x| + 2),
                 if o' then Jump(IPartialCommit, 2) else Jump(IChoice, 2 + |y| + 2);
    var e, e' := Jump(IPartialCommit, -|x|), Jump(IPartialCommit, -|y|);
    TestSize(f.cs, f.e, n + 2 + |x| + 2);
    TestSize(f.cs, f.e, n + 2 + |y| + 2);
    hide TestCode, Alike;
    if o == o' {
      Around(same, h + j, h' + j', x, y, e, e');
    } else {
      assert LoopByChoice(f, o, x)[n] == j[0] && LoopByChoice(f, o', y)[n] == j'[0];
      AlikeDiffer(LoopByChoice(f, o, x), LoopByChoice(f, o', y), n);
    }
  }

  lemma AlikeDiffer(x: seq<Slot>, y: seq<Slot>, k: nat)
    requires k < |x| && k < |y| && Plain(x[k]) && Plain(y[k]) && x[k] != y[k]
    ensures Alike(false, x, y)
  {
  }

  lemma NotAlike(same: bool, f: FirstInfo, x: seq<Slot>, y: seq<Slot>)
    requires Alike(same, x, y)
    ensures Alike(same, NotByChoice(f, x), NotByChoice(f, y))
  {
    hide Alike, Differ, TestCode;
    var n := |TestCode(f.cs, f.e, Hole)|;
    TestSize(f.cs, f.e, n + 2 + |x| + 1);
    TestSize(f.cs, f.e, n + 2 + |y| + 1);
    Around(same, TestCode(f.cs, f.e, Off(n + 2 + |x| + 1)) + Jump(IChoice, 2 + |x| + 1),
           TestCode(f.cs, f.e, Off(n + 2 + |y| + 1)) + Jump(IChoice, 2 + |y| + 1), x, y, [Inst(IFailTwice, 0)], [Inst(IFailTwice, 0)]);
  }

  lemma AndAlike(same: bool, x: seq<Slot>, y: seq<Slot>)
    requires Alike(same, x, y)
    ensures Alike(same, AndByChoice(x), AndByChoice(y))
  {
    hide Alike, Differ;
    var e := Jump(IBackCommit, 3) + [Inst(IFail, 0)];
    Around(same, Jump(IChoice, 2 + |x| + 2), Jump(IChoice, 2 + |y| + 2), x, y, e, e);
    assert AndByChoice(x) == Jump(IChoice, 2 + |x| + 2) + x + e && AndByChoice(y) == Jump(IChoice, 2 + |y| + 2) + y + e;
  }

  /** An option written as a partial commit begins with another instruction than one written as a choice. */
  lemma OptionDiffers(f: FirstInfo, x: seq<Slot>, y1: seq<Slot>, y2: seq<Slot>)
    ensures Differ(Jump(IPartialCommit, 2) + x, ChoiceByChoice(f, y1, y2))
  {
    var c, d := Jump(IPartialCommit, 2) + x, ChoiceByChoice(f, y1, y2);
    assert c[0] == Inst(IPartialCommit, 0);
    assert d[0] == if f.e then Inst(IChoice, 0) else TestCode(f.cs, f.e, Off(|TestCode(f.cs, f.e, Hole)| + 2 + |y1| + 2))[0];
    assert c[0] != d[0] && Plain(c[0]) && Plain(d[0]);
  }

  /** Where the code of t depends on opt, it differs from that of the guarded pattern without opt. */
  lemma {:induction false} OptDiffers(tl: bool, g: seq<Tree>, t: Tree, tt: Test, fl: Charset)
    requires WellFormed(g, t) && UsesOpt(g, t, fl)
    ensures Differ(Gen(tl, g, t, true, tt, fl), Gen(tl, GuardAll(g), Guard(t), false, tt, fl))
    decreases t, 1
  {
    hide Gen, Differ, First, HeadFail, TestCode, TestOf, FollowOf, TestAfter, ChoiceByTest, ChoiceByChoice,
      LoopByTest, LoopByChoice, SafeOpt;
    var u := GuardAll(g);
    match t
    case TSeq(p1, p2) =>
      SeqAlike(tl, g, p1, p2, tt, fl);
      SeqGen(tl, g, p1, p2, true, tt, fl);
      SeqGen(tl, u, Guard(p1), Guard(p2), false, tt, fl);
      var fl1, tt2 := FollowOf(g, p1, p2, fl), TestAfter(g, p1, tt);
      Compare(tl, g, p1, false, tt, fl1);
      OptDiffers(tl, g, p2, tt2, fl);
      TwoInRow(SafeOpt(g, p1, false, fl1), Gen(tl, g, p1, false, tt, fl1), Gen(tl, u, Guard(p1), false, tt, fl1),
               Gen(tl, g, p2, true, tt2, fl), Gen(tl, u, Guard(p2), false, tt2, fl), false);
    case TChoice(p1, p2) =>
      ChoiceAlike(g, p1, p2, fl);
      ChoiceGen(tl, g, p1, p2, true, tt, fl);
      ChoiceGen(tl, u, Guard(p1), Guard(p2), false, tt, fl);
      var f1 := First(g, p1, FULL);
      if TestDecides(g, p1, p2, fl) {
        var tt1 := TestOf(f1.cs, false);
        Compare(tl, g, p1, false, tt1, fl);
        OptDiffers(tl, g, p2, NoTest, fl);
        ByTestAlike(SafeOpt(g, p1, false, fl), false, f1.cs, Gen(tl, g, p1, false, tt1, fl), Gen(tl, u, Guard(p1), false, tt1, fl),
                    Gen(tl, g, p2, true, NoTest, fl), Gen(tl, u, Guard(p2), false, NoTest, fl), p2.TTrue?);
      } else if p2.TTrue? {
        OptionDiffers(f1, Gen(tl, g, p1, true, NoTest, FULL), Gen(tl, u, Guard(p1), true, TestOf(f1.cs, f1.e), FULL),
                      Gen(tl, u, Guard(p2), false, NoTest, fl));
      } else {
        var tt1 := TestOf(f1.cs, f1.e);
        Compare(tl, g, p1, false, tt1, FULL);
        OptDiffers(tl, g, p2, NoTest, fl);
        ByChoiceAlike(SafeOpt(g, p1, false, FULL), false, f1, Gen(tl, g, p1, false, tt1, FULL), Gen(tl, u, Guard(p1), false, tt1, FULL),
                      Gen(tl, g, p2, true, NoTest, fl), Gen(tl, u, Guard(p2), false, NoTest, fl));
      }
    case TRep(p) =>
      RepGen(tl, g, p, true, tt, fl);
      GuardedLoop(tl, g, p, false, tt, fl);
      var f := First(g, p, FULL);
      if TestEndsLoop(g, p, fl) {
        var ttb := TestOf(f.cs, false);
        OptDiffers(tl, g, p, ttb, FULL);
        LoopByTestAlike(false, f.cs, Gen(tl, g, p, true, ttb, FULL), Gen(tl, u, Guard(p), false, ttb, FULL));
      } else {
        Compare(tl, g, p, false, NoTest, FULL);
        LoopByChoiceAlike(SafeOpt(g, p, false, FULL), f, true, false, Gen(tl, g, p, false, NoTest, FULL),
                          Gen(tl, u, Guard(p), false, NoTest, FULL));
      }
  }

  lemma TwoInRow(b1: bool, x1: seq<Slot>, y1: seq<Slot>, x2: seq<Slot>, y2: seq<Slot>, b2: bool)
    requires Alike(b1, x1, y1) && Alike(b2, x2, y2)
    ensures Alike(b1 && b2, x1 + x2, y1 + y2)
  {
    hide Alike, Differ;
    Two(b1, b2, [], [], x1, y1, [], [], x2, y2);
    assert [] + x1 + [] + x2 == x1 + x2 && [] + y1 + [] + y2 == y1 + y2;
  }

  /** The code of a pattern is that of the guarded pattern exactly if SafeOpt holds. */
  lemma {:induction false} Compare(tl: bool, g: seq<Tree>, t: Tree, opt: bool, tt: Test, fl: Charset)
    requires WellFormed(g, t)
    ensures Alike(SafeOpt(g, t, opt, fl), Gen(tl, g, t, opt, tt, fl), Gen(tl, GuardAll(g), Guard(t), opt, tt, fl))
    decreases t, 2
  {
    hide Gen, Differ, First, HeadFail, TestCode, TestOf, FollowOf, TestAfter, ChoiceByTest, ChoiceByChoice,
      LoopByTest, LoopByChoice, SafeOpt, Alike, UsesOpt, TestDecides, TestEndsLoop;
    match t
    case TSeq(p1, p2) => CompareSeq(tl, g, p1, p2, opt, tt, fl);
    case TChoice(p1, p2) => CompareChoice(tl, g, p1, p2, opt, tt, fl);
    case TRep(p) => CompareRep(tl, g, p, opt, tt, fl);
    case TNot(p) => CompareNot(tl, g, p, opt, tt, fl);
    case TAnd(p) => CompareAnd(tl, g, p, opt, tt, fl);
    case TBehind(n, p) => CompareBehind(tl, g, n, p, opt, tt, fl);
    case TGrammar(rs) => CompareGrammar(tl, g, rs, opt, tt, fl);
    case _ => CompareLeaf(tl, g, t, opt, tt, fl);
  }

  lemma CompareLeaf(tl: bool, g: seq<Tree>, t: Tree, opt: bool, tt: Test, fl: Charset)
    requires !t.TSeq? && !t.TChoice? && !t.TRep? && !t.TNot? && !t.TAnd? && !t.TBehind? && !t.TGrammar?
    ensures Alike(SafeOpt(g, t, opt, fl), Gen(tl, g, t, opt, tt, fl), Gen(tl, GuardAll(g), Guard(t), opt, tt, fl))
  {
  }

  lemma {:induction false} CompareSeq(tl: bool, g: seq<Tree>, p1: Tree, p2: Tree, opt: bool, tt: Test, fl: Charset)
    requires WellFormed(g, TSeq(p1, p2))
    ensures
      var t := TSeq(p1, p2);
      Alike(SafeOpt(g, t, opt, fl), Gen(tl, g, t, opt, tt, fl), Gen(tl, GuardAll(g), Guard(t), opt, tt, fl))
    decreases TSeq(p1, p2), 1
  {
    hide Gen, Alike, First, FollowOf, TestAfter;
    var u, fl1, tt2 := GuardAll(g), FollowOf(g, p1, p2, fl), TestAfter(g, p1, tt);
    SeqAlike(tl, g, p1, p2, tt, fl);
    SeqGen(tl, g, p1, p2, opt, tt, fl);
    SeqGen(tl, u, Guard(p1), Guard(p2), opt, tt, fl);
    Compare(tl, g, p1, false, tt, fl1);
    Compare(tl, g, p2, opt, tt2, fl);
    TwoInRow(SafeOpt(g, p1, false, fl1), Gen(tl, g, p1, false, tt, fl1), Gen(tl, u, Guard(p1), false, tt, fl1),
             Gen(tl, g, p2, opt, tt2, fl), Gen(tl, u, Guard(p2), opt, tt2, fl), SafeOpt(g, p2, opt, fl));
  }

  lemma {:induction false} CompareChoice(tl: bool, g: seq<Tree>, p1: Tree, p2: Tree, opt: bool, tt: Test, fl: Charset)
    requires WellFormed(g, TChoice(p1, p2))
    ensures
      var t := TChoice(p1, p2);
      Alike(SafeOpt(g, t, opt, fl), Gen(tl, g, t, opt, tt, fl), Gen(tl, GuardAll(g), Guard(t), opt, tt, fl))
    decreases TChoice(p1, p2), 1
  {
    hide Gen, Alike, First, HeadFail, TestDecides, TestOf, ChoiceByTest, ChoiceByChoice;
    var u := GuardAll(g);
    ChoiceAlike(g, p1, p2, fl);
    ChoiceGen(tl, g, p1, p2, opt, tt, fl);
    ChoiceGen(tl, u, Guard(p1), Guard(p2), opt, tt, fl);
    var f1 := First(g, p1, FULL);
    if TestDecides(g, p1, p2, fl) {
      var tt1 := TestOf(f1.cs, false);
      Compare(tl, g, p1, false, tt1, fl);
      Compare(tl, g, p2, opt, NoTest, fl);
      ByTestAlike(SafeOpt(g, p1, false, fl), SafeOpt(g, p2, opt, fl), f1.cs, Gen(tl, g, p1, false, tt1, fl),
                  Gen(tl, u, Guard(p1), false, tt1, fl), Gen(tl, g, p2, opt, NoTest, fl), Gen(tl, u, Guard(p2), opt, NoTest, fl), p2.TTrue?);
    } else if opt && p2.TTrue? {
      Compare(tl, g, p1, true, NoTest, FULL);
      Ahead(SafeOpt(g, p1, true, FULL), Jump(IPartialCommit, 2), Gen(tl, g, p1, true, NoTest, FULL),
            Gen(tl, u, Guard(p1), true, NoTest, FULL));
    } else {
      var tt1 := TestOf(f1.cs, f1.e);
      Compare(tl, g, p1, p2.TTrue?, tt1, FULL);
      Compare(tl, g, p2, opt, NoTest, fl);
      ByChoiceAlike(SafeOpt(g, p1, p2.TTrue?, FULL), SafeOpt(g, p2, opt, fl), f1, Gen(tl, g, p1, p2.TTrue?, tt1, FULL),
                    Gen(tl, u, Guard(p1), p2.TTrue?, tt1, FULL), Gen(tl, g, p2, opt, NoTest, fl), Gen(tl, u, Guard(p2), opt, NoTest, fl));
    }
  }

  lemma Ahead(same: bool, h: seq<Slot>, x: seq<Slot>, y: seq<Slot>)
    requires Alike(same, x, y)
    ensures Alike(same, h + x, h + y)
  {
    hide Alike;
    Around(same, h, h, x, y, [], []);
    assert h + x + [] == h + x && h + y + [] == h + y;
  }

  lemma Behind(same: bool, x: seq<Slot>, y: seq<Slot>, e: seq<Slot>)
    requires Alike(same, x, y)
    ensures Alike(same, x + e, y + e)
  {
    hide Alike;
    Around(same, [], [], x, y, e, e);
    assert [] + x + e == x + e && [] + y + e == y + e;
  }

  lemma {:induction false} CompareRep(tl: bool, g: seq<Tree>, p: Tree, opt: bool, tt: Test, fl: Charset)
    requires WellFormed(g, TRep(p))
    ensures
      var t := TRep(p);
      Alike(SafeOpt(g, t, opt, fl), Gen(tl, g, t, opt, tt, fl), Gen(tl, GuardAll(g), Guard(t), opt, tt, fl))
    decreases TRep(p), 1
  {
    if ToCharset(p).Some? { SpanAlike(tl, g, p, opt, tt, fl); return; }
    hide Gen, Alike, First, HeadFail, TestEndsLoop, TestOf, LoopByTest, LoopByChoice, Guard;
    var u, f := GuardAll(g), First(g, p, FULL);
    RepGen(tl, g, p, opt, tt, fl);
    GuardedLoop(tl, g, p, opt, tt, fl);
    if TestEndsLoop(g, p, fl) {
      var ttb := TestOf(f.cs, false);
      var x, x0, y := Gen(tl, g, p, opt, ttb, FULL), Gen(tl, g, p, false, ttb, FULL), Gen(tl, u, Guard(p), false, ttb, FULL);
      Compare(tl, g, p, false, ttb, FULL);
      if opt && UsesOpt(g, p, FULL) {
        OptDiffers(tl, g, p, ttb, FULL);
        Differing(x, y);
        LoopByTestAlike(false, f.cs, x, y);
      } else {
        if opt { OptUnused(tl, g, p, ttb, FULL); }
        LoopByTestAlike(SafeOpt(g, p, false, FULL), f.cs, x, y);
      }
    } else {
      Compare(tl, g, p, false, NoTest, FULL);
      LoopByChoiceAlike(SafeOpt(g, p, false, FULL), f, opt, opt, Gen(tl, g, p, false, NoTest, FULL),
                        Gen(tl, u, Guard(p), false, NoTest, FULL));
    }
  }

  lemma Differing(x: seq<Slot>, y: seq<Slot>)
    requires Differ(x, y)
    ensures Alike(false, x, y)
  {
  }

  lemma SpanAlike(tl: bool, g: seq<Tree>, p: Tree, opt: bool, tt: Test, fl: Charset)
    requires ToCharset(p).Some?
    ensures
      var t := TRep(p);
      Alike(SafeOpt(g, t, opt, fl), Gen(tl, g, t, opt, tt, fl), Gen(tl, GuardAll(g), Guard(t), opt, tt, fl))
  {
  }

  lemma {:induction false} CompareNot(tl: bool, g: seq<Tree>, p: Tree, opt: bool, tt: Test, fl: Charset)
    requires WellFormed(g, TNot(p))
    ensures
      var t := TNot(p);
      Alike(SafeOpt(g, t, opt, fl), Gen(tl, g, t, opt, tt, fl), Gen(tl, GuardAll(g), Guard(t), opt, tt, fl))
    decreases TNot(p), 1
  {
    hide First, HeadFail, NotByTest, NotByChoice, Differ;
    var u, f := GuardAll(g), First(g, p, FULL);
    SameAnalyses(g, p, FULL);
    if !HeadFail(g, p) {
      Compare(tl, g, p, false, NoTest, FULL);
      NotAlike(SafeOpt(g, p, false, FULL), f, Gen(tl, g, p, false, NoTest, FULL), Gen(tl, u, Guard(p), false, NoTest, FULL));
    }
  }

  lemma {:induction false} CompareAnd(tl: bool, g: seq<Tree>, p: Tree, opt: bool, tt: Test, fl: Charset)
    requires WellFormed(g, TAnd(p))
    ensures
      var t := TAnd(p);
      Alike(SafeOpt(g, t, opt, fl), Gen(tl, g, t, opt, tt, fl), Gen(tl, GuardAll(g), Guard(t), opt, tt, fl))
    decreases TAnd(p), 1
  {
    hide AndByChoice, FixedLenX, FixedLen, Alike, Gen;
    var u, n := GuardAll(g), FixedLen(g, p);
    AndGen(tl, g, p, opt, tt, fl);
    AndGen(tl, u, Guard(p), opt, tt, fl);
    var x, y := Gen(tl, g, p, false, tt, FULL), Gen(tl, u, Guard(p), false, tt, FULL);
    SameAnalyses(g, p, FULL);
    Compare(tl, g, p, false, tt, FULL);
    if 0 <= n <= MAXBEHIND {
      Behind(SafeOpt(g, p, false, FULL), x, y, if n > 0 then [Inst(IBehind, n)] else []);
    } else {
      AndAlike(SafeOpt(g, p, false, FULL), x, y);
    }
  }

  lemma {:induction false} CompareBehind(tl: bool, g: seq<Tree>, n: nat, p: Tree, opt: bool, tt: Test, fl: Charset)
    requires WellFormed(g, TBehind(n, p))
    ensures
      var t := TBehind(n, p);
      Alike(SafeOpt(g, t, opt, fl), Gen(tl, g, t, opt, tt, fl), Gen(tl, GuardAll(g), Guard(t), opt, tt, fl))
    decreases TBehind(n, p), 1
  {
    hide Alike, FixedLenX;
    var x, y := Gen(tl, g, p, false, NoTest, FULL), Gen(tl, GuardAll(g), Guard(p), false, NoTest, FULL);
    Compare(tl, g, p, false, NoTest, FULL);
    Ahead(SafeOpt(g, p, false, FULL), if n > 0 then [Inst(IBehind, n)] else [], x, y);
  }

  // ----- grammars -----

  ghost predicate SafeRules(rs: seq<Tree>, n: nat)
    requires n <= |rs|
  {
    forall m :: 0 <= m < n ==> SafeOpt(rs, rs[m], false, FULL)
  }

  lemma {:induction false} CompareRules(tl: bool, rs: seq<Tree>, n: nat)
    requires n <= |rs| && forall m :: 0 <= m < |rs| ==> WellFormed(rs, rs[m])
    ensures Alike(SafeRules(rs, n), RulesCode(tl, rs, n), RulesCode(tl, GuardAll(rs), n))
    decreases rs, n
  {
    hide Gen, SafeOpt, Differ, Alike, WellFormed;
    var u := GuardAll(rs);
    if n == 0 {
      SameIsAlike([]);
    } else {
      var x1, y1 := RulesCode(tl, rs, n - 1), RulesCode(tl, u, n - 1);
      var x2, y2 := Gen(tl, rs, rs[n - 1], false, NoTest, FULL), Gen(tl, u, u[n - 1], false, NoTest, FULL);
      CompareRules(tl, rs, n - 1);
      Compare(tl, rs, rs[n - 1], false, NoTest, FULL);
      TwoInRow(SafeRules(rs, n - 1), x1, y1, x2, y2, SafeOpt(rs, rs[n - 1], false, FULL));
      Behind(SafeRules(rs, n), x1 + x2, y1 + y2, [Inst(IRet, 0)]);
    }
  }

  lemma SameIsAlike(x: seq<Slot>)
    ensures Alike(true, x, x)
  {
  }

  /** Open calls have a hole behind them. */
  ghost predicate HolesBehind(c: seq<Slot>) {
    forall k :: 0 <= k < |c| && IsOp(c, k, IOpenCall) ==> k + 1 < |c| && c[k + 1].Hole?
  }

  lemma {:induction false} CloseKeepsPlain(tl: bool, c: seq<Slot>, pos: seq<int>, i: nat, k: nat)
    requires i <= |c| && k < |c| && Plain(c[k]) && HolesBehind(c)
    ensures CloseCalls(tl, c, pos, i)[k] == c[k]
    decreases |c| - i
  {
    hide LeadsToRet;
    if i < |c| {
      if IsOp(c, i, IOpenCall) && i + 1 < |c| && 0 <= c[i].arg < |pos| {
        var op := if tl && LeadsToRet(c, i + 2) then IJmp else ICall;
        var c' := c[i := Inst(op, c[i].arg)][i + 1 := Off(pos[c[i].arg] - i)];
        forall m | 0 <= m < |c'| && IsOp(c', m, IOpenCall) ensures m + 1 < |c'| && c'[m + 1].Hole? {
          assert m != i && m != i + 1 && IsOp(c, m, IOpenCall);
        }
        CloseKeepsPlain(tl, c', pos, i + 2, k);
      } else {
        CloseKeepsPlain(tl, c, pos, i + 1, k);
      }
    }
  }

  lemma RulesHoles(tl: bool, rs: seq<Tree>)
    requires forall m :: 0 <= m < |rs| ==> WellFormed(rs, rs[m])
    ensures HolesBehind(RulesCode(tl, rs, |rs|))
  {
    RulesTwins(rs, |rs|);
    var c, d := RulesCode(false, rs, |rs|), RulesCode(tl, rs, |rs|);
    hide Gen, RulesCode, LeadsToRet, Aligned;
    forall k | 0 <= k < |d| && IsOp(d, k, IOpenCall) ensures k + 1 < |d| && d[k + 1].Hole? {
      if tl { assert d[k] == c[k] || TailCall(c, d, k); assert IsOp(c, k, IOpenCall); assert d[k + 1] == c[k + 1] || TailCall(c, d, k + 1); }
    }
  }

  /** Closing the calls keeps a difference. */
  lemma CloseAlike(tl: bool, x: seq<Slot>, y: seq<Slot>, pos: seq<int>, pos': seq<int>, same: bool)
    requires Alike(same, x, y) && (same ==> pos == pos') && HolesBehind(x) && HolesBehind(y)
    ensures Alike(same, CloseCalls(tl, x, pos, 0), CloseCalls(tl, y, pos', 0))
  {
    hide HolesBehind, CloseCalls;
    if !same {
      var k: nat :| k < |x| && k < |y| && Plain(x[k]) && Plain(y[k]) && x[k] != y[k];
      CloseKeepsPlain(tl, x, pos, 0, k);
      CloseKeepsPlain(tl, y, pos', 0, k);
      AlikeDiffer(CloseCalls(tl, x, pos, 0), CloseCalls(tl, y, pos', 0), k);
    }
  }

  lemma {:induction false} CompareGrammar(tl: bool, g: seq<Tree>, rs: seq<Tree>, opt: bool, tt: Test, fl: Charset)
    requires WellFormed(g, TGrammar(rs))
    ensures
      var t := TGrammar(rs);
      Alike(SafeOpt(g, t, opt, fl), Gen(tl, g, t, opt, tt, fl), Gen(tl, GuardAll(g), Guard(t), opt, tt, fl))
    decreases TGrammar(rs), 1
  {
    hide RulesCode, CloseCalls, HolesBehind, SafeOpt, Guard, Alike, WellFormed;
    var u, n := GuardAll(rs), |rs|;
    GrammarRules(g, rs, opt, fl);
    CompareRules(tl, rs, n);
    PositionsAlike(tl, rs);
    RulesHoles(tl, rs);
    forall m | 0 <= m < |u| ensures WellFormed(u, u[m]) { GuardWellFormed(rs, rs[m]); }
    RulesHoles(tl, u);
    var x, y, same := RulesCode(tl, rs, n), RulesCode(tl, u, n), SafeRules(rs, n);
    CloseAlike(tl, x, y, RulePositions(tl, rs), RulePositions(tl, u), same);
    GrammarAround(same, x, y, CloseCalls(tl, x, RulePositions(tl, rs), 0), CloseCalls(tl, y, RulePositions(tl, u), 0));
    GrammarGen(tl, g, rs, opt, tt, fl);
    GrammarGen(tl, GuardAll(g), u, opt, tt, fl);
  }

  lemma GrammarRules(g: seq<Tree>, rs: seq<Tree>, opt: bool, fl: Charset)
    requires WellFormed(g, TGrammar(rs))
    ensures forall m :: 0 <= m < |rs| ==> WellFormed(rs, rs[m])
    ensures SafeOpt(g, TGrammar(rs), opt, fl) == SafeRules(rs, |rs|) && Guard(TGrammar(rs)) == TGrammar(GuardAll(rs))
  {
  }

  lemma GrammarGen(tl: bool, g: seq<Tree>, rs: seq<Tree>, opt: bool, tt: Test, fl: Charset)
    ensures
      var body := RulesCode(tl, rs, |rs|);
      Gen(tl, g, TGrammar(rs), opt, tt, fl)
      == Jump(ICall, 4) + Jump(IJmp, 2 + |body|) + CloseCalls(tl, body, RulePositions(tl, rs), 0)
  {
  }

  lemma GrammarAround(same: bool, x: seq<Slot>, y: seq<Slot>, x': seq<Slot>, y': seq<Slot>)
    requires Alike(same, x, y) && Alike(same, x', y')
    ensures Alike(same, Jump(ICall, 4) + Jump(IJmp, 2 + |x|) + x', Jump(ICall, 4) + Jump(IJmp, 2 + |y|) + y')
  {
    hide Differ;
    var h, h' := Jump(ICall, 4) + Jump(IJmp, 2 + |x|), Jump(ICall, 4) + Jump(IJmp, 2 + |y|);
    if !same {
      Inside(h, h', x', y', [], []);
      assert h + x' + [] == h + x' && h' + y' + [] == h' + y';
    }
  }

  lemma {:induction false} PositionsAlike(tl: bool, rs: seq<Tree>)
    requires forall m :: 0 <= m < |rs| ==> WellFormed(rs, rs[m])
    ensures SafeRules(rs, |rs|) ==> RulePositions(tl, rs) == RulePositions(tl, GuardAll(rs))
    decreases rs, |rs| + 1
  {
    hide RulesCode, WellFormed;
    if SafeRules(rs, |rs|) {
      forall n | 0 <= n < |rs| ensures RulePositions(tl, rs)[n] == RulePositions(tl, GuardAll(rs))[n] {
        CompareRules(tl, rs, n);
        assert SafeRules(rs, n);
      }
    }
  }

  /** Two programs are made of a pattern, with opt given on to the bodies of loops and with 0 instead, and they are the same
      exactly if SafeOpt holds. */
  lemma SameProgram(t: Tree)
    requires WellFormed([], t)
    ensures Program(t) == Program(Guard(t)) <==> SafeOpt([], t, false, FULL)
  {
    hide Gen, SafeOpt, WellFormed, Guard;
    var x, y := Gen(true, [], t, false, NoTest, FULL), Gen(true, [], Guard(t), false, NoTest, FULL);
    assert GuardAll([]) == [];
    Compare(true, [], t, false, NoTest, FULL);
    Behind(SafeOpt([], t, false, FULL), x, y, [Inst(IEnd, 0)]);
  }
}
