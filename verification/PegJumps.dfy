/** In the generated code no chain of jumps is endless, so that finaltarget terminates.

    c is the code without tail calls, d the code with them.  Inside a piece of code every jump leads to
    an instruction, to the end of the piece, or by a tail call to a rule.  A chain through rules is
    finite because verifyrule has bounded the chains of left calls. */
module PegJumps {
  import opened PegTree
  import opened PegAnalysis
  import opened PegMachine
  import opened PegCode
  import opened PegBlocks
  import opened PegClose
  import opened PegThread
  import opened PegVerify

  // ----- where the start of a piece of code leads -----

  ghost predicate LeftCall(g: seq<Tree>, n: nat, d: nat) {
    n < |g| && d > 0 && VerifyRule(g, g[n], d - 1, false).Some?
  }

  /** The jumps at p lead to an instruction, to q if the piece is nullable, or to the rule of a left call. */
  ghost predicate Opens(d: seq<Slot>, g: seq<Tree>, rp: seq<int>, p: int, q: int, nullable: bool, depth: nat) {
    exists j :: JumpsTo(d, p, j) && OpensAt(d, g, rp, j, q, nullable, depth)
  }

  ghost predicate OpensAt(d: seq<Slot>, g: seq<Tree>, rp: seq<int>, j: int, q: int, nullable: bool, depth: nat) {
    (j == q && nullable) || Stops(d, j) || (exists n: nat :: LeftCall(g, n, depth) && n < |rp| && rp[n] == j)
  }

  lemma OpensHere(d: seq<Slot>, g: seq<Tree>, rp: seq<int>, p: int, q: int, nullable: bool, depth: nat)
    requires (p == q && nullable) || Stops(d, p)
    ensures Opens(d, g, rp, p, q, nullable, depth)
  {
    JumpsToSelf(d, p);
    assert OpensAt(d, g, rp, p, q, nullable, depth);
  }

  lemma OpensThrough(d: seq<Slot>, g: seq<Tree>, rp: seq<int>, p: int, m: int, q: int, n1: bool, n2: bool, depth: nat)
    requires Opens(d, g, rp, p, m, n1, depth)
    requires n1 ==> Opens(d, g, rp, m, q, n2, depth)
    ensures Opens(d, g, rp, p, q, n2, depth)
  {
    var j :| JumpsTo(d, p, j) && OpensAt(d, g, rp, j, m, n1, depth);
    if j == m && n1 {
      var j' :| JumpsTo(d, m, j') && OpensAt(d, g, rp, j', q, n2, depth);
      JumpsTrans(d, p, m, j');
    } else {
      assert OpensAt(d, g, rp, j, q, n2, depth);
    }
  }

  /** A slot that is no call is the same in both programs. */
  lemma Same(c: seq<Slot>, d: seq<Slot>, k: int)
    requires Twins(c, d) && 0 <= k < |c| && !IsOp(c, k, ICall)
    ensures k < |d| && d[k] == c[k]
  {
  }

  lemma SameLabel(c: seq<Slot>, d: seq<Slot>, k: int)
    requires Twins(c, d) && 0 <= k < |c| && !IsOp(c, k, ICall) && HasOff(c, k)
    ensures k + 1 < |d| && d[k] == c[k] && HasOff(d, k) && Target(d, k) == Target(c, k)
  {
    Same(c, d, k);
    Same(c, d, k + 1);
  }

  /** A test either stops a chain of jumps or, for an empty set, leads to its label. */
  lemma TestOpens(c: seq<Slot>, d: seq<Slot>, p: int, cs: Charset, off: int, rp: seq<int>)
    requires Twins(c, d) && Loaded(c, p, TestCode(cs, false, Off(off)), rp)
    ensures 0 <= p && p + 1 < |d| && d[p].Inst? && HasOff(d, p) && Target(d, p) == p + off
    ensures Stops(d, p) || JumpsTo(d, p, p + off)
  {
    LoadedAt(c, p, TestCode(cs, false, Off(off)), rp, 0);
    LoadedAt(c, p, TestCode(cs, false, Off(off)), rp, 1);
    SameLabel(c, d, p);
    if IsOp(d, p, IJmp) {
      JumpsToSelf(d, p + off);
      JumpFirst(d, p, p + off);
    }
  }

  lemma OpensAfterJumps(d: seq<Slot>, g: seq<Tree>, rp: seq<int>, p: int, l: int, q: int, nullable: bool, depth: nat)
    requires JumpsTo(d, p, l) && Opens(d, g, rp, l, q, nullable, depth)
    ensures Opens(d, g, rp, p, q, nullable, depth)
  {
    var j :| JumpsTo(d, l, j) && OpensAt(d, g, rp, j, q, nullable, depth);
    JumpsTrans(d, p, l, j);
  }

  /** A piece behind a test that may be missing: it opens with the test, or with what follows. */
  lemma TestThen(c: seq<Slot>, d: seq<Slot>, g: seq<Tree>, rp: seq<int>, p: int, f: FirstInfo, l: int, q: int,
                 nullable: bool, depth: nat)
    requires Twins(c, d) && Loaded(c, p, TestCode(f.cs, f.e, Off(l - p)), rp)
    requires f.e ==> Stops(d, p)
    requires Opens(d, g, rp, l, q, nullable, depth)
    ensures Opens(d, g, rp, p, q, nullable, depth)
  {
    hide Opens, TestCode, Twins, Loaded, JumpsTo;
    if f.e { OpensHere(d, g, rp, p, q, nullable, depth); }
    else {
      TestOpens(c, d, p, f.cs, l - p, rp);
      if Stops(d, p) { OpensHere(d, g, rp, p, q, nullable, depth); }
      else { OpensAfterJumps(d, g, rp, p, l, q, nullable, depth); }
    }
  }

  lemma FirstStops(c: seq<Slot>, d: seq<Slot>, rp: seq<int>, b: seq<Slot>, p: int)
    requires Twins(c, d) && Loaded(c, p, b, rp) && |b| > 0
    requires b[0].Inst? && b[0].op !in {IOpenCall, ICall, IJmp}
    ensures Stops(d, p)
  {
    LoadedAt(c, p, b, rp, 0);
    Same(c, d, p);
  }

  lemma OpStops(c: seq<Slot>, d: seq<Slot>, p: int, op: Opcode)
    requires Twins(c, d) && IsOp(c, p, op) && op != ICall && op != IJmp
    ensures Stops(d, p)
  {
    Same(c, d, p);
  }

  /** The jumps at the start of a piece of a rule stay in the piece, leave it at its end only if verifyrule
      reports it nullable, or follow a left call. */
  lemma {:induction false} GenOpens(c: seq<Slot>, d: seq<Slot>, g: seq<Tree>, rp: seq<int>, t: Tree, opt: bool, tt: Test,
                                    fl: Charset, p: int, depth: nat)
    requires Twins(c, d) && WellFormed(g, t) && NoGrammar(t) && |rp| == |g|
    requires Loaded(c, p, Gen(false, g, t, opt, tt, fl), rp)
    requires VerifyRule(g, t, depth, false).Some?
    ensures Opens(d, g, rp, p, p + |Gen(false, g, t, opt, tt, fl)|, VerifyRule(g, t, depth, false).value, depth)
    decreases t, 2
  {
    hide Loaded, ChoiceByTest, ChoiceByChoice, TestDecides, LoopByTest, LoopByChoice, TestEndsLoop, NotByTest,
      NotByChoice, AndByChoice, CloseCalls, TestCode, GetFirst, HeadFailAux, CheckAux, FixedLenX, Opens, Twins;
    var code := Gen(false, g, t, opt, tt, fl);
    var q, v := p + |code|, VerifyRule(g, t, depth, false).value;
    match t
    case TTrue => OpensHere(d, g, rp, p, q, v, depth);
    case TSeq(p1, p2) =>
      var fl1, tt2 := FollowOf(g, p1, p2, fl), TestAfter(g, p1, tt);
      var c1 := Gen(false, g, p1, false, tt, fl1);
      Split(c, p, c1, Gen(false, g, p2, opt, tt2, fl), rp);
      GenOpens(c, d, g, rp, p1, false, tt, fl1, p, depth);
      var n1 := VerifyRule(g, p1, depth, false).value;
      if n1 { GenOpens(c, d, g, rp, p2, opt, tt2, fl, p + |c1|, depth); }
      OpensThrough(d, g, rp, p, p + |c1|, q, n1, v, depth);
    case TChoice(_, _) => ChoiceOpens(c, d, g, rp, t, opt, tt, fl, p, depth);
    case TRep(_) => RepOpens(c, d, g, rp, t, opt, tt, fl, p, depth);
    case TNot(_) => NotOpens(c, d, g, rp, t, opt, tt, fl, p, depth);
    case TAnd(_) => AndOpens(c, d, g, rp, t, opt, tt, fl, p, depth);
    case TCall(r) => CallOpens(c, d, g, rp, t, p, depth);
    case _ => FirstStops(c, d, rp, code, p); OpensHere(d, g, rp, p, q, v, depth);
  }

  lemma {:induction false} ChoiceOpens(c: seq<Slot>, d: seq<Slot>, g: seq<Tree>, rp: seq<int>, t: Tree, opt: bool, tt: Test,
                                       fl: Charset, p: int, depth: nat)
    requires Twins(c, d) && WellFormed(g, t) && NoGrammar(t) && |rp| == |g| && t.TChoice?
    requires Loaded(c, p, Gen(false, g, t, opt, tt, fl), rp)
    requires VerifyRule(g, t, depth, false).Some?
    ensures Opens(d, g, rp, p, p + |Gen(false, g, t, opt, tt, fl)|, VerifyRule(g, t, depth, false).value, depth)
    decreases t, 1
  {
    hide First, TestOf, TestDecides, Stops, Loaded, ChoiceByTest, ChoiceByChoice, JumpsTo, HeadFail, FixedLen,
      Opens, Twins, TestCode, VerifyRule;
    var p1, p2 := t.p1, t.p2;
    var q, v := p + |Gen(false, g, t, opt, tt, fl)|, VerifyRule(g, t, depth, false).value;
    VerifyChoice(g, p1, p2, depth);
    if TestDecides(g, p1, p2, fl) {
      OpensByTest(c, d, g, rp, p1, p2, opt, fl, p, v, depth);
    } else if opt && p2.TTrue? {
      Split(c, p, Jump(IPartialCommit, 2), Gen(false, g, p1, true, NoTest, FULL), rp);
      FirstStops(c, d, rp, Jump(IPartialCommit, 2), p);
      OpensHere(d, g, rp, p, q, v, depth);
    } else {
      OpensByChoice(c, d, g, rp, p1, p2, opt, fl, p, v, depth);
    }
  }

  lemma OpensByTest(c: seq<Slot>, d: seq<Slot>, g: seq<Tree>, rp: seq<int>, p1: Tree, p2: Tree, opt: bool, fl: Charset,
                    p: int, v: bool, depth: nat)
    requires Twins(c, d) && WellFormed(g, p2) && NoGrammar(p2) && |rp| == |g|
    requires VerifyRule(g, p2, depth, false).Some? && (VerifyRule(g, p2, depth, false).value ==> v)
    requires
      var f1 := First(g, p1, FULL);
      Loaded(c, p, ChoiceByTest(f1.cs, Gen(false, g, p1, false, TestOf(f1.cs, false), fl), Gen(false, g, p2, opt, NoTest, fl), p2.TTrue?), rp)
    ensures
      var f1 := First(g, p1, FULL);
      Opens(d, g, rp, p,
            p + |ChoiceByTest(f1.cs, Gen(false, g, p1, false, TestOf(f1.cs, false), fl), Gen(false, g, p2, opt, NoTest, fl), p2.TTrue?)|,
            v, depth)
    decreases TChoice(p1, p2), 0
  {
    EmptyCode(false, g, p2, opt, NoTest, fl);
    hide First, TestOf, Stops, Loaded, ChoiceByTest, JumpsTo, Gen, WellFormed, NoGrammar, Opens, Twins, TestCode,
      VerifyRule;
    var f1 := First(g, p1, FULL);
    var b1, b2 := Gen(false, g, p1, false, TestOf(f1.cs, false), fl), Gen(false, g, p2, opt, NoTest, fl);
    var n, l, q := LayoutChoiceByTest(c, p, f1.cs, b1, b2, p2.TTrue?, rp);
    GenOpens(c, d, g, rp, p2, opt, NoTest, fl, l, depth);
    OpensWeaker(d, g, rp, l, q, VerifyRule(g, p2, depth, false).value, v, depth);
    TestThen(c, d, g, rp, p, FirstInfo(f1.cs, false), l, q, v, depth);
  }

  lemma OpensByChoice(c: seq<Slot>, d: seq<Slot>, g: seq<Tree>, rp: seq<int>, p1: Tree, p2: Tree, opt: bool, fl: Charset,
                      p: int, v: bool, depth: nat)
    requires Twins(c, d) && WellFormed(g, p2) && NoGrammar(p2) && |rp| == |g|
    requires VerifyRule(g, p2, depth, false).Some? && (VerifyRule(g, p2, depth, false).value ==> v)
    requires
      var f1 := First(g, p1, FULL);
      Loaded(c, p, ChoiceByChoice(f1, Gen(false, g, p1, p2.TTrue?, TestOf(f1.cs, f1.e), FULL), Gen(false, g, p2, opt, NoTest, fl)), rp)
    ensures
      var f1 := First(g, p1, FULL);
      Opens(d, g, rp, p,
            p + |ChoiceByChoice(f1, Gen(false, g, p1, p2.TTrue?, TestOf(f1.cs, f1.e), FULL), Gen(false, g, p2, opt, NoTest, fl))|,
            v, depth)
    decreases TChoice(p1, p2), 0
  {
    hide First, TestOf, Stops, Loaded, ChoiceByChoice, JumpsTo, Gen, WellFormed, NoGrammar, Opens, Twins, TestCode,
      VerifyRule;
    var f1 := First(g, p1, FULL);
    var b1, b2 := Gen(false, g, p1, p2.TTrue?, TestOf(f1.cs, f1.e), FULL), Gen(false, g, p2, opt, NoTest, fl);
    var n, k, l, q := LayoutChoice(c, p, f1, b1, b2, rp);
    GenOpens(c, d, g, rp, p2, opt, NoTest, fl, l, depth);
    OpensWeaker(d, g, rp, l, q, VerifyRule(g, p2, depth, false).value, v, depth);
    OpStops(c, d, n, IChoice);
    NoTestCode(f1);
    TestThen(c, d, g, rp, p, f1, l, q, v, depth);
  }

  lemma NoTestCode(f: FirstInfo)
    ensures f.e ==> TestLen(f.cs, f.e) == 0
  {
  }

  lemma VerifyChoice(g: seq<Tree>, p1: Tree, p2: Tree, depth: nat)
    requires VerifyRule(g, TChoice(p1, p2), depth, false).Some?
    ensures VerifyRule(g, p1, depth, false).Some? && VerifyRule(g, p2, depth, false).Some?
    ensures VerifyRule(g, p2, depth, false).value ==> VerifyRule(g, TChoice(p1, p2), depth, false).value
  {
    VerifyFlag(g, p2, depth, VerifyRule(g, p1, depth, false).value);
  }

  lemma OpensWeaker(d: seq<Slot>, g: seq<Tree>, rp: seq<int>, p: int, q: int, n1: bool, n2: bool, depth: nat)
    requires Opens(d, g, rp, p, q, n1, depth) && (n1 ==> n2)
    ensures Opens(d, g, rp, p, q, n2, depth)
  {
    var j :| JumpsTo(d, p, j) && OpensAt(d, g, rp, j, q, n1, depth);
    assert OpensAt(d, g, rp, j, q, n2, depth);
  }

  lemma RepOpens(c: seq<Slot>, d: seq<Slot>, g: seq<Tree>, rp: seq<int>, t: Tree, opt: bool, tt: Test,
                 fl: Charset, p: int, depth: nat)
    requires Twins(c, d) && t.TRep?
    requires Loaded(c, p, Gen(false, g, t, opt, tt, fl), rp)
    requires VerifyRule(g, t, depth, false).Some?
    ensures Opens(d, g, rp, p, p + |Gen(false, g, t, opt, tt, fl)|, VerifyRule(g, t, depth, false).value, depth)
  {
    hide First, TestOf, Loaded, TestEndsLoop, LoopByTest, LoopByChoice, ToCharset, NoFail, Nullable, GetFirst,
      HeadFailAux, CheckAux, FixedLenX, Opens, Twins, TestCode;
    var f, q := First(g, t.p, FULL), p + |Gen(false, g, t, opt, tt, fl)|;
    VerifyFlag(g, t.p, depth, true);
    OpensHere(d, g, rp, q, q, true, depth);
    if ToCharset(t.p).Some? {
      FirstStops(c, d, rp, Gen(false, g, t, opt, tt, fl), p);
      OpensHere(d, g, rp, p, q, true, depth);
    } else if TestEndsLoop(g, t.p, fl) {
      var n, j, q' := LayoutLoopByTest(c, p, f.cs, Gen(false, g, t.p, opt, TestOf(f.cs, false), FULL), rp);
      TestThen(c, d, g, rp, p, FirstInfo(f.cs, false), q, q, true, depth);
    } else {
      var n, k, q' := LayoutLoop(c, p, f, opt, Gen(false, g, t.p, false, NoTest, FULL), rp);
      OpStops(c, d, n, if opt then IPartialCommit else IChoice);
      NoTestCode(f);
      TestThen(c, d, g, rp, p, f, q, q, true, depth);
    }
  }

  lemma NotOpens(c: seq<Slot>, d: seq<Slot>, g: seq<Tree>, rp: seq<int>, t: Tree, opt: bool, tt: Test,
                 fl: Charset, p: int, depth: nat)
    requires Twins(c, d) && t.TNot?
    requires Loaded(c, p, Gen(false, g, t, opt, tt, fl), rp)
    requires VerifyRule(g, t, depth, false).Some?
    ensures Opens(d, g, rp, p, p + |Gen(false, g, t, opt, tt, fl)|, VerifyRule(g, t, depth, false).value, depth)
  {
    hide First, TestOf, Loaded, NotByChoice, HeadFail, Stops, GetFirst, HeadFailAux, CheckAux, FixedLenX, Opens,
      Twins, TestCode;
    var f, q := First(g, t.p, FULL), p + |Gen(false, g, t, opt, tt, fl)|;
    VerifyFlag(g, t.p, depth, true);
    NoTestCode(f);
    OpensHere(d, g, rp, q, q, true, depth);
    if HeadFail(g, t.p) {
      TestSize(f.cs, f.e, TestLen(f.cs, f.e) + 1);
      Split(c, p, TestCode(f.cs, f.e, Off(TestLen(f.cs, f.e) + 1)), [Inst(IFail, 0)], rp);
      FirstStops(c, d, rp, [Inst(IFail, 0)], q - 1);
      TestThen(c, d, g, rp, p, f, q, q, true, depth);
    } else {
      var n, k, q' := LayoutNot(c, p, f, Gen(false, g, t.p, false, NoTest, FULL), rp);
      OpStops(c, d, n, IChoice);
      TestThen(c, d, g, rp, p, f, q, q, true, depth);
    }
  }

  lemma {:induction false} AndOpens(c: seq<Slot>, d: seq<Slot>, g: seq<Tree>, rp: seq<int>, t: Tree, opt: bool, tt: Test,
                                    fl: Charset, p: int, depth: nat)
    requires Twins(c, d) && WellFormed(g, t) && NoGrammar(t) && |rp| == |g| && t.TAnd?
    requires Loaded(c, p, Gen(false, g, t, opt, tt, fl), rp)
    requires VerifyRule(g, t, depth, false).Some?
    ensures Opens(d, g, rp, p, p + |Gen(false, g, t, opt, tt, fl)|, VerifyRule(g, t, depth, false).value, depth)
    decreases t, 0
  {
    hide JumpsTo, TestCode, First, HeadFail, OpensAt, Loaded, FixedLen, AndByChoice, Stops, GetFirst, HeadFailAux,
      CheckAux, FixedLenX, Opens, Twins;
    var n, b := FixedLen(g, t.p), Gen(false, g, t.p, false, tt, FULL);
    var q := p + |Gen(false, g, t, opt, tt, fl)|;
    VerifyFlag(g, t.p, depth, true);
    if 0 <= n <= MAXBEHIND {
      var back := if n > 0 then [Inst(IBehind, n)] else [];
      Split(c, p, b, back, rp);
      GenOpens(c, d, g, rp, t.p, false, tt, FULL, p, depth);
      if n > 0 { FirstStops(c, d, rp, back, p + |b|); }
      OpensHere(d, g, rp, p + |b|, q, true, depth);
      OpensThrough(d, g, rp, p, p + |b|, q, VerifyRule(g, t.p, depth, false).value, true, depth);
    } else {
      var k, q' := LayoutAnd(c, p, b, rp);
      OpStops(c, d, p, IChoice);
      OpensHere(d, g, rp, p, q, true, depth);
    }
  }

  lemma CallOpens(c: seq<Slot>, d: seq<Slot>, g: seq<Tree>, rp: seq<int>, t: Tree, p: int, depth: nat)
    requires Twins(c, d) && t.TCall? && t.rule < |g| == |rp|
    requires Loaded(c, p, [Inst(IOpenCall, t.rule), Hole], rp)
    requires VerifyRule(g, t, depth, false).Some?
    ensures Opens(d, g, rp, p, p + 2, VerifyRule(g, t, depth, false).value, depth)
  {
    CallSlot(c, d, rp, t.rule, p);
    if d[p].op == ICall { OpensHere(d, g, rp, p, p + 2, VerifyRule(g, t, depth, false).value, depth); }
    else {
      JumpsToSelf(d, rp[t.rule]);
      JumpFirst(d, p, rp[t.rule]);
      assert LeftCall(g, t.rule, depth);
      assert OpensAt(d, g, rp, rp[t.rule], p + 2, VerifyRule(g, t, depth, false).value, depth);
    }
  }

  lemma CallSlot(c: seq<Slot>, d: seq<Slot>, rp: seq<int>, r: nat, p: int)
    requires Twins(c, d) && r < |rp| && Loaded(c, p, [Inst(IOpenCall, r), Hole], rp)
    ensures (IsOp(d, p, ICall) || IsOp(d, p, IJmp)) && HasOff(d, p) && Target(d, p) == rp[r]
    ensures d[p + 1].Off?
  {
    LoadedAt(c, p, [Inst(IOpenCall, r), Hole], rp, 0);
    LoadedAt(c, p, [Inst(IOpenCall, r), Hole], rp, 1);
    Same(c, d, p + 1);
    assert d[p] == c[p] || TailCall(c, d, p);
  }

  /** From the start of a verified rule the jumps end: each tail call on the way is a left call. */
  lemma {:induction false} RuleEnds(c: seq<Slot>, d: seq<Slot>, g: seq<Tree>, rp: seq<int>, n: nat, depth: nat)
    requires Twins(c, d) && RulesLoaded(c, g, rp) && n < |g|
    requires forall m :: 0 <= m < |g| ==> NoGrammar(g[m])
    requires VerifyRule(g, g[n], depth, false).Some?
    ensures Ends(d, rp[n])
    decreases depth
  {
    hide Gen, VerifyRule, Loaded, Stops, JumpsTo, Twins;
    var b := Gen(false, g, g[n], false, NoTest, FULL);
    var v := VerifyRule(g, g[n], depth, false).value;
    Split(c, rp[n], b, [Inst(IRet, 0)], rp);
    GenOpens(c, d, g, rp, g[n], false, NoTest, FULL, rp[n], depth);
    var j :| JumpsTo(d, rp[n], j) && OpensAt(d, g, rp, j, rp[n] + |b|, v, depth);
    if !Stops(d, j) {
      if j == rp[n] + |b| && v { FirstStops(c, d, rp, [Inst(IRet, 0)], j); }
      else {
        var m: nat :| LeftCall(g, m, depth) && m < |rp| && rp[m] == j;
        RuleEnds(c, d, g, rp, m, depth - 1);
        var e :| JumpsTo(d, j, e) && Stops(d, e);
        JumpsTrans(d, rp[n], j, e);
      }
    }
  }

  ghost predicate RulesEnd(d: seq<Slot>, g: seq<Tree>, rp: seq<int>) {
    |rp| == |g| && forall n :: 0 <= n < |g| && Used(g, n) ==> Ends(d, rp[n])
  }

  // ----- where all labels of a piece of code lead -----

  /** The jumps at x lead to an instruction or to q. */
  ghost predicate Leads(d: seq<Slot>, x: int, q: int) {
    exists j :: JumpsTo(d, x, j) && (j == q || Stops(d, j))
  }

  ghost predicate Labelled(d: seq<Slot>, k: int) {
    0 <= k < |d| && d[k].Inst? && (HasLabel(d[k].op) || d[k].op == IJmp)
  }

  /** Between p and m, all labels lead to q. */
  ghost predicate LabelsLead(d: seq<Slot>, p: int, m: int, q: int) {
    forall k :: p <= k < m && Labelled(d, k) ==> HasOff(d, k) && Leads(d, Target(d, k), q)
  }

  ghost predicate Region(d: seq<Slot>, p: int, q: int) {
    Leads(d, p, q) && LabelsLead(d, p, q, q)
  }

  lemma LeadsSelf(d: seq<Slot>, x: int, q: int)
    requires x == q || Stops(d, x) || Ends(d, x)
    ensures Leads(d, x, q)
  {
    JumpsToSelf(d, x);
  }

  lemma LeadsTrans(d: seq<Slot>, x: int, m: int, q: int)
    requires Leads(d, x, m) && Leads(d, m, q)
    ensures Leads(d, x, q)
  {
    var j :| JumpsTo(d, x, j) && (j == m || Stops(d, j));
    if !Stops(d, j) {
      var j' :| JumpsTo(d, m, j') && (j' == q || Stops(d, j'));
      JumpsTrans(d, x, m, j');
    }
  }

  lemma LeadsJump(d: seq<Slot>, x: int, q: int)
    requires IsOp(d, x, IJmp) && HasOff(d, x) && Leads(d, Target(d, x), q)
    ensures Leads(d, x, q)
  {
    var j :| JumpsTo(d, Target(d, x), j) && (j == q || Stops(d, j));
    JumpFirst(d, x, j);
  }

  /** The labels of a piece lead on to wherever its end leads. */
  lemma Lift(d: seq<Slot>, p: int, m: int, q: int)
    requires LabelsLead(d, p, m, m) && Leads(d, m, q)
    ensures LabelsLead(d, p, m, q)
  {
    forall k | p <= k < m && Labelled(d, k) ensures HasOff(d, k) && Leads(d, Target(d, k), q) {
      LeadsTrans(d, Target(d, k), m, q);
    }
  }

  lemma RegionJoin(d: seq<Slot>, p: int, m: int, q: int)
    requires Region(d, p, m) && Region(d, m, q)
    ensures Region(d, p, q)
  {
    LeadsTrans(d, p, m, q);
    Lift(d, p, m, q);
  }

  /** A labelled instruction of c, other than a call, at slot k with its label leading to q. */
  lemma LabelLeads(c: seq<Slot>, d: seq<Slot>, k: int, q: int)
    requires Twins(c, d) && 0 <= k < |c| && c[k].Inst? && !IsOp(c, k, ICall) && HasOff(c, k)
    requires Leads(d, Target(c, k), q)
    ensures LabelsLead(d, k, k + 2, q) && (c[k].op == IJmp ==> Leads(d, k, q)) && (c[k].op != IJmp ==> Stops(d, k))
  {
    SameLabel(c, d, k);
    if c[k].op == IJmp { LeadsJump(d, k, q); }
  }

  lemma NoLabels(c: seq<Slot>, d: seq<Slot>, rp: seq<int>, b: seq<Slot>, p: int, q: int)
    requires Twins(c, d) && Loaded(c, p, b, rp)
    requires forall k :: 0 <= k < |b| ==> !b[k].Hole?
    requires forall k :: 0 <= k < |b| && b[k].Inst? ==> !HasLabel(b[k].op) && b[k].op !in {IJmp, IOpenCall}
    ensures LabelsLead(d, p, p + |b|, q)
  {
    forall k | p <= k < p + |b| ensures !Labelled(d, k) {
      LoadedAt(c, p, b, rp, k - p);
      Same(c, d, k);
    }
  }

  lemma PlainRegion(c: seq<Slot>, d: seq<Slot>, rp: seq<int>, b: seq<Slot>, p: int)
    requires Twins(c, d) && Loaded(c, p, b, rp) && |b| > 0 && b[0].Inst?
    requires forall k :: 0 <= k < |b| ==> !b[k].Hole?
    requires forall k :: 0 <= k < |b| && b[k].Inst? ==> !HasLabel(b[k].op) && b[k].op !in {IJmp, IOpenCall}
    ensures Region(d, p, p + |b|)
  {
    NoLabels(c, d, rp, b, p, p + |b|);
    FirstStops(c, d, rp, b, p);
    LeadsSelf(d, p, p + |b|);
  }

  lemma TestSlots(cs: Charset, off: int, k: nat)
    requires 0 < k < |TestCode(cs, false, Off(off))|
    ensures !TestCode(cs, false, Off(off))[k].Inst? && !TestCode(cs, false, Off(off))[k].Hole?
  {
  }

  /** The only label of a test is that of its first slot. */
  lemma TestSlotsLoaded(c: seq<Slot>, d: seq<Slot>, p: int, cs: Charset, off: int, rp: seq<int>, k: int)
    requires Twins(c, d) && Loaded(c, p, TestCode(cs, false, Off(off)), rp)
    requires p < k < p + |TestCode(cs, false, Off(off))|
    ensures !Labelled(d, k)
  {
    TestSlots(cs, off, k - p);
    LoadedAt(c, p, TestCode(cs, false, Off(off)), rp, k - p);
    hide TestCode;
    Same(c, d, k);
  }

  lemma TestLabels(c: seq<Slot>, d: seq<Slot>, p: int, f: FirstInfo, l: int, q: int, rp: seq<int>)
    requires Twins(c, d) && Loaded(c, p, TestCode(f.cs, f.e, Off(l - p)), rp)
    requires Leads(d, l, q)
    requires f.e ==> Leads(d, p, q)
    ensures LabelsLead(d, p, p + TestLen(f.cs, f.e), q) && Leads(d, p, q)
  {
    hide JumpsTo;
    TestSize(f.cs, f.e, l - p);
    if !f.e {
      hide TestCode, Twins, Loaded;
      TestOpens(c, d, p, f.cs, l - p, rp);
      if Stops(d, p) { LeadsSelf(d, p, q); }
      else { LeadsTrans(d, p, l, q); }
      hide Leads, Stops;
      forall k | p <= k < p + TestLen(f.cs, false) && Labelled(d, k) ensures HasOff(d, k) && Leads(d, Target(d, k), q) {
        if k != p { TestSlotsLoaded(c, d, p, f.cs, l - p, rp, k); }
      }
    }
  }

  lemma RegionChoiceByTest(c: seq<Slot>, d: seq<Slot>, rp: seq<int>, p: int, cs: Charset, b1: seq<Slot>, b2: seq<Slot>,
                           empty2: bool)
    requires Twins(c, d) && Loaded(c, p, ChoiceByTest(cs, b1, b2, empty2), rp)
    requires
      var n, l := p + TestLen(cs, false), p + TestLen(cs, false) + |b1| + (if empty2 then 0 else 2);
      Region(d, n, n + |b1|) && Region(d, l, l + |b2|)
    ensures Region(d, p, p + |ChoiceByTest(cs, b1, b2, empty2)|)
  {
    hide TestCode, Leads, Twins;
    var n, l, q := LayoutChoiceByTest(c, p, cs, b1, b2, empty2, rp);
    TestLabels(c, d, p, FirstInfo(cs, false), l, q, rp);
    if !empty2 {
      LeadsSelf(d, q, q);
      LabelLeads(c, d, n + |b1|, q);
    }
    Lift(d, n, n + |b1|, q);
  }

  lemma RegionChoice(c: seq<Slot>, d: seq<Slot>, rp: seq<int>, p: int, f: FirstInfo, b1: seq<Slot>, b2: seq<Slot>)
    requires Twins(c, d) && Loaded(c, p, ChoiceByChoice(f, b1, b2), rp)
    requires
      var n, l := p + TestLen(f.cs, f.e), p + TestLen(f.cs, f.e) + 2 + |b1| + 2;
      Region(d, n + 2, n + 2 + |b1|) && Region(d, l, l + |b2|)
    ensures Region(d, p, p + |ChoiceByChoice(f, b1, b2)|)
  {
    hide TestCode, Leads, Twins;
    var n, k, l, q := LayoutChoice(c, p, f, b1, b2, rp);
    LeadsSelf(d, q, q);
    LabelLeads(c, d, n, q);
    LeadsSelf(d, n, q);
    NoTestCode(f);
    TestLabels(c, d, p, f, l, q, rp);
    LabelLeads(c, d, k, q);
    LeadsSelf(d, k, q);
    Lift(d, n + 2, k, q);
  }

  lemma RegionLoopByTest(c: seq<Slot>, d: seq<Slot>, rp: seq<int>, p: int, cs: Charset, b: seq<Slot>)
    requires Twins(c, d) && Loaded(c, p, LoopByTest(cs, b), rp)
    requires Region(d, p + TestLen(cs, false), p + TestLen(cs, false) + |b|)
    ensures Region(d, p, p + |LoopByTest(cs, b)|)
  {
    hide TestCode, Leads, Twins;
    var n, j, q := LayoutLoopByTest(c, p, cs, b, rp);
    LeadsSelf(d, q, q);
    TestLabels(c, d, p, FirstInfo(cs, false), q, q, rp);
    LabelLeads(c, d, j, q);
    Lift(d, n, j, q);
  }

  lemma RegionLoop(c: seq<Slot>, d: seq<Slot>, rp: seq<int>, p: int, f: FirstInfo, opt: bool, b: seq<Slot>)
    requires Twins(c, d) && Loaded(c, p, LoopByChoice(f, opt, b), rp)
    requires Region(d, p + TestLen(f.cs, f.e) + 2, p + TestLen(f.cs, f.e) + 2 + |b|)
    ensures Region(d, p, p + |LoopByChoice(f, opt, b)|)
  {
    hide TestCode, Leads, Twins;
    var n, k, q := LayoutLoop(c, p, f, opt, b, rp);
    LeadsSelf(d, q, q);
    OpStops(c, d, k, IPartialCommit);
    LeadsSelf(d, k, q);
    LeadsTrans(d, n + 2, k, q);
    LabelLeads(c, d, k, q);
    LabelLeads(c, d, n, q);
    LeadsSelf(d, n, q);
    NoTestCode(f);
    TestLabels(c, d, p, f, q, q, rp);
    Lift(d, n + 2, k, q);
  }

  lemma RegionNot(c: seq<Slot>, d: seq<Slot>, rp: seq<int>, p: int, f: FirstInfo, b: seq<Slot>)
    requires Twins(c, d) && Loaded(c, p, NotByChoice(f, b), rp)
    requires Region(d, p + TestLen(f.cs, f.e) + 2, p + TestLen(f.cs, f.e) + 2 + |b|)
    ensures Region(d, p, p + |NotByChoice(f, b)|)
  {
    hide TestCode, Leads, Twins;
    var n, k, q := LayoutNot(c, p, f, b, rp);
    LeadsSelf(d, q, q);
    OpStops(c, d, k, IFailTwice);
    LeadsSelf(d, k, q);
    LabelLeads(c, d, n, q);
    LeadsSelf(d, n, q);
    NoTestCode(f);
    TestLabels(c, d, p, f, q, q, rp);
    Lift(d, n + 2, k, q);
    Same(c, d, k);
  }

  lemma RegionNotByTest(c: seq<Slot>, d: seq<Slot>, rp: seq<int>, p: int, f: FirstInfo)
    requires Twins(c, d) && Loaded(c, p, NotByTest(f), rp)
    ensures Region(d, p, p + |NotByTest(f)|)
  {
    hide TestCode, Leads, Twins;
    var n := TestLen(f.cs, f.e);
    var q := p + n + 1;
    TestSize(f.cs, f.e, n + 1);
    Split(c, p, TestCode(f.cs, f.e, Off(n + 1)), [Inst(IFail, 0)], rp);
    PlainRegion(c, d, rp, [Inst(IFail, 0)], p + n);
    LeadsSelf(d, q, q);
    NoTestCode(f);
    TestLabels(c, d, p, f, q, q, rp);
  }

  lemma RegionAnd(c: seq<Slot>, d: seq<Slot>, rp: seq<int>, p: int, b: seq<Slot>)
    requires Twins(c, d) && Loaded(c, p, AndByChoice(b), rp)
    requires Region(d, p + 2, p + 2 + |b|)
    ensures Region(d, p, p + |AndByChoice(b)|)
  {
    hide Leads, Twins;
    var k, q := LayoutAnd(c, p, b, rp);
    LeadsSelf(d, q, q);
    OpStops(c, d, q - 1, IFail);
    LeadsSelf(d, q - 1, q);
    LabelLeads(c, d, p, q);
    LeadsSelf(d, p, q);
    LabelLeads(c, d, k, q);
    LeadsSelf(d, k, q);
    Lift(d, p + 2, k, q);
    Same(c, d, q - 1);
  }

  lemma RegionCall(c: seq<Slot>, d: seq<Slot>, rp: seq<int>, p: int, r: nat)
    requires Twins(c, d) && r < |rp| && Loaded(c, p, [Inst(IOpenCall, r), Hole], rp) && Ends(d, rp[r])
    ensures Region(d, p, p + 2)
  {
    CallSlot(c, d, rp, r, p);
    LeadsSelf(d, rp[r], p + 2);
    if IsOp(d, p, IJmp) { LeadsJump(d, p, p + 2); } else { LeadsSelf(d, p, p + 2); }
  }

  /** Calls go to used rules, grammars are accepted. */
  ghost predicate GrammarsOk(g: seq<Tree>, t: Tree)
    decreases t
  {
    match t
    case TRep(p) => GrammarsOk(g, p)
    case TSeq(p1, p2) => GrammarsOk(g, p1) && GrammarsOk(g, p2)
    case TChoice(p1, p2) => GrammarsOk(g, p1) && GrammarsOk(g, p2)
    case TNot(p) => GrammarsOk(g, p)
    case TAnd(p) => GrammarsOk(g, p)
    case TBehind(_, p) => GrammarsOk(g, p)
    case TCall(r) => r < |g| && Used(g, r)
    case TGrammar(rs) => AcceptedGrammar(rs)
    case _ => true
  }

  lemma {:induction false} AcceptableOk(g: seq<Tree>, t: Tree)
    requires Acceptable(g, t)
    ensures GrammarsOk(g, t)
    decreases t
  {
    match t
    case TRep(p) => AcceptableOk(g, p);
    case TSeq(p1, p2) => AcceptableOk(g, p1); AcceptableOk(g, p2);
    case TChoice(p1, p2) => AcceptableOk(g, p1); AcceptableOk(g, p2);
    case TNot(p) => AcceptableOk(g, p);
    case TAnd(p) => AcceptableOk(g, p);
    case TBehind(_, p) => AcceptableOk(g, p);
    case _ =>
  }

  lemma {:induction false} CallsUsedOk(g: seq<Tree>, t: Tree)
    requires CallsUsed(g, t) && NoGrammar(t)
    ensures GrammarsOk(g, t)
    decreases t
  {
    match t
    case TRep(p) => CallsUsedOk(g, p);
    case TSeq(p1, p2) => CallsUsedOk(g, p1); CallsUsedOk(g, p2);
    case TChoice(p1, p2) => CallsUsedOk(g, p1); CallsUsedOk(g, p2);
    case TNot(p) => CallsUsedOk(g, p);
    case TAnd(p) => CallsUsedOk(g, p);
    case TBehind(_, p) => CallsUsedOk(g, p);
    case _ =>
  }

  /** All labels in the code of a pattern lead to an instruction or behind the code. */
  lemma {:induction false} GenRegion(c: seq<Slot>, d: seq<Slot>, g: seq<Tree>, rp: seq<int>, t: Tree, opt: bool, tt: Test,
                                     fl: Charset, p: int)
    requires Twins(c, d) && WellFormed(g, t) && GrammarsOk(g, t) && RulesEnd(d, g, rp)
    requires Loaded(c, p, Gen(false, g, t, opt, tt, fl), rp)
    ensures Region(d, p, p + |Gen(false, g, t, opt, tt, fl)|)
    decreases t, 2
  {
    hide Loaded, ChoiceByTest, ChoiceByChoice, TestDecides, LoopByTest, LoopByChoice, TestEndsLoop, NotByTest,
      NotByChoice, AndByChoice, CloseCalls, Ends, RulesEnd;
    hide GetFirst, HeadFailAux, CheckAux, FixedLenX, Region, Twins, TestCode;
    var code := Gen(false, g, t, opt, tt, fl);
    match t
    case TTrue => EmptyRegion(d, p);
    case TSeq(_, _) => SeqRegion(c, d, g, rp, t, opt, tt, fl, p);
    case TChoice(_, _) => ChoiceRegion(c, d, g, rp, t, opt, tt, fl, p);
    case TRep(_) => RepRegion(c, d, g, rp, t, opt, tt, fl, p);
    case TNot(_) => NotRegion(c, d, g, rp, t, opt, tt, fl, p);
    case TAnd(_) => AndRegion(c, d, g, rp, t, opt, tt, fl, p);
    case TBehind(_, _) => BehindRegion(c, d, g, rp, t, opt, tt, fl, p);
    case TCall(_) => CallRegion(c, d, g, rp, t, p);
    case TGrammar(rs) => GrammarRegion(c, d, rs, rp, p);
    case _ => PlainRegion(c, d, rp, code, p);
  }

  lemma {:induction false} NotRegion(c: seq<Slot>, d: seq<Slot>, g: seq<Tree>, rp: seq<int>, t: Tree, opt: bool, tt: Test,
                                     fl: Charset, p: int)
    requires Twins(c, d) && WellFormed(g, t) && GrammarsOk(g, t) && RulesEnd(d, g, rp) && t.TNot?
    requires Loaded(c, p, Gen(false, g, t, opt, tt, fl), rp)
    ensures Region(d, p, p + |Gen(false, g, t, opt, tt, fl)|)
    decreases t, 0
  {
    hide GetFirst, HeadFailAux, CheckAux, FixedLenX, Region, Twins, TestCode;
    var f := First(g, t.p, FULL);
    if HeadFail(g, t.p) { RegionNotByTest(c, d, rp, p, f); }
    else {
      var b := Gen(false, g, t.p, false, NoTest, FULL);
      var n, k, q := LayoutNot(c, p, f, b, rp);
      GenRegion(c, d, g, rp, t.p, false, NoTest, FULL, n + 2);
      RegionNot(c, d, rp, p, f, b);
    }
  }

  lemma CallRegion(c: seq<Slot>, d: seq<Slot>, g: seq<Tree>, rp: seq<int>, t: Tree, p: int)
    requires Twins(c, d) && t.TCall? && GrammarsOk(g, t) && RulesEnd(d, g, rp)
    requires Loaded(c, p, [Inst(IOpenCall, t.rule), Hole], rp)
    ensures Region(d, p, p + 2)
  {
    RegionCall(c, d, rp, p, t.rule);
  }

  lemma {:induction false} SeqRegion(c: seq<Slot>, d: seq<Slot>, g: seq<Tree>, rp: seq<int>, t: Tree, opt: bool, tt: Test,
                                     fl: Charset, p: int)
    requires Twins(c, d) && WellFormed(g, t) && GrammarsOk(g, t) && RulesEnd(d, g, rp) && t.TSeq?
    requires Loaded(c, p, Gen(false, g, t, opt, tt, fl), rp)
    ensures Region(d, p, p + |Gen(false, g, t, opt, tt, fl)|)
    decreases t, 0
  {
    hide Loaded, FollowOf, TestAfter, GetFirst, HeadFailAux, CheckAux, FixedLenX, Region, Twins, TestCode, Ends,
      RulesEnd;
    var fl1, tt2 := FollowOf(g, t.p1, t.p2, fl), TestAfter(g, t.p1, tt);
    var c1, c2 := Gen(false, g, t.p1, false, tt, fl1), Gen(false, g, t.p2, opt, tt2, fl);
    Split(c, p, c1, c2, rp);
    GenRegion(c, d, g, rp, t.p1, false, tt, fl1, p);
    GenRegion(c, d, g, rp, t.p2, opt, tt2, fl, p + |c1|);
    RegionJoin(d, p, p + |c1|, p + |c1| + |c2|);
  }

  lemma {:induction false} BehindRegion(c: seq<Slot>, d: seq<Slot>, g: seq<Tree>, rp: seq<int>, t: Tree, opt: bool, tt: Test,
                                        fl: Charset, p: int)
    requires Twins(c, d) && WellFormed(g, t) && GrammarsOk(g, t) && RulesEnd(d, g, rp) && t.TBehind?
    requires Loaded(c, p, Gen(false, g, t, opt, tt, fl), rp)
    ensures Region(d, p, p + |Gen(false, g, t, opt, tt, fl)|)
    decreases t, 0
  {
    hide FixedLen, First, HeadFail, Loaded, RulesEnd, GetFirst, HeadFailAux, CheckAux, FixedLenX, Region, Twins,
      TestCode, Ends, RulesEnd;
    var b := Gen(false, g, t.p, false, NoTest, FULL);
    Split(c, p, [Inst(IBehind, t.n)], b, rp);
    PlainRegion(c, d, rp, [Inst(IBehind, t.n)], p);
    GenRegion(c, d, g, rp, t.p, false, NoTest, FULL, p + 1);
    RegionJoin(d, p, p + 1, p + 1 + |b|);
  }

  lemma EmptyRegion(d: seq<Slot>, p: int)
    ensures Region(d, p, p)
  {
    LeadsSelf(d, p, p);
  }

  lemma {:induction false} ChoiceRegion(c: seq<Slot>, d: seq<Slot>, g: seq<Tree>, rp: seq<int>, t: Tree, opt: bool, tt: Test,
                                        fl: Charset, p: int)
    requires Twins(c, d) && WellFormed(g, t) && GrammarsOk(g, t) && RulesEnd(d, g, rp) && t.TChoice?
    requires Loaded(c, p, Gen(false, g, t, opt, tt, fl), rp)
    ensures Region(d, p, p + |Gen(false, g, t, opt, tt, fl)|)
    decreases t, 1
  {
    hide GetFirst, HeadFailAux, CheckAux, FixedLenX, Region, Twins, TestCode, Loaded, RulesEnd, ChoiceByTest,
      ChoiceByChoice, TestDecides;
    var p1, p2 := t.p1, t.p2;
    if TestDecides(g, p1, p2, fl) {
      ChoiceRegionByTest(c, d, g, rp, p1, p2, opt, fl, p);
    } else if opt && p2.TTrue? {
      OptionRegion(c, d, g, rp, p1, p);
    } else {
      ChoiceRegionByChoice(c, d, g, rp, p1, p2, opt, fl, p);
    }
  }

  lemma ChoiceRegionByTest(c: seq<Slot>, d: seq<Slot>, g: seq<Tree>, rp: seq<int>, p1: Tree, p2: Tree, opt: bool,
                           fl: Charset, p: int)
    requires Twins(c, d) && WellFormed(g, p1) && GrammarsOk(g, p1) && WellFormed(g, p2) && GrammarsOk(g, p2) && RulesEnd(d, g, rp)
    requires
      var f1 := First(g, p1, FULL);
      Loaded(c, p, ChoiceByTest(f1.cs, Gen(false, g, p1, false, TestOf(f1.cs, false), fl), Gen(false, g, p2, opt, NoTest, fl), p2.TTrue?), rp)
    ensures
      var f1 := First(g, p1, FULL);
      Region(d, p, p + |ChoiceByTest(f1.cs, Gen(false, g, p1, false, TestOf(f1.cs, false), fl), Gen(false, g, p2, opt, NoTest, fl), p2.TTrue?)|)
    decreases TChoice(p1, p2), 0
  {
    EmptyCode(false, g, p2, opt, NoTest, fl);
    hide Region, Twins, TestCode, Loaded, RulesEnd, WellFormed, GrammarsOk, Gen, First, TestOf, ChoiceByTest;
    var f1 := First(g, p1, FULL);
    var b1, b2 := Gen(false, g, p1, false, TestOf(f1.cs, false), fl), Gen(false, g, p2, opt, NoTest, fl);
    var n, l, q := LayoutChoiceByTest(c, p, f1.cs, b1, b2, p2.TTrue?, rp);
    GenRegion(c, d, g, rp, p1, false, TestOf(f1.cs, false), fl, n);
    GenRegion(c, d, g, rp, p2, opt, NoTest, fl, l);
    RegionChoiceByTest(c, d, rp, p, f1.cs, b1, b2, p2.TTrue?);
  }

  lemma EmptyCode(tl: bool, g: seq<Tree>, t: Tree, opt: bool, tt: Test, fl: Charset)
    ensures t.TTrue? ==> Gen(tl, g, t, opt, tt, fl) == []
  {
  }

  lemma ChoiceRegionByChoice(c: seq<Slot>, d: seq<Slot>, g: seq<Tree>, rp: seq<int>, p1: Tree, p2: Tree, opt: bool,
                             fl: Charset, p: int)
    requires Twins(c, d) && WellFormed(g, p1) && GrammarsOk(g, p1) && WellFormed(g, p2) && GrammarsOk(g, p2) && RulesEnd(d, g, rp)
    requires
      var f1 := First(g, p1, FULL);
      Loaded(c, p, ChoiceByChoice(f1, Gen(false, g, p1, p2.TTrue?, TestOf(f1.cs, f1.e), FULL), Gen(false, g, p2, opt, NoTest, fl)), rp)
    ensures
      var f1 := First(g, p1, FULL);
      Region(d, p, p + |ChoiceByChoice(f1, Gen(false, g, p1, p2.TTrue?, TestOf(f1.cs, f1.e), FULL), Gen(false, g, p2, opt, NoTest, fl))|)
    decreases TChoice(p1, p2), 0
  {
    hide Region, Twins, TestCode, Loaded, RulesEnd, WellFormed, GrammarsOk, Gen, First, TestOf, ChoiceByChoice;
    var f1 := First(g, p1, FULL);
    var b1, b2 := Gen(false, g, p1, p2.TTrue?, TestOf(f1.cs, f1.e), FULL), Gen(false, g, p2, opt, NoTest, fl);
    var n, k, l, q := LayoutChoice(c, p, f1, b1, b2, rp);
    GenRegion(c, d, g, rp, p1, p2.TTrue?, TestOf(f1.cs, f1.e), FULL, n + 2);
    GenRegion(c, d, g, rp, p2, opt, NoTest, fl, l);
    RegionChoice(c, d, rp, p, f1, b1, b2);
  }

  lemma {:induction false} OptionRegion(c: seq<Slot>, d: seq<Slot>, g: seq<Tree>, rp: seq<int>, p1: Tree, p: int)
    requires Twins(c, d) && WellFormed(g, p1) && GrammarsOk(g, p1) && RulesEnd(d, g, rp)
    requires Loaded(c, p, Jump(IPartialCommit, 2) + Gen(false, g, p1, true, NoTest, FULL), rp)
    ensures Region(d, p, p + 2 + |Gen(false, g, p1, true, NoTest, FULL)|)
    decreases p1, 3
  {
    hide Loaded, RulesEnd, Gen, WellFormed, GrammarsOk, Twins, JumpsTo;
    var b := Gen(false, g, p1, true, NoTest, FULL);
    Split(c, p, Jump(IPartialCommit, 2), b, rp);
    LoadedJump(c, p, IPartialCommit, 2, rp);
    GenRegion(c, d, g, rp, p1, true, NoTest, FULL, p + 2);
    LabelLeads(c, d, p, p + 2 + |b|);
    LeadsSelf(d, p, p + 2 + |b|);
  }

  lemma SpanRegion(c: seq<Slot>, d: seq<Slot>, rp: seq<int>, cs: Charset, p: int)
    requires Twins(c, d) && Loaded(c, p, [Inst(ISpan, 0)] + Buffer(cs), rp)
    ensures Region(d, p, p + CHARSETINSTSIZE)
  {
    hide Twins, Loaded, Region;
    PlainRegion(c, d, rp, [Inst(ISpan, 0)] + Buffer(cs), p);
  }

  lemma {:induction false} RepRegion(c: seq<Slot>, d: seq<Slot>, g: seq<Tree>, rp: seq<int>, t: Tree, opt: bool, tt: Test,
                                     fl: Charset, p: int)
    requires Twins(c, d) && WellFormed(g, t) && GrammarsOk(g, t) && RulesEnd(d, g, rp) && t.TRep?
    requires Loaded(c, p, Gen(false, g, t, opt, tt, fl), rp)
    ensures Region(d, p, p + |Gen(false, g, t, opt, tt, fl)|)
    decreases t, 0
  {
    hide First, TestOf, ToCharset, Loaded, RulesEnd, LoopByTest, LoopByChoice, TestEndsLoop, GetFirst, HeadFailAux,
      CheckAux, FixedLenX, Region, Twins, TestCode;
    var f := First(g, t.p, FULL);
    if ToCharset(t.p).Some? {
      SpanRegion(c, d, rp, ToCharset(t.p).value, p);
    } else if TestEndsLoop(g, t.p, fl) {
      var b := Gen(false, g, t.p, opt, TestOf(f.cs, false), FULL);
      var n, j, q := LayoutLoopByTest(c, p, f.cs, b, rp);
      GenRegion(c, d, g, rp, t.p, opt, TestOf(f.cs, false), FULL, n);
      RegionLoopByTest(c, d, rp, p, f.cs, b);
    } else {
      var b := Gen(false, g, t.p, false, NoTest, FULL);
      var n, k, q := LayoutLoop(c, p, f, opt, b, rp);
      GenRegion(c, d, g, rp, t.p, false, NoTest, FULL, n + 2);
      RegionLoop(c, d, rp, p, f, opt, b);
    }
  }

  lemma {:induction false} AndRegion(c: seq<Slot>, d: seq<Slot>, g: seq<Tree>, rp: seq<int>, t: Tree, opt: bool, tt: Test,
                                     fl: Charset, p: int)
    requires Twins(c, d) && WellFormed(g, t) && GrammarsOk(g, t) && RulesEnd(d, g, rp) && t.TAnd?
    requires Loaded(c, p, Gen(false, g, t, opt, tt, fl), rp)
    ensures Region(d, p, p + |Gen(false, g, t, opt, tt, fl)|)
    decreases t, 0
  {
    hide First, TestCode, FixedLen, AndByChoice, RulesEnd, Ends, Loaded;
    hide GetFirst, HeadFailAux, CheckAux, FixedLenX, Region, Twins;
    var n, b := FixedLen(g, t.p), Gen(false, g, t.p, false, tt, FULL);
    if 0 <= n <= MAXBEHIND {
      var back := if n > 0 then [Inst(IBehind, n)] else [];
      Split(c, p, b, back, rp);
      GenRegion(c, d, g, rp, t.p, false, tt, FULL, p);
      if n > 0 {
        PlainRegion(c, d, rp, back, p + |b|);
        RegionJoin(d, p, p + |b|, p + |b| + 1);
      }
    } else {
      var k, q := LayoutAnd(c, p, b, rp);
      GenRegion(c, d, g, rp, t.p, false, tt, FULL, p + 2);
      RegionAnd(c, d, rp, p, b);
    }
  }

  lemma {:induction false} GrammarRegion(c: seq<Slot>, d: seq<Slot>, rs: seq<Tree>, rp: seq<int>, p: int)
    requires Twins(c, d) && WellFormed([], TGrammar(rs)) && AcceptedGrammar(rs)
    requires
      var body := RulesCode(false, rs, |rs|);
      Loaded(c, p, Jump(ICall, 4) + Jump(IJmp, 2 + |body|) + CloseCalls(false, body, RulePositions(false, rs), 0), rp)
    ensures Region(d, p, p + 4 + |RulesCode(false, rs, |rs|)|)
    decreases rs, |rs| + 1
  {
    hide Gen, AcceptedGrammar, WellFormed, Region, Twins, Ends, RulesEnd, CloseCalls;
    var rp' := LayoutGrammar(c, p, rs, rp);
    GrammarRulesEnd(c, d, rs, rp');
    RulesRegion(c, d, rs, rp', |rs|, p + 4);
    HeaderRegion(c, d, p, p + 4 + |RulesCode(false, rs, |rs|)|);
  }

  lemma GrammarRulesEnd(c: seq<Slot>, d: seq<Slot>, rs: seq<Tree>, rp: seq<int>)
    requires Twins(c, d) && AcceptedGrammar(rs) && RulesLoaded(c, rs, rp)
    ensures RulesEnd(d, rs, rp) && Ends(d, rp[0])
  {
    forall n | 0 <= n < |rs| && Used(rs, n) ensures Ends(d, rp[n]) { RuleEnds(c, d, rs, rp, n, MAXRULES); }
    assert Used(rs, 0);
  }

  /** Rule m starts where the code of the rules before it ends. */
  ghost predicate RulesAt(rs: seq<Tree>, rp: seq<int>, at: int) {
    |rp| == |rs| && forall m :: 0 <= m < |rs| ==> rp[m] == at + |RulesCode(false, rs, m)|
  }

  lemma {:induction false} RuleRegion(c: seq<Slot>, d: seq<Slot>, rs: seq<Tree>, rp: seq<int>, n: nat)
    requires Twins(c, d) && AcceptedGrammar(rs) && RulesLoaded(c, rs, rp) && RulesEnd(d, rs, rp) && n < |rs|
    ensures Region(d, rp[n], rp[n] + |Gen(false, rs, rs[n], false, NoTest, FULL)| + 1)
    decreases rs[n], 3
  {
    hide Gen, Region;
    var b, m := Gen(false, rs, rs[n], false, NoTest, FULL), rp[n];
    Split(c, m, b, [Inst(IRet, 0)], rp);
    CalledAreUsed'(rs, n);
    GenRegion(c, d, rs, rp, rs[n], false, NoTest, FULL, m);
    PlainRegion(c, d, rp, [Inst(IRet, 0)], m + |b|);
    RegionJoin(d, m, m + |b|, m + |b| + 1);
  }

  lemma {:induction false} RulesRegion(c: seq<Slot>, d: seq<Slot>, rs: seq<Tree>, rp: seq<int>, n: nat, at: int)
    requires Twins(c, d) && AcceptedGrammar(rs) && RulesLoaded(c, rs, rp) && RulesEnd(d, rs, rp) && n <= |rs|
    requires RulesAt(rs, rp, at)
    ensures Region(d, at, at + |RulesCode(false, rs, n)|)
    decreases rs, n
  {
    hide Region, Twins, Gen, AcceptedGrammar, RulesLoaded, RulesEnd;
    if n == 0 { EmptyRegion(d, at); }
    else {
      RulesRegion(c, d, rs, rp, n - 1, at);
      RuleRegion(c, d, rs, rp, n - 1);
      RegionJoin(d, at, rp[n - 1], at + |RulesCode(false, rs, n)|);
    }
  }

  lemma CalledAreUsed'(rs: seq<Tree>, n: nat)
    requires AcceptedGrammar(rs) && n < |rs|
    ensures GrammarsOk(rs, rs[n])
  {
    CalledAreUsed(rs, rs[n]);
    CallsUsedOk(rs, rs[n]);
  }

  lemma HeaderRegion(c: seq<Slot>, d: seq<Slot>, p: int, q: int)
    requires Twins(c, d) && IsOp(c, p, ICall) && HasOff(c, p) && Target(c, p) == p + 4 && Ends(d, p + 4)
    requires IsOp(c, p + 2, IJmp) && HasOff(c, p + 2) && Target(c, p + 2) == q
    requires Region(d, p + 4, q)
    ensures Region(d, p, q)
  {
    LeadsSelf(d, q, q);
    LabelLeads(c, d, p + 2, q);
    Same(c, d, p + 1);
    LeadsSelf(d, p + 4, q);
    assert d[p] == c[p] || TailCall(c, d, p);
    if IsOp(d, p, IJmp) { LeadsJump(d, p, q); } else { LeadsSelf(d, p, q); }
  }

  /** The two programs for a whole pattern. */
  lemma Programs(t: Tree)
    requires WellFormed([], t)
    ensures
      var c, d := Gen(false, [], t, false, NoTest, FULL), Gen(true, [], t, false, NoTest, FULL);
      && |c| == |d|
      && Twins(c + [Inst(IEnd, 0)], d + [Inst(IEnd, 0)])
      && Loaded(c + [Inst(IEnd, 0)], 0, c, [])
      && Loaded(c + [Inst(IEnd, 0)], |c|, [Inst(IEnd, 0)], [])
  {
    hide Gen, WellFormed, Twins, OpenCallsOk, Aligned, Loaded;
    var c, d := Gen(false, [], t, false, NoTest, FULL), Gen(true, [], t, false, NoTest, FULL);
    GenTwins([], t, false, NoTest, FULL);
    PlainInst(IEnd, 0, 0);
    Join(c, d, [Inst(IEnd, 0)], [Inst(IEnd, 0)], 0);
    SelfLoaded(c + [Inst(IEnd, 0)]);
    Split(c + [Inst(IEnd, 0)], 0, c, [Inst(IEnd, 0)], []);
    TwinSize(c, d, 0);
  }

  /** In a compiled pattern every label leads to an instruction; no chain of jumps is endless. */
  lemma CompiledLabelsEnd(t: Tree)
    requires WellFormed([], t) && Acceptable([], t)
    ensures LabelsEnd(Gen(true, [], t, false, NoTest, FULL) + [Inst(IEnd, 0)])
  {
    hide Gen, Twins, WellFormed, Acceptable;
    var c, d := Gen(false, [], t, false, NoTest, FULL), Gen(true, [], t, false, NoTest, FULL);
    var c', d' := c + [Inst(IEnd, 0)], d + [Inst(IEnd, 0)];
    Programs(t);
    AcceptableOk([], t);
    GenRegion(c', d', [], [], t, false, NoTest, FULL, 0);
    PlainRegion(c', d', [], [Inst(IEnd, 0)], |c|);
    FirstStops(c', d', [], [Inst(IEnd, 0)], |c|);
    LabelsToStop(d', 0, |c|);
    assert forall k :: Labelled(d', k) ==> k < |c|;
  }

  ghost predicate LabelsEndIn(d: seq<Slot>, p: int, q: int) {
    forall k :: p <= k < q && Labelled(d, k) ==> HasOff(d, k) && Ends(d, Target(d, k))
  }

  lemma LabelsToStop(d: seq<Slot>, p: int, q: int)
    requires Region(d, p, q) && Stops(d, q)
    ensures LabelsEndIn(d, p, q)
  {
    forall k | p <= k < q && Labelled(d, k) ensures HasOff(d, k) && Ends(d, Target(d, k)) {
      var j :| JumpsTo(d, Target(d, k), j) && (j == q || Stops(d, j));
    }
  }

  lemma {:induction false} RulesLabelsEnd(c: seq<Slot>, d: seq<Slot>, rs: seq<Tree>, rp: seq<int>, n: nat, at: int)
    requires Twins(c, d) && AcceptedGrammar(rs) && RulesLoaded(c, rs, rp) && RulesEnd(d, rs, rp) && n <= |rs|
    requires RulesAt(rs, rp, at)
    ensures LabelsEndIn(d, at, at + |RulesCode(false, rs, n)|)
    decreases n
  {
    hide Twins, Gen, AcceptedGrammar, RulesEnd, RulesLoaded, Ends;
    if n > 0 {
      RulesLabelsEnd(c, d, rs, rp, n - 1, at);
      RuleLabelsEnd(c, d, rs, rp, n - 1);
    }
  }

  lemma RuleLabelsEnd(c: seq<Slot>, d: seq<Slot>, rs: seq<Tree>, rp: seq<int>, n: nat)
    requires Twins(c, d) && AcceptedGrammar(rs) && RulesLoaded(c, rs, rp) && RulesEnd(d, rs, rp) && n < |rs|
    ensures LabelsEndIn(d, rp[n], rp[n] + |Gen(false, rs, rs[n], false, NoTest, FULL)| + 1)
  {
    hide Gen, AcceptedGrammar, Region, Ends;
    var b, m := Gen(false, rs, rs[n], false, NoTest, FULL), rp[n];
    Split(c, m, b, [Inst(IRet, 0)], rp);
    CalledAreUsed'(rs, n);
    GenRegion(c, d, rs, rp, rs[n], false, NoTest, FULL, m);
    FirstStops(c, d, rp, [Inst(IRet, 0)], m + |b|);
    LabelsToStop(d, m, m + |b|);
    LoadedInst(c, m + |b|, IRet, 0, rp);
    Same(c, d, m + |b|);
  }

  /** The same for the rules of a grammar by themselves, their calls closed. */
  lemma ClosedLabelsEnd(rs: seq<Tree>)
    requires WellFormed([], TGrammar(rs)) && AcceptedGrammar(rs)
    ensures LabelsEnd(CloseCalls(true, RulesCode(true, rs, |rs|), RulePositions(true, rs), 0))
  {
    hide Gen, AcceptedGrammar, CloseCalls, RulesCode, WellFormed, RulesLoaded, LabelsEnd;
    RulesWellFormed(rs);
    ClosedTwins(rs, 0);
    var c := CloseCalls(false, RulesCode(false, rs, |rs|), RulePositions(false, rs), 0);
    var d := CloseCalls(true, RulesCode(true, rs, |rs|), RulePositions(true, rs), 0);
    SelfLoaded(c);
    var rp := RulesInPlace(c, 0, rs, []);
    AllLabelsEnd(c, d, rs, rp);
  }

  lemma RulesWellFormed(rs: seq<Tree>)
    requires WellFormed([], TGrammar(rs))
    ensures forall m :: 0 <= m < |rs| ==> WellFormed(rs, rs[m])
  {
  }

  lemma AllLabelsEnd(c: seq<Slot>, d: seq<Slot>, rs: seq<Tree>, rp: seq<int>)
    requires Twins(c, d) && AcceptedGrammar(rs) && RulesLoaded(c, rs, rp) && RulesAt(rs, rp, 0)
    requires |c| == |RulesCode(false, rs, |rs|)|
    ensures LabelsEnd(d)
  {
    hide AcceptedGrammar, RulesCode, RulesEnd, RulesLoaded, Ends, RulesAt;
    GrammarRulesEnd(c, d, rs, rp);
    RulesLabelsEnd(c, d, rs, rp, |rs|, 0);
    forall k | Labelled(d, k) ensures HasOff(d, k) && Ends(d, Target(d, k)) { assert 0 <= k < |c|; }
  }

  /** x has calls still open that are closed in d; otherwise they are the same. */
  ghost predicate HalfClosed(x: seq<Slot>, d: seq<Slot>) {
    && |x| == |d|
    && (forall k :: 0 <= k < |d| ==> (x[k].Inst? <==> d[k].Inst?))
    && (forall k :: 0 <= k < |d| && IsOp(x, k - 1, IOpenCall) ==> !x[k].Inst?)
    && (forall k :: 0 <= k < |d| ==> d[k] == x[k] || IsOp(x, k, IOpenCall) || IsOp(x, k - 1, IOpenCall))
  }

  /** Before all calls are closed, jumps end at least as soon: at an open call, if not later. */
  lemma {:induction false} EndsBefore(x: seq<Slot>, d: seq<Slot>, i: int, j: int, n: nat)
    requires HalfClosed(x, d) && JumpsIn(d, i, j, n) && Stops(d, j)
    ensures Ends(x, i)
    decreases n
  {
    JumpsToSelf(x, i);
    if n > 0 && !IsOp(x, i, IOpenCall) {
      assert d[i] == x[i] && d[i + 1] == x[i + 1];
      EndsBefore(x, d, Target(d, i), j, n - 1);
      var e :| JumpsTo(x, Target(d, i), e) && Stops(x, e);
      JumpFirst(x, i, e);
    }
  }

  /** From slot i on, open calls and holes come in pairs. */
  ghost predicate OpenFrom(c: seq<Slot>, n: nat, i: nat) {
    && (forall k :: i <= k < |c| && IsOp(c, k, IOpenCall) ==> k + 1 < |c| && c[k + 1].Hole? && 0 <= c[k].arg < n)
    && (forall k :: i <= k < |c| && c[k].Hole? ==> k > i && IsOp(c, k - 1, IOpenCall))
  }

  /** Once the call at i is closed, the open calls behind it are still in order. */
  lemma OpenBehind(c: seq<Slot>, c': seq<Slot>, n: nat, i: nat)
    requires OpenFrom(c, n, i) && IsOp(c, i, IOpenCall) && |c'| == |c|
    requires forall k :: i + 2 <= k < |c| ==> c'[k] == c[k]
    ensures i + 1 < |c| && c[i + 1].Hole? && 0 <= c[i].arg < n && OpenFrom(c', n, i + 2)
  {
    forall k | i + 2 <= k < |c| && c'[k].Hole? ensures k > i + 2 && IsOp(c', k - 1, IOpenCall) {
      assert c[k].Hole?;
    }
    forall k | i + 2 <= k < |c| && IsOp(c', k, IOpenCall) ensures k + 1 < |c| && c'[k + 1].Hole? && 0 <= c'[k].arg < n {
      assert IsOp(c, k, IOpenCall);
    }
  }

  lemma OpenNext(c: seq<Slot>, n: nat, i: nat)
    requires OpenFrom(c, n, i) && i < |c| && !IsOp(c, i, IOpenCall)
    ensures OpenFrom(c, n, i + 1)
  {
    forall k | i + 1 <= k < |c| && c[k].Hole? ensures k > i + 1 && IsOp(c, k - 1, IOpenCall) {}
  }

  ghost predicate ClosedAt(c: seq<Slot>, r: seq<Slot>, i: int, k: int) {
    0 <= k < |c| == |r| && (r[k].Inst? <==> c[k].Inst?) &&
    (r[k] == c[k] || (k >= i && (IsOp(c, k, IOpenCall) || (k > i && IsOp(c, k - 1, IOpenCall)))))
  }

  /** Closing from slot i on leaves the slots before it, and changes open calls and their holes only. */
  lemma {:induction false} CloseChanges(tl: bool, c: seq<Slot>, pos: seq<int>, i: nat)
    requires i <= |c| && OpenFrom(c, |pos|, i)
    ensures forall k :: 0 <= k < |c| ==> ClosedAt(c, CloseCalls(tl, c, pos, i), i, k)
    decreases |c| - i
  {
    hide LeadsToRet, OpenFrom, ClosedAt;
    var r := CloseCalls(tl, c, pos, i);
    if i < |c| && IsOp(c, i, IOpenCall) {
      OpenBehind(c, c, |pos|, i);
      var op := if tl && LeadsToRet(c, i + 2) then IJmp else ICall;
      var c' := c[i := Inst(op, c[i].arg)][i + 1 := Off(pos[c[i].arg] - i)];
      OpenBehind(c, c', |pos|, i);
      CloseChanges(tl, c', pos, i + 2);
      assert r == CloseCalls(tl, c', pos, i + 2);
      forall k | 0 <= k < |c| ensures ClosedAt(c, r, i, k) { ClosedAtCall(c, c', r, i, k); }
    } else if i < |c| {
      OpenNext(c, |pos|, i);
      CloseChanges(tl, c, pos, i + 1);
      assert r == CloseCalls(tl, c, pos, i + 1);
      forall k | 0 <= k < |c| ensures ClosedAt(c, r, i, k) { ClosedAtNext(c, r, i, k); }
    } else {
      forall k | 0 <= k < |c| ensures ClosedAt(c, r, i, k) { ClosedAtSelf(c, i, k); }
    }
  }

  lemma ClosedAtCall(c: seq<Slot>, c': seq<Slot>, r: seq<Slot>, i: nat, k: int)
    requires IsOp(c, i, IOpenCall) && i + 1 < |c| == |c'| && c[i + 1].Hole? && c'[i].Inst? && c'[i + 1].Off?
    requires forall m :: 0 <= m < |c| && m != i && m != i + 1 ==> c'[m] == c[m]
    requires ClosedAt(c', r, i + 2, k)
    ensures ClosedAt(c, r, i, k)
  {
  }

  lemma ClosedAtNext(c: seq<Slot>, r: seq<Slot>, i: nat, k: int)
    requires ClosedAt(c, r, i + 1, k)
    ensures ClosedAt(c, r, i, k)
  {
  }

  lemma ClosedAtSelf(c: seq<Slot>, i: nat, k: int)
    requires 0 <= k < |c|
    ensures ClosedAt(c, c, i, k)
  {
  }

  /** Slots that hold no open call are passed over. */
  lemma {:induction false} SkipSlots(tl: bool, c: seq<Slot>, pos: seq<int>, i: nat, j: nat)
    requires i <= j <= |c| && forall k :: i <= k < j ==> !IsOp(c, k, IOpenCall)
    ensures CloseCalls(tl, c, pos, i) == CloseCalls(tl, c, pos, j)
    decreases j - i
  {
    if i < j { SkipSlots(tl, c, pos, i + 1, j); }
  }

  lemma EndsMove(x: seq<Slot>, code: seq<Slot>, m: int, i: int)
    requires Ends(x, i) && 0 <= m && m + |x| <= |code| && forall k :: 0 <= k < |x| ==> code[m + k] == x[k]
    ensures Ends(code, m + i)
    ensures LeadsToRet(x, i) <==> exists j :: JumpsTo(code, m + i, j) && IsOp(code, j, IRet)
  {
    var j :| JumpsTo(x, i, j) && Stops(x, j);
    var n: nat :| JumpsIn(x, i, j, n);
    JumpsMove(x, code, m, i, j, n);
    assert JumpsTo(code, m + i, m + j) && Stops(code, m + j);
    if LeadsToRet(x, i) { LeadsMove(x, code, m, i); }
    if j' :| JumpsTo(code, m + i, j') && IsOp(code, j', IRet) {
      SameEnd(code, m + i, m + j, j');
      assert IsOp(x, j, IRet);
    }
  }

  lemma SameEnd(c: seq<Slot>, x: int, j: int, j': int)
    requires JumpsTo(c, x, j) && JumpsTo(c, x, j') && !IsOp(c, j, IJmp) && !IsOp(c, j', IJmp)
    ensures j == j'
  {
    var n: nat :| JumpsIn(c, x, j, n);
    var n': nat :| JumpsIn(c, x, j', n');
    JumpsPrefix(c, x, j, j', n, n');
    JumpsPrefix(c, x, j', j, n', n);
  }

  // ----- one step of correctcalls -----

  lemma RulesOpen(rs: seq<Tree>)
    requires |rs| > 0 && forall m :: 0 <= m < |rs| ==> WellFormed(rs, rs[m])
    ensures
      var body := RulesCode(true, rs, |rs|);
      OpenFrom(body, |rs|, 0) && Aligned(body) && IsOp(body, |body| - 1, IRet) && body[0].Inst?
  {
    hide Gen, LeadsToRet;
    RulesTwins(rs, |rs|);
    TwinsOpen(RulesCode(false, rs, |rs|), RulesCode(true, rs, |rs|), |rs|);
  }

  lemma TwinsOpen(c: seq<Slot>, d: seq<Slot>, n: nat)
    requires OpenTwins(c, d, n)
    ensures OpenFrom(d, n, 0) && Aligned(d)
  {
    hide LeadsToRet, Aligned;
    AlignedSame(c, d);
    forall k | 0 <= k < |d| ensures IsOp(d, k, IOpenCall) == IsOp(c, k, IOpenCall) && d[k].Hole? == c[k].Hole? {
      assert d[k] == c[k] || TailCall(c, d, k);
    }
    forall k | 0 <= k < |d| && IsOp(d, k, IOpenCall) ensures k + 1 < |d| && d[k + 1].Hole? && 0 <= d[k].arg < n {
      assert IsOp(c, k, IOpenCall);
    }
    forall k | 0 <= k < |d| && d[k].Hole? ensures k > 0 && IsOp(d, k - 1, IOpenCall) {
      assert c[k].Hole?;
      assert IsOp(c, k - 1, IOpenCall);
    }
  }

  lemma NextInstruction(x: seq<Slot>, k: int)
    requires Aligned(x) && 0 <= k < |x| && x[k].Inst?
    ensures var e := k + SizeI(x[k].op); e <= |x| && (e < |x| ==> x[e].Inst?)
    ensures forall m :: k < m < k + SizeI(x[k].op) ==> !IsOp(x, m, IOpenCall)
  {
    assert AlignedAt(x, k);
  }

  lemma CallIsFollowed(x: seq<Slot>, n: nat, k: nat)
    requires OpenFrom(x, n, k) && Aligned(x) && k < |x| && IsOp(x, k, IOpenCall) && x[|x| - 1].Inst?
    ensures k + 2 < |x| && x[k + 2].Inst? && x[k + 1].Hole? && 0 <= x[k].arg < n
  {
    assert SizeI(IOpenCall) == 2;
    hide SizeI, AlignedAt;
    NextInstruction(x, k);
  }

  /** From any instruction the jumps end, even while calls are still open. */
  lemma EndsAnywhere(x: seq<Slot>, d: seq<Slot>, i: int)
    requires LabelsEnd(d) && HalfClosed(x, d) && 0 <= i < |x| && x[i].Inst?
    ensures Ends(x, i)
  {
    JumpsToSelf(d, i);
    var j := i;
    if IsOp(d, i, IJmp) {
      j :| JumpsTo(d, Target(d, i), j) && Stops(d, j);
      JumpFirst(d, i, j);
    }
    var n: nat :| JumpsIn(d, i, j, n);
    EndsBefore(x, d, i, j, n);
  }

  lemma ReturnOrNot(x: seq<Slot>, code: seq<Slot>, m: int, i: int, t: int)
    requires Ends(x, i) && 0 <= m && m + |x| <= |code| && forall k :: 0 <= k < |x| ==> code[m + k] == x[k]
    requires JumpsTo(code, m + i, t) && Stops(code, t)
    ensures IsOp(code, t, IRet) == LeadsToRet(x, i)
  {
    EndsMove(x, code, m, i);
    if j :| JumpsTo(code, m + i, j) && IsOp(code, j, IRet) { SameEnd(code, m + i, t, j); }
  }

  lemma CloseStep(x: seq<Slot>, d: seq<Slot>, pos: seq<int>, k: nat, op: Opcode) returns (x': seq<Slot>)
    requires OpenFrom(x, |pos|, k) && Aligned(x) && HalfClosed(x, d) && CloseCalls(true, x, pos, k) == d
    requires k + 2 < |x| && IsOp(x, k, IOpenCall) && x[k + 1].Hole? && 0 <= x[k].arg < |pos|
    requires op == if LeadsToRet(x, k + 2) then IJmp else ICall
    ensures x' == x[k := Inst(op, x[k].arg)][k + 1 := Off(pos[x[k].arg] - k)]
    ensures OpenFrom(x', |pos|, k + 2) && Aligned(x') && HalfClosed(x', d) && CloseCalls(true, x', pos, k + 2) == d
  {
    hide LeadsToRet, Aligned;
    x' := x[k := Inst(op, x[k].arg)][k + 1 := Off(pos[x[k].arg] - k)];
    assert CloseCalls(true, x', pos, k + 2) == d;
    AlignedSame(x, x');
    forall m ensures m != k && m != k + 1 ==> IsOp(x', m, IOpenCall) == IsOp(x, m, IOpenCall) {}
    CloseChanges(true, x', pos, k + 2);
    assert ClosedAt(x', d, k + 2, k) && ClosedAt(x', d, k + 2, k + 1);
    StepHalfClosed(x, x', d, k);
  }

  lemma StepHalfClosed(x: seq<Slot>, x': seq<Slot>, d: seq<Slot>, k: nat)
    requires HalfClosed(x, d) && k + 1 < |x| && |x'| == |x|
    requires x'[k].Inst? && x[k].Inst? && !x'[k + 1].Inst? && !x[k + 1].Inst? && !IsOp(x', k, IOpenCall)
    requires forall m :: 0 <= m < |x| && m != k && m != k + 1 ==> x'[m] == x[m]
    requires d[k] == x'[k] && d[k + 1] == x'[k + 1]
    ensures HalfClosed(x', d)
  {
    forall m | 0 <= m < |d| ensures d[m] == x'[m] || IsOp(x', m, IOpenCall) || IsOp(x', m - 1, IOpenCall) {
      if m != k && m != k + 1 {
        assert d[m] == x[m] || IsOp(x, m, IOpenCall) || IsOp(x, m - 1, IOpenCall);
        if IsOp(x, m - 1, IOpenCall) && m - 1 != k { assert m - 1 != k + 1; }
      }
    }
    forall m | 0 <= m < |d| && IsOp(x', m - 1, IOpenCall) ensures !x'[m].Inst? {
      assert m - 1 != k && m - 1 != k + 1;
      assert IsOp(x, m - 1, IOpenCall);
    }
  }

  lemma StartHalfClosed(x: seq<Slot>, pos: seq<int>)
    requires OpenFrom(x, |pos|, 0)
    ensures HalfClosed(x, CloseCalls(true, x, pos, 0))
  {
    CloseChanges(true, x, pos, 0);
    var r := CloseCalls(true, x, pos, 0);
    forall k | 0 <= k < |r| ensures r[k] == x[k] || IsOp(x, k, IOpenCall) || IsOp(x, k - 1, IOpenCall) {
      assert ClosedAt(x, r, 0, k);
    }
    forall k | 0 <= k < |r| ensures r[k].Inst? == x[k].Inst? { assert ClosedAt(x, r, 0, k); }
    forall k | 0 <= k < |x| && IsOp(x, k - 1, IOpenCall) ensures !x[k].Inst? {
      assert IsOp(x, k - 1, IOpenCall);
    }
  }

  /** Calls are closed in x up to slot k; closing the others gives d. */
  ghost predicate Closing(x: seq<Slot>, d: seq<Slot>, pos: seq<int>, k: nat) {
    && HalfClosed(x, d) && OpenFrom(x, |pos|, k) && Aligned(x) && k <= |x| && LabelsEnd(d)
    && CloseCalls(true, x, pos, k) == d
    && |x| > 0 && x[|x| - 1].Inst? && (k < |x| ==> x[k].Inst?)
  }

  lemma ClosingStarts(rs: seq<Tree>)
    requires WellFormed([], TGrammar(rs)) && AcceptedGrammar(rs)
    ensures
      var body, pos := RulesCode(true, rs, |rs|), RulePositions(true, rs);
      Closing(body, CloseCalls(true, body, pos, 0), pos, 0)
  {
    hide Gen, AcceptedGrammar, RulesCode, CloseCalls, Aligned, LabelsEnd, HalfClosed, OpenFrom;
    RulesWellFormed(rs);
    RulesOpen(rs);
    ClosedLabelsEnd(rs);
    StartHalfClosed(RulesCode(true, rs, |rs|), RulePositions(true, rs));
  }

  lemma ClosingCall(x: seq<Slot>, d: seq<Slot>, pos: seq<int>, k: nat)
    requires Closing(x, d, pos, k) && k < |x| && IsOp(x, k, IOpenCall)
    ensures k + 2 < |x| && 0 <= x[k].arg < |pos| && Ends(x, k + 2)
    ensures
      var op := if LeadsToRet(x, k + 2) then IJmp else ICall;
      Closing(x[k := Inst(op, x[k].arg)][k + 1 := Off(pos[x[k].arg] - k)], d, pos, k + 2)
  {
    hide LeadsToRet, LabelsEnd, HalfClosed, CloseCalls, Aligned, OpenFrom, Ends;
    CallIsFollowed(x, |pos|, k);
    EndsAnywhere(x, d, k + 2);
    var x' := CloseStep(x, d, pos, k, if LeadsToRet(x, k + 2) then IJmp else ICall);
  }

  lemma EndsInside(front: seq<Slot>, x: seq<Slot>, k: nat)
    requires Ends(x, k)
    ensures Ends(front + x, |front| + k)
  {
    EndsMove(x, front + x, |front|, k);
  }

  lemma ReturnInside(front: seq<Slot>, x: seq<Slot>, k: nat, t: int)
    requires Ends(x, k) && JumpsTo(front + x, |front| + k, t) && Stops(front + x, t)
    ensures IsOp(front + x, t, IRet) == LeadsToRet(x, k)
  {
    ReturnOrNot(x, front + x, |front|, k, t);
  }

  lemma UpdateInside(front: seq<Slot>, x: seq<Slot>, k: nat, a: Slot, b: Slot)
    requires k + 1 < |x|
    ensures (front + x)[|front| + k := a][|front| + k + 1 := b] == front + x[k := a][k + 1 := b]
  {
  }

  lemma ClosingNext(x: seq<Slot>, d: seq<Slot>, pos: seq<int>, k: nat)
    requires Closing(x, d, pos, k) && k < |x| && !IsOp(x, k, IOpenCall)
    ensures Closing(x, d, pos, k + SizeI(x[k].op))
  {
    hide Aligned, SizeI, LabelsEnd, HalfClosed, CloseCalls, LeadsToRet;
    var e := k + SizeI(x[k].op);
    NextInstruction(x, k);
    SkipSlots(true, x, pos, k, e);
    forall m | e <= m < |x| && x[m].Hole? ensures m > e && IsOp(x, m - 1, IOpenCall) {
      assert IsOp(x, m - 1, IOpenCall);
    }
  }

  /** A program without open calls is loaded as it is. */
  lemma SelfLoaded(c: seq<Slot>)
    requires OpenCallsOk(c, 0)
    ensures Loaded(c, 0, c, [])
  {
    forall k | 0 <= k < |c| ensures SlotLoaded(c, 0 + k, c[k], []) {
      assert !IsOp(c, k, IOpenCall) && !c[k].Hole?;
    }
  }
}
