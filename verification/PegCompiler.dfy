/** The code generator itself: it appends to the code and patches offsets in place. */
module PegCompiler {
  import opened PegTree
  import opened PegAnalysis
  import opened PegMachine
  import opened PegCode
  import opened PegBlocks
  import opened PegClose
  import opened PegThread
  import opened PegPass
  import opened PegVerify
  import opened PegJumps
  import opened PegCharset

  const NOINST := -1

  /** Slot tt of the code is the test instruction that test stands for (tt < 0: no test). */
  ghost predicate TestIs(code: seq<Slot>, tt: int, test: Test) {
    if tt < 0 then test == NoTest
    else
      && tt + 1 < |code| && code[tt].Inst?
      && (match test
          case NoTest => code[tt].op == IJmp || code[tt].op == ITestAny
          case Tested(cs) =>
            (ClassOf(cs).CSingle? && code[tt] == Inst(ITestChar, ClassOf(cs).c)) ||
            (ClassOf(cs).COther? && code[tt] == Inst(ITestSet, 0) && BufferAt(code, tt + 2, cs)))
  }

  ghost predicate BufferAt(code: seq<Slot>, p: int, cs: Charset) {
    0 <= p && p + 8 <= |code| && forall j :: 0 <= j < 8 ==> code[p + j] == Buf(Part(cs, j))
  }

  lemma TestStays(code: seq<Slot>, code': seq<Slot>, tt: int, test: Test)
    requires TestIs(code, tt, test) && |code| <= |code'|
    requires forall k :: 0 <= k < |code| && !code[k].Hole? && !code[k].Off? ==> code'[k] == code[k]
    ensures TestIs(code', tt, test)
  {
    if test.Tested? && ClassOf(test.cs).COther? && tt >= 0 {
      forall j | 0 <= j < 8 ensures code'[tt + 2 + j] == Buf(Part(test.cs, j)) {
        assert code[tt + 2 + j] == Buf(Part(test.cs, j));
      }
    }
  }

  /** Parts of sets determine the sets. */
  lemma PartsEqual(a: Charset, b: Charset)
    ensures a == b <==> forall j :: 0 <= j < 8 ==> Part(a, j) == Part(b, j)
  {
    if forall j :: 0 <= j < 8 ==> Part(a, j) == Part(b, j) {
      forall c: Byte ensures c in a <==> c in b {
        assert Part(a, c / 32) == Part(b, c / 32);
        assert c in Part(a, c / 32) <==> c in a;
        assert c in Part(b, c / 32) <==> c in b;
      }
    }
  }

  lemma UntestedIs(code: seq<Slot>)
    ensures TestIs(code, NOINST, NoTest)
  {
  }

  lemma TestCodeIs(code: seq<Slot>, cs: Charset, off: Slot)
    ensures TestIs(code + TestCode(cs, false, off), |code|, TestOf(cs, false))
  {
    var code' := code + TestCode(cs, false, off);
    if ClassOf(cs).COther? {
      forall j | 0 <= j < 8 ensures code'[|code| + 2 + j] == Buf(Part(cs, j)) {
        assert code'[|code| + 2 + j] == Buffer(cs)[j];
      }
    }
  }

  class Compiler {
    var code: seq<Slot>

    constructor ()
      ensures code == []
    {
      code := [];
    }

    method AddInstruction(op: Opcode, arg: int) returns (i: int)
      modifies this
      ensures i == |old(code)| && code == old(code) + [Inst(op, arg)]
    {
      i := |code|;
      code := code + [Inst(op, arg)];
    }

    method AddOffsetInst(op: Opcode) returns (i: int)
      modifies this
      ensures i == |old(code)| && code == old(code) + [Inst(op, 0), Hole]
    {
      i := AddInstruction(op, 0);
      code := code + [Hole];
    }

    method SetOffset(instruction: int, offset: int)
      requires 0 <= instruction && instruction + 1 < |code|
      modifies this
      ensures code == old(code)[instruction + 1 := Off(offset)]
    {
      code := code[instruction + 1 := Off(offset)];
    }

    method JumpToThere(instruction: int, target: int)
      requires instruction + 1 < |code|
      modifies this
      ensures code == if instruction >= 0 then old(code)[instruction + 1 := Off(target - instruction)] else old(code)
    {
      if instruction >= 0 { SetOffset(instruction, target - instruction); }
    }

    method JumpToHere(instruction: int)
      requires instruction + 1 < |code|
      modifies this
      ensures code == if instruction >= 0 then old(code)[instruction + 1 := Off(|code| - instruction)] else old(code)
    {
      JumpToThere(instruction, |code|);
    }

    method CodeChar(c: Byte, tt: int, ghost test: Test)
      requires TestIs(code, tt, test)
      modifies this
      ensures code == old(code) + CharCode(c, test)
    {
      if test.Tested? { ClassIs(test.cs); SingleClass(c); }
      if tt >= 0 && code[tt].op == ITestChar && code[tt].arg == c {
        var _ := AddInstruction(IAny, 0);
      } else {
        var _ := AddInstruction(IChar, c);
      }
    }

    method AddCharset(cs: Charset)
      modifies this
      ensures code == old(code) + Buffer(cs)
    {
      var j := 0;
      while j < CHARSETINSTSIZE - 1
        invariant 0 <= j <= CHARSETINSTSIZE - 1
        invariant code == old(code) + Buffer(cs)[..j]
      {
        code := code + [Buf(Part(cs, j))];
        j := j + 1;
      }
    }

    /** cs_equal on the buffer of the test at tt. */
    method SameSet(cs: Charset, p: int, ghost cs': Charset) returns (r: bool)
      requires BufferAt(code, p, cs')
      ensures r == (cs == cs')
    {
      PartsEqual(cs, cs');
      var j := 0;
      while j < CHARSETINSTSIZE - 1
        invariant 0 <= j <= 8
        invariant forall k :: 0 <= k < j ==> Part(cs, k) == Part(cs', k)
      {
        if code[p + j] != Buf(Part(cs, j)) { return false; }
        j := j + 1;
      }
      return true;
    }

    method CodeCharset(cs: Charset, tt: int, ghost test: Test)
      requires TestIs(code, tt, test)
      modifies this
      ensures code == old(code) + SetCode(cs, test)
    {
      hide Buffer, BufferAt;
      var kind := CharsetType(cs);
      match kind
      case CSingle(c) => CodeChar(c, tt, test);
      case COther =>
        if test.Tested? { ClassIs(test.cs); }
        var same := false;
        if tt >= 0 && code[tt].op == ITestSet { same := SameSet(cs, tt + 2, test.cs); }
        if same {
          var _ := AddInstruction(IAny, 0);
        } else {
          var _ := AddInstruction(ISet, 0);
          AddCharset(cs);
        }
      case CEmpty => var _ := AddInstruction(IFail, 0);
      case CAll => var _ := AddInstruction(IAny, 0);
    }

    method CodeTestSet(cs: Charset, e: bool) returns (i: int)
      modifies this
      ensures i == if e then NOINST else |old(code)|
      ensures code == old(code) + TestCode(cs, e, Hole)
      ensures TestIs(code, i, TestOf(cs, e))
    {
      if e { return NOINST; }
      var kind := CharsetType(cs);
      match kind
      case CEmpty => i := AddOffsetInst(IJmp);
      case CAll => i := AddOffsetInst(ITestAny);
      case CSingle(c) =>
        i := AddOffsetInst(ITestChar);
        code := code[i := Inst(ITestChar, c)];
      case COther =>
        i := AddOffsetInst(ITestSet);
        AddCharset(cs);
      TestCodeIs(old(code), cs, Hole);
    }

    /** Follow jumps until an instruction that is none. */
    method FinalTarget(from: int) returns (i: int)
      requires Ends(code, from)
      ensures JumpsTo(code, from, i) && Stops(code, i)
    {
      i := from;
      ghost var j :| JumpsTo(code, from, j) && Stops(code, j);
      ghost var n: nat :| JumpsIn(code, from, j, n);
      JumpsToSelf(code, from);
      while IsOp(code, i, IJmp)
        invariant JumpsIn(code, i, j, n) && JumpsTo(code, from, i)
        decreases n
      {
        ghost var t := Target(code, i);
        assert JumpsIn(code, i, t, 1) by { assert JumpsIn(code, t, t, 0); }
        assert JumpsTo(code, i, t);
        JumpsTrans(code, from, i, t);
        i := Target(code, i);
        n := n - 1;
      }
    }

    method FinalLabel(p: int) returns (i: int)
      requires HasOff(code, p) && Ends(code, Target(code, p))
      ensures JumpsTo(code, Target(code, p), i) && Stops(code, i)
    {
      i := FinalTarget(Target(code, p));
    }

    // ----- code generation -----

    method CodeGen(g: seq<Tree>, t: Tree, opt: bool, tt: int, fl: Charset, ghost test: Test)
      requires WellFormed(g, t) && GrammarsOk(g, t) && TestIs(code, tt, test)
      modifies this
      ensures code == old(code) + Gen(true, g, t, opt, test, fl)
      decreases t, 4
    {
      hide Nullable, NoFail, RulesCode, RulePositions, Buffer, SetCode, CharCode, AcceptedGrammar, First, HeadFail,
        FixedLen, Reaches, GetFirst, HeadFailAux, CheckAux, FixedLenX, ChoiceByTest, ChoiceByChoice, LoopByTest,
        LoopByChoice, NotByTest, NotByChoice, AndByChoice, TestDecides, TestEndsLoop, TestIs, TestOf, CloseCalls;
      match t
      case TChar(c) => CodeChar(c, tt, test);
      case TAny => var _ := AddInstruction(IAny, 0);
      case TSet(cs) => CodeCharset(cs, tt, test);
      case TTrue =>
      case TFalse => var _ := AddInstruction(IFail, 0);
      case TChoice(p1, p2) => CodeChoice(g, p1, p2, opt, fl, test);
      case TRep(p) => CodeRep(g, p, opt, fl, test);
      case TBehind(_, _) => CodeBehind(g, t, test);
      case TNot(p) => CodeNot(g, p, test);
      case TAnd(p) => CodeAnd(g, p, tt, test);
      case TGrammar(rs) => CodeGrammar(rs);
      case TCall(r) => CodeCall(r);
      case TSeq(p1, p2) =>
        var tt2 := CodeSeq1(g, p1, p2, tt, fl, test);
        CodeGen(g, p2, opt, tt2, fl, TestAfter(g, p1, test));
    }

    /** Code the first pattern of a sequence; the result is the test that still protects the second. */
    method CodeSeq1(g: seq<Tree>, p1: Tree, p2: Tree, tt: int, fl: Charset, ghost test: Test) returns (tt2: int)
      requires WellFormed(g, p1) && GrammarsOk(g, p1) && TestIs(code, tt, test)
      modifies this
      ensures code == old(code) + Gen(true, g, p1, false, test, FollowOf(g, p1, p2, fl))
      ensures TestIs(code, tt2, TestAfter(g, p1, test))
      decreases p1, 5
    {
      hide Gen, GetFirst, FixedLenX;
      if NeedFollow(p1) {
        var f := First(g, p2, fl);
        CodeGen(g, p1, false, tt, f.cs, test);
      } else {
        CodeGen(g, p1, false, tt, FULL, test);
      }
      TestStays(old(code), code, tt, test);
      return if FixedLen(g, p1) != 0 then NOINST else tt;
    }

    method CodeBehind(g: seq<Tree>, t: Tree, ghost test: Test)
      requires t.TBehind? && WellFormed(g, t) && GrammarsOk(g, t)
      modifies this
      ensures code == old(code) + Gen(true, g, t, false, test, FULL)
      decreases t, 2
    {
      if t.n > 0 { var _ := AddInstruction(IBehind, t.n); }
      CodeGen(g, t.p, false, NOINST, FULL, NoTest);
    }

    method CodeChoice(g: seq<Tree>, p1: Tree, p2: Tree, opt: bool, fl: Charset, ghost test: Test)
      requires WellFormed(g, TChoice(p1, p2)) && GrammarsOk(g, TChoice(p1, p2))
      modifies this
      ensures code == old(code) + Gen(true, g, TChoice(p1, p2), opt, test, fl)
      decreases TChoice(p1, p2), 2
    {
      hide GetFirst, HeadFailAux, TestCode, Gen, First, HeadFail, TestOf, ChoiceByTest, ChoiceByChoice;
      var emptyp2 := p2.TTrue?;
      ChoiceGen(true, g, p1, p2, opt, test, fl);
      var f1 := First(g, p1, FULL);
      if HeadFail(g, p1) || (!f1.e && f1.cs !! First(g, p2, fl).cs) {
        CodeChoiceByTest(g, p1, p2, opt, fl, f1.cs);
      } else if opt && emptyp2 {
        var pc := AddOffsetInst(IPartialCommit);
        JumpToHere(pc);
        assert code == old(code) + Jump(IPartialCommit, 2);
        CodeGen(g, p1, true, NOINST, FULL, NoTest);
      } else {
        CodeChoiceByChoice(g, p1, p2, opt, fl, f1);
      }
    }

    method CodeChoiceByTest(g: seq<Tree>, p1: Tree, p2: Tree, opt: bool, fl: Charset, cs1: Charset)
      requires WellFormed(g, p1) && GrammarsOk(g, p1) && WellFormed(g, p2) && GrammarsOk(g, p2)
      modifies this
      ensures
        code == old(code) + ChoiceByTest(cs1, Gen(true, g, p1, false, TestOf(cs1, false), fl),
                                         Gen(true, g, p2, opt, NoTest, fl), p2.TTrue?)
      decreases TChoice(p1, p2), 1
    {
      hide First, TestOf, ChoiceByTest, Gen, TestCode, WellFormed, GrammarsOk, TestIs;
      ghost var tt1 := TestOf(cs1, false);
      ghost var c0 := code;
      var test := CodeTestSet(cs1, false);
      var jmp := NOINST;
      TestSize(cs1, false, 0);
      CodeGen(g, p1, false, test, fl, tt1);
      ghost var c2 := code;
      if !p2.TTrue? { jmp := AddOffsetInst(IJmp); }
      ghost var c3 := code;
      JumpToHere(test);
      UntestedIs(code);
      CodeGen(g, p2, opt, NOINST, fl, NoTest);
      JumpToHere(jmp);
      EmptyCode(true, g, p2, opt, NoTest, fl);
      AssembleChoiceByTest(c0, cs1, Gen(true, g, p1, false, tt1, fl), Gen(true, g, p2, opt, NoTest, fl), p2.TTrue?);
    }

    method CodeChoiceByChoice(g: seq<Tree>, p1: Tree, p2: Tree, opt: bool, fl: Charset, f1: FirstInfo)
      requires WellFormed(g, p1) && GrammarsOk(g, p1) && WellFormed(g, p2) && GrammarsOk(g, p2)
      modifies this
      ensures
        code == old(code) + ChoiceByChoice(f1, Gen(true, g, p1, p2.TTrue?, TestOf(f1.cs, f1.e), FULL),
                                           Gen(true, g, p2, opt, NoTest, fl))
      decreases TChoice(p1, p2), 1
    {
      hide First, TestOf, Gen, TestCode, WellFormed, GrammarsOk, ChoiceByChoice, TestIs;
      ghost var tt1 := TestOf(f1.cs, f1.e);
      ghost var c0 := code;
      var test := CodeTestSet(f1.cs, f1.e);
      ghost var c1 := code;
      TestSize'(f1.cs);
      var pchoice := AddOffsetInst(IChoice);
      TestStays(c1, code, test, tt1);
      CodeGen(g, p1, p2.TTrue?, test, FULL, tt1);
      CodeAlternative(g, p2, opt, fl, f1, test, pchoice, c0, Gen(true, g, p1, p2.TTrue?, tt1, FULL));
    }

    /** The commit behind the first alternative, the labels, and the second alternative. */
    method CodeAlternative(g: seq<Tree>, p2: Tree, opt: bool, fl: Charset, f1: FirstInfo, test: int, pchoice: int,
                           ghost c0: seq<Slot>, ghost b1: seq<Slot>)
      requires WellFormed(g, p2) && GrammarsOk(g, p2)
      requires code == c0 + TestCode(f1.cs, f1.e, Hole) + [Inst(IChoice, 0), Hole] + b1
      requires test == (if f1.e then NOINST else |c0|) && pchoice == |c0| + |TestCode(f1.cs, f1.e, Hole)|
      requires !f1.e ==> |TestCode(f1.cs, f1.e, Hole)| >= 2
      modifies this
      ensures code == c0 + ChoiceByChoice(f1, b1, Gen(true, g, p2, opt, NoTest, fl))
      decreases p2, 5
    {
      hide Gen, TestCode, WellFormed, GrammarsOk, ChoiceByChoice, TestIs;
      var pcommit := AddOffsetInst(ICommit);
      JumpToHere(pchoice);
      JumpToHere(test);
      UntestedIs(code);
      CodeGen(g, p2, opt, NOINST, fl, NoTest);
      JumpToHere(pcommit);
      AssembleChoice(c0, f1, b1, Gen(true, g, p2, opt, NoTest, fl));
    }


    method CodeRep(g: seq<Tree>, p: Tree, opt: bool, fl: Charset, ghost test: Test)
      requires WellFormed(g, p) && GrammarsOk(g, p)
      modifies this
      ensures code == old(code) + Gen(true, g, TRep(p), opt, test, fl)
      decreases TRep(p), 3
    {
      hide WellFormed, GrammarsOk, LoopByTest, LoopByChoice, FixedLen, GetFirst, HeadFailAux, TestCode;
      var st := ToCharset(p);
      if st.Some? {
        var _ := AddInstruction(ISpan, 0);
        AddCharset(st.value);
      } else {
        var f := First(g, p, FULL);
        if HeadFail(g, p) || (!f.e && f.cs !! fl) {
          CodeLoopByTest(g, p, opt, f.cs);
        } else {
          CodeLoop(g, p, opt, f);
        }
      }
    }

    method CodeLoopByTest(g: seq<Tree>, p: Tree, opt: bool, cs: Charset)
      requires WellFormed(g, p) && GrammarsOk(g, p)
      modifies this
      ensures code == old(code) + LoopByTest(cs, Gen(true, g, p, opt, TestOf(cs, false), FULL))
      decreases TRep(p), 1
    {
      hide Gen, TestCode, WellFormed, GrammarsOk;
      ghost var c0 := code;
      var test := CodeTestSet(cs, false);
      TestSize'(cs);
      CodeGen(g, p, opt, test, FULL, TestOf(cs, false));
      var jmp := AddOffsetInst(IJmp);
      JumpToHere(test);
      JumpToThere(jmp, test);
      AssembleLoopByTest(c0, cs, Gen(true, g, p, opt, TestOf(cs, false), FULL));
    }

    method CodeLoop(g: seq<Tree>, p: Tree, opt: bool, f: FirstInfo)
      requires WellFormed(g, p) && GrammarsOk(g, p)
      modifies this
      ensures code == old(code) + LoopByChoice(f, opt, Gen(true, g, p, false, NoTest, FULL))
      decreases TRep(p), 2
    {
      hide Gen, TestCode, WellFormed, GrammarsOk, LoopByChoice, LoopBody;
      ghost var c0 := code;
      var test := CodeTestSet(f.cs, f.e);
      TestSize'(f.cs);
      CodeLoopBody(g, p, opt);
      JumpToHere(test);
      AssembleLoop(c0, f, opt, Gen(true, g, p, false, NoTest, FULL));
    }

    /** The loop behind the test. */
    method CodeLoopBody(g: seq<Tree>, p: Tree, opt: bool)
      requires WellFormed(g, p) && GrammarsOk(g, p)
      modifies this
      ensures code == old(code) + LoopBody(opt, Gen(true, g, p, false, NoTest, FULL))
      decreases TRep(p), 1
    {
      hide Gen, TestCode, WellFormed, GrammarsOk, LoopBody;
      ghost var c1 := code;
      var pchoice := NOINST;
      if opt {
        var pc := AddOffsetInst(IPartialCommit);
        JumpToHere(pc);
      } else {
        pchoice := AddOffsetInst(IChoice);
      }
      var l2 := |code|;
      CodeGen(g, p, false, NOINST, FULL, NoTest);
      var commit := AddOffsetInst(IPartialCommit);
      JumpToThere(commit, l2);
      JumpToHere(pchoice);
      AssembleBody(c1, opt, Gen(true, g, p, false, NoTest, FULL));
    }

    method CodeNot(g: seq<Tree>, p: Tree, ghost test: Test)
      requires WellFormed(g, p) && GrammarsOk(g, p)
      modifies this
      ensures code == old(code) + Gen(true, g, TNot(p), false, test, FULL)
      decreases TNot(p), 2
    {
      hide NotByTest, NotByChoice, WellFormed, GrammarsOk, GetFirst, HeadFailAux, TestCode;
      var f := First(g, p, FULL);
      if HeadFail(g, p) {
        ghost var c0 := code;
        var tt := CodeTestSet(f.cs, f.e);
        TestSize'(f.cs);
        var _ := AddInstruction(IFail, 0);
        JumpToHere(tt);
        AssembleNotByTest(c0, f);
      } else {
        CodeNotByChoice(g, p, f);
      }
    }

    method CodeNotByChoice(g: seq<Tree>, p: Tree, f: FirstInfo)
      requires WellFormed(g, p) && GrammarsOk(g, p)
      modifies this
      ensures code == old(code) + NotByChoice(f, Gen(true, g, p, false, NoTest, FULL))
      decreases TNot(p), 1
    {
      hide Gen, TestCode, WellFormed, GrammarsOk;
      ghost var c0 := code;
      var tt := CodeTestSet(f.cs, f.e);
      TestSize'(f.cs);
      var pchoice := AddOffsetInst(IChoice);
      CodeGen(g, p, false, NOINST, FULL, NoTest);
      var _ := AddInstruction(IFailTwice, 0);
      JumpToHere(pchoice);
      JumpToHere(tt);
      AssembleNot(c0, f, Gen(true, g, p, false, NoTest, FULL));
    }

    method CodeAnd(g: seq<Tree>, p: Tree, tt: int, ghost test: Test)
      requires WellFormed(g, p) && GrammarsOk(g, p) && TestIs(code, tt, test)
      modifies this
      ensures code == old(code) + Gen(true, g, TAnd(p), false, test, FULL)
      decreases TAnd(p), 2
    {
      hide GetFirst, HeadFailAux, FixedLenX;
      var n := FixedLen(g, p);
      if 0 <= n <= MAXBEHIND {
        CodeGen(g, p, false, tt, FULL, test);
        if n > 0 { var _ := AddInstruction(IBehind, n); }
      } else {
        CodeAndByChoice(g, p, tt, test);
      }
    }

    method CodeAndByChoice(g: seq<Tree>, p: Tree, tt: int, ghost test: Test)
      requires WellFormed(g, p) && GrammarsOk(g, p) && TestIs(code, tt, test)
      modifies this
      ensures code == old(code) + AndByChoice(Gen(true, g, p, false, test, FULL))
      decreases TAnd(p), 1
    {
      hide Gen, WellFormed, GrammarsOk;
      ghost var c0 := code;
      var pchoice := AddOffsetInst(IChoice);
      TestStays(c0, code, tt, test);
      CodeGen(g, p, false, tt, FULL, test);
      var pcommit := AddOffsetInst(IBackCommit);
      JumpToHere(pchoice);
      var _ := AddInstruction(IFail, 0);
      JumpToHere(pcommit);
      AssembleAnd(c0, Gen(true, g, p, false, test, FULL));
    }

    method CodeCall(rule: nat)
      modifies this
      ensures code == old(code) + [Inst(IOpenCall, rule), Hole]
    {
      var c := AddOffsetInst(IOpenCall);
      code := code[c := Inst(IOpenCall, rule)];
    }

    method CodeGrammar(rs: seq<Tree>)
      requires WellFormed([], TGrammar(rs)) && AcceptedGrammar(rs)
      modifies this
      ensures code == old(code) + Gen(true, [], TGrammar(rs), false, NoTest, FULL)
      decreases TGrammar(rs), 2
    {
      hide Gen, GrammarsOk, AcceptedGrammar, CloseCalls, RulePositions, RulesCode, WellFormed;
      RulesWellFormed(rs);
      GrammarCode(rs);
      ghost var c0 := code;
      var firstcall := AddOffsetInst(ICall);
      var jumptoend := AddOffsetInst(IJmp);
      var start := |code|;
      JumpToHere(firstcall);
      ghost var c1 := code;
      var positions := CodeRules(rs);
      JumpToHere(jumptoend);
      ghost var front := c0 + Jump(ICall, 4) + Jump(IJmp, 2 + |RulesCode(true, rs, |rs|)|);
      AssembleGrammar(c0, RulesCode(true, rs, |rs|));
      CorrectCalls(positions, start, rs, front);
    }

    /** Code the rules one after the other, each followed by a return; the result says where they start. */
    method CodeRules(rs: seq<Tree>) returns (positions: seq<int>)
      requires forall m :: 0 <= m < |rs| ==> WellFormed(rs, rs[m])
      requires AcceptedGrammar(rs)
      modifies this
      ensures code == old(code) + RulesCode(true, rs, |rs|)
      ensures |positions| == |rs|
      ensures forall n :: 0 <= n < |rs| ==> positions[n] == |old(code)| + |RulesCode(true, rs, n)|
      decreases TGrammar(rs), 1
    {
      hide Gen, WellFormed, GrammarsOk, AcceptedGrammar, RulesCode, TestIs;
      RulesCodeNone(rs);
      positions := [];
      var n := 0;
      while n < |rs|
        invariant 0 <= n <= |rs| && |positions| == n
        invariant code == old(code) + RulesCode(true, rs, n)
        invariant forall m :: 0 <= m < n ==> positions[m] == |old(code)| + |RulesCode(true, rs, m)|
      {
        positions := positions + [|code|];
        CalledAreUsed'(rs, n);
        UntestedIs(code);
        CodeGen(rs, rs[n], false, NOINST, FULL, NoTest);
        var _ := AddInstruction(IRet, 0);
        RulesCodeNext(rs, n);
        n := n + 1;
      }
    }

    /** Change open calls to calls, and calls in front of a return to jumps. */
    method CorrectCalls(positions: seq<int>, from: nat, ghost rs: seq<Tree>, ghost front: seq<Slot>)
      requires WellFormed([], TGrammar(rs)) && AcceptedGrammar(rs)
      requires from == |front| && code == front + RulesCode(true, rs, |rs|)
      requires |positions| == |rs| && forall n :: 0 <= n < |rs| ==> positions[n] == from + |RulesCode(true, rs, n)|
      modifies this
      ensures code == front + CloseCalls(true, RulesCode(true, rs, |rs|), RulePositions(true, rs), 0)
    {
      hide Loaded, LabelsEnd, Aligned, HalfClosed, SizeI, Target, HasOff, Gen, WellFormed, AcceptedGrammar,
        RulesCode, CloseCalls, LeadsToRet, Closing, Ends, JumpsTo, RulePositions;
      ghost var body, pos := RulesCode(true, rs, |rs|), RulePositions(true, rs);
      ghost var done, x := CloseCalls(true, body, pos, 0), body;
      ClosingStarts(rs);
      PositionsAre(rs, positions, from);
      var i := from;
      while i < |code|
        invariant from <= i <= |code| && code == front + x && |x| == |body|
        invariant Closing(x, done, pos, i - from)
      {
        ghost var k := i - from;
        assert code[i] == x[k];
        ClosingSlot(x, done, pos, k);
        if code[i].op == IOpenCall {
          var n := code[i].arg;
          ClosingCall(x, done, pos, k);
          EndsInside(front, x, k + 2);
          var t := FinalTarget(i + 2);
          ReturnInside(front, x, k + 2, t);
          var op := if code[t].op == IRet then IJmp else ICall;
          UpdateInside(front, x, k, Inst(op, n), Off(pos[n] - k));
          code := code[i := Inst(op, n)];
          JumpToThere(i, positions[n]);
          x := x[k := Inst(op, n)][k + 1 := Off(pos[n] - k)];
          i := i + 2;
        } else {
          ClosingNext(x, done, pos, k);
          SizePositive(code[i].op);
          i := i + SizeI(code[i].op);
        }
        ClosingSlot(x, done, pos, i - from);
      }
      ClosingEnds(x, done, pos);
    }

    /** Optimize jumps and other instructions with labels.  This is the pass that is meant; where the pass
        as written steps back to the same slots, it does the same. */
    method Peephole()
      requires LabelsEnd(code) && Aligned(code)
      modifies this
      ensures |code| == |old(code)| && Keeps(old(code), code)
      ensures forall k :: 0 <= k < |code| ==> Done(code, k)
      ensures PassEnds(false, old(code), code)
      ensures AlwaysStepsBack(old(code)) ==> PassEnds(true, old(code), code)
    {
      hide *;
      ghost var c0 := code;
      var i := 0;
      ghost var n := 0;
      ThreadingStarts(code);
      PassStarts(code);
      while i < |code|
        invariant Threading(c0, code, i) && 0 <= i && PassRun(false, c0, n) == At(code, i)
        decreases |code| - i, if IsOp(code, i, IJmp) then 1 else 0
      {
        ghost var c, at := code, i;
        ThreadingAt(c0, c, i);
        if HasLabel(code[i].op) {
          var ft := FinalLabel(i);
          JumpToThere(i, ft);
          LabelMoved(c0, c, i, ft);
          PassesLabel(false, c, i, ft);
          SizePositive(code[i].op);
          i := i + SizeI(code[i].op);
        } else if code[i].op == IJmp {
          var ft := FinalTarget(i);
          StopsAt(c, ft);
          if Leaves(code[ft].op) {
            code := code[i := code[ft]][i + 1 := Inst(IAny, 0)];
            LeaveCopied(c0, c, i, ft);
            PassesLeave(false, c, i, ft);
            SizePositive(code[i].op);
            i := i + SizeI(code[i].op);
          } else if Commits(code[ft].op) {
            CommitLabel(c0, c, i, ft);
            var fft := FinalLabel(ft);
            code := code[i := code[ft]];
            JumpToThere(i, fft);
            CommitCopied(c0, c, i, ft, fft);
            PassesCommit(false, c, i, ft, fft);
            MeantStays(code, i);
          } else {
            JumpToThere(i, ft);
            JumpMoved(c0, c, i, ft);
            PassesJump(false, c, i, ft);
            SizePositive(code[i].op);
            i := i + SizeI(code[i].op);
          }
        } else {
          NothingToDo(c0, c, i);
          PassesOther(false, c, i);
          SizePositive(code[i].op);
          i := i + SizeI(code[i].op);
        }
        PassTurns(c0, c, at, code, i, n);
        n := n + 1;
      }
      ThreadingEnds(c0, code, i);
      PassDone(c0, code, n);
    }

    /** Compile a pattern. */
    method Compile(t: Tree)
      requires code == [] && WellFormed([], t) && Acceptable([], t)
      modifies this
      ensures |code| == |Program(t)| && Keeps(Program(t), code)
      ensures forall k :: 0 <= k < |code| ==> Done(code, k)
      ensures PassEnds(false, Program(t), code)
      ensures AlwaysStepsBack(Program(t)) ==> PassEnds(true, Program(t), code)
    {
      hide Gen, WellFormed, Acceptable, Keeps, LabelsEnd, Aligned, Done, PassEnds, AlwaysStepsBack;
      AcceptableOk([], t);
      CodeGen([], t, false, NOINST, FULL, NoTest);
      var _ := AddInstruction(IEnd, 0);
      assert code == Program(t);
      CompiledLabelsEnd(t);
      ProgramAligned(t);
      Peephole();
    }
  }

  /** The program of a pattern before its jumps are threaded. */
  ghost function Program(t: Tree): seq<Slot> { Gen(true, [], t, false, NoTest, FULL) + [Inst(IEnd, 0)] }

  lemma ProgramAligned(t: Tree)
    requires WellFormed([], t)
    ensures Aligned(Program(t))
  {
    hide Gen, Aligned, Twins, OpenCallsOk, WellFormed;
    var c, d := Gen(false, [], t, false, NoTest, FULL), Gen(true, [], t, false, NoTest, FULL);
    GenTwins([], t, false, NoTest, FULL);
    TwinsOpen(c, d, 0);
    PlainInst(IEnd, 0, 0);
    AlignedJoin(d, [Inst(IEnd, 0)]);
  }

  lemma PositionsAre(rs: seq<Tree>, positions: seq<int>, from: nat)
    requires |positions| == |rs| && forall n :: 0 <= n < |rs| ==> positions[n] == from + |RulesCode(true, rs, n)|
    ensures
      var pos := RulePositions(true, rs);
      |pos| == |positions| && forall n :: 0 <= n < |pos| ==> positions[n] == from + pos[n]
  {
  }

  lemma ClosingSlot(x: seq<Slot>, d: seq<Slot>, pos: seq<int>, k: nat)
    requires Closing(x, d, pos, k)
    ensures k <= |x| && (k < |x| ==> x[k].Inst?)
  {
  }

  lemma ClosingEnds(x: seq<Slot>, d: seq<Slot>, pos: seq<int>)
    requires Closing(x, d, pos, |x|)
    ensures x == d
  {
  }

  // ----- what appending and patching put together -----

  lemma TestSize'(cs: Charset)
    ensures |TestCode(cs, false, Hole)| >= 2
  {
  }

  lemma PatchJump(pre: seq<Slot>, op: Opcode, off: Slot, rest: seq<Slot>)
    ensures (pre + [Inst(op, 0), Hole] + rest)[|pre| + 1 := off] == pre + [Inst(op, 0), off] + rest
  {
  }

  lemma PatchTest(pre: seq<Slot>, cs: Charset, off: Slot, rest: seq<Slot>)
    ensures |TestCode(cs, false, Hole)| == |TestCode(cs, false, off)| >= 2
    ensures (pre + TestCode(cs, false, Hole) + rest)[|pre| + 1 := off] == pre + TestCode(cs, false, off) + rest
  {
    var a, b := TestCode(cs, false, Hole), TestCode(cs, false, off);
    assert a[1 := off] == b;
    assert (pre + a + rest)[|pre| + 1 := off] == pre + a[1 := off] + rest;
  }

  lemma NoTestSlots(cs: Charset, off: Slot)
    ensures TestCode(cs, true, off) == []
  {
  }

  lemma AssembleChoiceByTest(c0: seq<Slot>, cs: Charset, b1: seq<Slot>, b2: seq<Slot>, e2: bool)
    requires e2 ==> b2 == []
    ensures |TestCode(cs, false, Hole)| >= 2
    ensures
      var c2 := c0 + TestCode(cs, false, Hole) + b1;
      var c3 := if e2 then c2 else c2 + [Inst(IJmp, 0), Hole];
      var c5 := c3[|c0| + 1 := Off(|c3| - |c0|)] + b2;
      (if e2 then c5 else c5[|c2| + 1 := Off(|c5| - |c2|)]) == c0 + ChoiceByTest(cs, b1, b2, e2)
  {
    hide TestCode;
    var tst := TestCode(cs, false, Hole);
    var hole := if e2 then [] else [Inst(IJmp, 0), Hole];
    var off := Off(|tst| + |b1| + |hole|);
    var c3 := c0 + tst + (b1 + hole);
    PatchTest(c0, cs, off, b1 + hole);
    var c4 := c0 + TestCode(cs, false, off) + b1 + hole;
    assert c3[|c0| + 1 := off] == c4;
    PatchJump(c0 + TestCode(cs, false, off) + b1, IJmp, Off(2 + |b2|), b2);
    assert c0 + tst + b1 + hole == c3 && (e2 ==> c0 + tst + b1 == c3);
    var jmp := if e2 then [] else Jump(IJmp, 2 + |b2|);
    assert c0 + TestCode(cs, false, off) + b1 + jmp + b2 == c0 + ChoiceByTest(cs, b1, b2, e2);
  }

  lemma AssembleChoice(c0: seq<Slot>, f: FirstInfo, b1: seq<Slot>, b2: seq<Slot>)
    ensures !f.e ==> |TestCode(f.cs, f.e, Hole)| >= 2
    ensures
      var c1 := c0 + TestCode(f.cs, f.e, Hole);
      var c2 := c1 + [Inst(IChoice, 0), Hole] + b1;
      var c3 := (c2 + [Inst(ICommit, 0), Hole])[|c1| + 1 := Off(|c2| + 2 - |c1|)];
      var c4 := if f.e then c3 else c3[|c0| + 1 := Off(|c3| - |c0|)];
      var c5 := c4 + b2;
      c5[|c2| + 1 := Off(|c5| - |c2|)] == c0 + ChoiceByChoice(f, b1, b2)
  {
    hide TestCode;
    var tst := TestCode(f.cs, f.e, Hole);
    var mid, commit := Jump(IChoice, 2 + |b1| + 2) + b1, [Inst(ICommit, 0), Hole];
    var off := Off(|tst| + 2 + |b1| + 2);
    ChoiceIs(f, b1, b2);
    ChoiceStart(c0 + tst, b1);
    hide ChoiceByChoice;
    if f.e { NoTestSlots(f.cs, off); NoTestSlots(f.cs, Hole); } else { PatchTest(c0, f.cs, off, mid + commit); }
    var front := c0 + TestCode(f.cs, f.e, off) + mid;
    assert c0 + TestCode(f.cs, f.e, off) + (mid + commit) == front + commit;
    PatchJump(front, ICommit, Off(2 + |b2|), b2);
    assert front + Jump(ICommit, 2 + |b2|) + b2 == c0 + (TestCode(f.cs, f.e, off) + mid + Jump(ICommit, 2 + |b2|) + b2);
  }

  lemma ChoiceIs(f: FirstInfo, b1: seq<Slot>, b2: seq<Slot>)
    ensures
      var off := Off(|TestCode(f.cs, f.e, Hole)| + 2 + |b1| + 2);
      ChoiceByChoice(f, b1, b2)
      == TestCode(f.cs, f.e, off) + (Jump(IChoice, 2 + |b1| + 2) + b1) + Jump(ICommit, 2 + |b2|) + b2
  {
    hide TestCode;
    var off := Off(|TestCode(f.cs, f.e, Hole)| + 2 + |b1| + 2);
    assert TestCode(f.cs, f.e, off) + Jump(IChoice, 2 + |b1| + 2) + b1
        == TestCode(f.cs, f.e, off) + (Jump(IChoice, 2 + |b1| + 2) + b1);
  }

  lemma ChoiceStart(c1: seq<Slot>, b1: seq<Slot>)
    ensures
      var c2 := c1 + [Inst(IChoice, 0), Hole] + b1;
      (c2 + [Inst(ICommit, 0), Hole])[|c1| + 1 := Off(|c2| + 2 - |c1|)]
      == c1 + (Jump(IChoice, 2 + |b1| + 2) + b1 + [Inst(ICommit, 0), Hole])
  {
    var commit := [Inst(ICommit, 0), Hole];
    assert c1 + [Inst(IChoice, 0), Hole] + b1 + commit == c1 + [Inst(IChoice, 0), Hole] + (b1 + commit);
    PatchJump(c1, IChoice, Off(2 + |b1| + 2), b1 + commit);
    assert c1 + Jump(IChoice, 2 + |b1| + 2) + (b1 + commit) == c1 + (Jump(IChoice, 2 + |b1| + 2) + b1 + commit);
  }

  lemma AssembleLoopByTest(c0: seq<Slot>, cs: Charset, b: seq<Slot>)
    ensures |TestCode(cs, false, Hole)| >= 2
    ensures
      var c2 := c0 + TestCode(cs, false, Hole) + b;
      var c3 := c2 + [Inst(IJmp, 0), Hole];
      c3[|c0| + 1 := Off(|c3| - |c0|)][|c2| + 1 := Off(|c0| - |c2|)] == c0 + LoopByTest(cs, b)
  {
    hide TestCode;
    var tst, hole := TestCode(cs, false, Hole), [Inst(IJmp, 0), Hole];
    var off := Off(|tst| + |b| + 2);
    PatchTest(c0, cs, off, b + hole);
    assert c0 + tst + b + hole == c0 + tst + (b + hole);
    assert c0 + TestCode(cs, false, off) + (b + hole) == c0 + TestCode(cs, false, off) + b + hole + [];
    PatchJump(c0 + TestCode(cs, false, off) + b, IJmp, Off(-(|tst| + |b|)), []);
    assert c0 + TestCode(cs, false, off) + b + Jump(IJmp, -(|tst| + |b|)) + [] == c0 + LoopByTest(cs, b);
  }

  ghost function LoopBody(opt: bool, b: seq<Slot>): (r: seq<Slot>)
    ensures |r| == 2 + |b| + 2
  {
    (if opt then Jump(IPartialCommit, 2) else Jump(IChoice, 2 + |b| + 2)) + b + Jump(IPartialCommit, -|b|)
  }

  lemma AssembleLoop(c0: seq<Slot>, f: FirstInfo, opt: bool, b: seq<Slot>)
    ensures !f.e ==> |TestCode(f.cs, f.e, Hole)| >= 2
    ensures
      var c6 := c0 + TestCode(f.cs, f.e, Hole) + LoopBody(opt, b);
      (if f.e then c6 else c6[|c0| + 1 := Off(|c6| - |c0|)]) == c0 + LoopByChoice(f, opt, b)
  {
    hide TestCode;
    var tst := TestCode(f.cs, f.e, Hole);
    var rest, n := LoopBody(opt, b), 2 + |b| + 2;
    assert |rest| == n;
    var off := Off(|tst| + n);
    LoopIs(f, opt, b);
    hide LoopBody, LoopByChoice;
    if f.e { NoTestSlots(f.cs, off); NoTestSlots(f.cs, Hole); } else { PatchTest(c0, f.cs, off, rest); }
    assert c0 + TestCode(f.cs, f.e, off) + rest == c0 + (TestCode(f.cs, f.e, off) + rest);
  }

  lemma LoopIs(f: FirstInfo, opt: bool, b: seq<Slot>)
    ensures LoopByChoice(f, opt, b) == TestCode(f.cs, f.e, Off(|TestCode(f.cs, f.e, Hole)| + (2 + |b| + 2))) + LoopBody(opt, b)
  {
    hide TestCode;
  }

  lemma AssembleBody(c1: seq<Slot>, opt: bool, b: seq<Slot>)
    ensures
      var c2 := c1 + [Inst(if opt then IPartialCommit else IChoice, 0), Hole];
      var c3 := if opt then c2[|c1| + 1 := Off(2)] else c2;
      var c4 := c3 + b;
      var c5 := (c4 + [Inst(IPartialCommit, 0), Hole])[|c4| + 1 := Off(|c3| - |c4|)];
      (if opt then c5 else c5[|c1| + 1 := Off(|c5| - |c1|)])
      == c1 + LoopBody(opt, b)
  {
    var back := Jump(IPartialCommit, -|b|);
    var c3 := c1 + (if opt then Jump(IPartialCommit, 2) else [Inst(IChoice, 0), Hole]);
    if opt { PatchJump(c1, IPartialCommit, Off(2), []); }
    assert opt ==> (c1 + [Inst(IPartialCommit, 0), Hole])[|c1| + 1 := Off(2)] == c3;
    PatchJump(c3 + b, IPartialCommit, Off(-|b|), []);
    assert (c3 + b + [Inst(IPartialCommit, 0), Hole])[|c3 + b| + 1 := Off(-|b|)] == c3 + b + back;
    if !opt {
      PatchJump(c1, IChoice, Off(2 + |b| + 2), b + back);
      assert c3 + b + back == c1 + [Inst(IChoice, 0), Hole] + (b + back);
    }
  }

  lemma AssembleNotByTest(c0: seq<Slot>, f: FirstInfo)
    ensures !f.e ==> |TestCode(f.cs, f.e, Hole)| >= 2
    ensures
      var c2 := c0 + TestCode(f.cs, f.e, Hole) + [Inst(IFail, 0)];
      (if f.e then c2 else c2[|c0| + 1 := Off(|c2| - |c0|)]) == c0 + NotByTest(f)
  {
    hide TestCode;
    var off := Off(|TestCode(f.cs, f.e, Hole)| + 1);
    if f.e { NoTestSlots(f.cs, off); NoTestSlots(f.cs, Hole); } else { PatchTest(c0, f.cs, off, [Inst(IFail, 0)]); }
    assert c0 + TestCode(f.cs, f.e, off) + [Inst(IFail, 0)] == c0 + NotByTest(f);
  }

  lemma AssembleNot(c0: seq<Slot>, f: FirstInfo, b: seq<Slot>)
    ensures !f.e ==> |TestCode(f.cs, f.e, Hole)| >= 2
    ensures
      var c1 := c0 + TestCode(f.cs, f.e, Hole);
      var c3 := c1 + [Inst(IChoice, 0), Hole] + b + [Inst(IFailTwice, 0)];
      var c4 := c3[|c1| + 1 := Off(|c3| - |c1|)];
      (if f.e then c4 else c4[|c0| + 1 := Off(|c4| - |c0|)]) == c0 + NotByChoice(f, b)
  {
    hide TestCode;
    var tst, last := TestCode(f.cs, f.e, Hole), [Inst(IFailTwice, 0)];
    var rest := Jump(IChoice, 2 + |b| + 1) + b + last;
    PatchJump(c0 + tst, IChoice, Off(2 + |b| + 1), b + last);
    assert c0 + tst + [Inst(IChoice, 0), Hole] + b + last == c0 + tst + [Inst(IChoice, 0), Hole] + (b + last);
    assert c0 + tst + Jump(IChoice, 2 + |b| + 1) + (b + last) == c0 + tst + rest;
    var off := Off(|tst| + 2 + |b| + 1);
    if f.e { NoTestSlots(f.cs, off); NoTestSlots(f.cs, Hole); } else { PatchTest(c0, f.cs, off, rest); }
    assert c0 + TestCode(f.cs, f.e, off) + rest == c0 + NotByChoice(f, b);
  }

  lemma RulesCodeNone(rs: seq<Tree>)
    ensures RulesCode(true, rs, 0) == []
  {
  }

  lemma RulesCodeNext(rs: seq<Tree>, n: nat)
    requires n < |rs|
    ensures RulesCode(true, rs, n + 1)
         == RulesCode(true, rs, n) + Gen(true, rs, rs[n], false, NoTest, FULL) + [Inst(IRet, 0)]
  {
    hide Gen;
  }

  lemma AssembleGrammar(c0: seq<Slot>, body: seq<Slot>)
    ensures
      var c1 := (c0 + [Inst(ICall, 0), Hole] + [Inst(IJmp, 0), Hole])[|c0| + 1 := Off(4)];
      var c2 := c1 + body;
      c2[|c0| + 3 := Off(|c2| - (|c0| + 2))] == c0 + Jump(ICall, 4) + Jump(IJmp, 2 + |body|) + body
  {
    PatchJump(c0, ICall, Off(4), [Inst(IJmp, 0), Hole]);
    PatchJump(c0 + Jump(ICall, 4), IJmp, Off(2 + |body|), body);
  }

  lemma AssembleAnd(c0: seq<Slot>, b: seq<Slot>)
    ensures
      var c2 := c0 + [Inst(IChoice, 0), Hole] + b;
      var c3 := (c2 + [Inst(IBackCommit, 0), Hole])[|c0| + 1 := Off(|c2| + 2 - |c0|)];
      var c4 := c3 + [Inst(IFail, 0)];
      c4[|c2| + 1 := Off(|c4| - |c2|)] == c0 + AndByChoice(b)
  {
    var commit, fail := [Inst(IBackCommit, 0), Hole], [Inst(IFail, 0)];
    var front := Jump(IChoice, 2 + |b| + 2) + b;
    PatchJump(c0, IChoice, Off(2 + |b| + 2), b + commit);
    assert c0 + [Inst(IChoice, 0), Hole] + b + commit == c0 + [Inst(IChoice, 0), Hole] + (b + commit);
    assert c0 + Jump(IChoice, 2 + |b| + 2) + (b + commit) + fail == (c0 + front) + commit + fail;
    PatchJump(c0 + front, IBackCommit, Off(3), fail);
    assert c0 + front + Jump(IBackCommit, 3) + fail == c0 + AndByChoice(b);
  }

  lemma GrammarCode(rs: seq<Tree>)
    ensures
      var body := RulesCode(true, rs, |rs|);
      Gen(true, [], TGrammar(rs), false, NoTest, FULL)
      == Jump(ICall, 4) + Jump(IJmp, 2 + |body|) + CloseCalls(true, body, RulePositions(true, rs), 0)
  {
  }

  lemma SingleClass(c: Byte)
    ensures ClassOf({c}) == CSingle(c)
  {
    var cs: Charset := {c};
    assert |cs| == 1;
    Singleton(cs, c);
  }
}
