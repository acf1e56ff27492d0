/** Where the code generator goes wrong: coderep hands opt on to the body of a loop that is entered by a
    test (lpcode.c:740), although the choice on top of the stack is then no longer that of the body. */
module PegOpt {
  import opened Wrappers
  import opened PegTree
  import opened PegAnalysis
  import opened PegMachine
  import opened PegCode
  import opened PegBlocks
  import opened PegClose
  import opened PegVerify
  import opened PegThread
  import opened PegCompiler

  /** (a (b c)?)* */
  function Loop(a: Byte, b: Byte, c: Byte): Tree {
    TRep(TSeq(TChar(a), TChoice(TSeq(TChar(b), TChar(c)), TTrue)))
  }

  /** ((a (b c)?)*)? */
  function Optional(a: Byte, b: Byte, c: Byte): Tree { TChoice(Loop(a, b, c), TTrue) }

  function Body(b: Byte, c: Byte): seq<Slot> {
    [Inst(IAny, 0), Inst(IPartialCommit, 0), Off(2), Inst(IChar, b), Inst(IChar, c)]
  }

  function Code(a: Byte, b: Byte, c: Byte): seq<Slot> {
    [Inst(IChoice, 0), Off(13), Inst(ITestChar, a), Off(9)] + Body(b, c) +
    [Inst(IJmp, 0), Off(-7), Inst(ICommit, 0), Off(2), Inst(IEnd, 0)]
  }

  function Both(b: Byte, c: Byte): Tree { TSeq(TChar(b), TChar(c)) }

  function Maybe(b: Byte, c: Byte): Tree { TChoice(Both(b, c), TTrue) }

  /** What the analyses say about the pieces. */
  lemma Analysed(a: Byte, b: Byte, c: Byte)
    ensures !HeadFail([], Both(b, c)) && b in First([], Both(b, c), FULL).cs && First([], TTrue, FULL).cs == FULL
    ensures HeadFail([], TSeq(TChar(a), Maybe(b, c))) && !Nullable([], TSeq(TChar(a), Maybe(b, c)))
    ensures First([], TSeq(TChar(a), Maybe(b, c)), FULL) == FirstInfo({a}, false)
    ensures First([], Loop(a, b, c), FULL).e && !HeadFail([], Loop(a, b, c))
  {
    assert !NoFail([], TChar(c)) && !Nullable([], TChar(b)) && !Nullable([], TChar(a));
    assert !HeadFailAux([], Both(b, c), DEPTH);
    assert GetFirst([], TChar(b), FULL, DEPTH).cs == {b};
    assert GetFirst([], Both(b, c), FULL, DEPTH).cs == {b};
    assert NoFail([], TTrue);
    assert CheckAux([], Maybe(b, c), PEnofail, DEPTH);
    assert HeadFailAux([], TChar(a), DEPTH);
    assert !CheckAux([], TChar(a), PEnullable, DEPTH);
    assert GetFirst([], TChar(a), FULL, DEPTH) == FirstInfo({a}, false);
  }

  lemma BodyCode(a: Byte, b: Byte, c: Byte)
    ensures Gen(true, [], Loop(a, b, c).p, true, Tested({a}), FULL) == Body(b, c)
  {
    var opt, both := Maybe(b, c), Both(b, c);
    Analysed(a, b, c);
    hide GetFirst, HeadFailAux, CheckAux;
    assert Gen(true, [], both, true, NoTest, FULL) == [Inst(IChar, b), Inst(IChar, c)];
    assert b in FULL && !TestDecides([], both, TTrue, FULL);
    assert Gen(true, [], opt, true, NoTest, FULL) == Jump(IPartialCommit, 2) + [Inst(IChar, b), Inst(IChar, c)];
    assert FixedLen([], TChar(a)) == 1;
    assert Gen(true, [], TChar(a), false, Tested({a}), FollowOf([], TChar(a), opt, FULL)) == [Inst(IAny, 0)];
  }

  lemma LoopCode(a: Byte, b: Byte, c: Byte)
    ensures Gen(true, [], Loop(a, b, c), true, NoTest, FULL) == Code(a, b, c)[2..11]
  {
    hide GetFirst, HeadFailAux, CheckAux, FixedLenX, First, Gen;
    var p := Loop(a, b, c).p;
    SingleClass(a);
    BodyCode(a, b, c);
    Analysed(a, b, c);
    assert TestOf({a}, false) == Tested({a});
    assert TestCode({a}, false, Off(9)) == [Inst(ITestChar, a), Off(9)];
    assert LoopByTest({a}, Body(b, c)) == [Inst(ITestChar, a), Off(9)] + Body(b, c) + [Inst(IJmp, 0), Off(-7)];
    RepGen(true, [], p, true, NoTest, FULL);
  }

  lemma ProgramIs(a: Byte, b: Byte, c: Byte)
    ensures Program(Optional(a, b, c)) == Code(a, b, c)
  {
    var loop := Loop(a, b, c);
    LoopCode(a, b, c);
    Analysed(a, b, c);
    hide Gen, GetFirst, HeadFailAux, CheckAux, FixedLenX, First;
    ChoiceGen(true, [], loop, TTrue, false, NoTest, FULL);
    EmptyGen();
    assert TestCode(First([], loop, FULL).cs, true, Off(0)) == [];
  }

  lemma EmptyGen()
    ensures Gen(true, [], TTrue, false, NoTest, FULL) == []
  {
  }

  lemma OptionalIsWellFormed(a: Byte, b: Byte, c: Byte)
    ensures WellFormed([], Optional(a, b, c))
  {
    hide FixedLenX;
    assert WellFormed([], TChar(a)) && WellFormed([], TChar(b)) && WellFormed([], TChar(c)) && WellFormed([], TTrue);
    assert WellFormed([], Both(b, c));
    assert WellFormed([], Maybe(b, c));
    assert WellFormed([], TSeq(TChar(a), Maybe(b, c)));
  }

  lemma OptionalIsAccepted(a: Byte, b: Byte, c: Byte)
    ensures Acceptable([], Optional(a, b, c))
  {
    Analysed(a, b, c);
    hide GetFirst, HeadFailAux, CheckAux, First;
    assert Acceptable([], TChar(a)) && Acceptable([], TChar(b)) && Acceptable([], TChar(c)) && Acceptable([], TTrue);
    assert Acceptable([], Both(b, c));
    assert Acceptable([], Maybe(b, c));
    assert Acceptable([], TSeq(TChar(a), Maybe(b, c)));
    assert Acceptable([], Loop(a, b, c));
  }

  /** These patterns are acceptable in every other respect. */
  lemma OptionalIsAcceptable(a: Byte, b: Byte, c: Byte)
    ensures WellFormed([], Optional(a, b, c)) && Acceptable([], Optional(a, b, c))
    ensures !SafeOpt([], Optional(a, b, c), false, FULL)
  {
    var t, loop, p := Optional(a, b, c), Loop(a, b, c), TSeq(TChar(a), Maybe(b, c));
    Analysed(a, b, c);
    OptionalIsWellFormed(a, b, c);
    hide WellFormed;
    OptionalIsAccepted(a, b, c);
    hide Acceptable;
    hide GetFirst, HeadFailAux, CheckAux, FixedLenX, First;
    assert b in FULL && UsesOpt([], Maybe(b, c), FULL) && UsesOpt([], p, FULL);
    assert !SafeOpt([], loop, true, FULL);
  }

  /** The pattern matches both characters of the subject a a, ... */
  lemma OptionalMeans(a: Byte, b: Byte, c: Byte)
    ensures Means([], Optional(a, b, c), [a, a], 0, Ok(2))
  {
    var t := Loop(a, b, c);
    var m := Maybe(b, c);
    assert forall k: nat, i: nat :: 1 <= i <= 2 ==> Eval(k, [], Both(b, c), [a, a], i) == Fail;
    assert forall k: nat, i: nat :: 1 <= i <= 2 ==> Eval(k, [], m, [a, a], i) == Ok(i);
    assert Eval(2, [], t.p, [a, a], 0) == Ok(1);
    assert Eval(1, [], t.p, [a, a], 1) == Ok(2);
    assert Eval(0, [], t.p, [a, a], 2) == Fail;
    assert Eval(0, [], t, [a, a], 2) == Ok(2);
    assert Eval(1, [], t, [a, a], 1) == Ok(2);
    assert Eval(2, [], t, [a, a], 0) == Ok(2);
    assert Eval(2, [], Optional(a, b, c), [a, a], 0) == Ok(2);
  }

  /** ... but its program stops after the first: the partial commit for (b c)? overwrote the choice of
      the outer option. */
  lemma OptionalMiscompiled(a: Byte, b: Byte, c: Byte, code: seq<Slot>)
    requires Keeps(Program(Optional(a, b, c)), code)
    ensures Reaches(code, [a, a], Start(0), Accept(1))
  {
    hide Gen, SpanEnd, LeadsToRet;
    ProgramIs(a, b, c);
    var d, s := Code(a, b, c), [a, a];
    var bottom := Choice(GIVEUP, 0, Empty);
    var x1, x2, x3 := Run(2, 0, Choice(13, 0, bottom)), Run(4, 0, Choice(13, 0, bottom)), Run(5, 1, Choice(13, 0, bottom));
    var x4, x5 := Run(7, 1, Choice(13, 1, bottom)), Run(13, 1, bottom);
    var x4' := Run(8, 2, Choice(13, 1, bottom));
    assert Step(d, s, Start(0)) == x1;
    assert Step(d, s, x1) == x2 && Step(d, s, x2) == x3 && Step(d, s, x3) == x4;
    assert Step(d, s, x4) == if a == b then x4' else x5;
    assert Step(d, s, x4') == x5;
    assert Step(d, s, x5) == Accept(1);
    Stay(d, s, Start(0));
    Then(d, s, Start(0), Start(0));
    Then(d, s, Start(0), x1);
    Then(d, s, Start(0), x2);
    Then(d, s, Start(0), x3);
    Then(d, s, Start(0), x4);
    if a == b { Then(d, s, Start(0), x4'); }
    Then(d, s, Start(0), x5);
  }
}
