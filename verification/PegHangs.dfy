/** Where peephole as written does not end: on (P"a" * P"bc"^-1 + P"de")^0 * S" !#a".  The jump behind the
    optional bc becomes the partial commit of the loop; the offset in front of it is then 6, which counts
    as a span, so the pass skips to the buffer of the last set and takes the character # there for a jump
    to itself. */
module PegHangs {
  import opened Wrappers
  import opened PegTree
  import opened PegAnalysis
  import opened PegMachine
  import opened PegCode
  import opened PegBlocks
  import opened PegClose
  import opened PegVerify
  import opened PegThread
  import opened PegPass
  import opened PegSteady
  import PegFlat
  import opened PegJumps
  import opened PegCompiler
  import opened PegOpt

  const MARKS: Charset := {32, 33, 35, 97}

  const STARTS: Charset := {97, 100}

  /** a (bc)? */
  function Short(): Tree { TSeq(TChar(97), Maybe(98, 99)) }

  function Either(): Tree { TChoice(Short(), Both(100, 101)) }

  function Pattern(): Tree { TSeq(TRep(Either()), TSet(MARKS)) }

  // ----- its program -----

  /** The code of its parts. */
  function ShortCode(): seq<Slot> {
    [Inst(IAny, 0), Inst(ITestChar, 98), Off(8), Inst(IChoice, 0), Off(6), Inst(IAny, 0), Inst(IChar, 99),
     Inst(ICommit, 0), Off(2)]
  }

  function EitherCode(): seq<Slot> {
    [Inst(ITestChar, 97), Off(13)] + ShortCode() + [Inst(IJmp, 0), Off(4), Inst(IChar, 100), Inst(IChar, 101)]
  }

  function Head(): (h: seq<Slot>)
    ensures |h| == 10
  {
    [Inst(ITestSet, 0), Off(29)] + Buffer(STARTS)
  }

  /** The loop from slot 10 on, with the labels in slots 16, 18, 22 and 24 and the instruction in slot 23. */
  function LoopSlots(l16: int, l18: int, l22: int, op: Opcode, l24: int): (b: seq<Slot>)
    ensures |b| == 19
  {
    [Inst(IChoice, 0), Off(19), Inst(ITestChar, 97), Off(13), Inst(IAny, 0), Inst(ITestChar, 98), Off(l16),
     Inst(IChoice, 0), Off(l18), Inst(IAny, 0), Inst(IChar, 99), Inst(ICommit, 0), Off(l22), Inst(op, 0), Off(l24),
     Inst(IChar, 100), Inst(IChar, 101), Inst(IPartialCommit, 0), Off(-15)]
  }

  function Tail(): (e: seq<Slot>)
    ensures |e| == 10
  {
    [Inst(ISet, 0)] + Buffer(MARKS) + [Inst(IEnd, 0)]
  }

  /** The program: as it is generated, and as the pass changes it. */
  function Slots(l16: int, l18: int, l22: int, op: Opcode, l24: int): (c: seq<Slot>)
    ensures |c| == 39
  {
    Head() + LoopSlots(l16, l18, l22, op, l24) + Tail()
  }

  lemma FirstOfBoth(b: Byte, c: Byte, fl: Charset)
    ensures First([], Both(b, c), fl) == FirstInfo({b}, false) && !HeadFail([], Both(b, c))
  {
    assert !NoFail([], TChar(c)) && !Nullable([], TChar(b));
    assert GetFirst([], TChar(b), FULL, DEPTH) == FirstInfo({b}, false);
  }

  lemma EitherAnalysed()
    ensures First([], Either(), FULL) == FirstInfo(STARTS, false) && !HeadFail([], Either())
    ensures !Nullable([], Either())
  {
    Analysed(97, 98, 99);
    FirstOfBoth(100, 101, FULL);
    assert !CheckAux([], TChar(100), PEnullable, DEPTH);
    hide GetFirst, HeadFailAux, CheckAux;
    EitherParts();
  }

  lemma EitherParts()
    ensures First([], Either(), FULL).cs == First([], Short(), FULL).cs + First([], Both(100, 101), FULL).cs
    ensures First([], Either(), FULL).e == (First([], Short(), FULL).e || First([], Both(100, 101), FULL).e)
    ensures HeadFail([], Either()) == (HeadFail([], Short()) && HeadFail([], Both(100, 101)))
    ensures Nullable([], Either()) == (Nullable([], Short()) || Nullable([], Both(100, 101)))
    ensures Nullable([], Both(100, 101)) == (Nullable([], TChar(100)) && Nullable([], TChar(101)))
  {
  }

  lemma BothCode(b: Byte, c: Byte, opt: bool)
    ensures Gen(true, [], Both(b, c), opt, Tested({b}), FULL) == [Inst(IAny, 0), Inst(IChar, c)]
    ensures Gen(true, [], Both(b, c), opt, NoTest, FULL) == [Inst(IChar, b), Inst(IChar, c)]
  {
    assert FixedLen([], TChar(b)) == 1;
    hide GetFirst, CheckAux, HeadFailAux;
  }

  lemma MaybeCode(b: Byte, c: Byte)
    ensures Gen(true, [], Maybe(b, c), false, NoTest, FULL)
         == [Inst(ITestChar, b), Off(8), Inst(IChoice, 0), Off(6), Inst(IAny, 0), Inst(IChar, c), Inst(ICommit, 0), Off(2)]
  {
    hide GetFirst, HeadFailAux, CheckAux, FixedLenX, First, Gen;
    SingleClass(b);
    FirstOfBoth(b, c, FULL);
    Analysed(97, b, c);
    assert b in FULL && !TestDecides([], Both(b, c), TTrue, FULL);
    ChoiceGen(true, [], Both(b, c), TTrue, false, NoTest, FULL);
    BothCode(b, c, true);
    EmptyGen();
    assert TestOf({b}, false) == Tested({b});
    assert TestCode({b}, false, Hole) == [Inst(ITestChar, b), Hole];
    assert TestCode({b}, false, Off(8)) == [Inst(ITestChar, b), Off(8)];
  }

  lemma ShortGen()
    ensures Gen(true, [], Short(), false, Tested({97}), FULL) == ShortCode()
  {
    hide Gen;
    MaybeCode(98, 99);
    ShortParts();
  }

  lemma ShortParts()
    ensures Gen(true, [], Short(), false, Tested({97}), FULL)
         == [Inst(IAny, 0)] + Gen(true, [], Maybe(98, 99), false, NoTest, FULL)
  {
    assert FixedLen([], TChar(97)) == 1;
    hide GetFirst, HeadFailAux, CheckAux, ChoiceByTest, ChoiceByChoice, TestOf, TestDecides;
    assert Gen(true, [], TChar(97), false, Tested({97}), FollowOf([], TChar(97), Maybe(98, 99), FULL)) == [Inst(IAny, 0)];
  }

  lemma EitherGen()
    ensures Gen(true, [], Either(), false, NoTest, FULL) == EitherCode()
  {
    hide GetFirst, HeadFailAux, CheckAux, FixedLenX, First, Gen;
    var cs: Charset := {97};
    SingleClass(97);
    ShortGen();
    BothCode(100, 101, false);
    Analysed(97, 98, 99);
    assert TestDecides([], Short(), Both(100, 101), FULL);
    ChoiceGen(true, [], Short(), Both(100, 101), false, NoTest, FULL);
    assert TestOf(cs, false) == Tested(cs);
    assert TestCode(cs, false, Hole) == [Inst(ITestChar, 97), Hole];
    assert TestCode(cs, false, Off(13)) == [Inst(ITestChar, 97), Off(13)];
  }

  lemma SetClass(cs: Charset, a: Byte, b: Byte, c: Byte)
    requires a in cs && b in cs && a != b && c !in cs
    ensures ClassOf(cs) == COther
  {
    assert c in FULL;
  }

  lemma LoopGen()
    ensures Gen(true, [], TRep(Either()), false, NoTest, MARKS) == Head() + LoopSlots(8, 6, 2, IJmp, 4)
  {
    hide GetFirst, HeadFailAux, CheckAux, FixedLenX, First, Gen;
    EitherGen();
    EitherAnalysed();
    SetClass(STARTS, 97, 100, 98);
    assert 97 in STARTS && 97 in MARKS;
    assert !TestEndsLoop([], Either(), MARKS);
    RepGen(true, [], Either(), false, NoTest, MARKS);
    assert TestCode(STARTS, false, Hole) == [Inst(ITestSet, 0), Hole] + Buffer(STARTS);
    assert TestCode(STARTS, false, Off(29)) == [Inst(ITestSet, 0), Off(29)] + Buffer(STARTS);
    var all := Head() + [Inst(IChoice, 0), Off(19)] + EitherCode() + [Inst(IPartialCommit, 0), Off(-15)];
    assert all == Head() + LoopSlots(8, 6, 2, IJmp, 4);
  }

  lemma ProgramIs()
    ensures Program(Pattern()) == Slots(8, 6, 2, IJmp, 4)
  {
    LoopGen();
    SetClass(MARKS, 32, 33, 34);
    hide GetFirst, HeadFailAux, CheckAux, ToCharset, FixedLenX, LoopSlots, Buffer;
    SeqGen();
    SetGen(NoTest);
  }

  lemma SeqGen()
    ensures Gen(true, [], Pattern(), false, NoTest, FULL)
         == Gen(true, [], TRep(Either()), false, NoTest, MARKS) + Gen(true, [], TSet(MARKS), false, NoTest, FULL)
  {
  }

  lemma SetGen(tt: Test)
    requires !tt.Tested?
    ensures Gen(true, [], TSet(MARKS), false, tt, FULL) == [Inst(ISet, 0)] + Buffer(MARKS)
  {
    SetClass(MARKS, 32, 33, 34);
  }

  // ----- it is acceptable -----

  lemma IsWellFormed()
    ensures WellFormed([], Pattern())
  {
    hide FixedLenX;
    assert WellFormed([], Both(98, 99)) && WellFormed([], Both(100, 101));
    assert WellFormed([], Maybe(98, 99));
    assert WellFormed([], Short());
    assert WellFormed([], Either());
    assert WellFormed([], TSet(MARKS));
  }

  lemma IsAcceptable()
    ensures Acceptable([], Pattern())
  {
    EitherAnalysed();
    hide GetFirst, HeadFailAux, CheckAux, First;
    assert Acceptable([], Both(98, 99)) && Acceptable([], Both(100, 101));
    assert Acceptable([], Maybe(98, 99));
    assert Acceptable([], Short());
    assert Acceptable([], Either());
    assert Acceptable([], TSet(MARKS));
  }

  lemma IsSafe()
    ensures SafeOpt([], Pattern(), false, FULL)
  {
    Analysed(97, 98, 99);
    hide GetFirst, HeadFailAux, CheckAux, FixedLenX, First;
    assert SafeOpt([], Both(98, 99), true, FULL) && SafeOpt([], Both(100, 101), false, FULL);
    assert SafeOpt([], Maybe(98, 99), false, FULL);
    assert SafeOpt([], Short(), false, FULL);
    assert TestDecides([], Short(), Both(100, 101), FULL);
    assert SafeOpt([], Either(), false, FULL);
    assert forall fl :: SafeOpt([], TRep(Either()), false, fl);
  }

  lemma FixedSeq(p: Tree, q: Tree)
    requires !p.TSeq? && PegFlat.Fixed(p) == p && PegFlat.Fixed(q) == q
    ensures PegFlat.Fixed(TSeq(p, q)) == TSeq(p, q)
  {
    assert PegFlat.Rotated(TSeq(p, q)) == TSeq(p, q);
  }

  lemma FixedChoice(p: Tree, q: Tree)
    requires !p.TChoice? && PegFlat.Fixed(p) == p && PegFlat.Fixed(q) == q
    ensures PegFlat.Fixed(TChoice(p, q)) == TChoice(p, q)
  {
    assert PegFlat.Rotated(TChoice(p, q)) == TChoice(p, q);
  }

  lemma FixedRest(p: Tree)
    ensures p.TTrue? || p.TSet? || p.TChar? ==> PegFlat.Fixed(p) == p
    ensures PegFlat.Fixed(TRep(p)) == TRep(PegFlat.Fixed(p))
  {
  }

  /** Nothing is turned in it. */
  lemma IsFixed()
    ensures PegFlat.Fixed(Pattern()) == Pattern()
  {
    hide PegFlat.Fixed;
    FixedRest(TChar(97));
    FixedRest(TChar(98));
    FixedRest(TChar(99));
    FixedRest(TChar(100));
    FixedRest(TChar(101));
    FixedRest(TTrue);
    FixedRest(TSet(MARKS));
    FixedRest(Either());
    FixedSeq(TChar(98), TChar(99));
    FixedChoice(Both(98, 99), TTrue);
    FixedSeq(TChar(97), Maybe(98, 99));
    FixedSeq(TChar(100), TChar(101));
    FixedChoice(Short(), Both(100, 101));
    FixedSeq(TRep(Either()), TSet(MARKS));
  }

  // ----- the pass over it -----

  /** What stands where. */
  lemma HeadAt(l16: int, l18: int, l22: int, op: Opcode, l24: int)
    ensures var c := Slots(l16, l18, l22, op, l24); c[0] == Inst(ITestSet, 0) && c[1] == Off(29)
  {
  }

  lemma LoopAt(l16: int, l18: int, l22: int, op: Opcode, l24: int, k: nat)
    requires k < 19
    ensures Slots(l16, l18, l22, op, l24)[10 + k] == LoopSlots(l16, l18, l22, op, l24)[k]
  {
    hide LoopSlots, Head, Tail;
  }

  lemma TailAt(l16: int, l18: int, l22: int, op: Opcode, l24: int)
    ensures
      var c := Slots(l16, l18, l22, op, l24);
      c[29] == Inst(ISet, 0) && c[31] == Buf(Part(MARKS, 1)) && c[32] == Buf(Part(MARKS, 2)) && c[38] == Inst(IEnd, 0)
  {
    hide LoopSlots, Head, Part;
    var c := Slots(l16, l18, l22, op, l24);
    assert forall k :: 0 <= k < 10 ==> c[29 + k] == Tail()[k];
    assert Tail()[2] == Buffer(MARKS)[1] && Tail()[3] == Buffer(MARKS)[2];
    assert c[29 + 0] == Tail()[0] && c[29 + 2] == Tail()[2] && c[29 + 3] == Tail()[3] && c[29 + 9] == Tail()[9];
  }

  lemma LoopChanged(l16: int, l18: int, l22: int, op: Opcode, l24: int, k: nat, x: Slot)
    requires k < 19
    ensures Slots(l16, l18, l22, op, l24)[10 + k := x] == Head() + LoopSlots(l16, l18, l22, op, l24)[k := x] + Tail()
  {
    hide LoopSlots, Head, Tail;
  }

  lemma Facts(l16: int, l18: int, l22: int, op: Opcode, l24: int)
    ensures
      var c := Slots(l16, l18, l22, op, l24);
      && |c| == 39 && c[0] == Inst(ITestSet, 0) && c[1] == Off(29) && c[10] == Inst(IChoice, 0) && c[11] == Off(19)
      && c[12] == Inst(ITestChar, 97) && c[13] == Off(13) && c[14] == Inst(IAny, 0)
      && c[15] == Inst(ITestChar, 98) && c[16] == Off(l16) && c[17] == Inst(IChoice, 0) && c[18] == Off(l18)
      && c[19] == Inst(IAny, 0) && c[20] == Inst(IChar, 99) && c[21] == Inst(ICommit, 0) && c[22] == Off(l22)
      && c[23] == Inst(op, 0) && c[24] == Off(l24) && c[25] == Inst(IChar, 100)
      && c[27] == Inst(IPartialCommit, 0) && c[28] == Off(-15) && c[29] == Inst(ISet, 0)
      && c[31] == Buf(Part(MARKS, 1)) && c[32] == Buf(Part(MARKS, 2))
  {
    hide Slots, Part;
    HeadAt(l16, l18, l22, op, l24);
    TailAt(l16, l18, l22, op, l24);
    var c, b := Slots(l16, l18, l22, op, l24), LoopSlots(l16, l18, l22, op, l24);
    forall k: nat | k < 19 ensures c[10 + k] == b[k] { LoopAt(l16, l18, l22, op, l24, k); }
    assert c[10 + 0] == b[0] && c[10 + 1] == b[1] && c[10 + 2] == b[2] && c[10 + 3] == b[3] && c[10 + 4] == b[4];
    assert c[10 + 5] == b[5] && c[10 + 6] == b[6] && c[10 + 7] == b[7] && c[10 + 8] == b[8] && c[10 + 9] == b[9];
    assert c[10 + 10] == b[10] && c[10 + 11] == b[11] && c[10 + 12] == b[12] && c[10 + 13] == b[13];
    assert c[10 + 14] == b[14] && c[10 + 15] == b[15] && c[10 + 17] == b[17] && c[10 + 18] == b[18];
  }

  lemma Changed(l16: int, l18: int, l22: int, op: Opcode, l24: int, x: int, op': Opcode)
    ensures
      var c := Slots(l16, l18, l22, op, l24);
      && c[16 := Off(x)] == Slots(x, l18, l22, op, l24) && c[18 := Off(x)] == Slots(l16, x, l22, op, l24)
      && c[22 := Off(x)] == Slots(l16, l18, x, op, l24)
      && c[23 := Inst(op', 0)] == Slots(l16, l18, l22, op', l24) && c[24 := Off(x)] == Slots(l16, l18, l22, op, x)
  {
    hide Head, Tail;
    var b := LoopSlots(l16, l18, l22, op, l24);
    LoopChanged(l16, l18, l22, op, l24, 6, Off(x));
    LoopChanged(l16, l18, l22, op, l24, 8, Off(x));
    LoopChanged(l16, l18, l22, op, l24, 12, Off(x));
    LoopChanged(l16, l18, l22, op, l24, 13, Inst(op', 0));
    LoopChanged(l16, l18, l22, op, l24, 14, Off(x));
    assert b[6 := Off(x)] == LoopSlots(x, l18, l22, op, l24);
    assert b[8 := Off(x)] == LoopSlots(l16, x, l22, op, l24);
    assert b[12 := Off(x)] == LoopSlots(l16, l18, x, op, l24);
    assert b[13 := Inst(op', 0)] == LoopSlots(l16, l18, l22, op', l24);
    assert b[14 := Off(x)] == LoopSlots(l16, l18, l22, op, x);
  }

  /** A label that leads to no jump stays. */
  lemma Straight(c: seq<Slot>, i: nat, off: int)
    requires i + 1 < |c| && c[i].Inst? && HasLabel(c[i].op) && c[i + 1] == Off(off)
    requires 0 <= i + off < |c| && c[i + off].Inst? && c[i + off].op != IJmp
    ensures PassStep(true, At(c, i)) == At(c, i + SizeI(c[i].op))
  {
    hide PassStep, SizeI, HasLabel, JumpsTo;
    JumpsToSelf(c, i + off);
    PassesLabel(true, c, i, i + off);
    assert c[i + 1 := Off(i + off - i)] == c;
  }

  /** A label that leads to a jump is moved to where that one leads. */
  lemma OverJump(c: seq<Slot>, i: nat, off: int, on: int)
    requires i + 1 < |c| && c[i].Inst? && HasLabel(c[i].op) && c[i + 1] == Off(off)
    requires var x := i + off; 0 <= x && x + 1 < |c| && c[x].Inst? && c[x].op == IJmp && c[x + 1] == Off(on)
    requires var y := i + off + on; 0 <= y < |c| && c[y].Inst? && c[y].op != IJmp
    ensures PassStep(true, At(c, i)) == At(c[i + 1 := Off(off + on)], i + SizeI(c[i].op))
  {
    hide PassStep, SizeI, HasLabel, JumpsTo;
    var x, y := i + off, i + off + on;
    JumpsToSelf(c, y);
    JumpFirst(c, x, y);
    PassesLabel(true, c, i, y);
    assert y - i == off + on;
  }

  /** A jump that leads to a commit becomes one. */
  lemma Becomes(c: seq<Slot>, x: nat, on: int, off: int)
    requires x + 1 < |c| && c[x].Inst? && c[x].op == IJmp && c[x + 1] == Off(on)
    requires var y := x + on; 0 <= y && y + 1 < |c| && c[y].Inst? && Commits(c[y].op) && c[y + 1] == Off(off)
    requires var z := x + on + off; 0 <= z < |c| && c[z].Inst? && c[z].op != IJmp
    ensures PassStep(true, At(c, x)) == AfterCommit(true, c[x := c[x + on]][x + 1 := Off(on + off)], x)
  {
    hide PassStep, SizeI, Commits, Leaves, JumpsTo, AfterCommit;
    var y, z := x + on, x + on + off;
    CommitStays(c[y].op);
    JumpsToSelf(c, y);
    JumpFirst(c, x, y);
    JumpsToSelf(c, z);
    PassesCommit(true, c, x, y, z);
    assert z - x == on + off;
  }

  lemma Other(c: seq<Slot>, i: nat, op: Opcode)
    requires i < |c| && c[i].Inst? && c[i].op == op && (op == IAny || op == IChar)
    ensures PassStep(true, At(c, i)) == At(c, i + 1)
  {
    hide PassStep;
    PassesOther(true, c, i);
  }

  lemma Sizes()
    ensures HasLabel(ITestSet) && HasLabel(IChoice) && HasLabel(ITestChar) && HasLabel(ICommit) && Commits(IPartialCommit)
    ensures SizeI(ITestSet) == 10 && SizeI(IChoice) == SizeI(ITestChar) == SizeI(ICommit) == 2
  {
  }

  lemma FirstSteps()
    ensures
      var c := Slots(8, 6, 2, IJmp, 4);
      && PassStep(true, At(c, 0)) == At(c, 10) && PassStep(true, At(c, 10)) == At(c, 12)
      && PassStep(true, At(c, 12)) == At(c, 14) && PassStep(true, At(c, 14)) == At(c, 15)
      && PassStep(true, At(c, 15)) == At(Slots(12, 6, 2, IJmp, 4), 17)
  {
    hide *;
    var c := Slots(8, 6, 2, IJmp, 4);
    Facts(8, 6, 2, IJmp, 4);
    Sizes();
    Straight(c, 0, 29);
    Straight(c, 10, 19);
    Straight(c, 12, 13);
    Other(c, 14, IAny);
    OverJump(c, 15, 8, 4);
    Changed(8, 6, 2, IJmp, 4, 12, IJmp);
  }

  lemma MoreSteps()
    ensures
      var c, d := Slots(12, 6, 2, IJmp, 4), Slots(12, 10, 2, IJmp, 4);
      && PassStep(true, At(c, 17)) == At(d, 19) && PassStep(true, At(d, 19)) == At(d, 20)
      && PassStep(true, At(d, 20)) == At(d, 21) && PassStep(true, At(d, 21)) == At(Slots(12, 10, 6, IJmp, 4), 23)
  {
    hide *;
    var c, d := Slots(12, 6, 2, IJmp, 4), Slots(12, 10, 2, IJmp, 4);
    Facts(12, 6, 2, IJmp, 4);
    Facts(12, 10, 2, IJmp, 4);
    Sizes();
    OverJump(c, 17, 6, 4);
    Changed(12, 6, 2, IJmp, 4, 10, IJmp);
    Other(d, 19, IAny);
    Other(d, 20, IChar);
    OverJump(d, 21, 2, 4);
    Changed(12, 10, 2, IJmp, 4, 6, IJmp);
  }

  lemma Skips(d: seq<Slot>)
    requires |d| == 39 && d[22] == Off(6)
    ensures AfterCommit(true, d, 23) == At(d, 31)
  {
  }

  /** The jump becomes a partial commit; the offset in front of it counts as a span. */
  lemma SkippingStep()
    ensures PassStep(true, At(Slots(12, 10, 6, IJmp, 4), 23)) == At(Slots(12, 10, 6, IPartialCommit, -11), 31)
  {
    hide *;
    var c := Slots(12, 10, 6, IJmp, 4);
    Facts(12, 10, 6, IJmp, 4);
    Sizes();
    Becomes(c, 23, 4, -15);
    Changed(12, 10, 6, IJmp, 4, -11, IPartialCommit);
    Changed(12, 10, 6, IPartialCommit, 4, -11, IPartialCommit);
    Facts(12, 10, 6, IPartialCommit, -11);
    Skips(Slots(12, 10, 6, IPartialCommit, -11));
  }

  lemma NoBits(cs: Charset, k: nat)
    requires forall c :: c in cs ==> c % 32 < k
    ensures Bits(cs, k) == 0
    decreases 32 - k
  {
    if k < 32 { NoBits(cs, k + 1); }
  }

  /** The second and the third word of the last set. */
  lemma Words()
    ensures Word(Part(MARKS, 1)) == 11 && Word(Part(MARKS, 2)) == 0
  {
    var cs, none := Part(MARKS, 1), Part(MARKS, 2);
    NoBits(none, 0);
    NoBits(cs, 4);
    assert 32 in cs && 33 in cs && 35 in cs;
    assert HasBit(cs, 0) && HasBit(cs, 1) && HasBit(cs, 3);
    assert !HasBit(cs, 2) && !HasBit(cs, 31) && !HasBit(none, 31);
    assert Bits(cs, 3) == 1 + 2 * Bits(cs, 4);
    assert Bits(cs, 2) == 0 + 2 * Bits(cs, 3);
    assert Bits(cs, 1) == 1 + 2 * Bits(cs, 2);
    assert Bits(cs, 0) == 1 + 2 * Bits(cs, 1);
  }

  lemma {:induction false} NotLeft(c: seq<Slot>, i: int, j: int, n: nat)
    requires Jumping(c, i) && RawTarget(c, i) == i && Chases(c, i, j, n)
    ensures i == j
    decreases n
  {
    if n > 0 { NotLeft(c, i, j, n - 1); }
  }

  lemma SelfJump(c: seq<Slot>, i: nat)
    requires Jumping(c, i) && RawTarget(c, i) == i
    ensures PassStep(true, At(c, i)) == Hangs
  {
    forall j, n: nat | Chases(c, i, j, n) ensures i == j { NotLeft(c, i, j, n); }
    assert Final(c, i) == Endless;
  }

  lemma LastStep()
    ensures PassStep(true, At(Slots(12, 10, 6, IPartialCommit, -11), 31)) == Hangs
  {
    hide PassStep, Slots, Word;
    Facts(12, 10, 6, IPartialCommit, -11);
    Words();
    SelfJump(Slots(12, 10, 6, IPartialCommit, -11), 31);
  }

  lemma RunOfSlots()
    ensures PassRun(true, Slots(8, 6, 2, IJmp, 4), 11) == Hangs
  {
    hide PassStep, PassRun, Slots;
    FirstSteps();
    MoreSteps();
    SkippingStep();
    LastStep();
    var c := Slots(8, 6, 2, IJmp, 4);
    PassBegins(c);
    forall n: nat ensures PassRun(true, c, n + 1) == PassStep(true, PassRun(true, c, n)) { RunNext(true, c, n); }
    assert PassRun(true, c, 0 + 1) == At(c, 10);
    assert PassRun(true, c, 1 + 1) == At(c, 12);
    assert PassRun(true, c, 2 + 1) == At(c, 14);
    assert PassRun(true, c, 3 + 1) == At(c, 15);
    assert PassRun(true, c, 4 + 1) == At(Slots(12, 6, 2, IJmp, 4), 17);
    assert PassRun(true, c, 5 + 1) == At(Slots(12, 10, 2, IJmp, 4), 19);
    assert PassRun(true, c, 6 + 1) == At(Slots(12, 10, 2, IJmp, 4), 20);
    assert PassRun(true, c, 7 + 1) == At(Slots(12, 10, 2, IJmp, 4), 21);
    assert PassRun(true, c, 8 + 1) == At(Slots(12, 10, 6, IJmp, 4), 23);
    assert PassRun(true, c, 9 + 1) == At(Slots(12, 10, 6, IPartialCommit, -11), 31);
    assert PassRun(true, c, 10 + 1) == Hangs;
  }

  lemma PassBegins(c: seq<Slot>)
    ensures PassRun(true, c, 0) == At(c, 0)
  {
  }

  lemma NoMore(p: Pass)
    requires p.At? ==> p.i >= |p.code|
    ensures PassStep(true, p) == p
  {
  }

  /** A pass that has come to its end stays there. */
  lemma {:induction false} StaysSo(c: seq<Slot>, p: Pass, m: nat, n: nat)
    requires PassRun(true, c, m) == p && m <= n && (p.At? ==> p.i >= |p.code|)
    ensures PassRun(true, c, n) == p
    decreases n
  {
    hide PassStep, PassRun;
    if m < n {
      StaysSo(c, p, m, n - 1);
      RunNext(true, c, n - 1);
      NoMore(p);
    }
  }

  /** The compiler accepts the pattern, and the pass as written is caught in finaltarget (the pass that is
      meant ends on every such program: Compiler.Peephole). */
  lemma PassHangs()
    ensures
      var t := Pattern();
      WellFormed([], t) && Acceptable([], t) && SafeOpt([], t, false, FULL) && PegFlat.Fixed(t) == t
    ensures PassRun(true, Program(Pattern()), 11) == Hangs && !AlwaysStepsBack(Program(Pattern()))
    ensures forall d :: !PassEnds(true, Program(Pattern()), d)
  {
    hide *;
    IsWellFormed();
    IsAcceptable();
    IsSafe();
    IsFixed();
    ProgramIs();
    RunOfSlots();
    NeverSame(Pattern(), 11);
    forall d ensures !PassEnds(true, Program(Pattern()), d) { NeverEnds(Program(Pattern()), d, 11); }
  }

  lemma NeverSame(t: Tree, m: nat)
    requires WellFormed([], t) && Acceptable([], t) && PassRun(true, Program(t), m) == Hangs
    ensures !AlwaysStepsBack(Program(t))
  {
    hide Gen, WellFormed, Acceptable, Aligned, LabelsEnd, AlwaysStepsBack, PassRun;
    var c := Program(t);
    CompiledLabelsEnd(t);
    ProgramAligned(t);
    RunThreads(c, m);
    SamePass(c);
  }

  lemma NeverEnds(c: seq<Slot>, d: seq<Slot>, m: nat)
    requires PassRun(true, c, m) == Hangs
    ensures !PassEnds(true, c, d)
  {
    hide PassRun;
    if PassEnds(true, c, d) {
      var n: nat :| PassRun(true, c, n) == At(d, |d|);
      StaysSo(c, Hangs, m, m + n);
      StaysSo(c, At(d, |d|), n, m + n);
    }
  }

  /** A pattern in whose program no jump to a commit stands behind an offset or a buffer is compiled by the
      pass as written just as by the pass that is meant. */
  lemma CompiledAsWritten(t: Tree)
    requires WellFormed([], t) && Acceptable([], t) && Clear(Program(t))
    ensures SamePasses(Program(t)) && AlwaysStepsBack(Program(t))
  {
    hide Gen, WellFormed, Acceptable, Aligned, LabelsEnd, Clear, SamePasses, AlwaysStepsBack;
    CompiledLabelsEnd(t);
    ProgramAligned(t);
    ClearIsSame(Program(t));
    SamePass(Program(t));
  }
}
