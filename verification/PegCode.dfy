/** What codegen generates, as a function of the pattern: the specification of the code generator in
    module PegCompiler.  All offsets are relative, so the code does not depend on where it is put.

    Calls come out open (IOpenCall and a hole) and are closed at the end of their grammar; tl tells
    whether a call in front of a return is then turned into a jump. */
module PegCode {
  import opened PegTree
  import opened PegAnalysis
  import opened PegMachine

  datatype Class = CEmpty | CSingle(c: Byte) | CAll | COther

  ghost function ClassOf(cs: Charset): Class {
    if cs == {} then CEmpty
    else if cs == FULL then CAll
    else if exists c :: c in cs && cs == {c} then (var c :| c in cs && cs == {c}; CSingle(c))
    else COther
  }

  /** The part of a character set that goes into its k-th slot. */
  function Part(cs: Charset, k: nat): Charset { set c | c in cs && c / 32 == k }

  function Buffer(cs: Charset): (b: seq<Slot>)
    ensures |b| == CHARSETINSTSIZE - 1
  {
    seq(CHARSETINSTSIZE - 1, k requires 0 <= k => Buf(Part(cs, k)))
  }

  /** The test known to have succeeded where a piece of code starts. */
  datatype Test = NoTest | Tested(cs: Charset)

  ghost predicate Holds(tt: Test, s: seq<Byte>, i: nat) {
    tt.Tested? ==> i < |s| && s[i] in tt.cs
  }

  /** A test instruction that jumps by off unless the next character is in cs; none at all if e. */
  ghost function TestCode(cs: Charset, e: bool, off: Slot): seq<Slot> {
    if e then []
    else match ClassOf(cs)
      case CEmpty => [Inst(IJmp, 0), off]
      case CAll => [Inst(ITestAny, 0), off]
      case CSingle(c) => [Inst(ITestChar, c), off]
      case COther => [Inst(ITestSet, 0), off] + Buffer(cs)
  }

  /** What code behind that test instruction may rely on. */
  ghost function TestOf(cs: Charset, e: bool): Test {
    if !e && (ClassOf(cs).CSingle? || ClassOf(cs).COther?) then Tested(cs) else NoTest
  }

  ghost function CharCode(c: Byte, tt: Test): seq<Slot> {
    if tt == Tested({c}) then [Inst(IAny, 0)] else [Inst(IChar, c)]
  }

  ghost function SetCode(cs: Charset, tt: Test): seq<Slot> {
    match ClassOf(cs)
    case CEmpty => [Inst(IFail, 0)]
    case CAll => [Inst(IAny, 0)]
    case CSingle(c) => CharCode(c, tt)
    case COther => if tt == Tested(cs) then [Inst(IAny, 0)] else [Inst(ISet, 0)] + Buffer(cs)
  }

  function Jump(op: Opcode, off: int): seq<Slot> { [Inst(op, 0), Off(off)] }

  /** p1 is entered only on a character on which p2 would be of no use, and the other way round. */
  ghost predicate TestDecides(g: seq<Tree>, p1: Tree, p2: Tree, fl: Charset) {
    var f1 := First(g, p1, FULL);
    HeadFail(g, p1) || (!f1.e && f1.cs !! First(g, p2, fl).cs)
  }

  ghost predicate TestEndsLoop(g: seq<Tree>, p: Tree, fl: Charset) {
    var f := First(g, p, FULL);
    HeadFail(g, p) || (!f.e && f.cs !! fl)
  }

  ghost function FollowOf(g: seq<Tree>, p1: Tree, p2: Tree, fl: Charset): Charset {
    if NeedFollow(p1) then First(g, p2, fl).cs else FULL
  }

  ghost function TestAfter(g: seq<Tree>, p1: Tree, tt: Test): Test {
    if FixedLen(g, p1) != 0 then NoTest else tt
  }

  ghost function Gen(tl: bool, g: seq<Tree>, t: Tree, opt: bool, tt: Test, fl: Charset): seq<Slot>
    decreases t, 0
  {
    match t
    case TChar(c) => CharCode(c, tt)
    case TAny => [Inst(IAny, 0)]
    case TSet(cs) => SetCode(cs, tt)
    case TTrue => []
    case TFalse => [Inst(IFail, 0)]
    case TSeq(p1, p2) =>
      Gen(tl, g, p1, false, tt, FollowOf(g, p1, p2, fl)) + Gen(tl, g, p2, opt, TestAfter(g, p1, tt), fl)
    case TChoice(p1, p2) =>
      var f1 := First(g, p1, FULL);
      if TestDecides(g, p1, p2, fl) then
        var b1 := Gen(tl, g, p1, false, TestOf(f1.cs, false), fl);
        var b2 := Gen(tl, g, p2, opt, NoTest, fl);
        ChoiceByTest(f1.cs, b1, b2, p2.TTrue?)
      else if opt && p2.TTrue? then
        Jump(IPartialCommit, 2) + Gen(tl, g, p1, true, NoTest, FULL)
      else
        var b1 := Gen(tl, g, p1, p2.TTrue?, TestOf(f1.cs, f1.e), FULL);
        var b2 := Gen(tl, g, p2, opt, NoTest, fl);
        ChoiceByChoice(f1, b1, b2)
    case TRep(p) =>
      if ToCharset(p).Some? then [Inst(ISpan, 0)] + Buffer(ToCharset(p).value)
      else
        var f := First(g, p, FULL);
        if TestEndsLoop(g, p, fl) then
          LoopByTest(f.cs, Gen(tl, g, p, opt, TestOf(f.cs, false), FULL))
        else
          LoopByChoice(f, opt, Gen(tl, g, p, false, NoTest, FULL))
    case TNot(p) =>
      var f := First(g, p, FULL);
      if HeadFail(g, p) then NotByTest(f) else NotByChoice(f, Gen(tl, g, p, false, NoTest, FULL))
    case TAnd(p) =>
      var n := FixedLen(g, p);
      var b := Gen(tl, g, p, false, tt, FULL);
      if 0 <= n <= MAXBEHIND then b + (if n > 0 then [Inst(IBehind, n)] else [])
      else AndByChoice(b)
    case TBehind(n, p) => (if n > 0 then [Inst(IBehind, n)] else []) + Gen(tl, g, p, false, NoTest, FULL)
    case TCall(r) => [Inst(IOpenCall, r), Hole]
    case TGrammar(rs) =>
      var body := RulesCode(tl, rs, |rs|);
      Jump(ICall, 4) + Jump(IJmp, 2 + |body|) + CloseCalls(tl, body, RulePositions(tl, rs), 0)
  }

  /** What the generator makes of a choice, and of a loop. */
  lemma ChoiceGen(tl: bool, g: seq<Tree>, p1: Tree, p2: Tree, opt: bool, tt: Test, fl: Charset)
    ensures
      var f1 := First(g, p1, FULL);
      Gen(tl, g, TChoice(p1, p2), opt, tt, fl)
      == if TestDecides(g, p1, p2, fl) then
           ChoiceByTest(f1.cs, Gen(tl, g, p1, false, TestOf(f1.cs, false), fl), Gen(tl, g, p2, opt, NoTest, fl), p2.TTrue?)
         else if opt && p2.TTrue? then Jump(IPartialCommit, 2) + Gen(tl, g, p1, true, NoTest, FULL)
         else ChoiceByChoice(f1, Gen(tl, g, p1, p2.TTrue?, TestOf(f1.cs, f1.e), FULL), Gen(tl, g, p2, opt, NoTest, fl))
  {
  }

  lemma RepGen(tl: bool, g: seq<Tree>, p: Tree, opt: bool, tt: Test, fl: Charset)
    requires ToCharset(p).None?
    ensures
      var f := First(g, p, FULL);
      Gen(tl, g, TRep(p), opt, tt, fl)
      == if TestEndsLoop(g, p, fl) then LoopByTest(f.cs, Gen(tl, g, p, opt, TestOf(f.cs, false), FULL))
         else LoopByChoice(f, opt, Gen(tl, g, p, false, NoTest, FULL))
  {
  }

  /** test L1; b1; jmp L2; L1: b2; L2: */
  ghost function ChoiceByTest(cs: Charset, b1: seq<Slot>, b2: seq<Slot>, emptyp2: bool): seq<Slot> {
    var jmp := if emptyp2 then [] else Jump(IJmp, 2 + |b2|);
    var tst := TestCode(cs, false, Hole);
    TestCode(cs, false, Off(|tst| + |b1| + |jmp|)) + b1 + jmp + b2
  }

  /** test L1; choice L1; b1; commit L2; L1: b2; L2: */
  ghost function ChoiceByChoice(f: FirstInfo, b1: seq<Slot>, b2: seq<Slot>): seq<Slot> {
    var tst := TestCode(f.cs, f.e, Hole);
    TestCode(f.cs, f.e, Off(|tst| + 2 + |b1| + 2)) + Jump(IChoice, 2 + |b1| + 2) + b1
    + Jump(ICommit, 2 + |b2|) + b2
  }

  /** L1: test L2; b; jmp L1; L2: */
  ghost function LoopByTest(cs: Charset, b: seq<Slot>): seq<Slot> {
    var tst := TestCode(cs, false, Hole);
    TestCode(cs, false, Off(|tst| + |b| + 2)) + b + Jump(IJmp, -(|tst| + |b|))
  }

  /** test L2; choice L2 (or partialcommit L1); L1: b; partialcommit L1; L2: */
  ghost function LoopByChoice(f: FirstInfo, opt: bool, b: seq<Slot>): seq<Slot> {
    var tst := TestCode(f.cs, f.e, Hole);
    TestCode(f.cs, f.e, Off(|tst| + 2 + |b| + 2))
    + (if opt then Jump(IPartialCommit, 2) else Jump(IChoice, 2 + |b| + 2))
    + b + Jump(IPartialCommit, -|b|)
  }

  /** test L1; fail; L1: */
  ghost function NotByTest(f: FirstInfo): seq<Slot> {
    TestCode(f.cs, f.e, Off(|TestCode(f.cs, f.e, Hole)| + 1)) + [Inst(IFail, 0)]
  }

  /** test L1; choice L1; b; failtwice; L1: */
  ghost function NotByChoice(f: FirstInfo, b: seq<Slot>): seq<Slot> {
    TestCode(f.cs, f.e, Off(|TestCode(f.cs, f.e, Hole)| + 2 + |b| + 1)) + Jump(IChoice, 2 + |b| + 1)
    + b + [Inst(IFailTwice, 0)]
  }

  /** choice L1; b; backcommit L2; L1: fail; L2: */
  ghost function AndByChoice(b: seq<Slot>): seq<Slot> {
    Jump(IChoice, 2 + |b| + 2) + b + Jump(IBackCommit, 3) + [Inst(IFail, 0)]
  }

  /** The code of the first n rules, each ended by a return. */
  ghost function RulesCode(tl: bool, rs: seq<Tree>, n: nat): seq<Slot>
    requires n <= |rs|
    decreases rs, n
  {
    if n == 0 then []
    else RulesCode(tl, rs, n - 1) + Gen(tl, rs, rs[n - 1], false, NoTest, FULL) + [Inst(IRet, 0)]
  }

  /** Where each rule starts, counted from the first one. */
  ghost function RulePositions(tl: bool, rs: seq<Tree>): (pos: seq<int>)
    ensures |pos| == |rs|
    decreases rs, |rs| + 1
  {
    seq(|rs|, n requires 0 <= n < |rs| => |RulesCode(tl, rs, n)|)
  }

  /** Slot j is where the jumps starting at slot i end up. */
  ghost predicate JumpsTo(code: seq<Slot>, i: int, j: int) {
    exists n: nat :: JumpsIn(code, i, j, n)
  }

  ghost predicate JumpsIn(code: seq<Slot>, i: int, j: int, n: nat)
    decreases n
  {
    if n == 0 then i == j
    else IsOp(code, i, IJmp) && HasOff(code, i) && JumpsIn(code, Target(code, i), j, n - 1)
  }

  ghost predicate LeadsToRet(code: seq<Slot>, i: int) {
    exists j :: JumpsTo(code, i, j) && IsOp(code, j, IRet)
  }

  /** Turn open calls into calls, or into jumps in front of a return (only if tl), from slot i on. */
  ghost function CloseCalls(tl: bool, code: seq<Slot>, pos: seq<int>, i: nat): (r: seq<Slot>)
    ensures |r| == |code|
    decreases |code| - i
  {
    if i >= |code| then code
    else if IsOp(code, i, IOpenCall) && i + 1 < |code| && 0 <= code[i].arg < |pos| then
      var op := if tl && LeadsToRet(code, i + 2) then IJmp else ICall;
      var n := code[i].arg;
      CloseCalls(tl, code[i := Inst(op, n)][i + 1 := Off(pos[n] - i)], pos, i + 2)
    else CloseCalls(tl, code, pos, i + 1)
  }
}
