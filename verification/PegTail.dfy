/** Turning a call in front of a return into a jump does not change any result. */
module PegTail {
  import opened PegTree
  import opened PegMachine
  import opened PegCode
  import opened PegClose

  /** The stack y of the optimized program lacks some pending calls that would only lead to a return. */
  ghost predicate Fewer(d: seq<Slot>, x: Stk, y: Stk)
    decreases x
  {
    match x
    case Empty => y == Empty
    case Choice(pc, pos, below) => y.Choice? && y.pc == pc && y.pos == pos && Fewer(d, below, y.below)
    case Ret(pc, below) => (y.Ret? && y.pc == pc && Fewer(d, below, y.below)) || (LeadsToRet(d, pc) && Fewer(d, below, y))
  }

  /** b is where the optimized program d is when the program with calls is in a: at the same place, or
      already at the return to which a leads. */
  ghost predicate Matches(d: seq<Slot>, a: State, b: State) {
    match a
    case Run(p, i, x) =>
      b.Run? && b.pos == i && Fewer(d, x, b.stk) &&
      (b.pc == p || (LeadsToRet(d, p) && IsOp(d, b.pc, IRet)))
    case _ => b == a
  }

  lemma {:induction false} BacktrackMatches(d: seq<Slot>, x: Stk, y: Stk)
    requires Fewer(d, x, y)
    ensures Matches(d, Backtrack(x), Backtrack(y))
    decreases x
  {
    match x
    case Ret(pc, below) =>
      if y.Ret? && y.pc == pc && Fewer(d, below, y.below) { BacktrackMatches(d, below, y.below); }
      else { BacktrackMatches(d, below, y); }
    case _ =>
  }

  lemma TwinSlot(c: seq<Slot>, d: seq<Slot>, k: int)
    requires Twins(c, d) && 0 <= k < |c|
    ensures d[k] == c[k] || (c[k].Inst? && d[k].Inst?)
  {
  }

  lemma TwinBuffers(c: seq<Slot>, d: seq<Slot>, p: int, b: Byte)
    requires Twins(c, d)
    ensures InBuffer(d, p, b) == InBuffer(c, p, b)
  {
    if 0 <= p && p + b / 32 < |c| { TwinSlot(c, d, p + b / 32); }
  }

  lemma {:induction false} TwinSpans(c: seq<Slot>, d: seq<Slot>, p: int, s: seq<Byte>, i: nat)
    requires Twins(c, d)
    ensures SpanEnd(d, p, s, i) == SpanEnd(c, p, s, i)
    decreases |s| - i
  {
    if i < |s| {
      TwinBuffers(c, d, p, s[i]);
      TwinSpans(c, d, p, s, i + 1);
    }
  }

  /** From a state where both programs are at the same instruction, both take a step, or the program with
      calls returns through a pending call the other one does not have. */
  lemma SameStep(c: seq<Slot>, d: seq<Slot>, s: seq<Byte>, a: State, b: State)
    requires Twins(c, d) && Matches(d, a, b) && a.Run? && b.pc == a.pc
    requires Step(c, s, a) != Stuck
    ensures Matches(d, Step(c, s, a), Step(d, s, b)) || Matches(d, Step(c, s, a), b)
  {
    var p, i, x, y := a.pc, a.pos, a.stk, b.stk;
    if p == GIVEUP { return; }
    TwinSlot(c, d, p);
    if p + 1 < |c| { TwinSlot(c, d, p + 1); }
    if d[p] == c[p] { SameInstruction(c, d, s, a, b); }
  }

  predicate Branches(op: Opcode) {
    op in {ITestAny, ITestChar, ITestSet, IJmp, IChoice, ICall, ICommit, IPartialCommit, IBackCommit}
  }

  lemma SameInstruction(c: seq<Slot>, d: seq<Slot>, s: seq<Byte>, a: State, b: State)
    requires Twins(c, d) && Matches(d, a, b) && a.Run? && b.pc == a.pc
    requires 0 <= a.pc < |c| && d[a.pc] == c[a.pc] && Step(c, s, a) != Stuck
    ensures Matches(d, Step(c, s, a), Step(d, s, b)) || Matches(d, Step(c, s, a), b)
  {
    hide LeadsToRet, SpanEnd, InBuffer, Twins, HasOff, Target, TailCall, Step, Matches;
    if !c[a.pc].Inst? { NoInstruction(c, s, a); }
    else if Branches(c[a.pc].op) { SameBranch(c, d, s, a, b); }
    else { SamePlain(c, d, s, a, b); }
  }

  lemma NoInstruction(c: seq<Slot>, s: seq<Byte>, a: State)
    requires a.Run? && 0 <= a.pc < |c| && !c[a.pc].Inst?
    ensures Step(c, s, a) == Stuck
  {
  }

  lemma SameBranch(c: seq<Slot>, d: seq<Slot>, s: seq<Byte>, a: State, b: State)
    requires Twins(c, d) && Matches(d, a, b) && a.Run? && b.pc == a.pc
    requires 0 <= a.pc < |c| && d[a.pc] == c[a.pc] && Step(c, s, a) != Stuck
    requires c[a.pc].Inst? && Branches(c[a.pc].op)
    ensures Matches(d, Step(c, s, a), Step(d, s, b))
  {
    hide LeadsToRet, SpanEnd, InBuffer, Twins, HasOff, Target, TailCall;
    if a.pos < |s| { TwinBuffers(c, d, a.pc + 2, s[a.pos]); }
    TwinOffset(c, d, a.pc);
  }

  lemma SamePlain(c: seq<Slot>, d: seq<Slot>, s: seq<Byte>, a: State, b: State)
    requires Twins(c, d) && Matches(d, a, b) && a.Run? && b.pc == a.pc
    requires 0 <= a.pc < |c| && d[a.pc] == c[a.pc] && Step(c, s, a) != Stuck
    requires c[a.pc].Inst? && !Branches(c[a.pc].op)
    ensures Matches(d, Step(c, s, a), Step(d, s, b)) || Matches(d, Step(c, s, a), b)
  {
    var p, i, x, y := a.pc, a.pos, a.stk, b.stk;
    assert p < |d|;
    hide LeadsToRet, SpanEnd, InBuffer, Twins, HasOff, Target, TailCall;
    BacktrackMatches(d, x, y);
    if x.Choice? { BacktrackMatches(d, x.below, y.below); }
    if i < |s| { TwinBuffers(c, d, p + 1, s[i]); }
    TwinSpans(c, d, p + 1, s, i);
  }

  lemma TwinOffset(c: seq<Slot>, d: seq<Slot>, p: int)
    requires Twins(c, d)
    ensures |c| == |d|
    ensures HasOff(c, p) ==> HasOff(d, p) && Target(d, p) == Target(c, p)
  {
    if HasOff(c, p) { TwinSlot(c, d, p + 1); }
  }

  /** From a state that only leads to a return, the other program waiting at its return. */
  lemma ReturnStep(c: seq<Slot>, d: seq<Slot>, s: seq<Byte>, a: State, b: State)
    requires Twins(c, d) && Matches(d, a, b) && a.Run? && b.pc != a.pc
    requires Step(c, s, a) != Stuck
    ensures Matches(d, Step(c, s, a), Step(d, s, b)) || Matches(d, Step(c, s, a), b)
  {
    var p := a.pc;
    var j :| JumpsTo(d, p, j) && IsOp(d, j, IRet);
    var n: nat :| JumpsIn(d, p, j, n);
    if p == GIVEUP { return; }
    TwinSlot(c, d, p);
    if n > 0 {
      var t := Target(d, p);
      assert JumpsIn(d, t, j, n - 1);
      assert JumpsTo(d, t, j);
      assert LeadsToRet(d, t);
      TwinSlot(c, d, p + 1);
    }
  }

  lemma StepMatches(c: seq<Slot>, d: seq<Slot>, s: seq<Byte>, a: State, b: State)
    requires Twins(c, d) && Matches(d, a, b) && a.Run?
    requires Step(c, s, a) != Stuck
    ensures Matches(d, Step(c, s, a), Step(d, s, b)) || Matches(d, Step(c, s, a), b)
  {
    if b.pc == a.pc { SameStep(c, d, s, a, b); } else { ReturnStep(c, d, s, a, b); }
  }

  lemma {:induction false} RunMatches(c: seq<Slot>, d: seq<Slot>, s: seq<Byte>, a: State, b: State, n: nat, r: State)
    requires Twins(c, d) && Matches(d, a, b)
    requires Steps(c, s, a, n) == r && Halted(r) && r != Stuck
    ensures Reaches(d, s, b, r)
    decreases n
  {
    if n == 0 || !a.Run? {
      HaltedOrZero(c, s, a, n);
      Stay(d, s, b);
    } else {
      var a' := Step(c, s, a);
      if a' == Stuck { HaltedStays(c, s, a', n - 1); }
      StepMatches(c, d, s, a, b);
      if Matches(d, a', b) {
        RunMatches(c, d, s, a', b, n - 1, r);
      } else {
        RunMatches(c, d, s, a', Step(d, s, b), n - 1, r);
        One(d, s, b);
        Trans(d, s, b, Step(d, s, b), r);
      }
    }
  }

  lemma HaltedOrZero(c: seq<Slot>, s: seq<Byte>, a: State, n: nat)
    requires n == 0 || Halted(a)
    ensures Steps(c, s, a, n) == a
  {
    if n > 0 { HaltedStays(c, s, a, n); }
  }

  /** Every result of the program with calls is a result of the program with tail calls. */
  lemma TailCallsKeepResults(c: seq<Slot>, d: seq<Slot>, s: seq<Byte>, init: nat, r: State)
    requires Twins(c, d)
    requires Reaches(c, s, Start(init), r) && Halted(r) && r != Stuck
    ensures Reaches(d, s, Start(init), r)
  {
    var n: nat :| Steps(c, s, Start(init), n) == r;
    RunMatches(c, d, s, Start(init), Start(init), n, r);
  }
}
