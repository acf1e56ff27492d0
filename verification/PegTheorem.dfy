/** What LPeg promises: matching with the compiled program gives what the pattern means. */
module PegTheorem {
  import opened PegTree
  import opened PegAnalysis
  import opened PegMachine
  import opened PegCode
  import opened PegBlocks
  import opened PegClose
  import opened PegCorrect
  import opened PegTail
  import opened PegThread
  import opened PegVerify
  import opened PegJumps
  import opened PegCompiler

  /** How the machine ends when the pattern gives o. */
  function Verdict(o: Outcome): State
    requires !o.Unknown?
  {
    if o.Ok? then Accept(o.pos) else GaveUp
  }

  /** The program, still with every call as a call, does what the pattern means. */
  lemma PlainProgramMeans(t: Tree, s: seq<Byte>, init: nat, o: Outcome)
    requires WellFormed([], t) && Acceptable([], t) && SafeOpt([], t, false, FULL)
    requires init <= |s| && Means([], t, s, init, o)
    ensures Reaches(Gen(false, [], t, false, NoTest, FULL) + [Inst(IEnd, 0)], s, Start(init), Verdict(o))
  {
    hide Gen, WellFormed, Acceptable, SafeOpt, Twins, Eval;
    var c := Gen(false, [], t, false, NoTest, FULL);
    var code, stk := c + [Inst(IEnd, 0)], Choice(GIVEUP, init, Empty);
    var k: nat :| Eval(k, [], t, s, init) == o;
    Programs(t);
    Simulates(k, code, s, [], [], t, false, NoTest, FULL, 0, init, stk);
    if o.Ok? {
      Then(code, s, Start(init), Run(|c|, o.pos, stk));
    } else {
      Then(code, s, Start(init), Run(GIVEUP, init, Empty));
    }
  }

  /** Tail calls and threaded jumps change nothing of that. */
  lemma CompiledReaches(t: Tree, code: seq<Slot>, s: seq<Byte>, init: nat, o: Outcome)
    requires WellFormed([], t) && Acceptable([], t) && SafeOpt([], t, false, FULL)
    requires Keeps(Program(t), code)
    requires init <= |s| && Means([], t, s, init, o)
    ensures Reaches(code, s, Start(init), Verdict(o))
  {
    hide Gen, WellFormed, Acceptable, SafeOpt, Twins, Eval;
    PlainProgramMeans(t, s, init, o);
    Programs(t);
    TailCallsKeepResults(Gen(false, [], t, false, NoTest, FULL) + [Inst(IEnd, 0)], Program(t), s, init, Verdict(o));
  }

  /** Matching a compiled pattern always ends; it ends with r accepted exactly if the pattern matches up
      to r, and it gives up exactly if the pattern fails. */
  lemma CompiledMeans(t: Tree, code: seq<Slot>, s: seq<Byte>, init: nat, e: State)
    requires WellFormed([], t) && Acceptable([], t) && SafeOpt([], t, false, FULL)
    requires Keeps(Program(t), code) && init <= |s|
    ensures Defined([], t, s, init)
    ensures Halted(e) ==> (Reaches(code, s, Start(init), e) <==> e == Verdict(Result([], t, s, init)))
  {
    hide Gen, WellFormed, Acceptable, SafeOpt, Eval;
    PatternTerminates([], t, s, init);
    var o := Result([], t, s, init);
    CompiledReaches(t, code, s, init, o);
    if Halted(e) && Reaches(code, s, Start(init), e) { HaltsOneWay(code, s, Start(init), e, Verdict(o)); }
  }
}
