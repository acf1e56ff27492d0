/** LPeg's bytecode and the machine that runs it (match in lpvm.c).

    Code is an array of slots: an instruction takes one slot, plus one for its offset if it has a label,
    plus eight for a character set if it carries one.  Offsets are relative to the instruction. */
module PegMachine {
  import opened PegTree

  datatype Opcode =
    | IAny | IChar | ISet | ITestAny | ITestChar | ITestSet | ISpan | IBehind | IRet | IEnd
    | IChoice | IJmp | ICall | IOpenCall | ICommit | IPartialCommit | IBackCommit
    | IFailTwice | IFail

  /** A slot: an instruction with its argument (character, length or rule number), an offset, 32 bits
      of a character set, or space left open for an offset. */
  datatype Slot = Inst(op: Opcode, arg: int) | Off(d: int) | Buf(cs: Charset) | Hole

  const CHARSETINSTSIZE := 9

  function SizeI(op: Opcode): (n: nat)
  {
    match op
    case ISet => CHARSETINSTSIZE
    case ISpan => CHARSETINSTSIZE
    case ITestSet => CHARSETINSTSIZE + 1
    case ITestChar => 2
    case ITestAny => 2
    case IChoice => 2
    case IJmp => 2
    case ICall => 2
    case IOpenCall => 2
    case ICommit => 2
    case IPartialCommit => 2
    case IBackCommit => 2
    case _ => 1
  }

  /** The backtrack stack.  The entry at the bottom is the one that gives up. */
  datatype Stk = Empty | Choice(pc: int, pos: nat, below: Stk) | Ret(pc: int, below: Stk)

  /** Stuck stands for a violated assertion of the interpreter, or for IFailTwice on a pending call. */
  datatype State = Run(pc: int, pos: nat, stk: Stk) | Accept(pos: nat) | GaveUp | Stuck

  /** Where the instruction that gives up lives: outside every program. */
  const GIVEUP := -1

  function Start(init: nat): State { Run(0, init, Choice(GIVEUP, init, Empty)) }

  /** The fail: label of the interpreter: drop pending calls, then take the last choice. */
  function Backtrack(stk: Stk): State {
    match stk
    case Empty => Stuck
    case Ret(_, below) => Backtrack(below)
    case Choice(pc, pos, below) => Run(pc, pos, below)
  }

  predicate IsOp(code: seq<Slot>, p: int, op: Opcode) {
    0 <= p < |code| && code[p].Inst? && code[p].op == op
  }

  predicate HasOff(code: seq<Slot>, p: int) { 0 <= p && p + 1 < |code| && code[p + 1].Off? }

  function Target(code: seq<Slot>, p: int): int
    requires HasOff(code, p)
  {
    p + code[p + 1].d
  }

  predicate InBuffer(code: seq<Slot>, p: int, c: Byte) {
    0 <= p && p + c / 32 < |code| && code[p + c / 32].Buf? && c in code[p + c / 32].cs
  }

  function SpanEnd(code: seq<Slot>, p: int, s: seq<Byte>, i: nat): (j: nat)
    decreases |s| - i
  {
    if i < |s| && InBuffer(code, p, s[i]) then SpanEnd(code, p, s, i + 1) else i
  }

  function Goto(code: seq<Slot>, p: int, i: nat, stk: Stk): State {
    if HasOff(code, p) then Run(Target(code, p), i, stk) else Stuck
  }

  function Step(code: seq<Slot>, s: seq<Byte>, st: State): State {
    match st
    case Run(p, i, stk) =>
      if p == GIVEUP then (if stk == Empty then GaveUp else Stuck)
      else if !(0 <= p < |code|) || !code[p].Inst? then Stuck
      else (match code[p].op
            case IEnd => if stk.Choice? && stk.below == Empty then Accept(i) else Stuck
            case IRet => if stk.Ret? then Run(stk.pc, i, stk.below) else Stuck
            case IAny => if i < |s| then Run(p + 1, i + 1, stk) else Backtrack(stk)
            case ITestAny => if i < |s| then Run(p + 2, i, stk) else Goto(code, p, i, stk)
            case IChar => if i < |s| && s[i] == code[p].arg then Run(p + 1, i + 1, stk) else Backtrack(stk)
            case ITestChar =>
              if i < |s| && s[i] == code[p].arg then Run(p + 2, i, stk) else Goto(code, p, i, stk)
            case ISet =>
              if i < |s| && InBuffer(code, p + 1, s[i]) then Run(p + CHARSETINSTSIZE, i + 1, stk)
              else Backtrack(stk)
            case ITestSet =>
              if i < |s| && InBuffer(code, p + 2, s[i]) then Run(p + 1 + CHARSETINSTSIZE, i, stk)
              else Goto(code, p, i, stk)
            case IBehind =>
              if code[p].arg > i then Backtrack(stk)
              else if code[p].arg < 0 then Stuck
              else Run(p + 1, i - code[p].arg, stk)
            case ISpan => Run(p + CHARSETINSTSIZE, SpanEnd(code, p + 1, s, i), stk)
            case IJmp => Goto(code, p, i, stk)
            case IChoice => if HasOff(code, p) then Run(p + 2, i, Choice(Target(code, p), i, stk)) else Stuck
            case ICall => Goto(code, p, i, Ret(p + 2, stk))
            case ICommit => if stk.Choice? then Goto(code, p, i, stk.below) else Stuck
            case IPartialCommit =>
              if stk.Choice? then Goto(code, p, i, Choice(stk.pc, i, stk.below)) else Stuck
            case IBackCommit => if stk.Choice? then Goto(code, p, stk.pos, stk.below) else Stuck
            case IFailTwice => if stk.Choice? then Backtrack(stk.below) else Stuck
            case IFail => Backtrack(stk)
            case IOpenCall => Stuck)
    case _ => st
  }

  ghost function Steps(code: seq<Slot>, s: seq<Byte>, st: State, n: nat): State
    decreases n
  {
    if n == 0 then st else Steps(code, s, Step(code, s, st), n - 1)
  }

  ghost predicate Reaches(code: seq<Slot>, s: seq<Byte>, a: State, b: State) {
    exists n: nat :: Steps(code, s, a, n) == b
  }

  lemma Stay(code: seq<Slot>, s: seq<Byte>, a: State)
    ensures Reaches(code, s, a, a)
  {
    assert Steps(code, s, a, 0) == a;
  }

  lemma One(code: seq<Slot>, s: seq<Byte>, a: State)
    ensures Reaches(code, s, a, Step(code, s, a))
  {
    var b := Step(code, s, a);
    assert Steps(code, s, b, 0) == b;
    assert Steps(code, s, a, 1) == b;
  }

  lemma {:induction false} StepsAdd(code: seq<Slot>, s: seq<Byte>, a: State, n: nat, m: nat)
    ensures Steps(code, s, a, n + m) == Steps(code, s, Steps(code, s, a, n), m)
    decreases n
  {
    if n > 0 { StepsAdd(code, s, Step(code, s, a), n - 1, m); }
  }

  lemma Trans(code: seq<Slot>, s: seq<Byte>, a: State, b: State, c: State)
    requires Reaches(code, s, a, b) && Reaches(code, s, b, c)
    ensures Reaches(code, s, a, c)
  {
    var n: nat :| Steps(code, s, a, n) == b;
    var m: nat :| Steps(code, s, b, m) == c;
    StepsAdd(code, s, a, n, m);
  }

  /** A step on the way never hurts. */
  lemma Then(code: seq<Slot>, s: seq<Byte>, a: State, b: State)
    requires Reaches(code, s, a, b)
    ensures Reaches(code, s, a, Step(code, s, b))
  {
    One(code, s, b);
    Trans(code, s, a, b, Step(code, s, b));
  }

  ghost predicate Halted(st: State) { !st.Run? }

  lemma {:induction false} HaltedStays(code: seq<Slot>, s: seq<Byte>, a: State, n: nat)
    requires Halted(a)
    ensures Steps(code, s, a, n) == a
    decreases n
  {
    if n > 0 { HaltedStays(code, s, a, n - 1); }
  }

  /** The machine is deterministic: it halts in at most one way. */
  lemma HaltsOneWay(code: seq<Slot>, s: seq<Byte>, a: State, b: State, c: State)
    requires Reaches(code, s, a, b) && Reaches(code, s, a, c) && Halted(b) && Halted(c)
    ensures b == c
  {
    var n: nat :| Steps(code, s, a, n) == b;
    var m: nat :| Steps(code, s, a, m) == c;
    StepsAdd(code, s, a, n, m);
    StepsAdd(code, s, a, m, n);
    HaltedStays(code, s, b, m);
    HaltedStays(code, s, c, n);
    assert n + m == m + n;
  }
}
