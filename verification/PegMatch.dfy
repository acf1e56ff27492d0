/** The interpreter loop (match in lpvm.c), over an array of stack entries that grows on demand. */
module PegMatch {
  import opened Wrappers
  import opened PegTree
  import opened PegMachine
  import opened PegCode
  import opened PegClose
  import opened PegVerify
  import opened PegThread
  import opened PegCompiler
  import opened PegTheorem
  import PegFlat
  import opened PegFixed

  const INITBACK := 100

  /** An entry of the backtrack stack; a pending call has no subject position. */
  datatype Entry = Entry(p: int, s: Option<nat>)

  ghost function StkOf(es: seq<Entry>): Stk {
    if es == [] then Empty
    else
      var e, below := es[|es| - 1], StkOf(es[..|es| - 1]);
      if e.s.Some? then Choice(e.p, e.s.value, below) else Ret(e.p, below)
  }

  ghost function Depth(stk: Stk): nat {
    if stk == Empty then 0 else 1 + Depth(stk.below)
  }

  lemma {:induction false} DepthOf(es: seq<Entry>)
    ensures Depth(StkOf(es)) == |es|
  {
    if es != [] { DepthOf(es[..|es| - 1]); }
  }

  lemma StkOfPlus(es: seq<Entry>, e: Entry)
    ensures StkOf(es + [e]) == if e.s.Some? then Choice(e.p, e.s.value, StkOf(es)) else Ret(e.p, StkOf(es))
  {
    assert (es + [e])[..|es|] == es;
  }

  lemma EnterStep(code: seq<Slot>, s: seq<Byte>, st: State)
    requires st.Run? && 0 <= st.pc < |code| && code[st.pc].Inst? && code[st.pc].op in {IChoice, ICall}
    requires Step(code, s, st) != Stuck
    ensures HasOff(code, st.pc)
    ensures
      Step(code, s, st) == if code[st.pc].op == IChoice then Run(st.pc + 2, st.pos, Choice(Target(code, st.pc), st.pos, st.stk))
                           else Run(Target(code, st.pc), st.pos, Ret(st.pc + 2, st.stk))
  {
  }

  /** How deep the stack may get: it starts with INITBACK entries and stops growing at max. */
  function Limit(max: nat): nat { if max > INITBACK then max else INITBACK }

  ghost predicate TooDeep(st: State, limit: nat) { st.Run? && Depth(st.stk) > limit }

  /** Some state of the run needs more stack than there may be. */
  ghost predicate Overflows(code: seq<Slot>, s: seq<Byte>, init: nat, limit: nat) {
    exists n: nat :: TooDeep(Steps(code, s, Start(init), n), limit)
  }

  /** The machine is n steps into a run that stayed within the limit, m steps before it halts with r. */
  ghost predicate OnTheWay(code: seq<Slot>, s: seq<Byte>, init: nat, limit: nat, n: nat, st: State, m: nat, r: State) {
    && Steps(code, s, Start(init), n) == st && Steps(code, s, st, m) == r && Halted(r) && r != Stuck
    && forall k: nat :: k <= n ==> !TooDeep(Steps(code, s, Start(init), k), limit)
  }

  lemma StartsOnTheWay(code: seq<Slot>, s: seq<Byte>, init: nat, limit: nat, m: nat, r: State)
    requires Steps(code, s, Start(init), m) == r && Halted(r) && r != Stuck && limit > 0
    ensures OnTheWay(code, s, init, limit, 0, Start(init), m, r)
  {
    assert Depth(Start(init).stk) == 1;
  }

  lemma NextOnTheWay(code: seq<Slot>, s: seq<Byte>, init: nat, limit: nat, n: nat, st: State, m: nat, r: State)
    requires OnTheWay(code, s, init, limit, n, st, m, r) && st.Run?
    ensures m > 0 && Step(code, s, st) != Stuck
    ensures Steps(code, s, Start(init), n + 1) == Step(code, s, st)
    ensures if TooDeep(Step(code, s, st), limit) then Overflows(code, s, init, limit)
            else OnTheWay(code, s, init, limit, n + 1, Step(code, s, st), m - 1, r)
  {
    hide Step, TooDeep;
    StepsAdd(code, s, Start(init), n, 1);
    var next := Step(code, s, st);
    assert Steps(code, s, next, 0) == next;
    assert Steps(code, s, st, 1) == next;
    if next == Stuck { HaltedStays(code, s, next, m - 1); }
    if TooDeep(next, limit) { assert TooDeep(Steps(code, s, Start(init), n + 1), limit); }
  }

  /** A run that halts without having been too deep never is. */
  lemma EndOfTheWay(code: seq<Slot>, s: seq<Byte>, init: nat, limit: nat, n: nat, st: State, m: nat, r: State)
    requires OnTheWay(code, s, init, limit, n, st, m, r) && Halted(st)
    ensures st == r && !Overflows(code, s, init, limit)
  {
    hide Step;
    HaltedStays(code, s, st, m);
    forall k: nat ensures !TooDeep(Steps(code, s, Start(init), k), limit) {
      if k > n {
        StepsAdd(code, s, Start(init), n, k - n);
        HaltedStays(code, s, st, k - n);
      }
    }
  }

  class Vm {
    const code: seq<Slot>
    const subject: seq<Byte>
    const max: nat
    var p: int
    var s: nat
    var stack: array<Entry>
    var top: nat

    constructor (code: seq<Slot>, subject: seq<Byte>, init: nat, max: nat)
      ensures this.code == code && this.subject == subject && this.max == max
      ensures fresh(stack) && Valid() && Now() == Start(init)
    {
      this.code, this.subject, this.max := code, subject, max;
      p, s := 0, init;
      var st := new Entry[INITBACK](_ => Entry(0, None));
      st[0] := Entry(GIVEUP, Some(init));
      assert st[..1] == [Entry(GIVEUP, Some(init))];
      assert StkOf([]) == Empty;
      stack, top := st, 1;
    }

    ghost predicate Valid()
      reads this
    {
      top <= stack.Length && INITBACK <= stack.Length <= Limit(max)
    }

    ghost function Stack(): Stk
      requires Valid()
      reads this, stack
    {
      StkOf(stack[..top])
    }

    ghost function Now(): State
      requires Valid()
      reads this, stack
    {
      Run(p, s, Stack())
    }

    /** Double the size of the stack. */
    method DoubleStack() returns (ok: bool)
      requires Valid() && top == stack.Length
      modifies this`stack
      ensures Valid() && stack[..top] == old(stack[..top])
      ensures ok == (old(stack.Length) < Limit(max))
      ensures if ok then top < stack.Length && fresh(stack) else stack == old(stack)
    {
      var n := stack.Length;
      if n >= max { return false; }
      var newn := 2 * n;
      if newn > max { newn := max; }
      var newstack := new Entry[newn](_ => Entry(0, None));
      var i := 0;
      while i < n
        invariant 0 <= i <= n && newstack[..i] == stack[..i]
        invariant fresh(newstack)
        modifies newstack
      {
        newstack[i] := stack[i];
        i := i + 1;
      }
      stack := newstack;
      ok := true;
    }

    method Push(e: Entry) returns (ok: bool)
      requires Valid()
      modifies this`stack, this`top, stack
      ensures Valid() && (stack == old(stack) || fresh(stack))
      ensures ok == (|old(stack[..top])| < Limit(max))
      ensures stack[..top] == if ok then old(stack[..top]) + [e] else old(stack[..top])
    {
      ok := true;
      if top == stack.Length { ok := DoubleStack(); }
      if ok {
        stack[top] := e;
        top := top + 1;
      }
    }

    method Pop() returns (e: Entry)
      requires Valid() && Stack() != Empty
      modifies this`top
      ensures Valid() && top == old(top) - 1 && Stack() == old(Stack()).below
      ensures if e.s.Some? then old(Stack()) == Choice(e.p, e.s.value, Stack()) else old(Stack()) == Ret(e.p, Stack())
    {
      assert stack[..top][..top - 1] == stack[..top - 1];
      top := top - 1;
      e := stack[top];
    }

    /** The pattern failed: try to backtrack. */
    method Fail()
      requires Valid() && Backtrack(Stack()) != Stuck
      modifies this`p, this`s, this`top
      ensures Valid() && Now() == Backtrack(old(Stack()))
    {
      var e := Pop();
      while e.s.None?
        invariant Valid()
        invariant if e.s.Some? then Run(e.p, e.s.value, Stack()) == Backtrack(old(Stack()))
                  else Backtrack(Stack()) == Backtrack(old(Stack()))
        decreases top
      {
        e := Pop();
      }
      p, s := e.p, e.s.value;
    }

    /** Instructions that look at the next character and pass it or fail. */
    method Consume()
      requires Valid() && 0 <= p < |code| && code[p].Inst? && code[p].op in {IAny, IChar, ISet}
      requires Step(code, subject, Now()) != Stuck
      modifies this`p, this`s, this`top
      ensures Valid() && Now() == Step(code, subject, old(Now()))
    {
      var op := code[p].op;
      if s < |subject| &&
         (if op == IAny then true else if op == IChar then subject[s] == code[p].arg
          else InBuffer(code, p + 1, subject[s])) {
        p, s := p + SizeI(op), s + 1;
      } else {
        Fail();
      }
    }

    /** Instructions that look at the next character and go on or jump. */
    method Test()
      requires Valid() && 0 <= p < |code| && code[p].Inst? && code[p].op in {ITestAny, ITestChar, ITestSet}
      requires Step(code, subject, Now()) != Stuck
      modifies this`p
      ensures Valid() && Now() == Step(code, subject, old(Now()))
    {
      var op := code[p].op;
      if s < |subject| &&
         (if op == ITestAny then true else if op == ITestChar then subject[s] == code[p].arg
          else InBuffer(code, p + 2, subject[s])) {
        p := p + SizeI(op);
      } else {
        p := Target(code, p);
      }
    }

    /** ISpan: skip as many characters of the set as there are. */
    method Span()
      requires Valid() && IsOp(code, p, ISpan)
      modifies this`p, this`s
      ensures Valid() && Now() == Step(code, subject, old(Now()))
    {
      while s < |subject| && InBuffer(code, p + 1, subject[s])
        invariant p == old(p) && SpanEnd(code, p + 1, subject, s) == SpanEnd(code, p + 1, subject, old(s))
        decreases |subject| - s
      {
        s := s + 1;
      }
      p := p + CHARSETINSTSIZE;
    }

    /** IChoice and ICall, which may find the stack full. */
    method Enter() returns (ok: bool)
      requires Valid() && 0 <= p < |code| && code[p].Inst? && code[p].op in {IChoice, ICall}
      requires Step(code, subject, Now()) != Stuck
      modifies this, stack
      ensures Valid() && (stack == old(stack) || fresh(stack))
      ensures ok <==> !TooDeep(Step(code, subject, old(Now())), Limit(max))
      ensures ok ==> Now() == Step(code, subject, old(Now()))
    {
      hide Step, StkOf, Depth, Target;
      EnterStep(code, subject, Now());
      var choice := code[p].op == IChoice;
      ghost var es := stack[..top];
      var e := if choice then Entry(Target(code, p), Some(s)) else Entry(p + 2, None);
      assert (es + [e])[..|es|] == es;
      DepthOf(es + [e]);
      StkOfPlus(es, e);
      ok := Push(e);
      p := if choice then p + 2 else Target(code, p);
    }

    /** ICommit, IPartialCommit and IBackCommit. */
    method Commit()
      requires Valid() && 0 <= p < |code| && code[p].Inst? && code[p].op in {ICommit, IPartialCommit, IBackCommit}
      requires Step(code, subject, Now()) != Stuck
      modifies this`p, this`s, this`top, stack
      ensures Valid() && Now() == Step(code, subject, old(Now()))
    {
      if code[p].op == IPartialCommit {
        ghost var es := stack[..top];
        stack[top - 1] := Entry(stack[top - 1].p, Some(s));
        assert stack[..top][..top - 1] == es[..top - 1];
      } else {
        var e := Pop();
        if code[p].op == IBackCommit { s := e.s.value; }
      }
      p := Target(code, p);
    }

    /** The remaining instructions that do not end the match. */
    method Other()
      requires Valid() && 0 <= p < |code| && code[p].Inst?
      requires code[p].op in {IBehind, IRet, IJmp, IFailTwice, IFail}
      requires Step(code, subject, Now()) != Stuck
      modifies this`p, this`s, this`top
      ensures Valid() && Now() == Step(code, subject, old(Now()))
    {
      match code[p].op
      case IBehind =>
        var n := code[p].arg;
        if n > s { Fail(); } else { s := s - n; p := p + 1; }
      case IRet =>
        var e := Pop();
        p := e.p;
      case IJmp => p := Target(code, p);
      case IFailTwice =>
        var _ := Pop();
        Fail();
      case IFail => Fail();
    }

    /** One turn of the interpreter loop; only IEnd and IGiveup are left to the loop. */
    method Turn() returns (ok: bool)
      requires Valid() && Step(code, subject, Now()).Run?
      modifies this, stack
      ensures Valid() && (stack == old(stack) || fresh(stack))
      ensures ok <==> !TooDeep(Step(code, subject, old(Now())), Limit(max))
      ensures ok ==> Now() == Step(code, subject, old(Now()))
    {
      ok := true;
      if code[p].op in {IChoice, ICall} { ok := Enter(); return; }
      if code[p].op in {IAny, IChar, ISet} { Consume(); }
      else if code[p].op in {ITestAny, ITestChar, ITestSet} { Test(); }
      else if code[p].op == ISpan { Span(); }
      else if code[p].op in {ICommit, IPartialCommit, IBackCommit} { Commit(); }
      else { Other(); }
      DepthOf(stack[..top]);
    }
  }

  /** What match returns: a position, NULL, or the error of a full stack. */
  datatype Matched = Position(pos: nat) | NoMatch | TooManyPending

  /** Run a program that halts.  Unless it needs too much stack, the result is the machine's. */
  method Match(code: seq<Slot>, subject: seq<Byte>, init: nat, max: nat, ghost r: State) returns (m: Matched)
    requires Reaches(code, subject, Start(init), r) && Halted(r) && r != Stuck
    ensures m.TooManyPending? <==> Overflows(code, subject, init, Limit(max))
    ensures !m.TooManyPending? ==> r == if m.Position? then Accept(m.pos) else GaveUp
  {
    hide Step, Overflows, OnTheWay, Steps, TooDeep;
    ghost var n: nat, left: nat := 0, StepsLeft(code, subject, init, r);
    StartsOnTheWay(code, subject, init, Limit(max), left, r);
    var vm := new Vm(code, subject, init, max);
    while true
      invariant vm.Valid() && vm.code == code && vm.subject == subject && vm.max == max
      invariant fresh(vm) && fresh(vm.stack)
      invariant OnTheWay(code, subject, init, Limit(max), n, vm.Now(), left, r)
      decreases left
    {
      NextOnTheWay(code, subject, init, Limit(max), n, vm.Now(), left, r);
      StepShape(code, subject, vm.Now(), Limit(max));
      if vm.p == GIVEUP {
        EndOfTheWay(code, subject, init, Limit(max), n + 1, GaveUp, left - 1, r);
        return NoMatch;
      }
      if code[vm.p].op == IEnd {
        EndOfTheWay(code, subject, init, Limit(max), n + 1, Accept(vm.s), left - 1, r);
        return Position(vm.s);
      }
      var ok := vm.Turn();
      if !ok { return TooManyPending; }
      n, left := n + 1, left - 1;
    }
  }

  ghost function StepsLeft(code: seq<Slot>, s: seq<Byte>, init: nat, r: State): (m: nat)
    requires Reaches(code, s, Start(init), r)
    ensures Steps(code, s, Start(init), m) == r
  {
    var m: nat :| Steps(code, s, Start(init), m) == r; m
  }

  /** A machine that is not stuck is at an instruction; only IEnd and IGiveup halt it. */
  lemma StepShape(code: seq<Slot>, s: seq<Byte>, st: State, limit: nat)
    requires st.Run? && Step(code, s, st) != Stuck
    ensures !Step(code, s, st).Run? ==> !TooDeep(Step(code, s, st), limit)
    ensures if st.pc == GIVEUP then Step(code, s, st) == GaveUp
            else 0 <= st.pc < |code| && code[st.pc].Inst? &&
                 (if code[st.pc].op == IEnd then Step(code, s, st) == Accept(st.pos) else Step(code, s, st).Run?)
  {
    BacktrackRuns(st.stk);
    if st.stk.Choice? { BacktrackRuns(st.stk.below); }
  }

  lemma {:induction false} BacktrackRuns(stk: Stk)
    ensures Backtrack(stk).Run? || Backtrack(stk) == Stuck
  {
    if stk.Ret? { BacktrackRuns(stk.below); }
  }

  /** Fix a pattern, compile it, and match it against a subject (lp_match): the result is what the pattern means,
      unless the backtrack stack overflows. */
  method MatchPattern(t: Tree, subject: seq<Byte>, init: nat, max: nat) returns (m: Matched)
    requires WellFormed([], t) && Acceptable([], t) && SafeOpt([], PegFlat.Fixed(t), false, FULL) && init <= |subject|
    ensures m.TooManyPending? || Means([], t, subject, init, if m.Position? then Ok(m.pos) else Fail)
  {
    hide WellFormed, Acceptable, SafeOpt, Keeps, Eval, Reaches, Overflows, Done, PegFlat.Fixed;
    FixedKeeps(t);
    var fixed := PegFlat.Fixed(t);
    var compiler := new Compiler();
    compiler.Compile(fixed);
    ghost var r := Verdict(Result([], fixed, subject, init)) by { PatternTerminates([], fixed, subject, init); }
    CompiledMeans(fixed, compiler.code, subject, init, r);
    m := Match(compiler.code, subject, init, max, r);
  }
}
