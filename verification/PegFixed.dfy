/** What is known of a pattern is known of the tree that finalfix makes of it (lptree.c:78-126): turning sequences and choices
    changes no analysis, and what the code generator asks for still holds. */
module PegFixed {
  import opened Wrappers
  import opened PegTree
  import opened PegAnalysis
  import opened PegCode
  import opened PegClose
  import opened PegVerify
  import opened PegGuard
  import opened PegFlat

  // ----- the analyses -----

  lemma TurnedCheck(g: seq<Tree>, t: Tree, pred: Pred, d: nat)
    requires IsOp(t) && SameOp(t, t.p1)
    ensures CheckAux(g, Turned(t), pred, d) == CheckAux(g, t, pred, d)
  {
  }

  lemma {:induction false} RotatedCheck(g: seq<Tree>, t: Tree, pred: Pred, d: nat)
    requires IsOp(t)
    ensures CheckAux(g, Rotated(t), pred, d) == CheckAux(g, t, pred, d)
    decreases t.p1
  {
    if SameOp(t, t.p1) {
      TurnedCheck(g, t, pred, d);
      RotatedCheck(g, Turned(t), pred, d);
    }
  }

  lemma {:induction false} FixedCheck(g: seq<Tree>, t: Tree, pred: Pred, d: nat)
    ensures CheckAux(g, Fixed(t), pred, d) == CheckAux(g, t, pred, d)
    decreases Nodes(t)
  {
    match t
    case TAnd(p) => FixedCheck(g, p, pred, d);
    case TSeq(_, _) =>
      RotatedCheck(g, t, pred, d);
      FixedCheck(g, Rotated(t).p1, pred, d);
      FixedCheck(g, Rotated(t).p2, pred, d);
    case TChoice(_, _) =>
      RotatedCheck(g, t, pred, d);
      FixedCheck(g, Rotated(t).p1, pred, d);
      FixedCheck(g, Rotated(t).p2, pred, d);
    case _ =>
  }

  lemma TurnedLen(g: seq<Tree>, t: Tree, count: nat, len: nat)
    requires IsOp(t) && SameOp(t, t.p1)
    ensures FixedLenX(g, Turned(t), count, len) == FixedLenX(g, t, count, len)
  {
  }

  lemma {:induction false} RotatedLen(g: seq<Tree>, t: Tree, count: nat, len: nat)
    requires IsOp(t)
    ensures FixedLenX(g, Rotated(t), count, len) == FixedLenX(g, t, count, len)
    decreases t.p1
  {
    if SameOp(t, t.p1) {
      TurnedLen(g, t, count, len);
      RotatedLen(g, Turned(t), count, len);
    }
  }

  lemma {:induction false} FixedLength(g: seq<Tree>, t: Tree, count: nat, len: nat)
    ensures FixedLenX(g, Fixed(t), count, len) == FixedLenX(g, t, count, len)
    decreases Nodes(t)
  {
    match t
    case TSeq(_, _) =>
      RotatedLen(g, t, count, len);
      FixedLength(g, Rotated(t).p1, count, len);
      var n := FixedLenX(g, Rotated(t).p1, count, len);
      if n >= 0 { FixedLength(g, Rotated(t).p2, count, n); }
    case TChoice(_, _) =>
      RotatedLen(g, t, count, len);
      FixedLength(g, Rotated(t).p1, count, len);
      FixedLength(g, Rotated(t).p2, count, len);
    case _ =>
  }

  lemma TurnedHeadFail(g: seq<Tree>, t: Tree, d: nat)
    requires IsOp(t) && SameOp(t, t.p1)
    ensures HeadFailAux(g, Turned(t), d) == HeadFailAux(g, t, d)
  {
  }

  lemma {:induction false} RotatedHeadFail(g: seq<Tree>, t: Tree, d: nat)
    requires IsOp(t)
    ensures HeadFailAux(g, Rotated(t), d) == HeadFailAux(g, t, d)
    decreases t.p1
  {
    if SameOp(t, t.p1) {
      TurnedHeadFail(g, t, d);
      RotatedHeadFail(g, Turned(t), d);
    }
  }

  lemma {:induction false} FixedHeadFail(g: seq<Tree>, t: Tree, d: nat)
    ensures HeadFailAux(g, Fixed(t), d) == HeadFailAux(g, t, d)
    decreases Nodes(t)
  {
    match t
    case TAnd(p) => FixedHeadFail(g, p, d);
    case TSeq(_, _) =>
      RotatedHeadFail(g, t, d);
      FixedHeadFail(g, Rotated(t).p1, d);
      FixedCheck(g, Rotated(t).p2, PEnofail, DEPTH);
    case TChoice(_, _) =>
      RotatedHeadFail(g, t, d);
      FixedHeadFail(g, Rotated(t).p1, d);
      FixedHeadFail(g, Rotated(t).p2, d);
    case _ =>
  }

  lemma TurnedFirst(g: seq<Tree>, t: Tree, f: Charset, d: nat)
    requires IsOp(t) && SameOp(t, t.p1)
    ensures GetFirst(g, Turned(t), f, d) == GetFirst(g, t, f, d)
  {
  }

  lemma {:induction false} RotatedFirst(g: seq<Tree>, t: Tree, f: Charset, d: nat)
    requires IsOp(t)
    ensures GetFirst(g, Rotated(t), f, d) == GetFirst(g, t, f, d)
    decreases t.p1
  {
    if SameOp(t, t.p1) {
      TurnedFirst(g, t, f, d);
      RotatedFirst(g, Turned(t), f, d);
    }
  }

  lemma {:induction false} FixedFirst(g: seq<Tree>, t: Tree, f: Charset, d: nat)
    ensures GetFirst(g, Fixed(t), f, d) == GetFirst(g, t, f, d)
    decreases Nodes(t)
  {
    match t
    case TRep(p) => FixedFirst(g, p, f, d);
    case TAnd(p) => FixedFirst(g, p, f, d);
    case TNot(p) => FixedCharset(p);
    case TSeq(_, _) =>
      var p1, p2 := Rotated(t).p1, Rotated(t).p2;
      RotatedFirst(g, t, f, d);
      FixedCheck(g, p1, PEnullable, DEPTH);
      if !Nullable(g, p1) {
        FixedFirst(g, p1, FULL, d);
      } else {
        FixedFirst(g, p2, f, d);
        FixedFirst(g, p1, GetFirst(g, p2, f, d).cs, d);
      }
    case TChoice(_, _) =>
      RotatedFirst(g, t, f, d);
      FixedFirst(g, Rotated(t).p1, f, d);
      FixedFirst(g, Rotated(t).p2, f, d);
    case _ =>
  }

  lemma FixedCharset(t: Tree)
    ensures ToCharset(Fixed(t)) == ToCharset(t) && (Fixed(t).TTrue? <==> t.TTrue?)
  {
  }

  lemma {:induction false} RotatedFollow(t: Tree)
    requires IsOp(t)
    ensures NeedFollow(Rotated(t)) == NeedFollow(t)
    decreases t.p1
  {
    if SameOp(t, t.p1) { RotatedFollow(Turned(t)); }
  }

  lemma {:induction false} FixedFollow(t: Tree)
    ensures NeedFollow(Fixed(t)) == NeedFollow(t)
    decreases Nodes(t)
  {
    if IsOp(t) {
      RotatedFollow(t);
      FixedFollow(Rotated(t).p2);
    }
  }

  // ----- a pattern that can be built and compiled -----

  lemma {:induction false} RotatedWellFormed(g: seq<Tree>, t: Tree)
    requires IsOp(t) && WellFormed(g, t) && Acceptable(g, t)
    ensures WellFormed(g, Rotated(t)) && Acceptable(g, Rotated(t))
    decreases t.p1
  {
    if SameOp(t, t.p1) { RotatedWellFormed(g, Turned(t)); }
  }

  lemma {:induction false} FixedWellFormed(g: seq<Tree>, t: Tree)
    requires WellFormed(g, t) && Acceptable(g, t)
    ensures WellFormed(g, Fixed(t)) && Acceptable(g, Fixed(t))
    decreases Nodes(t)
  {
    match t
    case TRep(p) => FixedWellFormed(g, p); FixedCheck(g, p, PEnullable, DEPTH);
    case TNot(p) => FixedWellFormed(g, p);
    case TAnd(p) => FixedWellFormed(g, p);
    case TBehind(n, p) => FixedWellFormed(g, p); FixedLength(g, p, 0, 0);
    case TSeq(_, _) =>
      RotatedWellFormed(g, t);
      FixedWellFormed(g, Rotated(t).p1);
      FixedWellFormed(g, Rotated(t).p2);
    case TChoice(_, _) =>
      RotatedWellFormed(g, t);
      FixedWellFormed(g, Rotated(t).p1);
      FixedWellFormed(g, Rotated(t).p2);
    case _ =>
  }

  // ----- where the generator is right, it stays right -----

  /** A smaller follow set makes a smaller first set. */
  lemma {:induction false} FirstMonotone(g: seq<Tree>, t: Tree, f: Charset, f': Charset, d: nat)
    requires f <= f'
    ensures GetFirst(g, t, f, d).cs <= GetFirst(g, t, f', d).cs && GetFirst(g, t, f, d).e == GetFirst(g, t, f', d).e
    decreases d, t
  {
    match t
    case TChoice(p1, p2) => FirstMonotone(g, p1, f, f', d); FirstMonotone(g, p2, f, f', d);
    case TSeq(p1, p2) =>
      if Nullable(g, p1) {
        FirstMonotone(g, p2, f, f', d);
        FirstMonotone(g, p1, GetFirst(g, p2, f, d).cs, GetFirst(g, p2, f', d).cs, d);
      }
    case TRep(p) => FirstMonotone(g, p, f, f', d);
    case TAnd(p) => FirstMonotone(g, p, f, f', d);
    case TGrammar(rs) => if |rs| > 0 { FirstMonotone(rs, rs[0], f, f', d); }
    case TCall(r) => if r < |g| && d > 0 { FirstMonotone(g, g[r], f, f', d - 1); }
    case _ =>
  }

  /** What is safe with opt is safe without, and what is safe before much is safe before less. */
  lemma {:induction false} SafeWeaker(g: seq<Tree>, t: Tree, opt: bool, fl: Charset, opt': bool, fl': Charset)
    requires SafeOpt(g, t, opt, fl) && (opt' ==> opt) && fl' <= fl && (opt ==> fl == FULL) && (opt' ==> fl' == FULL)
    ensures SafeOpt(g, t, opt', fl')
    decreases t
  {
    hide GetFirst, HeadFailAux, CheckAux;
    match t
    case TSeq(p1, p2) =>
      FirstMonotone(g, p2, fl', fl, DEPTH);
      SafeWeaker(g, p1, false, FollowOf(g, p1, p2, fl), false, FollowOf(g, p1, p2, fl'));
      SafeWeaker(g, p2, opt, fl, opt', fl');
    case TChoice(p1, p2) =>
      FirstMonotone(g, p2, fl', fl, DEPTH);
      if SafeOpt(g, p2, opt, fl) { SafeWeaker(g, p2, opt, fl, opt', fl'); }
      if TestDecides(g, p1, p2, fl) { SafeWeaker(g, p1, false, fl, false, fl'); }
      else if opt && p2.TTrue? { SafeWeaker(g, p1, true, FULL, false, fl'); }
      else { SafeWeaker(g, p1, p2.TTrue?, FULL, false, fl'); }
    case _ =>
  }

  lemma SeqTurnedSafe(g: seq<Tree>, x: Tree, y: Tree, z: Tree, opt: bool, fl: Charset)
    requires SafeOpt(g, TSeq(TSeq(x, y), z), opt, fl) && (opt ==> fl == FULL)
    ensures SafeOpt(g, TSeq(x, TSeq(y, z)), opt, fl)
  {
    hide GetFirst, HeadFailAux, CheckAux;
    var f1 := FollowOf(g, TSeq(x, y), z, fl);
    assert SafeOpt(g, TSeq(x, y), false, f1) && SafeOpt(g, z, opt, fl);
    assert f1 == FollowOf(g, y, z, fl);
    SeqFirst(g, y, z, fl);
    SafeWeaker(g, x, false, FollowOf(g, x, y, f1), false, FollowOf(g, x, TSeq(y, z), fl));
    assert SafeOpt(g, TSeq(y, z), opt, fl);
  }

  /** The first set of y z lies in that of y before what may follow it. */
  lemma SeqFirst(g: seq<Tree>, y: Tree, z: Tree, fl: Charset)
    ensures First(g, TSeq(y, z), fl).cs <= First(g, y, FollowOf(g, y, z, fl)).cs
  {
    var f1 := FollowOf(g, y, z, fl);
    if Nullable(g, y) {
      FirstMonotone(g, y, First(g, z, fl).cs, f1, DEPTH);
    } else {
      FollowUnused(g, y, FULL, f1, DEPTH, DEPTH);
    }
  }

  /** What a safe choice says of its alternatives. */
  lemma Alternatives(g: seq<Tree>, x: Tree, y: Tree, opt: bool, fl: Charset)
    requires SafeOpt(g, TChoice(x, y), opt, fl) && (opt ==> fl == FULL)
    ensures SafeOpt(g, y, opt, fl) && SafeOpt(g, x, false, fl)
    ensures TestDecides(g, x, y, fl) || SafeOpt(g, x, false, FULL)
  {
    hide GetFirst, HeadFailAux, CheckAux, First, HeadFail, TestDecides;
    if !TestDecides(g, x, y, fl) {
      SafeWeaker(g, x, y.TTrue?, FULL, false, FULL);
      SafeWeaker(g, x, false, FULL, false, fl);
    }
  }

  lemma ChoiceTurnedSafe(g: seq<Tree>, x: Tree, y: Tree, z: Tree, opt: bool, fl: Charset)
    requires SafeOpt(g, TChoice(TChoice(x, y), z), opt, fl) && (opt ==> fl == FULL)
    ensures SafeOpt(g, TChoice(x, TChoice(y, z)), opt, fl)
  {
    hide GetFirst, HeadFailAux, CheckAux, First, HeadFail, TestDecides;
    var xy, yz := TChoice(x, y), TChoice(y, z);
    Decisions(g, x, y, z, fl);
    if TestDecides(g, xy, z, fl) {
      Alternatives(g, x, y, false, fl);
      assert SafeOpt(g, yz, opt, fl);
    } else if opt && z.TTrue? {
      Alternatives(g, x, y, true, FULL);
      SafeWeaker(g, y, true, FULL, false, fl);
      assert SafeOpt(g, yz, opt, fl);
    } else {
      Alternatives(g, x, y, z.TTrue?, FULL);
      SafeWeaker(g, x, false, FULL, false, fl);
      SafeWeaker(g, y, z.TTrue?, FULL, false, fl);
      assert SafeOpt(g, yz, opt, fl);
    }
  }

  /** A test that tells (x / y) from z tells y from z, and if it also tells x from y it tells x from y / z. */
  lemma Decisions(g: seq<Tree>, x: Tree, y: Tree, z: Tree, fl: Charset)
    ensures TestDecides(g, TChoice(x, y), z, fl) ==> TestDecides(g, y, z, fl)
    ensures TestDecides(g, TChoice(x, y), z, fl) && TestDecides(g, x, y, fl) ==> TestDecides(g, x, TChoice(y, z), fl)
  {
    hide GetFirst, HeadFailAux, CheckAux, First, HeadFail;
    ChoiceFirst(g, x, y, FULL);
    ChoiceFirst(g, y, z, fl);
  }

  lemma ChoiceFirst(g: seq<Tree>, x: Tree, y: Tree, fl: Charset)
    ensures First(g, TChoice(x, y), fl) == FirstInfo(First(g, x, fl).cs + First(g, y, fl).cs, First(g, x, fl).e || First(g, y, fl).e)
    ensures HeadFail(g, TChoice(x, y)) == (HeadFail(g, x) && HeadFail(g, y))
  {
  }

  lemma {:induction false} RotatedSafe(g: seq<Tree>, t: Tree, opt: bool, fl: Charset)
    requires IsOp(t) && SafeOpt(g, t, opt, fl) && (opt ==> fl == FULL)
    ensures SafeOpt(g, Rotated(t), opt, fl)
    decreases t.p1
  {
    hide SafeOpt;
    if SameOp(t, t.p1) {
      if t.TSeq? { SeqTurnedSafe(g, t.p1.p1, t.p1.p2, t.p2, opt, fl); } else { ChoiceTurnedSafe(g, t.p1.p1, t.p1.p2, t.p2, opt, fl); }
      RotatedSafe(g, Turned(t), opt, fl);
    }
  }

  lemma {:induction false} RotatedUses(g: seq<Tree>, t: Tree, fl: Charset)
    requires IsOp(t) && UsesOpt(g, Rotated(t), fl)
    ensures UsesOpt(g, t, fl)
    decreases t.p1
  {
    hide TestDecides;
    if SameOp(t, t.p1) {
      RotatedUses(g, Turned(t), fl);
      if t.TChoice? { Decisions(g, t.p1.p1, t.p1.p2, t.p2, fl); }
    }
  }

  /** All that the generator asks of a pattern is the same for the fixed one. */
  lemma SameQuestions(g: seq<Tree>, p1: Tree, p2: Tree, fl: Charset)
    ensures TestDecides(g, Fixed(p1), Fixed(p2), fl) == TestDecides(g, p1, p2, fl)
    ensures TestEndsLoop(g, Fixed(p1), fl) == TestEndsLoop(g, p1, fl)
    ensures FollowOf(g, Fixed(p1), Fixed(p2), fl) == FollowOf(g, p1, p2, fl)
    ensures HeadFail(g, Fixed(p1)) == HeadFail(g, p1)
  {
    FixedFirst(g, p1, FULL, DEPTH);
    FixedFirst(g, p2, fl, DEPTH);
    FixedHeadFail(g, p1, DEPTH);
    FixedFollow(p1);
  }

  lemma {:induction false} FixedUses(g: seq<Tree>, t: Tree, fl: Charset)
    requires UsesOpt(g, Fixed(t), fl)
    ensures UsesOpt(g, t, fl)
    decreases Nodes(t)
  {
    hide TestDecides, TestEndsLoop, FollowOf;
    match t
    case TRep(p) =>
      FixedCharset(p);
      SameQuestions(g, p, p, fl);
      if UsesOpt(g, Fixed(p), FULL) { FixedUses(g, p, FULL); }
    case TSeq(_, _) =>
      FixedUses(g, Rotated(t).p2, fl);
      RotatedUses(g, t, fl);
    case TChoice(_, _) =>
      var p1, p2 := Rotated(t).p1, Rotated(t).p2;
      SameQuestions(g, p1, p2, fl);
      FixedCharset(p2);
      if UsesOpt(g, Fixed(p2), fl) { FixedUses(g, p2, fl); }
      RotatedUses(g, t, fl);
    case _ =>
  }

  /** Where giving opt on does no harm it does none to the fixed tree. */
  lemma {:induction false} FixedSafe(g: seq<Tree>, t: Tree, opt: bool, fl: Charset)
    requires SafeOpt(g, t, opt, fl) && (opt ==> fl == FULL)
    ensures SafeOpt(g, Fixed(t), opt, fl)
    decreases Nodes(t)
  {
    hide TestDecides, TestEndsLoop, FollowOf, HeadFail;
    match t
    case TRep(p) =>
      FixedCharset(p);
      SameQuestions(g, p, p, fl);
      if ToCharset(p).None? {
        FixedSafe(g, p, false, FULL);
        if UsesOpt(g, Fixed(p), FULL) { FixedUses(g, p, FULL); }
      }
    case TNot(p) =>
      SameQuestions(g, p, p, fl);
      if !HeadFail(g, p) { FixedSafe(g, p, false, FULL); }
    case TAnd(p) => FixedSafe(g, p, false, FULL);
    case TBehind(_, p) => FixedSafe(g, p, false, FULL);
    case TSeq(_, _) =>
      var p1, p2 := Rotated(t).p1, Rotated(t).p2;
      RotatedSafe(g, t, opt, fl);
      SameQuestions(g, p1, p2, fl);
      FixedSafe(g, p1, false, FollowOf(g, p1, p2, fl));
      FixedSafe(g, p2, opt, fl);
    case TChoice(_, _) =>
      var p1, p2 := Rotated(t).p1, Rotated(t).p2;
      RotatedSafe(g, t, opt, fl);
      SameQuestions(g, p1, p2, fl);
      FixedCharset(p2);
      FixedCharset(p1);
      if SafeOpt(g, p2, opt, fl) { FixedSafe(g, p2, opt, fl); }
      if TestDecides(g, p1, p2, fl) { FixedSafe(g, p1, false, fl); }
      else if opt && p2.TTrue? { FixedSafe(g, p1, true, FULL); }
      else { FixedSafe(g, p1, p2.TTrue?, FULL); }
    case _ =>
  }

  /** A pattern that can be compiled right can be so after finalfix, and means the same. */
  lemma FixedKeeps(t: Tree)
    requires WellFormed([], t) && Acceptable([], t)
    ensures WellFormed([], Fixed(t)) && Acceptable([], Fixed(t))
    ensures SafeOpt([], t, false, FULL) ==> SafeOpt([], Fixed(t), false, FULL)
    ensures forall s, i: nat, o :: i <= |s| ==> (Means([], Fixed(t), s, i, o) <==> Means([], t, s, i, o))
  {
    FixedWellFormed([], t);
    if SafeOpt([], t, false, FULL) { FixedSafe([], t, false, FULL); }
    forall s, i: nat, o | i <= |s| ensures Means([], Fixed(t), s, i, o) <==> Means([], t, s, i, o) {
      FixedSame(t, s, i, o);
    }
  }

  lemma FixedSame(t: Tree, s: seq<Byte>, i: nat, o: Outcome)
    requires i <= |s|
    ensures Means([], Fixed(t), s, i, o) <==> Means([], t, s, i, o)
  {
    hide Eval, Fixed;
    if Means([], Fixed(t), s, i, o) {
      var k: nat :| Eval(k, [], Fixed(t), s, i) == o;
      FixedMeans(k, [], t, s, i);
    }
    if Means([], t, s, i, o) {
      var k: nat :| Eval(k, [], t, s, i) == o;
      FixedMeans(k, [], t, s, i);
    }
  }
}
