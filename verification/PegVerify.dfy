/** verifygrammar (lptree.c): grammars it accepts have no left recursion and no empty loops, so that
    matching any of their rules terminates. */
module PegVerify {
  import opened Wrappers
  import opened PegTree
  import opened PegAnalysis

  /** Follows the left calls of t, at most d rules deep.  None is an error ("may be left recursive" or
      "too many left calls"); otherwise the result tells whether t is nullable, or nb is given. */
  function VerifyRule(g: seq<Tree>, t: Tree, d: nat, nb: bool): Option<bool>
    decreases d, t
  {
    match t
    case TChar(_) => Some(nb)
    case TSet(_) => Some(nb)
    case TAny => Some(nb)
    case TFalse => Some(nb)
    case TTrue => Some(true)
    case TBehind(_, _) => Some(true)
    case TNot(p) => VerifyRule(g, p, d, true)
    case TAnd(p) => VerifyRule(g, p, d, true)
    case TRep(p) => VerifyRule(g, p, d, true)
    case TCall(r) => if r >= |g| || d == 0 then None else VerifyRule(g, g[r], d - 1, nb)
    case TSeq(p1, p2) =>
      (match VerifyRule(g, p1, d, false)
       case None => None
       case Some(n1) => if n1 then VerifyRule(g, p2, d, nb) else Some(nb))
    case TChoice(p1, p2) =>
      (match VerifyRule(g, p1, d, nb)
       case None => None
       case Some(n1) => VerifyRule(g, p2, d, n1))
    case TGrammar(_) => Some(nb || Nullable(g, t))
  }

  /** Potential infinite loops: a repetition of a nullable pattern. */
  predicate CheckLoops(g: seq<Tree>, t: Tree)
    decreases t
  {
    match t
    case TRep(p) => Nullable(g, p) || CheckLoops(g, p)
    case TSeq(p1, p2) => CheckLoops(g, p1) || CheckLoops(g, p2)
    case TChoice(p1, p2) => CheckLoops(g, p1) || CheckLoops(g, p2)
    case TNot(p) => CheckLoops(g, p)
    case TAnd(p) => CheckLoops(g, p)
    case TBehind(_, p) => CheckLoops(g, p)
    case _ => false
  }

  /** Rule n is called somewhere in t. */
  predicate Calls(t: Tree, n: nat)
    decreases t
  {
    match t
    case TRep(p) => Calls(p, n)
    case TSeq(p1, p2) => Calls(p1, n) || Calls(p2, n)
    case TChoice(p1, p2) => Calls(p1, n) || Calls(p2, n)
    case TNot(p) => Calls(p, n)
    case TAnd(p) => Calls(p, n)
    case TBehind(_, p) => Calls(p, n)
    case TCall(r) => r == n
    case _ => false
  }

  /** A rule without a key is never called and not the initial one; verifygrammar skips it. */
  predicate Used(g: seq<Tree>, n: nat) {
    n == 0 || exists m :: 0 <= m < |g| && Calls(g[m], n)
  }

  predicate VerifyGrammar(g: seq<Tree>) {
    forall n :: 0 <= n < |g| && Used(g, n) ==>
                  VerifyRule(g, g[n], MAXRULES, false).Some? && !CheckLoops(g, g[n])
  }

  // ----- the two parameters of verifyrule -----

  lemma {:induction false} VerifyFlag(g: seq<Tree>, t: Tree, d: nat, nb: bool)
    ensures VerifyRule(g, t, d, nb).Some? <==> VerifyRule(g, t, d, false).Some?
    ensures VerifyRule(g, t, d, nb).Some? ==>
              VerifyRule(g, t, d, nb).value == (nb || VerifyRule(g, t, d, false).value)
    decreases d, t
  {
    match t
    case TNot(p) => VerifyFlag(g, p, d, true);
    case TAnd(p) => VerifyFlag(g, p, d, true);
    case TRep(p) => VerifyFlag(g, p, d, true);
    case TCall(r) => if r < |g| && d > 0 { VerifyFlag(g, g[r], d - 1, nb); }
    case TSeq(p1, p2) => VerifyFlag(g, p2, d, nb);
    case TChoice(p1, p2) =>
      VerifyFlag(g, p1, d, nb);
      VerifyFlag(g, p2, d, nb);
      VerifyFlag(g, p2, d, true);
    case _ =>
  }

  lemma {:induction false} VerifyDeeper(g: seq<Tree>, t: Tree, d: nat, d': nat, nb: bool)
    requires d <= d' && VerifyRule(g, t, d, nb).Some?
    ensures VerifyRule(g, t, d', nb) == VerifyRule(g, t, d, nb)
    decreases d, t
  {
    match t
    case TNot(p) => VerifyDeeper(g, p, d, d', true);
    case TAnd(p) => VerifyDeeper(g, p, d, d', true);
    case TRep(p) => VerifyDeeper(g, p, d, d', true);
    case TCall(r) => VerifyDeeper(g, g[r], d - 1, d' - 1, nb);
    case TSeq(p1, p2) =>
      VerifyDeeper(g, p1, d, d', false);
      if VerifyRule(g, p1, d, false).value { VerifyDeeper(g, p2, d, d', nb); }
    case TChoice(p1, p2) =>
      VerifyDeeper(g, p1, d, d', nb);
      VerifyDeeper(g, p2, d, d', VerifyRule(g, p1, d, nb).value);
    case _ =>
  }

  /** Where verifyrule finds no error, the answers of the analyses do not depend on the depth any more. */
  lemma {:induction false} DepthSuffices(g: seq<Tree>, t: Tree, pred: Pred, d: nat, d': nat)
    requires NoGrammar(t) && VerifyRule(g, t, d, false).Some? && d <= d'
    requires forall n :: 0 <= n < |g| ==> NoGrammar(g[n])
    ensures CheckAux(g, t, pred, d') == CheckAux(g, t, pred, d)
    ensures VerifyRule(g, t, d, false).value == CheckAux(g, t, PEnullable, d)
    decreases d, t
  {
    match t
    case TNot(p) => VerifyFlag(g, p, d, true);
    case TRep(p) => VerifyFlag(g, p, d, true);
    case TAnd(p) => VerifyFlag(g, p, d, true); DepthSuffices(g, p, pred, d, d');
    case TCall(r) => DepthSuffices(g, g[r], pred, d - 1, d' - 1);
    case TSeq(p1, p2) =>
      DepthSuffices(g, p1, pred, d, d');
      if VerifyRule(g, p1, d, false).value { DepthSuffices(g, p2, pred, d, d'); }
      else if pred.PEnofail? { NotNullableFails(g, p1, d, d'); }
    case TChoice(p1, p2) =>
      DepthSuffices(g, p1, pred, d, d');
      VerifyFlag(g, p2, d, VerifyRule(g, p1, d, false).value);
      DepthSuffices(g, p2, pred, d, d');
    case _ =>
  }

  lemma {:induction false} DepthSufficesFirst(g: seq<Tree>, t: Tree, follow: Charset, d: nat, d': nat)
    requires NoGrammar(t) && VerifyRule(g, t, d, false).Some? && d <= DEPTH && d <= d'
    requires forall n :: 0 <= n < |g| ==> NoGrammar(g[n])
    ensures GetFirst(g, t, follow, d') == GetFirst(g, t, follow, d)
    ensures HeadFailAux(g, t, d') == HeadFailAux(g, t, d)
    decreases d, t
  {
    match t
    case TNot(p) => VerifyFlag(g, p, d, true); DepthSufficesFirst(g, p, follow, d, d');
    case TRep(p) => VerifyFlag(g, p, d, true); DepthSufficesFirst(g, p, follow, d, d');
    case TAnd(p) => VerifyFlag(g, p, d, true); DepthSufficesFirst(g, p, follow, d, d');
    case TCall(r) => DepthSufficesFirst(g, g[r], follow, d - 1, d' - 1);
    case TSeq(p1, p2) =>
      DepthSuffices(g, p1, PEnullable, d, DEPTH);
      DepthSufficesFirst(g, p1, FULL, d, d');
      if Nullable(g, p1) {
        DepthSufficesFirst(g, p2, follow, d, d');
        DepthSufficesFirst(g, p1, GetFirst(g, p2, follow, d).cs, d, d');
      }
    case TChoice(p1, p2) =>
      DepthSufficesFirst(g, p1, follow, d, d');
      VerifyFlag(g, p2, d, VerifyRule(g, p1, d, false).value);
      DepthSufficesFirst(g, p2, follow, d, d');
    case _ =>
  }

  lemma NotNullableFails(g: seq<Tree>, t: Tree, d: nat, d': nat)
    requires !CheckAux(g, t, PEnullable, d)
    ensures !CheckAux(g, t, PEnofail, d) && !CheckAux(g, t, PEnofail, d')
  {
    if CheckAux(g, t, PEnofail, d) { NoFailNullable(g, t, d, d); }
    if CheckAux(g, t, PEnofail, d') { NoFailNullable(g, t, d', d); }
  }

  // ----- termination -----

  /** No grammar inside the pattern. */
  predicate NoGrammar(t: Tree)
    decreases t
  {
    match t
    case TRep(p) => NoGrammar(p)
    case TSeq(p1, p2) => NoGrammar(p1) && NoGrammar(p2)
    case TChoice(p1, p2) => NoGrammar(p1) && NoGrammar(p2)
    case TNot(p) => NoGrammar(p)
    case TAnd(p) => NoGrammar(p)
    case TBehind(_, p) => NoGrammar(p)
    case TGrammar(_) => false
    case _ => true
  }

  /** Look-behinds contain no calls (their patterns have a fixed length when they are built). */
  ghost predicate BehindsOk(g: seq<Tree>, t: Tree)
    decreases t, 0
  {
    match t
    case TRep(p) => BehindsOk(g, p)
    case TSeq(p1, p2) => BehindsOk(g, p1) && BehindsOk(g, p2)
    case TChoice(p1, p2) => BehindsOk(g, p1) && BehindsOk(g, p2)
    case TNot(p) => BehindsOk(g, p)
    case TAnd(p) => BehindsOk(g, p)
    case TBehind(_, p) => NoGrammar(p) && Acceptable(g, p)
    case _ => true
  }

  /** Matching t at i gives a result. */
  ghost predicate Defined(g: seq<Tree>, t: Tree, s: seq<Byte>, i: nat)
    requires i <= |s|
  {
    exists k: nat :: !Eval(k, g, t, s, i).Unknown?
  }

  /** A piece of an accepted grammar: its calls go to used rules, its loops consume. */
  ghost predicate Piece(g: seq<Tree>, t: Tree) {
    NoGrammar(t) && BehindsOk(g, t) && !CheckLoops(g, t) && CallsUsed(g, t)
  }

  ghost predicate CallsUsed(g: seq<Tree>, t: Tree)
    decreases t
  {
    match t
    case TRep(p) => CallsUsed(g, p)
    case TSeq(p1, p2) => CallsUsed(g, p1) && CallsUsed(g, p2)
    case TChoice(p1, p2) => CallsUsed(g, p1) && CallsUsed(g, p2)
    case TNot(p) => CallsUsed(g, p)
    case TAnd(p) => CallsUsed(g, p)
    case TBehind(_, p) => CallsUsed(g, p)
    case TCall(r) => r < |g| && Used(g, r)
    case _ => true
  }

  ghost predicate AcceptedGrammar(g: seq<Tree>)
    decreases g, 0
  {
    && |g| > 0
    && VerifyGrammar(g)
    && (forall n :: 0 <= n < |g| ==>
          NoGrammar(g[n]) && BehindsOk(g, g[n]) && forall m: nat :: Calls(g[n], m) ==> m < |g|)
  }

  lemma UsedRule(g: seq<Tree>, n: nat)
    requires AcceptedGrammar(g) && n < |g| && Used(g, n)
    ensures Piece(g, g[n]) && VerifyRule(g, g[n], MAXRULES, false).Some?
  {
    CalledAreUsed(g, g[n]);
  }

  lemma {:induction false} CalledAreUsed(g: seq<Tree>, t: Tree)
    requires forall m: nat :: Calls(t, m) ==> m < |g| && Used(g, m)
    ensures CallsUsed(g, t)
    decreases t
  {
    match t
    case TRep(p) => assert forall m: nat :: Calls(t, m) == Calls(p, m); CalledAreUsed(g, p);
    case TNot(p) => assert forall m: nat :: Calls(t, m) == Calls(p, m); CalledAreUsed(g, p);
    case TAnd(p) => assert forall m: nat :: Calls(t, m) == Calls(p, m); CalledAreUsed(g, p);
    case TBehind(_, p) => assert forall m: nat :: Calls(t, m) == Calls(p, m); CalledAreUsed(g, p);
    case TSeq(p1, p2) =>
      forall m: nat | Calls(p1, m) || Calls(p2, m) ensures Calls(t, m) {}
      CalledAreUsed(g, p1);
      CalledAreUsed(g, p2);
    case TChoice(p1, p2) =>
      forall m: nat | Calls(p1, m) || Calls(p2, m) ensures Calls(t, m) {}
      CalledAreUsed(g, p1);
      CalledAreUsed(g, p2);
    case TCall(r) => assert Calls(t, r);
    case _ =>
  }

  /** Any piece of an accepted grammar can be verified one call deeper than its rules. */
  lemma {:induction false} PieceVerified(g: seq<Tree>, t: Tree, nb: bool)
    requires AcceptedGrammar(g) && Piece(g, t)
    ensures VerifyRule(g, t, MAXRULES + 1, nb).Some?
    decreases t
  {
    match t
    case TNot(p) => PieceVerified(g, p, true);
    case TAnd(p) => PieceVerified(g, p, true);
    case TRep(p) => PieceVerified(g, p, true);
    case TCall(r) =>
        UsedRule(g, r);
      VerifyFlag(g, g[r], MAXRULES, nb);
    case TSeq(p1, p2) => PieceVerified(g, p1, false); PieceVerified(g, p2, nb);
    case TChoice(p1, p2) =>
      PieceVerified(g, p1, nb);
      PieceVerified(g, p2, VerifyRule(g, p1, MAXRULES + 1, nb).value);
    case _ =>
  }

  /** What t gives at i, when it gives anything. */
  ghost function Result(g: seq<Tree>, t: Tree, s: seq<Byte>, i: nat): (o: Outcome)
    requires i <= |s| && Defined(g, t, s, i)
    ensures Means(g, t, s, i, o)
    ensures o.Ok? ==> i <= o.pos <= |s|
  {
    var k: nat :| !Eval(k, g, t, s, i).Unknown?;
    Eval(k, g, t, s, i)
  }

  /** Two results known with different fuel are known with common fuel. */
  lemma CommonFuel(g: seq<Tree>, t: Tree, i: nat, g': seq<Tree>, t': Tree, i': nat, s: seq<Byte>) returns (k: nat)
    requires i <= |s| && i' <= |s| && Defined(g, t, s, i) && Defined(g', t', s, i')
    ensures Eval(k, g, t, s, i) == Result(g, t, s, i) && Eval(k, g', t', s, i') == Result(g', t', s, i')
  {
    var k1: nat :| Eval(k1, g, t, s, i) == Result(g, t, s, i);
    var k2: nat :| Eval(k2, g', t', s, i') == Result(g', t', s, i');
    k := k1 + k2;
    assert Means(g, t, s, i, Result(g, t, s, i)) && Means(g', t', s, i', Result(g', t', s, i'));
    EvalMonotone(k1, k, g, t, s, i);
    EvalMonotone(k2, k, g', t', s, i');
  }

  lemma SeqDefined(g: seq<Tree>, p1: Tree, p2: Tree, s: seq<Byte>, i: nat)
    requires i <= |s| && Defined(g, p1, s, i)
    requires Result(g, p1, s, i).Ok? ==> Defined(g, p2, s, Result(g, p1, s, i).pos)
    ensures Defined(g, TSeq(p1, p2), s, i)
  {
    var o := Result(g, p1, s, i);
    var k := CommonFuel(g, p1, i, g, if o.Ok? then p2 else p1, if o.Ok? then o.pos else i, s);
    assert !Eval(k, g, TSeq(p1, p2), s, i).Unknown?;
  }

  lemma ChoiceDefined(g: seq<Tree>, p1: Tree, p2: Tree, s: seq<Byte>, i: nat)
    requires i <= |s| && Defined(g, p1, s, i) && Defined(g, p2, s, i)
    ensures Defined(g, TChoice(p1, p2), s, i)
  {
    var k := CommonFuel(g, p1, i, g, p2, i, s);
    assert !Eval(k, g, TChoice(p1, p2), s, i).Unknown?;
  }

  lemma RepDefined(g: seq<Tree>, p: Tree, s: seq<Byte>, i: nat)
    requires i <= |s| && Defined(g, p, s, i)
    requires Result(g, p, s, i).Ok? ==> Defined(g, TRep(p), s, Result(g, p, s, i).pos)
    ensures Defined(g, TRep(p), s, i)
  {
    var o := Result(g, p, s, i);
    var k := CommonFuel(g, p, i, g, if o.Ok? then TRep(p) else p, if o.Ok? then o.pos else i, s);
    EvalMonotone(k, k + 1, g, p, s, i);
    assert !Eval(k + 1, g, TRep(p), s, i).Unknown?;
  }

  lemma OneDefined(g: seq<Tree>, p: Tree, g': seq<Tree>, t: Tree, s: seq<Byte>, i: nat, j: nat)
    requires i <= |s| && j <= |s| && Defined(g, p, s, j)
    requires
      || (g' == g && i == j && (t == TNot(p) || t == TAnd(p)))
      || (g' == g && t.TBehind? && t.p == p && j == i - t.n)
      || (g' == g && i == j && t.TCall? && t.rule < |g| && p == g[t.rule])
      || (i == j && t.TGrammar? && g == t.rules && |g| > 0 && p == g[0])
    ensures Defined(g', t, s, i)
  {
    var k := CommonFuel(g, p, j, g, p, j, s);
    assert Eval(k + 1 - 1, g, p, s, j) == Eval(k, g, p, s, j);
    assert !Eval(k, g', t, s, i).Unknown? || !Eval(k + 1, g', t, s, i).Unknown?;
  }

  lemma AtomDefined(g: seq<Tree>, t: Tree, s: seq<Byte>, i: nat)
    requires i <= |s|
    requires t.TChar? || t.TSet? || t.TAny? || t.TTrue? || t.TFalse? || (t.TBehind? && t.n > i)
    ensures Defined(g, t, s, i)
  {
    assert !Eval(0, g, t, s, i).Unknown?;
  }

  /** A pattern that matches the empty string is not the body of an accepted loop. */
  lemma BodyConsumes(g: seq<Tree>, p: Tree, s: seq<Byte>, i: nat)
    requires i <= |s| && Defined(g, p, s, i) && !Nullable(g, p)
    ensures Result(g, p, s, i) != Ok(i)
  {
    var k := CommonFuel(g, p, i, g, p, i, s);
    if Result(g, p, s, i) == Ok(i) { NullableSound(k, g, p, DEPTH, s, i); }
  }

  /** Matching a piece of an accepted grammar terminates.  The measure is the remaining subject, then how
      many left calls are still allowed, then the size of the pattern. */
  lemma {:induction false} Terminates(g: seq<Tree>, t: Tree, s: seq<Byte>, i: nat, d: nat)
    requires AcceptedGrammar(g) && Piece(g, t) && i <= |s|
    requires VerifyRule(g, t, d, false).Some?
    ensures Defined(g, t, s, i)
    decreases 1, |s| - i, d, t
  {
    match t
    case TRep(p) =>
      VerifyFlag(g, p, d, true);
      Terminates(g, p, s, i, d);
      BodyConsumes(g, p, s, i);
      var o := Result(g, p, s, i);
      PieceVerified(g, t, false);
      if o.Ok? { Terminates(g, t, s, o.pos, MAXRULES + 1); }
      RepDefined(g, p, s, i);
    case TSeq(p1, p2) =>
      Terminates(g, p1, s, i, d);
      var o := Result(g, p1, s, i);
      if o == Ok(i) { LeftNullable(g, p1, d, s, i); Terminates(g, p2, s, i, d); }
      else if o.Ok? { PieceVerified(g, p2, false); Terminates(g, p2, s, o.pos, MAXRULES + 1); }
      SeqDefined(g, p1, p2, s, i);
    case TChoice(p1, p2) =>
      VerifyFlag(g, p2, d, VerifyRule(g, p1, d, false).value);
      Terminates(g, p1, s, i, d);
      Terminates(g, p2, s, i, d);
      ChoiceDefined(g, p1, p2, s, i);
    case TNot(p) => VerifyFlag(g, p, d, true); Terminates(g, p, s, i, d); OneDefined(g, p, g, t, s, i, i);
    case TAnd(p) => VerifyFlag(g, p, d, true); Terminates(g, p, s, i, d); OneDefined(g, p, g, t, s, i, i);
    case TBehind(n, p) =>
      if n > i { AtomDefined(g, t, s, i); }
      else { PatternTerminates(g, p, s, i - n); OneDefined(g, p, g, t, s, i, i - n); }
    case TCall(r) =>
      UsedRule(g, r);
      Terminates(g, g[r], s, i, d - 1);
      OneDefined(g, g[r], g, t, s, i, i);
    case _ => AtomDefined(g, t, s, i);
  }

  /** A piece that can match the empty string is reported nullable by verifyrule. */
  lemma LeftNullable(g: seq<Tree>, t: Tree, d: nat, s: seq<Byte>, i: nat)
    requires AcceptedGrammar(g) && Piece(g, t) && i <= |s|
    requires Defined(g, t, s, i) && Result(g, t, s, i) == Ok(i) && VerifyRule(g, t, d, false).Some?
    ensures VerifyRule(g, t, d, false).value
  {
    var k := CommonFuel(g, t, i, g, t, i, s);
    NullableSound(k, g, t, d, s, i);
    DepthSuffices(g, t, PEnullable, d, d);
  }

  /** A pattern as a user can build it: no open calls, no empty loops, accepted grammars. */
  ghost predicate Acceptable(g: seq<Tree>, t: Tree)
    decreases t, 1
  {
    match t
    case TRep(p) => !Nullable(g, p) && Acceptable(g, p)
    case TSeq(p1, p2) => Acceptable(g, p1) && Acceptable(g, p2)
    case TChoice(p1, p2) => Acceptable(g, p1) && Acceptable(g, p2)
    case TNot(p) => Acceptable(g, p)
    case TAnd(p) => Acceptable(g, p)
    case TBehind(_, p) => Acceptable(g, p)
    case TCall(_) => false
    case TGrammar(rs) => AcceptedGrammar(rs)
    case _ => true
  }

  /** Matching an acceptable pattern terminates. */
  lemma {:induction false} PatternTerminates(g: seq<Tree>, t: Tree, s: seq<Byte>, i: nat)
    requires Acceptable(g, t) && i <= |s|
    ensures Defined(g, t, s, i)
    decreases if NoGrammar(t) then 0 else 2, t, |s| - i
  {
    match t
    case TRep(p) =>
      PatternTerminates(g, p, s, i);
      BodyConsumes(g, p, s, i);
      var o := Result(g, p, s, i);
      if o.Ok? { PatternTerminates(g, t, s, o.pos); }
      RepDefined(g, p, s, i);
    case TSeq(p1, p2) =>
      PatternTerminates(g, p1, s, i);
      var o := Result(g, p1, s, i);
      if o.Ok? { PatternTerminates(g, p2, s, o.pos); }
      SeqDefined(g, p1, p2, s, i);
    case TChoice(p1, p2) =>
      PatternTerminates(g, p1, s, i);
      PatternTerminates(g, p2, s, i);
      ChoiceDefined(g, p1, p2, s, i);
    case TNot(p) => PatternTerminates(g, p, s, i); OneDefined(g, p, g, t, s, i, i);
    case TAnd(p) => PatternTerminates(g, p, s, i); OneDefined(g, p, g, t, s, i, i);
    case TBehind(n, p) =>
      if n > i { AtomDefined(g, t, s, i); }
      else { PatternTerminates(g, p, s, i - n); OneDefined(g, p, g, t, s, i, i - n); }
    case TGrammar(rs) =>
      UsedRule(rs, 0);
      Terminates(rs, rs[0], s, i, MAXRULES);
      OneDefined(rs, rs[0], g, t, s, i, i);
    case _ => AtomDefined(g, t, s, i);
  }
}
