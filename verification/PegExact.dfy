/** The analyses of lpcode.c say no more than they must: what they answer for patterns without predicates, look-behinds and
    calls is exact. */
module PegExact {
  import opened PegTree
  import opened PegAnalysis

  /** A pattern made of characters, sequences, choices and repetitions that consume. */
  predicate Plain(t: Tree)
    decreases t
  {
    match t
    case TSeq(p1, p2) => Plain(p1) && Plain(p2)
    case TChoice(p1, p2) => Plain(p1) && Plain(p2)
    case TRep(p) => Plain(p) && !Nullable([], p)
    case TNot(_) => false
    case TAnd(_) => false
    case TBehind(_, _) => false
    case TCall(_) => false
    case TGrammar(_) => false
    case _ => true
  }

  /** Such a pattern is nullable, and cannot fail, exactly if it matches the empty subject. */
  lemma {:induction false} OnEmptySubject(t: Tree, pred: Pred, k: nat)
    requires Plain(t)
    ensures Eval(k, [], t, [], 0) == if CheckAux([], t, pred, DEPTH) then Ok(0) else Fail
    decreases t
  {
    match t
    case TSeq(p1, p2) => OnEmptySubject(p1, pred, k); OnEmptySubject(p2, pred, k);
    case TChoice(p1, p2) => OnEmptySubject(p1, pred, k); OnEmptySubject(p2, pred, k);
    case TRep(p) => OnEmptySubject(p, PEnullable, k);
    case _ =>
  }

  lemma NullableExact(t: Tree)
    requires Plain(t)
    ensures Nullable([], t) <==> Means([], t, [], 0, Ok(0))
    ensures NoFail([], t) <==> !Means([], t, [], 0, Fail)
  {
    hide Eval, CheckAux;
    forall k: nat ensures Eval(k, [], t, [], 0) == if Nullable([], t) then Ok(0) else Fail
      ensures Eval(k, [], t, [], 0) == if NoFail([], t) then Ok(0) else Fail
    {
      OnEmptySubject(t, PEnullable, k);
      OnEmptySubject(t, PEnofail, k);
    }
    assert Eval(0, [], t, [], 0) == if Nullable([], t) then Ok(0) else Fail;
  }

  // ----- lengths -----

  /** Some way through t, whichever alternatives are taken, passes n characters. */
  ghost predicate Passes(t: Tree, n: nat)
    decreases t
  {
    match t
    case TChar(_) => n == 1
    case TSet(_) => n == 1
    case TAny => n == 1
    case TSeq(p1, p2) => exists a: nat, b: nat :: a + b == n && Passes(p1, a) && Passes(p2, b)
    case TChoice(p1, p2) => Passes(p1, n) || Passes(p2, n)
    case _ => n == 0
  }

  ghost predicate AllPass(t: Tree, n: nat) { forall m: nat :: Passes(t, m) <==> m == n }

  ghost predicate TwoPass(t: Tree) { exists a: nat, b: nat :: a != b && Passes(t, a) && Passes(t, b) }

  /** A repetition, a call or a grammar on a way through t. */
  predicate Varies(t: Tree)
    decreases t
  {
    match t
    case TSeq(p1, p2) => Varies(p1) || Varies(p2)
    case TChoice(p1, p2) => Varies(p1) || Varies(p2)
    case TRep(_) => true
    case TCall(_) => true
    case TGrammar(_) => true
    case _ => false
  }

  lemma {:induction false} LengthPasses(g: seq<Tree>, t: Tree, count: nat, len: nat)
    requires !Varies(t) && FixedLenX(g, t, count, len) >= 0
    ensures FixedLenX(g, t, count, len) >= len && forall n: nat :: Passes(t, n) <==> n == FixedLenX(g, t, count, len) - len
    decreases t
  {
    match t
    case TSeq(p1, p2) =>
      LengthPasses(g, p1, count, len);
      var m := FixedLenX(g, p1, count, len);
      LengthPasses(g, p2, count, m);
      var r := FixedLenX(g, t, count, len);
      assert (m - len) + (r - m) == r - len && Passes(p1, m - len) && Passes(p2, r - m);
    case TChoice(p1, p2) => LengthPasses(g, p1, count, len); LengthPasses(g, p2, count, len);
    case _ =>
  }

  lemma {:induction false} VaryingPasses(g: seq<Tree>, t: Tree, count: nat, len: nat) returns (a: nat, b: nat)
    requires !Varies(t) && FixedLenX(g, t, count, len) < 0
    ensures a != b && Passes(t, a) && Passes(t, b)
    decreases t
  {
    match t
    case TSeq(p1, p2) =>
      var m := FixedLenX(g, p1, count, len);
      if m < 0 {
        a, b := VaryingPasses(g, p1, count, len);
        var x := SomePasses(p2);
        assert Passes(t, a + x) && Passes(t, b + x);
        a, b := a + x, b + x;
      } else {
        a, b := VaryingPasses(g, p2, count, m);
        var x := SomePasses(p1);
        assert Passes(t, x + a) && Passes(t, x + b);
        a, b := x + a, x + b;
      }
    case TChoice(p1, p2) =>
      if FixedLenX(g, p1, count, len) < 0 { a, b := VaryingPasses(g, p1, count, len); }
      else if FixedLenX(g, p2, count, len) < 0 { a, b := VaryingPasses(g, p2, count, len); }
      else {
        LengthPasses(g, p1, count, len);
        LengthPasses(g, p2, count, len);
        a, b := FixedLenX(g, p1, count, len) - len, FixedLenX(g, p2, count, len) - len;
      }
  }

  lemma {:induction false} SomePasses(t: Tree) returns (n: nat)
    ensures Passes(t, n)
    decreases t
  {
    match t
    case TSeq(p1, p2) =>
      var a := SomePasses(p1);
      var b := SomePasses(p2);
      n := a + b;
    case TChoice(p1, _) => n := SomePasses(p1);
    case TChar(_) => n := 1;
    case TSet(_) => n := 1;
    case TAny => n := 1;
    case _ => n := 0;
  }

  /** fixedlen gives n exactly if every way through the pattern passes n characters, and gives up just where two differ. */
  lemma FixedLenExact(g: seq<Tree>, t: Tree, n: nat)
    requires !Varies(t)
    ensures FixedLen(g, t) == n <==> AllPass(t, n)
    ensures FixedLen(g, t) == -1 <==> TwoPass(t)
  {
    hide FixedLenX;
    if FixedLen(g, t) >= 0 {
      LengthPasses(g, t, 0, 0);
      assert AllPass(t, FixedLen(g, t)) && Passes(t, FixedLen(g, t));
    } else {
      var a, b := VaryingPasses(g, t, 0, 0);
      assert Passes(t, a) && Passes(t, b);
    }
  }

  // ----- first characters -----

  /** Some way through t begins with c. */
  predicate Begins(t: Tree, c: Byte)
    decreases t
  {
    match t
    case TChar(x) => c == x
    case TSet(cs) => c in cs
    case TAny => true
    case TSeq(p1, p2) => Begins(p1, c) || (Nullable([], p1) && Begins(p2, c))
    case TChoice(p1, p2) => Begins(p1, c) || Begins(p2, c)
    case TRep(p) => Begins(p, c)
    case _ => false
  }

  /** The first set has just the characters with which a way through the pattern begins, and what follows if the pattern can be
      empty; and getfirst says so. */
  lemma {:induction false} FirstExact(t: Tree, follow: Charset, c: Byte)
    requires Plain(t)
    ensures c in First([], t, follow).cs <==> Begins(t, c) || (Nullable([], t) && c in follow)
    ensures First([], t, follow).e == Nullable([], t)
    decreases t
  {
    match t
    case TSeq(p1, p2) =>
      FirstExact(p1, FULL, c);
      FirstExact(p2, follow, c);
      FirstExact(p1, First([], p2, follow).cs, c);
    case TChoice(p1, p2) => FirstExact(p1, follow, c); FirstExact(p2, follow, c);
    case TRep(p) => FirstExact(p, follow, c);
    case _ =>
  }
}
