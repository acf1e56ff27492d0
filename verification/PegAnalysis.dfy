/** The pattern analyses of lpcode.c and what they promise about matching.

    A rule call sends an analysis on into the body of the rule.  Parameter d is how many calls deep it
    may still go; at 0 it gives the answer that promises nothing.  verifygrammar (module PegVerify)
    accepts a grammar only if these recursions stay within DEPTH. */
module PegAnalysis {
  import opened Wrappers
  import opened PegTree

  const MAXRULES := 200
  const MAXBEHIND := 255

  const DEPTH: nat := MAXRULES + 1

  datatype Pred = PEnullable | PEnofail

  function ToCharset(t: Tree): Option<Charset> {
    match t
    case TSet(cs) => Some(cs)
    case TChar(c) => Some({c})
    case TAny => Some(FULL)
    case _ => None
  }

  predicate CheckAux(g: seq<Tree>, t: Tree, pred: Pred, d: nat)
    decreases d, t
  {
    match t
    case TChar(_) => false
    case TSet(_) => false
    case TAny => false
    case TFalse => false
    case TRep(_) => true
    case TTrue => true
    case TNot(_) => pred.PEnullable?
    case TBehind(_, _) => pred.PEnullable?
    case TAnd(p) => pred.PEnullable? || CheckAux(g, p, pred, d)
    case TSeq(p1, p2) => CheckAux(g, p1, pred, d) && CheckAux(g, p2, pred, d)
    case TChoice(p1, p2) => CheckAux(g, p2, pred, d) || CheckAux(g, p1, pred, d)
    case TGrammar(rs) => if |rs| == 0 then pred.PEnullable? else CheckAux(rs, rs[0], pred, d)
    case TCall(r) => if r >= |g| || d == 0 then pred.PEnullable? else CheckAux(g, g[r], pred, d - 1)
  }

  predicate Nullable(g: seq<Tree>, t: Tree) { CheckAux(g, t, PEnullable, DEPTH) }

  predicate NoFail(g: seq<Tree>, t: Tree) { CheckAux(g, t, PEnofail, DEPTH) }

  /** Number of characters a pattern takes, added to len; -1 when that varies. */
  function FixedLenX(g: seq<Tree>, t: Tree, count: nat, len: nat): (n: int)
    ensures n >= -1
    decreases if count <= MAXRULES then MAXRULES - count else 0, t
  {
    match t
    case TChar(_) => len + 1
    case TSet(_) => len + 1
    case TAny => len + 1
    case TFalse => len
    case TTrue => len
    case TNot(_) => len
    case TAnd(_) => len
    case TBehind(_, _) => len
    case TRep(_) => -1
    case TGrammar(rs) => if |rs| == 0 then -1 else FixedLenX(rs, rs[0], count, len)
    case TCall(r) =>
      if r >= |g| || count >= MAXRULES then -1 else FixedLenX(g, g[r], count + 1, len)
    case TSeq(p1, p2) =>
      var n := FixedLenX(g, p1, count, len);
      if n < 0 then -1 else FixedLenX(g, p2, count, n)
    case TChoice(p1, p2) =>
      var n1 := FixedLenX(g, p1, count, len);
      if n1 < 0 then -1
      else if n1 == FixedLenX(g, p2, count, len) then n1
      else -1
  }

  function FixedLen(g: seq<Tree>, t: Tree): (n: int)
    ensures n >= -1
  {
    FixedLenX(g, t, 0, 0)
  }

  /** A first set and whether the pattern may accept the empty string (getfirst's return value). */
  datatype FirstInfo = FirstInfo(cs: Charset, e: bool)

  function GetFirst(g: seq<Tree>, t: Tree, follow: Charset, d: nat): FirstInfo
    decreases d, t
  {
    match t
    case TChar(c) => FirstInfo({c}, false)
    case TSet(cs) => FirstInfo(cs, false)
    case TAny => FirstInfo(FULL, false)
    case TTrue => FirstInfo(follow, true)
    case TFalse => FirstInfo({}, false)
    case TChoice(p1, p2) =>
      var f1 := GetFirst(g, p1, follow, d);
      var f2 := GetFirst(g, p2, follow, d);
      FirstInfo(f1.cs + f2.cs, f1.e || f2.e)
    case TSeq(p1, p2) =>
      if !Nullable(g, p1) then GetFirst(g, p1, FULL, d)
      else
        var f2 := GetFirst(g, p2, follow, d);
        var f1 := GetFirst(g, p1, f2.cs, d);
        FirstInfo(f1.cs, f1.e && f2.e)
    case TRep(p) => FirstInfo(GetFirst(g, p, follow, d).cs + follow, true)
    case TGrammar(rs) => if |rs| == 0 then FirstInfo(FULL, true) else GetFirst(rs, rs[0], follow, d)
    case TCall(r) =>
      if r >= |g| || d == 0 then FirstInfo(FULL, true) else GetFirst(g, g[r], follow, d - 1)
    case TAnd(p) =>
      var f := GetFirst(g, p, follow, d);
      FirstInfo(f.cs * follow, f.e)
    case TNot(p) =>
      if ToCharset(p).Some? then FirstInfo(FULL - ToCharset(p).value, true)
      else FirstInfo(follow, true)
    case TBehind(_, _) => FirstInfo(follow, true)
  }

  function First(g: seq<Tree>, t: Tree, follow: Charset): FirstInfo {
    GetFirst(g, t, follow, DEPTH)
  }

  /** The pattern can fail only because of the next character. */
  predicate HeadFailAux(g: seq<Tree>, t: Tree, d: nat)
    decreases d, t
  {
    match t
    case TChar(_) => true
    case TSet(_) => true
    case TAny => true
    case TFalse => true
    case TTrue => false
    case TRep(_) => false
    case TNot(_) => false
    case TBehind(_, _) => false
    case TAnd(p) => HeadFailAux(g, p, d)
    case TGrammar(rs) => |rs| > 0 && HeadFailAux(rs, rs[0], d)
    case TCall(r) => r < |g| && d > 0 && HeadFailAux(g, g[r], d - 1)
    case TSeq(p1, p2) => NoFail(g, p2) && HeadFailAux(g, p1, d)
    case TChoice(p1, p2) => HeadFailAux(g, p1, d) && HeadFailAux(g, p2, d)
  }

  predicate HeadFail(g: seq<Tree>, t: Tree) { HeadFailAux(g, t, DEPTH) }

  predicate NeedFollow(t: Tree) {
    match t
    case TChoice(_, _) => true
    case TRep(_) => true
    case TSeq(_, p2) => NeedFollow(p2)
    case _ => false
  }

  // ----- what the analyses promise -----

  /** A pattern that matches without consuming anything is reported nullable. */
  lemma {:induction false} NullableSound(k: nat, g: seq<Tree>, t: Tree, d: nat, s: seq<Byte>, i: nat)
    requires i <= |s|
    requires Eval(k, g, t, s, i) == Ok(i)
    ensures CheckAux(g, t, PEnullable, d)
    decreases k, t
  {
    match t
    case TSeq(p1, p2) =>
      NullableSound(k, g, p1, d, s, i);
      NullableSound(k, g, p2, d, s, i);
    case TChoice(p1, p2) =>
      if Eval(k, g, p1, s, i).Ok? { NullableSound(k, g, p1, d, s, i); }
      else { NullableSound(k, g, p2, d, s, i); }
    case TCall(r) => if d > 0 { NullableSound(k - 1, g, g[r], d - 1, s, i); }
    case TGrammar(rs) => NullableSound(k - 1, rs, rs[0], d, s, i);
    case _ =>
  }

  /** A pattern reported nofail never fails. */
  lemma {:induction false} NoFailSound(k: nat, g: seq<Tree>, t: Tree, d: nat, s: seq<Byte>, i: nat)
    requires i <= |s|
    requires CheckAux(g, t, PEnofail, d)
    ensures !Eval(k, g, t, s, i).Fail?
    decreases k, t
  {
    match t
    case TRep(p) =>
      var o := Eval(k, g, p, s, i);
      if o.Ok? && k > 0 { NoFailSound(k - 1, g, t, d, s, o.pos); }
    case TAnd(p) => NoFailSound(k, g, p, d, s, i);
    case TSeq(p1, p2) =>
      NoFailSound(k, g, p1, d, s, i);
      var o := Eval(k, g, p1, s, i);
      if o.Ok? { NoFailSound(k, g, p2, d, s, o.pos); }
    case TChoice(p1, p2) =>
      if CheckAux(g, p2, PEnofail, d) { NoFailSound(k, g, p2, d, s, i); }
      else { NoFailSound(k, g, p1, d, s, i); }
    case TCall(r) => if k > 0 { NoFailSound(k - 1, g, g[r], d - 1, s, i); }
    case TGrammar(rs) => if k > 0 { NoFailSound(k - 1, rs, rs[0], d, s, i); }
    case _ =>
  }

  /** nofail implies nullable, whatever the depths. */
  lemma {:induction false} NoFailNullable(g: seq<Tree>, t: Tree, d: nat, d': nat)
    requires CheckAux(g, t, PEnofail, d)
    ensures CheckAux(g, t, PEnullable, d')
    decreases d, t
  {
    match t
    case TSeq(p1, p2) => NoFailNullable(g, p1, d, d'); NoFailNullable(g, p2, d, d');
    case TChoice(p1, p2) =>
      if CheckAux(g, p2, PEnofail, d) { NoFailNullable(g, p2, d, d'); }
      else { NoFailNullable(g, p1, d, d'); }
    case TCall(r) => if d' > 0 { NoFailNullable(g, g[r], d - 1, d' - 1); }
    case TGrammar(rs) => NoFailNullable(rs, rs[0], d, d');
    case _ =>
  }

  /** A pattern of fixed length consumes exactly that many characters whenever it matches. */
  lemma {:induction false} FixedLenSound(k: nat, g: seq<Tree>, t: Tree, count: nat, len: nat, s: seq<Byte>, i: nat)
    requires i <= |s|
    requires FixedLenX(g, t, count, len) >= 0
    requires Eval(k, g, t, s, i).Ok?
    ensures Eval(k, g, t, s, i).pos + len == i + FixedLenX(g, t, count, len)
    decreases k, t
  {
    match t
    case TSeq(p1, p2) =>
      FixedLenSound(k, g, p1, count, len, s, i);
      FixedLenSound(k, g, p2, count, FixedLenX(g, p1, count, len), s, Eval(k, g, p1, s, i).pos);
    case TChoice(p1, p2) =>
      if Eval(k, g, p1, s, i).Ok? { FixedLenSound(k, g, p1, count, len, s, i); }
      else { FixedLenSound(k, g, p2, count, len, s, i); }
    case TCall(r) => FixedLenSound(k - 1, g, g[r], count + 1, len, s, i);
    case TGrammar(rs) => FixedLenSound(k - 1, rs, rs[0], count, len, s, i);
    case _ =>
  }

  /** The first set is sound.  If the next character is outside it, a match can only be an empty one in
      front of a character outside follow; and if the second component is false there is no match at
      the end of the subject. */
  lemma {:induction false} FirstSound(k: nat, g: seq<Tree>, t: Tree, follow: Charset, d: nat, s: seq<Byte>, i: nat)
    requires i <= |s|
    requires Eval(k, g, t, s, i).Ok?
    ensures i < |s| && s[i] !in GetFirst(g, t, follow, d).cs ==>
              Eval(k, g, t, s, i).pos == i && s[i] !in follow
    ensures i == |s| ==> GetFirst(g, t, follow, d).e
    decreases k, t
  {
    match t
    case TSeq(p1, p2) =>
      var m := Eval(k, g, p1, s, i).pos;
      if !Nullable(g, p1) {
        FirstSound(k, g, p1, FULL, d, s, i);
      } else {
        FirstSound(k, g, p1, GetFirst(g, p2, follow, d).cs, d, s, i);
        FirstSound(k, g, p2, follow, d, s, m);
      }
    case TChoice(p1, p2) =>
      if Eval(k, g, p1, s, i).Ok? { FirstSound(k, g, p1, follow, d, s, i); }
      else { FirstSound(k, g, p2, follow, d, s, i); }
    case TRep(p) =>
      var o := Eval(k, g, p, s, i);
      if o.Ok? {
        FirstSound(k, g, p, follow, d, s, i);
        FirstSound(k - 1, g, t, follow, d, s, o.pos);
      }
    case TAnd(p) => FirstSound(k, g, p, follow, d, s, i);
    case TCall(r) => if d > 0 { FirstSound(k - 1, g, g[r], follow, d - 1, s, i); }
    case TGrammar(rs) => FirstSound(k - 1, rs, rs[0], follow, d, s, i);
    case _ =>
  }

  /** A pattern that cannot fail puts no condition on the next character. */
  lemma {:induction false} NoFailFirst(g: seq<Tree>, t: Tree, c: nat, d: nat)
    requires CheckAux(g, t, PEnofail, c)
    ensures GetFirst(g, t, FULL, d).cs == FULL
    decreases c, t
  {
    InFull(g, t, FULL, d);
    match t
    case TAnd(p) => NoFailFirst(g, p, c, d);
    case TSeq(p1, p2) =>
      NoFailNullable(g, p1, c, DEPTH);
      NoFailFirst(g, p2, c, d);
      NoFailFirst(g, p1, c, d);
    case TChoice(p1, p2) =>
      if CheckAux(g, p2, PEnofail, c) { NoFailFirst(g, p2, c, d); }
      else { NoFailFirst(g, p1, c, d); }
    case TCall(r) => if d > 0 { NoFailFirst(g, g[r], c - 1, d - 1); }
    case TGrammar(rs) => NoFailFirst(rs, rs[0], c, d);
    case _ =>
  }

  lemma InFull(g: seq<Tree>, t: Tree, follow: Charset, d: nat)
    ensures GetFirst(g, t, follow, d).cs <= FULL
  {
  }

  /** headfail makes the first set exact: getfirst returns 0 and the pattern matches exactly when there
      is a next character and it is in the set. */
  lemma {:induction false} HeadFailExact(k: nat, g: seq<Tree>, t: Tree, d: nat, s: seq<Byte>, i: nat)
    requires i <= |s|
    requires HeadFailAux(g, t, d)
    requires !Eval(k, g, t, s, i).Unknown?
    ensures Eval(k, g, t, s, i).Ok? <==> i < |s| && s[i] in GetFirst(g, t, FULL, d).cs
    decreases k, t
  {
    match t
    case TSeq(p1, p2) =>
      HeadFailExact(k, g, p1, d, s, i);
      NoFailFirst(g, p2, DEPTH, d);
      var o := Eval(k, g, p1, s, i);
      if o.Ok? { NoFailSound(k, g, p2, DEPTH, s, o.pos); }
    case TChoice(p1, p2) =>
      HeadFailExact(k, g, p1, d, s, i);
      if Eval(k, g, p1, s, i).Fail? { HeadFailExact(k, g, p2, d, s, i); }
    case TAnd(p) =>
      HeadFailExact(k, g, p, d, s, i);
      InFull(g, p, FULL, d);
    case TCall(r) => HeadFailExact(k - 1, g, g[r], d - 1, s, i);
    case TGrammar(rs) => HeadFailExact(k - 1, rs, rs[0], d, s, i);
    case _ =>
  }

  lemma {:induction false} HeadFailNotEmpty(g: seq<Tree>, t: Tree, follow: Charset, d: nat)
    requires HeadFailAux(g, t, d)
    ensures !GetFirst(g, t, follow, d).e
    decreases d, t
  {
    match t
    case TSeq(p1, p2) =>
      HeadFailNotEmpty(g, p1, FULL, d);
      HeadFailNotEmpty(g, p1, GetFirst(g, p2, follow, d).cs, d);
    case TChoice(p1, p2) => HeadFailNotEmpty(g, p1, follow, d); HeadFailNotEmpty(g, p2, follow, d);
    case TAnd(p) => HeadFailNotEmpty(g, p, follow, d);
    case TCall(r) => HeadFailNotEmpty(g, g[r], follow, d - 1);
    case TGrammar(rs) => HeadFailNotEmpty(rs, rs[0], follow, d);
    case _ =>
  }

  lemma CharsetMeans(k: nat, g: seq<Tree>, p: Tree, s: seq<Byte>, i: nat)
    requires i <= |s| && ToCharset(p).Some?
    ensures Eval(k, g, p, s, i) == if i < |s| && s[i] in ToCharset(p).value then Ok(i + 1) else Fail
  {
  }
}
