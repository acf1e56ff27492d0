/** Pattern trees of LPeg and the meaning of a pattern.

    A tree is what the pattern constructors of lptree.c build and what lpcode.c compiles.  Captures
    are not part of this model.  A call refers to a rule of the enclosing grammar by number. */
module PegTree {
  import opened Wrappers

  type Byte = x: int | 0 <= x < 256

  type Charset = set<Byte>

  const FULL: Charset := set c: Byte | 0 <= c < 256

  datatype Tree =
    | TChar(c: Byte)
    | TSet(cs: Charset)
    | TAny
    | TTrue
    | TFalse
    | TRep(p: Tree)
    | TSeq(p1: Tree, p2: Tree)
    | TChoice(p1: Tree, p2: Tree)
    | TNot(p: Tree)
    | TAnd(p: Tree)
    | TBehind(n: nat, p: Tree)
    | TCall(rule: nat)
    | TGrammar(rules: seq<Tree>)

  /** What matching a pattern at a position can give: a failure or the end of the matched text.
      Unknown says that the evaluation did not finish within its fuel. */
  datatype Outcome = Unknown | Fail | Ok(pos: nat)

  /** PEG semantics.  The fuel k bounds the nesting of calls and the length of repetitions;
      a pattern means what Eval says with enough fuel (see Means). */
  ghost function Eval(k: nat, g: seq<Tree>, t: Tree, s: seq<Byte>, i: nat): (o: Outcome)
    requires i <= |s|
    ensures o.Ok? ==> i <= o.pos <= |s|
    decreases k, t
  {
    match t
    case TChar(c) => if i < |s| && s[i] == c then Ok(i + 1) else Fail
    case TSet(cs) => if i < |s| && s[i] in cs then Ok(i + 1) else Fail
    case TAny => if i < |s| then Ok(i + 1) else Fail
    case TTrue => Ok(i)
    case TFalse => Fail
    case TRep(p) =>
      var o := Eval(k, g, p, s, i);
      if o.Fail? then Ok(i)
      else if o.Ok? && k > 0 then Eval(k - 1, g, t, s, o.pos)
      else Unknown
    case TSeq(p1, p2) =>
      var o := Eval(k, g, p1, s, i);
      if o.Ok? then Eval(k, g, p2, s, o.pos) else o
    case TChoice(p1, p2) =>
      var o := Eval(k, g, p1, s, i);
      if o.Fail? then Eval(k, g, p2, s, i) else o
    case TNot(p) =>
      var o := Eval(k, g, p, s, i);
      if o.Fail? then Ok(i) else if o.Ok? then Fail else Unknown
    case TAnd(p) =>
      var o := Eval(k, g, p, s, i);
      if o.Ok? then Ok(i) else o
    case TBehind(n, p) =>
      if n > i then Fail
      else
        var o := Eval(k, g, p, s, i - n);
        if o.Ok? then Ok(i) else o
    case TCall(r) =>
      if r < |g| && k > 0 then Eval(k - 1, g, g[r], s, i) else Unknown
    case TGrammar(rs) =>
      if |rs| > 0 && k > 0 then Eval(k - 1, rs, rs[0], s, i) else Unknown
  }

  /** The big-step relation: pattern t at position i of subject s gives o. */
  ghost predicate Means(g: seq<Tree>, t: Tree, s: seq<Byte>, i: nat, o: Outcome)
    requires i <= |s|
  {
    !o.Unknown? && exists k: nat :: Eval(k, g, t, s, i) == o
  }

  lemma {:induction false} EvalMonotone(k: nat, k': nat, g: seq<Tree>, t: Tree, s: seq<Byte>, i: nat)
    requires i <= |s| && k <= k'
    requires !Eval(k, g, t, s, i).Unknown?
    ensures Eval(k', g, t, s, i) == Eval(k, g, t, s, i)
    decreases k, t
  {
    match t
    case TRep(p) =>
      EvalMonotone(k, k', g, p, s, i);
      var o := Eval(k, g, p, s, i);
      if o.Ok? { EvalMonotone(k - 1, k' - 1, g, t, s, o.pos); }
    case TSeq(p1, p2) =>
      EvalMonotone(k, k', g, p1, s, i);
      var o := Eval(k, g, p1, s, i);
      if o.Ok? { EvalMonotone(k, k', g, p2, s, o.pos); }
    case TChoice(p1, p2) =>
      EvalMonotone(k, k', g, p1, s, i);
      if Eval(k, g, p1, s, i).Fail? { EvalMonotone(k, k', g, p2, s, i); }
    case TNot(p) => EvalMonotone(k, k', g, p, s, i);
    case TAnd(p) => EvalMonotone(k, k', g, p, s, i);
    case TBehind(n, p) => if n <= i { EvalMonotone(k, k', g, p, s, i - n); }
    case TCall(r) => EvalMonotone(k - 1, k' - 1, g, g[r], s, i);
    case TGrammar(rs) => EvalMonotone(k - 1, k' - 1, rs, rs[0], s, i);
    case _ =>
  }

  /** A pattern gives at most one result at a position. */
  lemma MeansDeterministic(g: seq<Tree>, t: Tree, s: seq<Byte>, i: nat, o: Outcome, o': Outcome)
    requires i <= |s|
    requires Means(g, t, s, i, o) && Means(g, t, s, i, o')
    ensures o == o'
  {
    var k: nat :| Eval(k, g, t, s, i) == o;
    var k': nat :| Eval(k', g, t, s, i) == o';
    EvalMonotone(k, k + k', g, t, s, i);
    EvalMonotone(k', k + k', g, t, s, i);
  }
}
