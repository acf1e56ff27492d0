/** Pattern trees as lptree.c keeps them: arrays of nodes in preorder, a second sibling found by its distance.
    And what lptree.c makes of trees before they are compiled. */
module PegFlat {
  import opened PegTree

  /** A node; the first sibling comes next, ps is the distance of the second.  Keys and captures are not modelled. */
  datatype Node =
    | KChar(c: Byte)
    | KSet(cs: Charset)
    | KAny
    | KTrue
    | KFalse
    | KRep
    | KSeq(ps: nat)
    | KChoice(ps: nat)
    | KNot
    | KAnd
    | KBehind(n: nat)
    | KCall(rule: nat)
    | KGrammar
    | KRule(ps: nat)

  /** Number of nodes of a tree; the rules of a grammar are chained, and a node ends the chain. */
  function Nodes(t: Tree): (n: nat)
    ensures n > 0
  {
    match t
    case TRep(p) => 1 + Nodes(p)
    case TNot(p) => 1 + Nodes(p)
    case TAnd(p) => 1 + Nodes(p)
    case TBehind(_, p) => 1 + Nodes(p)
    case TSeq(p1, p2) => 1 + Nodes(p1) + Nodes(p2)
    case TChoice(p1, p2) => 1 + Nodes(p1) + Nodes(p2)
    case TGrammar(rs) => 1 + RuleNodes(rs)
    case _ => 1
  }

  function RuleNodes(rs: seq<Tree>): (n: nat)
    ensures n > 0
  {
    if rs == [] then 1 else 1 + Nodes(rs[0]) + RuleNodes(rs[1..])
  }

  /** The array of a tree. */
  function Flat(t: Tree): (a: seq<Node>)
    ensures |a| == Nodes(t)
  {
    match t
    case TChar(c) => [KChar(c)]
    case TSet(cs) => [KSet(cs)]
    case TAny => [KAny]
    case TTrue => [KTrue]
    case TFalse => [KFalse]
    case TRep(p) => [KRep] + Flat(p)
    case TSeq(p1, p2) => [KSeq(1 + Nodes(p1))] + Flat(p1) + Flat(p2)
    case TChoice(p1, p2) => [KChoice(1 + Nodes(p1))] + Flat(p1) + Flat(p2)
    case TNot(p) => [KNot] + Flat(p)
    case TAnd(p) => [KAnd] + Flat(p)
    case TBehind(n, p) => [KBehind(n)] + Flat(p)
    case TCall(r) => [KCall(r)]
    case TGrammar(rs) => [KGrammar] + FlatRules(rs)
  }

  function FlatRules(rs: seq<Tree>): (a: seq<Node>)
    ensures |a| == RuleNodes(rs)
  {
    if rs == [] then [KTrue] else [KRule(1 + Nodes(rs[0]))] + Flat(rs[0]) + FlatRules(rs[1..])
  }

  // ----- sequences and choices lean to the right -----

  predicate IsOp(t: Tree) { t.TSeq? || t.TChoice? }

  predicate SameOp(t: Tree, u: Tree) { (t.TSeq? && u.TSeq?) || (t.TChoice? && u.TChoice?) }

  /** The operator of t with other operands. */
  function Like(t: Tree, p1: Tree, p2: Tree): Tree
    requires IsOp(t)
  {
    if t.TSeq? then TSeq(p1, p2) else TChoice(p1, p2)
  }

  /** (a op b) op c becomes a op (b op c), until the left operand has another operator. */
  function Rotated(t: Tree): (r: Tree)
    requires IsOp(t)
    ensures SameOp(r, t) && !SameOp(t, r.p1) && Nodes(r) == Nodes(t)
    decreases t.p1
  {
    if SameOp(t, t.p1) then
      TurnNodes(t);
      Rotated(Turned(t))
    else t
  }

  /** One turn: (a op b) op c becomes a op (b op c). */
  function Turned(t: Tree): Tree
    requires IsOp(t) && SameOp(t, t.p1)
  {
    Like(t, t.p1.p1, Like(t, t.p1.p2, t.p2))
  }

  lemma TurnNodes(t: Tree)
    requires IsOp(t) && SameOp(t, t.p1)
    ensures Nodes(Turned(t)) == Nodes(t)
  {
    LikeNodes(t, t.p1.p1, Like(t, t.p1.p2, t.p2));
    LikeNodes(t, t.p1.p2, t.p2);
  }

  lemma LikeNodes(t: Tree, p1: Tree, p2: Tree)
    requires IsOp(t)
    ensures Nodes(Like(t, p1, p2)) == 1 + Nodes(p1) + Nodes(p2)
  {
  }

  /** What finalfix makes of a tree without open calls.  Grammars inside it were fixed before. */
  function Fixed(t: Tree): (r: Tree)
    ensures Nodes(r) == Nodes(t)
    decreases Nodes(t)
  {
    match t
    case TRep(p) => TRep(Fixed(p))
    case TNot(p) => TNot(Fixed(p))
    case TAnd(p) => TAnd(Fixed(p))
    case TBehind(n, p) => TBehind(n, Fixed(p))
    case TSeq(_, _) => var r := Rotated(t); TSeq(Fixed(r.p1), Fixed(r.p2))
    case TChoice(_, _) => var r := Rotated(t); TChoice(Fixed(r.p1), Fixed(r.p2))
    case _ => t
  }

  /** Nowhere is the left operand of a sequence a sequence, or that of a choice a choice. */
  predicate RightLeaning(t: Tree) {
    match t
    case TRep(p) => RightLeaning(p)
    case TNot(p) => RightLeaning(p)
    case TAnd(p) => RightLeaning(p)
    case TBehind(_, p) => RightLeaning(p)
    case TSeq(p1, p2) => !p1.TSeq? && RightLeaning(p1) && RightLeaning(p2)
    case TChoice(p1, p2) => !p1.TChoice? && RightLeaning(p1) && RightLeaning(p2)
    case _ => true
  }

  lemma {:induction false} FixedLeansRight(t: Tree)
    ensures RightLeaning(Fixed(t)) && (IsOp(Fixed(t)) <==> IsOp(t)) && (Fixed(t).TSeq? <==> t.TSeq?)
    decreases Nodes(t)
  {
    match t
    case TRep(p) => FixedLeansRight(p);
    case TNot(p) => FixedLeansRight(p);
    case TAnd(p) => FixedLeansRight(p);
    case TBehind(n, p) => FixedLeansRight(p);
    case TSeq(_, _) => FixedLeansRight(Rotated(t).p1); FixedLeansRight(Rotated(t).p2);
    case TChoice(_, _) => FixedLeansRight(Rotated(t).p1); FixedLeansRight(Rotated(t).p2);
    case _ =>
  }

  /** Turning operators to the right leaves every match as it was. */
  lemma {:induction false} RotatedMeans(k: nat, g: seq<Tree>, t: Tree, s: seq<Byte>, i: nat)
    requires IsOp(t) && i <= |s|
    ensures Eval(k, g, Rotated(t), s, i) == Eval(k, g, t, s, i)
    decreases t.p1
  {
    if SameOp(t, t.p1) { RotatedMeans(k, g, Turned(t), s, i); }
  }

  lemma {:induction false} FixedMeans(k: nat, g: seq<Tree>, t: Tree, s: seq<Byte>, i: nat)
    requires i <= |s|
    ensures Eval(k, g, Fixed(t), s, i) == Eval(k, g, t, s, i)
    decreases k, Nodes(t)
  {
    match t
    case TRep(p) =>
      FixedMeans(k, g, p, s, i);
      var o := Eval(k, g, p, s, i);
      if o.Ok? && k > 0 { FixedMeans(k - 1, g, t, s, o.pos); }
    case TNot(p) => FixedMeans(k, g, p, s, i);
    case TAnd(p) => FixedMeans(k, g, p, s, i);
    case TBehind(n, p) => if n <= i { FixedMeans(k, g, p, s, i - n); }
    case TSeq(_, _) =>
      var r := Rotated(t);
      RotatedMeans(k, g, t, s, i);
      FixedMeans(k, g, r.p1, s, i);
      var o := Eval(k, g, r.p1, s, i);
      if o.Ok? { FixedMeans(k, g, r.p2, s, o.pos); }
    case TChoice(_, _) =>
      var r := Rotated(t);
      RotatedMeans(k, g, t, s, i);
      FixedMeans(k, g, r.p1, s, i);
      FixedMeans(k, g, r.p2, s, i);
    case _ =>
  }

  // ----- in place -----

  predicate SameOpNode(n: Node, m: Node) { (n.KSeq? && m.KSeq?) || (n.KChoice? && m.KChoice?) }

  /** The operator of node n with another distance. */
  function LikeNode(n: Node, ps: nat): Node { if n.KSeq? then KSeq(ps) else KChoice(ps) }

  function OpNode(t: Tree, ps: nat): Node
    requires IsOp(t)
  {
    if t.TSeq? then KSeq(ps) else KChoice(ps)
  }

  lemma OpFlat(t: Tree)
    requires IsOp(t)
    ensures Flat(t) == [OpNode(t, 1 + Nodes(t.p1))] + Flat(t.p1) + Flat(t.p2) && Nodes(t) == 1 + Nodes(t.p1) + Nodes(t.p2)
  {
  }

  /** The array of a tree begins with its operator. */
  lemma FirstNode(t: Tree)
    ensures Flat(t)[0].KSeq? <==> t.TSeq?
    ensures Flat(t)[0].KChoice? <==> t.TChoice?
  {
  }

  /** An array that holds (a op b) op c, and what becomes of it. */
  lemma TurnedFlat(t: Tree)
    requires IsOp(t) && SameOp(t, t.p1)
    ensures
      var a, b, c := t.p1.p1, t.p1.p2, t.p2;
      && Flat(t) == [OpNode(t, 2 + Nodes(a) + Nodes(b)), OpNode(t, 1 + Nodes(a))] + Flat(a) + Flat(b) + Flat(c)
      && Flat(Turned(t)) == [OpNode(t, 1 + Nodes(a))] + Flat(a) + [OpNode(t, 1 + Nodes(b))] + Flat(b) + Flat(c)
  {
    hide Flat, Nodes;
    var a, b, c := t.p1.p1, t.p1.p2, t.p2;
    OpFlat(t);
    OpFlat(t.p1);
    OpFlat(Turned(t));
    OpFlat(Like(t, b, c));
    var n, m, k := OpNode(t, 2 + Nodes(a) + Nodes(b)), OpNode(t, 1 + Nodes(a)), OpNode(t, 1 + Nodes(b));
    assert [n] + ([m] + Flat(a) + Flat(b)) + Flat(c) == [n, m] + Flat(a) + Flat(b) + Flat(c);
    assert [m] + Flat(a) + ([k] + Flat(b) + Flat(c)) == [m] + Flat(a) + [k] + Flat(b) + Flat(c);
  }

  /** Turns sequences or choices that lean to the left. */
  method CorrectAssociativity(a: array<Node>, p: nat, ghost t: Tree, ghost pre: seq<Node>, ghost post: seq<Node>)
    requires IsOp(t) && |pre| == p && a[..] == pre + Flat(t) + post
    modifies a
    ensures a[..] == pre + Flat(Rotated(t)) + post
  {
    hide Flat, Nodes;
    ghost var u := t;
    OpAt(a[..], t, pre, post);
    while SameOpNode(a[p + 1], a[p])
      invariant IsOp(u) && SameOp(u, t) && Rotated(u) == Rotated(t) && a[..] == pre + Flat(u) + post
      invariant p + 1 < a.Length && (SameOpNode(a[p + 1], a[p]) <==> SameOp(u, u.p1))
      decreases u.p1
    {
      Turn(a, p, u, pre, post);
      u := Turned(u);
      OpAt(a[..], u, pre, post);
    }
  }

  lemma OpAt(s: seq<Node>, t: Tree, pre: seq<Node>, post: seq<Node>)
    requires IsOp(t) && s == pre + Flat(t) + post
    ensures |s| >= |pre| + Nodes(t) && Nodes(t) >= 3
    ensures s[|pre|] == OpNode(t, 1 + Nodes(t.p1)) && (SameOpNode(s[|pre| + 1], s[|pre|]) <==> SameOp(t, t.p1))
  {
    hide Flat, Nodes;
    OpFlat(t);
    FirstNode(t.p1);
    assert s[|pre| + 1] == Flat(t.p1)[0];
  }

  /** One turn: the left operand of the left operand moves down by one node, and the node behind it becomes the operator
      of the rest. */
  method Turn(a: array<Node>, p: nat, ghost t: Tree, ghost pre: seq<Node>, ghost post: seq<Node>)
    requires IsOp(t) && SameOp(t, t.p1) && |pre| == p && a[..] == pre + Flat(t) + post
    modifies a
    ensures a[..] == pre + Flat(Turned(t)) + post
  {
    hide Flat, Nodes;
    TurnedFlat(t);
    ghost var fa, fb, fc := Flat(t.p1.p1), Flat(t.p1.p2), Flat(t.p2);
    ghost var old_ := a[..];
    assert old_ == pre + [OpNode(t, 2 + |fa| + |fb|), OpNode(t, 1 + |fa|)] + fa + (fb + fc + post);
    assert old_[p] == OpNode(t, 2 + |fa| + |fb|) && old_[p + 1] == OpNode(t, 1 + |fa|);
    MoveNodes(a, p);
    Moved(old_, a[..], pre, OpNode(t, 2 + |fa| + |fb|), OpNode(t, 1 + |fa|), OpNode(t, 1 + |fb|), fa, fb + fc + post);
    assert pre + ([OpNode(t, 1 + |fa|)] + fa + [OpNode(t, 1 + |fb|)] + fb + fc) + post
        == pre + [OpNode(t, 1 + |fa|)] + fa + [OpNode(t, 1 + |fb|)] + (fb + fc + post);
  }

  method MoveNodes(a: array<Node>, p: nat)
    requires p + 1 < a.Length && SameOpNode(a[p + 1], a[p]) && 1 <= a[p + 1].ps && a[p + 1].ps < a[p].ps && p + 1 + a[p + 1].ps <= a.Length
    modifies a
    ensures
      var n, n11 := old(a[p]), old(a[p + 1].ps) - 1;
      && a[..p] == old(a[..p]) && a[p] == LikeNode(n, n11 + 1) && a[p + 1 + n11] == LikeNode(n, n.ps - n11 - 1)
      && (forall i :: p < i <= p + n11 ==> a[i] == old(a[i + 1]))
      && forall i :: p + 2 + n11 <= i < a.Length ==> a[i] == old(a[i])
  {
    var n1size := a[p].ps - 1;
    var n11size := a[p + 1].ps - 1;
    var n12size := n1size - n11size - 1;
    forall k | 0 <= k < n11size { a[p + 1 + k] := a[p + 2 + k]; }
    a[p] := LikeNode(a[p], n11size + 1);
    a[p + 1 + n11size] := LikeNode(a[p], n12size + 1);
  }

  lemma Moved(s: seq<Node>, u: seq<Node>, pre: seq<Node>, n: Node, m: Node, k: Node, fa: seq<Node>, rest: seq<Node>)
    requires s == pre + [n, m] + fa + rest && |u| == |s|
    requires u[..|pre|] == s[..|pre|] && u[|pre|] == m && u[|pre| + 1 + |fa|] == k
    requires forall i :: |pre| < i <= |pre| + |fa| ==> u[i] == s[i + 1]
    requires forall i :: |pre| + 2 + |fa| <= i < |s| ==> u[i] == s[i]
    ensures u == pre + [m] + fa + [k] + rest
  {
    var v := pre + [m] + fa + [k] + rest;
    forall i | 0 <= i < |u| ensures u[i] == v[i] {
      if i < |pre| { assert s[i] == pre[i]; }
      else if |pre| < i <= |pre| + |fa| {
        assert s[i + 1] == fa[i - |pre| - 1];
      }
      else if i > |pre| + 1 + |fa| { assert s[i] == rest[i - |pre| - 2 - |fa|]; }
    }
  }

  /** Fixes a tree: sequences and choices are turned, then their operands are fixed; a grammar was fixed when it was made. */
  method FinalFix(a: array<Node>, p: nat, ghost t: Tree, ghost pre: seq<Node>, ghost post: seq<Node>)
    requires |pre| == p && a[..] == pre + Flat(t) + post
    modifies a
    ensures a[..] == pre + Flat(Fixed(t)) + post
    decreases Nodes(t), 1
  {
    hide Flat, Nodes, Fixed;
    NodeAt(a[..], t, pre, post);
    if a[p].KSeq? || a[p].KChoice? {
      CorrectAssociativity(a, p, t, pre, post);
      FixOperands(a, p, Rotated(t), pre, post);
      FixedOp(t);
    } else if a[p].KRep? || a[p].KNot? || a[p].KAnd? || a[p].KBehind? {
      UnaryFlat(t);
      ghost var n := Flat(t)[0];
      assert pre + ([n] + Flat(t.p)) + post == (pre + [n]) + Flat(t.p) + post;
      FinalFix(a, p + 1, t.p, pre + [n], post);
      assert (pre + [n]) + Flat(Fixed(t.p)) + post == pre + ([n] + Flat(Fixed(t.p))) + post;
    } else {
      LeafFixed(t);
    }
  }

  method FixOperands(a: array<Node>, p: nat, ghost t: Tree, ghost pre: seq<Node>, ghost post: seq<Node>)
    requires IsOp(t) && |pre| == p && a[..] == pre + Flat(t) + post
    modifies a
    ensures a[..] == pre + Flat(Like(t, Fixed(t.p1), Fixed(t.p2))) + post
    decreases Nodes(t), 0
  {
    hide Flat, Nodes, Fixed;
    OpFlat(t);
    OpAt(a[..], t, pre, post);
    ghost var n, f1, f2 := OpNode(t, 1 + Nodes(t.p1)), Flat(t.p1), Flat(t.p2);
    ghost var g1, g2 := Flat(Fixed(t.p1)), Flat(Fixed(t.p2));
    var sib2 := p + a[p].ps;
    assert pre + ([n] + f1 + f2) + post == (pre + [n]) + f1 + (f2 + post);
    FinalFix(a, p + 1, t.p1, pre + [n], f2 + post);
    assert (pre + [n]) + g1 + (f2 + post) == (pre + [n] + g1) + f2 + post;
    FinalFix(a, sib2, t.p2, pre + [n] + g1, post);
    OpFlat(Like(t, Fixed(t.p1), Fixed(t.p2)));
    assert (pre + [n] + g1) + g2 + post == pre + ([n] + g1 + g2) + post;
  }

  predicate Unary(t: Tree) { t.TRep? || t.TNot? || t.TAnd? || t.TBehind? }

  lemma NodeAt(s: seq<Node>, t: Tree, pre: seq<Node>, post: seq<Node>)
    requires s == pre + Flat(t) + post
    ensures |s| >= |pre| + Nodes(t) && Nodes(t) > 0 && s[|pre|] == Flat(t)[0]
    ensures (s[|pre|].KSeq? || s[|pre|].KChoice?) <==> IsOp(t)
    ensures (s[|pre|].KRep? || s[|pre|].KNot? || s[|pre|].KAnd? || s[|pre|].KBehind?) <==> Unary(t)
  {
    FirstNode(t);
    FirstUnary(t);
    hide Flat, Nodes;
  }

  lemma FirstUnary(t: Tree)
    ensures (Flat(t)[0].KRep? || Flat(t)[0].KNot? || Flat(t)[0].KAnd? || Flat(t)[0].KBehind?) <==> Unary(t)
  {
  }

  lemma UnaryFlat(t: Tree)
    requires Unary(t)
    ensures Flat(t) == [Flat(t)[0]] + Flat(t.p) && Nodes(t) == 1 + Nodes(t.p)
    ensures Flat(Fixed(t)) == [Flat(t)[0]] + Flat(Fixed(t.p))
  {
  }

  lemma FixedOp(t: Tree)
    requires IsOp(t)
    ensures Fixed(t) == Like(Rotated(t), Fixed(Rotated(t).p1), Fixed(Rotated(t).p2))
  {
  }

  lemma LeafFixed(t: Tree)
    requires !IsOp(t) && !Unary(t)
    ensures Fixed(t) == t
  {
  }
}
