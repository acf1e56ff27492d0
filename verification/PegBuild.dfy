/** How lptree.c builds trees from smaller ones, in arrays of just the right size, and what the trees mean. */
module PegBuild {
  import opened Wrappers
  import opened PegTree
  import opened PegAnalysis
  import opened PegFlat

  // ----- strings and numbers -----

  /** A sequence of single characters, or of any characters if there is no string; from the i-th on. */
  function Leaf(s: Option<seq<Byte>>, i: nat): Tree
    requires s.Some? ==> i < |s.value|
  {
    if s.Some? then TChar(s.value[i]) else TAny
  }

  function SeqOf(s: Option<seq<Byte>>, i: nat, n: nat): (t: Tree)
    requires i < n && (s.Some? ==> n == |s.value|)
    ensures Nodes(t) == 2 * (n - i) - 1
    decreases n - i
  {
    if i + 1 == n then Leaf(s, i) else TSeq(Leaf(s, i), SeqOf(s, i + 1, n))
  }

  /** fillseq: writes the nodes one after the other. */
  method FillSeq(a: array<Node>, from: nat, n: nat, s: Option<seq<Byte>>)
    requires 0 < n && from + 2 * n - 1 == a.Length && (s.Some? ==> n == |s.value|)
    modifies a
    ensures a[..] == old(a[..from]) + Flat(SeqOf(s, 0, n))
  {
    hide Flat, SeqOf;
    var p, i := from, 0;
    ghost var all := old(a[..from]) + Flat(SeqOf(s, 0, n));
    while i < n - 1
      invariant 0 <= i < n && p == from + 2 * i && a[..p] + Flat(SeqOf(s, i, n)) == all
    {
      SeqOfFlat(s, i, n);
      ghost var before := a[..p];
      a[p] := KSeq(2);
      a[p + 1] := if s.Some? then KChar(s.value[i]) else KAny;
      assert a[..p + 2] == before + [a[p], a[p + 1]];
      Regroup(before, [a[p], a[p + 1]], Flat(SeqOf(s, i + 1, n)));
      p := p + 2;
      i := i + 1;
    }
    SeqOfFlat(s, i, n);
    ghost var before := a[..p];
    a[p] := if s.Some? then KChar(s.value[i]) else KAny;
    assert a[..] == before + [a[p]];
  }

  lemma SeqOfFlat(s: Option<seq<Byte>>, i: nat, n: nat)
    requires i < n && (s.Some? ==> n == |s.value|)
    ensures
      var leaf := if s.Some? then KChar(s.value[i]) else KAny;
      Flat(SeqOf(s, i, n)) == if i + 1 == n then [leaf] else [KSeq(2), leaf] + Flat(SeqOf(s, i + 1, n))
  {
  }

  function NumberTree(n: int): Tree {
    if n == 0 then TTrue else if n > 0 then SeqOf(None, 0, n) else TNot(SeqOf(None, 0, -n))
  }

  function StringTree(s: seq<Byte>): Tree { if s == [] then TTrue else SeqOf(Some(s), 0, |s|) }

  method NumTree(n: int) returns (a: array<Node>)
    ensures fresh(a) && a[..] == Flat(NumberTree(n))
  {
    if n == 0 {
      a := new Node[1];
      a[0] := KTrue;
    } else if n > 0 {
      a := new Node[2 * n - 1](_ => KTrue);
      FillSeq(a, 0, n, None);
    } else {
      a := new Node[2 * -n](_ => KTrue);
      a[0] := KNot;
      FillSeq(a, 1, -n, None);
    }
  }

  method StrTree(s: seq<Byte>) returns (a: array<Node>)
    ensures fresh(a) && a[..] == Flat(StringTree(s))
  {
    if |s| == 0 {
      a := new Node[1];
      a[0] := KTrue;
    } else {
      a := new Node[2 * (|s| - 1) + 1](_ => KTrue);
      FillSeq(a, 0, |s|, Some(s));
    }
  }

  lemma {:induction false} AnysMean(k: nat, g: seq<Tree>, j: nat, n: nat, s: seq<Byte>, i: nat)
    requires j < n && i <= |s|
    ensures Eval(k, g, SeqOf(None, j, n), s, i) == if i + (n - j) <= |s| then Ok(i + (n - j)) else Fail
    decreases n - j
  {
    if j + 1 < n && i < |s| { AnysMean(k, g, j + 1, n, s, i + 1); }
  }

  /** A number matches that many characters; a negative one matches where there are fewer. */
  lemma NumberMeans(k: nat, g: seq<Tree>, n: int, s: seq<Byte>, i: nat)
    requires i <= |s|
    ensures Eval(k, g, NumberTree(n), s, i)
         == if n >= 0 then (if i + n <= |s| then Ok(i + n) else Fail) else if i - n <= |s| then Fail else Ok(i)
  {
    if n > 0 { AnysMean(k, g, 0, n, s, i); } else if n < 0 { AnysMean(k, g, 0, -n, s, i); }
  }

  lemma {:induction false} CharsMean(k: nat, g: seq<Tree>, w: seq<Byte>, j: nat, s: seq<Byte>, i: nat)
    requires j < |w| && i <= |s|
    ensures Eval(k, g, SeqOf(Some(w), j, |w|), s, i) == if w[j..] <= s[i..] then Ok(i + |w| - j) else Fail
    decreases |w| - j
  {
    if i < |s| {
      assert w[j..] == [w[j]] + w[j + 1..] && s[i..] == [s[i]] + s[i + 1..];
      if s[i] == w[j] && j + 1 < |w| { CharsMean(k, g, w, j + 1, s, i + 1); }
    }
  }

  /** A string matches itself. */
  lemma StringMeans(k: nat, g: seq<Tree>, w: seq<Byte>, s: seq<Byte>, i: nat)
    requires i <= |s|
    ensures Eval(k, g, StringTree(w), s, i) == if w <= s[i..] then Ok(i + |w|) else Fail
  {
    if w != [] {
      CharsMean(k, g, w, 0, s, i);
      assert w[0..] == w;
    }
  }

  // ----- p^n -----

  /** At least n times. */
  function SeqRep(t: Tree, n: nat): Tree { if n == 0 then TRep(t) else TSeq(t, SeqRep(t, n - 1)) }

  /** At most n times. */
  function UpTo(t: Tree, n: nat): Tree
    requires n > 0
  {
    if n == 1 then TChoice(t, TTrue) else TChoice(TSeq(t, UpTo(t, n - 1)), TTrue)
  }

  function StarTree(t: Tree, n: int): Tree { if n >= 0 then SeqRep(t, n) else UpTo(t, -n) }

  lemma {:induction false} SeqRepNodes(t: Tree, n: nat)
    ensures Nodes(SeqRep(t, n)) == (n + 1) * (Nodes(t) + 1)
  {
    if n > 0 {
      SeqRepNodes(t, n - 1);
      assert (n + 1) * (Nodes(t) + 1) == n * (Nodes(t) + 1) + (Nodes(t) + 1);
    }
  }

  lemma {:induction false} UpToNodes(t: Tree, n: nat)
    requires n > 0
    ensures Nodes(UpTo(t, n)) == n * (Nodes(t) + 3) - 1
  {
    if n > 1 {
      UpToNodes(t, n - 1);
      assert n * (Nodes(t) + 3) == (n - 1) * (Nodes(t) + 3) + (Nodes(t) + 3);
    }
  }

  /** memcpy of a tree. */
  method Copy(a: array<Node>, p: nat, b: array<Node>)
    requires a != b && p + b.Length <= a.Length
    modifies a
    ensures a[..p] == old(a[..p]) && a[..p + b.Length] == old(a[..p]) + b[..] && a[p + b.Length..] == old(a[p + b.Length..])
  {
    forall k | 0 <= k < b.Length { a[p + k] := b[k]; }
  }

  /** A node with a copy of a tree as its first sibling (seqaux). */
  method Put(a: array<Node>, p: nat, n: Node, b: array<Node>)
    requires a != b && p + 1 + b.Length <= a.Length
    modifies a
    ensures a[..p + 1 + b.Length] == old(a[..p]) + ([n] + b[..]) && a[p + 1 + b.Length..] == old(a[p + 1 + b.Length..])
  {
    a[p] := n;
    ghost var before := a[..p + 1];
    Copy(a, p + 1, b);
    assert a[..p + 1 + b.Length] == before + b[..] && before == old(a[..p]) + [n];
  }

  /** p^n; the empty loop is an error. */
  method LpStar(tree1: array<Node>, n: int, canBeEmpty: bool, ghost t: Tree) returns (a: array?<Node>)
    requires tree1[..] == Flat(t) && canBeEmpty == Nullable([], t)
    ensures a == null <==> n >= 0 && canBeEmpty
    ensures a != null ==> fresh(a) && a[..] == Flat(StarTree(t, n))
  {
    hide Nullable, Flat;
    if n >= 0 {
      if canBeEmpty { return null; }
      a := AtLeast(tree1, n, t);
    } else {
      a := AtMost(tree1, -n, t);
    }
  }

  method AtLeast(tree1: array<Node>, n: nat, ghost t: Tree) returns (a: array<Node>)
    requires tree1[..] == Flat(t)
    ensures fresh(a) && a[..] == Flat(SeqRep(t, n))
  {
    SeqRepNodes(t, n);
    a := new Node[(n + 1) * (tree1.Length + 1)](_ => KTrue);
    FillAtLeast(a, tree1, n, t);
  }

  method FillAtLeast(a: array<Node>, tree1: array<Node>, n: nat, ghost t: Tree)
    requires a != tree1 && tree1[..] == Flat(t) && a.Length == Nodes(SeqRep(t, n))
    modifies a
    ensures a[..] == Flat(SeqRep(t, n))
  {
    hide Flat, SeqRep, Nodes;
    var p: nat, m, size1 := 0, n, tree1.Length;
    assert a[..0] + Flat(SeqRep(t, n)) == Flat(SeqRep(t, n));
    while m > 0
      invariant 0 <= m <= n && p + Nodes(SeqRep(t, m)) == a.Length && a[..p] + Flat(SeqRep(t, m)) == Flat(SeqRep(t, n))
    {
      SeqRepFlat(t, m);
      Regroup(a[..p], [KSeq(1 + size1)] + Flat(t), Flat(SeqRep(t, m - 1)));
      Put(a, p, KSeq(size1 + 1), tree1);
      p := p + 1 + size1;
      m := m - 1;
    }
    SeqRepFlat(t, 0);
    Put(a, p, KRep, tree1);
    assert a[..] == a[..p + 1 + size1];
  }

  lemma Regroup(a: seq<Node>, b: seq<Node>, c: seq<Node>)
    ensures a + (b + c) == (a + b) + c
  {
  }

  lemma SeqRepFlat(t: Tree, m: nat)
    ensures Flat(SeqRep(t, m)) == if m == 0 then [KRep] + Flat(t) else [KSeq(1 + Nodes(t))] + Flat(t) + Flat(SeqRep(t, m - 1))
    ensures Nodes(SeqRep(t, m)) == if m == 0 then 1 + Nodes(t) else 1 + Nodes(t) + Nodes(SeqRep(t, m - 1))
  {
  }

  method AtMost(tree1: array<Node>, n: nat, ghost t: Tree) returns (a: array<Node>)
    requires tree1[..] == Flat(t) && n > 0
    ensures fresh(a) && a[..] == Flat(UpTo(t, n))
  {
    UpToNodes(t, n);
    a := new Node[n * (tree1.Length + 3) - 1](_ => KTrue);
    FillAtMost(a, tree1, n, t);
  }

  method FillAtMost(a: array<Node>, tree1: array<Node>, n: nat, ghost t: Tree)
    requires a != tree1 && tree1[..] == Flat(t) && n > 0 && a.Length == Nodes(UpTo(t, n))
    modifies a
    ensures a[..] == Flat(UpTo(t, n))
  {
    hide Flat, UpTo, Nodes;
    var p: nat, m, size1 := 0, n, tree1.Length;
    ghost var tail: seq<Node> := [];
    assert a[..0] + Flat(UpTo(t, n)) + [] == Flat(UpTo(t, n));
    while m > 1
      invariant 0 < m <= n
      invariant p + Nodes(UpTo(t, m)) + |tail| == a.Length && a[p + Nodes(UpTo(t, m))..] == tail
      invariant a[..p] + Flat(UpTo(t, m)) + tail == Flat(UpTo(t, n))
    {
      var ps := m * (size1 + 3) - 2;
      UpToStep(t, m, ps);
      NextOption(a[..p], t, m, ps, tail);
      Option(a, p, ps, tree1, tail);
      tail := [KTrue] + tail;
      p := p + 2 + size1;
      m := m - 1;
    }
    UpToFlat(t, 1);
    LastOption(a, p, tree1, tail);
  }

  method LastOption(a: array<Node>, p: nat, tree1: array<Node>, ghost tail: seq<Node>)
    requires a != tree1 && p + 1 + tree1.Length < a.Length && a[p + 2 + tree1.Length..] == tail
    modifies a
    ensures a[..] == old(a[..p]) + ([KChoice(1 + tree1.Length)] + tree1[..] + [KTrue]) + tail
  {
    var size1 := tree1.Length;
    a[p + size1 + 1] := KTrue;
    assert a[p + size1 + 1..] == [KTrue] + tail;
    Put(a, p, KChoice(size1 + 1), tree1);
    assert a[..] == a[..p + 1 + size1] + a[p + size1 + 1..];
  }

  lemma NextOption(before: seq<Node>, t: Tree, m: nat, ps: int, tail: seq<Node>)
    requires m > 1 && ps == m * (Nodes(t) + 3) - 2
    ensures before + Flat(UpTo(t, m)) + tail
         == (before + ([KChoice(ps), KSeq(1 + Nodes(t))] + Flat(t))) + Flat(UpTo(t, m - 1)) + ([KTrue] + tail)
  {
    hide UpTo, Flat, Nodes;
    UpToStep(t, m, ps);
    Regrouped(before, [KChoice(ps), KSeq(1 + Nodes(t))] + Flat(t), Flat(UpTo(t, m - 1)), tail);
  }

  lemma UpToStep(t: Tree, m: nat, ps: int)
    requires m > 1 && ps == m * (Nodes(t) + 3) - 2
    ensures ps == 2 + Nodes(t) + Nodes(UpTo(t, m - 1)) && Nodes(UpTo(t, m)) == ps + 1
    ensures Flat(UpTo(t, m)) == [KChoice(ps), KSeq(1 + Nodes(t))] + Flat(t) + Flat(UpTo(t, m - 1)) + [KTrue]
  {
    hide UpTo, Flat, Nodes;
    UpToNodes(t, m);
    UpToFlat(t, m);
  }

  /** One more optional match: a choice, with the empty pattern at its end, of a sequence that begins with the tree. */
  method Option(a: array<Node>, p: nat, ps: nat, tree1: array<Node>, ghost tail: seq<Node>)
    requires a != tree1 && p + 2 + tree1.Length <= p + ps < a.Length && a[p + ps + 1..] == tail
    modifies a
    ensures a[..p + 2 + tree1.Length] == old(a[..p]) + ([KChoice(ps), KSeq(1 + tree1.Length)] + tree1[..])
    ensures a[p + ps..] == [KTrue] + tail
  {
    a[p] := KChoice(ps);
    a[p + ps] := KTrue;
    ghost var before := a[..p + 1];
    assert before == old(a[..p]) + [KChoice(ps)];
    assert a[p + ps..] == [KTrue] + tail;
    ghost var rest := a[p + 2 + tree1.Length..];
    assert rest[ps - 2 - tree1.Length..] == [KTrue] + tail;
    Put(a, p + 1, KSeq(tree1.Length + 1), tree1);
    assert a[p + ps..] == a[p + 2 + tree1.Length..][ps - 2 - tree1.Length..];
  }

  lemma Regrouped(before: seq<Node>, h: seq<Node>, x: seq<Node>, tail: seq<Node>)
    ensures before + (h + x + [KTrue]) + tail == (before + h) + x + ([KTrue] + tail)
  {
  }

  lemma UpToFlat(t: Tree, m: nat)
    requires m > 0
    ensures m == 1 ==> Flat(UpTo(t, m)) == [KChoice(1 + Nodes(t))] + Flat(t) + [KTrue] && Nodes(UpTo(t, m)) == Nodes(t) + 2
    ensures m > 1 ==> Flat(UpTo(t, m)) == [KChoice(2 + Nodes(t) + Nodes(UpTo(t, m - 1))), KSeq(1 + Nodes(t))] + Flat(t)
                                          + Flat(UpTo(t, m - 1)) + [KTrue]
    ensures m > 1 ==> Nodes(UpTo(t, m)) == 3 + Nodes(t) + Nodes(UpTo(t, m - 1))
  {
    hide Flat, Nodes;
    TrueFlat();
    if m == 1 {
      OpFlat(TChoice(t, TTrue));
    } else {
      var u := UpTo(t, m - 1);
      OpFlat(TSeq(t, u));
      OpFlat(TChoice(TSeq(t, u), TTrue));
      var c, d := [KChoice(2 + Nodes(t) + Nodes(u))], [KSeq(1 + Nodes(t))];
      assert c + (d + Flat(t) + Flat(u)) + [KTrue] == c + d + Flat(t) + Flat(u) + [KTrue];
    }
  }

  lemma TrueFlat()
    ensures Flat(TTrue) == [KTrue] && Nodes(TTrue) == 1
  {
  }

  /** Matching n times, one after the other. */
  ghost function Times(k: nat, g: seq<Tree>, t: Tree, s: seq<Byte>, i: nat, n: nat): (o: Outcome)
    requires i <= |s|
    ensures o.Ok? ==> i <= o.pos <= |s|
    decreases n
  {
    if n == 0 then Ok(i)
    else
      var o := Eval(k, g, t, s, i);
      if o.Ok? then Times(k, g, t, s, o.pos, n - 1) else o
  }

  /** Matching until that fails, but not more than n times. */
  ghost function Greedy(k: nat, g: seq<Tree>, t: Tree, s: seq<Byte>, i: nat, n: nat): (o: Outcome)
    requires i <= |s|
    ensures !o.Fail? && (o.Ok? ==> i <= o.pos <= |s|)
    decreases n
  {
    if n == 0 then Ok(i)
    else
      var o := Eval(k, g, t, s, i);
      if o.Ok? then Greedy(k, g, t, s, o.pos, n - 1) else if o.Fail? then Ok(i) else Unknown
  }

  /** p^n matches n times and then as often as it can. */
  lemma {:induction false} AtLeastMeans(k: nat, g: seq<Tree>, t: Tree, n: nat, s: seq<Byte>, i: nat)
    requires i <= |s|
    ensures
      var o := Times(k, g, t, s, i, n);
      Eval(k, g, SeqRep(t, n), s, i) == if o.Ok? then Eval(k, g, TRep(t), s, o.pos) else o
    decreases n
  {
    if n > 0 {
      var o := Eval(k, g, t, s, i);
      if o.Ok? { AtLeastMeans(k, g, t, n - 1, s, o.pos); }
    }
  }

  /** p^-n matches as often as it can, but not more than n times. */
  lemma {:induction false} AtMostMeans(k: nat, g: seq<Tree>, t: Tree, n: nat, s: seq<Byte>, i: nat)
    requires i <= |s| && n > 0
    ensures Eval(k, g, UpTo(t, n), s, i) == Greedy(k, g, t, s, i, n)
    decreases n
  {
    if n > 1 {
      var o := Eval(k, g, t, s, i);
      if o.Ok? { AtMostMeans(k, g, t, n - 1, s, o.pos); }
      assert Eval(k, g, TSeq(t, UpTo(t, n - 1)), s, i) == if o.Ok? then Eval(k, g, UpTo(t, n - 1), s, o.pos) else o;
    }
  }

  // ----- sequence, choice, difference -----

  function LpSeq(t1: Tree, t2: Tree): Tree {
    if t1.TFalse? || t2.TTrue? then t1 else if t1.TTrue? then t2 else TSeq(t1, t2)
  }

  function LpChoice(t1: Tree, t2: Tree): Tree {
    var c1, c2 := ToCharset(t1), ToCharset(t2);
    if c1.Some? && c2.Some? then TSet(c1.value + c2.value)
    else if NoFail([], t1) || t2.TFalse? then t1
    else if t1.TFalse? then t2
    else TChoice(t1, t2)
  }

  function LpSub(t1: Tree, t2: Tree): Tree {
    var c1, c2 := ToCharset(t1), ToCharset(t2);
    if c1.Some? && c2.Some? then TSet(c1.value - c2.value) else TSeq(TNot(t2), t1)
  }

  /** The shortcuts of the operators change no match. */
  lemma SeqMeans(k: nat, t1: Tree, t2: Tree, s: seq<Byte>, i: nat)
    requires i <= |s|
    ensures Eval(k, [], LpSeq(t1, t2), s, i) == Eval(k, [], TSeq(t1, t2), s, i)
  {
  }

  lemma ChoiceMeans(k: nat, t1: Tree, t2: Tree, s: seq<Byte>, i: nat)
    requires i <= |s|
    ensures Eval(k, [], LpChoice(t1, t2), s, i) == Eval(k, [], TChoice(t1, t2), s, i)
  {
    hide CheckAux;
    if ToCharset(t1).Some? && ToCharset(t2).Some? {
      CharsetMeans(k, [], t1, s, i);
      CharsetMeans(k, [], t2, s, i);
    } else if NoFail([], t1) {
      NoFailSound(k, [], t1, DEPTH, s, i);
    }
  }

  lemma SubMeans(k: nat, t1: Tree, t2: Tree, s: seq<Byte>, i: nat)
    requires i <= |s|
    ensures Eval(k, [], LpSub(t1, t2), s, i) == Eval(k, [], TSeq(TNot(t2), t1), s, i)
  {
    if ToCharset(t1).Some? && ToCharset(t2).Some? {
      CharsetMeans(k, [], t1, s, i);
      CharsetMeans(k, [], t2, s, i);
      assert Eval(k, [], TNot(t2), s, i) == (var o := Eval(k, [], t2, s, i); if o.Fail? then Ok(i) else if o.Ok? then Fail else Unknown);
    }
  }

  /** newroot2sib: a new root in front of two trees. */
  method NewRoot2Sib(seq_: bool, tree1: array<Node>, tree2: array<Node>, ghost t1: Tree, ghost t2: Tree) returns (a: array<Node>)
    requires tree1[..] == Flat(t1) && tree2[..] == Flat(t2)
    ensures fresh(a) && a[..] == Flat(if seq_ then TSeq(t1, t2) else TChoice(t1, t2))
  {
    hide Flat, Nodes;
    OpFlat(TSeq(t1, t2));
    OpFlat(TChoice(t1, t2));
    if seq_ { a := Root(KSeq(1 + tree1.Length), tree1, tree2); } else { a := Root(KChoice(1 + tree1.Length), tree1, tree2); }
  }

  method Root(n: Node, tree1: array<Node>, tree2: array<Node>) returns (a: array<Node>)
    ensures fresh(a) && a[..] == [n] + tree1[..] + tree2[..]
  {
    a := new Node[1 + tree1.Length + tree2.Length](_ => KTrue);
    assert a[..0] == [];
    Put(a, 0, n, tree1);
    Copy(a, 1 + tree1.Length, tree2);
    assert a[..] == a[..1 + tree1.Length + tree2.Length];
  }

  /** The tree of a difference that is none of charsets: the second pattern must not match, then the first one does. */
  method NewSub(tree1: array<Node>, tree2: array<Node>, ghost t1: Tree, ghost t2: Tree) returns (a: array<Node>)
    requires tree1[..] == Flat(t1) && tree2[..] == Flat(t2)
    ensures fresh(a) && a[..] == Flat(TSeq(TNot(t2), t1))
  {
    hide Flat, Nodes;
    a := new Node[2 + tree1.Length + tree2.Length](_ => KTrue);
    FillSub(a, tree1, tree2);
    NotFlat(t2);
    OpFlat(TSeq(TNot(t2), t1));
  }

  method FillSub(a: array<Node>, tree1: array<Node>, tree2: array<Node>)
    requires a != tree1 && a != tree2 && a.Length == 2 + tree1.Length + tree2.Length
    modifies a
    ensures a[..] == [KSeq(2 + tree2.Length)] + ([KNot] + tree2[..]) + tree1[..]
  {
    a[0] := KSeq(2 + tree2.Length);
    assert a[..1] == [KSeq(2 + tree2.Length)];
    Put(a, 1, KNot, tree2);
    Copy(a, 2 + tree2.Length, tree1);
    assert a[..] == a[..2 + tree2.Length + tree1.Length];
  }

  lemma NotFlat(t: Tree)
    ensures Flat(TNot(t)) == [KNot] + Flat(t) && Nodes(TNot(t)) == 1 + Nodes(t)
  {
  }
}
