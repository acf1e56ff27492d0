/** JSON texts from their parts, and the tokens that they have: what jsmn.c makes of a text that was written from a tree. */
module JsonText {
  import opened JsonTokens

  // ----- texts -----

  /** A piece of a string: a character that stands for itself, an escape, or one with four hexadecimal digits. */
  datatype Piece = Plain(c: char) | Esc(c: char) | Uni(h: string)

  predicate GoodPiece(p: Piece) {
    match p
    case Plain(c) => c != '\"' && c != '\\' && c != '\0'
    case Esc(c) => c in {'\"', '\\', '/', 'b', 'f', 'n', 'r', 't'}
    case Uni(h) => |h| == 4 && forall k :: 0 <= k < 4 ==> '0' <= h[k] <= '9' || 'a' <= h[k] <= 'f' || 'A' <= h[k] <= 'F'
  }

  function PieceText(p: Piece): (t: string)
    ensures |t| > 0
  {
    match p
    case Plain(c) => [c]
    case Esc(c) => ['\\', c]
    case Uni(h) => ['\\', 'u'] + h
  }

  function BodyText(body: seq<Piece>): string {
    if body == [] then [] else PieceText(body[0]) + BodyText(body[1..])
  }

  predicate GoodBody(body: seq<Piece>) { forall k :: 0 <= k < |body| ==> GoodPiece(body[k]) }

  /** What may stand between two values: white space, commas and colons. */
  predicate Gap(g: string) { forall k :: 0 <= k < |g| ==> g[k] in {' ', '\t', '\r', '\n', ',', ':'} }

  /** A number, or true, false or null. */
  predicate GoodAtom(t: string) {
    && |t| > 0 && t[0] !in {'{', '[', '\"'}
    && forall k :: 0 <= k < |t| ==> 32 as char < t[k] < 127 as char && t[k] !in {',', ':', ']', '}'}
  }

  /** A value, and the values in a container with what stands in front of each of them and behind the last one. */
  datatype Node = Atom(text: string) | Str(body: seq<Piece>) | Con(kind: Kind, items: Items)
  datatype Items = Done(gap: string) | More(gap: string, node: Node, rest: Items)

  function OpenText(kind: Kind): char { if kind == Object then '{' else '[' }
  function CloseText(kind: Kind): char { if kind == Object then '}' else ']' }

  function Text(n: Node): (t: string)
    decreases n
  {
    match n
    case Atom(text) => text
    case Str(body) => ['\"'] + BodyText(body) + ['\"']
    case Con(kind, items) => [OpenText(kind)] + ItemsText(items) + [CloseText(kind)]
  }

  function ItemsText(items: Items): string
    decreases items
  {
    match items
    case Done(gap) => gap
    case More(gap, node, rest) => gap + Text(node) + ItemsText(rest)
  }

  /** Something stands between a primitive and the next value. */
  predicate KeptApart(node: Node, rest: Items) { node.Atom? && rest.More? ==> rest.gap != [] }

  predicate Good(n: Node)
    decreases n
  {
    match n
    case Atom(text) => GoodAtom(text)
    case Str(body) => GoodBody(body)
    case Con(kind, items) => (kind == Object || kind == Array) && GoodItems(items)
  }

  predicate GoodItems(items: Items)
    decreases items
  {
    match items
    case Done(gap) => Gap(gap)
    case More(gap, node, rest) => Gap(gap) && Good(node) && GoodItems(rest) && KeptApart(node, rest)
  }

  /** Something stands between a primitive at the end and what comes behind. */
  predicate Separated(items: Items)
    decreases items
  {
    if items.Done? then true
    else if items.rest.Done? then !items.node.Atom? || items.rest.gap != []
    else Separated(items.rest)
  }

  // ----- their tokens -----

  function Length(items: Items): nat
    decreases items
  {
    if items.Done? then 0 else 1 + Length(items.rest)
  }

  /** One token for each value, a container in front of what it contains, with the places where they were written. */
  function Tokens(n: Node, pos: nat): (ts: seq<Token>)
    decreases n
  {
    match n
    case Atom(text) => [Token(Primitive, pos, pos + |text|, 0)]
    case Str(body) => [Token(String, pos + 1, pos + 1 + |BodyText(body)|, 0)]
    case Con(kind, items) => [Token(kind, pos, pos + |Text(n)|, Length(items))] + ItemsTokens(items, pos + 1)
  }

  function ItemsTokens(items: Items, pos: nat): (ts: seq<Token>)
    decreases items
  {
    match items
    case Done(_) => []
    case More(gap, node, rest) =>
      Tokens(node, pos + |gap|) + ItemsTokens(rest, pos + |gap| + |Text(node)|)
  }

  /** How many values there are. */
  function Values(n: Node): nat
    decreases n
  {
    if n.Con? then 1 + ItemsValues(n.items) else 1
  }

  function ItemsValues(items: Items): nat
    decreases items
  {
    if items.Done? then 0 else Values(items.node) + ItemsValues(items.rest)
  }

  lemma {:induction false} TokensCount(n: Node, pos: nat)
    ensures |Tokens(n, pos)| == Values(n)
    ensures forall k :: 0 <= k < |Tokens(n, pos)| ==> !IsOpen(Tokens(n, pos)[k])
    decreases n
  {
    if n.Con? { ItemsTokensCount(n.items, pos + 1); }
  }

  lemma {:induction false} ItemsTokensCount(items: Items, pos: nat)
    ensures |ItemsTokens(items, pos)| == ItemsValues(items)
    ensures forall k :: 0 <= k < |ItemsTokens(items, pos)| ==> !IsOpen(ItemsTokens(items, pos)[k])
    decreases items
  {
    if items.More? {
      TokensCount(items.node, pos + |items.gap|);
      ItemsTokensCount(items.rest, pos + |items.gap| + |Text(items.node)|);
    }
  }

  // ----- the text is where it was written -----

  /** t stands at place p, within the first len characters. */
  predicate Stands(js: string, len: nat, p: nat, t: string) { p + |t| <= len <= |js| && js[p..p + |t|] == t }

  lemma StandsParts(js: string, len: nat, p: nat, a: string, b: string)
    requires Stands(js, len, p, a + b)
    ensures Stands(js, len, p, a) && Stands(js, len, p + |a|, b)
  {
    assert js[p..p + |a + b|][..|a|] == a && js[p..p + |a + b|][|a|..] == b;
  }

  lemma StandsAt(js: string, len: nat, p: nat, t: string, k: nat)
    requires Stands(js, len, p, t) && k < |t|
    ensures p + k < len && At(js, p + k) == t[k]
  {
    assert js[p..p + |t|][k] == js[p + k];
  }

  // ----- strings -----

  lemma FourHex(js: string, len: nat, p: nat, h: string)
    requires Stands(js, len, p, h) && GoodPiece(Uni(h))
    ensures HexEnd(js, p, 4) == Ok(p + 4)
  {
    forall k: nat | k < 4 ensures At(js, p + k) == h[k] && Hex(h[k]) && h[k] != '\0' { StandsAt(js, len, p, h, k); }
    assert At(js, p + 0) == h[0] && At(js, p + 1) == h[1] && At(js, p + 2) == h[2] && At(js, p + 3) == h[3];
    assert HexEnd(js, p + 4, 0) == Ok(p + 4);
    assert HexEnd(js, p + 3, 1) == Ok(p + 4);
    assert HexEnd(js, p + 2, 2) == Ok(p + 4);
    assert HexEnd(js, p + 1, 3) == Ok(p + 4);
  }

  /** The search for the closing quote steps over a piece as a whole. */
  lemma OverPiece(js: string, len: nat, p: nat, x: Piece)
    requires Stands(js, len, p, PieceText(x)) && GoodPiece(x)
    ensures StringEnd(js, len, p) == StringEnd(js, len, p + |PieceText(x)|)
  {
    var t := PieceText(x);
    StandsAt(js, len, p, t, 0);
    if !x.Plain? { StandsAt(js, len, p, t, 1); }
    if x.Uni? {
      StandsParts(js, len, p, ['\\', 'u'], x.h);
      FourHex(js, len, p + 2, x.h);
    }
  }

  lemma BodyParts(body: seq<Piece>)
    requires body != []
    ensures BodyText(body) == PieceText(body[0]) + BodyText(body[1..])
  {
  }

  lemma {:induction false} OverBody(js: string, len: nat, p: nat, body: seq<Piece>)
    requires Stands(js, len, p, BodyText(body)) && GoodBody(body)
    ensures StringEnd(js, len, p) == StringEnd(js, len, p + |BodyText(body)|)
    decreases |body|
  {
    hide StringEnd, PieceText, GoodPiece, Stands, BodyText;
    if body == [] { NoBody(); }
    else {
      BodyParts(body);
      StandsParts(js, len, p, PieceText(body[0]), BodyText(body[1..]));
      OverPiece(js, len, p, body[0]);
      OverBody(js, len, p + |PieceText(body[0])|, body[1..]);
    }
  }

  lemma NoBody()
    ensures BodyText([]) == []
  {
  }

  /** A string ends at the quote behind its pieces, and at no quote within them. */
  lemma StringEndIs(js: string, len: nat, p: nat, body: seq<Piece>)
    requires Stands(js, len, p, BodyText(body) + ['\"']) && GoodBody(body)
    ensures StringEnd(js, len, p) == Ok(p + |BodyText(body)|)
  {
    hide BodyText;
    StandsParts(js, len, p, BodyText(body), ['\"']);
    OverBody(js, len, p, body);
    StandsAt(js, len, p + |BodyText(body)|, ['\"'], 0);
  }

  /** A string that is cut off is partial, but one cut off right behind a backslash is taken for invalid. */
  lemma CutString(js: string, p: nat, body: seq<Piece>)
    requires p <= |js| && GoodBody(body)
    ensures js[p..] == BodyText(body) ==> StringEnd(js, |js|, p) == Err(Part)
    ensures js[p..] == BodyText(body) + ['\\'] ==> StringEnd(js, |js|, p) == Err(Inval)
  {
    hide BodyText;
    var t := BodyText(body);
    if js[p..] == t { OverBody(js, |js|, p, body); }
    if js[p..] == t + ['\\'] {
      assert |js[p..]| == |t| + 1;
      assert js[p..p + |t + ['\\']|] == t + ['\\'];
      StandsParts(js, |js|, p, t, ['\\']);
      OverBody(js, |js|, p, body);
      StandsAt(js, |js|, p + |t|, ['\\'], 0);
    }
  }

  // ----- primitives and gaps -----

  lemma {:induction false} AtomEnds(js: string, len: nat, p: nat, t: string, k: nat)
    requires Stands(js, len, p, t) && GoodAtom(t) && k <= |t|
    requires AtEnd(js, len, p + |t|) || Delimits(At(js, p + |t|))
    ensures PrimitiveEnd(js, len, p + k) == Ok(p + |t|)
    decreases |t| - k
  {
    if k < |t| {
      StandsAt(js, len, p, t, k);
      AtomEnds(js, len, p, t, k + 1);
    }
  }

  lemma FillSkips(js: string, len: nat, p: nat, toks: seq<Token>, num: nat)
    requires p < len && At(js, p) in {' ', '\t', '\r', '\n', ',', ':'}
    ensures Fill(js, len, p, toks, num) == Fill(js, len, p + 1, toks, num)
  {
    hide StringEnd, PrimitiveEnd, Added, Closed, LastOpen;
  }

  lemma {:induction false} OverGap(js: string, len: nat, p: nat, g: string, toks: seq<Token>, num: nat)
    requires Stands(js, len, p, g) && Gap(g)
    ensures p + |g| <= len && Fill(js, len, p, toks, num) == Fill(js, len, p + |g|, toks, num)
    decreases |g|
  {
    hide Fill;
    if g != [] {
      StandsAt(js, len, p, g, 0);
      FillSkips(js, len, p, toks, num);
      assert g == [g[0]] + g[1..];
      StandsParts(js, len, p, [g[0]], g[1..]);
      OverGap(js, len, p + 1, g[1..], toks, num);
    }
  }

  // ----- values -----

  /** Some values more in the innermost open container, and these tokens. */
  function With(toks: seq<Token>, n: nat, ts: seq<Token>): seq<Token> {
    var p := LastOpen(toks);
    (if p >= 0 then toks[p := toks[p].(size := toks[p].size + n)] else toks) + ts
  }

  lemma WithOne(toks: seq<Token>, t: Token)
    ensures Added(toks, t) == With(toks, 1, [t])
  {
  }

  lemma {:induction false} StillOpen(toks: seq<Token>, ts: seq<Token>)
    requires forall k :: 0 <= k < |ts| ==> !IsOpen(ts[k])
    ensures LastOpen(toks + ts) == LastOpen(toks)
    decreases |ts|
  {
    if ts == [] { assert toks + ts == toks; }
    else {
      assert (toks + ts)[..|toks + ts| - 1] == toks + ts[..|ts| - 1];
      StillOpen(toks, ts[..|ts| - 1]);
    }
  }

  lemma SameLastOpen(toks: seq<Token>, n: nat)
    ensures LastOpen(With(toks, n, [])) == LastOpen(toks)
  {
    var u := With(toks, n, []);
    assert SameButSizes(toks, u);
    SizesUnused(toks, u, 0);
  }

  lemma WithMore(toks: seq<Token>, n: nat, ts: seq<Token>, m: nat, us: seq<Token>)
    requires forall k :: 0 <= k < |ts| ==> !IsOpen(ts[k])
    ensures With(With(toks, n, ts), m, us) == With(toks, n + m, ts + us)
    ensures LastOpen(With(toks, n, ts)) == LastOpen(toks)
  {
    var u := With(toks, n, []);
    assert With(toks, n, ts) == u + ts;
    StillOpen(u, ts);
    SameLastOpen(toks, n);
  }

  lemma WithNone(toks: seq<Token>)
    ensures With(toks, 0, []) == toks
  {
  }

  /** Room for n tokens: the parse goes on behind them; else it says that there is no room. */
  predicate Goes(r: Result<seq<Token>>, toks: seq<Token>, n: nat, num: nat, r': Result<seq<Token>>) {
    if |toks| + n <= num then r == r' else r == Err(NoMem)
  }

  lemma AtomFill(js: string, len: nat, p: nat, t: string, toks: seq<Token>, num: nat)
    requires Stands(js, len, p, t) && GoodAtom(t) && (AtEnd(js, len, p + |t|) || Delimits(At(js, p + |t|)))
    ensures
      Goes(Fill(js, len, p, toks, num), toks, 1, num,
           Fill(js, len, p + |t|, With(toks, 1, [Token(Primitive, p, p + |t|, 0)]), num))
  {
    StandsAt(js, len, p, t, 0);
    AtomEnds(js, len, p, t, 0);
    WithOne(toks, Token(Primitive, p, p + |t|, 0));
    hide PrimitiveEnd, StringEnd, Added, With;
  }

  lemma FillString(js: string, len: nat, p: nat, e: nat, toks: seq<Token>, num: nat)
    requires p < len && At(js, p) == '\"' && StringEnd(js, len, p + 1) == Ok(e)
    ensures e < len
    ensures
      Fill(js, len, p, toks, num)
      == if |toks| >= num then Err(NoMem) else Fill(js, len, e + 1, Added(toks, Token(String, p + 1, e, 0)), num)
  {
    hide PrimitiveEnd, Added, Closed, LastOpen;
  }

  lemma StrFill(js: string, len: nat, p: nat, body: seq<Piece>, toks: seq<Token>, num: nat)
    requires Stands(js, len, p, Text(Str(body))) && GoodBody(body)
    ensures
      var w := |BodyText(body)|;
      p + w + 2 <= len &&
      Goes(Fill(js, len, p, toks, num), toks, 1, num,
           Fill(js, len, p + w + 2, With(toks, 1, [Token(String, p + 1, p + 1 + w, 0)]), num))
  {
    hide Fill, StringEnd, Added, With, BodyText;
    var t := BodyText(body);
    assert Text(Str(body)) == ['\"'] + (t + ['\"']);
    StandsAt(js, len, p, Text(Str(body)), 0);
    StandsParts(js, len, p, ['\"'], t + ['\"']);
    StringEndIs(js, len, p + 1, body);
    FillString(js, len, p, p + 1 + |t|, toks, num);
    WithOne(toks, Token(String, p + 1, p + 1 + |t|, 0));
  }

  lemma FillOpens(js: string, len: nat, p: nat, kind: Kind, toks: seq<Token>, num: nat)
    requires p < len && At(js, p) == OpenText(kind) && (kind == Object || kind == Array)
    ensures
      Fill(js, len, p, toks, num)
      == if |toks| >= num then Err(NoMem) else Fill(js, len, p + 1, Added(toks, Token(kind, p, -1, 0)), num)
  {
    hide PrimitiveEnd, StringEnd, Added, Closed, LastOpen;
  }

  lemma FillCloses(js: string, len: nat, p: nat, kind: Kind, toks: seq<Token>, num: nat)
    requires p < len && At(js, p) == CloseText(kind) && (kind == Object || kind == Array)
    ensures
      Fill(js, len, p, toks, num)
      == if LastOpen(toks) == -1 || toks[LastOpen(toks)].kind != kind then Err(Inval)
         else Fill(js, len, p + 1, Closed(toks, p + 1), num)
  {
    hide PrimitiveEnd, StringEnd, Added, Closed, LastOpen;
  }

  /** The tokens while a container is open, and when it is closed. */
  function Opened(toks: seq<Token>, kind: Kind, p: nat, n: nat, ts: seq<Token>): seq<Token> {
    With(toks, 1, [Token(kind, p, -1, n)]) + ts
  }

  lemma OpenedIs(toks: seq<Token>, kind: Kind, p: nat, n: nat, ts: seq<Token>)
    requires forall k :: 0 <= k < |ts| ==> !IsOpen(ts[k])
    ensures |With(toks, 1, [])| == |toks|
    ensures With(Added(toks, Token(kind, p, -1, 0)), n, ts) == Opened(toks, kind, p, n, ts)
    ensures LastOpen(Opened(toks, kind, p, n, ts)) == |toks| && |Opened(toks, kind, p, n, ts)| == |toks| + 1 + |ts|
    ensures Opened(toks, kind, p, n, ts)[|toks|] == Token(kind, p, -1, n)
  {
    var t := Token(kind, p, -1, 0);
    var u := With(toks, 1, [t]);
    WithOne(toks, t);
    assert u[..|u| - 1] + [t] == u;
    assert LastOpen(u) == |toks|;
    var v := With(toks, 1, [t.(size := n)]);
    assert u[|toks| := t.(size := n)] == v;
    assert LastOpen(v) == |toks|;
    StillOpen(v, ts);
  }

  lemma ClosedIs(toks: seq<Token>, kind: Kind, p: nat, n: nat, ts: seq<Token>, e: nat)
    requires forall k :: 0 <= k < |ts| ==> !IsOpen(ts[k])
    ensures LastOpen(Opened(toks, kind, p, n, ts)) >= 0
    ensures Closed(Opened(toks, kind, p, n, ts), e) == With(toks, 1, [Token(kind, p, e, n)] + ts)
  {
    OpenedIs(toks, kind, p, n, ts);
    hide LastOpen;
  }

  // ----- the whole text -----

  /** What stands behind a value in a container, or at the end, ends a primitive. */
  predicate EndsAtom(js: string, len: nat, p: nat) { AtEnd(js, len, p) || Delimits(At(js, p)) }

  lemma {:induction false} NodeFill(js: string, len: nat, p: nat, n: Node, toks: seq<Token>, num: nat)
    requires Stands(js, len, p, Text(n)) && Good(n) && (n.Atom? ==> EndsAtom(js, len, p + |Text(n)|)) && |toks| <= num
    ensures p + |Text(n)| <= len
    ensures
      Goes(Fill(js, len, p, toks, num), toks, Values(n), num, Fill(js, len, p + |Text(n)|, With(toks, 1, Tokens(n, p)), num))
    decreases n, 1
  {
    hide Fill, With, BodyText, Stands;
    WithinLen(js, len, p, Text(n));
    match n
    case Atom(text) => AtomFill(js, len, p, text, toks, num);
    case Str(body) => StrFill(js, len, p, body, toks, num);
    case Con(kind, items) => ConFill(js, len, p, kind, items, toks, num);
  }

  lemma WithinLen(js: string, len: nat, p: nat, t: string)
    requires Stands(js, len, p, t)
    ensures p + |t| <= len
  {
  }

  lemma ConParts(js: string, len: nat, p: nat, kind: Kind, items: Items)
    requires Stands(js, len, p, Text(Con(kind, items)))
    ensures
      var w := |ItemsText(items)|;
      && |Text(Con(kind, items))| == w + 2 && p + w + 2 <= len && At(js, p) == OpenText(kind)
      && Stands(js, len, p + 1, ItemsText(items)) && At(js, p + 1 + w) == CloseText(kind)
  {
    hide Stands, ItemsText;
    var n, inner := Con(kind, items), ItemsText(items);
    assert Text(n) == [OpenText(kind)] + (inner + [CloseText(kind)]);
    WithinLen(js, len, p, Text(n));
    StandsAt(js, len, p, Text(n), 0);
    StandsParts(js, len, p, [OpenText(kind)], inner + [CloseText(kind)]);
    StandsParts(js, len, p + 1, inner, [CloseText(kind)]);
    StandsAt(js, len, p + 1 + |inner|, [CloseText(kind)], 0);
  }

  lemma {:induction false} ConFill(js: string, len: nat, p: nat, kind: Kind, items: Items, toks: seq<Token>, num: nat)
    requires Stands(js, len, p, Text(Con(kind, items))) && Good(Con(kind, items)) && |toks| <= num
    ensures p + |Text(Con(kind, items))| <= len
    ensures
      var n := Con(kind, items);
      Goes(Fill(js, len, p, toks, num), toks, Values(n), num, Fill(js, len, p + |Text(n)|, With(toks, 1, Tokens(n, p)), num))
    decreases Con(kind, items), 0
  {
    hide *;
    var e := p + 1 + |ItemsText(items)|;
    ConParts(js, len, p, kind, items);
    ConIs(kind, items, p);
    FillOpens(js, len, p, kind, toks, num);
    if |toks| == num {
      BothGo(Fill(js, len, p, toks, num), toks, Values(Con(kind, items)), num,
             Fill(js, len, e + 1, With(toks, 1, Tokens(Con(kind, items), p)), num));
      return;
    }
    var toks1, its := Added(toks, Token(kind, p, -1, 0)), ItemsTokens(items, p + 1);
    ItemsTokensCount(items, p + 1);
    AddedSize(toks, Token(kind, p, -1, 0));
    CloseEndsAtom(js, len, e, kind);
    ItemsFill(js, len, p + 1, items, toks1, num);
    OpenedIs(toks, kind, p, Length(items), its);
    FillCloses(js, len, e, kind, Opened(toks, kind, p, Length(items), its), num);
    ClosedIs(toks, kind, p, Length(items), its, e + 1);
    BothGo(Fill(js, len, p + 1, toks1, num), toks1, ItemsValues(items), num, Fill(js, len, e, With(toks1, Length(items), its), num));
    BothGo(Fill(js, len, p, toks, num), toks, Values(Con(kind, items)), num,
           Fill(js, len, e + 1, With(toks, 1, Tokens(Con(kind, items), p)), num));
  }

  lemma ConIs(kind: Kind, items: Items, p: nat)
    ensures Values(Con(kind, items)) == 1 + ItemsValues(items)
    ensures Tokens(Con(kind, items), p) == [Token(kind, p, p + |Text(Con(kind, items))|, Length(items))] + ItemsTokens(items, p + 1)
    ensures Good(Con(kind, items)) ==> (kind == Object || kind == Array) && GoodItems(items)
  {
  }

  lemma BothGo(r: Result<seq<Token>>, toks: seq<Token>, n: nat, num: nat, r': Result<seq<Token>>)
    ensures Goes(r, toks, n, num, r') <==> if |toks| + n <= num then r == r' else r == Err(NoMem)
  {
  }

  lemma AddedSize(toks: seq<Token>, t: Token)
    ensures |Added(toks, t)| == |toks| + 1
  {
  }

  lemma CloseEndsAtom(js: string, len: nat, p: nat, kind: Kind)
    requires At(js, p) == CloseText(kind)
    ensures EndsAtom(js, len, p)
  {
  }

  lemma RestEndsAtom(js: string, len: nat, p: nat, rest: Items)
    requires Stands(js, len, p, ItemsText(rest)) && GoodItems(rest) && (rest.More? ==> rest.gap != [])
    requires rest.gap == [] ==> EndsAtom(js, len, p + |ItemsText(rest)|)
    ensures EndsAtom(js, len, p)
  {
    hide Text;
    if rest.gap != [] { StandsAt(js, len, p, ItemsText(rest), 0); }
  }

  lemma MoreParts(js: string, len: nat, p: nat, items: Items)
    requires items.More? && Stands(js, len, p, ItemsText(items))
    ensures
      var a, b := Text(items.node), ItemsText(items.rest);
      && |ItemsText(items)| == |items.gap| + |a| + |b| && p + |ItemsText(items)| <= len
      && Stands(js, len, p, items.gap) && Stands(js, len, p + |items.gap|, a) && Stands(js, len, p + |items.gap| + |a|, b)
  {
    hide Stands, Text;
    var a, b := Text(items.node), ItemsText(items.rest);
    WithinLen(js, len, p, ItemsText(items));
    assert items.gap + a + b == items.gap + (a + b);
    StandsParts(js, len, p, items.gap, a + b);
    StandsParts(js, len, p + |items.gap|, a, b);
  }

  lemma {:induction false} ItemsFill(js: string, len: nat, p: nat, items: Items, toks: seq<Token>, num: nat)
    requires Stands(js, len, p, ItemsText(items)) && GoodItems(items) && |toks| <= num
    requires EndsAtom(js, len, p + |ItemsText(items)|) || Separated(items)
    ensures p + |ItemsText(items)| <= len
    ensures
      Goes(Fill(js, len, p, toks, num), toks, ItemsValues(items), num,
           Fill(js, len, p + |ItemsText(items)|, With(toks, Length(items), ItemsTokens(items, p)), num))
    decreases items, 1
  {
    hide Fill, With, Stands, LastOpen, EndsAtom, Text, Good;
    WithinLen(js, len, p, ItemsText(items));
    if items.Done? {
      OverGap(js, len, p, items.gap, toks, num);
      WithNone(toks);
    } else {
      MoreFill(js, len, p, items, toks, num);
    }
  }

  lemma {:induction false} MoreFill(js: string, len: nat, p: nat, items: Items, toks: seq<Token>, num: nat)
    requires items.More? && Stands(js, len, p, ItemsText(items)) && GoodItems(items) && |toks| <= num
    requires EndsAtom(js, len, p + |ItemsText(items)|) || Separated(items)
    ensures p + |ItemsText(items)| <= len
    ensures
      Goes(Fill(js, len, p, toks, num), toks, ItemsValues(items), num,
           Fill(js, len, p + |ItemsText(items)|, With(toks, Length(items), ItemsTokens(items, p)), num))
    decreases items, 0
  {
    hide Fill, With, Stands, LastOpen, EndsAtom, Text, Good, ItemsText;
    MoreParts(js, len, p, items);
    var node, rest, q := items.node, items.rest, p + |items.gap|;
    var e := q + |Text(node)|;
    OverGap(js, len, p, items.gap, toks, num);
    if node.Atom? { RestEndsAtom(js, len, e, rest); }
    NodeFill(js, len, q, node, toks, num);
    var ts := Tokens(node, q);
    TokensCount(node, q);
    WithSize(toks, 1, ts);
    if |toks| + |ts| <= num {
      ItemsFill(js, len, e, rest, With(toks, 1, ts), num);
      WithMore(toks, 1, ts, Length(rest), ItemsTokens(rest, e));
    }
  }

  lemma WithSize(toks: seq<Token>, n: nat, ts: seq<Token>)
    ensures |With(toks, n, ts)| == |toks| + |ts|
  {
  }

  /** A text written from values has just the tokens of these values, each where it was written; without room for all of them the
      parse says so. */
  lemma WrittenParses(items: Items, num: nat)
    requires GoodItems(items)
    ensures
      var js := ItemsText(items);
      Fill(js, |js|, 0, [], num)
      == if ItemsValues(items) <= num then Ok(ItemsTokens(items, 0)) else Err(NoMem)
  {
    var js := ItemsText(items);
    assert Stands(js, |js|, 0, js) && AtEnd(js, |js|, |js|);
    ItemsFill(js, |js|, 0, items, [], num);
    ItemsTokensCount(items, 0);
    StillOpen([], ItemsTokens(items, 0));
    assert [] + ItemsTokens(items, 0) == ItemsTokens(items, 0);
    hide ItemsText, ItemsTokens, ItemsValues;
  }

  // ----- texts that are no JSON -----

  /** The beginning of a text: some values, and perhaps a container that is still open, with what is in it so far. */
  datatype Start = Inner(items: Items) | Into(items: Items, kind: Kind, inner: Start)

  function StartText(x: Start): string {
    match x
    case Inner(items) => ItemsText(items)
    case Into(items, kind, inner) => ItemsText(items) + ([OpenText(kind)] + StartText(inner))
  }

  predicate GoodStart(x: Start) {
    && GoodItems(x.items) && Separated(x.items)
    && (x.Into? ==> (x.kind == Object || x.kind == Array) && GoodStart(x.inner))
  }

  function StartValues(x: Start): nat {
    ItemsValues(x.items) + if x.Into? then 1 + StartValues(x.inner) else 0
  }

  /** The innermost container that is open. */
  function InnermostKind(x: Start): Kind
    requires x.Into?
  {
    if x.inner.Into? then InnermostKind(x.inner) else x.kind
  }

  lemma {:induction false} StartFill(js: string, len: nat, p: nat, x: Start, toks: seq<Token>, num: nat) returns (u: seq<Token>)
    requires Stands(js, len, p, StartText(x)) && GoodStart(x) && |toks| + StartValues(x) <= num
    ensures p + |StartText(x)| <= len && Fill(js, len, p, toks, num) == Fill(js, len, p + |StartText(x)|, u, num)
    ensures
      if x.Inner? then LastOpen(u) == LastOpen(toks) && (LastOpen(u) >= 0 ==> u[LastOpen(u)].kind == toks[LastOpen(u)].kind)
      else LastOpen(u) >= 0 && u[LastOpen(u)].kind == InnermostKind(x)
    decreases x
  {
    hide Fill, With, Stands, LastOpen, EndsAtom, Text, Added;
    WithinLen(js, len, p, StartText(x));
    var t, its := ItemsText(x.items), ItemsTokens(x.items, p);
    if x.Into? { StandsParts(js, len, p, t, [OpenText(x.kind)] + StartText(x.inner)); }
    ItemsFill(js, len, p, x.items, toks, num);
    ItemsTokensCount(x.items, p);
    u := With(toks, Length(x.items), its);
    WithSize(toks, Length(x.items), its);
    WithMore(toks, Length(x.items), its, 0, []);
    WithKind(toks, Length(x.items), its);
    if x.Into? {
      var q := p + |t|;
      StandsParts(js, len, q, [OpenText(x.kind)], StartText(x.inner));
      StandsAt(js, len, q, [OpenText(x.kind)], 0);
      FillOpens(js, len, q, x.kind, u, num);
      var v := Added(u, Token(x.kind, q, -1, 0));
      AddedSize(u, Token(x.kind, q, -1, 0));
      NewOpen(u, Token(x.kind, q, -1, 0));
      u := StartFill(js, len, q + 1, x.inner, v, num);
    }
  }

  lemma WithKind(toks: seq<Token>, n: nat, ts: seq<Token>)
    ensures |With(toks, n, ts)| >= |toks| && (LastOpen(toks) >= 0 ==> With(toks, n, ts)[LastOpen(toks)].kind == toks[LastOpen(toks)].kind)
  {
  }

  lemma NewOpen(toks: seq<Token>, t: Token)
    requires IsOpen(t)
    ensures |Added(toks, t)| == |toks| + 1 && LastOpen(Added(toks, t)) == |toks| && Added(toks, t)[|toks|] == t
  {
  }

  /** A text that ends inside a container is partial. */
  lemma CutParses(x: Start, num: nat)
    requires x.Into? && GoodStart(x) && StartValues(x) <= num
    ensures var js := StartText(x); Fill(js, |js|, 0, [], num) == Err(Part)
  {
    var js := StartText(x);
    assert Stands(js, |js|, 0, js) && AtEnd(js, |js|, |js|);
    var u := StartFill(js, |js|, 0, x, [], num);
    hide StartText;
  }

  /** A bracket that does not close the innermost container, or closes none, makes the text invalid. */
  lemma WrongBracket(x: Start, kind: Kind, num: nat)
    requires GoodStart(x) && StartValues(x) <= num && (kind == Object || kind == Array) && (x.Into? ==> InnermostKind(x) != kind)
    ensures var js := StartText(x) + [CloseText(kind)]; Fill(js, |js|, 0, [], num) == Err(Inval)
  {
    var t := StartText(x);
    var js := t + [CloseText(kind)];
    assert Stands(js, |js|, 0, js);
    StandsParts(js, |js|, 0, t, [CloseText(kind)]);
    StandsAt(js, |js|, |t|, [CloseText(kind)], 0);
    var u := StartFill(js, |js|, 0, x, [], num);
    assert LastOpen([]) == -1;
    FillCloses(js, |js|, |t|, kind, u, num);
    hide StartText, Fill;
  }
}
