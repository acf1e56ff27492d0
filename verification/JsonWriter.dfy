/** Writing JSON values, and reading back what was written: quotes, backslashes and control characters are escaped, and white space
    stands where the writer likes. */
module JsonWriter {
  import opened JsonTokens
  import opened JsonText

  datatype Value = Literal(text: string) | Characters(s: string) | List(elems: seq<Value>) | Members(members: seq<Member>)
  datatype Member = Member(key: string, value: Value)

  // ----- strings -----

  function Digit(n: nat): char
    requires n < 16
  {
    if n < 10 then '0' + n as char else 'a' + (n - 10) as char
  }

  function DigitValue(c: char): (n: int) {
    if '0' <= c <= '9' then c as int - '0' as int
    else if 'a' <= c <= 'f' then c as int - 'a' as int + 10
    else if 'A' <= c <= 'F' then c as int - 'A' as int + 10
    else 0
  }

  function Escape(c: char): (p: Piece)
    ensures GoodPiece(p)
  {
    if c == '\"' || c == '\\' then Esc(c)
    else if c < 32 as char then Uni(['0', '0', Digit(c as int / 16), Digit(c as int % 16)])
    else Plain(c)
  }

  /** The character that a piece stands for, if it is one of a single unit below 256. */
  function Unescape(p: Piece): char {
    match p
    case Plain(c) => c
    case Esc(c) =>
      if c == 'b' then 8 as char else if c == 'f' then 12 as char else if c == 'n' then 10 as char
      else if c == 'r' then 13 as char else if c == 't' then 9 as char else c
    case Uni(h) =>
      var n := if |h| == 4 then DigitValue(h[2]) * 16 + DigitValue(h[3]) else 0;
      if 0 <= n < 256 then n as char else '\0'
  }

  lemma EscapeBack(c: char)
    ensures Unescape(Escape(c)) == c
  {
    if c < 32 as char && c != '\"' && c != '\\' {
      DigitBack(c as int / 16);
      DigitBack(c as int % 16);
      assert (c as int / 16) * 16 + c as int % 16 == c as int;
    }
  }

  lemma DigitBack(n: nat)
    requires n < 16
    ensures DigitValue(Digit(n)) == n
  {
  }

  function EscapeAll(s: string): (body: seq<Piece>)
    ensures |body| == |s| && GoodBody(body)
  {
    if s == [] then [] else [Escape(s[0])] + EscapeAll(s[1..])
  }

  function UnescapeAll(body: seq<Piece>): string {
    if body == [] then [] else [Unescape(body[0])] + UnescapeAll(body[1..])
  }

  lemma {:induction false} EscapeAllBack(s: string)
    ensures UnescapeAll(EscapeAll(s)) == s
  {
    if s != [] {
      EscapeBack(s[0]);
      EscapeAllBack(s[1..]);
    }
  }

  // ----- values -----

  /** White space. */
  predicate Blank(ws: string) { forall k :: 0 <= k < |ws| ==> ws[k] in {' ', '\t', '\r', '\n'} }

  predicate Writable(v: Value)
    decreases v
  {
    match v
    case Literal(text) => GoodAtom(text)
    case Characters(_) => true
    case List(elems) => forall k :: 0 <= k < |elems| ==> Writable(elems[k])
    case Members(members) => forall k :: 0 <= k < |members| ==> Writable(members[k].value)
  }

  /** How many parts a value has at once. */
  function Parts(v: Value): nat { if v.List? then |v.elems| else if v.Members? then |v.members| else 0 }

  /** The value with this white space at each place where there may be some. */
  function Layout(v: Value, ws: string): Node
    decreases v, Parts(v) + 2
  {
    match v
    case Literal(text) => Atom(text)
    case Characters(s) => Str(EscapeAll(s))
    case List(elems) => Con(Array, ElemsLayout(v, ws, 0))
    case Members(members) => Con(Object, MembersLayout(v, ws, 0))
  }

  /** The elements from the k-th on. */
  function ElemsLayout(v: Value, ws: string, k: nat): Items
    requires v.List? && k <= |v.elems|
    decreases v, |v.elems| - k + 1
  {
    if k == |v.elems| then Done(ws)
    else More(if k == 0 then ws else ws + "," + ws, Layout(v.elems[k], ws), ElemsLayout(v, ws, k + 1))
  }

  function MembersLayout(v: Value, ws: string, k: nat): Items
    requires v.Members? && k <= |v.members|
    decreases v, |v.members| - k + 1
  {
    if k == |v.members| then Done(ws)
    else
      var m := v.members[k];
      More(if k == 0 then ws else ws + "," + ws, Str(EscapeAll(m.key)),
           More(ws + ":" + ws, Layout(m.value, ws), MembersLayout(v, ws, k + 1)))
  }

  function Write(v: Value, ws: string): string { ItemsText(More(ws, Layout(v, ws), Done(ws))) }

  /** One for each value and for each key. */
  function Size(v: Value): nat
    decreases v, Parts(v) + 2
  {
    match v
    case Literal(_) => 1
    case Characters(_) => 1
    case List(_) => 1 + ElemsSize(v, 0)
    case Members(_) => 1 + MembersSize(v, 0)
  }

  function ElemsSize(v: Value, k: nat): nat
    requires v.List? && k <= |v.elems|
    decreases v, |v.elems| - k + 1
  {
    if k == |v.elems| then 0 else Size(v.elems[k]) + ElemsSize(v, k + 1)
  }

  function MembersSize(v: Value, k: nat): nat
    requires v.Members? && k <= |v.members|
    decreases v, |v.members| - k + 1
  {
    if k == |v.members| then 0 else 1 + Size(v.members[k].value) + MembersSize(v, k + 1)
  }

  lemma {:induction false} LayoutGood(v: Value, ws: string)
    requires Writable(v) && Blank(ws)
    ensures Good(Layout(v, ws)) && Values(Layout(v, ws)) == Size(v)
    decreases v, Parts(v) + 2
  {
    match v
    case List(elems) => ElemsGood(v, ws, 0);
    case Members(members) => MembersGood(v, ws, 0);
    case _ =>
  }

  lemma {:induction false} ElemsGood(v: Value, ws: string, k: nat)
    requires Writable(v) && Blank(ws) && v.List? && k <= |v.elems|
    ensures GoodItems(ElemsLayout(v, ws, k)) && ItemsValues(ElemsLayout(v, ws, k)) == ElemsSize(v, k)
    ensures k > 0 && ElemsLayout(v, ws, k).More? ==> ElemsLayout(v, ws, k).gap != []
    decreases v, |v.elems| - k + 1
  {
    if k < |v.elems| {
      LayoutGood(v.elems[k], ws);
      ElemsGood(v, ws, k + 1);
    }
  }

  lemma {:induction false} MembersGood(v: Value, ws: string, k: nat)
    requires Writable(v) && Blank(ws) && v.Members? && k <= |v.members|
    ensures GoodItems(MembersLayout(v, ws, k)) && ItemsValues(MembersLayout(v, ws, k)) == MembersSize(v, k)
    ensures k > 0 && MembersLayout(v, ws, k).More? ==> MembersLayout(v, ws, k).gap != []
    decreases v, |v.members| - k + 1
  {
    if k < |v.members| {
      LayoutGood(v.members[k].value, ws);
      MembersGood(v, ws, k + 1);
    }
  }

  /** Parsing what was written succeeds with one token for each value and key, where they were written, and in the order in which
      they were written; with fewer tokens to fill it says so. */
  lemma WrittenIsRead(v: Value, ws: string, num: nat)
    requires Writable(v) && Blank(ws)
    ensures
      var js := Write(v, ws);
      Fill(js, |js|, 0, [], num) == if Size(v) <= num then Ok(Tokens(Layout(v, ws), |ws|)) else Err(NoMem)
    ensures |Tokens(Layout(v, ws), |ws|)| == Size(v)
  {
    hide Good, Layout, Tokens, Fill, Writable, Size;
    LayoutGood(v, ws);
    var items := More(ws, Layout(v, ws), Done(ws));
    assert GoodItems(items);
    WrittenParses(items, num);
    TokensCount(Layout(v, ws), |ws|);
    assert ItemsTokens(Done(ws), |ws| + |Text(Layout(v, ws))|) == [];
    assert ItemsTokens(items, 0) == Tokens(Layout(v, ws), |ws|);
    assert ItemsValues(Done(ws)) == 0;
  }

  // ----- a quote in a string -----

  function Quoted(): Node { Str([Plain('a'), Esc('\"'), Plain('b')]) }

  function QuotedItems(): Items { More([], Quoted(), Done([])) }

  function QuotedDocument(): Items { More([], Con(Array, QuotedItems()), Done([])) }

  lemma QuotedText()
    ensures Text(Quoted()) == ['\"', 'a', '\\', '\"', 'b', '\"']
    ensures ItemsText(QuotedDocument()) == ['[', '\"', 'a', '\\', '\"', 'b', '\"', ']']
  {
    assert BodyText([Plain('b')]) == ['b'];
    assert BodyText([Esc('\"'), Plain('b')]) == ['\\', '\"', 'b'];
    assert BodyText(Quoted().body) == ['a', '\\', '\"', 'b'];
    hide BodyText;
    assert ItemsText(Done([])) == [];
    assert ItemsText(QuotedItems()) == Text(Quoted());
    assert ItemsText(QuotedDocument()) == Text(Con(Array, QuotedItems()));
  }

  lemma QuotedTokens()
    requires |Text(Con(Array, QuotedItems()))| == 8 && |BodyText(Quoted().body)| == 4
    ensures ItemsTokens(QuotedDocument(), 0) == [Token(Array, 0, 8, 1), Token(String, 2, 6, 0)]
  {
    hide Text, BodyText;
    assert Tokens(Quoted(), 1) == [Token(String, 2, 6, 0)];
    assert ItemsTokens(QuotedItems(), 1) == Tokens(Quoted(), 1);
    assert Length(Done([])) == 0 && Length(QuotedItems()) == 1;
    assert ItemsTokens(QuotedDocument(), 0) == Tokens(Con(Array, QuotedItems()), 0);
  }

  /** The eight characters ["a\"b"] have two tokens, and the string is between its outer quotes. */
  lemma QuoteInString()
    ensures
      var js := ['[', '\"', 'a', '\\', '\"', 'b', '\"', ']'];
      Fill(js, 8, 0, [], 2) == Ok([Token(Array, 0, 8, 1), Token(String, 2, 6, 0)])
  {
    QuotedText();
    assert ItemsText(QuotedDocument()) == Text(Con(Array, QuotedItems())) by { assert ItemsText(Done([])) == []; }
    assert |Text(Quoted())| == |BodyText(Quoted().body)| + 2;
    QuotedTokens();
    hide Text, BodyText, ItemsText, Fill, Tokens, ItemsTokens;
    assert Good(Quoted()) && GoodItems(QuotedItems()) && GoodItems(QuotedDocument());
    assert ItemsValues(QuotedItems()) == 1 && ItemsValues(QuotedDocument()) == 2;
    WrittenParses(QuotedDocument(), 2);
  }
}
