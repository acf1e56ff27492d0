/** JSON texts as jsmn.c scans them, and what its token arrays mean. */
module JsonTokens {

  datatype Kind = Primitive | Object | Array | String

  datatype Token = Token(kind: Kind, start: int, end: int, size: int)

  datatype Error = NoMem | Inval | Part

  datatype Result<+T> = Ok(value: T) | Err(error: Error)

  // ----- the text -----

  /** The character at a place; behind the text there is the terminating NUL. */
  function At(js: string, i: nat): char { if i < |js| then js[i] else '\0' }

  predicate AtEnd(js: string, len: nat, pos: nat) { pos >= len || At(js, pos) == '\0' }

  predicate Delimits(c: char) { c in {':', '\t', '\r', '\n', ' ', ',', ']', '}'} }

  predicate Hex(c: char) { '0' <= c <= '9' || 'A' <= c <= 'F' || 'a' <= c <= 'f' }

  predicate Escaped(c: char) { c in {'\"', '/', '\\', 'b', 'f', 'r', 'n', 't'} }

  /** The place behind at most n hexadecimal digits, which may be fewer only at the end of the text. */
  function HexEnd(js: string, pos: nat, n: nat): (r: Result<nat>)
    ensures r.Ok? ==> r.value >= pos
    decreases n
  {
    if n == 0 || At(js, pos) == '\0' then Ok(pos)
    else if !Hex(At(js, pos)) then Err(Inval)
    else HexEnd(js, pos + 1, n - 1)
  }

  /** The closing quote of a string, looked for from a place inside it. */
  function StringEnd(js: string, len: nat, pos: nat): (r: Result<nat>)
    ensures r.Ok? ==> pos <= r.value < len && At(js, r.value) == '\"'
    decreases if pos < len then len - pos else 0
  {
    if AtEnd(js, len, pos) then Err(Part)
    else if At(js, pos) == '\"' then Ok(pos)
    else if At(js, pos) == '\\' then
      if Escaped(At(js, pos + 1)) then StringEnd(js, len, pos + 2)
      else if At(js, pos + 1) == 'u' then
        var h := HexEnd(js, pos + 2, 4);
        if h.Err? then Err(h.error) else StringEnd(js, len, h.value)
      else Err(Inval)
    else StringEnd(js, len, pos + 1)
  }

  /** The end of a primitive. */
  function PrimitiveEnd(js: string, len: nat, pos: nat): (r: Result<nat>)
    requires pos <= len
    ensures r.Ok? ==> pos <= r.value <= len && (r.value == pos ==> AtEnd(js, len, pos) || Delimits(At(js, pos)))
    decreases len - pos
  {
    if AtEnd(js, len, pos) || Delimits(At(js, pos)) then Ok(pos)
    else if At(js, pos) < 32 as char || At(js, pos) >= 127 as char then Err(Inval)
    else PrimitiveEnd(js, len, pos + 1)
  }

  predicate Opens(c: char) { c == '{' || c == '[' }
  predicate Closes(c: char) { c == '}' || c == ']' }
  predicate Skipped(c: char) { c in {'\t', '\r', '\n', ':', ',', ' '} }

  function KindOf(c: char): Kind { if c == '{' || c == '}' then Object else Array }

  function Succ(r: Result<nat>): Result<nat> { if r.Ok? then Ok(r.value + 1) else r }

  /** The number of tokens of a text, without regard to whether brackets match (parsing with no token array). */
  function Count(js: string, len: nat, pos: nat): (r: Result<nat>)
    requires pos <= len
    decreases len - pos
  {
    if AtEnd(js, len, pos) then Ok(0)
    else
      var c := At(js, pos);
      if Opens(c) then Succ(Count(js, len, pos + 1))
      else if Closes(c) || Skipped(c) then Count(js, len, pos + 1)
      else if c == '\"' then
        var q := StringEnd(js, len, pos + 1);
        if q.Err? then Err(q.error) else Succ(Count(js, len, q.value + 1))
      else
        var q := PrimitiveEnd(js, len, pos);
        if q.Err? then Err(q.error) else Succ(Count(js, len, q.value))
  }

  /** Brackets match from here on, with these open, and there is room for the tokens: how many there are in the end. */
  function Parsed(js: string, len: nat, pos: nat, open: seq<Kind>, n: nat, num: nat): (r: Result<nat>)
    requires pos <= len
    decreases len - pos
  {
    if AtEnd(js, len, pos) then if open == [] then Ok(n) else Err(Part)
    else
      var c := At(js, pos);
      if Opens(c) then if n >= num then Err(NoMem) else Parsed(js, len, pos + 1, open + [KindOf(c)], n + 1, num)
      else if Closes(c) then
        if open == [] || open[|open| - 1] != KindOf(c) then Err(Inval)
        else Parsed(js, len, pos + 1, open[..|open| - 1], n, num)
      else if Skipped(c) then Parsed(js, len, pos + 1, open, n, num)
      else if c == '\"' then
        var q := StringEnd(js, len, pos + 1);
        if q.Err? then Err(q.error)
        else if n >= num then Err(NoMem) else Parsed(js, len, q.value + 1, open, n + 1, num)
      else
        var q := PrimitiveEnd(js, len, pos);
        if q.Err? then Err(q.error)
        else if n >= num then Err(NoMem) else Parsed(js, len, q.value, open, n + 1, num)
  }

  /** A text that parses has as many tokens as the run without a token array counts. */
  lemma {:induction false} ParsedIsCount(js: string, len: nat, pos: nat, open: seq<Kind>, n: nat, num: nat)
    requires pos <= len && Parsed(js, len, pos, open, n, num).Ok?
    ensures
      var r := Count(js, len, pos);
      r.Ok? && Parsed(js, len, pos, open, n, num) == Ok(n + r.value) && (n <= num ==> n + r.value <= num)
    decreases len - pos
  {
    if !AtEnd(js, len, pos) {
      var c := At(js, pos);
      if Opens(c) { ParsedIsCount(js, len, pos + 1, open + [KindOf(c)], n + 1, num); }
      else if Closes(c) { ParsedIsCount(js, len, pos + 1, open[..|open| - 1], n, num); }
      else if Skipped(c) { ParsedIsCount(js, len, pos + 1, open, n, num); }
      else if c == '\"' { ParsedIsCount(js, len, StringEnd(js, len, pos + 1).value + 1, open, n + 1, num); }
      else { ParsedIsCount(js, len, PrimitiveEnd(js, len, pos).value, open, n + 1, num); }
    }
  }

  // ----- the token array -----

  predicate Container(t: Token) { t.kind == Object || t.kind == Array }

  predicate IsOpen(t: Token) { t.start != -1 && t.end == -1 }

  /** A container around a place; an open one has no end yet. */
  predicate Around(t: Token, x: int) { Container(t) && t.start < x && (IsOpen(t) || x < t.end) }

  /** The innermost container around a place. */
  function Parent(toks: seq<Token>, x: int): (p: int)
    ensures -1 <= p < |toks|
  {
    if toks == [] then -1
    else if Around(toks[|toks| - 1], x) then |toks| - 1
    else Parent(toks[..|toks| - 1], x)
  }

  /** How many tokens have token i as the innermost container around them. */
  function Children(toks: seq<Token>, i: int): (n: nat) {
    if toks == [] then 0
    else Children(toks[..|toks| - 1], i) + if Parent(toks[..|toks| - 1], toks[|toks| - 1].start) == i then 1 else 0
  }

  /** The innermost open container. */
  function LastOpen(toks: seq<Token>): (p: int)
    ensures -1 <= p < |toks| && (p >= 0 ==> IsOpen(toks[p])) && forall i :: p < i < |toks| ==> !IsOpen(toks[i])
  {
    if toks == [] then -1
    else if IsOpen(toks[|toks| - 1]) then |toks| - 1
    else LastOpen(toks[..|toks| - 1])
  }

  /** The kinds of the open containers. */
  function OpenKinds(toks: seq<Token>): (ks: seq<Kind>) {
    if toks == [] then []
    else OpenKinds(toks[..|toks| - 1]) + if IsOpen(toks[|toks| - 1]) then [toks[|toks| - 1].kind] else []
  }

  /** A token says what stands in the text: brackets that match, quotes around a string. */
  ghost predicate Says(js: string, t: Token, pos: nat) {
    && 0 <= t.start
    && (match t.kind
        case Object => At(js, t.start) == '{' && (t.end == -1 || (t.start < t.end <= pos && At(js, t.end - 1) == '}'))
        case Array => At(js, t.start) == '[' && (t.end == -1 || (t.start < t.end <= pos && At(js, t.end - 1) == ']'))
        case String => t.start >= 1 && At(js, t.start - 1) == '\"' && t.start <= t.end < pos && At(js, t.end) == '\"'
        case Primitive => t.start < t.end <= pos)
    && t.start < pos
  }

  /** One token is before another one, or it is a container around it. */
  ghost predicate Apart(t: Token, u: Token) {
    t.start < u.start && (if IsOpen(t) then Container(t) else t.end <= u.start || (Container(t) && !IsOpen(u) && u.end < t.end))
  }

  /** The tokens of the text up to some place: in the order of their places, nested, with exact numbers of children. */
  ghost predicate Forest(js: string, toks: seq<Token>, pos: nat) {
    && (forall i :: 0 <= i < |toks| ==> Says(js, toks[i], pos))
    && (forall i, j :: 0 <= i < j < |toks| ==> Apart(toks[i], toks[j]))
    && (forall i :: 0 <= i < |toks| ==> toks[i].size == Children(toks, i))
  }

  // ----- what a step does to the tokens -----

  /** Only sizes are different. */
  predicate SameButSizes(a: seq<Token>, b: seq<Token>) {
    |a| == |b| && forall i :: 0 <= i < |a| ==> b[i] == a[i].(size := b[i].size)
  }

  lemma {:induction false} SizesUnused(a: seq<Token>, b: seq<Token>, x: int)
    requires SameButSizes(a, b)
    ensures Parent(a, x) == Parent(b, x) && LastOpen(a) == LastOpen(b) && OpenKinds(a) == OpenKinds(b)
  {
    if a != [] { SizesUnused(a[..|a| - 1], b[..|b| - 1], x); }
  }

  lemma {:induction false} SizesUncounted(a: seq<Token>, b: seq<Token>, i: int)
    requires SameButSizes(a, b)
    ensures Children(a, i) == Children(b, i)
  {
    if a != [] {
      SizesUncounted(a[..|a| - 1], b[..|b| - 1], i);
      SizesUnused(a[..|a| - 1], b[..|b| - 1], a[|a| - 1].start);
    }
  }

  lemma {:induction false} NoChildren(toks: seq<Token>, i: int)
    requires i >= |toks|
    ensures Children(toks, i) == 0
  {
    if toks != [] { NoChildren(toks[..|toks| - 1], i); }
  }

  /** Behind all tokens, the innermost container around is the innermost open one. */
  lemma {:induction false} ParentBehind(js: string, toks: seq<Token>, pos: nat, x: int)
    requires (forall i :: 0 <= i < |toks| ==> Says(js, toks[i], pos)) && x >= pos
    ensures Parent(toks, x) == LastOpen(toks)
  {
    if toks != [] { ParentBehind(js, toks[..|toks| - 1], pos, x); }
  }

  /** A token more, and its container has a child more. */
  function Added(toks: seq<Token>, t: Token): seq<Token> {
    var p := LastOpen(toks);
    (if p >= 0 then toks[p := toks[p].(size := toks[p].size + 1)] else toks) + [t]
  }

  lemma SaysLater(js: string, t: Token, pos: nat, pos': nat, size: int)
    requires Says(js, t, pos) && pos <= pos'
    ensures Says(js, t.(size := size), pos')
  {
  }

  lemma ApartSizes(t: Token, u: Token, a: int, b: int)
    requires Apart(t, u)
    ensures Apart(t.(size := a), u.(size := b))
  {
  }

  lemma ApartNew(js: string, t: Token, u: Token, pos: nat)
    requires Says(js, t, pos) && pos <= u.start
    ensures Apart(t, u)
  {
  }

  lemma AddedForest(js: string, toks: seq<Token>, pos: nat, t: Token, pos': nat)
    requires Forest(js, toks, pos) && Says(js, t, pos') && t.size == 0 && pos <= t.start && pos <= pos'
    ensures Forest(js, Added(toks, t), pos')
  {
    hide Says, Apart, Children, Parent, LastOpen;
    var u, n := Added(toks, t), |toks|;
    AddedSizes(js, toks, pos, t);
    forall i | 0 <= i < |u| ensures Says(js, u[i], pos') {
      if i < n { SaysLater(js, toks[i], pos, pos', u[i].size); }
    }
    forall i, j | 0 <= i < j < |u| ensures Apart(u[i], u[j]) {
      if j < n { ApartSizes(toks[i], toks[j], u[i].size, u[j].size); }
      else { ApartNew(js, toks[i], t, pos); ApartSizes(toks[i], t, u[i].size, t.size); }
    }
  }

  lemma AddedSizes(js: string, toks: seq<Token>, pos: nat, t: Token)
    requires Forest(js, toks, pos) && t.size == 0 && pos <= t.start
    ensures forall i :: 0 <= i < |Added(toks, t)| ==> Added(toks, t)[i].size == Children(Added(toks, t), i)
  {
    hide Says, Apart, Parent, LastOpen, Children;
    var u := Added(toks, t);
    var w := u[..|toks|];
    assert SameButSizes(toks, w) && u == w + [t];
    ParentBehind(js, toks, pos, t.start);
    SizesUnused(toks, w, t.start);
    forall i | 0 <= i < |u| ensures u[i].size == Children(u, i) {
      SizesUncounted(toks, w, i);
      NoChildren(toks, |toks|);
      LastChild(w, t, i);
    }
  }

  lemma LastChild(w: seq<Token>, t: Token, i: int)
    ensures Children(w + [t], i) == Children(w, i) + if Parent(w, t.start) == i then 1 else 0
  {
    assert (w + [t])[..|w|] == w;
  }

  lemma AddedOpen(toks: seq<Token>, t: Token)
    ensures
      var u := Added(toks, t);
      && LastOpen(u) == (if IsOpen(t) then |toks| else LastOpen(toks))
      && OpenKinds(u) == OpenKinds(toks) + if IsOpen(t) then [t.kind] else []
  {
    var u := Added(toks, t);
    var w := u[..|toks|];
    assert SameButSizes(toks, w) && u == w + [t];
    SizesUnused(toks, w, 0);
  }

  /** The innermost open container is closed. */
  function Closed(toks: seq<Token>, e: int): seq<Token>
    requires LastOpen(toks) >= 0
  {
    var k := LastOpen(toks);
    toks[k := toks[k].(end := e)]
  }

  lemma {:induction false} ClosedParent(toks: seq<Token>, k: nat, e: int, x: int)
    requires k < |toks| && IsOpen(toks[k]) && x < e
    ensures Parent(toks[k := toks[k].(end := e)], x) == Parent(toks, x)
  {
    var n := |toks| - 1;
    var u := toks[k := toks[k].(end := e)];
    if k == n { assert u[..n] == toks[..n]; }
    else {
      assert u[..n] == toks[..n][k := toks[k].(end := e)];
      ClosedParent(toks[..n], k, e, x);
    }
  }

  lemma {:induction false} ClosedChildren(toks: seq<Token>, k: nat, e: int, i: int)
    requires k < |toks| && IsOpen(toks[k]) && forall j :: 0 <= j < |toks| ==> toks[j].start < e
    ensures Children(toks[k := toks[k].(end := e)], i) == Children(toks, i)
  {
    var n := |toks| - 1;
    var u := toks[k := toks[k].(end := e)];
    if k == n { assert u[..n] == toks[..n]; }
    else {
      assert u[..n] == toks[..n][k := toks[k].(end := e)];
      ClosedChildren(toks[..n], k, e, i);
      ClosedParent(toks[..n], k, e, toks[n].start);
    }
  }

  lemma ClosedForest(js: string, toks: seq<Token>, pos: nat)
    requires Forest(js, toks, pos) && LastOpen(toks) >= 0
    requires Closes(At(js, pos)) && KindOf(At(js, pos)) == toks[LastOpen(toks)].kind
    ensures Forest(js, Closed(toks, pos + 1), pos + 1)
  {
    hide Says, Apart, Children, At;
    var k := LastOpen(toks);
    var u := Closed(toks, pos + 1);
    forall i | 0 <= i < |u| ensures toks[i].start < pos + 1 { StartBound(js, toks[i], pos); }
    forall i | 0 <= i < |u| ensures u[i].size == Children(u, i) { ClosedChildren(toks, k, pos + 1, i); }
    forall i | 0 <= i < |u| ensures Says(js, u[i], pos + 1) {
      if i == k { SaysClosed(js, toks[k], pos); } else { SaysLater(js, toks[i], pos, pos + 1, toks[i].size); }
    }
    forall i, j | 0 <= i < j < |u| ensures Apart(u[i], u[j]) { ApartClosed(js, toks[i], toks[j], i == k, j == k, pos); }
  }

  lemma StartBound(js: string, t: Token, pos: nat)
    requires Says(js, t, pos)
    ensures 0 <= t.start < pos
  {
  }

  lemma SaysClosed(js: string, t: Token, pos: nat)
    requires Says(js, t, pos) && IsOpen(t) && Closes(At(js, pos)) && KindOf(At(js, pos)) == t.kind
    ensures Says(js, t.(end := pos + 1), pos + 1)
  {
  }

  /** Closing the last open container: what comes behind its start is closed already. */
  lemma ApartClosed(js: string, t: Token, u: Token, first: bool, second: bool, pos: nat)
    requires Apart(t, u) && Says(js, t, pos) && Says(js, u, pos)
    requires (first ==> IsOpen(t) && !IsOpen(u) && !second) && (second ==> IsOpen(u))
    ensures Apart(if first then t.(end := pos + 1) else t, if second then u.(end := pos + 1) else u)
  {
  }

  lemma {:induction false} LastKind(toks: seq<Token>)
    ensures LastOpen(toks) >= 0 <==> OpenKinds(toks) != []
    ensures LastOpen(toks) >= 0 ==> OpenKinds(toks)[|OpenKinds(toks)| - 1] == toks[LastOpen(toks)].kind
  {
    if toks != [] { LastKind(toks[..|toks| - 1]); }
  }

  lemma {:induction false} ClosedOpen(toks: seq<Token>, e: int)
    requires LastOpen(toks) >= 0 && e != -1
    ensures
      var k, u := LastOpen(toks), Closed(toks, e);
      && LastOpen(u) == LastOpen(toks[..k]) && OpenKinds(toks) != []
      && OpenKinds(u) == OpenKinds(toks)[..|OpenKinds(toks)| - 1]
  {
    var n, k, u := |toks| - 1, LastOpen(toks), Closed(toks, e);
    if k == n {
      assert u[..n] == toks[..n];
    } else {
      assert u[..n] == toks[..n][k := toks[k].(end := e)] && toks[..n][..k] == toks[..k];
      ClosedOpen(toks[..n], e);
    }
  }

  // ----- the parse as a function -----

  /** The tokens that the parse has in the end, from those at a place. */
  function Fill(js: string, len: nat, pos: nat, toks: seq<Token>, num: nat): (r: Result<seq<Token>>)
    requires pos <= len
    decreases len - pos
  {
    if AtEnd(js, len, pos) then if LastOpen(toks) == -1 then Ok(toks) else Err(Part)
    else
      var c := At(js, pos);
      if Opens(c) then
        if |toks| >= num then Err(NoMem) else Fill(js, len, pos + 1, Added(toks, Token(KindOf(c), pos, -1, 0)), num)
      else if Closes(c) then
        if LastOpen(toks) == -1 || toks[LastOpen(toks)].kind != KindOf(c) then Err(Inval)
        else Fill(js, len, pos + 1, Closed(toks, pos + 1), num)
      else if Skipped(c) then Fill(js, len, pos + 1, toks, num)
      else if c == '\"' then
        var q := StringEnd(js, len, pos + 1);
        if q.Err? then Err(q.error)
        else if |toks| >= num then Err(NoMem)
        else Fill(js, len, q.value + 1, Added(toks, Token(String, pos + 1, q.value, 0)), num)
      else
        var q := PrimitiveEnd(js, len, pos);
        if q.Err? then Err(q.error)
        else if |toks| >= num then Err(NoMem)
        else Fill(js, len, q.value, Added(toks, Token(Primitive, pos, q.value, 0)), num)
  }

  // ----- one step of it -----

  lemma FillsOpen(js: string, len: nat, pos: nat, toks: seq<Token>, num: nat)
    requires pos < len && !AtEnd(js, len, pos) && Opens(At(js, pos))
    ensures
      Fill(js, len, pos, toks, num)
      == if |toks| >= num then Err(NoMem) else Fill(js, len, pos + 1, Added(toks, Token(KindOf(At(js, pos)), pos, -1, 0)), num)
  {
    hide StringEnd, PrimitiveEnd, Added, Closed, LastOpen;
  }

  lemma FillsClose(js: string, len: nat, pos: nat, toks: seq<Token>, num: nat)
    requires pos < len && !AtEnd(js, len, pos) && Closes(At(js, pos))
    ensures
      Fill(js, len, pos, toks, num)
      == if LastOpen(toks) == -1 || toks[LastOpen(toks)].kind != KindOf(At(js, pos)) then Err(Inval)
         else Fill(js, len, pos + 1, Closed(toks, pos + 1), num)
  {
    hide StringEnd, PrimitiveEnd, Added, Closed, LastOpen;
  }

  lemma FillsSkip(js: string, len: nat, pos: nat, toks: seq<Token>, num: nat)
    requires pos < len && !AtEnd(js, len, pos) && Skipped(At(js, pos))
    ensures Fill(js, len, pos, toks, num) == Fill(js, len, pos + 1, toks, num)
  {
    hide StringEnd, PrimitiveEnd, Added, Closed, LastOpen;
  }

  /** The token of a string or a primitive, and the place behind it. */
  function ValueAt(js: string, len: nat, pos: nat): (r: Result<(Token, nat)>)
    requires pos < len
  {
    if At(js, pos) == '\"' then
      var q := StringEnd(js, len, pos + 1);
      if q.Err? then Err(q.error) else Ok((Token(String, pos + 1, q.value, 0), q.value + 1))
    else
      var q := PrimitiveEnd(js, len, pos);
      if q.Err? then Err(q.error) else Ok((Token(Primitive, pos, q.value, 0), q.value))
  }

  lemma FillsValue(js: string, len: nat, pos: nat, toks: seq<Token>, num: nat)
    requires pos < len && !AtEnd(js, len, pos) && !Opens(At(js, pos)) && !Closes(At(js, pos)) && !Skipped(At(js, pos))
    ensures ValueAt(js, len, pos).Ok? ==> pos < ValueAt(js, len, pos).value.1 <= len
    ensures
      var q := ValueAt(js, len, pos);
      Fill(js, len, pos, toks, num)
      == if q.Err? then Err(q.error)
         else if |toks| >= num then Err(NoMem)
         else Fill(js, len, q.value.1, Added(toks, q.value.0), num)
  {
    hide StringEnd, PrimitiveEnd, Added, Closed, LastOpen;
  }

  lemma FillsEnd(js: string, len: nat, pos: nat, toks: seq<Token>, num: nat)
    requires pos <= len && AtEnd(js, len, pos)
    ensures Fill(js, len, pos, toks, num) == if LastOpen(toks) == -1 then Ok(toks) else Err(Part)
  {
  }
}
