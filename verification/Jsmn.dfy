/** The JSON tokenizer jsmn.c, without parent links and not strict: one pass over the text that fills an array of
    tokens. */
module Jsmn {
  import opened JsonTokens

  class Parser {
    /** Place in the text, the next token to fill, and the innermost open container. */
    var pos: nat
    var toknext: nat
    var toksuper: int

    constructor ()
      ensures pos == 0 && toknext == 0 && toksuper == -1
    {
      pos, toknext, toksuper := 0, 0, -1;
    }

    /** Fills the next token, if there is one left. */
    method FillToken(tokens: array<Token>, num: nat, t: Token) returns (ok: bool)
      requires num <= tokens.Length && toknext <= num
      modifies this`toknext, tokens
      ensures ok == (old(toknext) < num)
      ensures toknext == old(toknext) + (if ok then 1 else 0) && toknext <= num
      ensures tokens[..toknext] == old(tokens[..toknext]) + if ok then [t] else []
    {
      ok := toknext < num;
      if ok {
        tokens[toknext] := t;
        toknext := toknext + 1;
      }
    }

    /** Steps over a primitive, leaving the place at its last character. */
    method ParsePrimitive(js: string, len: nat, tokens: array?<Token>, num: nat) returns (r: Result<nat>)
      requires pos < len && !AtEnd(js, len, pos) && !Delimits(At(js, pos))
      requires tokens != null ==> num <= tokens.Length && toknext <= num
      modifies this`pos, this`toknext, tokens
      ensures tokens == null ==> toknext == old(toknext)
      ensures tokens != null ==> toknext <= num
      ensures
        var q, start := PrimitiveEnd(js, len, old(pos)), old(pos);
        if q.Err? then r == Err(q.error) && pos == start
        else if tokens != null && old(toknext) >= num then r == Err(NoMem) && pos == start
        else r.Ok? && start <= pos && pos + 1 == q.value
             && (tokens != null ==> tokens[..toknext] == old(tokens[..toknext]) + [Token(Primitive, start, q.value, 0)])
    {
      var start := pos;
      while !AtEnd(js, len, pos) && !Delimits(At(js, pos))
        invariant start <= pos <= len && PrimitiveEnd(js, len, pos) == PrimitiveEnd(js, len, start) && toknext == old(toknext)
        invariant tokens != null ==> tokens[..] == old(tokens[..])
        decreases len - pos
      {
        if At(js, pos) < 32 as char || At(js, pos) >= 127 as char {
          pos := start;
          return Err(Inval);
        }
        pos := pos + 1;
      }
      if tokens == null {
        pos := pos - 1;
        return Ok(0);
      }
      var ok := FillToken(tokens, num, Token(Primitive, start, pos, 0));
      if !ok {
        pos := start;
        return Err(NoMem);
      }
      pos := pos - 1;
      r := Ok(0);
    }

    /** Steps over a string, leaving the place at its closing quote. */
    method ParseString(js: string, len: nat, tokens: array?<Token>, num: nat) returns (r: Result<nat>)
      requires pos < len && At(js, pos) == '\"'
      requires tokens != null ==> num <= tokens.Length && toknext <= num
      modifies this`pos, this`toknext, tokens
      ensures tokens == null ==> toknext == old(toknext)
      ensures tokens != null ==> toknext <= num
      ensures
        var q, start := StringEnd(js, len, old(pos) + 1), old(pos);
        if q.Err? then r == Err(q.error) && pos == start
        else if tokens != null && old(toknext) >= num then r == Err(NoMem) && pos == start
        else r.Ok? && start < pos == q.value
             && (tokens != null ==> tokens[..toknext] == old(tokens[..toknext]) + [Token(String, start + 1, q.value, 0)])
    {
      var start := pos;
      pos := pos + 1;
      while !AtEnd(js, len, pos)
        invariant start < pos && StringEnd(js, len, pos) == StringEnd(js, len, start + 1) && toknext == old(toknext)
        invariant tokens != null ==> tokens[..] == old(tokens[..])
        decreases if pos < len then len - pos else 0
      {
        var c := At(js, pos);
        if c == '\"' {
          if tokens == null { return Ok(0); }
          var ok := FillToken(tokens, num, Token(String, start + 1, pos, 0));
          if !ok {
            pos := start;
            return Err(NoMem);
          }
          return Ok(0);
        }
        if c == '\\' {
          pos := pos + 1;
          if At(js, pos) == 'u' {
            var ok := SkipHex(js, start);
            if !ok { return Err(Inval); }
          } else if !Escaped(At(js, pos)) {
            pos := start;
            return Err(Inval);
          }
        }
        pos := pos + 1;
      }
      pos := start;
      r := Err(Part);
    }

    /** Steps over up to four hexadecimal digits behind \u, leaving the place at the last of them. */
    method SkipHex(js: string, start: nat) returns (ok: bool)
      requires At(js, pos) == 'u'
      modifies this`pos
      ensures
        var h := HexEnd(js, old(pos) + 1, 4);
        if h.Err? then !ok && pos == start && h.error == Inval else ok && pos + 1 == h.value && pos >= old(pos)
    {
      var p0 := pos + 1;
      pos := pos + 1;
      var i := 0;
      while i < 4 && At(js, pos) != '\0'
        invariant i <= 4 && pos >= p0 && HexEnd(js, pos, 4 - i) == HexEnd(js, p0, 4)
      {
        if !Hex(At(js, pos)) {
          pos := start;
          return false;
        }
        pos := pos + 1;
        i := i + 1;
      }
      pos := pos - 1;
      ok := true;
    }

    // ----- with a token array -----

    /** The tokens so far make a forest, and toksuper is the innermost open one. */
    ghost predicate Valid(js: string, tokens: array<Token>, num: nat)
      reads this, tokens
    {
      toknext <= num <= tokens.Length && Forest(js, tokens[..toknext], pos) && toksuper == LastOpen(tokens[..toknext])
    }

    /** The container around a new token has a child more. */
    method CountChild(tokens: array<Token>, ghost before: seq<Token>, ghost t: Token)
      requires 0 < toknext <= tokens.Length && tokens[..toknext] == before + [t] && toksuper == LastOpen(before)
      modifies tokens
      ensures tokens[..toknext] == Added(before, t)
    {
      if toksuper != -1 { tokens[toksuper] := tokens[toksuper].(size := tokens[toksuper].size + 1); }
    }

    method OpenBracket(js: string, len: nat, tokens: array<Token>, num: nat) returns (ok: bool)
      requires Valid(js, tokens, num) && !AtEnd(js, len, pos) && Opens(At(js, pos))
      modifies this`toknext, this`toksuper, this`pos, tokens
      ensures ok == (old(toknext) < num)
      ensures ok ==> Valid(js, tokens, num) && toknext == old(toknext) + 1 && pos == old(pos) + 1
      ensures ok ==> OpenKinds(tokens[..toknext]) == old(OpenKinds(tokens[..toknext])) + [KindOf(At(js, old(pos)))]
      ensures ok ==> tokens[..toknext] == Added(old(tokens[..toknext]), Token(KindOf(At(js, old(pos))), old(pos), -1, 0))
    {
      hide Forest, LastOpen, OpenKinds, Says;
      ghost var before := tokens[..toknext];
      var t := Token(KindOf(At(js, pos)), pos, -1, 0);
      ok := FillToken(tokens, num, t);
      if !ok { return; }
      CountChild(tokens, before, t);
      SaysOpen(js, t, pos);
      AddedForest(js, before, pos, t, pos + 1);
      AddedOpen(before, t);
      toksuper := toknext - 1;
      pos := pos + 1;
    }

    /** Closes the innermost open container, if it is of the kind of the bracket. */
    method CloseBracket(js: string, len: nat, tokens: array<Token>, num: nat) returns (ok: bool)
      requires Valid(js, tokens, num) && !AtEnd(js, len, pos) && Closes(At(js, pos))
      modifies this`toksuper, this`pos, tokens
      ensures
        var open := old(OpenKinds(tokens[..toknext]));
        ok == (open != [] && open[|open| - 1] == KindOf(At(js, old(pos))))
        && (ok ==> OpenKinds(tokens[..toknext]) == open[..|open| - 1])
      ensures ok ==> Valid(js, tokens, num) && pos == old(pos) + 1
      ensures
        var toks := old(tokens[..toknext]);
        && ok == (LastOpen(toks) != -1 && toks[LastOpen(toks)].kind == KindOf(At(js, old(pos))))
        && (ok ==> tokens[..toknext] == Closed(toks, pos))
    {
      hide Forest, OpenKinds, LastOpen;
      var kind := KindOf(At(js, pos));
      ghost var toks := tokens[..toknext];
      LastKind(toks);
      var i := FindOpen(tokens, toknext);
      if i == -1 { return false; }
      if tokens[i].kind != kind { return false; }
      ClosedForest(js, toks, pos);
      ClosedOpen(toks, pos + 1);
      toksuper := -1;
      tokens[i] := tokens[i].(end := pos + 1);
      assert tokens[..toknext] == Closed(toks, pos + 1);
      assert tokens[..i] == toks[..i];
      var k := FindOpen(tokens, i);
      if k != -1 { toksuper := k; }
      pos := pos + 1;
      ok := true;
    }

    /** The last open container among the first n tokens, or -1. */
    method FindOpen(tokens: array<Token>, n: nat) returns (i: int)
      requires n <= tokens.Length
      ensures i == LastOpen(tokens[..n])
    {
      i := n - 1;
      while i >= 0 && !IsOpen(tokens[i])
        invariant -1 <= i < n && LastOpen(tokens[..i + 1]) == LastOpen(tokens[..n])
      {
        assert tokens[..i + 1][..i] == tokens[..i];
        i := i - 1;
      }
      if i >= 0 { assert tokens[..i + 1][i] == tokens[i]; }
    }

    /** Parses a text.  Without a token array the tokens are counted; with one they are filled, and the result is that of
        Parsed: the number of tokens, or the first error. */
    method Parse(js: string, len: nat, tokens: array?<Token>, num: nat) returns (r: Result<nat>)
      requires pos == 0 && toknext == 0 && toksuper == -1 && (tokens != null ==> num <= tokens.Length)
      modifies this, tokens
      ensures tokens == null ==> r == Count(js, len, 0)
      ensures tokens != null ==> r == Parsed(js, len, 0, [], 0, num)
      ensures tokens != null && r.Ok? ==>
                && r.value == toknext <= num && Forest(js, tokens[..toknext], pos) && AtEnd(js, len, pos) && pos <= len
                && (forall i :: 0 <= i < toknext ==> !IsOpen(tokens[i]))
                && Count(js, len, 0) == r
      ensures tokens != null ==> Fill(js, len, 0, [], num) == if r.Ok? then Ok(tokens[..toknext]) else Err(r.error)
    {
      if tokens == null {
        r := CountTokens(js, len);
      } else {
        r := ParseTokens(js, len, tokens, num);
        if r.Ok? { ParsedIsCount(js, len, 0, [], 0, num); }
      }
    }

    method CountTokens(js: string, len: nat) returns (r: Result<nat>)
      requires pos == 0 && toknext == 0
      modifies this`pos, this`toknext
      ensures r == Count(js, len, 0)
    {
      var count := 0;
      while !AtEnd(js, len, pos)
        invariant pos <= len && toknext == 0 && Plus(count, Count(js, len, pos)) == Count(js, len, 0)
        decreases len - pos
      {
        var c := At(js, pos);
        if Opens(c) {
          count := count + 1;
        } else if !Closes(c) && !Skipped(c) {
          r := SkipValue(js, len);
          if r.Err? { return; }
          count := count + 1;
        }
        pos := pos + 1;
      }
      r := Ok(count);
    }

    /** A string or a primitive, without a token for it. */
    method SkipValue(js: string, len: nat) returns (r: Result<nat>)
      requires !AtEnd(js, len, pos) && !Opens(At(js, pos)) && !Closes(At(js, pos)) && !Skipped(At(js, pos))
      modifies this`pos, this`toknext
      ensures toknext == old(toknext)
      ensures
        var q := if At(js, old(pos)) == '\"' then StringEnd(js, len, old(pos) + 1) else PrimitiveEnd(js, len, old(pos));
        if q.Err? then r == Err(q.error)
        else r.Ok? && old(pos) <= pos < len && pos + 1 == (if At(js, old(pos)) == '\"' then q.value + 1 else q.value)
    {
      if At(js, pos) == '\"' { r := ParseString(js, len, null, 0); } else { r := ParsePrimitive(js, len, null, 0); }
    }

    method ParseTokens(js: string, len: nat, tokens: array<Token>, num: nat) returns (r: Result<nat>)
      requires pos == 0 && toknext == 0 && toksuper == -1 && num <= tokens.Length
      modifies this, tokens
      ensures r == Parsed(js, len, 0, [], 0, num)
      ensures r.Ok? ==> r.value == toknext && Valid(js, tokens, num) && AtEnd(js, len, pos) && pos <= len
      ensures r.Ok? ==> forall i :: 0 <= i < toknext ==> !IsOpen(tokens[i])
      ensures Fill(js, len, 0, [], num) == if r.Ok? then Ok(tokens[..toknext]) else Err(r.error)
    {
      hide Forest, LastOpen, OpenKinds, Fill, Added, Closed, ValueAt;
      NoTokens(js);
      assert tokens[..0] == [];
      while !AtEnd(js, len, pos)
        invariant Valid(js, tokens, num) && pos <= len
        invariant Parsed(js, len, pos, OpenKinds(tokens[..toknext]), toknext, num) == Parsed(js, len, 0, [], 0, num)
        invariant Fill(js, len, pos, tokens[..toknext], num) == Fill(js, len, 0, [], num)
        decreases len - pos
      {
        var c := At(js, pos);
        FillStep(js, len, pos, tokens[..toknext], num);
        if Opens(c) {
          var ok := OpenBracket(js, len, tokens, num);
          if !ok { return Err(NoMem); }
        } else if Closes(c) {
          var ok := CloseBracket(js, len, tokens, num);
          if !ok { return Err(Inval); }
        } else if Skipped(c) {
          LaterForest(js, tokens[..toknext], pos);
          pos := pos + 1;
        } else {
          r := ParseValue(js, len, tokens, num);
          if r.Err? { return; }
        }
      }
      LastKind(tokens[..toknext]);
      FillsEnd(js, len, pos, tokens[..toknext], num);
      var i := FindOpen(tokens, toknext);
      if i >= 0 { return Err(Part); }
      NoneOpen(tokens[..toknext]);
      r := Ok(toknext);
    }

    /** A string or a primitive. */
    method ParseValue(js: string, len: nat, tokens: array<Token>, num: nat) returns (r: Result<nat>)
      requires Valid(js, tokens, num) && !AtEnd(js, len, pos)
      requires !Opens(At(js, pos)) && !Closes(At(js, pos)) && !Skipped(At(js, pos))
      modifies this, tokens
      ensures
        var q := if At(js, old(pos)) == '\"' then StringEnd(js, len, old(pos) + 1) else PrimitiveEnd(js, len, old(pos));
        if q.Err? then r == Err(q.error)
        else if old(toknext) >= num then r == Err(NoMem)
        else r.Ok? && toknext == old(toknext) + 1 && Valid(js, tokens, num) && old(pos) < pos <= len
             && pos == (if At(js, old(pos)) == '\"' then q.value + 1 else q.value)
             && OpenKinds(tokens[..toknext]) == old(OpenKinds(tokens[..toknext]))
      ensures
        var q := ValueAt(js, len, old(pos));
        if q.Err? then r == Err(q.error)
        else if old(toknext) >= num then r == Err(NoMem)
        else r.Ok? && pos == q.value.1 && tokens[..toknext] == Added(old(tokens[..toknext]), q.value.0)
    {
      hide Forest, LastOpen, OpenKinds, Says;
      ghost var before, start := tokens[..toknext], pos;
      if At(js, pos) == '\"' { r := ParseString(js, len, tokens, num); } else { r := ParsePrimitive(js, len, tokens, num); }
      if r.Err? { return; }
      ghost var t := tokens[toknext - 1];
      assert tokens[..toknext] == before + [t];
      CountChild(tokens, before, t);
      pos := pos + 1;
      SaysValue(js, t, pos);
      AddedForest(js, before, start, t, pos);
      AddedOpen(before, t);
    }
  }

  function Plus(n: nat, r: Result<nat>): Result<nat> { if r.Ok? then Ok(n + r.value) else r }

  /** What the parse does at this place. */
  lemma FillStep(js: string, len: nat, pos: nat, toks: seq<Token>, num: nat)
    requires pos < len && !AtEnd(js, len, pos)
    ensures
      var c, r := At(js, pos), Fill(js, len, pos, toks, num);
      if Opens(c) then
        r == if |toks| >= num then Err(NoMem) else Fill(js, len, pos + 1, Added(toks, Token(KindOf(c), pos, -1, 0)), num)
      else if Closes(c) then
        r == if LastOpen(toks) == -1 || toks[LastOpen(toks)].kind != KindOf(c) then Err(Inval)
             else Fill(js, len, pos + 1, Closed(toks, pos + 1), num)
      else if Skipped(c) then r == Fill(js, len, pos + 1, toks, num)
      else
        var q := ValueAt(js, len, pos);
        && (q.Ok? ==> pos < q.value.1 <= len)
        && r == if q.Err? then Err(q.error)
                else if |toks| >= num then Err(NoMem)
                else Fill(js, len, q.value.1, Added(toks, q.value.0), num)
  {
    hide Fill, Added, Closed, LastOpen, ValueAt;
    var c := At(js, pos);
    if Opens(c) { FillsOpen(js, len, pos, toks, num); }
    else if Closes(c) { FillsClose(js, len, pos, toks, num); }
    else if Skipped(c) { FillsSkip(js, len, pos, toks, num); }
    else { FillsValue(js, len, pos, toks, num); }
  }

  lemma NoTokens(js: string)
    ensures Forest(js, [], 0) && LastOpen([]) == -1 && OpenKinds([]) == []
  {
  }

  lemma NoneOpen(toks: seq<Token>)
    ensures LastOpen(toks) == -1 ==> forall i :: 0 <= i < |toks| ==> !IsOpen(toks[i])
  {
  }

  lemma LaterForest(js: string, toks: seq<Token>, pos: nat)
    requires Forest(js, toks, pos)
    ensures Forest(js, toks, pos + 1)
  {
    hide Says, Apart, Children;
    forall i | 0 <= i < |toks| ensures Says(js, toks[i], pos + 1) { SaysLater(js, toks[i], pos, pos + 1, toks[i].size); }
  }

  lemma SaysOpen(js: string, t: Token, pos: nat)
    requires Opens(At(js, pos)) && t == Token(KindOf(At(js, pos)), pos, -1, 0)
    ensures Says(js, t, pos + 1) && IsOpen(t)
  {
  }

  lemma SaysValue(js: string, t: Token, pos: nat)
    requires (t.kind == Primitive && 0 <= t.start < t.end == pos)
             || (t.kind == String && 1 <= t.start <= t.end && t.end + 1 == pos && At(js, t.start - 1) == '\"' && At(js, t.end) == '\"')
    ensures Says(js, t, pos) && !IsOpen(t)
  {
  }
}
