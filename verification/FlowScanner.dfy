/** The lexer as it runs: one cursor with its line and column, moved byte by byte. */
module FlowScanner {
  import opened Basics
  import opened FlowTokens
  import opened FlowLexer
  import opened FlowSpans

  function Joined(done: seq<Token>, rest: Result<seq<Token>>): Result<seq<Token>> {
    match rest
    case Ok(ts) => Ok(done + ts)
    case Err(d) => Err(d)
  }

  lemma {:induction false} JoinedSnoc(done: seq<Token>, t: Token, rest: Result<seq<Token>>)
    ensures Joined(done, Prepend(t, rest)) == Joined(done + [t], rest)
  {
    if rest.Ok? {
      assert done + ([t] + rest.value) == done + [t] + rest.value;
    }
  }

  lemma {:induction false} SkipIsIdempotent(text: string, p: nat)
    requires p <= |text|
    ensures SkipHorizontal(text, SkipHorizontal(text, p)) == SkipHorizontal(text, p)
    ensures Lex(text, SkipHorizontal(text, p)) == Lex(text, p)
  {
  }

  /** What has been read of a string, put before what is still to be read. */
  function Resumed(read: string, rest: Option<(string, nat)>): Option<(string, nat)> {
    match rest
    case None => None
    case Some((v, e)) => Some((read + v, e))
  }

  lemma {:induction false} ReadStrings(text: string, p: nat)
    requires p < |text| && text[p] == '"'
    ensures forall v, e: nat :: Reads(Str(v), text, p, e) <==> StringFrom(text, p + 1) == Some((v, e))
  {
    forall v, e: nat
      ensures Reads(Str(v), text, p, e) <==> StringFrom(text, p + 1) == Some((v, e))
    {
      StringReads(text, p, v, e);
    }
  }

  lemma {:induction false} ResumedSnoc(read: string, c: char, rest: Option<(string, nat)>)
    ensures Resumed(read, Resumed([c], rest)) == Resumed(read + [c], rest)
  {
    if rest.Some? {
      assert read + ([c] + rest.value.0) == read + [c] + rest.value.0;
    }
  }

  class Lexer {
    const text: string
    var pos: nat
    var line: nat
    var col: nat

    /** The line is one plus the newlines before the cursor, the column one plus the bytes since. */
    ghost predicate Valid()
      reads this
    {
      pos <= |text| && SpanAt(text, pos, 0) == Span(pos, 0, line, col)
    }

    constructor (text: string)
      ensures Valid() && this.text == text && pos == 0
    {
      this.text := text;
      pos, line, col := 0, 1, 1;
    }

    method Bump() returns (b: char)
      requires Valid() && pos < |text|
      modifies this
      ensures Valid() && pos == old(pos) + 1 && b == text[old(pos)]
    {
      b := text[pos];
      assert text[..pos + 1] == text[..pos] + [b];
      pos := pos + 1;
      if b == '\n' {
        line := line + 1;
        col := 1;
      } else {
        col := col + 1;
      }
    }

    method SkipComment()
      requires Valid()
      modifies this
      ensures Valid() && pos == LineEnd(text, old(pos))
    {
      while pos < |text| && text[pos] != '\n'
        invariant Valid() && LineEnd(text, pos) == LineEnd(text, old(pos))
        decreases |text| - pos
      {
        var _ := Bump();
      }
    }

    method SkipBlanks()
      requires Valid()
      modifies this
      ensures Valid() && pos == SkipHorizontal(text, old(pos))
    {
      while pos < |text| && (Blank(text[pos]) || text[pos] == '#')
        invariant Valid() && SkipHorizontal(text, pos) == SkipHorizontal(text, old(pos))
        decreases |text| - pos
      {
        if text[pos] == '#' {
          SkipComment();
        } else {
          var _ := Bump();
        }
      }
    }

    method ConsumeSeparatorRun()
      requires Valid()
      modifies this
      ensures Valid() && pos == SeparatorEnd(text, old(pos))
    {
      while pos < |text| && (Blank(text[pos]) || Separator(text[pos]) || text[pos] == '#')
        invariant Valid() && SeparatorEnd(text, pos) == SeparatorEnd(text, old(pos))
        decreases |text| - pos
      {
        if text[pos] == '#' {
          SkipComment();
        } else {
          var _ := Bump();
        }
      }
    }

    method LexAtom() returns (kind: TokenKind)
      requires Valid()
      modifies this
      ensures Valid() && pos == AtomEnd(text, old(pos)) && kind == Atom(text[old(pos)..pos])
    {
      var start := pos;
      while pos < |text| && !StopsAtom(text, pos)
        invariant Valid() && start <= pos && AtomEnd(text, pos) == AtomEnd(text, start)
        decreases |text| - pos
      {
        var _ := Bump();
      }
      kind := Atom(text[start..pos]);
    }

    method LexEnv() returns (kind: Option<TokenKind>)
      requires Valid() && Begins(text, pos, "${")
      modifies this
      ensures Valid()
      ensures match EnvClose(text, old(pos) + 2)
              case None => kind.None? && pos == |text|
              case Some(e) => kind == Some(Env(text[old(pos) + 2..e])) && pos == e + 1
    {
      var _ := Bump();
      var _ := Bump();
      var inner := pos;
      while pos < |text| && text[pos] != '}'
        invariant Valid() && inner <= pos && EnvClose(text, pos) == EnvClose(text, inner)
        decreases |text| - pos
      {
        var _ := Bump();
      }
      if pos == |text| {
        return None;
      }
      kind := Some(Env(text[inner..pos]));
      var _ := Bump();
    }

    /** One character of string content, with its escape resolved; nothing if the text ends first. */
    method StringChar() returns (c: Option<char>)
      requires Valid() && pos < |text| && text[pos] != '"'
      modifies this
      ensures Valid() && old(pos) < pos
      ensures c.None? ==> pos == |text| && StringFrom(text, old(pos)).None?
      ensures c.Some? ==> StringFrom(text, old(pos)) == Resumed([c.value], StringFrom(text, pos))
      ensures c.Some? && pos == old(pos) + 1 ==> text[old(pos)] != '\\' && c.value == text[old(pos)]
      ensures c.Some? && pos != old(pos) + 1 ==>
                text[old(pos)] == '\\' && pos == old(pos) + 2 && Escaped(text[old(pos) + 1], c.value)
    {
      if text[pos] != '\\' {
        c := Some(text[pos]);
        var _ := Bump();
        return;
      }
      var _ := Bump();
      if pos == |text| {
        return None;
      }
      c := Some(Unescape(text[pos]));
      var _ := Bump();
    }

    method LexString() returns (kind: Option<TokenKind>)
      requires Valid() && pos < |text| && text[pos] == '"'
      modifies this
      ensures Valid()
      ensures match StringFrom(text, old(pos) + 1)
              case None => kind.None? && pos == |text|
              case Some((v, e)) => kind == Some(Str(v)) && pos == e
      ensures kind.Some? ==> Reads(kind.value, text, old(pos), pos)
      ensures kind.None? ==> forall v, e: nat :: !Reads(Str(v), text, old(pos), e)
    {
      hide Reads;
      ReadStrings(text, pos);
      var _ := Bump();
      var value := "";
      ghost var all := StringFrom(text, pos);
      assert all.Some? ==> "" + all.value.0 == all.value.0;
      while pos < |text| && text[pos] != '"'
        invariant Valid() && all == Resumed(value, StringFrom(text, pos))
        decreases |text| - pos
      {
        var c := StringChar();
        if c.Some? {
          ResumedSnoc(value, c.value, StringFrom(text, pos));
          value := value + [c.value];
        }
      }
      if pos == |text| {
        return None;
      }
      assert value + "" == value;
      var _ := Bump();
      kind := Some(Str(value));
    }

    method NextToken() returns (r: Result<Token>)
      requires Valid() && pos < |text|
      modifies this
      ensures Valid()
      ensures match TokenAt(text, old(pos))
              case Err(d) => r == Err(d)
              case Ok((kind, e)) => r == Ok(Token(kind, SpanAt(text, old(pos), e - old(pos)))) && pos == e
    {
      hide Reads, Begins, StringFrom, EnvClose, AtomEnd;
      BeginsPair(text, pos, '~', '>');
      BeginsPair(text, pos, '$', '{');
      var start, line0, col0 := pos, line, col;
      var single := Punctuation(text[pos]);
      if single.Some? {
        var _ := Bump();
        return Ok(Token(single.value, Span(start, 1, line0, col0)));
      }
      if text[pos] == '~' && pos + 1 < |text| && text[pos + 1] == '>' {
        var _ := Bump();
        var _ := Bump();
        return Ok(Token(Arrow, Span(start, 2, line0, col0)));
      }
      if text[pos] == '"' {
        var kind := LexString();
        if kind.None? {
          return Err(Diag(CfgSyntax, "unterminated string literal", Span(start, pos - start, line0, col0)));
        }
        return Ok(Token(kind.value, Span(start, pos - start, line0, col0)));
      }
      if text[pos] == '$' && pos + 1 < |text| && text[pos + 1] == '{' {
        var kind := LexEnv();
        if kind.None? {
          return Err(Diag(CfgSyntax, "unterminated `${...}` environment reference",
                          Span(start, pos - start, line0, col0)));
        }
        return Ok(Token(kind.value, Span(start, pos - start, line0, col0)));
      }
      var kind := LexAtom();
      return Ok(Token(kind, Span(start, pos - start, line0, col0)));
    }

    /** The separator or token at the cursor. */
    method Piece() returns (r: Result<Token>)
      requires Valid() && pos < |text| && SkipHorizontal(text, pos) == pos
      modifies this
      ensures Valid()
      ensures r.Err? ==> Lex(text, old(pos)) == Err(r.diag)
      ensures r.Ok? ==> old(pos) < pos && Lex(text, old(pos)) == Prepend(r.value, Lex(text, pos))
    {
      ghost var q := pos;
      if Separator(text[pos]) {
        var start, line0, col0 := pos, line, col;
        ConsumeSeparatorRun();
        LexAtSeparator(text, q, q, pos);
        return Ok(Token(Sep, Span(start, pos - start, line0, col0)));
      }
      r := NextToken();
      if r.Ok? {
        LexAtToken(text, q, q, r.value.kind, pos);
      } else {
        LexAtError(text, q, q, r.diag);
      }
    }

    /** The whole text, from the start. */
    method Run() returns (r: Result<seq<Token>>)
      requires Valid() && pos == 0
      modifies this
      ensures r == Lex(text, 0)
      ensures r.Ok? ==> WellLexed(text, r.value, 0)
      ensures r.Err? ==> exists ts :: StopsAfter(text, ts, 0, r.diag)
    {
      if Lex(text, 0).Ok? {
        LexIsFaithful(text, 0);
      } else {
        LexErrorMeans(text, 0);
      }
      var tokens: seq<Token> := [];
      ghost var all := Lex(text, 0);
      assert all.Ok? ==> [] + all.value == all.value;
      while true
        invariant Valid() && Joined(tokens, Lex(text, pos)) == all
        decreases |text| - pos
      {
        SkipIsIdempotent(text, pos);
        SkipBlanks();
        if pos >= |text| {
          return Ok(tokens + [Token(Eof, Span(pos, 0, line, col))]);
        }
        var t := Piece();
        if t.Err? {
          return Err(t.diag);
        }
        JoinedSnoc(tokens, t.value, Lex(text, pos));
        tokens := tokens + [t.value];
      }
    }
  }
}
