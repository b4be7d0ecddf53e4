/** The hand-written Flow lexer over a text of single-byte characters. */
module FlowLexer {
  import opened Basics
  import opened FlowTokens

  // ---------- character classes ----------

  predicate Blank(c: char) {
    c == ' ' || c == '\t' || c == '\r'
  }

  predicate Separator(c: char) {
    c == '\n' || c == ';'
  }

  predicate Structural(c: char) {
    c in "{}()[],="
  }

  /** An atom ends before the character at `p`. */
  predicate StopsAtom(text: string, p: nat)
    requires p < |text|
  {
    || Blank(text[p]) || Separator(text[p]) || text[p] == '#' || Structural(text[p]) || text[p] == '"'
    || Begins(text, p, "~>")
  }

  predicate Begins(text: string, p: nat, word: string) {
    p + |word| <= |text| && text[p..p + |word|] == word
  }

  lemma {:induction false} BeginsPair(text: string, p: nat, a: char, b: char)
    ensures Begins(text, p, [a, b]) <==> p + 1 < |text| && text[p] == a && text[p + 1] == b
  {
    if p + 2 <= |text| {
      assert text[p..p + 2] == [text[p], text[p + 1]];
    }
  }

  // ---------- positions ----------

  function Newlines(text: string): nat {
    if text == [] then 0
    else Newlines(text[..|text| - 1]) + if text[|text| - 1] == '\n' then 1 else 0
  }

  /** Where the line holding offset `p` starts. */
  function LineStart(text: string, p: nat): (q: nat)
    requires p <= |text|
    ensures q <= p && '\n' !in text[q..p]
    ensures q == 0 || text[q - 1] == '\n'
  {
    if p == 0 || text[p - 1] == '\n' then p
    else
      var q := LineStart(text, p - 1);
      assert text[q..p] == text[q..p - 1] + [text[p - 1]];
      q
  }

  function SpanAt(text: string, p: nat, len: nat): Span
    requires p <= |text|
  {
    Span(p, len, 1 + Newlines(text[..p]), 1 + p - LineStart(text, p))
  }

  // ---------- scanning ----------

  /** The end of the comment starting at `p`: its newline, or the end of input. */
  function LineEnd(text: string, p: nat): (e: nat)
    requires p <= |text|
    ensures p <= e <= |text|
    ensures forall q :: p <= q < e ==> text[q] != '\n'
    ensures e < |text| ==> text[e] == '\n'
    decreases |text| - p
  {
    if p == |text| || text[p] == '\n' then p else LineEnd(text, p + 1)
  }

  function SkipHorizontal(text: string, p: nat): (e: nat)
    requires p <= |text|
    ensures p <= e <= |text|
    ensures e < |text| ==> !Blank(text[e]) && text[e] != '#'
    decreases |text| - p
  {
    if p == |text| then p
    else if Blank(text[p]) then SkipHorizontal(text, p + 1)
    else if text[p] == '#' then SkipHorizontal(text, LineEnd(text, p))
    else p
  }

  function SeparatorEnd(text: string, p: nat): (e: nat)
    requires p <= |text|
    ensures p <= e <= |text|
    ensures p < |text| && Separator(text[p]) ==> p < e
    ensures e < |text| ==> !Blank(text[e]) && !Separator(text[e]) && text[e] != '#'
    decreases |text| - p
  {
    if p == |text| then p
    else if Blank(text[p]) || Separator(text[p]) then SeparatorEnd(text, p + 1)
    else if text[p] == '#' then SeparatorEnd(text, LineEnd(text, p))
    else p
  }

  function AtomEnd(text: string, p: nat): (e: nat)
    requires p <= |text|
    ensures p <= e <= |text|
    ensures forall q :: p <= q < e ==> !StopsAtom(text, q)
    ensures e < |text| ==> StopsAtom(text, e)
    decreases |text| - p
  {
    if p == |text| || StopsAtom(text, p) then p else AtomEnd(text, p + 1)
  }

  function Unescape(c: char): char {
    match c
    case 'n' => '\n'
    case 't' => '\t'
    case 'r' => '\r'
    case _ => c
  }

  /** Read string content from `p`: the value and the offset past the closing quote. */
  function StringFrom(text: string, p: nat): (r: Option<(string, nat)>)
    requires p <= |text|
    ensures r.Some? ==> p < r.value.1 <= |text| && text[r.value.1 - 1] == '"'
    decreases |text| - p
  {
    if p == |text| then None
    else if text[p] == '"' then Some(("", p + 1))
    else if text[p] == '\\' then
      if p + 1 == |text| then None
      else
        match StringFrom(text, p + 2)
        case None => None
        case Some((v, e)) => Some(([Unescape(text[p + 1])] + v, e))
    else
      match StringFrom(text, p + 1)
      case None => None
      case Some((v, e)) => Some(([text[p]] + v, e))
  }

  /** The offset of the `}` closing an environment reference. */
  function EnvClose(text: string, p: nat): (r: Option<nat>)
    requires p <= |text|
    ensures r.Some? ==> p <= r.value < |text| && text[r.value] == '}' && '}' !in text[p..r.value]
    ensures r.None? ==> '}' !in text[p..]
    decreases |text| - p
  {
    if p == |text| then None
    else if text[p] == '}' then Some(p)
    else
      var r := EnvClose(text, p + 1);
      assert text[p..] == [text[p]] + text[p + 1..];
      assert r.Some? ==> text[p..r.value] == [text[p]] + text[p + 1..r.value];
      r
  }

  function Punctuation(c: char): Option<TokenKind> {
    match c
    case '{' => Some(LBrace)
    case '}' => Some(RBrace)
    case '(' => Some(LParen)
    case ')' => Some(RParen)
    case '[' => Some(LBracket)
    case ']' => Some(RBracket)
    case ',' => Some(Comma)
    case '=' => Some(Equals)
    case _ => None
  }

  function StringAt(text: string, p: nat): Result<(TokenKind, nat)>
    requires p < |text|
  {
    match StringFrom(text, p + 1)
    case None => Err(Diag(CfgSyntax, "unterminated string literal", SpanAt(text, p, |text| - p)))
    case Some((v, e)) => Ok((Str(v), e))
  }

  function EnvAt(text: string, p: nat): Result<(TokenKind, nat)>
    requires p + 2 <= |text|
  {
    match EnvClose(text, p + 2)
    case None => Err(Diag(CfgSyntax, "unterminated `${...}` environment reference", SpanAt(text, p, |text| - p)))
    case Some(e) =>
      var end: nat := e + 1;
      Ok((Env(text[p + 2..e]), end))
  }

  /** The token starting at `p`, with the offset past it; or the complaint about it. */
  function TokenAt(text: string, p: nat): (r: Result<(TokenKind, nat)>)
    requires p < |text|
  {
    var single := Punctuation(text[p]);
    if single.Some? then Ok((single.value, p + 1))
    else if Begins(text, p, "~>") then Ok((Arrow, p + 2))
    else if text[p] == '"' then StringAt(text, p)
    else if Begins(text, p, "${") then EnvAt(text, p)
    else
      var e := AtomEnd(text, p);
      Ok((Atom(text[p..e]), e))
  }

  /** At a character that is neither blank, nor separator, nor comment, a token is never empty. */
  lemma {:induction false} TokenAdvances(text: string, p: nat)
    requires p < |text| && !Blank(text[p]) && !Separator(text[p]) && text[p] != '#'
    requires TokenAt(text, p).Ok?
    ensures p < TokenAt(text, p).value.1 <= |text|
    ensures !TokenAt(text, p).value.0.Sep? && !TokenAt(text, p).value.0.Eof?
  {
  }

  function Prepend(t: Token, r: Result<seq<Token>>): Result<seq<Token>> {
    match r
    case Ok(ts) => Ok([t] + ts)
    case Err(d) => Err(d)
  }

  /** All tokens from `p` on. */
  function Lex(text: string, p: nat): (r: Result<seq<Token>>)
    requires p <= |text|
    decreases |text| - p
  {
    var q := SkipHorizontal(text, p);
    if q == |text| then Ok([Token(Eof, SpanAt(text, q, 0))])
    else if Separator(text[q]) then
      var e := SeparatorEnd(text, q);
      Prepend(Token(Sep, SpanAt(text, q, e - q)), Lex(text, e))
    else
      match TokenAt(text, q)
      case Err(d) => Err(d)
      case Ok((kind, e)) =>
        TokenAdvances(text, q);
        Prepend(Token(kind, SpanAt(text, q, e - q)), Lex(text, e))
  }

  lemma {:induction false} LexAtSeparator(text: string, p: nat, q: nat, e: nat)
    requires p <= |text| && SkipHorizontal(text, p) == q < |text| && Separator(text[q]) && SeparatorEnd(text, q) == e
    ensures Lex(text, p) == Prepend(Token(Sep, SpanAt(text, q, e - q)), Lex(text, e))
  {}

  lemma {:induction false} LexAtToken(text: string, p: nat, q: nat, kind: TokenKind, e: nat)
    requires p <= |text| && SkipHorizontal(text, p) == q < |text| && !Separator(text[q])
    requires TokenAt(text, q) == Ok((kind, e))
    ensures q < e <= |text| && Lex(text, p) == Prepend(Token(kind, SpanAt(text, q, e - q)), Lex(text, e))
  {
    TokenAdvances(text, q);
  }

  lemma {:induction false} LexAtError(text: string, p: nat, q: nat, d: Diag)
    requires p <= |text| && SkipHorizontal(text, p) == q < |text| && !Separator(text[q]) && TokenAt(text, q) == Err(d)
    ensures Lex(text, p) == Err(d)
  {}
}
