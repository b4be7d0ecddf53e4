/** What the lexer's output says about the text, read off the text alone: every token lies where its
    span says and reads as its kind says, and nothing but blanks and comments is left over. The tokens
    the lexer gives are the only ones that fit. */
module FlowSpans {
  import opened Basics
  import opened FlowTokens
  import opened FlowLexer

  // ---------- what a stretch of text is ----------

  /** `k` lies in a comment that starts at `a` or later. */
  ghost predicate Comment(text: string, a: nat, k: nat) {
    exists j :: a <= j <= k < |text| && text[j] == '#' && '\n' !in text[j..k + 1]
  }

  /** Between two tokens: blanks and comments, as far as they go. */
  ghost predicate Gap(text: string, a: nat, b: nat) {
    && a <= b <= |text|
    && (forall k :: a <= k < b ==> text[k] in " \t\r" || Comment(text, a, k))
    && (b < |text| ==> text[b] !in " \t\r" && !Comment(text, a, b))
  }

  /** Newlines, semicolons, blanks and comments, as far as they go. */
  ghost predicate Run(text: string, a: nat, b: nat) {
    && a <= b <= |text|
    && (forall k :: a <= k < b ==> text[k] in " \t\r\n;" || Comment(text, a, k))
    && (b < |text| ==> text[b] !in " \t\r\n;" && !Comment(text, a, b))
  }

  /** What a backslash and the character after it stand for. */
  predicate Escaped(c: char, v: char) {
    || (c == 'n' && v == '\n')
    || (c == 't' && v == '\t')
    || (c == 'r' && v == '\r')
    || (c !in "ntr" && v == c)
  }

  /** String content and the value it stands for, unit by unit. */
  predicate StandsFor(content: string, value: string) {
    if content == [] then value == []
    else if content[0] == '\\' then
      && |content| > 1 && value != []
      && Escaped(content[1], value[0]) && StandsFor(content[2..], value[1..])
    else
      && content[0] != '"' && value != []
      && value[0] == content[0] && StandsFor(content[1..], value[1..])
  }

  /** No atom reaches over the character at `k`. */
  predicate Ends(text: string, k: nat)
    requires k < |text|
  {
    || text[k] in " \t\r\n;#{}()[],=\""
    || (text[k] == '~' && k + 1 < |text| && text[k + 1] == '>')
  }

  predicate OpensReference(text: string, a: nat) {
    a + 1 < |text| && text[a] == '$' && text[a + 1] == '{'
  }

  /** The text from `a` to `b` reads as `kind`. */
  ghost predicate Reads(kind: TokenKind, text: string, a: nat, b: nat) {
    && a <= b <= |text|
    && match kind
       case LBrace => text[a..b] == "{"
       case RBrace => text[a..b] == "}"
       case LParen => text[a..b] == "("
       case RParen => text[a..b] == ")"
       case LBracket => text[a..b] == "["
       case RBracket => text[a..b] == "]"
       case Comma => text[a..b] == ","
       case Equals => text[a..b] == "="
       case Arrow => text[a..b] == "~>"
       case Sep => a < b && text[a] in "\n;" && Run(text, a, b)
       case Str(v) => a + 2 <= b && text[a] == '"' && text[b - 1] == '"' && StandsFor(text[a + 1..b - 1], v)
       case Env(v) => text[a..b] == "${" + v + "}" && '}' !in v
       case Atom(v) =>
         && a < b && text[a..b] == v && !OpensReference(text, a)
         && (forall k :: a <= k < b ==> !Ends(text, k)) && (b < |text| ==> Ends(text, b))
       case Eof => a == b == |text|
  }

  /** The line counts the newlines before the token, the column the characters since the last one. */
  ghost predicate Located(text: string, span: Span) {
    && span.offset <= |text|
    && span.line == multiset(text[..span.offset])['\n'] + 1
    && 1 <= span.col <= span.offset + 1
    && '\n' !in text[span.offset + 1 - span.col..span.offset]
    && (span.col <= span.offset ==> text[span.offset - span.col] == '\n')
  }

  function EndBefore(ts: seq<Token>, i: nat, from: nat): nat
    requires i <= |ts|
  {
    if i == 0 then from else ts[i - 1].span.End()
  }

  ghost predicate Placed(text: string, ts: seq<Token>, i: nat, from: nat)
    requires i < |ts|
  {
    var kind, span := ts[i].kind, ts[i].span;
    && Gap(text, EndBefore(ts, i, from), span.offset)
    && Reads(kind, text, span.offset, span.End())
    && Located(text, span)
  }

  /** The tokens cover the text from `from` on, and only the last one is the end. */
  ghost predicate WellLexed(text: string, ts: seq<Token>, from: nat) {
    && ts != []
    && (forall i :: 0 <= i < |ts| ==> Placed(text, ts, i, from))
    && (forall i :: 0 <= i < |ts| ==> (ts[i].kind.Eof? <==> i == |ts| - 1))
  }

  // ---------- gaps and separators ----------

  lemma {:induction false} CommentFrom(text: string, a: nat, b: nat, k: nat)
    requires a < b <= |text| && b <= k
    requires '#' !in text[a..b] || (b < |text| && text[b] == '\n')
    ensures Comment(text, a, k) <==> Comment(text, b, k)
  {
    if Comment(text, a, k) {
      var j :| a <= j <= k < |text| && text[j] == '#' && '\n' !in text[j..k + 1];
    }
  }

  lemma {:induction false} CommentTo(text: string, p: nat, k: nat)
    requires p < |text| && text[p] == '#' && p <= k < LineEnd(text, p)
    ensures Comment(text, p, k)
  {
    assert '\n' !in text[p..k + 1];
  }

  lemma {:induction false} GapStep(text: string, p: nat, e: nat)
    requires p < |text| && text[p] in " \t\r" && Gap(text, p + 1, e)
    ensures Gap(text, p, e)
  {
    forall k | p < k <= e
      ensures Comment(text, p, k) <==> Comment(text, p + 1, k)
    {
      CommentFrom(text, p, p + 1, k);
    }
  }

  lemma {:induction false} SkipsGap(text: string, p: nat)
    requires p <= |text|
    ensures Gap(text, p, SkipHorizontal(text, p))
    decreases |text| - p
  {
    var e := SkipHorizontal(text, p);
    if p < |text| && Blank(text[p]) {
      SkipsGap(text, p + 1);
      GapStep(text, p, e);
    } else if p < |text| && text[p] == '#' {
      assert SkipHorizontal(text, LineEnd(text, p)) == LineEnd(text, p);
      GapOverComment(text, p);
    }
  }

  lemma {:induction false} GapOverComment(text: string, p: nat)
    requires p < |text| && text[p] == '#'
    ensures Gap(text, p, LineEnd(text, p))
  {
    hide LineEnd;
    var e := LineEnd(text, p);
    forall k | p <= k < e
      ensures Comment(text, p, k)
    {
      CommentTo(text, p, k);
    }
  }

  lemma {:induction false} RunStep(text: string, p: nat, e: nat)
    requires p < |text| && text[p] in " \t\r\n;" && Run(text, p + 1, e)
    ensures Run(text, p, e)
  {
    forall k | p < k <= e
      ensures Comment(text, p, k) <==> Comment(text, p + 1, k)
    {
      CommentFrom(text, p, p + 1, k);
    }
  }

  lemma {:induction false} RunOverComment(text: string, p: nat, q: nat, e: nat)
    requires p < |text| && text[p] == '#' && q == LineEnd(text, p) && Run(text, q, e)
    ensures Run(text, p, e)
  {
    hide LineEnd;
    forall k | p <= k < q
      ensures Comment(text, p, k)
    {
      CommentTo(text, p, k);
    }
    if q < |text| {
      forall k | q <= k <= e
        ensures Comment(text, p, k) <==> Comment(text, q, k)
      {
        CommentFrom(text, p, q, k);
      }
    }
  }

  lemma {:induction false} SeparatorEndRuns(text: string, p: nat)
    requires p <= |text|
    ensures Run(text, p, SeparatorEnd(text, p))
    decreases |text| - p
  {
    hide Run;
    var e := SeparatorEnd(text, p);
    if p < |text| && (Blank(text[p]) || Separator(text[p])) {
      SeparatorEndRuns(text, p + 1);
      RunStep(text, p, e);
    } else if p < |text| && text[p] == '#' {
      var q := LineEnd(text, p);
      SeparatorEndRuns(text, q);
      RunOverComment(text, p, q, e);
    } else {
      EmptyRun(text, p);
    }
  }

  lemma {:induction false} EmptyRun(text: string, p: nat)
    requires p <= |text| && (p < |text| ==> text[p] !in " \t\r\n;#")
    ensures Run(text, p, p)
  {}

  lemma {:induction false} OneGap(text: string, a: nat, b: nat, c: nat)
    requires Gap(text, a, b) && Gap(text, a, c)
    ensures b == c
  {
  }

  lemma {:induction false} OneRun(text: string, a: nat, b: nat, c: nat)
    requires Run(text, a, b) && Run(text, a, c)
    ensures b == c
  {
  }

  // ---------- strings ----------

  lemma {:induction false} UnescapeMeans(c: char, v: char)
    ensures Unescape(c) == v <==> Escaped(c, v)
  {}

  /** The content read from `p` is what stands between `p` and the first closing quote. */
  lemma {:induction false} StringFromMeans(text: string, p: nat, v: string, e: nat)
    requires p <= |text|
    ensures StringFrom(text, p) == Some((v, e)) <==> Closes(text, p, v, e)
  {
    if StringFrom(text, p) == Some((v, e)) {
      ReadStringCloses(text, p, v, e);
    }
    if Closes(text, p, v, e) {
      ClosingIsRead(text, p, v, e);
    }
  }

  /** Content with value `v` runs from `p` up to a quote just before `e`. */
  predicate Closes(text: string, p: nat, v: string, e: nat) {
    p < e <= |text| && text[e - 1] == '"' && StandsFor(text[p..e - 1], v)
  }

  lemma {:induction false} ReadStringCloses(text: string, p: nat, v: string, e: nat)
    requires p <= |text| && StringFrom(text, p) == Some((v, e))
    ensures Closes(text, p, v, e)
    decreases |text| - p
  {
    var content := text[p..e - 1];
    if text[p] == '"' {
    } else if text[p] == '\\' {
      ReadStringCloses(text, p + 2, v[1..], e);
      UnescapeMeans(text[p + 1], v[0]);
      assert content[2..] == text[p + 2..e - 1];
    } else {
      ReadStringCloses(text, p + 1, v[1..], e);
      assert content[1..] == text[p + 1..e - 1];
    }
  }

  lemma {:induction false} ClosingIsRead(text: string, p: nat, v: string, e: nat)
    requires p <= |text| && Closes(text, p, v, e)
    ensures StringFrom(text, p) == Some((v, e))
    decreases |text| - p
  {
    var content := text[p..e - 1];
    if content == [] {
    } else if content[0] == '\\' {
      assert content[2..] == text[p + 2..e - 1];
      UnescapeMeans(text[p + 1], v[0]);
      ClosingIsRead(text, p + 2, v[1..], e);
      assert v == [v[0]] + v[1..];
    } else {
      assert content[1..] == text[p + 1..e - 1];
      ClosingIsRead(text, p + 1, v[1..], e);
      assert v == [v[0]] + v[1..];
    }
  }

  // ---------- atoms ----------

  lemma {:induction false} EndsMeans(text: string, k: nat)
    requires k < |text|
    ensures StopsAtom(text, k) <==> Ends(text, k)
  {
    BeginsPair(text, k, '~', '>');
  }

  // ---------- tokens ----------

  lemma {:induction false} PunctuationReads(text: string, p: nat)
    requires p < |text| && Punctuation(text[p]).Some?
    ensures Reads(Punctuation(text[p]).value, text, p, p + 1)
  {
    assert text[p..p + 1] == [text[p]];
  }

  lemma {:induction false} StringReads(text: string, p: nat, v: string, e: nat)
    requires p < |text| && text[p] == '"'
    ensures StringFrom(text, p + 1) == Some((v, e)) <==> Reads(Str(v), text, p, e)
  {
    StringFromMeans(text, p + 1, v, e);
  }

  lemma {:induction false} EnvReads(text: string, p: nat)
    requires Begins(text, p, "${") && EnvClose(text, p + 2).Some?
    ensures var e := EnvClose(text, p + 2).value;
            Reads(Env(text[p + 2..e]), text, p, e + 1)
  {
    var e := EnvClose(text, p + 2).value;
    assert text[p..e + 1] == text[p..p + 2] + text[p + 2..e] + [text[e]];
  }

  lemma {:induction false} AtomReads(text: string, p: nat)
    requires p < |text| && !StopsAtom(text, p) && !Begins(text, p, "${")
    ensures Reads(Atom(text[p..AtomEnd(text, p)]), text, p, AtomEnd(text, p))
  {
    var e := AtomEnd(text, p);
    BeginsPair(text, p, '$', '{');
    forall k | p <= k <= e && k < |text|
      ensures StopsAtom(text, k) <==> Ends(text, k)
    {
      EndsMeans(text, k);
    }
  }

  /** The token read at `p` reads as its kind over exactly the text it consumed. */
  lemma {:induction false} TokenReads(text: string, p: nat)
    requires p < |text| && !Blank(text[p]) && !Separator(text[p]) && text[p] != '#'
    requires TokenAt(text, p).Ok?
    ensures var (kind, e) := TokenAt(text, p).value;
            p < e <= |text| && Reads(kind, text, p, e) && !kind.Sep? && !kind.Eof?
  {
    TokenAdvances(text, p);
    if Punctuation(text[p]).Some? {
      PunctuationReads(text, p);
    } else if Begins(text, p, "~>") {
    } else if text[p] == '"' {
      var (v, e) := StringFrom(text, p + 1).value;
      StringReads(text, p, v, e);
    } else if Begins(text, p, "${") {
      EnvReads(text, p);
    } else {
      assert !Structural(text[p]);
      AtomReads(text, p);
    }
  }

  lemma {:induction false} ReadsPunctuation(kind: TokenKind, text: string, p: nat, e: nat)
    requires Reads(kind, text, p, e) && !kind.Sep? && !kind.Str? && !kind.Env? && !kind.Atom? && !kind.Eof? && !kind.Arrow?
    ensures e == p + 1 && Punctuation(text[p]) == Some(kind)
  {
    assert text[p..e][0] == text[p];
  }

  lemma {:induction false} ReadsEnv(text: string, p: nat, v: string, e: nat)
    requires Reads(Env(v), text, p, e)
    ensures p + 2 < e && text[p] == '$' && text[p + 1] == '{' && Begins(text, p, "${")
    ensures EnvClose(text, p + 2) == Some(e - 1) && text[p + 2..e - 1] == v
  {
    var s := text[p..e];
    assert s[0] == text[p] && s[1] == text[p + 1] && s[|s| - 1] == text[e - 1];
    BeginsPair(text, p, '$', '{');
    forall i | 0 <= i < |v|
      ensures v[i] == text[p + 2..e - 1][i]
    {
      assert v[i] == s[2 + i] == text[p + 2 + i];
    }
    assert text[p + 2..e - 1] == v;
    EnvCloses(text, p + 2, e - 1);
  }

  lemma {:induction false} EnvCloses(text: string, p: nat, c: nat)
    requires p <= c < |text| && text[c] == '}' && '}' !in text[p..c]
    ensures EnvClose(text, p) == Some(c)
    decreases c - p
  {
    if p < c {
      assert text[p] in text[p..c];
      assert text[p + 1..c] == text[p..c][1..];
      EnvCloses(text, p + 1, c);
    }
  }

  lemma {:induction false} ReadsAtom(text: string, p: nat, v: string, e: nat)
    requires Reads(Atom(v), text, p, e)
    ensures p < |text| && !StopsAtom(text, p) && !Begins(text, p, "${") && AtomEnd(text, p) == e
  {
    BeginsPair(text, p, '$', '{');
    EndsMeans(text, p);
    var c := AtomEnd(text, p);
    if c < e {
      EndsMeans(text, c);
    } else if e < c {
      EndsMeans(text, e);
    }
  }

  lemma {:induction false} ReadsArrow(text: string, p: nat, e: nat)
    requires Reads(Arrow, text, p, e)
    ensures e == p + 2 && text[p] == '~' && Begins(text, p, "~>")
  {
    assert text[p..e][0] == text[p];
  }

  lemma {:induction false} ReadsString(text: string, p: nat, v: string, e: nat)
    requires Reads(Str(v), text, p, e)
    ensures p + 2 <= e && text[p] == '"' && StringFrom(text, p + 1) == Some((v, e))
  {
    StringReads(text, p, v, e);
  }

  /** What reads as a token at `p` is the token the lexer finds there. */
  lemma {:induction false} ReadsIsToken(kind: TokenKind, text: string, p: nat, e: nat)
    requires Reads(kind, text, p, e) && !kind.Sep? && !kind.Eof?
    ensures p < e && !Blank(text[p]) && !Separator(text[p]) && text[p] != '#'
    ensures TokenAt(text, p) == Ok((kind, e))
  {
    ReadsInside(kind, text, p, e);
    hide Reads, Begins, StringFrom, EnvClose, AtomEnd, Ends, StandsFor, SpanAt;
    BeginsPair(text, p, '~', '>');
    match kind
    case Str(v) => ReadsString(text, p, v, e);
    case Env(v) => ReadsEnv(text, p, v, e);
    case Atom(v) => ReadsAtom(text, p, v, e);
    case Arrow => ReadsArrow(text, p, e);
    case _ => ReadsPunctuation(kind, text, p, e);
  }

  lemma {:induction false} ReadsInside(kind: TokenKind, text: string, p: nat, e: nat)
    requires Reads(kind, text, p, e) && !kind.Eof?
    ensures p < e <= |text| && (kind.Atom? ==> kind.text == text[p..e])
  {}

  // ---------- positions ----------

  lemma {:induction false} NewlinesCount(s: string)
    ensures Newlines(s) == multiset(s)['\n']
    decreases |s|
  {
    if s == [] {
    } else {
      NewlinesCount(s[..|s| - 1]);
      assert s == s[..|s| - 1] + [s[|s| - 1]];
    }
  }

  lemma {:induction false} SpanAtLocates(text: string, p: nat, len: nat)
    requires p <= |text|
    ensures Located(text, SpanAt(text, p, len))
  {
    NewlinesCount(text[..p]);
  }

  lemma {:induction false} OneLocation(text: string, a: Span, b: Span)
    requires Located(text, a) && Located(text, b) && a.offset == b.offset && a.len == b.len
    ensures a == b
  {
  }

  lemma {:induction false} SpanIs(text: string, span: Span)
    requires Located(text, span)
    ensures span == SpanAt(text, span.offset, span.len)
  {
    SpanAtLocates(text, span.offset, span.len);
    OneLocation(text, span, SpanAt(text, span.offset, span.len));
  }

  // ---------- the whole text ----------

  lemma {:induction false} PlacedCons(text: string, t: Token, ts: seq<Token>, from: nat, i: nat)
    requires i < |ts|
    ensures Placed(text, [t] + ts, i + 1, from) <==> Placed(text, ts, i, t.span.End())
  {
    assert ([t] + ts)[i + 1] == ts[i];
  }

  lemma {:induction false} WellLexedCons(text: string, t: Token, ts: seq<Token>, from: nat)
    requires !t.kind.Eof?
    ensures WellLexed(text, [t] + ts, from) <==>
            WellLexed(text, ts, t.span.End()) && Placed(text, [t] + ts, 0, from)
  {
    hide Placed;
    var us := [t] + ts;
    forall i | 0 <= i < |ts|
      ensures Placed(text, us, i + 1, from) <==> Placed(text, ts, i, t.span.End())
      ensures us[i + 1] == ts[i]
    {
      PlacedCons(text, t, ts, from, i);
    }
    if WellLexed(text, us, from) {
      assert us[0].kind.Eof? <==> |us| == 1;
      forall i | 0 <= i < |ts|
        ensures Placed(text, ts, i, t.span.End()) && (ts[i].kind.Eof? <==> i == |ts| - 1)
      {
        assert Placed(text, us, i + 1, from) && us[i + 1] == ts[i];
      }
    }
    if WellLexed(text, ts, t.span.End()) && Placed(text, us, 0, from) {
      forall i | 0 <= i < |us|
        ensures Placed(text, us, i, from) && (us[i].kind.Eof? <==> i == |us| - 1)
      {
        if i > 0 {
          assert Placed(text, ts, i - 1, t.span.End()) && us[i - 1 + 1] == ts[i - 1];
        }
      }
    }
  }

  /** One separator or token, with the gap before it. */
  lemma {:induction false} FirstPlaced(text: string, p: nat, kind: TokenKind, q: nat, e: nat, ts: seq<Token>)
    requires p <= q < e <= |text| && Gap(text, p, q) && Reads(kind, text, q, e)
    ensures Placed(text, [Token(kind, SpanAt(text, q, e - q))] + ts, 0, p)
  {
    SpanAtLocates(text, q, e - q);
  }

  /** For every text that lexes, the tokens cover it, each reading as its kind over its span. */
  lemma {:induction false} LexIsFaithful(text: string, p: nat)
    requires p <= |text| && Lex(text, p).Ok?
    ensures WellLexed(text, Lex(text, p).value, p)
    decreases |text| - p
  {
    hide Gap, Reads, WellLexed;
    var q := SkipHorizontal(text, p);
    SkipsGap(text, p);
    if q == |text| {
      EndIsLexed(text, p);
    } else if Separator(text[q]) {
      SeparatorReads(text, q);
      LexAtSeparator(text, p, q, SeparatorEnd(text, q));
      LexConsFaithful(text, p, Sep, q, SeparatorEnd(text, q));
    } else {
      var (kind, e) := TokenAt(text, q).value;
      TokenReads(text, q);
      LexAtToken(text, p, q, kind, e);
      LexConsFaithful(text, p, kind, q, e);
    }
  }

  lemma {:induction false} EndIsLexed(text: string, p: nat)
    requires p <= |text| && SkipHorizontal(text, p) == |text|
    ensures Lex(text, p) == Ok([Token(Eof, SpanAt(text, |text|, 0))])
    ensures WellLexed(text, [Token(Eof, SpanAt(text, |text|, 0))], p)
  {
    SkipsGap(text, p);
    SpanAtLocates(text, |text|, 0);
    assert Placed(text, [Token(Eof, SpanAt(text, |text|, 0))], 0, p);
  }

  lemma {:induction false} SeparatorReads(text: string, p: nat)
    requires p < |text| && Separator(text[p])
    ensures Reads(Sep, text, p, SeparatorEnd(text, p))
  {
    SeparatorEndRuns(text, p);
  }

  lemma {:induction false} LexConsFaithful(text: string, p: nat, kind: TokenKind, q: nat, e: nat)
    requires p <= q < e <= |text| && !kind.Eof? && Lex(text, p).Ok?
    requires Gap(text, p, q) && Reads(kind, text, q, e)
    requires Lex(text, p) == Prepend(Token(kind, SpanAt(text, q, e - q)), Lex(text, e))
    ensures WellLexed(text, Lex(text, p).value, p)
    decreases |text| - p, 0
  {
    hide Lex, Gap, Reads, Placed, WellLexed;
    LexIsFaithful(text, e);
    var ts := Lex(text, e).value;
    FirstPlaced(text, p, kind, q, e, ts);
    WellLexedCons(text, Token(kind, SpanAt(text, q, e - q)), ts, p);
  }

  /** Tokens that cover the text are the ones the lexer gives. */
  lemma {:induction false} LexIsOnly(text: string, ts: seq<Token>, p: nat)
    requires p <= |text| && WellLexed(text, ts, p)
    ensures Lex(text, p) == Ok(ts)
    decreases |ts|
  {
    hide Lex, Gap, Reads, Located;
    var kind, span := ts[0].kind, ts[0].span;
    var q, e := span.offset, span.End();
    assert Placed(text, ts, 0, p);
    SkipsGap(text, p);
    OneGap(text, p, q, SkipHorizontal(text, p));
    SpanIs(text, span);
    if kind.Eof? {
      ReadsEnd(text, q, e);
      EndIsLexed(text, p);
      assert ts == [Token(kind, span)];
    } else {
      assert ts == [ts[0]] + ts[1..];
      WellLexedCons(text, ts[0], ts[1..], p);
      ReadsInside(kind, text, q, e);
      LexIsOnly(text, ts[1..], e);
      FirstIsLexed(text, p, kind, q, e);
    }
  }

  lemma {:induction false} ReadsEnd(text: string, p: nat, e: nat)
    requires Reads(Eof, text, p, e)
    ensures p == e == |text|
  {}

  lemma {:induction false} FirstIsLexed(text: string, p: nat, kind: TokenKind, q: nat, e: nat)
    requires p <= |text| && SkipHorizontal(text, p) == q && Reads(kind, text, q, e) && !kind.Eof?
    ensures q < e && Lex(text, p) == Prepend(Token(kind, SpanAt(text, q, e - q)), Lex(text, e))
  {
    if kind.Sep? {
      SeparatorEndRuns(text, q);
      OneRun(text, q, e, SeparatorEnd(text, q));
      LexAtSeparator(text, p, q, e);
    } else {
      ReadsIsToken(kind, text, q, e);
      LexAtToken(text, p, q, kind, e);
    }
  }

  /** A text lexes to `ts` exactly when `ts` covers it. */
  lemma {:induction false} LexIff(text: string, ts: seq<Token>)
    ensures Lex(text, 0) == Ok(ts) <==> WellLexed(text, ts, 0)
  {
    if Lex(text, 0) == Ok(ts) {
      LexIsFaithful(text, 0);
    }
    if WellLexed(text, ts, 0) {
      LexIsOnly(text, ts, 0);
    }
  }

  // ---------- complaints ----------

  /** A quote or a `${` at `p` that nothing closes. */
  ghost predicate Unclosed(text: string, p: nat, message: string) {
    || (&& p < |text| && text[p] == '"' && message == "unterminated string literal"
        && forall v, e :: !Reads(Str(v), text, p, e))
    || (&& OpensReference(text, p) && message == "unterminated `${...}` environment reference"
        && '}' !in text[p..])
  }

  /** The tokens `ts` cover the text from `from` up to the gap before the complaint, which spans what
      is left of it. */
  ghost predicate StopsAfter(text: string, ts: seq<Token>, from: nat, d: Diag) {
    && (forall i :: 0 <= i < |ts| ==> Placed(text, ts, i, from))
    && (forall i :: 0 <= i < |ts| ==> !ts[i].kind.Eof?)
    && Gap(text, EndBefore(ts, |ts|, from), d.span.offset)
    && Located(text, d.span) && d.span.End() == |text|
    && d.code == CfgSyntax && Unclosed(text, d.span.offset, d.message)
  }

  lemma {:induction false} TokenErrorMeans(text: string, p: nat)
    requires p < |text| && TokenAt(text, p).Err?
    ensures var d := TokenAt(text, p).diag;
            && d.code == CfgSyntax && d.span == SpanAt(text, p, |text| - p)
            && Unclosed(text, p, d.message)
  {
    BeginsPair(text, p, '$', '{');
    if text[p] == '"' {
      forall v, e
        ensures !Reads(Str(v), text, p, e)
      {
        StringReads(text, p, v, e);
      }
    } else {
      assert text[p..] == text[p..p + 2] + text[p + 2..];
    }
  }

  lemma {:induction false} StopsCons(text: string, t: Token, ts: seq<Token>, from: nat, d: Diag)
    requires StopsAfter(text, ts, t.span.End(), d) && Placed(text, [t] + ts, 0, from) && !t.kind.Eof?
    ensures StopsAfter(text, [t] + ts, from, d)
  {
    hide Gap, Placed, Located, Unclosed;
    forall i | 0 <= i < |ts| + 1
      ensures Placed(text, [t] + ts, i, from) && !([t] + ts)[i].kind.Eof?
    {
      if i > 0 {
        PlacedCons(text, t, ts, from, i - 1);
      }
    }
  }

  /** Lexing fails only where the tokens so far leave a quote that is never closed or a `${` without
      any later `}`, and the complaint spans from there to the end. */
  lemma {:induction false} LexErrorMeans(text: string, p: nat)
    requires p <= |text| && Lex(text, p).Err?
    ensures exists ts :: StopsAfter(text, ts, p, Lex(text, p).diag)
    decreases |text| - p
  {
    var q := SkipHorizontal(text, p);
    SkipsGap(text, p);
    if Separator(text[q]) {
      SeparatorReads(text, q);
      LexAtSeparator(text, p, q, SeparatorEnd(text, q));
      LaterError(text, p, Sep, q, SeparatorEnd(text, q));
    } else if TokenAt(text, q).Ok? {
      var (kind, e) := TokenAt(text, q).value;
      TokenReads(text, q);
      LexAtToken(text, p, q, kind, e);
      LaterError(text, p, kind, q, e);
    } else {
      TokenErrorMeans(text, q);
      SpanAtLocates(text, q, |text| - q);
      assert StopsAfter(text, [], p, Lex(text, p).diag);
    }
  }

  lemma {:induction false} LaterError(text: string, p: nat, kind: TokenKind, q: nat, e: nat)
    requires p <= q < e <= |text| && !kind.Eof? && Lex(text, p).Err?
    requires Gap(text, p, q) && Reads(kind, text, q, e)
    requires Lex(text, p) == Prepend(Token(kind, SpanAt(text, q, e - q)), Lex(text, e))
    ensures exists ts :: StopsAfter(text, ts, p, Lex(text, p).diag)
    decreases |text| - p, 0
  {
    hide Lex, Gap, Reads, Placed, StopsAfter;
    LexErrorMeans(text, e);
    var t := Token(kind, SpanAt(text, q, e - q));
    var ts :| StopsAfter(text, ts, e, Lex(text, e).diag);
    FirstPlaced(text, p, kind, q, e, ts);
    StopsCons(text, t, ts, p, Lex(text, e).diag);
  }
}
