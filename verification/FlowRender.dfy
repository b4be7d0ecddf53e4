/** Writing tokens back to text, and reading them again. */
module FlowRender {
  import opened Basics
  import opened FlowTokens
  import opened FlowLexer

  function EscapeChar(c: char): string {
    if c == '"' || c == '\\' then ['\\', c] else [c]
  }

  function Escape(v: string): string {
    if v == [] then [] else EscapeChar(v[0]) + Escape(v[1..])
  }

  function Spelling(kind: TokenKind): string {
    match kind
    case LBrace => "{"
    case RBrace => "}"
    case LParen => "("
    case RParen => ")"
    case LBracket => "["
    case RBracket => "]"
    case Comma => ","
    case Equals => "="
    case Arrow => "~>"
    case Sep => "\n"
    case Str(v) => "\"" + Escape(v) + "\""
    case Env(v) => "${" + v + "}"
    case Atom(v) => v
    case Eof => ""
  }

  /** The kinds a text can contain: strings are free, atoms and references are not. */
  predicate Lexable(kind: TokenKind) {
    match kind
    case Env(v) => '}' !in v
    case Atom(v) => v != [] && !Begins(v, 0, "${") && forall q :: 0 <= q < |v| ==> !StopsAtom(v, q)
    case Eof => false
    case _ => true
  }

  ghost predicate Renderable(ks: seq<TokenKind>) {
    && (forall i :: 0 <= i < |ks| ==> Lexable(ks[i]))
    && NoDoubleSep(ks)
  }

  ghost predicate NoDoubleSep(ks: seq<TokenKind>) {
    forall i :: 0 < i < |ks| ==> !(ks[i - 1].Sep? && ks[i].Sep?)
  }

  function Render(ks: seq<TokenKind>): string {
    if ks == [] then [] else Spelling(ks[0]) + " " + Render(ks[1..])
  }

  function Kinds(ts: seq<Token>): seq<TokenKind> {
    seq(|ts|, i requires 0 <= i < |ts| => ts[i].kind)
  }

  // ---------- scanning what was written ----------

  ghost predicate At(text: string, p: nat, s: string) {
    p + |s| <= |text| && forall i :: 0 <= i < |s| ==> text[p + i] == s[i]
  }

  lemma {:induction false} AtSplit(text: string, p: nat, s: string, t: string)
    requires At(text, p, s + t)
    ensures At(text, p, s) && At(text, p + |s|, t)
  {
    forall i | 0 <= i < |s|
      ensures text[p + i] == s[i]
    {
      assert (s + t)[i] == s[i];
    }
    forall i | 0 <= i < |t|
      ensures text[p + |s| + i] == t[i]
    {
      assert (s + t)[|s| + i] == t[i];
    }
  }

  lemma {:induction false} SkipsTo(text: string, p: nat, q: nat)
    requires p <= q <= |text| && (forall i :: p <= i < q ==> Blank(text[i]))
    requires q < |text| ==> !Blank(text[q]) && text[q] != '#'
    ensures SkipHorizontal(text, p) == q
    decreases q - p
  {
    if p < q {
      SkipsTo(text, p + 1, q);
    }
  }

  lemma {:induction false} EnvClosesAt(text: string, p: nat, v: string)
    requires At(text, p, v + "}") && '}' !in v
    ensures EnvClose(text, p) == Some(p + |v|)
    decreases |v|
  {
    AtSplit(text, p, v, "}");
    assert text[p + |v|] == "}"[0];
    if v != [] {
      assert text[p] == v[0];
      assert v + "}" == [v[0]] + (v[1..] + "}");
      AtSplit(text, p, [v[0]], v[1..] + "}");
      EnvClosesAt(text, p + 1, v[1..]);
    }
  }

  lemma {:induction false} StringReadsBack(text: string, p: nat, v: string)
    requires At(text, p, Escape(v) + "\"")
    ensures StringFrom(text, p) == Some((v, p + |Escape(v)| + 1))
    decreases |v|
  {
    if v == [] {
      AtSplit(text, p, [], "\"");
      assert text[p] == "\""[0];
    } else {
      var h, t := EscapeChar(v[0]), Escape(v[1..]);
      assert Escape(v) + "\"" == h + (t + "\"");
      AtSplit(text, p, h, t + "\"");
      StringReadsBack(text, p + |h|, v[1..]);
      CharReadsBack(text, p, v[0], v[1..], p + |h| + |t| + 1);
      assert [v[0]] + v[1..] == v;
    }
  }

  lemma {:induction false} CharReadsBack(text: string, p: nat, c: char, rest: string, e: nat)
    requires At(text, p, EscapeChar(c)) && p + |EscapeChar(c)| <= |text|
    requires StringFrom(text, p + |EscapeChar(c)|) == Some((rest, e))
    ensures StringFrom(text, p) == Some(([c] + rest, e))
  {
    var h := EscapeChar(c);
    assert text[p] == h[0];
    if |h| == 2 {
      assert text[p + 1] == h[1];
    }
  }

  lemma {:induction false} AtomEndsAt(text: string, p: nat, e: nat)
    requires p <= e <= |text| && (forall q :: p <= q < e ==> !StopsAtom(text, q))
    requires e < |text| ==> StopsAtom(text, e)
    ensures AtomEnd(text, p) == e
    decreases e - p
  {
    if p < e {
      AtomEndsAt(text, p + 1, e);
    }
  }

  /** A blank after the atom keeps everything before it as it was. */
  lemma {:induction false} AtomReadsBack(text: string, p: nat, v: string)
    requires Lexable(Atom(v)) && At(text, p, v + " ")
    ensures TokenAt(text, p) == Ok((Atom(v), p + |v|))
  {
    var e := p + |v|;
    AtSplit(text, p, v, " ");
    assert text[e] == " "[0];
    forall q | p <= q < e
      ensures !StopsAtom(text, q)
    {
      assert !StopsAtom(v, q - p) && text[q] == v[q - p];
      BeginsPair(text, q, '~', '>');
      BeginsPair(v, q - p, '~', '>');
      assert q + 1 < e ==> text[q + 1] == v[q + 1 - p];
    }
    BeginsPair(text, p, '$', '{');
    BeginsPair(v, 0, '$', '{');
    assert p + 1 < e ==> text[p + 1] == v[1];
    BeginsPair(text, p, '~', '>');
    assert !StopsAtom(text, p);
    AtomEndsAt(text, p, e);
    assert text[p..e] == v;
  }

  lemma {:induction false} StrReadsBack(text: string, p: nat, v: string)
    requires At(text, p, Spelling(Str(v)))
    ensures TokenAt(text, p) == Ok((Str(v), p + |Spelling(Str(v))|))
  {
    assert Spelling(Str(v)) == "\"" + (Escape(v) + "\"");
    AtSplit(text, p, "\"", Escape(v) + "\"");
    assert text[p] == "\""[0];
    BeginsPair(text, p, '~', '>');
    StringReadsBack(text, p + 1, v);
  }

  lemma {:induction false} PunctuationReadsBack(text: string, p: nat, kind: TokenKind)
    requires !kind.Sep? && !kind.Str? && !kind.Env? && !kind.Atom? && !kind.Eof?
    requires At(text, p, Spelling(kind))
    ensures TokenAt(text, p) == Ok((kind, p + |Spelling(kind)|))
  {
    assert text[p] == Spelling(kind)[0];
    if kind.Arrow? {
      assert text[p + 1] == Spelling(kind)[1];
      BeginsPair(text, p, '~', '>');
    }
  }

  /** Every token but a separator is read back from its spelling, whatever follows the blank. */
  lemma {:induction false} TokenReadsBack(text: string, p: nat, kind: TokenKind)
    requires Lexable(kind) && !kind.Sep? && At(text, p, Spelling(kind) + " ")
    ensures TokenAt(text, p) == Ok((kind, p + |Spelling(kind)|))
  {
    AtSplit(text, p, Spelling(kind), " ");
    match kind
    case Atom(v) => AtomReadsBack(text, p, v);
    case Str(v) => StrReadsBack(text, p, v);
    case Env(v) => EnvReadsBack(text, p, v);
    case _ => PunctuationReadsBack(text, p, kind);
  }

  lemma {:induction false} EnvReadsBack(text: string, p: nat, v: string)
    requires '}' !in v && At(text, p, Spelling(Env(v)))
    ensures TokenAt(text, p) == Ok((Env(v), p + |v| + 3))
  {
    assert Spelling(Env(v)) == "${" + (v + "}");
    AtSplit(text, p, "${", v + "}");
    assert text[p] == "${"[0] && text[p + 1] == "${"[1];
    BeginsPair(text, p, '~', '>');
    BeginsPair(text, p, '$', '{');
    EnvClosesAt(text, p + 2, v);
    AtSplit(text, p + 2, v, "}");
    assert text[p + 2..p + 2 + |v|] == v;
  }

  /** What a written token starts with is never skipped over. */
  lemma {:induction false} SpellingStarts(kind: TokenKind)
    requires Lexable(kind)
    ensures var s := Spelling(kind);
            && s != [] && !Blank(s[0]) && s[0] != '#' && (Separator(s[0]) <==> kind.Sep?)
  {
    match kind
    case Atom(v) => assert !StopsAtom(v, 0);
    case _ =>
  }

  lemma {:induction false} SeparatorReadsBack(text: string, p: nat)
    requires At(text, p, Spelling(Sep) + " ")
    requires p + 2 < |text| ==> !Blank(text[p + 2]) && !Separator(text[p + 2]) && text[p + 2] != '#'
    ensures SeparatorEnd(text, p) == p + 2
  {
    assert Spelling(Sep) + " " == "\n ";
    assert text[p] == "\n "[0] && text[p + 1] == "\n "[1];
    assert SeparatorEnd(text, p + 2) == p + 2;
    assert SeparatorEnd(text, p + 1) == p + 2;
  }

  ghost predicate LexesTo(text: string, p: nat, ks: seq<TokenKind>) {
    p <= |text| && Lex(text, p).Ok? && Kinds(Lex(text, p).value) == ks + [Eof]
  }

  lemma {:induction false} LexesToCons(text: string, p: nat, t: Token, next: nat, ks: seq<TokenKind>)
    requires p <= |text| && next <= |text| && Lex(text, p) == Prepend(t, Lex(text, next))
    requires ks != [] && t.kind == ks[0] && LexesTo(text, next, ks[1..])
    ensures LexesTo(text, p, ks)
  {
    PrependKinds(t, Lex(text, next), ks);
  }

  lemma {:induction false} PrependKinds(t: Token, r: Result<seq<Token>>, ks: seq<TokenKind>)
    requires ks != [] && t.kind == ks[0] && r.Ok? && Kinds(r.value) == ks[1..] + [Eof]
    ensures Prepend(t, r).Ok? && Kinds(Prepend(t, r).value) == ks + [Eof]
  {
    KindsCons(t, r.value);
    assert ks + [Eof] == [ks[0]] + (ks[1..] + [Eof]);
  }

  lemma {:induction false} KindsCons(t: Token, ts: seq<Token>)
    ensures Kinds([t] + ts) == [t.kind] + Kinds(ts)
  {}

  function AfterFirst(q: nat, kind: TokenKind): nat {
    q + |Spelling(kind)| + if kind.Sep? then 1 else 0
  }

  /** The first written token is read, and lexing goes on right behind it. */
  lemma {:induction false} FirstReadsBack(text: string, p: nat, q: nat, kind: TokenKind, e: nat)
    requires Lexable(kind) && p <= q && At(text, q, Spelling(kind) + " ") && e == AfterFirst(q, kind)
    requires forall i :: p <= i < q ==> Blank(text[i])
    requires kind.Sep? && q + 2 < |text| ==> !Blank(text[q + 2]) && !Separator(text[q + 2]) && text[q + 2] != '#'
    ensures q < e <= |text| && Lex(text, p) == Prepend(Token(kind, SpanAt(text, q, e - q)), Lex(text, e))
  {
    FirstIsAt(text, p, q, kind);
    if kind.Sep? {
      FirstSeparator(text, p, q, e);
    } else {
      FirstToken(text, p, q, kind, e);
    }
  }

  lemma {:induction false} FirstSeparator(text: string, p: nat, q: nat, e: nat)
    requires p <= |text| && SkipHorizontal(text, p) == q < |text| && Separator(text[q])
    requires At(text, q, Spelling(Sep) + " ") && e == AfterFirst(q, Sep)
    requires q + 2 < |text| ==> !Blank(text[q + 2]) && !Separator(text[q + 2]) && text[q + 2] != '#'
    ensures q < e <= |text| && Lex(text, p) == Prepend(Token(Sep, SpanAt(text, q, e - q)), Lex(text, e))
  {
    SeparatorReadsBack(text, q);
    LexAtSeparator(text, p, q, e);
  }

  lemma {:induction false} FirstToken(text: string, p: nat, q: nat, kind: TokenKind, e: nat)
    requires p <= |text| && SkipHorizontal(text, p) == q < |text| && !Separator(text[q])
    requires Lexable(kind) && !kind.Sep? && At(text, q, Spelling(kind) + " ") && e == q + |Spelling(kind)|
    ensures q < e <= |text| && Lex(text, p) == Prepend(Token(kind, SpanAt(text, q, e - q)), Lex(text, e))
  {
    TokenReadsBack(text, q, kind);
    LexAtToken(text, p, q, kind, e);
  }

  lemma {:induction false} FirstIsAt(text: string, p: nat, q: nat, kind: TokenKind)
    requires Lexable(kind) && p <= q && At(text, q, Spelling(kind) + " ")
    requires forall i :: p <= i < q ==> Blank(text[i])
    ensures q < |text| && SkipHorizontal(text, p) == q && (Separator(text[q]) <==> kind.Sep?)
  {
    var s := Spelling(kind);
    SpellingStarts(kind);
    assert text[q] == (s + " ")[0] == s[0];
    SkipsTo(text, p, q);
  }

  lemma {:induction false} RenderableRest(ks: seq<TokenKind>)
    requires Renderable(ks) && ks != []
    ensures Renderable(ks[1..])
  {
    var rest := ks[1..];
    assert forall i :: 0 <= i < |rest| ==> rest[i] == ks[i + 1];
  }

  /** `ks` is written out from `q` to the end of the text, with only blanks between `p` and `q`. */
  ghost predicate Written(text: string, p: nat, q: nat, ks: seq<TokenKind>) {
    && p <= q && q + |Render(ks)| == |text| && At(text, q, Render(ks))
    && (forall i :: p <= i < q ==> Blank(text[i]))
  }

  lemma {:induction false} WrittenRest(text: string, p: nat, q: nat, ks: seq<TokenKind>)
    requires ks != [] && Written(text, p, q, ks) && Renderable(ks)
    ensures At(text, q, Spelling(ks[0]) + " ")
    ensures Written(text, AfterFirst(q, ks[0]), q + |Spelling(ks[0])| + 1, ks[1..])
    ensures ks[0].Sep? && q + 2 < |text| ==> !Blank(text[q + 2]) && !Separator(text[q + 2]) && text[q + 2] != '#'
  {
    RenderSplit(text, q, ks);
    RestIsWritten(text, q, ks);
    if ks[0].Sep? {
      NextStarts(text, q + 2, ks, ks[1..]);
    }
  }

  lemma {:induction false} RestIsWritten(text: string, q: nat, ks: seq<TokenKind>)
    requires ks != [] && q + |Render(ks)| == |text|
    requires var s := Spelling(ks[0]); At(text, q + |s| + 1, Render(ks[1..])) && text[q + |s|] == ' '
    ensures Written(text, AfterFirst(q, ks[0]), q + |Spelling(ks[0])| + 1, ks[1..])
  {
    hide Render, Written;
    RenderLength(ks);
    var n := |Spelling(ks[0])|;
    WrittenFrom(text, if ks[0].Sep? then q + n + 1 else q + n, q + n + 1, ks[1..]);
  }

  lemma {:induction false} WrittenFrom(text: string, p: nat, q: nat, ks: seq<TokenKind>)
    requires q + |Render(ks)| == |text| && At(text, q, Render(ks)) && p <= q <= p + 1 && q > 0 && text[q - 1] == ' '
    ensures Written(text, p, q, ks)
  {}

  lemma {:induction false} RenderLength(ks: seq<TokenKind>)
    requires ks != []
    ensures |Render(ks)| == |Spelling(ks[0])| + 1 + |Render(ks[1..])|
  {}

  /** Lexing a rendered token list gives the list back, followed by the end marker. */
  lemma {:induction false} RenderLexes(text: string, p: nat, q: nat, ks: seq<TokenKind>)
    requires Renderable(ks) && Written(text, p, q, ks)
    ensures LexesTo(text, p, ks)
    decreases |ks|
  {
    if ks == [] {
      SkipsTo(text, p, q);
    } else {
      RenderCons(text, p, q, ks);
    }
  }

  lemma {:induction false} RenderCons(text: string, p: nat, q: nat, ks: seq<TokenKind>)
    requires ks != [] && Renderable(ks) && Written(text, p, q, ks)
    ensures LexesTo(text, p, ks)
    decreases |ks|, 0
  {
    WrittenRest(text, p, q, ks);
    RenderableRest(ks);
    var next := AfterFirst(q, ks[0]);
    RenderLexes(text, next, q + |Spelling(ks[0])| + 1, ks[1..]);
    FirstThenRest(text, p, q, ks, next);
  }

  lemma {:induction false} FirstThenRest(text: string, p: nat, q: nat, ks: seq<TokenKind>, next: nat)
    requires ks != [] && Lexable(ks[0]) && p <= q && At(text, q, Spelling(ks[0]) + " ") && next == AfterFirst(q, ks[0])
    requires forall i :: p <= i < q ==> Blank(text[i])
    requires ks[0].Sep? && q + 2 < |text| ==> !Blank(text[q + 2]) && !Separator(text[q + 2]) && text[q + 2] != '#'
    requires LexesTo(text, next, ks[1..])
    ensures LexesTo(text, p, ks)
  {
    FirstReadsBack(text, p, q, ks[0], next);
    LexesToCons(text, p, Token(ks[0], SpanAt(text, q, next - q)), next, ks);
  }

  lemma {:induction false} RenderSplit(text: string, q: nat, ks: seq<TokenKind>)
    requires ks != [] && At(text, q, Render(ks))
    ensures var s := Spelling(ks[0]);
            && At(text, q, s + " ") && At(text, q + |s| + 1, Render(ks[1..])) && text[q + |s|] == ' '
  {
    var s := Spelling(ks[0]);
    AtSplit(text, q, s + " ", Render(ks[1..]));
    assert text[q + |s|] == (s + " ")[|s|];
  }

  lemma {:induction false} NextStarts(text: string, p: nat, ks: seq<TokenKind>, rest: seq<TokenKind>)
    requires ks != [] && rest == ks[1..] && ks[0].Sep? && Renderable(ks)
    requires p + |Render(rest)| == |text| && At(text, p, Render(rest))
    ensures p < |text| ==> !Blank(text[p]) && !Separator(text[p]) && text[p] != '#'
  {
    if rest != [] {
      assert rest[0] == ks[1];
      assert !ks[1].Sep?;
      SpellingStarts(rest[0]);
      assert text[p] == Render(rest)[0] == Spelling(rest[0])[0];
    }
  }
}
