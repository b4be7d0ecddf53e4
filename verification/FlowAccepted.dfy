/** Every tree the parser returns can be written out again: it is well formed, and its words are words
    the lexer reads. So rewriting any accepted text in canonical form keeps its tree. */
module FlowAccepted {
  import opened FlowTokens
  import opened FlowAst
  import opened FlowGrammar
  import opened FlowLexer
  import opened FlowRender
  import opened FlowRoundTrip
  import FlowNodeSpans
  import FlowSpans
  import FlowText

  // ---------- well formed ----------

  lemma {:induction false} StepIsWf(ts: seq<Token>, p: nat)
    requires Cursor(ts, p) && ParseStep(ts, p).Parsed?
    ensures WfStep(ParseStep(ts, p).value)
  {}

  lemma {:induction false} StepsAreWf(ts: seq<Token>, p: nat)
    requires Cursor(ts, p) && ParseSteps(ts, p).Parsed?
    ensures forall i :: 0 <= i < |ParseSteps(ts, p).value| ==> WfStep(ParseSteps(ts, p).value[i])
    decreases |ts| - p
  {
    var q := SkipSeps(ts, p);
    if ts[q].kind.Arrow? {
      var n := SkipSeps(ts, q + 1);
      StepIsWf(ts, n);
      StepsAreWf(ts, ParseStep(ts, n).pos);
    }
  }

  lemma {:induction false} MatcherIsWf(ts: seq<Token>, p: nat, other: Lexemes)
    requires Cursor(ts, p) && ParseMatcher(ts, p, other).Parsed?
    ensures WfMatcher(ParseMatcher(ts, p, other).value)
  {}

  lemma {:induction false} RouteIsWf(ts: seq<Token>, p: nat, other: Lexemes)
    requires Cursor(ts, p) && ts[p].kind.Atom? && ParseRoute(ts, p, other).Parsed?
    ensures WfRoute(ParseRoute(ts, p, other).value)
  {
    MatcherIsWf(ts, p + 1, other);
    StepsAreWf(ts, ParseMatcher(ts, p + 1, other).pos);
  }

  lemma {:induction false} StmtIsWf(ts: seq<Token>, p: nat, other: Lexemes)
    requires Cursor(ts, p) && ParseStmt(ts, p, other).Parsed?
    ensures WfStmt(ParseStmt(ts, p, other).value)
    decreases |ts| - p, 0
  {
    if ts[p].kind.text == "route" {
      RouteIsWf(ts, p, other);
    } else {
      var q := ParseSpaceArgs(ts, p + 1).pos;
      if ts[q].kind.LBrace? {
        StmtsAreWf(ts, q + 1, true, other);
      }
    }
  }

  lemma {:induction false} WfCons(s: Stmt, rest: seq<Stmt>)
    requires WfStmt(s) && WfStmts(rest)
    ensures WfStmts([s] + rest)
  {
    assert ([s] + rest)[1..] == rest;
  }

  /** Whatever parses is well formed. */
  lemma {:induction false} StmtsAreWf(ts: seq<Token>, p: nat, inBlock: bool, other: Lexemes)
    requires Cursor(ts, p) && ParseStmts(ts, p, inBlock, other).Parsed?
    ensures WfStmts(ParseStmts(ts, p, inBlock, other).value)
    decreases |ts| - p, 1
  {
    var q := SkipSeps(ts, p);
    if !ts[q].kind.Eof? && !ts[q].kind.RBrace? {
      var s := ParseStmt(ts, q, other);
      StmtIsWf(ts, q, other);
      StmtsAreWf(ts, s.pos, inBlock, other);
      WfCons(s.value, ParseStmts(ts, s.pos, inBlock, other).value);
    }
  }

  // ---------- writable ----------

  ghost predicate Words(ks: seq<TokenKind>) {
    forall i :: 0 <= i < |ks| ==> Lexable(ks[i])
  }

  /** Every token but the end marker is one the lexer reads. */
  ghost predicate FromText(ts: seq<Token>) {
    forall i :: 0 <= i < |ts| && !ts[i].kind.Eof? ==> Lexable(ts[i].kind)
  }

  lemma {:induction false} WordsJoin(a: seq<TokenKind>, b: seq<TokenKind>)
    requires Words(a) && Words(b)
    ensures Words(a + b)
  {}

  lemma {:induction false} OneWord(k: TokenKind)
    requires Lexable(k)
    ensures Words([k])
  {}

  lemma {:induction false} NothingToWrite()
    ensures Words(ParenArgsTokens([])) && Words(PredsTokens([]))
  {}

  /** Two runs of words with one between them. */
  lemma {:induction false} WordsAround(a: seq<TokenKind>, k: TokenKind, b: seq<TokenKind>)
    requires Words(a) && Lexable(k) && Words(b)
    ensures Words(a + ([k] + b))
  {
    OneWord(k);
    WordsJoin([k], b);
    WordsJoin(a, [k] + b);
  }

  /** A run of words between two brackets. */
  lemma {:induction false} WordsWithin(open: TokenKind, a: seq<TokenKind>, close: TokenKind)
    requires Lexable(open) && Words(a) && Lexable(close)
    ensures Words([open] + (a + [close]))
  {
    OneWord(open);
    OneWord(close);
    WordsJoin(a, [close]);
    WordsJoin([open], a + [close]);
  }

  lemma {:induction false} ValueWords(ts: seq<Token>, p: nat)
    requires Cursor(ts, p) && FromText(ts) && ParseValue(ts, p).Parsed?
    ensures Words(ValueTokens(ParseValue(ts, p).value.node))
    decreases |ts| - p, 0
  {
    if ts[p].kind.LBracket? {
      ItemsWords(ts, p + 1);
      WordsWithin(LBracket, ItemsTokens(ParseItems(ts, p + 1).value), RBracket);
    }
  }

  lemma {:induction false} ItemsCons(v: SpannedValue, vs: seq<SpannedValue>)
    requires Words(ValueTokens(v.node)) && Words(ItemsTokens(vs))
    ensures Words(ItemsTokens([v] + vs))
  {
    assert ([v] + vs)[1..] == vs;
    WordsAround(ValueTokens(v.node), Comma, ItemsTokens(vs));
  }

  lemma {:induction false} ItemsWords(ts: seq<Token>, p: nat)
    requires Cursor(ts, p) && FromText(ts) && ParseItems(ts, p).Parsed?
    ensures Words(ItemsTokens(ParseItems(ts, p).value))
    decreases |ts| - p, 1
  {
    var q := SkipSeps(ts, p);
    if !ts[q].kind.RBracket? {
      var v := ParseValue(ts, q);
      var e := SkipSeps(ts, v.pos);
      ValueWords(ts, q);
      if ts[e].kind.Comma? {
        ItemsWords(ts, e + 1);
        ItemsCons(v.value, ParseItems(ts, e + 1).value);
      } else {
        ItemsCons(v.value, []);
        assert [v.value] + [] == [v.value];
      }
    }
  }

  lemma {:induction false} ArgWords(ts: seq<Token>, p: nat)
    requires Cursor(ts, p) && FromText(ts) && ParseArg(ts, p).Parsed?
    ensures Words(ArgTokens(ParseArg(ts, p).value))
  {
    if StartsNamed(ts, p) {
      ValueWords(ts, p + 2);
      WordsJoin([ts[p].kind, Equals], ValueTokens(ParseValue(ts, p + 2).value.node));
    } else {
      ValueWords(ts, p);
    }
  }

  lemma {:induction false} SpaceArgsWords(ts: seq<Token>, p: nat)
    requires Cursor(ts, p) && FromText(ts) && ParseSpaceArgs(ts, p).Parsed?
    ensures Words(SpaceArgsTokens(ParseSpaceArgs(ts, p).value))
    decreases |ts| - p
  {
    if StartsValue(ts[p].kind) {
      var a := ParseArg(ts, p);
      ArgWords(ts, p);
      SpaceArgsWords(ts, a.pos);
      SpaceArgsCons(a.value, ParseSpaceArgs(ts, a.pos).value);
    }
  }

  lemma {:induction false} SpaceArgsCons(a: Arg, args: seq<Arg>)
    requires Words(ArgTokens(a)) && Words(SpaceArgsTokens(args))
    ensures Words(SpaceArgsTokens([a] + args))
  {
    assert ([a] + args)[1..] == args;
    WordsJoin(ArgTokens(a), SpaceArgsTokens(args));
  }

  lemma {:induction false} ParenArgsCons(a: Arg, args: seq<Arg>)
    requires Words(ArgTokens(a)) && Words(ParenArgsTokens(args))
    ensures Words(ParenArgsTokens([a] + args))
  {
    assert ([a] + args)[1..] == args;
    WordsAround(ArgTokens(a), Comma, ParenArgsTokens(args));
  }

  lemma {:induction false} ParenArgsWords(ts: seq<Token>, p: nat)
    requires Cursor(ts, p) && FromText(ts) && ParseParenArgs(ts, p).Parsed?
    ensures Words(ParenArgsTokens(ParseParenArgs(ts, p).value))
    decreases |ts| - p
  {
    hide ParseArg, ArgTokens, ParenArgsTokens, Words;
    NothingToWrite();
    var q := SkipSeps(ts, p);
    if !ts[q].kind.RParen? {
      var a := ParseArg(ts, q);
      var e := SkipSeps(ts, a.pos);
      ArgWords(ts, q);
      if ts[e].kind.Comma? {
        ParenArgsWords(ts, e + 1);
        ParenArgsCons(a.value, ParseParenArgs(ts, e + 1).value);
      } else {
        ParenArgsCons(a.value, []);
        assert [a.value] + [] == [a.value];
      }
    }
  }

  lemma {:induction false} StepWords(ts: seq<Token>, p: nat)
    requires Cursor(ts, p) && FromText(ts) && ParseStep(ts, p).Parsed?
    ensures Words(StepTokens(ParseStep(ts, p).value))
  {
    OneWord(ts[p].kind);
    if ts[p + 1].kind.LParen? {
      var inner := ParenArgsTokens(ParseParenArgs(ts, p + 2).value);
      ParenArgsWords(ts, p + 2);
      WordsWithin(LParen, inner, RParen);
      WordsJoin([ts[p].kind], [LParen] + (inner + [RParen]));
    } else {
      assert [ts[p].kind] + [] == [ts[p].kind];
    }
  }

  lemma {:induction false} StepsCons(s: Step, steps: seq<Step>)
    requires Words(StepTokens(s)) && Words(StepsTokens(steps))
    ensures Words(StepsTokens([s] + steps))
  {
    assert ([s] + steps)[1..] == steps;
    OneWord(Arrow);
    WordsJoin(StepTokens(s), StepsTokens(steps));
    WordsJoin([Arrow], StepTokens(s) + StepsTokens(steps));
  }

  lemma {:induction false} StepsWords(ts: seq<Token>, p: nat)
    requires Cursor(ts, p) && FromText(ts) && ParseSteps(ts, p).Parsed?
    ensures Words(StepsTokens(ParseSteps(ts, p).value))
    decreases |ts| - p
  {
    var q := SkipSeps(ts, p);
    if ts[q].kind.Arrow? {
      var n := SkipSeps(ts, q + 1);
      var s := ParseStep(ts, n);
      StepWords(ts, n);
      StepsWords(ts, s.pos);
      StepsCons(s.value, ParseSteps(ts, s.pos).value);
    }
  }

  lemma {:induction false} PredWords(ts: seq<Token>, p: nat, other: Lexemes)
    requires Cursor(ts, p) && FromText(ts) && ParsePred(ts, p, other).Parsed?
    ensures Words(PredTokens(ParsePred(ts, p, other).value))
  {
    assert Lexable(ts[p].kind);
  }

  lemma {:induction false} PredsCons(x: Pred, xs: seq<Pred>)
    requires Words(PredTokens(x)) && Words(PredsTokens(xs))
    ensures Words(PredsTokens([x] + xs))
  {
    assert ([x] + xs)[1..] == xs;
    WordsAround(PredTokens(x), Comma, PredsTokens(xs));
  }

  lemma {:induction false} PredsWords(ts: seq<Token>, p: nat, other: Lexemes)
    requires Cursor(ts, p) && FromText(ts) && ParsePreds(ts, p, other).Parsed?
    ensures Words(PredsTokens(ParsePreds(ts, p, other).value))
    decreases |ts| - p
  {
    hide ParsePred, PredTokens, PredsTokens, Words;
    NothingToWrite();
    var q := SkipSeps(ts, p);
    if !ts[q].kind.RBracket? {
      var x := ParsePred(ts, q, other);
      var e := SkipSeps(ts, x.pos);
      PredWords(ts, q, other);
      if ts[e].kind.Comma? {
        PredsWords(ts, e + 1, other);
        PredsCons(x.value, ParsePreds(ts, e + 1, other).value);
      } else {
        PredsCons(x.value, []);
        assert [x.value] + [] == [x.value];
      }
    }
  }

  lemma {:induction false} MatcherWords(ts: seq<Token>, p: nat, other: Lexemes)
    requires Cursor(ts, p) && FromText(ts) && ParseMatcher(ts, p, other).Parsed?
    ensures Words(MatcherTokens(ParseMatcher(ts, p, other).value))
  {
    var m := ParseMatcher(ts, p, other).value;
    var q := if MatchKindAt(ts, p).Prefix? then p else p + 1;
    RefinementWords(ts, p, q, other);
    assert Words(MatchTokens(m.kind)) by {
      assert m.kind.Regex? ==> ts[p].kind == Atom("~");
    }
    WordsAround(MatchTokens(m.kind), ts[q].kind, RefinementTokens(m));
  }

  lemma {:induction false} RefinementWords(ts: seq<Token>, p: nat, q: nat, other: Lexemes)
    requires Cursor(ts, p) && FromText(ts) && ParseMatcher(ts, p, other).Parsed?
    requires q == if MatchKindAt(ts, p).Prefix? then p else p + 1
    ensures Words(RefinementTokens(ParseMatcher(ts, p, other).value))
  {
    if ts[q + 1].kind.LBracket? {
      PredsWords(ts, q + 2, other);
      WordsWithin(LBracket, PredsTokens(ParsePreds(ts, q + 2, other).value), RBracket);
    }
  }

  lemma {:induction false} RouteWords(ts: seq<Token>, p: nat, other: Lexemes)
    requires Cursor(ts, p) && FromText(ts) && ts[p].kind == Atom("route") && ParseRoute(ts, p, other).Parsed?
    ensures Words(RouteTokens(ParseRoute(ts, p, other).value))
  {
    var m := ParseMatcher(ts, p + 1, other);
    var steps := ParseSteps(ts, m.pos);
    MatcherWords(ts, p + 1, other);
    StepsWords(ts, m.pos);
    OneWord(ts[p].kind);
    WordsJoin(MatcherTokens(m.value), StepsTokens(steps.value));
    WordsJoin([ts[p].kind], MatcherTokens(m.value) + StepsTokens(steps.value));
  }

  lemma {:induction false} StmtWords(ts: seq<Token>, p: nat, other: Lexemes)
    requires Cursor(ts, p) && FromText(ts) && ParseStmt(ts, p, other).Parsed?
    ensures Words(StmtTokens(ParseStmt(ts, p, other).value))
    decreases |ts| - p, 0
  {
    if ts[p].kind.text == "route" {
      RouteWords(ts, p, other);
    } else {
      var args := ParseSpaceArgs(ts, p + 1);
      SpaceArgsWords(ts, p + 1);
      if ts[args.pos].kind.LBrace? {
        var body := ParseStmts(ts, args.pos + 1, true, other);
        FlowNodeSpans.BlockParsed(ts, p, other, args, body);
        StmtsWords(ts, args.pos + 1, true, other);
        BlockOfWords(ts, p, args.value, body.value, body.pos);
      } else {
        FlowNodeSpans.DirectiveParsed(ts, p, other, args);
        DirectiveOfWords(ts, p, args.value);
      }
    }
  }

  lemma {:induction false} DirectiveOfWords(ts: seq<Token>, p: nat, args: seq<Arg>)
    requires FromText(ts) && p < |ts| && ts[p].kind.Atom? && Words(SpaceArgsTokens(args))
    ensures Words(StmtTokens(FlowNodeSpans.DirectiveOf(ts, p, args)))
  {
    DirectiveWords(ts[p].kind, SpaceArgsTokens(args));
  }

  lemma {:induction false} BlockOfWords(ts: seq<Token>, p: nat, args: seq<Arg>, body: seq<Stmt>, e: nat)
    requires FromText(ts) && p < |ts| && ts[p].kind.Atom? && 0 < e <= |ts|
    requires Words(SpaceArgsTokens(args)) && Words(StmtsTokens(body))
    ensures Words(StmtTokens(FlowNodeSpans.BlockOf(ts, p, args, body, e)))
  {
    BlockWords(ts[p].kind, SpaceArgsTokens(args), StmtsTokens(body));
  }

  lemma {:induction false} DirectiveWords(k: TokenKind, args: seq<TokenKind>)
    requires Lexable(k) && Words(args)
    ensures Words([k] + args)
  {
    OneWord(k);
    WordsJoin([k], args);
  }

  lemma {:induction false} BlockWords(k: TokenKind, args: seq<TokenKind>, body: seq<TokenKind>)
    requires Lexable(k) && Words(args) && Words(body)
    ensures Words([k] + (args + ([LBrace] + (body + [RBrace]))))
  {
    WordsWithin(LBrace, body, RBrace);
    WordsJoin(args, [LBrace] + (body + [RBrace]));
    OneWord(k);
    WordsJoin([k], args + ([LBrace] + (body + [RBrace])));
  }

  lemma {:induction false} StmtsCons(s: Stmt, rest: seq<Stmt>)
    requires Words(StmtTokens(s)) && Words(StmtsTokens(rest))
    ensures Words(StmtsTokens([s] + rest))
  {
    assert ([s] + rest)[1..] == rest;
    WordsAround(StmtTokens(s), Sep, StmtsTokens(rest));
  }

  lemma {:induction false} StmtsWords(ts: seq<Token>, p: nat, inBlock: bool, other: Lexemes)
    requires Cursor(ts, p) && FromText(ts) && ParseStmts(ts, p, inBlock, other).Parsed?
    ensures Words(StmtsTokens(ParseStmts(ts, p, inBlock, other).value))
    decreases |ts| - p, 1
  {
    var q := SkipSeps(ts, p);
    if !ts[q].kind.Eof? && !ts[q].kind.RBrace? {
      var s := ParseStmt(ts, q, other);
      StmtWords(ts, q, other);
      StmtsWords(ts, s.pos, inBlock, other);
      StmtsCons(s.value, ParseStmts(ts, s.pos, inBlock, other).value);
    }
  }

  // ---------- from the text ----------

  lemma {:induction false} ReadIsLexable(kind: TokenKind, text: string, a: nat, b: nat)
    requires FlowSpans.Reads(kind, text, a, b) && !kind.Eof?
    ensures Lexable(kind)
  {
    if kind.Atom? {
      var v := kind.text;
      BeginsPair(v, 0, '$', '{');
      assert forall i :: 0 <= i < |v| ==> v[i] == text[a + i];
      forall i | 0 <= i < |v|
        ensures !StopsAtom(v, i)
      {
        assert !FlowSpans.Ends(text, a + i);
        FlowSpans.EndsMeans(v, i);
      }
    }
  }

  lemma {:induction false} LexedIsFromText(text: string)
    requires Lex(text, 0).Ok?
    ensures FromText(Lex(text, 0).value)
  {
    var ts := Lex(text, 0).value;
    FlowSpans.LexIsFaithful(text, 0);
    forall i | 0 <= i < |ts| && !ts[i].kind.Eof?
      ensures Lexable(ts[i].kind)
    {
      assert FlowSpans.Placed(text, ts, i, 0);
      ReadIsLexable(ts[i].kind, text, ts[i].span.offset, ts[i].span.End());
    }
  }

  /** Every text the parser accepts gives a tree that is well formed and writable; written out in canonical
      form and read again, it is the same tree. */
  lemma {:induction false} RewritingKeepsTheTree(text: string, other: Lexemes)
    requires Lex(text, 0).Ok?
    ensures var ts := Lex(text, 0).value;
            EofTerminated(ts) && (Parse(ts, other).Ok? ==> Rewrites(Parse(ts, other).value, other))
  {
    var ts := Lex(text, 0).value;
    FlowText.LexEndsWithEof(text);
    if Parse(ts, other).Ok? {
      LexedIsFromText(text);
      StmtsAreWf(ts, 0, false, other);
      StmtsWords(ts, 0, false, other);
      FlowText.TextRoundTrip(Parse(ts, other).value, other);
    }
  }

  /** The tree is well formed and writable, and reading its canonical text gives it back. */
  ghost predicate Rewrites(ss: seq<Stmt>, other: Lexemes) {
    var again := Lex(Render(StmtsTokens(ss)), 0);
    && WfStmts(ss) && FlowText.Writable(ss)
    && again.Ok? && EofTerminated(again.value) && Parse(again.value, other).Ok?
    && BareStmts(Parse(again.value, other).value) == BareStmts(ss)
  }
}
