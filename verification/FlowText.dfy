/** The whole front end: text to tokens to tree and back. */
module FlowText {
  import opened FlowTokens
  import opened FlowAst
  import opened FlowLexer
  import opened FlowSpans
  import opened FlowRender
  import opened FlowGrammar
  import opened FlowRoundTrip

  ghost predicate NoSep(ks: seq<TokenKind>) {
    forall i :: 0 <= i < |ks| ==> !ks[i].Sep?
  }

  lemma {:induction false} ValueHasNoSep(v: Value)
    ensures NoSep(ValueTokens(v))
    decreases v
  {
    if v.Array? {
      ItemsHaveNoSep(v.items);
    }
  }

  lemma {:induction false} ItemsHaveNoSep(items: seq<SpannedValue>)
    ensures NoSep(ItemsTokens(items))
    decreases items
  {
    if items == [] {
    } else {
      assert items decreases to items[0];
      ValueHasNoSep(items[0].node);
      ItemsHaveNoSep(items[1..]);
    }
  }

  lemma {:induction false} ArgHasNoSep(a: Arg)
    ensures NoSep(ArgTokens(a))
  {
    ValueHasNoSep(a.value.node);
  }

  lemma {:induction false} ArgsHaveNoSep(args: seq<Arg>)
    ensures NoSep(SpaceArgsTokens(args)) && NoSep(ParenArgsTokens(args))
    decreases |args|
  {
    if args == [] {
    } else {
      ArgHasNoSep(args[0]);
      ArgsHaveNoSep(args[1..]);
    }
  }

  lemma {:induction false} StepsHaveNoSep(steps: seq<Step>)
    ensures NoSep(StepsTokens(steps))
    decreases |steps|
  {
    if steps == [] {
    } else {
      ArgsHaveNoSep(steps[0].args);
      StepsHaveNoSep(steps[1..]);
    }
  }

  lemma {:induction false} PredsHaveNoSep(xs: seq<Pred>)
    ensures NoSep(PredsTokens(xs))
    decreases |xs|
  {
    if xs == [] {
    } else {
      PredsHaveNoSep(xs[1..]);
    }
  }

  lemma {:induction false} RouteHasNoSep(r: Route)
    ensures NoSep(RouteTokens(r))
  {
    PredsHaveNoSep(r.matcher.predicates);
    StepsHaveNoSep(r.steps);
    assert NoSep(RefinementTokens(r.matcher));
    assert NoSep(MatcherTokens(r.matcher));
  }

  lemma {:induction false} DoubleSepJoin(a: seq<TokenKind>, b: seq<TokenKind>)
    requires NoDoubleSep(a) && NoDoubleSep(b)
    requires a == [] || b == [] || !a[|a| - 1].Sep? || !b[0].Sep?
    ensures NoDoubleSep(a + b)
  {
  }

  /** A statement neither starts nor ends with a separator. */
  ghost predicate Compact(ks: seq<TokenKind>) {
    ks != [] && !ks[0].Sep? && !ks[|ks| - 1].Sep? && NoDoubleSep(ks)
  }

  lemma {:induction false} StmtIsCompact(s: Stmt)
    ensures Compact(StmtTokens(s))
    decreases s
  {
    match s
    case Directive(_, args, _) => ArgsHaveNoSep(args);
    case RouteStmt(r) => RouteHasNoSep(r);
    case Block(k, args, body, _) =>
      ArgsHaveNoSep(args);
      StmtsAreCompact(body);
      BracesAreCompact(Atom(k.text), SpaceArgsTokens(args), StmtsTokens(body));
  }

  lemma {:induction false} BracesAreCompact(k: TokenKind, args: seq<TokenKind>, inner: seq<TokenKind>)
    requires !k.Sep? && NoSep(args) && NoDoubleSep(inner)
    ensures Compact([k] + (args + ([LBrace] + (inner + [RBrace]))))
  {
    var head := [k] + args + [LBrace];
    assert NoSep(head);
    DoubleSepJoin(inner, [RBrace]);
    DoubleSepJoin(head, inner + [RBrace]);
    assert [k] + (args + ([LBrace] + (inner + [RBrace]))) == head + (inner + [RBrace]);
  }

  lemma {:induction false} StmtsAreCompact(ss: seq<Stmt>)
    ensures NoDoubleSep(StmtsTokens(ss)) && (ss != [] ==> StmtsTokens(ss) != [] && !StmtsTokens(ss)[0].Sep?)
    decreases ss
  {
    if ss == [] {
    } else {
      StmtIsCompact(ss[0]);
      StmtsAreCompact(ss[1..]);
      DoubleSepJoin([Sep], StmtsTokens(ss[1..]));
      DoubleSepJoin(StmtTokens(ss[0]), [Sep] + StmtsTokens(ss[1..]));
    }
  }

  /** Every atom and reference in the tree can be written in a text. */
  ghost predicate Writable(ss: seq<Stmt>) {
    forall i :: 0 <= i < |StmtsTokens(ss)| ==> Lexable(StmtsTokens(ss)[i])
  }

  /** Write any well-formed tree out as text; lexing and parsing that text gives the tree back. */
  lemma {:induction false} TextRoundTrip(ss: seq<Stmt>, other: Lexemes)
    requires WfStmts(ss) && Writable(ss)
    ensures var tokens := Lex(Render(StmtsTokens(ss)), 0);
            && tokens.Ok? && EofTerminated(tokens.value)
            && Parse(tokens.value, other).Ok?
            && BareStmts(Parse(tokens.value, other).value) == BareStmts(ss)
  {
    var ks := StmtsTokens(ss);
    var text := Render(ks);
    StmtsAreCompact(ss);
    RenderLexes(text, 0, 0, ks);
    var ts := Lex(text, 0).value;
    assert |ts| == |Kinds(ts)|;
    assert forall i :: 0 <= i < |ts| ==> ts[i].kind == Kinds(ts)[i];
    ParseRoundTrip(ts, ss, other);
  }

  /** What the lexer produces is always a list the parser may be given. */
  lemma {:induction false} LexEndsWithEof(text: string)
    requires Lex(text, 0).Ok?
    ensures EofTerminated(Lex(text, 0).value)
  {
    LexIsFaithful(text, 0);
    var ts := Lex(text, 0).value;
    assert Placed(text, ts, |ts| - 1, 0);
  }
}
