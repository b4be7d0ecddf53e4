/** The Flow grammar as a relation between stretches of tokens and trees, and that the parser reads exactly
    it: whatever the grammar derives is read, and only that. Separators may stand where the relation says,
    lists may end in a comma, and a predicate may be a bare key. */
module FlowDerivation {
  import opened FlowTokens
  import opened FlowAst
  import opened FlowGrammar
  import opened FlowNodeSpans
  import FlowLexer
  import FlowSpans

  // ---------- the grammar ----------

  ghost predicate Seps(ts: seq<Token>, p: nat, e: nat) {
    p <= e < |ts| && forall k :: p <= k < e ==> ts[k].kind.Sep?
  }

  /** The span starts where token `p` does and ends where the token before `e` does. */
  predicate Over(ts: seq<Token>, p: nat, e: nat, span: Span) {
    && p < e < |ts|
    && span.offset == ts[p].span.offset && span.line == ts[p].span.line && span.col == ts[p].span.col
    && span.End() == ts[e - 1].span.End()
  }

  ghost predicate ValueAt(ts: seq<Token>, p: nat, e: nat, v: SpannedValue)
    decreases v, 1
  {
    && Over(ts, p, e, v.span)
    && match v.node
       case Text(s) => e == p + 1 && ts[p].kind == Str(s)
       case Reference(s) => e == p + 1 && ts[p].kind == Env(s)
       case Bare(s) => e == p + 1 && ts[p].kind == Atom(s)
       case Array(items) =>
         p + 1 < e && ts[p].kind == LBracket && ts[e - 1].kind == RBracket && ItemsAt(ts, p + 1, e - 1, items)
  }

  ghost predicate ItemsAt(ts: seq<Token>, p: nat, e: nat, items: seq<SpannedValue>)
    decreases items, 0
  {
    if items == [] then Seps(ts, p, e)
    else exists a: nat, b: nat :: Seps(ts, p, a) && ValueAt(ts, a, b, items[0]) && MoreItems(ts, b, e, items[1..])
  }

  ghost predicate MoreItems(ts: seq<Token>, b: nat, e: nat, rest: seq<SpannedValue>)
    decreases rest, 1
  {
    || (rest == [] && Seps(ts, b, e))
    || exists c: nat :: Seps(ts, b, c) && c < e && ts[c].kind == Comma && ItemsAt(ts, c + 1, e, rest)
  }

  ghost predicate ArgAt(ts: seq<Token>, p: nat, e: nat, a: Arg) {
    match a
    case Positional(v) => ValueAt(ts, p, e, v) && !(ts[p].kind.Atom? && ts[p + 1].kind == Equals)
    case Named(n, v) =>
      && p + 1 < |ts| && ts[p].kind == Atom(n.text) && ts[p].span == n.span && ts[p + 1].kind == Equals
      && ValueAt(ts, p + 2, e, v)
  }

  ghost predicate SpaceArgsAt(ts: seq<Token>, p: nat, e: nat, args: seq<Arg>)
    decreases |args|
  {
    if args == [] then p == e < |ts|
    else exists b: nat :: ArgAt(ts, p, b, args[0]) && SpaceArgsAt(ts, b, e, args[1..])
  }

  ghost predicate ParenArgsAt(ts: seq<Token>, p: nat, e: nat, args: seq<Arg>)
    decreases |args|, 0
  {
    if args == [] then Seps(ts, p, e)
    else exists a: nat, b: nat :: Seps(ts, p, a) && ArgAt(ts, a, b, args[0]) && MoreArgs(ts, b, e, args[1..])
  }

  ghost predicate MoreArgs(ts: seq<Token>, b: nat, e: nat, rest: seq<Arg>)
    decreases |rest|, 1
  {
    || (rest == [] && Seps(ts, b, e))
    || exists c: nat :: Seps(ts, b, c) && c < e && ts[c].kind == Comma && ParenArgsAt(ts, c + 1, e, rest)
  }

  ghost predicate StepAt(ts: seq<Token>, p: nat, e: nat, s: Step) {
    && Over(ts, p, e, s.span) && ts[p].kind == Atom(s.name.text) && ts[p].span == s.name.span
    && if s.hasParens
       then p + 2 < e && ts[p + 1].kind == LParen && ts[e - 1].kind == RParen && ParenArgsAt(ts, p + 2, e - 1, s.args)
       else s.args == [] && e == p + 1 && ts[e].kind != LParen
  }

  /** No arrow follows, with or without separators before it. */
  ghost predicate NoArrow(ts: seq<Token>, e: nat) {
    forall k: nat :: Seps(ts, e, k) ==> ts[k].kind != Arrow
  }

  ghost predicate ArrowTo(ts: seq<Token>, p: nat, b: nat) {
    exists a: nat :: Seps(ts, p, a) && ts[a].kind == Arrow && Seps(ts, a + 1, b)
  }

  ghost predicate StepsAt(ts: seq<Token>, p: nat, e: nat, steps: seq<Step>)
    decreases |steps|
  {
    if steps == [] then p == e < |ts| && NoArrow(ts, e)
    else exists b: nat, c: nat :: ArrowTo(ts, p, b) && StepAt(ts, b, c, steps[0]) && StepsAt(ts, c, e, steps[1..])
  }

  ghost predicate PredAt(ts: seq<Token>, p: nat, e: nat, x: Pred, other: Lexemes) {
    && Over(ts, p, e, x.span) && ts[p].kind == Atom(x.key)
    && if ts[p + 1].kind == Equals
       then exists v :: ValueAt(ts, p + 2, e, v) && x.value == if v.node.Text? then v.node.text else other(v.node)
       else e == p + 1 && x.value == "*"
  }

  ghost predicate PredsAt(ts: seq<Token>, p: nat, e: nat, xs: seq<Pred>, other: Lexemes)
    decreases |xs|, 0
  {
    if xs == [] then Seps(ts, p, e)
    else exists a: nat, b: nat :: Seps(ts, p, a) && PredAt(ts, a, b, xs[0], other) && MorePreds(ts, b, e, xs[1..], other)
  }

  ghost predicate MorePreds(ts: seq<Token>, b: nat, e: nat, rest: seq<Pred>, other: Lexemes)
    decreases |rest|, 1
  {
    || (rest == [] && Seps(ts, b, e))
    || exists c: nat :: Seps(ts, b, c) && c < e && ts[c].kind == Comma && PredsAt(ts, c + 1, e, rest, other)
  }

  /** The pattern stands at `q`, behind the sign of its kind. */
  predicate PatternIs(ts: seq<Token>, p: nat, q: nat, m: Matcher) {
    && p <= q < |ts| && ts[q].kind == Atom(m.pattern.text) && ts[q].span == m.pattern.span
    && match m.kind
       case Exact => q == p + 1 && ts[p].kind == Equals
       case Regex => q == p + 1 && ts[p].kind == Atom("~")
       case Prefix => q == p && ts[p].kind != Atom("~")
  }

  ghost predicate MatcherAt(ts: seq<Token>, p: nat, e: nat, m: Matcher, other: Lexemes) {
    && Over(ts, p, e, m.span)
    && exists q: nat :: PatternIs(ts, p, q, m) && RefinedBy(ts, q, e, m.predicates, other)
  }

  ghost predicate RefinedBy(ts: seq<Token>, q: nat, e: nat, xs: seq<Pred>, other: Lexemes) {
    && q + 1 <= e < |ts|
    && if ts[q + 1].kind == LBracket
       then q + 2 < e && ts[e - 1].kind == RBracket && PredsAt(ts, q + 2, e - 1, xs, other)
       else e == q + 1 && xs == []
  }

  ghost predicate RouteAt(ts: seq<Token>, p: nat, e: nat, r: Route, other: Lexemes) {
    && Over(ts, p, e, r.span) && ts[p].kind == Atom("route")
    && exists q: nat :: MatcherAt(ts, p + 1, q, r.matcher, other) && StepsAt(ts, q, e, r.steps)
  }

  predicate KeywordAt(ts: seq<Token>, p: nat, k: Name) {
    p < |ts| && ts[p].kind == Atom(k.text) && ts[p].span == k.span && k.text != "route"
  }

  ghost predicate StmtAt(ts: seq<Token>, p: nat, e: nat, s: Stmt, other: Lexemes)
    decreases s, 1
  {
    match s
    case RouteStmt(r) => RouteAt(ts, p, e, r, other)
    case Directive(k, args, span) =>
      && Over(ts, p, e, span) && KeywordAt(ts, p, k) && SpaceArgsAt(ts, p + 1, e, args)
      && !ts[e].kind.Atom? && !ts[e].kind.Str? && !ts[e].kind.Env? && ts[e].kind != LBracket && ts[e].kind != LBrace
    case Block(k, args, body, span) =>
      && Over(ts, p, e, span) && KeywordAt(ts, p, k) && ts[e - 1].kind == RBrace
      && exists q: nat :: && SpaceArgsAt(ts, p + 1, q, args) && q + 1 < e && ts[q].kind == LBrace
                          && StmtsAt(ts, q + 1, e - 1, body, other)
  }

  ghost predicate StmtsAt(ts: seq<Token>, p: nat, e: nat, ss: seq<Stmt>, other: Lexemes)
    decreases ss, 0
  {
    if ss == [] then Seps(ts, p, e)
    else exists a: nat, b: nat :: Seps(ts, p, a) && StmtAt(ts, a, b, ss[0], other) && StmtsAt(ts, b, e, ss[1..], other)
  }

  /** The statements up to the end marker. */
  ghost predicate Document(ts: seq<Token>, ss: seq<Stmt>, other: Lexemes) {
    exists e: nat :: StmtsAt(ts, 0, e, ss, other) && e < |ts| && ts[e].kind == Eof
  }

  // ---------- spans and separators ----------

  lemma {:induction false} OverMeans(ts: seq<Token>, p: nat, e: nat, span: Span)
    requires Ordered(ts) && p < e < |ts|
    ensures Over(ts, p, e, span) <==> span == SpanTo(ts[p].span, ts[e - 1].span.End())
  {
    NoEarlier(ts, p, e - 1);
  }

  lemma {:induction false} SkipsSeps(ts: seq<Token>, p: nat)
    requires Cursor(ts, p)
    ensures Seps(ts, p, SkipSeps(ts, p))
    decreases |ts| - p
  {
    if ts[p].kind.Sep? {
      SkipsSeps(ts, p + 1);
    }
  }

  lemma {:induction false} SepsSkipped(ts: seq<Token>, p: nat, a: nat)
    requires EofTerminated(ts) && Seps(ts, p, a) && !ts[a].kind.Sep?
    ensures SkipSeps(ts, p) == a
    decreases a - p
  {
    if p < a {
      SepsSkipped(ts, p + 1, a);
    }
  }

  // ---------- what the grammar derives is read: values ----------

  lemma {:induction false} ValueStart(ts: seq<Token>, p: nat, e: nat, v: SpannedValue)
    requires ValueAt(ts, p, e, v)
    ensures p < e < |ts| && StartsValue(ts[p].kind)
  {}

  lemma {:induction false} ValueRead(ts: seq<Token>, p: nat, e: nat, v: SpannedValue)
    requires EofTerminated(ts) && Ordered(ts) && ValueAt(ts, p, e, v)
    ensures ParseValue(ts, p) == Parsed(v, e)
    decreases v, 1
  {
    OverMeans(ts, p, e, v.span);
    if v.node.Array? {
      ItemsRead(ts, p + 1, e - 1, v.node.items);
    }
  }

  lemma {:induction false} ItemsRead(ts: seq<Token>, p: nat, e: nat, items: seq<SpannedValue>)
    requires EofTerminated(ts) && Ordered(ts) && ItemsAt(ts, p, e, items) && e < |ts| && ts[e].kind == RBracket
    ensures p <= e && ParseItems(ts, p) == Parsed(items, e)
    decreases items, 0
  {
    if items == [] {
      SepsSkipped(ts, p, e);
    } else {
      var a: nat :| exists b: nat :: Seps(ts, p, a) && ValueAt(ts, a, b, items[0]) && MoreItems(ts, b, e, items[1..]);
      var b: nat :| Seps(ts, p, a) && ValueAt(ts, a, b, items[0]) && MoreItems(ts, b, e, items[1..]);
      hide ValueAt, ParseValue;
      ValueStart(ts, a, b, items[0]);
      SepsSkipped(ts, p, a);
      ValueRead(ts, a, b, items[0]);
      MoreItemsRead(ts, p, a, b, e, items);
    }
  }

  lemma {:induction false} MoreItemsRead(ts: seq<Token>, p: nat, a: nat, b: nat, e: nat, items: seq<SpannedValue>)
    requires EofTerminated(ts) && Ordered(ts) && items != [] && e < |ts| && ts[e].kind == RBracket
    requires p <= a < b < |ts| && SkipSeps(ts, p) == a && StartsValue(ts[a].kind) && ParseValue(ts, a) == Parsed(items[0], b)
    requires MoreItems(ts, b, e, items[1..])
    ensures p <= e && ParseItems(ts, p) == Parsed(items, e)
    decreases items, 0, 0
  {
    hide ParseValue, ItemsAt, ParseItems, SkipSeps;
    if items[1..] == [] && Seps(ts, b, e) {
      SepsSkipped(ts, b, e);
      LastItem(ts, p, a, b, e, items);
    } else {
      var c: nat :| Seps(ts, b, c) && c < e && ts[c].kind == Comma && ItemsAt(ts, c + 1, e, items[1..]);
      SepsSkipped(ts, b, c);
      ItemsRead(ts, c + 1, e, items[1..]);
      ItemsJoined(ts, p, a, b, c, e, items);
    }
  }

  lemma {:induction false} LastItem(ts: seq<Token>, p: nat, a: nat, b: nat, e: nat, items: seq<SpannedValue>)
    requires Cursor(ts, p) && p <= a < b < |ts| && SkipSeps(ts, p) == a && StartsValue(ts[a].kind) && |items| == 1
    requires ParseValue(ts, a) == Parsed(items[0], b) && SkipSeps(ts, b) == e && e < |ts| && ts[e].kind == RBracket
    ensures ParseItems(ts, p) == Parsed(items, e)
  {
    hide ParseValue, SkipSeps;
    assert items == [items[0]];
  }

  lemma {:induction false} ItemsJoined(ts: seq<Token>, p: nat, a: nat, b: nat, c: nat, e: nat, items: seq<SpannedValue>)
    requires Cursor(ts, p) && p <= a < b < |ts| && SkipSeps(ts, p) == a && StartsValue(ts[a].kind) && items != []
    requires ParseValue(ts, a) == Parsed(items[0], b) && SkipSeps(ts, b) == c && c + 1 < |ts| && ts[c].kind == Comma
    requires ParseItems(ts, c + 1) == Parsed(items[1..], e)
    ensures ParseItems(ts, p) == Parsed(items, e)
  {
    hide ParseValue, SkipSeps;
    assert items == [items[0]] + items[1..];
  }

  // ---------- arguments ----------

  lemma {:induction false} ArgStart(ts: seq<Token>, p: nat, e: nat, a: Arg)
    requires ArgAt(ts, p, e, a)
    ensures p < e < |ts| && StartsValue(ts[p].kind)
  {
    ValueStart(ts, if a.Named? then p + 2 else p, e, a.value);
  }

  lemma {:induction false} ArgRead(ts: seq<Token>, p: nat, e: nat, a: Arg)
    requires EofTerminated(ts) && Ordered(ts) && ArgAt(ts, p, e, a)
    ensures p < e < |ts| && ParseArg(ts, p) == Parsed(a, e)
  {
    hide ParseValue;
    ValueStart(ts, if a.Named? then p + 2 else p, e, a.value);
    ValueRead(ts, if a.Named? then p + 2 else p, e, a.value);
    hide ValueAt;
  }

  lemma {:induction false} ArgEnd(ts: seq<Token>, p: nat, e: nat, a: Arg)
    requires Ordered(ts) && ArgAt(ts, p, e, a)
    ensures p < e < |ts| && a.ArgSpan().End() == ts[e - 1].span.End()
  {
    if a.Named? {
      NoEarlier(ts, p, e - 1);
    }
  }

  lemma {:induction false} SpaceArgsRead(ts: seq<Token>, p: nat, e: nat, args: seq<Arg>)
    requires EofTerminated(ts) && Ordered(ts) && SpaceArgsAt(ts, p, e, args) && e < |ts| && !StartsValue(ts[e].kind)
    ensures p <= e && ParseSpaceArgs(ts, p) == Parsed(args, e)
    decreases |args|
  {
    if args == [] {
    } else {
      var b: nat :| ArgAt(ts, p, b, args[0]) && SpaceArgsAt(ts, b, e, args[1..]);
      hide ArgAt, ParseArg;
      ArgStart(ts, p, b, args[0]);
      ArgRead(ts, p, b, args[0]);
      SpaceArgsRead(ts, b, e, args[1..]);
      assert args == [args[0]] + args[1..];
    }
  }

  /** The last argument ends where its last token does. */
  lemma {:induction false} SpaceArgsEnd(ts: seq<Token>, p: nat, e: nat, args: seq<Arg>)
    requires Ordered(ts) && SpaceArgsAt(ts, p, e, args)
    ensures p <= e < |ts|
    ensures args != [] ==> p < e && args[|args| - 1].ArgSpan().End() == ts[e - 1].span.End()
    decreases |args|
  {
    if args == [] {
    } else {
      var b: nat :| ArgAt(ts, p, b, args[0]) && SpaceArgsAt(ts, b, e, args[1..]);
      ArgEnd(ts, p, b, args[0]);
      SpaceArgsEnd(ts, b, e, args[1..]);
      hide ArgAt;
    }
  }

  lemma {:induction false} ParenArgsRead(ts: seq<Token>, p: nat, e: nat, args: seq<Arg>)
    requires EofTerminated(ts) && Ordered(ts) && ParenArgsAt(ts, p, e, args) && e < |ts| && ts[e].kind == RParen
    ensures p <= e && ParseParenArgs(ts, p) == Parsed(args, e)
    decreases |args|, 1
  {
    if args == [] {
      SepsSkipped(ts, p, e);
    } else {
      var a: nat :| exists b: nat :: Seps(ts, p, a) && ArgAt(ts, a, b, args[0]) && MoreArgs(ts, b, e, args[1..]);
      var b: nat :| Seps(ts, p, a) && ArgAt(ts, a, b, args[0]) && MoreArgs(ts, b, e, args[1..]);
      hide ArgAt, ParseArg;
      ArgStart(ts, a, b, args[0]);
      SepsSkipped(ts, p, a);
      ArgRead(ts, a, b, args[0]);
      MoreArgsRead(ts, p, a, b, e, args);
    }
  }

  lemma {:induction false} MoreArgsRead(ts: seq<Token>, p: nat, a: nat, b: nat, e: nat, args: seq<Arg>)
    requires EofTerminated(ts) && Ordered(ts) && args != [] && e < |ts| && ts[e].kind == RParen
    requires p <= a < b < |ts| && SkipSeps(ts, p) == a && StartsValue(ts[a].kind) && ParseArg(ts, a) == Parsed(args[0], b)
    requires MoreArgs(ts, b, e, args[1..])
    ensures p <= e && ParseParenArgs(ts, p) == Parsed(args, e)
    decreases |args|, 0
  {
    hide ParseArg, ParenArgsAt, ParseParenArgs, SkipSeps;
    if args[1..] == [] && Seps(ts, b, e) {
      SepsSkipped(ts, b, e);
      LastArg(ts, p, a, b, e, args);
    } else {
      var c: nat :| Seps(ts, b, c) && c < e && ts[c].kind == Comma && ParenArgsAt(ts, c + 1, e, args[1..]);
      SepsSkipped(ts, b, c);
      ParenArgsRead(ts, c + 1, e, args[1..]);
      ArgsJoined(ts, p, a, b, c, e, args);
    }
  }

  lemma {:induction false} LastArg(ts: seq<Token>, p: nat, a: nat, b: nat, e: nat, args: seq<Arg>)
    requires Cursor(ts, p) && p <= a < b < |ts| && SkipSeps(ts, p) == a && StartsValue(ts[a].kind) && |args| == 1
    requires ParseArg(ts, a) == Parsed(args[0], b) && SkipSeps(ts, b) == e && e < |ts| && ts[e].kind == RParen
    ensures ParseParenArgs(ts, p) == Parsed(args, e)
  {
    hide ParseArg, SkipSeps;
    assert args == [args[0]];
  }

  lemma {:induction false} ArgsJoined(ts: seq<Token>, p: nat, a: nat, b: nat, c: nat, e: nat, args: seq<Arg>)
    requires Cursor(ts, p) && p <= a < b < |ts| && SkipSeps(ts, p) == a && StartsValue(ts[a].kind) && args != []
    requires ParseArg(ts, a) == Parsed(args[0], b) && SkipSeps(ts, b) == c && c + 1 < |ts| && ts[c].kind == Comma
    requires ParseParenArgs(ts, c + 1) == Parsed(args[1..], e)
    ensures ParseParenArgs(ts, p) == Parsed(args, e)
  {
    hide ParseArg, SkipSeps;
    assert args == [args[0]] + args[1..];
  }

  // ---------- routes ----------

  lemma {:induction false} StepRead(ts: seq<Token>, p: nat, e: nat, s: Step)
    requires EofTerminated(ts) && Ordered(ts) && StepAt(ts, p, e, s)
    ensures p < e < |ts| && !ts[p].kind.Sep? && ParseStep(ts, p) == Parsed(s, e)
  {
    hide ParenArgsAt, ParseParenArgs;
    OverMeans(ts, p, e, s.span);
    if s.hasParens {
      ParenArgsRead(ts, p + 2, e - 1, s.args);
    }
  }

  lemma {:induction false} ArrowRead(ts: seq<Token>, p: nat, b: nat)
    requires EofTerminated(ts) && ArrowTo(ts, p, b) && b < |ts| && !ts[b].kind.Sep?
    ensures p < |ts| && ts[SkipSeps(ts, p)].kind == Arrow && SkipSeps(ts, p) + 1 < |ts|
    ensures SkipSeps(ts, SkipSeps(ts, p) + 1) == b
  {
    var a: nat :| Seps(ts, p, a) && ts[a].kind == Arrow && Seps(ts, a + 1, b);
    SepsSkipped(ts, p, a);
    SepsSkipped(ts, a + 1, b);
  }

  lemma {:induction false} StepsRead(ts: seq<Token>, p: nat, e: nat, steps: seq<Step>)
    requires EofTerminated(ts) && Ordered(ts) && StepsAt(ts, p, e, steps)
    ensures p <= e < |ts| && ParseSteps(ts, p) == Parsed(steps, SkipSeps(ts, e))
    decreases |steps|
  {
    hide StepAt, ArrowTo, NoArrow, ParseSteps;
    if steps == [] {
      NoStepsRead(ts, p);
    } else {
      var b, c := FirstStep(ts, p, e, steps);
      hide StepsAt;
      StepRead(ts, b, c, steps[0]);
      ArrowRead(ts, p, b);
      StepsRead(ts, c, e, steps[1..]);
      StepsJoined(ts, p, b, c, steps, SkipSeps(ts, e));
    }
  }

  lemma {:induction false} NoStepsRead(ts: seq<Token>, p: nat)
    requires Cursor(ts, p) && NoArrow(ts, p)
    ensures ParseSteps(ts, p) == Parsed([], SkipSeps(ts, p))
  {
    SkipsSeps(ts, p);
  }

  lemma {:induction false} StepsJoined(ts: seq<Token>, p: nat, b: nat, c: nat, steps: seq<Step>, end: nat)
    requires Cursor(ts, p) && steps != [] && ts[SkipSeps(ts, p)].kind == Arrow && SkipSeps(ts, p) + 1 < |ts|
    requires SkipSeps(ts, SkipSeps(ts, p) + 1) == b && b < c < |ts| && ParseStep(ts, b) == Parsed(steps[0], c)
    requires ParseSteps(ts, c) == Parsed(steps[1..], end)
    ensures ParseSteps(ts, p) == Parsed(steps, end)
  {
    hide ParseStep;
    assert steps == [steps[0]] + steps[1..];
  }

  lemma {:induction false} FirstStep(ts: seq<Token>, p: nat, e: nat, steps: seq<Step>) returns (b: nat, c: nat)
    requires StepsAt(ts, p, e, steps) && steps != []
    ensures ArrowTo(ts, p, b) && StepAt(ts, b, c, steps[0]) && StepsAt(ts, c, e, steps[1..])
  {
    hide StepAt, ArrowTo;
    b :| exists c: nat :: ArrowTo(ts, p, b) && StepAt(ts, b, c, steps[0]) && StepsAt(ts, c, e, steps[1..]);
    c :| ArrowTo(ts, p, b) && StepAt(ts, b, c, steps[0]) && StepsAt(ts, c, e, steps[1..]);
  }

  lemma {:induction false} NoSteps(ts: seq<Token>, p: nat, e: nat)
    requires StepsAt(ts, p, e, [])
    ensures p == e < |ts| && NoArrow(ts, e)
  {}

  lemma {:induction false} StepEnd(ts: seq<Token>, p: nat, e: nat, s: Step)
    requires StepAt(ts, p, e, s)
    ensures p < e < |ts| && s.span.End() == ts[e - 1].span.End()
  {}

  /** A pipeline ends where its last step does. */
  lemma {:induction false} StepsEnd(ts: seq<Token>, p: nat, e: nat, steps: seq<Step>)
    requires EofTerminated(ts) && StepsAt(ts, p, e, steps)
    ensures steps == [] ==> p == e
    ensures steps != [] ==> 0 < e < |ts| && steps[|steps| - 1].span.End() == ts[e - 1].span.End()
    decreases |steps|
  {
    hide StepsAt, StepAt, ArrowTo;
    if steps == [] {
      NoSteps(ts, p, e);
    } else {
      var b, c := FirstStep(ts, p, e, steps);
      StepEnd(ts, b, c, steps[0]);
      StepsEnd(ts, c, e, steps[1..]);
    }
  }

  lemma {:induction false} PredRead(ts: seq<Token>, p: nat, e: nat, x: Pred, other: Lexemes)
    requires EofTerminated(ts) && Ordered(ts) && PredAt(ts, p, e, x, other)
    ensures p < e < |ts| && ts[p].kind.Atom? && ParsePred(ts, p, other) == Parsed(x, e)
  {
    OverMeans(ts, p, e, x.span);
    if ts[p + 1].kind == Equals {
      var v :| ValueAt(ts, p + 2, e, v) && x.value == if v.node.Text? then v.node.text else other(v.node);
      ValueStart(ts, p + 2, e, v);
      ValueRead(ts, p + 2, e, v);
    }
  }

  lemma {:induction false} PredsRead(ts: seq<Token>, p: nat, e: nat, xs: seq<Pred>, other: Lexemes)
    requires EofTerminated(ts) && Ordered(ts) && PredsAt(ts, p, e, xs, other) && e < |ts| && ts[e].kind == RBracket
    ensures p <= e && ParsePreds(ts, p, other) == Parsed(xs, e)
    decreases |xs|, 1
  {
    if xs == [] {
      SepsSkipped(ts, p, e);
    } else {
      var a: nat :| exists b: nat :: Seps(ts, p, a) && PredAt(ts, a, b, xs[0], other) && MorePreds(ts, b, e, xs[1..], other);
      var b: nat :| Seps(ts, p, a) && PredAt(ts, a, b, xs[0], other) && MorePreds(ts, b, e, xs[1..], other);
      hide PredAt, ParsePred;
      PredRead(ts, a, b, xs[0], other);
      SepsSkipped(ts, p, a);
      MorePredsRead(ts, p, a, b, e, xs, other);
    }
  }

  lemma {:induction false} MorePredsRead(ts: seq<Token>, p: nat, a: nat, b: nat, e: nat, xs: seq<Pred>, other: Lexemes)
    requires EofTerminated(ts) && Ordered(ts) && xs != [] && e < |ts| && ts[e].kind == RBracket
    requires p <= a < b < |ts| && SkipSeps(ts, p) == a && ts[a].kind.Atom? && ParsePred(ts, a, other) == Parsed(xs[0], b)
    requires MorePreds(ts, b, e, xs[1..], other)
    ensures p <= e && ParsePreds(ts, p, other) == Parsed(xs, e)
    decreases |xs|, 0
  {
    hide ParsePred, PredsAt, ParsePreds, SkipSeps;
    if xs[1..] == [] && Seps(ts, b, e) {
      SepsSkipped(ts, b, e);
      LastPred(ts, p, a, b, e, xs, other);
    } else {
      var c: nat :| Seps(ts, b, c) && c < e && ts[c].kind == Comma && PredsAt(ts, c + 1, e, xs[1..], other);
      SepsSkipped(ts, b, c);
      PredsRead(ts, c + 1, e, xs[1..], other);
      PredsJoined(ts, p, a, b, c, e, xs, other);
    }
  }

  lemma {:induction false} LastPred(ts: seq<Token>, p: nat, a: nat, b: nat, e: nat, xs: seq<Pred>, other: Lexemes)
    requires Cursor(ts, p) && p <= a < b < |ts| && SkipSeps(ts, p) == a && ts[a].kind.Atom? && |xs| == 1
    requires ParsePred(ts, a, other) == Parsed(xs[0], b) && SkipSeps(ts, b) == e && e < |ts| && ts[e].kind == RBracket
    ensures ParsePreds(ts, p, other) == Parsed(xs, e)
  {
    hide ParsePred, SkipSeps;
    assert xs == [xs[0]];
  }

  lemma {:induction false} PredsJoined(ts: seq<Token>, p: nat, a: nat, b: nat, c: nat, e: nat, xs: seq<Pred>, other: Lexemes)
    requires Cursor(ts, p) && p <= a < b < |ts| && SkipSeps(ts, p) == a && ts[a].kind.Atom? && xs != []
    requires ParsePred(ts, a, other) == Parsed(xs[0], b) && SkipSeps(ts, b) == c && c + 1 < |ts| && ts[c].kind == Comma
    requires ParsePreds(ts, c + 1, other) == Parsed(xs[1..], e)
    ensures ParsePreds(ts, p, other) == Parsed(xs, e)
  {
    hide ParsePred, SkipSeps;
    assert xs == [xs[0]] + xs[1..];
  }

  lemma {:induction false} MatcherRead(ts: seq<Token>, p: nat, e: nat, m: Matcher, other: Lexemes)
    requires EofTerminated(ts) && Ordered(ts) && MatcherAt(ts, p, e, m, other)
    ensures p < e < |ts| && ParseMatcher(ts, p, other) == Parsed(m, e)
  {
    hide PredsAt, ParsePreds;
    var q: nat :| PatternIs(ts, p, q, m) && RefinedBy(ts, q, e, m.predicates, other);
    OverMeans(ts, p, e, m.span);
    assert MatchKindAt(ts, p) == m.kind;
    if ts[q + 1].kind == LBracket {
      PredsRead(ts, q + 2, e - 1, m.predicates, other);
    }
  }

  lemma {:induction false} RouteRead(ts: seq<Token>, p: nat, e: nat, r: Route, other: Lexemes)
    requires EofTerminated(ts) && Ordered(ts) && RouteAt(ts, p, e, r, other)
    ensures p < e < |ts| && ts[p].kind == Atom("route") && ParseRoute(ts, p, other) == Parsed(r, SkipSeps(ts, e))
  {
    hide MatcherAt, StepsAt, ParseMatcher, ParseSteps;
    var q: nat :| MatcherAt(ts, p + 1, q, r.matcher, other) && StepsAt(ts, q, e, r.steps);
    MatcherEnd(ts, p + 1, q, r.matcher, other);
    MatcherRead(ts, p + 1, q, r.matcher, other);
    StepsRead(ts, q, e, r.steps);
    StepsEnd(ts, q, e, r.steps);
    RouteJoined(ts, p, q, e, r, other);
  }

  lemma {:induction false} MatcherEnd(ts: seq<Token>, p: nat, e: nat, m: Matcher, other: Lexemes)
    requires MatcherAt(ts, p, e, m, other)
    ensures p < e < |ts| && m.span.End() == ts[e - 1].span.End()
  {}

  lemma {:induction false} RouteJoined(ts: seq<Token>, p: nat, q: nat, e: nat, r: Route, other: Lexemes)
    requires EofTerminated(ts) && Ordered(ts) && Over(ts, p, e, r.span) && ts[p].kind == Atom("route")
    requires p + 1 < q <= e && RouteEnd(r.matcher, r.steps) == ts[e - 1].span.End()
    requires ParseMatcher(ts, p + 1, other) == Parsed(r.matcher, q) && ParseSteps(ts, q) == Parsed(r.steps, SkipSeps(ts, e))
    ensures ParseRoute(ts, p, other) == Parsed(r, SkipSeps(ts, e))
  {
    hide ParseMatcher, ParseSteps, SkipSeps;
    OverMeans(ts, p, e, r.span);
  }

  // ---------- statements ----------

  /** Where reading goes on behind a statement: a route has looked past the separators for an arrow. */
  function Resumes(ts: seq<Token>, s: Stmt, e: nat): nat
    requires Cursor(ts, e)
  {
    if s.RouteStmt? then SkipSeps(ts, e) else e
  }

  lemma {:induction false} StmtRead(ts: seq<Token>, p: nat, e: nat, s: Stmt, other: Lexemes)
    requires EofTerminated(ts) && Ordered(ts) && StmtAt(ts, p, e, s, other)
    ensures p < e < |ts| && ts[p].kind.Atom? && ParseStmt(ts, p, other) == Parsed(s, Resumes(ts, s, e))
    decreases s, 1
  {
    hide RouteAt, SpaceArgsAt, StmtsAt, ParseRoute, ParseSpaceArgs, ParseStmts;
    match s
    case RouteStmt(r) =>
      RouteRead(ts, p, e, r, other);
    case Directive(k, args, span) =>
      DirectiveRead(ts, p, e, k, args, span, other);
    case Block(k, args, body, span) =>
      var q := BodyOf(ts, p, e, s, other);
      hide StmtAt, ParseStmt;
      StmtsRead(ts, q + 1, e - 1, body, true, other);
      SpaceArgsRead(ts, p + 1, q, args);
      BlockRead(ts, p, q, e, k, args, body, span, other);
  }

  lemma {:induction false} BodyOf(ts: seq<Token>, p: nat, e: nat, s: Stmt, other: Lexemes) returns (q: nat)
    requires StmtAt(ts, p, e, s, other) && s.Block?
    ensures Over(ts, p, e, s.span) && KeywordAt(ts, p, s.keyword) && ts[e - 1].kind == RBrace
    ensures SpaceArgsAt(ts, p + 1, q, s.args) && q + 1 < e && ts[q].kind == LBrace
    ensures StmtsAt(ts, q + 1, e - 1, s.body, other)
  {
    hide SpaceArgsAt, StmtsAt;
    q :| && SpaceArgsAt(ts, p + 1, q, s.args) && q + 1 < e && ts[q].kind == LBrace
         && StmtsAt(ts, q + 1, e - 1, s.body, other);
  }

  lemma {:induction false} BlockRead(ts: seq<Token>, p: nat, q: nat, e: nat, k: Name, args: seq<Arg>, body: seq<Stmt>,
                                     span: Span, other: Lexemes)
    requires EofTerminated(ts) && Ordered(ts) && Over(ts, p, e, span) && KeywordAt(ts, p, k)
    requires p < q && q + 1 < e < |ts| && ts[q].kind == LBrace
    requires ParseSpaceArgs(ts, p + 1) == Parsed(args, q) && ParseStmts(ts, q + 1, true, other) == Parsed(body, e)
    ensures ParseStmt(ts, p, other) == Parsed(Block(k, args, body, span), e)
  {
    hide ParseSpaceArgs, ParseStmts;
    OverMeans(ts, p, e, span);
  }

  lemma {:induction false} DirectiveRead(ts: seq<Token>, p: nat, e: nat, k: Name, args: seq<Arg>, span: Span, other: Lexemes)
    requires EofTerminated(ts) && Ordered(ts) && Over(ts, p, e, span) && KeywordAt(ts, p, k)
    requires SpaceArgsAt(ts, p + 1, e, args) && !StartsValue(ts[e].kind) && ts[e].kind != LBrace
    ensures p < e < |ts| && ParseStmt(ts, p, other) == Parsed(Directive(k, args, span), e)
  {
    SpaceArgsRead(ts, p + 1, e, args);
    SpaceArgsEnd(ts, p + 1, e, args);
    OverMeans(ts, p, e, span);
    assert args == [] ==> e == p + 1;
    hide SpaceArgsAt, ParseSpaceArgs;
    assert ArgsEnd(k, args) == ts[e - 1].span.End();
  }

  lemma {:induction false} SkippedAgain(ts: seq<Token>, e: nat, inBlock: bool, other: Lexemes)
    requires Cursor(ts, e)
    ensures ParseStmts(ts, SkipSeps(ts, e), inBlock, other) == ParseStmts(ts, e, inBlock, other)
  {
    hide ParseStmt;
    SkipsSeps(ts, e);
    SepsSkipped(ts, SkipSeps(ts, e), SkipSeps(ts, e));
  }

  lemma {:induction false} FirstStmt(ts: seq<Token>, p: nat, e: nat, ss: seq<Stmt>, other: Lexemes) returns (a: nat, b: nat)
    requires StmtsAt(ts, p, e, ss, other) && ss != []
    ensures Seps(ts, p, a) && StmtAt(ts, a, b, ss[0], other) && StmtsAt(ts, b, e, ss[1..], other)
  {
    hide StmtAt;
    a :| exists b: nat :: Seps(ts, p, a) && StmtAt(ts, a, b, ss[0], other) && StmtsAt(ts, b, e, ss[1..], other);
    b :| Seps(ts, p, a) && StmtAt(ts, a, b, ss[0], other) && StmtsAt(ts, b, e, ss[1..], other);
  }

  lemma {:induction false} StmtsJoined(ts: seq<Token>, p: nat, a: nat, b: nat, end: nat, ss: seq<Stmt>, inBlock: bool, other: Lexemes)
    requires Cursor(ts, p) && SkipSeps(ts, p) == a && a < b < |ts| && ts[a].kind.Atom? && ss != []
    requires ParseStmt(ts, a, other) == Parsed(ss[0], b) && ParseStmts(ts, b, inBlock, other) == Parsed(ss[1..], end)
    ensures ParseStmts(ts, p, inBlock, other) == Parsed(ss, end)
  {
    hide ParseStmt, SkipSeps;
    assert ss == [ss[0]] + ss[1..];
  }

  lemma {:induction false} StmtsRead(ts: seq<Token>, p: nat, e: nat, ss: seq<Stmt>, inBlock: bool, other: Lexemes)
    requires EofTerminated(ts) && Ordered(ts) && StmtsAt(ts, p, e, ss, other) && e < |ts|
    requires ts[e].kind == if inBlock then RBrace else Eof
    ensures p <= e && ParseStmts(ts, p, inBlock, other) == Parsed(ss, if inBlock then e + 1 else e)
    decreases ss, 0
  {
    if ss == [] {
      SepsSkipped(ts, p, e);
    } else {
      hide StmtAt, StmtsAt, ParseStmt, ParseStmts, SkipSeps;
      var a, b := FirstStmt(ts, p, e, ss, other);
      StmtRead(ts, a, b, ss[0], other);
      StmtsRead(ts, b, e, ss[1..], inBlock, other);
      SepsSkipped(ts, p, a);
      SkippedAgain(ts, b, inBlock, other);
      StmtsJoined(ts, p, a, Resumes(ts, ss[0], b), if inBlock then e + 1 else e, ss, inBlock, other);
    }
  }

  // ---------- what is read, the grammar derives: values ----------

  lemma {:induction false} ValueDerives(ts: seq<Token>, p: nat)
    requires Cursor(ts, p) && Ordered(ts) && ParseValue(ts, p).Parsed?
    ensures ValueAt(ts, p, ParseValue(ts, p).pos, ParseValue(ts, p).value)
    decreases |ts| - p, 0
  {
    hide ParseItems, ItemsAt;
    var r := ParseValue(ts, p);
    OverMeans(ts, p, r.pos, r.value.span);
    if ts[p].kind.LBracket? {
      ItemsDerive(ts, p + 1);
    }
  }

  lemma {:induction false} ItemsDerive(ts: seq<Token>, p: nat)
    requires Cursor(ts, p) && Ordered(ts) && ParseItems(ts, p).Parsed? && ts[ParseItems(ts, p).pos].kind.RBracket?
    ensures ItemsAt(ts, p, ParseItems(ts, p).pos, ParseItems(ts, p).value)
    decreases |ts| - p, 1
  {
    hide ParseValue, ValueAt, ItemsAt, MoreItems, Seps, SkipSeps;
    var q := SkipSeps(ts, p);
    SkipsSeps(ts, p);
    if ts[q].kind.RBracket? {
      NoItems(ts, p, q);
    } else {
      var v := ParseValue(ts, q);
      ValueDerives(ts, q);
      var e := SkipSeps(ts, v.pos);
      SkipsSeps(ts, v.pos);
      if ts[e].kind.Comma? {
        var rest := ParseItems(ts, e + 1);
        ItemsParsed(ts, p, q, v, e, rest);
        ItemsDerive(ts, e + 1);
        ItemsGoOn(ts, v.pos, e, rest.pos, rest.value);
        ItemsMade(ts, p, q, v.pos, rest.pos, v.value, rest.value);
      } else {
        ItemsStop(ts, v.pos, e);
        ItemsMade(ts, p, q, v.pos, e, v.value, []);
        assert [v.value] + [] == [v.value];
      }
    }
  }

  lemma {:induction false} NoItems(ts: seq<Token>, p: nat, e: nat)
    requires Seps(ts, p, e)
    ensures ItemsAt(ts, p, e, [])
  {}

  lemma {:induction false} ItemsStop(ts: seq<Token>, b: nat, e: nat)
    requires Seps(ts, b, e)
    ensures MoreItems(ts, b, e, [])
  {}

  lemma {:induction false} ItemsGoOn(ts: seq<Token>, b: nat, c: nat, e: nat, rest: seq<SpannedValue>)
    requires Seps(ts, b, c) && c < e && ts[c].kind == Comma && ItemsAt(ts, c + 1, e, rest)
    ensures MoreItems(ts, b, e, rest)
  {}

  lemma {:induction false} ItemsMade(ts: seq<Token>, p: nat, a: nat, b: nat, e: nat, v: SpannedValue, rest: seq<SpannedValue>)
    requires Seps(ts, p, a) && ValueAt(ts, a, b, v) && MoreItems(ts, b, e, rest)
    ensures ItemsAt(ts, p, e, [v] + rest)
  {
    hide ValueAt, MoreItems, Seps;
    var items := [v] + rest;
    assert items[0] == v && items[1..] == rest;
  }

  // ---------- arguments ----------

  lemma {:induction false} ArgDerives(ts: seq<Token>, p: nat)
    requires Cursor(ts, p) && Ordered(ts) && ParseArg(ts, p).Parsed?
    ensures ArgAt(ts, p, ParseArg(ts, p).pos, ParseArg(ts, p).value)
  {
    hide ParseValue;
    ValueDerives(ts, if StartsNamed(ts, p) then p + 2 else p);
    var a := ParseArg(ts, p);
    ValueStart(ts, if a.value.Named? then p + 2 else p, a.pos, a.value.value);
    hide ValueAt;
  }

  lemma {:induction false} SpaceArgsDerive(ts: seq<Token>, p: nat)
    requires Cursor(ts, p) && Ordered(ts) && ParseSpaceArgs(ts, p).Parsed?
    ensures var r := ParseSpaceArgs(ts, p); SpaceArgsAt(ts, p, r.pos, r.value) && !StartsValue(ts[r.pos].kind)
    decreases |ts| - p
  {
    hide ParseArg, ArgAt;
    if StartsValue(ts[p].kind) {
      var a := ParseArg(ts, p);
      ArgDerives(ts, p);
      SpaceArgsDerive(ts, a.pos);
      var rest := ParseSpaceArgs(ts, a.pos);
      SpaceArgsMade(ts, p, a.pos, rest.pos, a.value, rest.value);
    }
  }

  lemma {:induction false} SpaceArgsMade(ts: seq<Token>, p: nat, b: nat, e: nat, a: Arg, rest: seq<Arg>)
    requires ArgAt(ts, p, b, a) && SpaceArgsAt(ts, b, e, rest)
    ensures SpaceArgsAt(ts, p, e, [a] + rest)
  {
    hide ArgAt;
    var args := [a] + rest;
    assert args[0] == a && args[1..] == rest;
  }

  lemma {:induction false} ParenArgsDerive(ts: seq<Token>, p: nat)
    requires Cursor(ts, p) && Ordered(ts) && ParseParenArgs(ts, p).Parsed? && ts[ParseParenArgs(ts, p).pos].kind.RParen?
    ensures ParenArgsAt(ts, p, ParseParenArgs(ts, p).pos, ParseParenArgs(ts, p).value)
    decreases |ts| - p
  {
    hide ParseArg, ArgAt, ParenArgsAt, MoreArgs, Seps, SkipSeps;
    var q := SkipSeps(ts, p);
    SkipsSeps(ts, p);
    if ts[q].kind.RParen? {
      NoArgs(ts, p, q);
    } else {
      var a := ParseArg(ts, q);
      ArgDerives(ts, q);
      var e := SkipSeps(ts, a.pos);
      SkipsSeps(ts, a.pos);
      if ts[e].kind.Comma? {
        var rest := ParseParenArgs(ts, e + 1);
        ParenArgsDerive(ts, e + 1);
        ArgsGoOn(ts, a.pos, e, rest.pos, rest.value);
        ArgsMade(ts, p, q, a.pos, rest.pos, a.value, rest.value);
      } else {
        ArgsStop(ts, a.pos, e);
        ArgsMade(ts, p, q, a.pos, e, a.value, []);
        assert [a.value] + [] == [a.value];
      }
    }
  }

  lemma {:induction false} NoArgs(ts: seq<Token>, p: nat, e: nat)
    requires Seps(ts, p, e)
    ensures ParenArgsAt(ts, p, e, [])
  {}

  lemma {:induction false} ArgsStop(ts: seq<Token>, b: nat, e: nat)
    requires Seps(ts, b, e)
    ensures MoreArgs(ts, b, e, [])
  {}

  lemma {:induction false} ArgsGoOn(ts: seq<Token>, b: nat, c: nat, e: nat, rest: seq<Arg>)
    requires Seps(ts, b, c) && c < e && ts[c].kind == Comma && ParenArgsAt(ts, c + 1, e, rest)
    ensures MoreArgs(ts, b, e, rest)
  {}

  lemma {:induction false} ArgsMade(ts: seq<Token>, p: nat, a: nat, b: nat, e: nat, x: Arg, rest: seq<Arg>)
    requires Seps(ts, p, a) && ArgAt(ts, a, b, x) && MoreArgs(ts, b, e, rest)
    ensures ParenArgsAt(ts, p, e, [x] + rest)
  {
    hide ArgAt, MoreArgs, Seps;
    var args := [x] + rest;
    assert args[0] == x && args[1..] == rest;
  }

  // ---------- routes ----------

  lemma {:induction false} StepDerives(ts: seq<Token>, p: nat)
    requires Cursor(ts, p) && Ordered(ts) && ParseStep(ts, p).Parsed?
    ensures StepAt(ts, p, ParseStep(ts, p).pos, ParseStep(ts, p).value)
  {
    hide ParseParenArgs, ParenArgsAt;
    var r := ParseStep(ts, p);
    OverMeans(ts, p, r.pos, r.value.span);
    if ts[p + 1].kind.LParen? {
      ParenArgsDerive(ts, p + 2);
    }
  }

  lemma {:induction false} StepsDerive(ts: seq<Token>, p: nat) returns (e: nat)
    requires Cursor(ts, p) && Ordered(ts) && ParseSteps(ts, p).Parsed?
    ensures p <= e < |ts| && StepsAt(ts, p, e, ParseSteps(ts, p).value) && SkipSeps(ts, e) == ParseSteps(ts, p).pos
    decreases |ts| - p
  {
    hide ParseStep, StepAt, StepsAt, ArrowTo, Seps;
    var q := SkipSeps(ts, p);
    if ts[q].kind.Arrow? {
      var n := SkipSeps(ts, q + 1);
      var s := ParseStep(ts, n);
      var rest := ParseSteps(ts, s.pos);
      StepsParsed(ts, p, n, s, rest);
      hide ParseSteps, SkipSeps;
      StepDerives(ts, n);
      e := StepsDerive(ts, s.pos);
      ArrowMade(ts, p);
      StepsMade(ts, p, n, s.pos, e, s.value, rest.value);
    } else {
      e := p;
      NoStepsMade(ts, p);
    }
  }

  lemma {:induction false} NoStepsMade(ts: seq<Token>, p: nat)
    requires Cursor(ts, p) && !ts[SkipSeps(ts, p)].kind.Arrow?
    ensures StepsAt(ts, p, p, [])
  {
    forall k: nat | Seps(ts, p, k)
      ensures ts[k].kind != Arrow
    {
      if !ts[k].kind.Sep? {
        SepsSkipped(ts, p, k);
      }
    }
  }

  lemma {:induction false} ArrowMade(ts: seq<Token>, p: nat)
    requires Cursor(ts, p) && ts[SkipSeps(ts, p)].kind.Arrow? && SkipSeps(ts, p) + 1 < |ts|
    ensures ArrowTo(ts, p, SkipSeps(ts, SkipSeps(ts, p) + 1))
  {
    hide Seps, SkipSeps;
    SkipsSeps(ts, p);
    SkipsSeps(ts, SkipSeps(ts, p) + 1);
  }

  lemma {:induction false} StepsMade(ts: seq<Token>, p: nat, b: nat, c: nat, e: nat, s: Step, rest: seq<Step>)
    requires ArrowTo(ts, p, b) && StepAt(ts, b, c, s) && StepsAt(ts, c, e, rest)
    ensures StepsAt(ts, p, e, [s] + rest)
  {
    hide ArrowTo, StepAt;
    var steps := [s] + rest;
    assert steps[0] == s && steps[1..] == rest;
  }

  lemma {:induction false} PredDerives(ts: seq<Token>, p: nat, other: Lexemes)
    requires Cursor(ts, p) && Ordered(ts) && ParsePred(ts, p, other).Parsed?
    ensures PredAt(ts, p, ParsePred(ts, p, other).pos, ParsePred(ts, p, other).value, other)
  {
    hide ParseValue;
    var r := ParsePred(ts, p, other);
    if ts[p + 1].kind.Equals? {
      var v := ParseValue(ts, p + 2);
      ValueDerives(ts, p + 2);
      assert v.value.span.End() == ts[v.pos - 1].span.End();
      hide ValueAt;
      OverMeans(ts, p, r.pos, r.value.span);
    } else {
      OverMeans(ts, p, r.pos, r.value.span);
    }
  }

  lemma {:induction false} PredsDerive(ts: seq<Token>, p: nat, other: Lexemes)
    requires Cursor(ts, p) && Ordered(ts) && ParsePreds(ts, p, other).Parsed? && ts[ParsePreds(ts, p, other).pos].kind.RBracket?
    ensures PredsAt(ts, p, ParsePreds(ts, p, other).pos, ParsePreds(ts, p, other).value, other)
    decreases |ts| - p
  {
    hide ParsePred, PredAt, PredsAt, MorePreds, Seps, SkipSeps;
    var q := SkipSeps(ts, p);
    SkipsSeps(ts, p);
    if ts[q].kind.RBracket? {
      NoPreds(ts, p, q, other);
    } else {
      var x := ParsePred(ts, q, other);
      PredDerives(ts, q, other);
      var e := SkipSeps(ts, x.pos);
      SkipsSeps(ts, x.pos);
      if ts[e].kind.Comma? {
        var rest := ParsePreds(ts, e + 1, other);
        PredsDerive(ts, e + 1, other);
        PredsGoOn(ts, x.pos, e, rest.pos, rest.value, other);
        PredsMade(ts, p, q, x.pos, rest.pos, x.value, rest.value, other);
      } else {
        PredsStop(ts, x.pos, e, other);
        PredsMade(ts, p, q, x.pos, e, x.value, [], other);
        assert [x.value] + [] == [x.value];
      }
    }
  }

  lemma {:induction false} NoPreds(ts: seq<Token>, p: nat, e: nat, other: Lexemes)
    requires Seps(ts, p, e)
    ensures PredsAt(ts, p, e, [], other)
  {}

  lemma {:induction false} PredsStop(ts: seq<Token>, b: nat, e: nat, other: Lexemes)
    requires Seps(ts, b, e)
    ensures MorePreds(ts, b, e, [], other)
  {}

  lemma {:induction false} PredsGoOn(ts: seq<Token>, b: nat, c: nat, e: nat, rest: seq<Pred>, other: Lexemes)
    requires Seps(ts, b, c) && c < e && ts[c].kind == Comma && PredsAt(ts, c + 1, e, rest, other)
    ensures MorePreds(ts, b, e, rest, other)
  {}

  lemma {:induction false} PredsMade(ts: seq<Token>, p: nat, a: nat, b: nat, e: nat, x: Pred, rest: seq<Pred>, other: Lexemes)
    requires Seps(ts, p, a) && PredAt(ts, a, b, x, other) && MorePreds(ts, b, e, rest, other)
    ensures PredsAt(ts, p, e, [x] + rest, other)
  {
    hide PredAt, MorePreds, Seps;
    var xs := [x] + rest;
    assert xs[0] == x && xs[1..] == rest;
  }

  lemma {:induction false} MatcherDerives(ts: seq<Token>, p: nat, other: Lexemes)
    requires Cursor(ts, p) && Ordered(ts) && ParseMatcher(ts, p, other).Parsed?
    ensures MatcherAt(ts, p, ParseMatcher(ts, p, other).pos, ParseMatcher(ts, p, other).value, other)
  {
    hide ParsePreds, PredsAt;
    var r, q := ParseMatcher(ts, p, other), PatternAt(ts, p);
    OverMeans(ts, p, r.pos, r.value.span);
    assert PatternIs(ts, p, q, r.value);
    if ts[q + 1].kind.LBracket? {
      PredsDerive(ts, q + 2, other);
    }
    assert RefinedBy(ts, q, r.pos, r.value.predicates, other);
  }

  lemma {:induction false} RouteDerives(ts: seq<Token>, p: nat, other: Lexemes) returns (e: nat)
    requires Cursor(ts, p) && Ordered(ts) && ts[p].kind == Atom("route") && ParseRoute(ts, p, other).Parsed?
    ensures e < |ts| && RouteAt(ts, p, e, ParseRoute(ts, p, other).value, other)
    ensures SkipSeps(ts, e) == ParseRoute(ts, p, other).pos
  {
    hide ParseMatcher, ParseSteps, MatcherAt, StepsAt, SkipSeps;
    var m := ParseMatcher(ts, p + 1, other);
    MatcherDerives(ts, p + 1, other);
    MatcherEnd(ts, p + 1, m.pos, m.value, other);
    e := StepsDerive(ts, m.pos);
    var steps := ParseSteps(ts, m.pos);
    StepsEnd(ts, m.pos, e, steps.value);
    OverMeans(ts, p, e, ParseRoute(ts, p, other).value.span);
  }

  // ---------- statements ----------

  lemma {:induction false} StmtDerives(ts: seq<Token>, p: nat, other: Lexemes) returns (e: nat)
    requires Cursor(ts, p) && Ordered(ts) && ParseStmt(ts, p, other).Parsed?
    ensures p < e < |ts| && StmtAt(ts, p, e, ParseStmt(ts, p, other).value, other)
    ensures ParseStmt(ts, p, other).pos == Resumes(ts, ParseStmt(ts, p, other).value, e)
    decreases |ts| - p, 0
  {
    hide RouteAt, SpaceArgsAt, StmtsAt, ParseRoute, ParseSpaceArgs, ParseStmts, SkipSeps;
    if ts[p].kind.text == "route" {
      e := RouteDerives(ts, p, other);
      RouteMoves(ts, p, e, ParseRoute(ts, p, other).value, other);
    } else {
      KeywordParsed(ts, p, other);
      var args := ParseSpaceArgs(ts, p + 1);
      SpaceArgsDerive(ts, p + 1);
      if ts[args.pos].kind.LBrace? {
        var body := ParseStmts(ts, args.pos + 1, true, other);
        BlockParsed(ts, p, other, args, body);
        hide ParseStmt, StmtAt;
        e := body.pos;
        var end := StmtsDerive(ts, args.pos + 1, true, other);
        BlockMade(ts, p, args.pos, e, args.value, body.value, other);
      } else {
        DirectiveParsed(ts, p, other, args);
        hide ParseStmt, StmtAt;
        e := args.pos;
        DirectiveMade(ts, p, e, args.value, other);
      }
    }
  }

  lemma {:induction false} RouteMoves(ts: seq<Token>, p: nat, e: nat, r: Route, other: Lexemes)
    requires RouteAt(ts, p, e, r, other)
    ensures p < e
  {}

  lemma {:induction false} DirectiveMade(ts: seq<Token>, p: nat, e: nat, args: seq<Arg>, other: Lexemes)
    requires Cursor(ts, p) && Ordered(ts) && ts[p].kind.Atom? && ts[p].kind.text != "route" && p + 1 <= e < |ts|
    requires SpaceArgsAt(ts, p + 1, e, args) && !StartsValue(ts[e].kind) && !ts[e].kind.LBrace?
    ensures StmtAt(ts, p, e, DirectiveOf(ts, p, args), other)
  {
    SpaceArgsEnd(ts, p + 1, e, args);
    assert args == [] ==> e == p + 1;
    hide SpaceArgsAt;
    var s := DirectiveOf(ts, p, args);
    OverMeans(ts, p, e, s.span);
  }

  lemma {:induction false} BlockMade(ts: seq<Token>, p: nat, q: nat, e: nat, args: seq<Arg>, body: seq<Stmt>, other: Lexemes)
    requires Cursor(ts, p) && Ordered(ts) && ts[p].kind.Atom? && ts[p].kind.text != "route" && p < q && q + 1 < e < |ts|
    requires SpaceArgsAt(ts, p + 1, q, args) && ts[q].kind.LBrace? && ts[e - 1].kind.RBrace?
    requires StmtsAt(ts, q + 1, e - 1, body, other)
    ensures StmtAt(ts, p, e, BlockOf(ts, p, args, body, e), other)
  {
    hide SpaceArgsAt, StmtsAt;
    var s := BlockOf(ts, p, args, body, e);
    OverMeans(ts, p, e, s.span);
  }

  lemma {:induction false} StmtsDerive(ts: seq<Token>, p: nat, inBlock: bool, other: Lexemes) returns (e: nat)
    requires Cursor(ts, p) && Ordered(ts) && ParseStmts(ts, p, inBlock, other).Parsed?
    ensures var r := ParseStmts(ts, p, inBlock, other);
            && e < |ts| && r.pos == (if inBlock then e + 1 else e) && ts[e].kind == (if inBlock then RBrace else Eof)
            && StmtsAt(ts, p, e, r.value, other)
    decreases |ts| - p, 1
  {
    hide ParseStmt, StmtAt, StmtsAt, Seps, SkipSeps;
    var q := SkipSeps(ts, p);
    SkipsSeps(ts, p);
    if ts[q].kind.Eof? || ts[q].kind.RBrace? {
      e := q;
      NoStmts(ts, p, q, other);
    } else {
      var s := ParseStmt(ts, q, other);
      var rest := ParseStmts(ts, s.pos, inBlock, other);
      StmtsParsed(ts, p, q, inBlock, other, s, rest);
      hide ParseStmts;
      var b := StmtDerives(ts, q, other);
      e := StmtsDerive(ts, s.pos, inBlock, other);
      ResumedStmts(ts, b, s.value, e, rest.value, other);
      StmtsMade(ts, p, q, b, e, s.value, rest.value, other);
    }
  }

  lemma {:induction false} NoStmts(ts: seq<Token>, p: nat, e: nat, other: Lexemes)
    requires Seps(ts, p, e)
    ensures StmtsAt(ts, p, e, [], other)
  {}

  lemma {:induction false} MoreSeps(ts: seq<Token>, p: nat, q: nat, e: nat)
    requires Seps(ts, p, q) && Seps(ts, q, e)
    ensures Seps(ts, p, e)
  {}

  /** Separators before statements belong to them. */
  lemma {:induction false} ResumedStmts(ts: seq<Token>, b: nat, s: Stmt, e: nat, rest: seq<Stmt>, other: Lexemes)
    requires Cursor(ts, b) && StmtsAt(ts, Resumes(ts, s, b), e, rest, other)
    ensures StmtsAt(ts, b, e, rest, other)
  {
    hide StmtAt;
    var q := Resumes(ts, s, b);
    if q != b {
      SkipsSeps(ts, b);
      if rest == [] {
        MoreSeps(ts, b, q, e);
      } else {
        var a, c := FirstStmt(ts, q, e, rest, other);
        MoreSeps(ts, b, q, a);
      }
    }
  }

  lemma {:induction false} StmtsMade(ts: seq<Token>, p: nat, a: nat, b: nat, e: nat, s: Stmt, rest: seq<Stmt>, other: Lexemes)
    requires Seps(ts, p, a) && StmtAt(ts, a, b, s, other) && StmtsAt(ts, b, e, rest, other)
    ensures StmtsAt(ts, p, e, [s] + rest, other)
  {
    hide StmtAt, Seps;
    var ss := [s] + rest;
    assert ss[0] == s && ss[1..] == rest;
  }

  // ---------- the theorems ----------

  /** On any tokens in order that end with the end marker, the parser gives `ss` exactly if the grammar
      derives `ss` from them; so no two trees have the same tokens. */
  lemma {:induction false} ParseIff(ts: seq<Token>, ss: seq<Stmt>, other: Lexemes)
    requires EofTerminated(ts) && Ordered(ts)
    ensures Parse(ts, other) == Ok(ss) <==> Document(ts, ss, other)
  {
    hide StmtsAt, ParseStmts;
    if Parse(ts, other) == Ok(ss) {
      var e := StmtsDerive(ts, 0, false, other);
    }
    if Document(ts, ss, other) {
      var e: nat :| StmtsAt(ts, 0, e, ss, other) && e < |ts| && ts[e].kind == Eof;
      StmtsRead(ts, 0, e, ss, false, other);
    }
  }

  lemma {:induction false} LexedIsReadable(text: string, ts: seq<Token>)
    requires FlowSpans.WellLexed(text, ts, 0)
    ensures EofTerminated(ts) && Ordered(ts)
  {
    forall i: nat, j: nat | i < j < |ts|
      ensures Before(ts, i, j)
    {
      LexedIsOrdered(text, ts, i, j);
    }
  }

  /** A text is accepted with the statements `ss` exactly if some tokens cover it and the grammar derives
      `ss` from them. */
  lemma {:induction false} AcceptedIff(text: string, ss: seq<Stmt>, other: Lexemes)
    ensures Accepts(text, ss, other) <==> exists ts :: FlowSpans.WellLexed(text, ts, 0) && Document(ts, ss, other)
  {
    hide FlowSpans.WellLexed, Document, Parse, Ordered;
    var lexed := FlowLexer.Lex(text, 0);
    if lexed.Ok? {
      FlowSpans.LexIff(text, lexed.value);
      LexedIsReadable(text, lexed.value);
      ParseIff(lexed.value, ss, other);
    }
    if ts :| FlowSpans.WellLexed(text, ts, 0) && Document(ts, ss, other) {
      FlowSpans.LexIff(text, ts);
    }
  }

  /** The text lexes and parses to these statements. */
  predicate Accepts(text: string, ss: seq<Stmt>, other: Lexemes) {
    var lexed := FlowLexer.Lex(text, 0);
    lexed.Ok? && EofTerminated(lexed.value) && Parse(lexed.value, other) == Ok(ss)
  }
}
