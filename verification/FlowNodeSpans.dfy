/** Where the nodes of a parsed tree say they lie: each node spans exactly its own tokens, children lie
    inside their parent, and siblings follow one another without overlap. */
module FlowNodeSpans {
  import opened FlowTokens
  import opened FlowAst
  import opened FlowGrammar
  import FlowLexer
  import FlowSpans

  ghost predicate Ordered(ts: seq<Token>) {
    forall i: nat, j: nat :: i < j < |ts| ==> Before(ts, i, j)
  }

  predicate Before(ts: seq<Token>, i: nat, j: nat)
    requires i < |ts| && j < |ts|
  {
    ts[i].span.End() <= ts[j].span.offset
  }

  lemma {:induction false} Follows(ts: seq<Token>, i: nat, j: nat)
    requires Ordered(ts) && i < j < |ts|
    ensures ts[i].span.End() <= ts[j].span.offset
  {
    assert Before(ts, i, j);
  }

  lemma {:induction false} NoEarlier(ts: seq<Token>, i: nat, j: nat)
    requires Ordered(ts) && i <= j < |ts|
    ensures ts[i].span.offset <= ts[j].span.offset && ts[i].span.End() <= ts[j].span.End()
  {
    if i < j {
      Follows(ts, i, j);
    }
  }

  /** From the start of token `p` to the end of the token before `q`. */
  predicate Covers(ts: seq<Token>, p: nat, q: nat, span: Span) {
    p < q <= |ts| && span == SpanTo(ts[p].span, ts[q - 1].span.End())
  }

  lemma {:induction false} CoversEnds(ts: seq<Token>, p: nat, q: nat, span: Span)
    requires Ordered(ts) && Covers(ts, p, q, span)
    ensures span.offset == ts[p].span.offset && span.End() == ts[q - 1].span.End()
  {
    NoEarlier(ts, p, q - 1);
  }

  // ---------- well-nested trees ----------

  ghost predicate ValueNested(v: SpannedValue)
    decreases v, 1
  {
    v.node.Array? ==> ItemsNested(v.node.items, v.span.offset, v.span.End())
  }

  /** In order, disjoint, and between `lo` and `hi`. */
  ghost predicate ItemsNested(items: seq<SpannedValue>, lo: nat, hi: nat)
    decreases items, 0
  {
    items != [] ==>
      && lo <= items[0].span.offset && items[0].span.End() <= hi && ValueNested(items[0])
      && ItemsNested(items[1..], items[0].span.End(), hi)
  }

  ghost predicate ArgNested(a: Arg) {
    ValueNested(a.value) && (a.Named? ==> a.name.span.End() <= a.value.span.offset)
  }

  ghost predicate ArgsNested(args: seq<Arg>, lo: nat, hi: nat) {
    args != [] ==>
      && lo <= args[0].ArgSpan().offset && args[0].ArgSpan().End() <= hi && ArgNested(args[0])
      && ArgsNested(args[1..], args[0].ArgSpan().End(), hi)
  }

  ghost predicate StepNested(s: Step) {
    s.name.span.offset == s.span.offset && ArgsNested(s.args, s.name.span.End(), s.span.End())
  }

  ghost predicate StepsNested(steps: seq<Step>, lo: nat, hi: nat) {
    steps != [] ==>
      && lo <= steps[0].span.offset && steps[0].span.End() <= hi && StepNested(steps[0])
      && StepsNested(steps[1..], steps[0].span.End(), hi)
  }

  ghost predicate PredsNested(xs: seq<Pred>, lo: nat, hi: nat) {
    xs != [] ==>
      lo <= xs[0].span.offset && xs[0].span.End() <= hi && PredsNested(xs[1..], xs[0].span.End(), hi)
  }

  ghost predicate MatcherNested(m: Matcher) {
    && m.span.offset <= m.pattern.span.offset && m.pattern.span.End() <= m.span.End()
    && PredsNested(m.predicates, m.pattern.span.End(), m.span.End())
  }

  ghost predicate RouteNested(r: Route) {
    && r.span.offset <= r.matcher.span.offset && r.matcher.span.End() <= r.span.End() && MatcherNested(r.matcher)
    && StepsNested(r.steps, r.matcher.span.End(), r.span.End())
  }

  function StmtSpan(s: Stmt): Span {
    if s.RouteStmt? then s.route.span else s.span
  }

  ghost predicate StmtNested(s: Stmt)
    decreases s, 1
  {
    match s
    case RouteStmt(r) => RouteNested(r)
    case Directive(k, args, span) => k.span.offset == span.offset && ArgsNested(args, k.span.End(), span.End())
    case Block(k, args, body, span) =>
      && k.span.offset == span.offset && ArgsNested(args, k.span.End(), span.End())
      && StmtsNested(body, ArgsEnd(k, args), span.End())
  }

  ghost predicate StmtsNested(stmts: seq<Stmt>, lo: nat, hi: nat)
    decreases stmts, 0
  {
    stmts != [] ==>
      && lo <= StmtSpan(stmts[0]).offset && StmtSpan(stmts[0]).End() <= hi && StmtNested(stmts[0])
      && StmtsNested(stmts[1..], StmtSpan(stmts[0]).End(), hi)
  }

  // ---------- values and arguments ----------

  lemma {:induction false} ValueCovers(ts: seq<Token>, p: nat)
    requires Cursor(ts, p) && Ordered(ts) && ParseValue(ts, p).Parsed?
    ensures var r := ParseValue(ts, p); Covers(ts, p, r.pos, r.value.span) && ValueNested(r.value)
    decreases |ts| - p, 0
  {
    if ts[p].kind.LBracket? {
      NoEarlier(ts, p, p + 1);
      ItemsCover(ts, p + 1, ts[p].span.offset);
      var r := ParseValue(ts, p);
      CoversEnds(ts, p, r.pos, r.value.span);
      ItemsWiden(ParseItems(ts, p + 1).value, ts[p].span.offset, ts[r.pos - 1].span.offset, r.value.span.End());
    }
  }

  lemma {:induction false} ItemsCons(v: SpannedValue, vs: seq<SpannedValue>, lo: nat, hi: nat)
    requires lo <= v.span.offset && v.span.End() <= hi && ValueNested(v) && ItemsNested(vs, v.span.End(), hi)
    ensures ItemsNested([v] + vs, lo, hi)
  {
    assert ([v] + vs)[1..] == vs;
  }

  lemma {:induction false} ItemsParsed(ts: seq<Token>, p: nat, q: nat, v: Parsed<SpannedValue>, e: nat, rest: Parsed<seq<SpannedValue>>)
    requires Cursor(ts, p) && ParseItems(ts, p).Parsed? && q == SkipSeps(ts, p) && !ts[q].kind.RBracket?
    requires v == ParseValue(ts, q) && v.Parsed? && e == SkipSeps(ts, v.pos) && ts[e].kind.Comma?
    requires rest == ParseItems(ts, e + 1)
    ensures rest.Parsed? && ParseItems(ts, p) == Parsed([v.value] + rest.value, rest.pos)
  {}

  lemma {:induction false} ItemsCover(ts: seq<Token>, p: nat, lo: nat)
    requires Cursor(ts, p) && Ordered(ts) && ParseItems(ts, p).Parsed? && lo <= ts[p].span.offset
    ensures var r := ParseItems(ts, p); ItemsNested(r.value, lo, ts[r.pos].span.offset)
    decreases |ts| - p, 1
  {
    var q := SkipSeps(ts, p);
    if !ts[q].kind.RBracket? {
      var v := ParseValue(ts, q);
      NoEarlier(ts, p, q);
      ValueCovers(ts, q);
      CoversEnds(ts, q, v.pos, v.value.span);
      var e := SkipSeps(ts, v.pos);
      if ts[e].kind.Comma? {
        var rest := ParseItems(ts, e + 1);
        ItemsParsed(ts, p, q, v, e, rest);
        Follows(ts, v.pos - 1, e + 1);
        ItemsCover(ts, e + 1, v.value.span.End());
        Follows(ts, v.pos - 1, rest.pos);
        ItemsCons(v.value, rest.value, lo, ts[rest.pos].span.offset);
      } else {
        Follows(ts, v.pos - 1, e);
        ItemsCons(v.value, [], lo, ts[e].span.offset);
        assert [v.value] + [] == [v.value];
      }
    }
  }

  lemma {:induction false} ItemsWiden(items: seq<SpannedValue>, lo: nat, hi: nat, hi': nat)
    requires ItemsNested(items, lo, hi) && hi <= hi'
    ensures ItemsNested(items, lo, hi')
    decreases |items|
  {
    if items == [] {
    } else {
      ItemsWiden(items[1..], items[0].span.End(), hi, hi');
    }
  }

  lemma {:induction false} ArgCovers(ts: seq<Token>, p: nat)
    requires Cursor(ts, p) && Ordered(ts) && ParseArg(ts, p).Parsed?
    ensures var r := ParseArg(ts, p); Covers(ts, p, r.pos, r.value.ArgSpan()) && ArgNested(r.value)
  {
    if StartsNamed(ts, p) {
      ValueCovers(ts, p + 2);
      CoversEnds(ts, p + 2, ParseArg(ts, p).pos, ParseArg(ts, p).value.value.span);
      Follows(ts, p, p + 2);
    } else {
      ValueCovers(ts, p);
    }
  }

  lemma {:induction false} ArgsCons(a: Arg, args: seq<Arg>, lo: nat, hi: nat)
    requires lo <= a.ArgSpan().offset && a.ArgSpan().End() <= hi && ArgNested(a)
    requires ArgsNested(args, a.ArgSpan().End(), hi)
    ensures ArgsNested([a] + args, lo, hi)
  {
    assert ([a] + args)[1..] == args;
  }

  /** Arguments separated by blanks end with the token before the cursor. */
  lemma {:induction false} SpaceArgsCover(ts: seq<Token>, p: nat, lo: nat)
    requires Cursor(ts, p) && Ordered(ts) && ParseSpaceArgs(ts, p).Parsed? && lo <= ts[p].span.offset
    ensures var r := ParseSpaceArgs(ts, p);
            if r.value == [] then r.pos == p
            else
              && p < r.pos && ArgsNested(r.value, lo, ts[r.pos - 1].span.End())
              && r.value[|r.value| - 1].ArgSpan().End() == ts[r.pos - 1].span.End()
    decreases |ts| - p
  {
    if StartsValue(ts[p].kind) {
      ArgCovers(ts, p);
      var a := ParseArg(ts, p);
      CoversEnds(ts, p, a.pos, a.value.ArgSpan());
      Follows(ts, a.pos - 1, a.pos);
      SpaceArgsCover(ts, a.pos, a.value.ArgSpan().End());
      var rest := ParseSpaceArgs(ts, a.pos);
      NoEarlier(ts, a.pos - 1, rest.pos - 1);
      ArgsCons(a.value, rest.value, lo, ts[rest.pos - 1].span.End());
    }
  }

  lemma {:induction false} ParenArgsCover(ts: seq<Token>, p: nat, lo: nat)
    requires Cursor(ts, p) && Ordered(ts) && ParseParenArgs(ts, p).Parsed? && lo <= ts[p].span.offset
    ensures var r := ParseParenArgs(ts, p); ArgsNested(r.value, lo, ts[r.pos].span.offset)
    decreases |ts| - p
  {
    var q := SkipSeps(ts, p);
    if !ts[q].kind.RParen? {
      var a := ParseArg(ts, q);
      NoEarlier(ts, p, q);
      ArgCovers(ts, q);
      CoversEnds(ts, q, a.pos, a.value.ArgSpan());
      var e := SkipSeps(ts, a.pos);
      if ts[e].kind.Comma? {
        var rest := ParseParenArgs(ts, e + 1);
        Follows(ts, a.pos - 1, e + 1);
        ParenArgsCover(ts, e + 1, a.value.ArgSpan().End());
        Follows(ts, a.pos - 1, rest.pos);
        ArgsCons(a.value, rest.value, lo, ts[rest.pos].span.offset);
      } else {
        Follows(ts, a.pos - 1, e);
        ArgsCons(a.value, [], lo, ts[e].span.offset);
        assert [a.value] + [] == [a.value];
      }
    }
  }

  lemma {:induction false} ArgsWiden(args: seq<Arg>, lo: nat, hi: nat, hi': nat)
    requires ArgsNested(args, lo, hi) && hi <= hi'
    ensures ArgsNested(args, lo, hi')
    decreases |args|
  {
    if args == [] {
    } else {
      ArgsWiden(args[1..], args[0].ArgSpan().End(), hi, hi');
    }
  }

  // ---------- routes ----------

  lemma {:induction false} StepCovers(ts: seq<Token>, p: nat)
    requires Cursor(ts, p) && Ordered(ts) && ParseStep(ts, p).Parsed?
    ensures var r := ParseStep(ts, p); Covers(ts, p, r.pos, r.value.span) && StepNested(r.value)
  {
    var r := ParseStep(ts, p);
    if ts[p + 1].kind.LParen? {
      Follows(ts, p, p + 2);
      ParenArgsCover(ts, p + 2, ts[p].span.End());
      CoversEnds(ts, p, r.pos, r.value.span);
      ArgsWiden(r.value.args, ts[p].span.End(), ts[r.pos - 1].span.offset, r.value.span.End());
    }
  }

  /** Behind the last token before `q` that is no separator. */
  function Behind(ts: seq<Token>, q: nat): (e: nat)
    requires 0 < q <= |ts|
    ensures 0 < e <= q
  {
    if q > 1 && ts[q - 1].kind.Sep? then Behind(ts, q - 1) else q
  }

  lemma {:induction false} BehindSkipped(ts: seq<Token>, p: nat)
    requires Cursor(ts, p) && p > 0
    ensures Behind(ts, SkipSeps(ts, p)) == Behind(ts, p)
    decreases |ts| - p
  {
    if ts[p].kind.Sep? {
      BehindSkipped(ts, p + 1);
    }
  }

  /** In order, and ending with token `end - 1`. */
  ghost predicate StepsReach(ts: seq<Token>, p: nat, steps: seq<Step>, end: nat, lo: nat) {
    && p <= end <= |ts| && 0 < end && (steps == [] ==> end == p)
    && StepsNested(steps, lo, ts[end - 1].span.End())
    && (steps != [] ==> steps[|steps| - 1].span.End() == ts[end - 1].span.End())
  }

  /** The steps of a pipeline end with the last token that is no separator. */
  lemma {:induction false} StepsCover(ts: seq<Token>, p: nat, lo: nat)
    requires Cursor(ts, p) && p > 0 && !ts[p - 1].kind.Sep? && Ordered(ts) && ParseSteps(ts, p).Parsed?
    requires lo <= ts[p - 1].span.End()
    ensures var r := ParseSteps(ts, p); StepsReach(ts, p, r.value, Behind(ts, r.pos), lo)
    decreases |ts| - p
  {
    BehindSkipped(ts, p);
    var q := SkipSeps(ts, p);
    if ts[q].kind.Arrow? {
      var n := SkipSeps(ts, q + 1);
      var s := ParseStep(ts, n);
      var rest := ParseSteps(ts, s.pos);
      StepsParsed(ts, p, n, s, rest);
      StepCovers(ts, n);
      StepEndsSolid(ts, n);
      CoversEnds(ts, n, s.pos, s.value.span);
      StepsCover(ts, s.pos, s.value.span.End());
      Follows(ts, p - 1, n);
      StepsCons(ts, p, n, s.value, s.pos, rest.value, Behind(ts, rest.pos), lo);
    }
  }

  lemma {:induction false} StepsParsed(ts: seq<Token>, p: nat, n: nat, s: Parsed<Step>, rest: Parsed<seq<Step>>)
    requires Cursor(ts, p) && ParseSteps(ts, p).Parsed? && ts[SkipSeps(ts, p)].kind.Arrow?
    requires n == SkipSeps(ts, SkipSeps(ts, p) + 1) && s == ParseStep(ts, n)
    requires s.Parsed? ==> rest == ParseSteps(ts, s.pos)
    ensures s.Parsed? && rest.Parsed? && ParseSteps(ts, p) == Parsed([s.value] + rest.value, rest.pos)
  {}

  lemma {:induction false} StepEndsSolid(ts: seq<Token>, p: nat)
    requires Cursor(ts, p) && ParseStep(ts, p).Parsed?
    ensures !ts[ParseStep(ts, p).pos - 1].kind.Sep?
  {}

  lemma {:induction false} StepsCons(ts: seq<Token>, p: nat, n: nat, s: Step, e: nat, rest: seq<Step>, end: nat, lo: nat)
    requires Ordered(ts) && p <= n < e < |ts| && lo <= ts[n].span.offset == s.span.offset
    requires s.span.End() == ts[e - 1].span.End() && StepNested(s)
    requires StepsReach(ts, e, rest, end, s.span.End())
    ensures StepsReach(ts, p, [s] + rest, end, lo)
  {
    assert ([s] + rest)[1..] == rest;
    NoEarlier(ts, e - 1, end - 1);
  }

  lemma {:induction false} PredCovers(ts: seq<Token>, p: nat, other: Lexemes)
    requires Cursor(ts, p) && Ordered(ts) && ParsePred(ts, p, other).Parsed?
    ensures var r := ParsePred(ts, p, other); Covers(ts, p, r.pos, r.value.span)
  {
    if ts[p + 1].kind.Equals? {
      ValueCovers(ts, p + 2);
      CoversEnds(ts, p + 2, ParseValue(ts, p + 2).pos, ParseValue(ts, p + 2).value.span);
    }
  }

  lemma {:induction false} PredsCover(ts: seq<Token>, p: nat, other: Lexemes, lo: nat)
    requires Cursor(ts, p) && Ordered(ts) && ParsePreds(ts, p, other).Parsed? && lo <= ts[p].span.offset
    ensures var r := ParsePreds(ts, p, other); PredsNested(r.value, lo, ts[r.pos].span.offset)
    decreases |ts| - p
  {
    var q := SkipSeps(ts, p);
    if !ts[q].kind.RBracket? {
      var x := ParsePred(ts, q, other);
      NoEarlier(ts, p, q);
      PredCovers(ts, q, other);
      CoversEnds(ts, q, x.pos, x.value.span);
      var e := SkipSeps(ts, x.pos);
      if ts[e].kind.Comma? {
        var rest := ParsePreds(ts, e + 1, other);
        Follows(ts, x.pos - 1, e + 1);
        PredsCover(ts, e + 1, other, x.value.span.End());
        Follows(ts, x.pos - 1, rest.pos);
        assert ([x.value] + rest.value)[1..] == rest.value;
      } else {
        Follows(ts, x.pos - 1, e);
      }
    }
  }

  lemma {:induction false} PredsWiden(xs: seq<Pred>, lo: nat, hi: nat, hi': nat)
    requires PredsNested(xs, lo, hi) && hi <= hi'
    ensures PredsNested(xs, lo, hi')
    decreases |xs|
  {
    if xs == [] {
    } else {
      PredsWiden(xs[1..], xs[0].span.End(), hi, hi');
    }
  }

  /** The token the pattern stands at. */
  function PatternAt(ts: seq<Token>, p: nat): nat
    requires Cursor(ts, p)
  {
    if MatchKindAt(ts, p).Prefix? then p else p + 1
  }

  lemma {:induction false} MatcherCovers(ts: seq<Token>, p: nat, other: Lexemes)
    requires Cursor(ts, p) && Ordered(ts) && ParseMatcher(ts, p, other).Parsed?
    ensures var r := ParseMatcher(ts, p, other);
            Covers(ts, p, r.pos, r.value.span) && MatcherNested(r.value) && !ts[r.pos - 1].kind.Sep?
  {
    var q := PatternAt(ts, p);
    if ts[q + 1].kind.LBracket? {
      RefinedMatcherCovers(ts, p, q, other);
    } else {
      PlainMatcherCovers(ts, p, q, other);
    }
  }

  lemma {:induction false} PlainMatcherCovers(ts: seq<Token>, p: nat, q: nat, other: Lexemes)
    requires Cursor(ts, p) && Ordered(ts) && ParseMatcher(ts, p, other).Parsed?
    requires q == PatternAt(ts, p) && !ts[q + 1].kind.LBracket?
    ensures var r := ParseMatcher(ts, p, other);
            Covers(ts, p, r.pos, r.value.span) && MatcherNested(r.value) && !ts[r.pos - 1].kind.Sep?
  {
    var r := ParseMatcher(ts, p, other);
    assert Covers(ts, p, r.pos, r.value.span) && r.pos == q + 1;
    CoversEnds(ts, p, r.pos, r.value.span);
    NoEarlier(ts, p, q);
  }

  lemma {:induction false} RefinedMatcherCovers(ts: seq<Token>, p: nat, q: nat, other: Lexemes)
    requires Cursor(ts, p) && Ordered(ts) && ParseMatcher(ts, p, other).Parsed?
    requires q == PatternAt(ts, p) && ts[q + 1].kind.LBracket?
    ensures var r := ParseMatcher(ts, p, other);
            Covers(ts, p, r.pos, r.value.span) && MatcherNested(r.value) && !ts[r.pos - 1].kind.Sep?
  {
    var r := ParseMatcher(ts, p, other);
    var preds := ParsePreds(ts, q + 2, other);
    assert Covers(ts, p, r.pos, r.value.span) && r.pos == preds.pos + 1;
    CoversEnds(ts, p, r.pos, r.value.span);
    NoEarlier(ts, p, q);
    Follows(ts, q, q + 2);
    PredsCover(ts, q + 2, other, ts[q].span.End());
    NoEarlier(ts, q, r.pos - 1);
    PredsWiden(preds.value, ts[q].span.End(), ts[r.pos - 1].span.offset, r.value.span.End());
  }

  lemma {:induction false} RouteCovers(ts: seq<Token>, p: nat, other: Lexemes)
    requires Cursor(ts, p) && Ordered(ts) && ts[p].kind.Atom? && ParseRoute(ts, p, other).Parsed?
    ensures var r := ParseRoute(ts, p, other);
            Covers(ts, p, Behind(ts, r.pos), r.value.span) && RouteNested(r.value)
  {
    MatcherCovers(ts, p + 1, other);
    var m := ParseMatcher(ts, p + 1, other);
    CoversEnds(ts, p + 1, m.pos, m.value.span);
    StepsCover(ts, m.pos, m.value.span.End());
    var steps := ParseSteps(ts, m.pos);
    RouteSpans(ts, p, m.value, m.pos, steps.value, Behind(ts, steps.pos));
  }

  lemma {:induction false} RouteSpans(ts: seq<Token>, p: nat, m: Matcher, e: nat, steps: seq<Step>, end: nat)
    requires Ordered(ts) && p + 1 < e < |ts| && Covers(ts, p + 1, e, m.span) && MatcherNested(m)
    requires m.span.offset == ts[p + 1].span.offset && m.span.End() == ts[e - 1].span.End()
    requires StepsReach(ts, e, steps, end, m.span.End())
    ensures var span := SpanTo(ts[p].span, RouteEnd(m, steps));
            Covers(ts, p, end, span) && RouteNested(Route(m, steps, span))
  {
    var span := SpanTo(ts[p].span, RouteEnd(m, steps));
    assert RouteEnd(m, steps) == ts[end - 1].span.End();
    CoversEnds(ts, p, end, span);
    NoEarlier(ts, p, p + 1);
    NoEarlier(ts, e - 1, end - 1);
  }

  // ---------- statements ----------

  /** Every statement spans its own tokens, from its keyword to the last one that is no separator. */
  lemma {:induction false} StmtCovers(ts: seq<Token>, p: nat, other: Lexemes)
    requires Cursor(ts, p) && Ordered(ts) && ParseStmt(ts, p, other).Parsed?
    ensures Fits(ts, p, ParseStmt(ts, p, other).value, ParseStmt(ts, p, other).pos)
    decreases |ts| - p, 1
  {
    if ts[p].kind.text == "route" {
      RouteCovers(ts, p, other);
    } else {
      KeywordCovers(ts, p, other);
    }
  }

  lemma {:induction false} KeywordCovers(ts: seq<Token>, p: nat, other: Lexemes)
    requires Cursor(ts, p) && Ordered(ts) && ParseStmt(ts, p, other).Parsed?
    requires ts[p].kind.Atom? && ts[p].kind.text != "route"
    ensures Fits(ts, p, ParseStmt(ts, p, other).value, ParseStmt(ts, p, other).pos)
    decreases |ts| - p, 0
  {
    hide ParseStmt, ParseStmts, ParseSpaceArgs, StmtNested, ArgsNested, Fits;
    var args := ParseSpaceArgs(ts, p + 1);
    KeywordParsed(ts, p, other);
    SpaceArgsEndSolid(ts, p + 1);
    KeywordReaches(ts, p, args);
    if ts[args.pos].kind.LBrace? {
      var body := ParseStmts(ts, args.pos + 1, true, other);
      BlockParsed(ts, p, other, args, body);
      BodyCovers(ts, args.pos, other, body);
      BlockSpans(ts, p, args.value, args.pos, body.value, body.pos);
    } else {
      DirectiveParsed(ts, p, other, args);
      DirectiveCovers(ts, p, args);
    }
  }

  lemma {:induction false} KeywordParsed(ts: seq<Token>, p: nat, other: Lexemes)
    requires Cursor(ts, p) && ParseStmt(ts, p, other).Parsed? && ts[p].kind.Atom? && ts[p].kind.text != "route"
    ensures ParseSpaceArgs(ts, p + 1).Parsed?
  {}

  lemma {:induction false} DirectiveParsed(ts: seq<Token>, p: nat, other: Lexemes, args: Parsed<seq<Arg>>)
    requires Cursor(ts, p) && ts[p].kind.Atom? && ts[p].kind.text != "route"
    requires args == ParseSpaceArgs(ts, p + 1) && args.Parsed? && !ts[args.pos].kind.LBrace?
    ensures ParseStmt(ts, p, other) == Parsed(DirectiveOf(ts, p, args.value), args.pos)
  {}

  /** The directive, and the block, that starts with the keyword at `p`. */
  function DirectiveOf(ts: seq<Token>, p: nat, args: seq<Arg>): Stmt
    requires p < |ts| && ts[p].kind.Atom?
  {
    var k := Name(ts[p].kind.text, ts[p].span);
    Directive(k, args, SpanTo(k.span, ArgsEnd(k, args)))
  }

  function BlockOf(ts: seq<Token>, p: nat, args: seq<Arg>, body: seq<Stmt>, e: nat): Stmt
    requires p < |ts| && ts[p].kind.Atom? && 0 < e <= |ts|
  {
    var k := Name(ts[p].kind.text, ts[p].span);
    Block(k, args, body, SpanTo(k.span, ts[e - 1].span.End()))
  }

  /** The statement spans the tokens from `p` to the last before `e` that is no separator, and nests. */
  ghost predicate Fits(ts: seq<Token>, p: nat, s: Stmt, e: nat) {
    0 < e <= |ts| && Covers(ts, p, Behind(ts, e), StmtSpan(s)) && StmtNested(s)
  }

  lemma {:induction false} SpaceArgsEndSolid(ts: seq<Token>, p: nat)
    requires Cursor(ts, p) && ParseSpaceArgs(ts, p).Parsed? && p > 0 && !ts[p - 1].kind.Sep?
    ensures !ts[ParseSpaceArgs(ts, p).pos - 1].kind.Sep?
    decreases |ts| - p
  {
    if StartsValue(ts[p].kind) {
      ArgEndsSolid(ts, p);
      SpaceArgsEndSolid(ts, ParseArg(ts, p).pos);
    }
  }

  lemma {:induction false} ArgEndsSolid(ts: seq<Token>, p: nat)
    requires Cursor(ts, p) && ParseArg(ts, p).Parsed?
    ensures !ts[ParseArg(ts, p).pos - 1].kind.Sep?
  {
    ValueEndsSolid(ts, if StartsNamed(ts, p) then p + 2 else p);
  }

  lemma {:induction false} ValueEndsSolid(ts: seq<Token>, p: nat)
    requires Cursor(ts, p) && ParseValue(ts, p).Parsed?
    ensures !ts[ParseValue(ts, p).pos - 1].kind.Sep?
  {
    if ts[p].kind.LBracket? {
      assert ParseValue(ts, p) == ParseArray(ts, p);
    }
  }

  /** A keyword and its arguments, up to token `q - 1`. */
  ghost predicate Headed(ts: seq<Token>, p: nat, args: seq<Arg>, q: nat) {
    && p < q < |ts| && ts[p].kind.Atom?
    && ArgsNested(args, ts[p].span.End(), ts[q - 1].span.End())
    && ArgsEnd(Name(ts[p].kind.text, ts[p].span), args) == ts[q - 1].span.End()
  }

  lemma {:induction false} KeywordReaches(ts: seq<Token>, p: nat, args: Parsed<seq<Arg>>)
    requires Cursor(ts, p) && Ordered(ts) && ts[p].kind.Atom?
    requires args == ParseSpaceArgs(ts, p + 1) && args.Parsed?
    ensures Headed(ts, p, args.value, args.pos)
  {
    Follows(ts, p, p + 1);
    SpaceArgsCover(ts, p + 1, ts[p].span.End());
  }

  lemma {:induction false} DirectiveCovers(ts: seq<Token>, p: nat, args: Parsed<seq<Arg>>)
    requires Ordered(ts) && args.Parsed? && Headed(ts, p, args.value, args.pos)
    requires !ts[args.pos - 1].kind.Sep?
    ensures Fits(ts, p, DirectiveOf(ts, p, args.value), args.pos)
  {
    var k := Name(ts[p].kind.text, ts[p].span);
    CoversEnds(ts, p, args.pos, SpanTo(k.span, ArgsEnd(k, args.value)));
  }

  lemma {:induction false} BodyCovers(ts: seq<Token>, q: nat, other: Lexemes, body: Parsed<seq<Stmt>>)
    requires Cursor(ts, q) && 0 < q && Ordered(ts) && q + 1 < |ts|
    requires body == ParseStmts(ts, q + 1, true, other) && body.Parsed?
    ensures q + 1 < body.pos < |ts| && ts[body.pos - 1].kind.RBrace?
    ensures StmtsNested(body.value, ts[q - 1].span.End(), ts[body.pos - 1].span.offset)
    decreases |ts| - q, 2
  {
    hide ParseStmts, StmtsNested;
    Follows(ts, q - 1, q + 1);
    StmtsCover(ts, q + 1, true, other, ts[q - 1].span.End());
  }

  lemma {:induction false} BlockParsed(ts: seq<Token>, p: nat, other: Lexemes, args: Parsed<seq<Arg>>, body: Parsed<seq<Stmt>>)
    requires Cursor(ts, p) && ts[p].kind.Atom? && ts[p].kind.text != "route" && ParseStmt(ts, p, other).Parsed?
    requires args == ParseSpaceArgs(ts, p + 1) && args.Parsed? && ts[args.pos].kind.LBrace?
    requires body == ParseStmts(ts, args.pos + 1, true, other)
    ensures body.Parsed? && 0 < body.pos
    ensures ParseStmt(ts, p, other) == Parsed(BlockOf(ts, p, args.value, body.value, body.pos), body.pos)
  {}

  lemma {:induction false} BlockSpans(ts: seq<Token>, p: nat, args: seq<Arg>, q: nat, body: seq<Stmt>, e: nat)
    requires Ordered(ts) && Headed(ts, p, args, q) && q + 1 < e < |ts| && ts[e - 1].kind.RBrace?
    requires StmtsNested(body, ts[q - 1].span.End(), ts[e - 1].span.offset)
    ensures Fits(ts, p, BlockOf(ts, p, args, body, e), e)
  {
    var k := Name(ts[p].kind.text, ts[p].span);
    var span := SpanTo(k.span, ts[e - 1].span.End());
    CoversEnds(ts, p, e, span);
    NoEarlier(ts, q - 1, e - 1);
    ArgsWiden(args, ts[p].span.End(), ts[q - 1].span.End(), span.End());
    StmtsWiden(body, ts[q - 1].span.End(), ts[e - 1].span.offset, span.End());
  }

  /** The token a list of statements stops at: the closing brace, or the end of input. */
  function StopsAt(inBlock: bool, pos: nat): nat {
    if inBlock && pos > 0 then pos - 1 else pos
  }

  lemma {:induction false} StmtsCover(ts: seq<Token>, p: nat, inBlock: bool, other: Lexemes, lo: nat)
    requires Cursor(ts, p) && Ordered(ts) && ParseStmts(ts, p, inBlock, other).Parsed? && lo <= ts[p].span.offset
    ensures var r := ParseStmts(ts, p, inBlock, other);
            && p <= StopsAt(inBlock, r.pos) && (inBlock ==> ts[r.pos - 1].kind.RBrace?)
            && StmtsNested(r.value, lo, ts[StopsAt(inBlock, r.pos)].span.offset)
    decreases |ts| - p, 2
  {
    var q := SkipSeps(ts, p);
    if !ts[q].kind.Eof? && !ts[q].kind.RBrace? {
      var s := ParseStmt(ts, q, other);
      var rest := ParseStmts(ts, s.pos, inBlock, other);
      StmtsParsed(ts, p, q, inBlock, other, s, rest);
      StmtCovers(ts, q, other);
      StmtEndsBefore(ts, q, s.value, s.pos);
      StmtsCover(ts, s.pos, inBlock, other, StmtSpan(s.value).End());
      StmtsJoin(ts, p, q, s.value, s.pos, rest.value, StopsAt(inBlock, rest.pos), lo);
    }
  }

  lemma {:induction false} StmtEndsBefore(ts: seq<Token>, q: nat, s: Stmt, e: nat)
    requires Ordered(ts) && 0 < e < |ts| && Covers(ts, q, Behind(ts, e), StmtSpan(s))
    ensures StmtSpan(s).End() <= ts[e].span.offset
  {
    CoversEnds(ts, q, Behind(ts, e), StmtSpan(s));
    Follows(ts, Behind(ts, e) - 1, e);
  }

  lemma {:induction false} StmtsJoin(ts: seq<Token>, p: nat, q: nat, s: Stmt, e: nat, rest: seq<Stmt>, stop: nat, lo: nat)
    requires Ordered(ts) && p <= q && 0 < e <= stop < |ts| && Covers(ts, q, Behind(ts, e), StmtSpan(s)) && StmtNested(s)
    requires lo <= ts[p].span.offset && StmtsNested(rest, StmtSpan(s).End(), ts[stop].span.offset)
    ensures StmtsNested([s] + rest, lo, ts[stop].span.offset)
  {
    CoversEnds(ts, q, Behind(ts, e), StmtSpan(s));
    NoEarlier(ts, p, q);
    StmtEndsBefore(ts, q, s, e);
    NoEarlier(ts, e, stop);
    StmtsCons(s, rest, lo, ts[stop].span.offset);
  }

  lemma {:induction false} StmtsParsed(ts: seq<Token>, p: nat, q: nat, inBlock: bool, other: Lexemes,
                    s: Parsed<Stmt>, rest: Parsed<seq<Stmt>>)
    requires Cursor(ts, p) && ParseStmts(ts, p, inBlock, other).Parsed? && q == SkipSeps(ts, p)
    requires !ts[q].kind.Eof? && !ts[q].kind.RBrace? && s == ParseStmt(ts, q, other)
    requires s.Parsed? ==> rest == ParseStmts(ts, s.pos, inBlock, other)
    ensures s.Parsed? && rest.Parsed? && ParseStmts(ts, p, inBlock, other) == Parsed([s.value] + rest.value, rest.pos)
  {}

  lemma {:induction false} StmtsCons(s: Stmt, rest: seq<Stmt>, lo: nat, hi: nat)
    requires lo <= StmtSpan(s).offset && StmtSpan(s).End() <= hi && StmtNested(s)
    requires StmtsNested(rest, StmtSpan(s).End(), hi)
    ensures StmtsNested([s] + rest, lo, hi)
  {
    assert ([s] + rest)[1..] == rest;
  }

  // ---------- from the text ----------

  lemma {:induction false} LexedIsOrdered(text: string, ts: seq<Token>, i: nat, j: nat)
    requires FlowSpans.WellLexed(text, ts, 0) && i < j < |ts|
    ensures ts[i].span.End() <= ts[j].span.offset
    decreases j
  {
    assert FlowSpans.Placed(text, ts, j, 0);
    if i < j - 1 {
      LexedIsOrdered(text, ts, i, j - 1);
    }
  }

  /** For every text that lexes and parses, the statements and all nodes in them lie in the text, in
      order, disjoint and well nested. */
  lemma {:induction false} ParsedTextIsNested(text: string, other: Lexemes)
    requires FlowLexer.Lex(text, 0).Ok?
    ensures var ts := FlowLexer.Lex(text, 0).value;
            EofTerminated(ts) && (Parse(ts, other).Ok? ==> StmtsNested(Parse(ts, other).value, 0, |text|))
  {
    var ts := FlowLexer.Lex(text, 0).value;
    FlowSpans.LexIsFaithful(text, 0);
    assert FlowSpans.Placed(text, ts, |ts| - 1, 0);
    forall i: nat, j: nat | i < j < |ts|
      ensures Before(ts, i, j)
    {
      LexedIsOrdered(text, ts, i, j);
    }
    if Parse(ts, other).Ok? {
      StmtsCover(ts, 0, false, other, 0);
      var r := ParseStmts(ts, 0, false, other);
      assert FlowSpans.Placed(text, ts, r.pos, 0);
      StmtsWiden(r.value, 0, ts[r.pos].span.offset, |text|);
    }
  }

  lemma {:induction false} StmtsWiden(stmts: seq<Stmt>, lo: nat, hi: nat, hi': nat)
    requires StmtsNested(stmts, lo, hi) && hi <= hi'
    ensures StmtsNested(stmts, lo, hi')
    decreases |stmts|
  {
    if stmts == [] {
    } else {
      StmtsWiden(stmts[1..], StmtSpan(stmts[0]).End(), hi, hi');
    }
  }
}
