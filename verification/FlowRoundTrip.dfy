/** Writing a syntax tree as tokens and parsing it again gives the same tree, spans aside. */
module FlowRoundTrip {
  import opened FlowTokens
  import opened FlowAst
  import opened FlowGrammar

  // ---------- the canonical token form ----------

  function ValueTokens(v: Value): seq<TokenKind>
    decreases v
  {
    match v
    case Text(s) => [Str(s)]
    case Reference(s) => [Env(s)]
    case Bare(s) => [Atom(s)]
    case Array(items) => [LBracket] + (ItemsTokens(items) + [RBracket])
  }

  function ItemsTokens(items: seq<SpannedValue>): seq<TokenKind>
    decreases items
  {
    if items == [] then []
    else
      assert items decreases to items[0];
      if |items| == 1 then ValueTokens(items[0].node)
      else ValueTokens(items[0].node) + ([Comma] + ItemsTokens(items[1..]))
  }

  function ArgTokens(a: Arg): seq<TokenKind> {
    match a
    case Positional(v) => ValueTokens(v.node)
    case Named(n, v) => [Atom(n.text), Equals] + ValueTokens(v.node)
  }

  function SpaceArgsTokens(args: seq<Arg>): seq<TokenKind> {
    if args == [] then [] else ArgTokens(args[0]) + SpaceArgsTokens(args[1..])
  }

  function ParenArgsTokens(args: seq<Arg>): seq<TokenKind> {
    if args == [] then []
    else if |args| == 1 then ArgTokens(args[0])
    else ArgTokens(args[0]) + ([Comma] + ParenArgsTokens(args[1..]))
  }

  function StepTokens(s: Step): seq<TokenKind> {
    [Atom(s.name.text)] + if s.hasParens then [LParen] + (ParenArgsTokens(s.args) + [RParen]) else []
  }

  function StepsTokens(steps: seq<Step>): seq<TokenKind> {
    if steps == [] then [] else [Arrow] + (StepTokens(steps[0]) + StepsTokens(steps[1..]))
  }

  function PredTokens(x: Pred): seq<TokenKind> {
    [Atom(x.key), Equals, Str(x.value)]
  }

  function PredsTokens(xs: seq<Pred>): seq<TokenKind> {
    if xs == [] then []
    else if |xs| == 1 then PredTokens(xs[0])
    else PredTokens(xs[0]) + ([Comma] + PredsTokens(xs[1..]))
  }

  function MatchTokens(kind: MatchKind): seq<TokenKind> {
    match kind
    case Prefix => []
    case Exact => [Equals]
    case Regex => [Atom("~")]
  }

  function MatcherTokens(m: Matcher): seq<TokenKind> {
    MatchTokens(m.kind) + ([Atom(m.pattern.text)] + RefinementTokens(m))
  }

  function RefinementTokens(m: Matcher): seq<TokenKind> {
    if m.predicates == [] then [] else [LBracket] + (PredsTokens(m.predicates) + [RBracket])
  }

  function RouteTokens(r: Route): seq<TokenKind> {
    [Atom("route")] + (MatcherTokens(r.matcher) + StepsTokens(r.steps))
  }

  function StmtTokens(s: Stmt): seq<TokenKind>
    decreases s
  {
    match s
    case Directive(k, args, _) => [Atom(k.text)] + SpaceArgsTokens(args)
    case Block(k, args, body, _) =>
      [Atom(k.text)] + (SpaceArgsTokens(args) + ([LBrace] + (StmtsTokens(body) + [RBrace])))
    case RouteStmt(r) => RouteTokens(r)
  }

  /** Each statement on a line of its own. */
  function StmtsTokens(ss: seq<Stmt>): seq<TokenKind>
    decreases ss
  {
    if ss == [] then [] else StmtTokens(ss[0]) + ([Sep] + StmtsTokens(ss[1..]))
  }

  // ---------- trees the parser can produce ----------

  predicate WfStep(s: Step) {
    s.hasParens || s.args == []
  }

  predicate WfMatcher(m: Matcher) {
    m.kind.Prefix? ==> m.pattern.text != "~"
  }

  predicate WfRoute(r: Route) {
    WfMatcher(r.matcher) && forall i :: 0 <= i < |r.steps| ==> WfStep(r.steps[i])
  }

  predicate WfStmt(s: Stmt)
    decreases s
  {
    match s
    case Directive(k, _, _) => k.text != "route"
    case Block(k, _, body, _) => k.text != "route" && WfStmts(body)
    case RouteStmt(r) => WfRoute(r)
  }

  predicate WfStmts(ss: seq<Stmt>)
    decreases ss
  {
    ss != [] ==> WfStmt(ss[0]) && WfStmts(ss[1..])
  }

  // ---------- equality up to spans ----------

  const NOWHERE := Span(0, 0, 0, 0)

  function BareName(n: Name): Name {
    n.(span := NOWHERE)
  }

  function BareValue(v: Value): Value
    decreases v
  {
    match v
    case Array(items) => Array(BareItems(items))
    case _ => v
  }

  function BareItems(items: seq<SpannedValue>): seq<SpannedValue>
    decreases items
  {
    if items == [] then []
    else
      assert items decreases to items[0];
      [SpannedValue(BareValue(items[0].node), NOWHERE)] + BareItems(items[1..])
  }

  function BareArg(a: Arg): Arg {
    match a
    case Positional(v) => Positional(SpannedValue(BareValue(v.node), NOWHERE))
    case Named(n, v) => Named(BareName(n), SpannedValue(BareValue(v.node), NOWHERE))
  }

  function BareArgs(args: seq<Arg>): seq<Arg> {
    if args == [] then [] else [BareArg(args[0])] + BareArgs(args[1..])
  }

  function BareStep(s: Step): Step {
    Step(BareName(s.name), BareArgs(s.args), s.hasParens, NOWHERE)
  }

  function BareSteps(steps: seq<Step>): seq<Step> {
    if steps == [] then [] else [BareStep(steps[0])] + BareSteps(steps[1..])
  }

  function BarePred(x: Pred): Pred {
    x.(span := NOWHERE)
  }

  function BarePreds(xs: seq<Pred>): seq<Pred> {
    if xs == [] then [] else [BarePred(xs[0])] + BarePreds(xs[1..])
  }

  function BareMatcher(m: Matcher): Matcher {
    Matcher(m.kind, BareName(m.pattern), BarePreds(m.predicates), NOWHERE)
  }

  function BareRoute(r: Route): Route {
    Route(BareMatcher(r.matcher), BareSteps(r.steps), NOWHERE)
  }

  function BareStmt(s: Stmt): Stmt
    decreases s
  {
    match s
    case Directive(k, args, _) => Directive(BareName(k), BareArgs(args), NOWHERE)
    case Block(k, args, body, _) => Block(BareName(k), BareArgs(args), BareStmts(body), NOWHERE)
    case RouteStmt(r) => RouteStmt(BareRoute(r))
  }

  function BareStmts(ss: seq<Stmt>): seq<Stmt>
    decreases ss
  {
    if ss == [] then [] else [BareStmt(ss[0])] + BareStmts(ss[1..])
  }

  // ---------- tokens in place ----------

  /** The list holds `ks` from `p` on, and something after it. */
  ghost predicate Holds(ts: seq<Token>, p: nat, ks: seq<TokenKind>) {
    EofTerminated(ts) && p + |ks| < |ts| && Matches(ts, p, ks)
  }

  ghost predicate Matches(ts: seq<Token>, p: nat, ks: seq<TokenKind>)
    requires p + |ks| <= |ts|
    decreases |ks|
  {
    ks == [] || (ts[p].kind == ks[0] && Matches(ts, p + 1, ks[1..]))
  }

  lemma {:induction false} MatchesSplit(ts: seq<Token>, p: nat, a: seq<TokenKind>, b: seq<TokenKind>)
    requires p + |a| + |b| <= |ts| && Matches(ts, p, a + b)
    ensures Matches(ts, p, a) && Matches(ts, p + |a|, b)
    decreases |a|
  {
    if a == [] {
      assert a + b == b;
    } else {
      assert (a + b)[1..] == a[1..] + b;
      MatchesSplit(ts, p + 1, a[1..], b);
    }
  }

  lemma {:induction false} MatchesAll(ts: seq<Token>, p: nat, ks: seq<TokenKind>)
    requires p + |ks| <= |ts| && forall i :: 0 <= i < |ks| ==> ts[p + i].kind == ks[i]
    ensures Matches(ts, p, ks)
    decreases |ks|
  {
    if ks == [] {
    } else {
      var rest := ks[1..];
      assert ts[p + 0].kind == ks[0];
      forall i | 0 <= i < |rest|
        ensures ts[p + 1 + i].kind == rest[i]
      {
        assert ts[p + (i + 1)].kind == ks[i + 1];
      }
      MatchesAll(ts, p + 1, rest);
    }
  }

  lemma {:induction false} HoldsSplit(ts: seq<Token>, p: nat, a: seq<TokenKind>, b: seq<TokenKind>)
    requires Holds(ts, p, a + b)
    ensures Holds(ts, p, a) && Holds(ts, p + |a|, b)
  {
    MatchesSplit(ts, p, a, b);
  }

  lemma {:induction false} HoldsOne(ts: seq<Token>, p: nat, k: TokenKind, b: seq<TokenKind>)
    requires Holds(ts, p, [k] + b)
    ensures ts[p].kind == k && Holds(ts, p + 1, b)
  {
    assert ([k] + b)[1..] == b;
  }

  lemma {:induction false} HoldsFirst(ts: seq<Token>, p: nat, ks: seq<TokenKind>)
    requires Holds(ts, p, ks) && ks != []
    ensures ts[p].kind == ks[0]
  {}

  lemma {:induction false} HoldsTwo(ts: seq<Token>, p: nat, ks: seq<TokenKind>, a: seq<TokenKind>, b: seq<TokenKind>)
    requires Holds(ts, p, ks) && ks == a + b
    ensures Holds(ts, p, a) && Holds(ts, p + |a|, b) && |ks| == |a| + |b|
  {
    HoldsSplit(ts, p, a, b);
  }

  /** One token, then two runs of tokens. */
  lemma {:induction false} HoldsOneTwo(ts: seq<Token>, p: nat, ks: seq<TokenKind>, k: TokenKind, a: seq<TokenKind>, b: seq<TokenKind>)
    requires Holds(ts, p, ks) && ks == [k] + (a + b)
    ensures ts[p].kind == k && Holds(ts, p + 1, a) && Holds(ts, p + 1 + |a|, b) && |ks| == 1 + |a| + |b|
  {
    HoldsOne(ts, p, k, a + b);
    HoldsSplit(ts, p + 1, a, b);
  }

  /** A run of tokens, one token, and another run. */
  lemma {:induction false} HoldsAround(ts: seq<Token>, p: nat, ks: seq<TokenKind>, a: seq<TokenKind>, k: TokenKind, b: seq<TokenKind>)
    requires Holds(ts, p, ks) && ks == a + ([k] + b)
    ensures Holds(ts, p, a) && p + |a| < |ts| && ts[p + |a|].kind == k && Holds(ts, p + |a| + 1, b)
    ensures |ks| == |a| + 1 + |b|
  {
    HoldsSplit(ts, p, a, [k] + b);
    HoldsOne(ts, p + |a|, k, b);
  }

  lemma {:induction false} HoldsLast(ts: seq<Token>, p: nat, a: seq<TokenKind>, k: TokenKind)
    requires Holds(ts, p, a + [k])
    ensures Holds(ts, p, a) && ts[p + |a|].kind == k && p + |a| + 1 < |ts|
  {
    HoldsSplit(ts, p, a, [k]);
    assert ts[p + |a|].kind == [k][0];
  }

  // ---------- values ----------

  lemma {:induction false} ValueStarts(v: Value)
    ensures ValueTokens(v) != [] && StartsValue(ValueTokens(v)[0])
    ensures ValueTokens(v)[0].Atom? ==> |ValueTokens(v)| == 1
  {
  }

  ghost predicate ReadsValue(ts: seq<Token>, p: nat, v: Value, e: nat) {
    && Cursor(ts, p) && ParseValue(ts, p).Parsed? && ParseValue(ts, p).pos == e
    && BareValue(ParseValue(ts, p).value.node) == BareValue(v)
  }

  ghost predicate ReadsItems(ts: seq<Token>, p: nat, items: seq<SpannedValue>, e: nat) {
    && Cursor(ts, p) && ParseItems(ts, p).Parsed? && ParseItems(ts, p).pos == e
    && BareItems(ParseItems(ts, p).value) == BareItems(items)
  }

  lemma {:induction false} ValueBack(ts: seq<Token>, p: nat, v: Value)
    requires Holds(ts, p, ValueTokens(v))
    ensures ReadsValue(ts, p, v, p + |ValueTokens(v)|)
    decreases v
  {
    assert ts[p].kind == ValueTokens(v)[0];
    match v
    case Array(items) =>
      var inner := ItemsTokens(items);
      assert ValueTokens(v) == [LBracket] + (inner + [RBracket]);
      HoldsOne(ts, p, LBracket, inner + [RBracket]);
      HoldsLast(ts, p + 1, inner, RBracket);
      ItemsBack(ts, p + 1, items);
    case _ =>
  }

  lemma {:induction false} ItemsBack(ts: seq<Token>, p: nat, items: seq<SpannedValue>)
    requires Holds(ts, p, ItemsTokens(items)) && ts[p + |ItemsTokens(items)|].kind.RBracket?
    ensures ReadsItems(ts, p, items, p + |ItemsTokens(items)|)
    decreases items
  {
    if items == [] {
    } else {
      var v := items[0].node;
      assert items decreases to items[0];
      ValueStarts(v);
      if |items| == 1 {
        ValueBack(ts, p, v);
        assert ts[p].kind == ValueTokens(v)[0];
        ItemsLast(ts, p, items);
      } else {
        var rest := ItemsTokens(items[1..]);
        assert ItemsTokens(items) == ValueTokens(v) + ([Comma] + rest);
        HoldsSplit(ts, p, ValueTokens(v), [Comma] + rest);
        ValueBack(ts, p, v);
        var e := p + |ValueTokens(v)|;
        HoldsOne(ts, e, Comma, rest);
        ItemsBack(ts, e + 1, items[1..]);
        assert ts[p].kind == ValueTokens(v)[0];
        ItemsMore(ts, p, items, e);
      }
    }
  }

  lemma {:induction false} ItemsLast(ts: seq<Token>, p: nat, items: seq<SpannedValue>)
    requires |items| == 1 && Cursor(ts, p) && StartsValue(ts[p].kind)
    requires ReadsValue(ts, p, items[0].node, p + |ItemsTokens(items)|)
    requires ts[p + |ItemsTokens(items)|].kind.RBracket?
    ensures ReadsItems(ts, p, items, p + |ItemsTokens(items)|)
  {
    var v := ParseValue(ts, p).value;
    assert SkipSeps(ts, p) == p;
    assert ParseItems(ts, p).value == [v];
    BareItemsCons(v, []);
    BareItemsCons(items[0], items[1..]);
  }

  lemma {:induction false} BareItemsCons(x: SpannedValue, xs: seq<SpannedValue>)
    ensures BareItems([x] + xs) == [SpannedValue(BareValue(x.node), NOWHERE)] + BareItems(xs)
  {
    assert ([x] + xs)[1..] == xs;
  }

  lemma {:induction false} ItemsMore(ts: seq<Token>, p: nat, items: seq<SpannedValue>, e: nat)
    requires |items| > 1 && Cursor(ts, p) && StartsValue(ts[p].kind) && ReadsValue(ts, p, items[0].node, e)
    requires ts[e].kind.Comma? && ReadsItems(ts, e + 1, items[1..], p + |ItemsTokens(items)|)
    ensures ReadsItems(ts, p, items, p + |ItemsTokens(items)|)
  {
    var v, vs := ParseValue(ts, p).value, ParseItems(ts, e + 1).value;
    assert SkipSeps(ts, p) == p && SkipSeps(ts, e) == e;
    assert ParseItems(ts, p).value == [v] + vs;
    BareItemsCons(v, vs);
    assert items == [items[0]] + items[1..];
    BareItemsCons(items[0], items[1..]);
  }

  // ---------- arguments ----------

  lemma {:induction false} ArgStarts(a: Arg)
    ensures ArgTokens(a) != [] && StartsValue(ArgTokens(a)[0])
  {
    if a.Positional? {
      ValueStarts(a.value.node);
    }
  }

  ghost predicate ReadsArg(ts: seq<Token>, p: nat, a: Arg, e: nat) {
    && Cursor(ts, p) && ParseArg(ts, p).Parsed? && ParseArg(ts, p).pos == e
    && BareArg(ParseArg(ts, p).value) == BareArg(a)
  }

  lemma {:induction false} ArgBack(ts: seq<Token>, p: nat, a: Arg)
    requires Holds(ts, p, ArgTokens(a)) && !ts[p + |ArgTokens(a)|].kind.Equals?
    ensures ReadsArg(ts, p, a, p + |ArgTokens(a)|)
  {
    match a
    case Positional(v) => PositionalBack(ts, p, v);
    case Named(n, v) => NamedBack(ts, p, n, v);
  }

  lemma {:induction false} PositionalBack(ts: seq<Token>, p: nat, v: SpannedValue)
    requires Holds(ts, p, ValueTokens(v.node)) && !ts[p + |ValueTokens(v.node)|].kind.Equals?
    ensures ReadsArg(ts, p, Positional(v), p + |ValueTokens(v.node)|)
  {
    hide ParseValue;
    ValueStarts(v.node);
    assert ts[p].kind == ValueTokens(v.node)[0];
    ValueBack(ts, p, v.node);
  }

  lemma {:induction false} NamedBack(ts: seq<Token>, p: nat, n: Name, v: SpannedValue)
    requires Holds(ts, p, [Atom(n.text), Equals] + ValueTokens(v.node))
    ensures ReadsArg(ts, p, Named(n, v), p + 2 + |ValueTokens(v.node)|)
  {
    hide ParseValue, ValueTokens;
    var ks := ValueTokens(v.node);
    assert [Atom(n.text), Equals] + ks == [Atom(n.text)] + ([Equals] + ks);
    HoldsOne(ts, p, Atom(n.text), [Equals] + ks);
    HoldsOne(ts, p + 1, Equals, ks);
    ValueBack(ts, p + 2, v.node);
  }

  lemma {:induction false} BareArgsCons(x: Arg, xs: seq<Arg>)
    ensures BareArgs([x] + xs) == [BareArg(x)] + BareArgs(xs)
  {
    assert ([x] + xs)[1..] == xs;
  }

  ghost predicate ReadsSpaceArgs(ts: seq<Token>, p: nat, args: seq<Arg>, e: nat) {
    && Cursor(ts, p) && ParseSpaceArgs(ts, p).Parsed? && ParseSpaceArgs(ts, p).pos == e
    && BareArgs(ParseSpaceArgs(ts, p).value) == BareArgs(args)
  }

  lemma {:induction false} SpaceArgsNext(args: seq<Arg>)
    requires args != []
    ensures SpaceArgsTokens(args) != [] && !SpaceArgsTokens(args)[0].Equals?
  {
    ArgStarts(args[0]);
  }

  lemma {:induction false} SpaceArgsBack(ts: seq<Token>, p: nat, args: seq<Arg>, end: nat)
    requires Holds(ts, p, SpaceArgsTokens(args)) && end == p + |SpaceArgsTokens(args)|
    requires !StartsValue(ts[end].kind) && !ts[end].kind.Equals?
    ensures ReadsSpaceArgs(ts, p, args, end)
    decreases |args|
  {
    if args == [] {
      NoSpaceArgs(ts, p);
    } else {
      var e := p + |ArgTokens(args[0])|;
      SpaceArgsSplit(ts, p, args, e, end);
      FirstArgBack(ts, p, args[0], e);
      SpaceArgsBack(ts, e, args[1..], end);
      SpaceArgsMore(ts, p, args, e, end);
    }
  }

  lemma {:induction false} NoSpaceArgs(ts: seq<Token>, p: nat)
    requires Cursor(ts, p) && !StartsValue(ts[p].kind)
    ensures ReadsSpaceArgs(ts, p, [], p)
  {}

  lemma {:induction false} SpaceArgsSplit(ts: seq<Token>, p: nat, args: seq<Arg>, e: nat, end: nat)
    requires args != [] && Holds(ts, p, SpaceArgsTokens(args)) && end == p + |SpaceArgsTokens(args)|
    requires !ts[end].kind.Equals? && e == p + |ArgTokens(args[0])|
    ensures Holds(ts, p, ArgTokens(args[0])) && Holds(ts, e, SpaceArgsTokens(args[1..]))
    ensures end == e + |SpaceArgsTokens(args[1..])| && !ts[e].kind.Equals?
  {
    hide ArgTokens, SpaceArgsTokens, Matches;
    SpaceArgsTokensAre(args);
    HoldsTwo(ts, p, SpaceArgsTokens(args), ArgTokens(args[0]), SpaceArgsTokens(args[1..]));
    SpaceArgsFollow(ts, e, args[1..], end);
  }

  lemma {:induction false} SpaceArgsTokensAre(args: seq<Arg>)
    requires args != []
    ensures SpaceArgsTokens(args) == ArgTokens(args[0]) + SpaceArgsTokens(args[1..])
  {}

  lemma {:induction false} SpaceArgsFollow(ts: seq<Token>, e: nat, args: seq<Arg>, end: nat)
    requires Holds(ts, e, SpaceArgsTokens(args)) && end == e + |SpaceArgsTokens(args)| && !ts[end].kind.Equals?
    ensures !ts[e].kind.Equals?
  {
    if args != [] {
      SpaceArgsNext(args);
      HoldsFirst(ts, e, SpaceArgsTokens(args));
    }
  }

  lemma {:induction false} SpaceArgsMore(ts: seq<Token>, p: nat, args: seq<Arg>, e: nat, end: nat)
    requires args != [] && Cursor(ts, p) && StartsValue(ts[p].kind) && ReadsArg(ts, p, args[0], e)
    requires ReadsSpaceArgs(ts, e, args[1..], end)
    ensures ReadsSpaceArgs(ts, p, args, end)
  {
    var x, xs := ParseArg(ts, p).value, ParseSpaceArgs(ts, e).value;
    assert ParseSpaceArgs(ts, p).value == [x] + xs;
    BareArgsCons(x, xs);
    assert args == [args[0]] + args[1..];
    BareArgsCons(args[0], args[1..]);
  }

  ghost predicate ReadsParenArgs(ts: seq<Token>, p: nat, args: seq<Arg>, e: nat) {
    && Cursor(ts, p) && ParseParenArgs(ts, p).Parsed? && ParseParenArgs(ts, p).pos == e
    && BareArgs(ParseParenArgs(ts, p).value) == BareArgs(args)
  }

  lemma {:induction false} ParenArgsBack(ts: seq<Token>, p: nat, args: seq<Arg>, end: nat)
    requires Holds(ts, p, ParenArgsTokens(args)) && end == p + |ParenArgsTokens(args)| && ts[end].kind.RParen?
    ensures ReadsParenArgs(ts, p, args, end)
    decreases |args|
  {
    if args == [] {
      NoParenArgs(ts, p);
    } else if |args| == 1 {
      FirstArgBack(ts, p, args[0], end);
      ParenArgsLast(ts, p, args, end);
    } else {
      ParenArgsConsBack(ts, p, args, p + |ArgTokens(args[0])|, end);
    }
  }

  lemma {:induction false} ParenArgsConsBack(ts: seq<Token>, p: nat, args: seq<Arg>, e: nat, end: nat)
    requires |args| > 1 && Holds(ts, p, ParenArgsTokens(args)) && e == p + |ArgTokens(args[0])|
    requires end == p + |ParenArgsTokens(args)| && ts[end].kind.RParen?
    ensures ReadsParenArgs(ts, p, args, end)
    decreases |args|, 0
  {
    hide ParseArg, ParseParenArgs, ArgTokens, ParenArgsTokens, Matches, ReadsArg, ReadsParenArgs;
    ParenArgsSplit(ts, p, args, e);
    FirstArgBack(ts, p, args[0], e);
    ParenArgsBack(ts, e + 1, args[1..], end);
    ParenArgsMore(ts, p, args, e, end);
  }

  lemma {:induction false} NoParenArgs(ts: seq<Token>, p: nat)
    requires Cursor(ts, p) && ts[p].kind.RParen?
    ensures ReadsParenArgs(ts, p, [], p)
  {
    assert SkipSeps(ts, p) == p;
  }

  lemma {:induction false} FirstArgBack(ts: seq<Token>, p: nat, a: Arg, e: nat)
    requires Holds(ts, p, ArgTokens(a)) && e == p + |ArgTokens(a)| && !ts[e].kind.Equals?
    ensures ReadsArg(ts, p, a, e) && StartsValue(ts[p].kind)
  {
    ArgStarts(a);
    HoldsFirst(ts, p, ArgTokens(a));
    ArgBack(ts, p, a);
  }

  lemma {:induction false} ParenArgsSplit(ts: seq<Token>, p: nat, args: seq<Arg>, e: nat)
    requires |args| > 1 && Holds(ts, p, ParenArgsTokens(args)) && e == p + |ArgTokens(args[0])|
    ensures Holds(ts, p, ArgTokens(args[0]))
    ensures e < |ts| && ts[e].kind.Comma? && Holds(ts, e + 1, ParenArgsTokens(args[1..]))
    ensures e + 1 + |ParenArgsTokens(args[1..])| == p + |ParenArgsTokens(args)|
  {
    hide ArgTokens, ParenArgsTokens, Matches;
    ParenArgsTokensAre(args);
    HoldsAround(ts, p, ParenArgsTokens(args), ArgTokens(args[0]), Comma, ParenArgsTokens(args[1..]));
  }

  lemma {:induction false} ParenArgsTokensAre(args: seq<Arg>)
    requires |args| > 1
    ensures ParenArgsTokens(args) == ArgTokens(args[0]) + ([Comma] + ParenArgsTokens(args[1..]))
  {}

  lemma {:induction false} ParenArgsLast(ts: seq<Token>, p: nat, args: seq<Arg>, e: nat)
    requires |args| == 1 && Cursor(ts, p) && StartsValue(ts[p].kind) && ReadsArg(ts, p, args[0], e)
    requires ts[e].kind.RParen?
    ensures ReadsParenArgs(ts, p, args, e)
  {
    var x := ParseArg(ts, p).value;
    assert SkipSeps(ts, p) == p;
    assert ParseParenArgs(ts, p).value == [x];
    BareArgsCons(x, []);
    BareArgsCons(args[0], args[1..]);
  }

  lemma {:induction false} ParenArgsMore(ts: seq<Token>, p: nat, args: seq<Arg>, e: nat, end: nat)
    requires |args| > 1 && Cursor(ts, p) && StartsValue(ts[p].kind) && ReadsArg(ts, p, args[0], e)
    requires ts[e].kind.Comma? && ReadsParenArgs(ts, e + 1, args[1..], end)
    ensures ReadsParenArgs(ts, p, args, end)
  {
    var x, xs := ParseArg(ts, p).value, ParseParenArgs(ts, e + 1).value;
    assert SkipSeps(ts, p) == p && SkipSeps(ts, e) == e;
    assert ParseParenArgs(ts, p).value == [x] + xs;
    BareArgsCons(x, xs);
    assert args == [args[0]] + args[1..];
    BareArgsCons(args[0], args[1..]);
  }

  // ---------- steps ----------

  ghost predicate ReadsStep(ts: seq<Token>, p: nat, s: Step, e: nat) {
    && Cursor(ts, p) && ParseStep(ts, p).Parsed? && ParseStep(ts, p).pos == e
    && BareStep(ParseStep(ts, p).value) == BareStep(s)
  }

  lemma {:induction false} StepBack(ts: seq<Token>, p: nat, s: Step)
    requires Holds(ts, p, StepTokens(s)) && WfStep(s) && !ts[p + |StepTokens(s)|].kind.LParen?
    ensures ReadsStep(ts, p, s, p + |StepTokens(s)|)
  {
    if s.hasParens {
      StepSplit(ts, p, s);
      ParenArgsBack(ts, p + 2, s.args, p + 2 + |ParenArgsTokens(s.args)|);
      StepJoin(ts, p, s, p + 2 + |ParenArgsTokens(s.args)|);
    } else {
      BareStepBack(ts, p, s);
    }
  }

  lemma {:induction false} BareStepBack(ts: seq<Token>, p: nat, s: Step)
    requires !s.hasParens && s.args == [] && Holds(ts, p, StepTokens(s)) && !ts[p + |StepTokens(s)|].kind.LParen?
    ensures ReadsStep(ts, p, s, p + |StepTokens(s)|)
  {
    assert StepTokens(s) == [Atom(s.name.text)];
    HoldsFirst(ts, p, [Atom(s.name.text)]);
  }

  lemma {:induction false} StepSplit(ts: seq<Token>, p: nat, s: Step)
    requires s.hasParens && Holds(ts, p, StepTokens(s))
    ensures var inner := ParenArgsTokens(s.args);
            && ts[p].kind == Atom(s.name.text) && ts[p + 1].kind == LParen && Holds(ts, p + 2, inner)
            && ts[p + 2 + |inner|].kind == RParen && |StepTokens(s)| == |inner| + 3
  {
    SplitParens(ts, p, StepTokens(s), Atom(s.name.text), ParenArgsTokens(s.args));
  }

  lemma {:induction false} SplitParens(ts: seq<Token>, p: nat, ks: seq<TokenKind>, name: TokenKind, inner: seq<TokenKind>)
    requires Holds(ts, p, ks) && ks == [name] + ([LParen] + (inner + [RParen]))
    ensures ts[p].kind == name && ts[p + 1].kind == LParen && Holds(ts, p + 2, inner)
    ensures ts[p + 2 + |inner|].kind == RParen && |ks| == |inner| + 3
  {
    HoldsOneTwo(ts, p, ks, name, [LParen], inner + [RParen]);
    HoldsFirst(ts, p + 1, [LParen]);
    HoldsLast(ts, p + 2, inner, RParen);
  }

  lemma {:induction false} StepJoin(ts: seq<Token>, p: nat, s: Step, q: nat)
    requires s.hasParens && Cursor(ts, p) && p + 2 <= q < |ts| - 1 && ts[p].kind == Atom(s.name.text)
    requires ts[p + 1].kind == LParen && ReadsParenArgs(ts, p + 2, s.args, q) && ts[q].kind.RParen?
    ensures ReadsStep(ts, p, s, q + 1)
  {}

  lemma {:induction false} BareStepsCons(x: Step, xs: seq<Step>)
    ensures BareSteps([x] + xs) == [BareStep(x)] + BareSteps(xs)
  {
    assert ([x] + xs)[1..] == xs;
  }

  /** The statement ends at `e`: a separator, and then no arrow that would continue a route. */
  ghost predicate EndsStmt(ts: seq<Token>, e: nat) {
    Cursor(ts, e) && ts[e].kind.Sep? && !ts[SkipSeps(ts, e)].kind.Arrow?
  }

  ghost predicate ReadsSteps(ts: seq<Token>, p: nat, steps: seq<Step>, e: nat) {
    && Cursor(ts, p) && ParseSteps(ts, p).Parsed? && ParseSteps(ts, p).pos == e
    && BareSteps(ParseSteps(ts, p).value) == BareSteps(steps)
  }

  lemma {:induction false} StepsBack(ts: seq<Token>, p: nat, steps: seq<Step>)
    requires Holds(ts, p, StepsTokens(steps)) && EndsStmt(ts, p + |StepsTokens(steps)|)
    requires forall i :: 0 <= i < |steps| ==> WfStep(steps[i])
    ensures ReadsSteps(ts, p, steps, SkipSeps(ts, p + |StepsTokens(steps)|))
    decreases |steps|
  {
    if steps == [] {
    } else {
      var e := p + 1 + |StepTokens(steps[0])|;
      StepsSplit(ts, p, steps, e);
      FirstStepBack(ts, p + 1, steps[0], steps[1..], e);
      StepsBack(ts, e, steps[1..]);
      StepsMore(ts, p, steps, e, SkipSeps(ts, p + |StepsTokens(steps)|));
    }
  }

  lemma {:induction false} StepsSplit(ts: seq<Token>, p: nat, steps: seq<Step>, e: nat)
    requires steps != [] && Holds(ts, p, StepsTokens(steps)) && e == p + 1 + |StepTokens(steps[0])|
    ensures ts[p].kind.Arrow? && Holds(ts, p + 1, StepTokens(steps[0])) && Holds(ts, e, StepsTokens(steps[1..]))
    ensures e + |StepsTokens(steps[1..])| == p + |StepsTokens(steps)|
  {
    hide StepTokens, StepsTokens, Matches;
    StepsTokensAre(steps);
    HoldsOneTwo(ts, p, StepsTokens(steps), Arrow, StepTokens(steps[0]), StepsTokens(steps[1..]));
  }

  lemma {:induction false} FirstStepBack(ts: seq<Token>, p: nat, s: Step, rest: seq<Step>, e: nat)
    requires WfStep(s) && Holds(ts, p, StepTokens(s)) && e == p + |StepTokens(s)|
    requires Holds(ts, e, StepsTokens(rest)) && ts[e + |StepsTokens(rest)|].kind.Sep?
    ensures ReadsStep(ts, p, s, e) && ts[p].kind.Atom?
  {
    StepsFollow(ts, e, rest);
    StepBack(ts, p, s);
    StepStarts(s);
    HoldsFirst(ts, p, StepTokens(s));
  }

  lemma {:induction false} StepStarts(s: Step)
    ensures StepTokens(s) != [] && StepTokens(s)[0].Atom?
  {}

  lemma {:induction false} StepsTokensAre(steps: seq<Step>)
    requires steps != []
    ensures StepsTokens(steps) == [Arrow] + (StepTokens(steps[0]) + StepsTokens(steps[1..]))
  {}

  /** Steps start with an arrow, and behind the last stands a separator. */
  lemma {:induction false} StepsFollow(ts: seq<Token>, e: nat, steps: seq<Step>)
    requires Holds(ts, e, StepsTokens(steps)) && ts[e + |StepsTokens(steps)|].kind.Sep?
    ensures ts[e].kind.Arrow? || ts[e].kind.Sep?
  {
    if steps != [] {
      StepsTokensAre(steps);
      HoldsFirst(ts, e, StepsTokens(steps));
    }
  }

  lemma {:induction false} StepsMore(ts: seq<Token>, p: nat, steps: seq<Step>, e: nat, end: nat)
    requires steps != [] && Cursor(ts, p) && ts[p].kind.Arrow? && Cursor(ts, p + 1) && ts[p + 1].kind.Atom?
    requires ReadsStep(ts, p + 1, steps[0], e) && ReadsSteps(ts, e, steps[1..], end)
    ensures ReadsSteps(ts, p, steps, end)
  {
    var x, xs := ParseStep(ts, p + 1).value, ParseSteps(ts, e).value;
    assert SkipSeps(ts, p) == p && SkipSeps(ts, p + 1) == p + 1;
    assert ParseSteps(ts, p).value == [x] + xs;
    BareStepsCons(x, xs);
    assert steps == [steps[0]] + steps[1..];
    BareStepsCons(steps[0], steps[1..]);
  }

  // ---------- matchers ----------

  ghost predicate ReadsPreds(ts: seq<Token>, p: nat, xs: seq<Pred>, other: Lexemes, e: nat) {
    && Cursor(ts, p) && ParsePreds(ts, p, other).Parsed? && ParsePreds(ts, p, other).pos == e
    && BarePreds(ParsePreds(ts, p, other).value) == BarePreds(xs)
  }

  lemma {:induction false} PredBack(ts: seq<Token>, p: nat, x: Pred, other: Lexemes)
    requires Holds(ts, p, PredTokens(x))
    ensures ParsePred(ts, p, other).Parsed? && ParsePred(ts, p, other).pos == p + 3
    ensures BarePred(ParsePred(ts, p, other).value) == BarePred(x)
  {
    assert PredTokens(x) == [Atom(x.key)] + ([Equals] + [Str(x.value)]);
    HoldsOne(ts, p, Atom(x.key), [Equals] + [Str(x.value)]);
    HoldsOne(ts, p + 1, Equals, [Str(x.value)]);
    HoldsFirst(ts, p + 2, [Str(x.value)]);
  }

  lemma {:induction false} BarePredsCons(x: Pred, xs: seq<Pred>)
    ensures BarePreds([x] + xs) == [BarePred(x)] + BarePreds(xs)
  {
    assert ([x] + xs)[1..] == xs;
  }

  lemma {:induction false} PredsBack(ts: seq<Token>, p: nat, xs: seq<Pred>, other: Lexemes)
    requires Holds(ts, p, PredsTokens(xs)) && ts[p + |PredsTokens(xs)|].kind.RBracket?
    ensures ReadsPreds(ts, p, xs, other, p + |PredsTokens(xs)|)
    decreases |xs|
  {
    if xs == [] {
    } else {
      var a := PredTokens(xs[0]);
      if |xs| == 1 {
        PredBack(ts, p, xs[0], other);
        assert ts[p].kind == a[0];
        PredsLast(ts, p, xs, other);
      } else {
        var rest := PredsTokens(xs[1..]);
        assert PredsTokens(xs) == a + ([Comma] + rest);
        HoldsSplit(ts, p, a, [Comma] + rest);
        HoldsOne(ts, p + 3, Comma, rest);
        PredBack(ts, p, xs[0], other);
        assert ts[p].kind == a[0];
        PredsBack(ts, p + 4, xs[1..], other);
        PredsMore(ts, p, xs, other, p + 4 + |rest|);
      }
    }
  }

  lemma {:induction false} PredsLast(ts: seq<Token>, p: nat, xs: seq<Pred>, other: Lexemes)
    requires |xs| == 1 && Cursor(ts, p) && ts[p].kind.Atom? && Holds(ts, p, PredTokens(xs[0]))
    requires ts[p + 3].kind.RBracket?
    ensures ReadsPreds(ts, p, xs, other, p + 3)
  {
    PredBack(ts, p, xs[0], other);
    var x := ParsePred(ts, p, other).value;
    assert SkipSeps(ts, p) == p;
    assert ParsePreds(ts, p, other).value == [x];
    BarePredsCons(x, []);
    BarePredsCons(xs[0], xs[1..]);
  }

  lemma {:induction false} PredsMore(ts: seq<Token>, p: nat, xs: seq<Pred>, other: Lexemes, end: nat)
    requires |xs| > 1 && Cursor(ts, p) && ts[p].kind.Atom? && Holds(ts, p, PredTokens(xs[0]))
    requires ts[p + 3].kind.Comma? && ReadsPreds(ts, p + 4, xs[1..], other, end)
    ensures ReadsPreds(ts, p, xs, other, end)
  {
    PredBack(ts, p, xs[0], other);
    var x, rest := ParsePred(ts, p, other).value, ParsePreds(ts, p + 4, other).value;
    assert SkipSeps(ts, p) == p && SkipSeps(ts, p + 3) == p + 3;
    assert ParsePreds(ts, p, other).value == [x] + rest;
    BarePredsCons(x, rest);
    assert xs == [xs[0]] + xs[1..];
    BarePredsCons(xs[0], xs[1..]);
  }

  ghost predicate ReadsMatcher(ts: seq<Token>, p: nat, m: Matcher, other: Lexemes, e: nat) {
    && Cursor(ts, p) && ParseMatcher(ts, p, other).Parsed? && ParseMatcher(ts, p, other).pos == e
    && BareMatcher(ParseMatcher(ts, p, other).value) == BareMatcher(m)
  }

  lemma {:induction false} MatcherBack(ts: seq<Token>, p: nat, m: Matcher, other: Lexemes)
    requires Holds(ts, p, MatcherTokens(m)) && WfMatcher(m) && !ts[p + |MatcherTokens(m)|].kind.LBracket?
    ensures ReadsMatcher(ts, p, m, other, p + |MatcherTokens(m)|)
  {
    var q := MatcherSplit(ts, p, m);
    if m.predicates == [] {
      MatcherPlain(ts, p, m, other, q);
    } else {
      MatcherRefined(ts, p, m, other, q);
    }
  }

  /** The pattern's place, behind the marker of the kind if there is one. */
  ghost predicate PatternAt(ts: seq<Token>, p: nat, m: Matcher, q: nat) {
    && Cursor(ts, p) && MatchKindAt(ts, p) == m.kind && q == (if m.kind.Prefix? then p else p + 1)
    && Cursor(ts, q) && ts[q].kind == Atom(m.pattern.text)
  }

  lemma {:induction false} MatcherSplit(ts: seq<Token>, p: nat, m: Matcher) returns (q: nat)
    requires Holds(ts, p, MatcherTokens(m)) && WfMatcher(m)
    ensures PatternAt(ts, p, m, q) && Holds(ts, q + 1, RefinementTokens(m))
    ensures q + 1 + |RefinementTokens(m)| == p + |MatcherTokens(m)|
  {
    var head, pat, tail := MatchTokens(m.kind), Atom(m.pattern.text), RefinementTokens(m);
    assert MatcherTokens(m) == head + ([pat] + tail);
    HoldsSplit(ts, p, head, [pat] + tail);
    q := p + |head|;
    HoldsOne(ts, q, pat, tail);
    assert head != [] ==> ts[p].kind == head[0];
  }

  lemma {:induction false} MatcherPlain(ts: seq<Token>, p: nat, m: Matcher, other: Lexemes, q: nat)
    requires PatternAt(ts, p, m, q) && m.predicates == [] && q + 1 < |ts| && !ts[q + 1].kind.LBracket?
    ensures ReadsMatcher(ts, p, m, other, q + 1)
  {
  }

  lemma {:induction false} MatcherRefined(ts: seq<Token>, p: nat, m: Matcher, other: Lexemes, q: nat)
    requires PatternAt(ts, p, m, q) && m.predicates != [] && Holds(ts, q + 1, RefinementTokens(m))
    ensures ReadsMatcher(ts, p, m, other, q + 1 + |RefinementTokens(m)|)
  {
    var inner := PredsTokens(m.predicates);
    HoldsOne(ts, q + 1, LBracket, inner + [RBracket]);
    HoldsLast(ts, q + 2, inner, RBracket);
    PredsBack(ts, q + 2, m.predicates, other);
    MatcherJoin(ts, p, m, other, q, q + 2 + |inner|);
  }

  lemma {:induction false} MatcherJoin(ts: seq<Token>, p: nat, m: Matcher, other: Lexemes, q: nat, e: nat)
    requires PatternAt(ts, p, m, q) && q + 2 <= e < |ts| - 1 && ts[q + 1].kind.LBracket? && ts[e].kind.RBracket?
    requires ReadsPreds(ts, q + 2, m.predicates, other, e)
    ensures ReadsMatcher(ts, p, m, other, e + 1)
  {}

  ghost predicate ReadsRoute(ts: seq<Token>, p: nat, r: Route, other: Lexemes, e: nat) {
    && Cursor(ts, p) && ts[p].kind == Atom("route") && ParseRoute(ts, p, other).Parsed?
    && ParseRoute(ts, p, other).pos == e
    && BareRoute(ParseRoute(ts, p, other).value) == BareRoute(r)
  }

  lemma {:induction false} RouteBack(ts: seq<Token>, p: nat, r: Route, other: Lexemes)
    requires Holds(ts, p, RouteTokens(r)) && WfRoute(r) && EndsStmt(ts, p + |RouteTokens(r)|)
    ensures ReadsRoute(ts, p, r, other, SkipSeps(ts, p + |RouteTokens(r)|))
  {
    var q := RouteSplit(ts, p, r);
    MatcherBack(ts, p + 1, r.matcher, other);
    StepsBack(ts, q, r.steps);
    RouteJoin(ts, p, r, other, q, SkipSeps(ts, p + |RouteTokens(r)|));
  }

  lemma {:induction false} RouteSplit(ts: seq<Token>, p: nat, r: Route) returns (q: nat)
    requires Holds(ts, p, RouteTokens(r)) && ts[p + |RouteTokens(r)|].kind.Sep?
    ensures ts[p].kind == Atom("route") && Holds(ts, p + 1, MatcherTokens(r.matcher))
    ensures q == p + 1 + |MatcherTokens(r.matcher)| && Holds(ts, q, StepsTokens(r.steps))
    ensures q + |StepsTokens(r.steps)| == p + |RouteTokens(r)| && !ts[q].kind.LBracket?
  {
    hide MatcherTokens, StepsTokens, Matches;
    HoldsOneTwo(ts, p, RouteTokens(r), Atom("route"), MatcherTokens(r.matcher), StepsTokens(r.steps));
    q := p + 1 + |MatcherTokens(r.matcher)|;
    StepsFollow(ts, q, r.steps);
  }

  lemma {:induction false} RouteJoin(ts: seq<Token>, p: nat, r: Route, other: Lexemes, q: nat, e: nat)
    requires Cursor(ts, p) && ts[p].kind == Atom("route")
    requires ReadsMatcher(ts, p + 1, r.matcher, other, q) && ReadsSteps(ts, q, r.steps, e)
    ensures ReadsRoute(ts, p, r, other, e)
  {
  }

  // ---------- statements ----------

  /** The statement is read, and reading on from there is reading on behind its tokens. */
  ghost predicate ReadsStmt(ts: seq<Token>, p: nat, s: Stmt, other: Lexemes, e: nat) {
    && Cursor(ts, p) && Cursor(ts, e) && ParseStmt(ts, p, other).Parsed?
    && SkipSeps(ts, ParseStmt(ts, p, other).pos) == SkipSeps(ts, e)
    && BareStmt(ParseStmt(ts, p, other).value) == BareStmt(s)
  }

  ghost predicate ReadsStmts(ts: seq<Token>, p: nat, ss: seq<Stmt>, inBlock: bool, other: Lexemes, e: nat) {
    && Cursor(ts, p) && ParseStmts(ts, p, inBlock, other).Parsed? && ParseStmts(ts, p, inBlock, other).pos == e
    && BareStmts(ParseStmts(ts, p, inBlock, other).value) == BareStmts(ss)
  }

  lemma {:induction false} BareStmtsCons(x: Stmt, xs: seq<Stmt>)
    ensures BareStmts([x] + xs) == [BareStmt(x)] + BareStmts(xs)
  {
    assert ([x] + xs)[1..] == xs;
  }

  lemma {:induction false} StmtStarts(s: Stmt)
    ensures StmtTokens(s) != [] && StmtTokens(s)[0].Atom?
  {
  }

  lemma {:induction false} DirectiveBack(ts: seq<Token>, p: nat, s: Stmt, other: Lexemes, e: nat)
    requires s.Directive? && Holds(ts, p, StmtTokens(s)) && WfStmt(s) && e == p + |StmtTokens(s)| && EndsStmt(ts, e)
    ensures ReadsStmt(ts, p, s, other, e)
  {
    HoldsOne(ts, p, Atom(s.keyword.text), SpaceArgsTokens(s.args));
    SpaceArgsBack(ts, p + 1, s.args, e);
    DirectiveJoin(ts, p, s, other, e);
  }

  lemma {:induction false} DirectiveJoin(ts: seq<Token>, p: nat, s: Stmt, other: Lexemes, e: nat)
    requires s.Directive? && s.keyword.text != "route" && Cursor(ts, p) && ts[p].kind == Atom(s.keyword.text)
    requires ReadsSpaceArgs(ts, p + 1, s.args, e) && Cursor(ts, e) && ts[e].kind.Sep?
    ensures ReadsStmt(ts, p, s, other, e)
  {}

  lemma {:induction false} RouteStmtBack(ts: seq<Token>, p: nat, s: Stmt, other: Lexemes, e: nat)
    requires s.RouteStmt? && Holds(ts, p, StmtTokens(s)) && WfStmt(s) && e == p + |StmtTokens(s)| && EndsStmt(ts, e)
    ensures ReadsStmt(ts, p, s, other, e)
  {
    RouteBack(ts, p, s.route, other);
    assert SkipSeps(ts, SkipSeps(ts, e)) == SkipSeps(ts, e);
  }

  function BlockTail(s: Stmt): seq<TokenKind>
    requires s.Block?
  {
    [LBrace] + (StmtsTokens(s.body) + [RBrace])
  }

  lemma {:induction false} BlockTokensAre(s: Stmt)
    requires s.Block?
    ensures StmtTokens(s) == [Atom(s.keyword.text)] + (SpaceArgsTokens(s.args) + BlockTail(s))
  {}

  lemma {:induction false} BlockSplit(ts: seq<Token>, p: nat, s: Stmt) returns (q: nat, e: nat)
    requires s.Block? && Holds(ts, p, StmtTokens(s))
    ensures ts[p].kind == Atom(s.keyword.text) && ReadsSpaceArgs(ts, p + 1, s.args, q)
    ensures ts[q].kind.LBrace? && Holds(ts, q + 1, StmtsTokens(s.body)) && e == q + 1 + |StmtsTokens(s.body)|
    ensures ts[e].kind.RBrace? && e + 1 == p + |StmtTokens(s)| && e + 1 < |ts|
  {
    var args := SpaceArgsTokens(s.args);
    BlockTokensAre(s);
    HoldsOneTwo(ts, p, StmtTokens(s), Atom(s.keyword.text), args, BlockTail(s));
    q := p + 1 + |args|;
    e := BraceSplit(ts, q, s);
    SpaceArgsBack(ts, p + 1, s.args, q);
  }

  lemma {:induction false} BraceSplit(ts: seq<Token>, q: nat, s: Stmt) returns (e: nat)
    requires s.Block? && Holds(ts, q, BlockTail(s))
    ensures ts[q].kind.LBrace? && Holds(ts, q + 1, StmtsTokens(s.body)) && e == q + 1 + |StmtsTokens(s.body)|
    ensures e + 1 == q + |BlockTail(s)| && e + 1 < |ts| && ts[e].kind.RBrace?
  {
    var body := StmtsTokens(s.body);
    HoldsOne(ts, q, LBrace, body + [RBrace]);
    HoldsLast(ts, q + 1, body, RBrace);
    e := q + 1 + |body|;
  }

  lemma {:induction false} BlockJoin(ts: seq<Token>, p: nat, s: Stmt, other: Lexemes, q: nat, e: nat)
    requires s.Block? && s.keyword.text != "route" && Cursor(ts, p) && ts[p].kind == Atom(s.keyword.text)
    requires ReadsSpaceArgs(ts, p + 1, s.args, q) && ts[q].kind.LBrace?
    requires ReadsStmts(ts, q + 1, s.body, true, other, e)
    ensures ReadsStmt(ts, p, s, other, e)
  {
  }

  lemma {:induction false} StmtBack(ts: seq<Token>, p: nat, s: Stmt, other: Lexemes, e: nat)
    requires Holds(ts, p, StmtTokens(s)) && WfStmt(s) && e == p + |StmtTokens(s)| && EndsStmt(ts, e)
    ensures ReadsStmt(ts, p, s, other, e)
    decreases s
  {
    match s
    case Directive(_, _, _) => DirectiveBack(ts, p, s, other, e);
    case RouteStmt(_) => RouteStmtBack(ts, p, s, other, e);
    case Block(_, _, _, _) => BlockBack(ts, p, s, other, e);
  }

  lemma {:induction false} BlockBack(ts: seq<Token>, p: nat, s: Stmt, other: Lexemes, e: nat)
    requires s.Block? && Holds(ts, p, StmtTokens(s)) && WfStmt(s) && e == p + |StmtTokens(s)|
    ensures ReadsStmt(ts, p, s, other, e)
    decreases s, 1
  {
    hide ParseStmt, ParseStmts, StmtTokens, StmtsTokens, Matches, ReadsSpaceArgs, ReadsStmt;
    var q, close := BlockSplit(ts, p, s);
    BlockRead(ts, p, s, other, q, close);
  }

  lemma {:induction false} BlockRead(ts: seq<Token>, p: nat, s: Stmt, other: Lexemes, q: nat, close: nat)
    requires s.Block? && s.keyword.text != "route" && WfStmts(s.body) && Cursor(ts, p)
    requires ts[p].kind == Atom(s.keyword.text) && ReadsSpaceArgs(ts, p + 1, s.args, q) && ts[q].kind.LBrace?
    requires Holds(ts, q + 1, StmtsTokens(s.body)) && close == q + 1 + |StmtsTokens(s.body)| && ts[close].kind.RBrace?
    ensures ReadsStmt(ts, p, s, other, close + 1)
    decreases s, 0
  {
    hide ParseStmt, ParseStmts, StmtTokens, StmtsTokens, Matches, ReadsSpaceArgs, ReadsStmt, ReadsStmts;
    StmtsBack(ts, q + 1, s.body, true, other, close);
    BlockJoin(ts, p, s, other, q, close + 1);
  }

  /** What closes a statement list. */
  predicate Closes(kind: TokenKind, inBlock: bool) {
    if inBlock then kind.RBrace? else kind.Eof?
  }

  function Past(e: nat, inBlock: bool): nat {
    if inBlock then e + 1 else e
  }

  lemma {:induction false} StmtsBack(ts: seq<Token>, p: nat, ss: seq<Stmt>, inBlock: bool, other: Lexemes, end: nat)
    requires Holds(ts, p, StmtsTokens(ss)) && WfStmts(ss)
    requires end == p + |StmtsTokens(ss)| && Closes(ts[end].kind, inBlock)
    ensures ReadsStmts(ts, p, ss, inBlock, other, Past(end, inBlock))
    decreases ss
  {
    if ss == [] {
      StmtsEnd(ts, p, inBlock, other);
    } else {
      StmtsConsBack(ts, p, ss, inBlock, other, p + |StmtTokens(ss[0])|, end);
    }
  }

  lemma {:induction false} StmtsConsBack(ts: seq<Token>, p: nat, ss: seq<Stmt>, inBlock: bool, other: Lexemes, e: nat, end: nat)
    requires ss != [] && WfStmts(ss) && Holds(ts, p, StmtsTokens(ss)) && e == p + |StmtTokens(ss[0])|
    requires end == p + |StmtsTokens(ss)| && Closes(ts[end].kind, inBlock)
    ensures ReadsStmts(ts, p, ss, inBlock, other, Past(end, inBlock))
    decreases ss, 1
  {
    StmtsSplit(ts, p, ss, e);
    SepEnds(ts, e, ss[1..], inBlock, end);
    StmtsRead(ts, p, ss, inBlock, other, e, end);
  }

  lemma {:induction false} StmtsRead(ts: seq<Token>, p: nat, ss: seq<Stmt>, inBlock: bool, other: Lexemes, e: nat, end: nat)
    requires ss != [] && WfStmt(ss[0]) && WfStmts(ss[1..])
    requires Holds(ts, p, StmtTokens(ss[0])) && e == p + |StmtTokens(ss[0])|
    requires ts[p].kind.Atom? && EndsStmt(ts, e) && SkipSeps(ts, e) == e + 1
    requires Holds(ts, e + 1, StmtsTokens(ss[1..])) && end == e + 1 + |StmtsTokens(ss[1..])|
    requires Closes(ts[end].kind, inBlock)
    ensures ReadsStmts(ts, p, ss, inBlock, other, Past(end, inBlock))
    decreases ss, 0
  {
    hide ParseStmt, ParseStmts, StmtTokens, StmtsTokens, Matches, ReadsStmt, ReadsStmts;
    StmtBack(ts, p, ss[0], other, e);
    StmtsBack(ts, e + 1, ss[1..], inBlock, other, end);
    StmtsMore(ts, p, ss, inBlock, other, e, Past(end, inBlock));
  }

  lemma {:induction false} StmtsEnd(ts: seq<Token>, p: nat, inBlock: bool, other: Lexemes)
    requires Cursor(ts, p) && Closes(ts[p].kind, inBlock)
    ensures ReadsStmts(ts, p, [], inBlock, other, Past(p, inBlock))
  {
    assert SkipSeps(ts, p) == p;
  }

  lemma {:induction false} StmtsTokensAre(ss: seq<Stmt>)
    requires ss != []
    ensures StmtsTokens(ss) == StmtTokens(ss[0]) + ([Sep] + StmtsTokens(ss[1..]))
  {}

  /** Behind the separator stands the next statement or what closes the list. */
  lemma {:induction false} NextStmt(ts: seq<Token>, p: nat, ss: seq<Stmt>, inBlock: bool)
    requires Holds(ts, p, StmtsTokens(ss)) && Closes(ts[p + |StmtsTokens(ss)|].kind, inBlock)
    ensures ts[p].kind.Atom? || Closes(ts[p].kind, inBlock)
  {
    if ss != [] {
      StmtStarts(ss[0]);
      StmtsTokensAre(ss);
      HoldsFirst(ts, p, StmtsTokens(ss));
    }
  }

  lemma {:induction false} StmtsSplit(ts: seq<Token>, p: nat, ss: seq<Stmt>, e: nat)
    requires ss != [] && Holds(ts, p, StmtsTokens(ss)) && e == p + |StmtTokens(ss[0])|
    ensures Holds(ts, p, StmtTokens(ss[0])) && ts[p].kind.Atom? && ts[e].kind.Sep?
    ensures Holds(ts, e + 1, StmtsTokens(ss[1..]))
    ensures p + |StmtsTokens(ss)| == e + 1 + |StmtsTokens(ss[1..])|
  {
    hide StmtTokens, StmtsTokens, Matches;
    StmtsTokensAre(ss);
    StmtStarts(ss[0]);
    SplitFirst(ts, p, StmtsTokens(ss), StmtTokens(ss[0]), StmtsTokens(ss[1..]), e);
  }

  lemma {:induction false} SplitFirst(ts: seq<Token>, p: nat, ks: seq<TokenKind>, a: seq<TokenKind>, rest: seq<TokenKind>, e: nat)
    requires Holds(ts, p, ks) && ks == a + ([Sep] + rest) && a != [] && a[0].Atom? && e == p + |a|
    ensures Holds(ts, p, a) && ts[p].kind.Atom? && e < |ts| && ts[e].kind.Sep? && Holds(ts, e + 1, rest)
    ensures p + |ks| == e + 1 + |rest|
  {
    HoldsAround(ts, p, ks, a, Sep, rest);
    HoldsFirst(ts, p, a);
  }

  lemma {:induction false} SepEnds(ts: seq<Token>, e: nat, rest: seq<Stmt>, inBlock: bool, end: nat)
    requires Cursor(ts, e) && ts[e].kind.Sep? && Holds(ts, e + 1, StmtsTokens(rest))
    requires end == e + 1 + |StmtsTokens(rest)| && Closes(ts[end].kind, inBlock)
    ensures SkipSeps(ts, e) == e + 1 && EndsStmt(ts, e)
  {
    NextStmt(ts, e + 1, rest, inBlock);
    OneSeparator(ts, e);
  }

  lemma {:induction false} OneSeparator(ts: seq<Token>, e: nat)
    requires Cursor(ts, e) && ts[e].kind.Sep? && !ts[e + 1].kind.Sep? && !ts[e + 1].kind.Arrow?
    ensures SkipSeps(ts, e) == e + 1 && EndsStmt(ts, e)
  {
    assert SkipSeps(ts, e + 1) == e + 1;
  }

  /** Reading statements depends on the cursor only up to separators. */
  lemma {:induction false} StmtsFromHere(ts: seq<Token>, p: nat, q: nat, inBlock: bool, other: Lexemes)
    requires Cursor(ts, p) && Cursor(ts, q) && SkipSeps(ts, p) == SkipSeps(ts, q)
    ensures ParseStmts(ts, p, inBlock, other) == ParseStmts(ts, q, inBlock, other)
  {
  }

  lemma {:induction false} StmtsMore(ts: seq<Token>, p: nat, ss: seq<Stmt>, inBlock: bool, other: Lexemes, e: nat, end: nat)
    requires ss != [] && Cursor(ts, p) && ts[p].kind.Atom? && ReadsStmt(ts, p, ss[0], other, e)
    requires Cursor(ts, e) && SkipSeps(ts, e) == e + 1 && ReadsStmts(ts, e + 1, ss[1..], inBlock, other, end)
    ensures ReadsStmts(ts, p, ss, inBlock, other, end)
  {
    var x, q := ParseStmt(ts, p, other).value, ParseStmt(ts, p, other).pos;
    assert SkipSeps(ts, p) == p && SkipSeps(ts, e + 1) == e + 1;
    StmtsFromHere(ts, q, e + 1, inBlock, other);
    var xs := ParseStmts(ts, q, inBlock, other).value;
    assert ParseStmts(ts, p, inBlock, other).value == [x] + xs;
    BareStmtsCons(x, xs);
    assert ss == [ss[0]] + ss[1..];
    BareStmtsCons(ss[0], ss[1..]);
  }

  /** Any list of tokens whose kinds are the canonical form of a well-formed tree, wherever the
      tokens stand in their text, parses to that tree up to spans. */
  lemma {:induction false} ParseRoundTrip(ts: seq<Token>, ss: seq<Stmt>, other: Lexemes)
    requires WfStmts(ss) && |ts| == |StmtsTokens(ss)| + 1
    requires forall i :: 0 <= i < |ts| ==> ts[i].kind == (StmtsTokens(ss) + [Eof])[i]
    ensures EofTerminated(ts) && Parse(ts, other).Ok? && BareStmts(Parse(ts, other).value) == BareStmts(ss)
  {
    var ks := StmtsTokens(ss);
    assert ts[|ts| - 1].kind == (ks + [Eof])[|ks|] == Eof;
    forall i | 0 <= i < |ks|
      ensures ts[0 + i].kind == ks[i]
    {
      assert ts[i].kind == (ks + [Eof])[i];
    }
    MatchesAll(ts, 0, ks);
    StmtsBack(ts, 0, ss, false, other, |ks|);
  }
}
