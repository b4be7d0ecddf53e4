/** The grammar the parser accepts, as functions from a position in the token list to the tree
    found there and the position behind it. Every production consumes tokens, so reading any list
    that ends with the end marker terminates. */
module FlowGrammar {
  import opened FlowTokens
  import opened FlowAst

  /** The tree and the position behind it, or the complaint and the token it is about. */
  datatype Parsed<+T> = Parsed(value: T, pos: nat) | Failed(diag: Diag, at: nat)

  /** How a value that is not a quoted string reads as predicate text; typing decides that. */
  type Lexemes = Value -> string

  function Lexeme(v: Value, other: Lexemes): string {
    if v.Text? then v.text else other(v)
  }

  predicate EofTerminated(ts: seq<Token>) {
    ts != [] && ts[|ts| - 1].kind.Eof?
  }

  /** A token list with a cursor that has not run past the end marker. */
  predicate Cursor(ts: seq<Token>, p: nat) {
    EofTerminated(ts) && p < |ts|
  }

  /** A successful production moved forward and stopped at or before the end marker; a failed one
      complains of a token it got to. */
  predicate Moved<T>(ts: seq<Token>, p: nat, r: Parsed<T>) {
    (r.Parsed? ==> p < r.pos < |ts|) && Blames(ts, p, r)
  }

  predicate Blames<T>(ts: seq<Token>, p: nat, r: Parsed<T>) {
    r.Failed? ==> p <= r.at < |ts| && r.diag.span == ts[r.at].span
  }

  function Fail<T>(ts: seq<Token>, p: nat, code: Code, message: string): Parsed<T>
    requires p < |ts|
  {
    Failed(Diag(code, message, ts[p].span), p)
  }

  function SkipSeps(ts: seq<Token>, p: nat): (q: nat)
    requires Cursor(ts, p)
    ensures p <= q < |ts| && !ts[q].kind.Sep?
    decreases |ts| - p
  {
    if ts[p].kind.Sep? then SkipSeps(ts, p + 1) else p
  }

  // ---------- values and arguments ----------

  function ParseValue(ts: seq<Token>, p: nat): (r: Parsed<SpannedValue>)
    requires Cursor(ts, p)
    ensures Moved(ts, p, r)
    decreases |ts| - p, 1
  {
    match ts[p].kind
    case Str(s) => Parsed(SpannedValue(Text(s), ts[p].span), p + 1)
    case Env(s) => Parsed(SpannedValue(Reference(s), ts[p].span), p + 1)
    case Atom(s) => Parsed(SpannedValue(Bare(s), ts[p].span), p + 1)
    case LBracket => ParseArray(ts, p)
    case _ => Fail(ts, p, CfgTypeMismatch, "expected a value")
  }

  function ParseArray(ts: seq<Token>, p: nat): (r: Parsed<SpannedValue>)
    requires Cursor(ts, p) && ts[p].kind.LBracket?
    ensures Moved(ts, p, r)
    decreases |ts| - p, 0
  {
    match ParseItems(ts, p + 1)
    case Failed(d, k) => Failed(d, k)
    case Parsed(items, q) =>
      if ts[q].kind.RBracket?
      then Parsed(SpannedValue(Array(items), SpanTo(ts[p].span, ts[q].span.End())), q + 1)
      else Fail(ts, q, CfgSyntax, "expected `]` to close array")
  }

  /** Comma-separated values, up to the first token that cannot go on. */
  function ParseItems(ts: seq<Token>, p: nat): (r: Parsed<seq<SpannedValue>>)
    requires Cursor(ts, p)
    ensures (r.Parsed? ==> p <= r.pos < |ts|) && Blames(ts, p, r)
    decreases |ts| - p, 2
  {
    var q := SkipSeps(ts, p);
    if ts[q].kind.RBracket? then Parsed([], q)
    else
      match ParseValue(ts, q)
      case Failed(d, k) => Failed(d, k)
      case Parsed(v, e) =>
        var e' := SkipSeps(ts, e);
        if ts[e'].kind.Comma? then
          match ParseItems(ts, e' + 1)
          case Failed(d, k) => Failed(d, k)
          case Parsed(vs, end) => Parsed([v] + vs, end)
        else Parsed([v], e')
  }

  predicate StartsNamed(ts: seq<Token>, p: nat)
    requires Cursor(ts, p)
  {
    ts[p].kind.Atom? && ts[p + 1].kind.Equals?
  }

  function ParseArg(ts: seq<Token>, p: nat): (r: Parsed<Arg>)
    requires Cursor(ts, p)
    ensures Moved(ts, p, r)
  {
    if StartsNamed(ts, p) then
      match ParseValue(ts, p + 2)
      case Failed(d, k) => Failed(d, k)
      case Parsed(v, e) => Parsed(Named(Name(ts[p].kind.text, ts[p].span), v), e)
    else
      match ParseValue(ts, p)
      case Failed(d, k) => Failed(d, k)
      case Parsed(v, e) => Parsed(Positional(v), e)
  }

  predicate StartsValue(kind: TokenKind) {
    kind.Atom? || kind.Str? || kind.Env? || kind.LBracket?
  }

  function ParseSpaceArgs(ts: seq<Token>, p: nat): (r: Parsed<seq<Arg>>)
    requires Cursor(ts, p)
    ensures (r.Parsed? ==> p <= r.pos < |ts|) && Blames(ts, p, r)
    decreases |ts| - p
  {
    if !StartsValue(ts[p].kind) then Parsed([], p)
    else
      match ParseArg(ts, p)
      case Failed(d, k) => Failed(d, k)
      case Parsed(a, e) =>
        match ParseSpaceArgs(ts, e)
        case Failed(d, k) => Failed(d, k)
        case Parsed(args, end) => Parsed([a] + args, end)
  }

  // ---------- routes ----------

  function ParseParenArgs(ts: seq<Token>, p: nat): (r: Parsed<seq<Arg>>)
    requires Cursor(ts, p)
    ensures (r.Parsed? ==> p <= r.pos < |ts|) && Blames(ts, p, r)
    decreases |ts| - p
  {
    var q := SkipSeps(ts, p);
    if ts[q].kind.RParen? then Parsed([], q)
    else
      match ParseArg(ts, q)
      case Failed(d, k) => Failed(d, k)
      case Parsed(a, e) =>
        var e' := SkipSeps(ts, e);
        if ts[e'].kind.Comma? then
          match ParseParenArgs(ts, e' + 1)
          case Failed(d, k) => Failed(d, k)
          case Parsed(args, end) => Parsed([a] + args, end)
        else Parsed([a], e')
  }

  function ParseStep(ts: seq<Token>, p: nat): (r: Parsed<Step>)
    requires Cursor(ts, p)
    ensures Moved(ts, p, r)
  {
    if !ts[p].kind.Atom? then Fail(ts, p, CfgSyntax, "expected a middleware or handler name")
    else
      var name := Name(ts[p].kind.text, ts[p].span);
      if !ts[p + 1].kind.LParen? then
        Parsed(Step(name, [], false, SpanTo(name.span, name.span.End())), p + 1)
      else
        match ParseParenArgs(ts, p + 2)
        case Failed(d, k) => Failed(d, k)
        case Parsed(args, q) =>
          if ts[q].kind.RParen?
          then Parsed(Step(name, args, true, SpanTo(name.span, ts[q].span.End())), q + 1)
          else Fail(ts, q, CfgSyntax, "expected `)` to close arguments")
  }

  /** `~>`-separated steps; separators may stand around every arrow. */
  function ParseSteps(ts: seq<Token>, p: nat): (r: Parsed<seq<Step>>)
    requires Cursor(ts, p)
    ensures (r.Parsed? ==> p <= r.pos < |ts|) && Blames(ts, p, r)
    decreases |ts| - p
  {
    var q := SkipSeps(ts, p);
    if !ts[q].kind.Arrow? then Parsed([], q)
    else
      match ParseStep(ts, SkipSeps(ts, q + 1))
      case Failed(d, k) => Failed(d, k)
      case Parsed(s, e) =>
        match ParseSteps(ts, e)
        case Failed(d, k) => Failed(d, k)
        case Parsed(steps, end) => Parsed([s] + steps, end)
  }

  function ParsePred(ts: seq<Token>, p: nat, other: Lexemes): (r: Parsed<Pred>)
    requires Cursor(ts, p)
    ensures Moved(ts, p, r)
  {
    if !ts[p].kind.Atom? then Fail(ts, p, CfgSyntax, "expected a predicate key like `method`")
    else if !ts[p + 1].kind.Equals? then
      Parsed(Pred(ts[p].kind.text, "*", SpanTo(ts[p].span, ts[p].span.End())), p + 1)
    else
      match ParseValue(ts, p + 2)
      case Failed(d, k) => Failed(d, k)
      case Parsed(v, e) =>
        Parsed(Pred(ts[p].kind.text, Lexeme(v.node, other), SpanTo(ts[p].span, v.span.End())), e)
  }

  function ParsePreds(ts: seq<Token>, p: nat, other: Lexemes): (r: Parsed<seq<Pred>>)
    requires Cursor(ts, p)
    ensures (r.Parsed? ==> p <= r.pos < |ts|) && Blames(ts, p, r)
    decreases |ts| - p
  {
    var q := SkipSeps(ts, p);
    if ts[q].kind.RBracket? then Parsed([], q)
    else
      match ParsePred(ts, q, other)
      case Failed(d, k) => Failed(d, k)
      case Parsed(x, e) =>
        var e' := SkipSeps(ts, e);
        if ts[e'].kind.Comma? then
          match ParsePreds(ts, e' + 1, other)
          case Failed(d, k) => Failed(d, k)
          case Parsed(xs, end) => Parsed([x] + xs, end)
        else Parsed([x], e')
  }

  /** `= path` is exact, `~ pattern` a regex, anything else a prefix. */
  function MatchKindAt(ts: seq<Token>, p: nat): MatchKind
    requires Cursor(ts, p)
  {
    if ts[p].kind.Equals? then Exact else if ts[p].kind == Atom("~") then Regex else Prefix
  }

  function ParseMatcher(ts: seq<Token>, p: nat, other: Lexemes): (r: Parsed<Matcher>)
    requires Cursor(ts, p)
    ensures Moved(ts, p, r)
  {
    var kind := MatchKindAt(ts, p);
    var q := if kind.Prefix? then p else p + 1;
    if !ts[q].kind.Atom? then Fail(ts, q, CfgSyntax, "expected a route pattern")
    else
      var pattern := Name(ts[q].kind.text, ts[q].span);
      if !ts[q + 1].kind.LBracket? then
        Parsed(Matcher(kind, pattern, [], SpanTo(ts[p].span, ts[q].span.End())), q + 1)
      else
        match ParsePreds(ts, q + 2, other)
        case Failed(d, k) => Failed(d, k)
        case Parsed(preds, e) =>
          if ts[e].kind.RBracket?
          then Parsed(Matcher(kind, pattern, preds, SpanTo(ts[p].span, ts[e].span.End())), e + 1)
          else Fail(ts, e, CfgSyntax, "expected `]` to close predicates")
  }

  function RouteEnd(m: Matcher, steps: seq<Step>): nat {
    if steps == [] then m.span.End() else steps[|steps| - 1].span.End()
  }

  function ParseRoute(ts: seq<Token>, p: nat, other: Lexemes): (r: Parsed<Route>)
    requires Cursor(ts, p) && ts[p].kind.Atom?
    ensures Moved(ts, p, r)
  {
    match ParseMatcher(ts, p + 1, other)
    case Failed(d, k) => Failed(d, k)
    case Parsed(m, q) =>
      match ParseSteps(ts, q)
      case Failed(d, k) => Failed(d, k)
      case Parsed(steps, e) => Parsed(Route(m, steps, SpanTo(ts[p].span, RouteEnd(m, steps))), e)
  }

  // ---------- statements ----------

  function ArgsEnd(keyword: Name, args: seq<Arg>): nat {
    if args == [] then keyword.span.End() else args[|args| - 1].ArgSpan().End()
  }

  function ParseStmt(ts: seq<Token>, p: nat, other: Lexemes): (r: Parsed<Stmt>)
    requires Cursor(ts, p)
    ensures Moved(ts, p, r)
    decreases |ts| - p, 0
  {
    if !ts[p].kind.Atom? then Fail(ts, p, CfgSyntax, "expected a keyword to start a statement")
    else if ts[p].kind.text == "route" then
      match ParseRoute(ts, p, other)
      case Failed(d, k) => Failed(d, k)
      case Parsed(route, e) => Parsed(RouteStmt(route), e)
    else
      var keyword := Name(ts[p].kind.text, ts[p].span);
      match ParseSpaceArgs(ts, p + 1)
      case Failed(d, k) => Failed(d, k)
      case Parsed(args, q) =>
        if !ts[q].kind.LBrace? then
          Parsed(Directive(keyword, args, SpanTo(keyword.span, ArgsEnd(keyword, args))), q)
        else
          match ParseStmts(ts, q + 1, true, other)
          case Failed(d, k) => Failed(d, k)
          case Parsed(body, e) =>
            Parsed(Block(keyword, args, body, SpanTo(keyword.span, ts[e - 1].span.End())), e)
  }

  /** Statements up to the end of input, or up to and including the closing brace of a block. */
  function ParseStmts(ts: seq<Token>, p: nat, inBlock: bool, other: Lexemes): (r: Parsed<seq<Stmt>>)
    requires Cursor(ts, p)
    ensures (r.Parsed? ==> p <= r.pos < |ts| && (inBlock ==> p < r.pos)) && Blames(ts, p, r)
    decreases |ts| - p, 1
  {
    var q := SkipSeps(ts, p);
    if ts[q].kind.Eof? then
      if inBlock then Fail(ts, q, CfgSyntax, "unexpected end of input: missing closing `}`") else Parsed([], q)
    else if ts[q].kind.RBrace? then
      if inBlock then Parsed([], q + 1) else Fail(ts, q, CfgSyntax, "unexpected `}` with no matching block")
    else
      match ParseStmt(ts, q, other)
      case Failed(d, k) => Failed(d, k)
      case Parsed(s, e) =>
        match ParseStmts(ts, e, inBlock, other)
        case Failed(d, k) => Failed(d, k)
        case Parsed(rest, end) => Parsed([s] + rest, end)
  }

  /** The whole document. */
  function Parse(ts: seq<Token>, other: Lexemes): Result<seq<Stmt>>
    requires EofTerminated(ts)
  {
    match ParseStmts(ts, 0, false, other)
    case Failed(d, _) => Err(d)
    case Parsed(stmts, _) => Ok(stmts)
  }
}
