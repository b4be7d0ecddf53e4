/** The Flow syntax tree. Values keep the raw text of atoms and references: typing them into
    numbers, durations and sizes is a later, separate concern. */
module FlowAst {
  import opened FlowTokens

  datatype Name = Name(text: string, span: Span)

  datatype Value =
    | Text(text: string)
    | Reference(text: string)
    | Bare(text: string)
    | Array(items: seq<SpannedValue>)

  datatype SpannedValue = SpannedValue(node: Value, span: Span)

  datatype Arg =
    | Positional(value: SpannedValue)
    | Named(name: Name, value: SpannedValue)
  {
    function ArgSpan(): Span {
      match this
      case Positional(v) => v.span
      case Named(n, v) => SpanTo(n.span, v.span.End())
    }
  }

  datatype MatchKind = Prefix | Exact | Regex

  datatype Pred = Pred(key: string, value: string, span: Span)

  datatype Matcher = Matcher(kind: MatchKind, pattern: Name, predicates: seq<Pred>, span: Span)

  datatype Step = Step(name: Name, args: seq<Arg>, hasParens: bool, span: Span)

  datatype Route = Route(matcher: Matcher, steps: seq<Step>, span: Span)

  datatype Stmt =
    | Block(keyword: Name, args: seq<Arg>, body: seq<Stmt>, span: Span)
    | Directive(keyword: Name, args: seq<Arg>, span: Span)
    | RouteStmt(route: Route)

  /** From the start of one span to an absolute end offset. */
  function SpanTo(start: Span, end: nat): Span {
    Span(start.offset, if end >= start.offset then end - start.offset else 0, start.line, start.col)
  }
}
