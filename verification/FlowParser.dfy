/** The recursive-descent parser as it runs: one cursor into the token list, advanced in place,
    and vectors filled in loops. Each method yields exactly what the grammar says. */
module FlowParser {
  import opened FlowTokens
  import opened FlowAst
  import opened FlowGrammar

  /** Items already collected, put before what the rest of the list yields. */
  function Onto<T>(done: seq<T>, rest: Parsed<seq<T>>): Parsed<seq<T>> {
    match rest
    case Failed(d, k) => Failed(d, k)
    case Parsed(xs, e) => Parsed(done + xs, e)
  }

  lemma {:induction false} OntoNothing<T>(r: Parsed<seq<T>>)
    ensures Onto([], r) == r
  {
    if r.Parsed? {
      assert [] + r.value == r.value;
    }
  }

  lemma {:induction false} OntoSnoc<T>(done: seq<T>, x: T, rest: Parsed<seq<T>>)
    ensures Onto(done, Onto([x], rest)) == Onto(done + [x], rest)
  {
    if rest.Parsed? {
      assert done + ([x] + rest.value) == done + [x] + rest.value;
    }
  }

  /** The method returned `r` and left the cursor at `pos`, as `spec` says: behind what it read, or at the
      token it complains of. */
  predicate Gives<T(==)>(spec: Parsed<T>, r: Result<T>, pos: nat) {
    match spec
    case Failed(d, k) => r == Err(d) && pos == k
    case Parsed(v, e) => r == Ok(v) && pos == e
  }

  class Parser {
    const tokens: seq<Token>
    const other: Lexemes
    var pos: nat

    ghost predicate Valid()
      reads this
    {
      Cursor(tokens, pos)
    }

    constructor (tokens: seq<Token>, other: Lexemes)
      requires EofTerminated(tokens)
      ensures Valid() && this.tokens == tokens && this.other == other && pos == 0
    {
      this.tokens, this.other, pos := tokens, other, 0;
    }

    function Kind(): TokenKind
      requires Valid()
      reads this
    {
      tokens[pos].kind
    }

    function NextKind(): TokenKind
      requires Valid()
      reads this
    {
      if pos + 1 < |tokens| then tokens[pos + 1].kind else tokens[pos].kind
    }

    method Bump() returns (t: Token)
      requires Valid()
      modifies this
      ensures Valid() && t == tokens[old(pos)] && pos == if old(pos) < |tokens| - 1 then old(pos) + 1 else old(pos)
    {
      t := tokens[pos];
      if pos < |tokens| - 1 {
        pos := pos + 1;
      }
    }

    method SkipSeparators()
      requires Valid()
      modifies this
      ensures Valid() && pos == SkipSeps(tokens, old(pos))
    {
      while Kind().Sep?
        invariant Valid() && SkipSeps(tokens, pos) == SkipSeps(tokens, old(pos))
        decreases |tokens| - pos
      {
        pos := pos + 1;
      }
    }

    function Error(code: Code, message: string): Diag
      requires Valid()
      reads this
    {
      Diag(code, message, tokens[pos].span)
    }

    method ParseValue() returns (r: Result<SpannedValue>)
      requires Valid()
      modifies this
      ensures Valid() && Gives(FlowGrammar.ParseValue(tokens, old(pos)), r, pos)
      decreases |tokens| - pos, 1
    {
      match Kind()
      case Str(s) =>
        var t := Bump();
        return Ok(SpannedValue(Text(s), t.span));
      case Env(s) =>
        var t := Bump();
        return Ok(SpannedValue(Reference(s), t.span));
      case Atom(s) =>
        var t := Bump();
        return Ok(SpannedValue(Bare(s), t.span));
      case LBracket =>
        r := ParseArray();
      case _ =>
        return Err(Error(CfgTypeMismatch, "expected a value"));
    }

    method ParseArray() returns (r: Result<SpannedValue>)
      requires Valid() && Kind().LBracket?
      modifies this
      ensures Valid() && Gives(FlowGrammar.ParseArray(tokens, old(pos)), r, pos)
      decreases |tokens| - pos, 0
    {
      var open := Bump();
      var items := ParseItems();
      if items.Err? {
        return Err(items.diag);
      }
      if !Kind().RBracket? {
        return Err(Error(CfgSyntax, "expected `]` to close array"));
      }
      var close := Bump();
      return Ok(SpannedValue(Array(items.value), SpanTo(open.span, close.span.End())));
    }

    method ParseItems() returns (r: Result<seq<SpannedValue>>)
      requires Valid()
      modifies this
      ensures Valid() && Gives(FlowGrammar.ParseItems(tokens, old(pos)), r, pos)
      decreases |tokens| - pos, 2
    {
      var items: seq<SpannedValue> := [];
      ghost var all := FlowGrammar.ParseItems(tokens, pos);
      OntoNothing(all);
      while true
        invariant Valid() && old(pos) <= pos && Onto(items, FlowGrammar.ParseItems(tokens, pos)) == all
        decreases |tokens| - pos
      {
        SkipSeparators();
        if Kind().RBracket? {
          break;
        }
        var v := ParseValue();
        if v.Err? {
          return Err(v.diag);
        }
        SkipSeparators();
        if Kind().Comma? {
          var _ := Bump();
          OntoSnoc(items, v.value, FlowGrammar.ParseItems(tokens, pos));
          items := items + [v.value];
        } else {
          items := items + [v.value];
          return Ok(items);
        }
      }
      assert items + [] == items;
      return Ok(items);
    }

    method ParseArg() returns (r: Result<Arg>)
      requires Valid()
      modifies this
      ensures Valid() && Gives(FlowGrammar.ParseArg(tokens, old(pos)), r, pos)
    {
      if Kind().Atom? && NextKind().Equals? {
        var name := Bump();
        var _ := Bump();
        var v := ParseValue();
        if v.Err? {
          return Err(v.diag);
        }
        return Ok(Named(Name(name.kind.text, name.span), v.value));
      }
      var v := ParseValue();
      if v.Err? {
        return Err(v.diag);
      }
      return Ok(Positional(v.value));
    }

    method ParseSpaceArgs() returns (r: Result<seq<Arg>>)
      requires Valid()
      modifies this
      ensures Valid() && Gives(FlowGrammar.ParseSpaceArgs(tokens, old(pos)), r, pos)
    {
      var args: seq<Arg> := [];
      ghost var all := FlowGrammar.ParseSpaceArgs(tokens, pos);
      OntoNothing(all);
      while StartsValue(Kind())
        invariant Valid() && Onto(args, FlowGrammar.ParseSpaceArgs(tokens, pos)) == all
        decreases |tokens| - pos
      {
        var a := ParseArg();
        if a.Err? {
          return Err(a.diag);
        }
        OntoSnoc(args, a.value, FlowGrammar.ParseSpaceArgs(tokens, pos));
        args := args + [a.value];
      }
      assert args + [] == args;
      return Ok(args);
    }

    method ParseParenArgs() returns (r: Result<seq<Arg>>)
      requires Valid()
      modifies this
      ensures Valid() && Gives(FlowGrammar.ParseParenArgs(tokens, old(pos)), r, pos)
    {
      var args: seq<Arg> := [];
      ghost var all := FlowGrammar.ParseParenArgs(tokens, pos);
      OntoNothing(all);
      while true
        invariant Valid() && Onto(args, FlowGrammar.ParseParenArgs(tokens, pos)) == all
        decreases |tokens| - pos
      {
        SkipSeparators();
        if Kind().RParen? {
          break;
        }
        var a := ParseArg();
        if a.Err? {
          return Err(a.diag);
        }
        SkipSeparators();
        if Kind().Comma? {
          var _ := Bump();
          OntoSnoc(args, a.value, FlowGrammar.ParseParenArgs(tokens, pos));
          args := args + [a.value];
        } else {
          args := args + [a.value];
          return Ok(args);
        }
      }
      assert args + [] == args;
      return Ok(args);
    }

    method ParseStep() returns (r: Result<Step>)
      requires Valid()
      modifies this
      ensures Valid() && Gives(FlowGrammar.ParseStep(tokens, old(pos)), r, pos)
    {
      if !Kind().Atom? {
        return Err(Error(CfgSyntax, "expected a middleware or handler name"));
      }
      var t := Bump();
      var name := Name(t.kind.text, t.span);
      if !Kind().LParen? {
        return Ok(Step(name, [], false, SpanTo(t.span, t.span.End())));
      }
      var _ := Bump();
      var args := ParseParenArgs();
      if args.Err? {
        return Err(args.diag);
      }
      if !Kind().RParen? {
        return Err(Error(CfgSyntax, "expected `)` to close arguments"));
      }
      var close := Bump();
      return Ok(Step(name, args.value, true, SpanTo(t.span, close.span.End())));
    }

    method ParseSteps() returns (r: Result<seq<Step>>)
      requires Valid()
      modifies this
      ensures Valid() && Gives(FlowGrammar.ParseSteps(tokens, old(pos)), r, pos)
    {
      var steps: seq<Step> := [];
      ghost var all := FlowGrammar.ParseSteps(tokens, pos);
      OntoNothing(all);
      while true
        invariant Valid() && Onto(steps, FlowGrammar.ParseSteps(tokens, pos)) == all
        decreases |tokens| - pos
      {
        SkipSeparators();
        if !Kind().Arrow? {
          break;
        }
        var s := StepBehindArrow();
        if s.Err? {
          return Err(s.diag);
        }
        OntoSnoc(steps, s.value, FlowGrammar.ParseSteps(tokens, pos));
        steps := steps + [s.value];
      }
      assert steps + [] == steps;
      return Ok(steps);
    }

    method StepBehindArrow() returns (r: Result<Step>)
      requires Valid() && Kind().Arrow?
      modifies this
      ensures Valid() && Gives(FlowGrammar.ParseStep(tokens, SkipSeps(tokens, old(pos) + 1)), r, pos)
      ensures r.Ok? ==> old(pos) < pos
    {
      var _ := Bump();
      SkipSeparators();
      r := ParseStep();
    }

    method ParsePred() returns (r: Result<Pred>)
      requires Valid()
      modifies this
      ensures Valid() && Gives(FlowGrammar.ParsePred(tokens, old(pos), other), r, pos)
    {
      if !Kind().Atom? {
        return Err(Error(CfgSyntax, "expected a predicate key like `method`"));
      }
      var key := Bump();
      if !Kind().Equals? {
        return Ok(Pred(key.kind.text, "*", SpanTo(key.span, key.span.End())));
      }
      var _ := Bump();
      var v := ParseValue();
      if v.Err? {
        return Err(v.diag);
      }
      return Ok(Pred(key.kind.text, Lexeme(v.value.node, other), SpanTo(key.span, v.value.span.End())));
    }

    method ParsePreds() returns (r: Result<seq<Pred>>)
      requires Valid()
      modifies this
      ensures Valid() && Gives(FlowGrammar.ParsePreds(tokens, old(pos), other), r, pos)
    {
      var preds: seq<Pred> := [];
      ghost var all := FlowGrammar.ParsePreds(tokens, pos, other);
      OntoNothing(all);
      while true
        invariant Valid() && Onto(preds, FlowGrammar.ParsePreds(tokens, pos, other)) == all
        decreases |tokens| - pos
      {
        SkipSeparators();
        if Kind().RBracket? {
          break;
        }
        var x := ParsePred();
        if x.Err? {
          return Err(x.diag);
        }
        SkipSeparators();
        if Kind().Comma? {
          var _ := Bump();
          OntoSnoc(preds, x.value, FlowGrammar.ParsePreds(tokens, pos, other));
          preds := preds + [x.value];
        } else {
          preds := preds + [x.value];
          return Ok(preds);
        }
      }
      assert preds + [] == preds;
      return Ok(preds);
    }

    method ParseMatcher() returns (r: Result<Matcher>)
      requires Valid()
      modifies this
      ensures Valid() && Gives(FlowGrammar.ParseMatcher(tokens, old(pos), other), r, pos)
    {
      var start := tokens[pos].span;
      var kind := Prefix;
      if Kind().Equals? {
        var _ := Bump();
        kind := Exact;
      } else if Kind() == Atom("~") {
        var _ := Bump();
        kind := Regex;
      }
      if !Kind().Atom? {
        return Err(Error(CfgSyntax, "expected a route pattern"));
      }
      var t := Bump();
      var pattern := Name(t.kind.text, t.span);
      if !Kind().LBracket? {
        return Ok(Matcher(kind, pattern, [], SpanTo(start, t.span.End())));
      }
      var _ := Bump();
      var preds := ParsePreds();
      if preds.Err? {
        return Err(preds.diag);
      }
      if !Kind().RBracket? {
        return Err(Error(CfgSyntax, "expected `]` to close predicates"));
      }
      var close := Bump();
      return Ok(Matcher(kind, pattern, preds.value, SpanTo(start, close.span.End())));
    }

    method ParseRoute() returns (r: Result<Route>)
      requires Valid() && Kind().Atom?
      modifies this
      ensures Valid() && Gives(FlowGrammar.ParseRoute(tokens, old(pos), other), r, pos)
    {
      var keyword := Bump();
      var m := ParseMatcher();
      if m.Err? {
        return Err(m.diag);
      }
      var steps := ParseSteps();
      if steps.Err? {
        return Err(steps.diag);
      }
      var end := if steps.value == [] then m.value.span.End() else steps.value[|steps.value| - 1].span.End();
      return Ok(Route(m.value, steps.value, SpanTo(keyword.span, end)));
    }

    method ParseStmt() returns (r: Result<Stmt>)
      requires Valid()
      modifies this
      ensures Valid() && Gives(FlowGrammar.ParseStmt(tokens, old(pos), other), r, pos)
      decreases |tokens| - pos, 0
    {
      if !Kind().Atom? {
        return Err(Error(CfgSyntax, "expected a keyword to start a statement"));
      }
      if Kind().text == "route" {
        var route := ParseRoute();
        if route.Err? {
          return Err(route.diag);
        }
        return Ok(RouteStmt(route.value));
      }
      var t := Bump();
      var keyword := Name(t.kind.text, t.span);
      var args := ParseSpaceArgs();
      if args.Err? {
        return Err(args.diag);
      }
      if !Kind().LBrace? {
        var end := if args.value == [] then t.span.End() else args.value[|args.value| - 1].ArgSpan().End();
        return Ok(Directive(keyword, args.value, SpanTo(t.span, end)));
      }
      var _ := Bump();
      var body := ParseStmts(true);
      if body.Err? {
        return Err(body.diag);
      }
      return Ok(Block(keyword, args.value, body.value, SpanTo(t.span, tokens[pos - 1].span.End())));
    }

    method ParseStmts(inBlock: bool) returns (r: Result<seq<Stmt>>)
      requires Valid()
      modifies this
      ensures Valid() && Gives(FlowGrammar.ParseStmts(tokens, old(pos), inBlock, other), r, pos)
      decreases |tokens| - pos, 1
    {
      var stmts: seq<Stmt> := [];
      ghost var all := FlowGrammar.ParseStmts(tokens, pos, inBlock, other);
      OntoNothing(all);
      while true
        invariant Valid() && old(pos) <= pos && Onto(stmts, FlowGrammar.ParseStmts(tokens, pos, inBlock, other)) == all
        decreases |tokens| - pos
      {
        SkipSeparators();
        if Kind().Eof? {
          if inBlock {
            return Err(Error(CfgSyntax, "unexpected end of input: missing closing `}`"));
          }
          break;
        }
        if Kind().RBrace? {
          if !inBlock {
            return Err(Error(CfgSyntax, "unexpected `}` with no matching block"));
          }
          var _ := Bump();
          assert stmts + [] == stmts;
          return Ok(stmts);
        }
        var s := ParseStmt();
        if s.Err? {
          return Err(s.diag);
        }
        OntoSnoc(stmts, s.value, FlowGrammar.ParseStmts(tokens, pos, inBlock, other));
        stmts := stmts + [s.value];
      }
      assert stmts + [] == stmts;
      return Ok(stmts);
    }

    /** The whole document, from the start. */
    method ParseDocument() returns (r: Result<seq<Stmt>>)
      requires Valid() && pos == 0
      modifies this
      ensures r == Parse(tokens, other)
    {
      r := ParseStmts(false);
    }
  }
}
