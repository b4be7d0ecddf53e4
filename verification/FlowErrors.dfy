/** Where parsing fails: the complaint is about the first token that no document can have there. What the
    tokens before it say can still become a document; with it, nothing that follows can help. */
module FlowErrors {
  import opened FlowTokens
  import opened FlowAst
  import opened FlowGrammar

  // ---------- reading depends on what was read ----------

  /** Tokens that end whatever is open and start nothing. */
  predicate Calm(kind: TokenKind) {
    kind.RBracket? || kind.RParen? || kind.RBrace? || kind.Eof?
  }

  /** The lists agree before `k`, and there too, unless the second has a calm token. */
  ghost predicate Echo(ts: seq<Token>, us: seq<Token>, k: nat) {
    && EofTerminated(ts) && EofTerminated(us) && k < |ts| && k < |us|
    && (forall i :: 0 <= i < k ==> us[i] == ts[i])
    && (us[k] == ts[k] || Calm(us[k].kind))
  }

  /** What was read by `k` is read again, and what failed by then fails again. */
  ghost predicate Kept<T>(ts: seq<Token>, us: seq<Token>, k: nat, r: Parsed<T>, again: Parsed<T>)
    requires k < |ts| && k < |us|
  {
    && (r.Parsed? && r.pos <= k ==> again == r)
    && (r.Failed? && r.at <= k && us[k] == ts[k] ==> again == r)
  }

  /** The same of a list that stops at its closing token without consuming it. */
  ghost predicate KeptList<T>(ts: seq<Token>, us: seq<Token>, k: nat, closer: TokenKind, r: Parsed<T>, again: Parsed<T>)
    requires k < |ts| && k < |us|
  {
    && (r.Parsed? && (r.pos < k || (r.pos == k && (us[k] == ts[k] || ts[k].kind != closer))) ==> again == r)
    && (r.Failed? && r.at <= k && us[k] == ts[k] ==> again == r)
  }

  lemma {:induction false} SepsKept(ts: seq<Token>, us: seq<Token>, p: nat, k: nat)
    requires Echo(ts, us, k) && p <= k
    ensures SkipSeps(ts, p) <= k ==> SkipSeps(us, p) == SkipSeps(ts, p)
    decreases k - p
  {
    if p < k {
      assert us[p] == ts[p];
      if ts[p].kind.Sep? {
        SepsKept(ts, us, p + 1, k);
      }
    }
  }

  lemma {:induction false} ValueKept(ts: seq<Token>, us: seq<Token>, p: nat, k: nat)
    requires Echo(ts, us, k) && p <= k
    ensures Kept(ts, us, k, ParseValue(ts, p), ParseValue(us, p))
    decreases k - p, 0
  {
    hide ParseItems;
    assert p < k ==> us[p] == ts[p];
    if ts[p].kind.LBracket? && p < k {
      ItemsKept(ts, us, p + 1, k);
      var items := ParseItems(ts, p + 1);
      assert items.Parsed? && items.pos < k ==> us[items.pos] == ts[items.pos];
    }
  }

  lemma {:induction false} ItemsKept(ts: seq<Token>, us: seq<Token>, p: nat, k: nat)
    requires Echo(ts, us, k) && p <= k
    ensures KeptList(ts, us, k, RBracket, ParseItems(ts, p), ParseItems(us, p))
    decreases k - p, 1
  {
    hide ParseValue, SkipSeps, ParseItems;
    var q := SkipSeps(ts, p);
    SepsKept(ts, us, p, k);
    ItemsFrom(ts, p);
    ItemsFrom(us, p);
    if q <= k {
      assert q < k ==> us[q] == ts[q];
      if !ts[q].kind.RBracket? {
        ValueKept(ts, us, q, k);
        var v := ParseValue(ts, q);
        if v.Parsed? && v.pos <= k {
          MoreItemsKept(ts, us, v.pos, k, v.value);
        }
      }
    }
  }

  /** What follows the value `v` in a list. */
  function MoreItems(ts: seq<Token>, b: nat, v: SpannedValue): Parsed<seq<SpannedValue>>
    requires Cursor(ts, b)
  {
    var e := SkipSeps(ts, b);
    if ts[e].kind.Comma? then
      match ParseItems(ts, e + 1)
      case Failed(d, k) => Failed(d, k)
      case Parsed(vs, end) => Parsed([v] + vs, end)
    else Parsed([v], e)
  }

  lemma {:induction false} ItemsFrom(ts: seq<Token>, p: nat)
    requires Cursor(ts, p)
    ensures var q := SkipSeps(ts, p);
            ParseItems(ts, p) ==
            if ts[q].kind.RBracket? then Parsed([], q)
            else
              match ParseValue(ts, q)
              case Failed(d, k) => Failed(d, k)
              case Parsed(v, b) => MoreItems(ts, b, v)
  {
    hide ParseValue, SkipSeps;
  }

  lemma {:induction false} MoreItemsKept(ts: seq<Token>, us: seq<Token>, b: nat, k: nat, v: SpannedValue)
    requires Echo(ts, us, k) && 0 < b <= k
    ensures KeptList(ts, us, k, RBracket, MoreItems(ts, b, v), MoreItems(us, b, v))
    decreases k - b, 2
  {
    hide SkipSeps, ParseItems;
    SepsKept(ts, us, b, k);
    var e := SkipSeps(ts, b);
    if e < k {
      assert us[e] == ts[e];
      if ts[e].kind.Comma? {
        ItemsKept(ts, us, e + 1, k);
      }
    }
  }

  lemma {:induction false} ArgKept(ts: seq<Token>, us: seq<Token>, p: nat, k: nat)
    requires Echo(ts, us, k) && p <= k
    ensures Kept(ts, us, k, ParseArg(ts, p), ParseArg(us, p))
  {
    assert ts[p].kind.Atom? ==> ParseValue(ts, p).Parsed?;
    hide ParseValue;
    ValueKept(ts, us, p, k);
    if p < k {
      assert us[p] == ts[p] && (p + 1 < k ==> us[p + 1] == ts[p + 1]);
      if StartsNamed(ts, p) && p + 2 <= k {
        ValueKept(ts, us, p + 2, k);
      }
      if ts[p].kind.Atom? && !StartsNamed(ts, p) {
        assert !StartsNamed(us, p);
      }
    }
  }

  lemma {:induction false} SpaceArgsKept(ts: seq<Token>, us: seq<Token>, p: nat, k: nat)
    requires Echo(ts, us, k) && p <= k
    ensures Kept(ts, us, k, ParseSpaceArgs(ts, p), ParseSpaceArgs(us, p))
    decreases k - p
  {
    hide ParseArg;
    assert p < k ==> us[p] == ts[p];
    if StartsValue(ts[p].kind) {
      ArgKept(ts, us, p, k);
      var a := ParseArg(ts, p);
      if a.Parsed? && a.pos <= k {
        SpaceArgsKept(ts, us, a.pos, k);
      }
    }
  }

  lemma {:induction false} ParenArgsKept(ts: seq<Token>, us: seq<Token>, p: nat, k: nat)
    requires Echo(ts, us, k) && p <= k
    ensures KeptList(ts, us, k, RParen, ParseParenArgs(ts, p), ParseParenArgs(us, p))
    decreases k - p, 1
  {
    hide ParseArg, SkipSeps, ParseParenArgs;
    var q := SkipSeps(ts, p);
    SepsKept(ts, us, p, k);
    ParenArgsFrom(ts, p);
    ParenArgsFrom(us, p);
    if q <= k {
      assert q < k ==> us[q] == ts[q];
      if !ts[q].kind.RParen? {
        ArgKept(ts, us, q, k);
        var x := ParseArg(ts, q);
        if x.Parsed? && x.pos <= k {
          MoreParenArgsKept(ts, us, x.pos, k, x.value);
        }
      }
    }
  }

  /** What follows `x` in the arguments of a step. */
  function MoreParenArgs(ts: seq<Token>, b: nat, x: Arg): Parsed<seq<Arg>>
    requires Cursor(ts, b)
  {
    var e := SkipSeps(ts, b);
    if ts[e].kind.Comma? then
      match ParseParenArgs(ts, e + 1)
      case Failed(d, k) => Failed(d, k)
      case Parsed(xs, end) => Parsed([x] + xs, end)
    else Parsed([x], e)
  }

  lemma {:induction false} ParenArgsFrom(ts: seq<Token>, p: nat)
    requires Cursor(ts, p)
    ensures var q := SkipSeps(ts, p);
            ParseParenArgs(ts, p) ==
            if ts[q].kind.RParen? then Parsed([], q)
            else
              match ParseArg(ts, q)
              case Failed(d, k) => Failed(d, k)
              case Parsed(x, b) => MoreParenArgs(ts, b, x)
  {
    hide ParseArg, SkipSeps;
  }

  lemma {:induction false} MoreParenArgsKept(ts: seq<Token>, us: seq<Token>, b: nat, k: nat, x: Arg)
    requires Echo(ts, us, k) && 0 < b <= k
    ensures KeptList(ts, us, k, RParen, MoreParenArgs(ts, b, x), MoreParenArgs(us, b, x))
    decreases k - b, 2
  {
    hide SkipSeps, ParseParenArgs;
    SepsKept(ts, us, b, k);
    var e := SkipSeps(ts, b);
    if e < k {
      assert us[e] == ts[e];
      if ts[e].kind.Comma? {
        ParenArgsKept(ts, us, e + 1, k);
      }
    }
  }

  lemma {:induction false} StepKept(ts: seq<Token>, us: seq<Token>, p: nat, k: nat)
    requires Echo(ts, us, k) && p <= k
    ensures Kept(ts, us, k, ParseStep(ts, p), ParseStep(us, p))
  {
    hide ParseParenArgs;
    if p < k {
      assert us[p] == ts[p] && (p + 1 < k ==> us[p + 1] == ts[p + 1]);
      if ts[p].kind.Atom? && ts[p + 1].kind.LParen? && p + 2 <= k {
        ParenArgsKept(ts, us, p + 2, k);
        var args := ParseParenArgs(ts, p + 2);
        assert args.Parsed? && args.pos < k ==> us[args.pos] == ts[args.pos];
      }
    }
  }

  lemma {:induction false} StepsKept(ts: seq<Token>, us: seq<Token>, p: nat, k: nat)
    requires Echo(ts, us, k) && p <= k
    ensures Kept(ts, us, k, ParseSteps(ts, p), ParseSteps(us, p))
    decreases k - p
  {
    hide ParseStep, SkipSeps;
    SepsKept(ts, us, p, k);
    var q := SkipSeps(ts, p);
    if q < k && ts[q].kind.Arrow? {
      assert us[q] == ts[q];
      SepsKept(ts, us, q + 1, k);
      var n := SkipSeps(ts, q + 1);
      if n <= k {
        StepKept(ts, us, n, k);
        var s := ParseStep(ts, n);
        if s.Parsed? && s.pos <= k {
          StepsKept(ts, us, s.pos, k);
        }
      }
    } else if q < k {
      assert us[q] == ts[q];
    }
  }

  lemma {:induction false} PredKept(ts: seq<Token>, us: seq<Token>, p: nat, k: nat, other: Lexemes)
    requires Echo(ts, us, k) && p <= k
    ensures Kept(ts, us, k, ParsePred(ts, p, other), ParsePred(us, p, other))
  {
    hide ParseValue;
    if p < k {
      assert us[p] == ts[p] && (p + 1 < k ==> us[p + 1] == ts[p + 1]);
      if ts[p].kind.Atom? && ts[p + 1].kind.Equals? && p + 2 <= k {
        ValueKept(ts, us, p + 2, k);
      }
    }
  }

  lemma {:induction false} PredsKept(ts: seq<Token>, us: seq<Token>, p: nat, k: nat, other: Lexemes)
    requires Echo(ts, us, k) && p <= k
    ensures KeptList(ts, us, k, RBracket, ParsePreds(ts, p, other), ParsePreds(us, p, other))
    decreases k - p, 1
  {
    hide ParsePred, SkipSeps, ParsePreds;
    var q := SkipSeps(ts, p);
    SepsKept(ts, us, p, k);
    PredsFrom(ts, p, other);
    PredsFrom(us, p, other);
    if q <= k {
      assert q < k ==> us[q] == ts[q];
      if !ts[q].kind.RBracket? {
        PredKept(ts, us, q, k, other);
        var x := ParsePred(ts, q, other);
        if x.Parsed? && x.pos <= k {
          MorePredsKept(ts, us, x.pos, k, x.value, other);
        }
      }
    }
  }

  /** What follows `x` in the predicates of a matcher. */
  function MorePreds(ts: seq<Token>, b: nat, x: Pred, other: Lexemes): Parsed<seq<Pred>>
    requires Cursor(ts, b)
  {
    var e := SkipSeps(ts, b);
    if ts[e].kind.Comma? then
      match ParsePreds(ts, e + 1, other)
      case Failed(d, k) => Failed(d, k)
      case Parsed(xs, end) => Parsed([x] + xs, end)
    else Parsed([x], e)
  }

  lemma {:induction false} PredsFrom(ts: seq<Token>, p: nat, other: Lexemes)
    requires Cursor(ts, p)
    ensures var q := SkipSeps(ts, p);
            ParsePreds(ts, p, other) ==
            if ts[q].kind.RBracket? then Parsed([], q)
            else
              match ParsePred(ts, q, other)
              case Failed(d, k) => Failed(d, k)
              case Parsed(x, b) => MorePreds(ts, b, x, other)
  {
    hide ParsePred, SkipSeps;
  }

  lemma {:induction false} MorePredsKept(ts: seq<Token>, us: seq<Token>, b: nat, k: nat, x: Pred, other: Lexemes)
    requires Echo(ts, us, k) && 0 < b <= k
    ensures KeptList(ts, us, k, RBracket, MorePreds(ts, b, x, other), MorePreds(us, b, x, other))
    decreases k - b, 2
  {
    hide SkipSeps, ParsePreds;
    SepsKept(ts, us, b, k);
    var e := SkipSeps(ts, b);
    if e < k {
      assert us[e] == ts[e];
      if ts[e].kind.Comma? {
        PredsKept(ts, us, e + 1, k, other);
      }
    }
  }

  lemma {:induction false} MatcherKept(ts: seq<Token>, us: seq<Token>, p: nat, k: nat, other: Lexemes)
    requires Echo(ts, us, k) && p <= k
    ensures Kept(ts, us, k, ParseMatcher(ts, p, other), ParseMatcher(us, p, other))
  {
    hide ParsePreds;
    if p < k {
      assert us[p] == ts[p] && MatchKindAt(us, p) == MatchKindAt(ts, p);
      var q := if MatchKindAt(ts, p).Prefix? then p else p + 1;
      assert q < k ==> us[q] == ts[q];
      assert q + 1 < k ==> us[q + 1] == ts[q + 1];
      if q < k && ts[q].kind.Atom? && ts[q + 1].kind.LBracket? && q + 2 <= k {
        PredsKept(ts, us, q + 2, k, other);
        var xs := ParsePreds(ts, q + 2, other);
        assert xs.Parsed? && xs.pos < k ==> us[xs.pos] == ts[xs.pos];
      }
    }
  }

  lemma {:induction false} RouteKept(ts: seq<Token>, us: seq<Token>, p: nat, k: nat, other: Lexemes)
    requires Echo(ts, us, k) && p < k && ts[p].kind.Atom? && us[p].kind.Atom?
    ensures Kept(ts, us, k, ParseRoute(ts, p, other), ParseRoute(us, p, other))
  {
    hide ParseMatcher, ParseSteps;
    assert us[p] == ts[p];
    MatcherKept(ts, us, p + 1, k, other);
    var m := ParseMatcher(ts, p + 1, other);
    if m.Parsed? && m.pos <= k {
      StepsKept(ts, us, m.pos, k);
    }
  }

  lemma {:induction false} RouteFailsLater(ts: seq<Token>, p: nat, other: Lexemes)
    requires Cursor(ts, p)
    ensures ts[p].kind.Atom? && ParseRoute(ts, p, other).Failed? ==> ParseRoute(ts, p, other).at > p
  {
    hide ParseMatcher, ParseSteps;
  }

  /** The statement with the keyword at `p` and these arguments before `q`. */
  function Behind(ts: seq<Token>, p: nat, args: seq<Arg>, q: nat, other: Lexemes): Parsed<Stmt>
    requires Cursor(ts, p) && ts[p].kind.Atom? && p < q < |ts|
  {
    var keyword := Name(ts[p].kind.text, ts[p].span);
    if !ts[q].kind.LBrace? then
      Parsed(Directive(keyword, args, SpanTo(keyword.span, ArgsEnd(keyword, args))), q)
    else
      match ParseStmts(ts, q + 1, true, other)
      case Failed(d, k) => Failed(d, k)
      case Parsed(body, e) => Parsed(Block(keyword, args, body, SpanTo(keyword.span, ts[e - 1].span.End())), e)
  }

  lemma {:induction false} KeywordFrom(ts: seq<Token>, p: nat, other: Lexemes)
    requires Cursor(ts, p) && ts[p].kind.Atom? && ts[p].kind.text != "route"
    ensures ParseStmt(ts, p, other) ==
            match ParseSpaceArgs(ts, p + 1)
            case Failed(d, k) => Failed(d, k)
            case Parsed(args, q) => Behind(ts, p, args, q, other)
  {
    hide ParseSpaceArgs, ParseStmts;
  }

  lemma {:induction false} StmtKept(ts: seq<Token>, us: seq<Token>, p: nat, k: nat, other: Lexemes)
    requires Echo(ts, us, k) && p <= k
    ensures Kept(ts, us, k, ParseStmt(ts, p, other), ParseStmt(us, p, other))
    decreases k - p, 0
  {
    hide ParseSpaceArgs, ParseStmts;
    assert p < k ==> us[p] == ts[p];
    if ts[p].kind.Atom? && ts[p].kind.text == "route" {
      RouteFailsLater(ts, p, other);
      hide ParseRoute;
      if p < k {
        RouteKept(ts, us, p, k, other);
      }
    } else if ts[p].kind.Atom? {
      KeywordFrom(ts, p, other);
      hide ParseStmt, Behind;
      var args := ParseSpaceArgs(ts, p + 1);
      KeywordFailsLater(ts, p, other);
      if p < k {
        KeywordFrom(us, p, other);
        SpaceArgsKept(ts, us, p + 1, k);
        if args.Parsed? && args.pos <= k {
          BehindKept(ts, us, p, args.value, args.pos, k, other);
        }
      }
    }
  }

  lemma {:induction false} KeywordFailsLater(ts: seq<Token>, p: nat, other: Lexemes)
    requires Cursor(ts, p) && ts[p].kind.Atom? && ts[p].kind.text != "route"
    ensures var args := ParseSpaceArgs(ts, p + 1);
            && (args.Failed? ==> args.at > p)
            && (args.Parsed? && Behind(ts, p, args.value, args.pos, other).Failed? ==>
                  Behind(ts, p, args.value, args.pos, other).at > args.pos)
            && (args.Parsed? && Behind(ts, p, args.value, args.pos, other).Parsed? ==>
                  Behind(ts, p, args.value, args.pos, other).pos >= args.pos)
  {
    hide ParseSpaceArgs, ParseStmts;
  }

  lemma {:induction false} BehindKept(ts: seq<Token>, us: seq<Token>, p: nat, args: seq<Arg>, q: nat, k: nat, other: Lexemes)
    requires Echo(ts, us, k) && p < q <= k && ts[p].kind.Atom? && us[p].kind.Atom?
    ensures Kept(ts, us, k, Behind(ts, p, args, q, other), Behind(us, p, args, q, other))
    decreases k - q, 2
  {
    hide ParseStmts;
    assert us[p] == ts[p] && (q < k ==> us[q] == ts[q]);
    if q < k && ts[q].kind.LBrace? {
      StmtsKept(ts, us, q + 1, k, true, other);
      var body := ParseStmts(ts, q + 1, true, other);
      assert body.Parsed? && body.pos <= k ==> us[body.pos - 1] == ts[body.pos - 1];
    }
  }

  /** Statements; at the top they stop at the end marker without consuming it. */
  lemma {:induction false} StmtsKept(ts: seq<Token>, us: seq<Token>, p: nat, k: nat, inBlock: bool, other: Lexemes)
    requires Echo(ts, us, k) && p <= k && (inBlock || us[k] == ts[k])
    ensures Kept(ts, us, k, ParseStmts(ts, p, inBlock, other), ParseStmts(us, p, inBlock, other))
    decreases k - p, 1
  {
    hide ParseStmt, SkipSeps, ParseStmts;
    SepsKept(ts, us, p, k);
    StmtsFrom(ts, p, inBlock, other);
    StmtsFrom(us, p, inBlock, other);
    var q := SkipSeps(ts, p);
    if q <= k {
      assert q < k ==> us[q] == ts[q];
      if !ts[q].kind.Eof? && !ts[q].kind.RBrace? {
        StmtKept(ts, us, q, k, other);
        var s := ParseStmt(ts, q, other);
        if s.Parsed? && s.pos <= k {
          StmtsKept(ts, us, s.pos, k, inBlock, other);
        }
      }
    }
  }

  /** The statements that follow `s`. */
  function MoreStmts(ts: seq<Token>, b: nat, s: Stmt, inBlock: bool, other: Lexemes): Parsed<seq<Stmt>>
    requires Cursor(ts, b)
  {
    match ParseStmts(ts, b, inBlock, other)
    case Failed(d, k) => Failed(d, k)
    case Parsed(rest, end) => Parsed([s] + rest, end)
  }

  lemma {:induction false} StmtsFrom(ts: seq<Token>, p: nat, inBlock: bool, other: Lexemes)
    requires Cursor(ts, p)
    ensures var q := SkipSeps(ts, p);
            ParseStmts(ts, p, inBlock, other) ==
            if ts[q].kind.Eof? then
              if inBlock then Fail(ts, q, CfgSyntax, "unexpected end of input: missing closing `}`") else Parsed([], q)
            else if ts[q].kind.RBrace? then
              if inBlock then Parsed([], q + 1) else Fail(ts, q, CfgSyntax, "unexpected `}` with no matching block")
            else
              match ParseStmt(ts, q, other)
              case Failed(d, k) => Failed(d, k)
              case Parsed(s, b) => MoreStmts(ts, b, s, inBlock, other)
  {
    hide ParseStmt, SkipSeps;
  }

  // ---------- what was read can be completed ----------

  function Tok(kind: TokenKind): Token {
    Token(kind, Span(0, 0, 1, 1))
  }

  ghost predicate Tail(rest: seq<Token>) {
    EofTerminated(rest) && Calm(rest[0].kind)
  }

  /** The tokens before `k`, then others. */
  function Made(ts: seq<Token>, k: nat, fill: seq<Token>, rest: seq<Token>): seq<Token>
    requires k <= |ts|
  {
    ts[..k] + fill + rest
  }

  ghost predicate ReadsTo<T>(r: Parsed<T>, e: nat) {
    r.Parsed? && r.pos == e
  }

  lemma {:induction false} MadeEchoes(ts: seq<Token>, k: nat, fill: seq<Token>, rest: seq<Token>, j: nat)
    requires EofTerminated(ts) && k < |ts| && Tail(rest) && j <= k
    requires j < k || (fill == [] || Calm(fill[0].kind))
    ensures Echo(ts, Made(ts, k, fill, rest), j)
    ensures j < k ==> Made(ts, k, fill, rest)[j] == ts[j]
  {}

  lemma {:induction false} MadeEnds(ts: seq<Token>, k: nat, fill: seq<Token>, rest: seq<Token>)
    requires EofTerminated(ts) && k < |ts| && Tail(rest)
    ensures var us := Made(ts, k, fill, rest);
            EofTerminated(us) && k + |fill| < |us| && us[k + |fill|] == rest[0] && (fill != [] ==> us[k] == fill[0])
  {}

  lemma {:induction false} Regroup(ts: seq<Token>, k: nat, fill: seq<Token>, t: Token, rest: seq<Token>)
    requires k <= |ts|
    ensures Made(ts, k, fill + [t], rest) == Made(ts, k, fill, [t] + rest)
  {
    assert fill + [t] + rest == fill + ([t] + rest);
  }

  lemma {:induction false} SepsMade(ts: seq<Token>, us: seq<Token>, p: nat, q: nat)
    requires Cursor(ts, p) && q == SkipSeps(ts, p) && EofTerminated(us) && q < |us| && !us[q].kind.Sep?
    requires forall i :: 0 <= i < q ==> us[i] == ts[i]
    ensures SkipSeps(us, p) == q
    decreases q - p
  {
    if p < q {
      assert us[p] == ts[p];
      SepsMade(ts, us, p + 1, q);
    }
  }

  lemma {:induction false} ValueCompletes(ts: seq<Token>, p: nat, rest: seq<Token>) returns (fill: seq<Token>)
    requires Cursor(ts, p) && ParseValue(ts, p).Failed? && Tail(rest)
    ensures var k := ParseValue(ts, p).at;
            var us := Made(ts, k, fill, rest);
            ReadsTo(ParseValue(us, p), k + |fill|) && StartsValue(us[p].kind) && (p == k ==> us[p].kind == Atom("x"))
    decreases |ts| - p, 0
  {
    hide Made, ParseItems;
    var k := ParseValue(ts, p).at;
    if ts[p].kind.LBracket? {
      ArrayFails(ts, p);
      hide ParseValue;
      var items := ParseItems(ts, p + 1);
      if items.Failed? {
        var inner := ItemsComplete(ts, p + 1, [Tok(RBracket)] + rest);
        MadeEnds(ts, k, inner, [Tok(RBracket)] + rest);
        MadeEchoes(ts, k, inner, [Tok(RBracket)] + rest, p);
        Regroup(ts, k, inner, Tok(RBracket), rest);
        fill := inner + [Tok(RBracket)];
        ArrayCloses(Made(ts, k, fill, rest), p, k + |inner|);
      } else {
        fill := [Tok(RBracket)];
        MadeEnds(ts, k, fill, rest);
        MadeEchoes(ts, k, fill, rest, p);
        MadeEchoes(ts, k, fill, rest, k);
        ItemsKept(ts, Made(ts, k, fill, rest), p + 1, k);
        ArrayCloses(Made(ts, k, fill, rest), p, k);
      }
    } else {
      fill := [Tok(Atom("x"))];
      MadeEnds(ts, k, fill, rest);
    }
  }

  lemma {:induction false} ArrayFails(ts: seq<Token>, p: nat)
    requires Cursor(ts, p) && ParseValue(ts, p).Failed? && ts[p].kind.LBracket?
    ensures var k, items := ParseValue(ts, p).at, ParseItems(ts, p + 1);
            p < k && if items.Failed? then items.at == k else items.pos == k && !ts[k].kind.RBracket?
  {
    hide ParseItems;
  }

  lemma {:induction false} ArrayCloses(us: seq<Token>, p: nat, e: nat)
    requires Cursor(us, p) && us[p].kind.LBracket? && p + 1 < |us| && ReadsTo(ParseItems(us, p + 1), e) && us[e].kind.RBracket?
    ensures ReadsTo(ParseValue(us, p), e + 1)
  {
    hide ParseItems;
  }

  lemma {:induction false} ItemsComplete(ts: seq<Token>, p: nat, rest: seq<Token>) returns (fill: seq<Token>)
    requires Cursor(ts, p) && ParseItems(ts, p).Failed? && Tail(rest) && rest[0].kind.RBracket?
    ensures var k := ParseItems(ts, p).at; ReadsTo(ParseItems(Made(ts, k, fill, rest), p), k + |fill|)
    decreases |ts| - p, 1
  {
    hide ParseValue, ParseItems, MoreItems;
    var q := SkipSeps(ts, p);
    var k := ParseItems(ts, p).at;
    ItemsFrom(ts, p);
    var x := ParseValue(ts, q);
    if x.Failed? {
      fill := ValueCompletes(ts, q, rest);
      var us := Made(ts, k, fill, rest);
      SepsMade(ts, us, p, q);
      ItemsFrom(us, p);
      ItemsStop(us, k + |fill|, ParseValue(us, q).value);
    } else {
      var e := ItemsFail(ts, x.pos, x.value);
      fill := ItemsComplete(ts, e + 1, rest);
      var us := Made(ts, k, fill, rest);
      MadeEchoes(ts, k, fill, rest, e);
      SepsMade(ts, us, p, q);
      ItemsFrom(us, p);
      ValueKept(ts, us, q, e);
      SepsKept(ts, us, x.pos, e);
      ItemsGoOn(us, x.pos, e, x.value, k + |fill|);
    }
  }

  lemma {:induction false} ItemsStop(us: seq<Token>, b: nat, x: SpannedValue)
    requires Cursor(us, b) && us[b].kind.RBracket?
    ensures ReadsTo(MoreItems(us, b, x), b)
  {}

  lemma {:induction false} ItemsGoOn(us: seq<Token>, b: nat, e: nat, x: SpannedValue, end: nat)
    requires Cursor(us, b) && SkipSeps(us, b) == e && us[e].kind.Comma? && e + 1 < |us| && ReadsTo(ParseItems(us, e + 1), end)
    ensures ReadsTo(MoreItems(us, b, x), end)
  {
    hide ParseItems, SkipSeps;
  }

  lemma {:induction false} ItemsFail(ts: seq<Token>, b: nat, x: SpannedValue) returns (e: nat)
    requires Cursor(ts, b) && MoreItems(ts, b, x).Failed?
    ensures e == SkipSeps(ts, b) && ts[e].kind.Comma? && e + 1 < |ts| && ParseItems(ts, e + 1).Failed?
    ensures ParseItems(ts, e + 1).at == MoreItems(ts, b, x).at > e
  {
    hide ParseItems, SkipSeps;
    e := SkipSeps(ts, b);
  }

  lemma {:induction false} ArgFailsLater(ts: seq<Token>, p: nat)
    requires Cursor(ts, p) && ParseArg(ts, p).Failed?
    ensures var k := ParseArg(ts, p).at;
            if StartsNamed(ts, p) then ParseValue(ts, p + 2).Failed? && ParseValue(ts, p + 2).at == k >= p + 2
            else ParseValue(ts, p).Failed? && ParseValue(ts, p).at == k && !ts[p].kind.Atom?
    ensures StartsValue(ts[p].kind) ==> ParseArg(ts, p).at > p
  {
    if ts[p].kind.LBracket? {
      ArrayFails(ts, p);
    }
    hide ParseItems;
  }

  lemma {:induction false} ArgCompletes(ts: seq<Token>, p: nat, rest: seq<Token>) returns (fill: seq<Token>)
    requires Cursor(ts, p) && ParseArg(ts, p).Failed? && Tail(rest)
    ensures var k := ParseArg(ts, p).at;
            var us := Made(ts, k, fill, rest);
            ReadsTo(ParseArg(us, p), k + |fill|) && StartsValue(us[p].kind)
  {
    hide Made, ParseValue;
    ArgFailsLater(ts, p);
    var k := ParseArg(ts, p).at;
    if StartsNamed(ts, p) {
      fill := ValueCompletes(ts, p + 2, rest);
      MadeEchoes(ts, k, fill, rest, p);
      MadeEchoes(ts, k, fill, rest, p + 1);
      MadeEnds(ts, k, fill, rest);
    } else {
      fill := ValueCompletes(ts, p, rest);
      MadeEnds(ts, k, fill, rest);
      if p < k {
        MadeEchoes(ts, k, fill, rest, p);
      } else {
        AtomIsOne(Made(ts, k, fill, rest), p, k + |fill|);
      }
    }
  }

  lemma {:induction false} AtomIsOne(us: seq<Token>, p: nat, e: nat)
    requires Cursor(us, p) && us[p].kind.Atom? && ReadsTo(ParseValue(us, p), e)
    ensures e == p + 1
  {}

  lemma {:induction false} SpaceArgsFailLater(ts: seq<Token>, p: nat)
    requires Cursor(ts, p) && ParseSpaceArgs(ts, p).Failed?
    ensures var k, a := ParseSpaceArgs(ts, p).at, ParseArg(ts, p);
            && p < k && StartsValue(ts[p].kind)
            && if a.Failed? then a.at == k
               else ParseSpaceArgs(ts, a.pos).Failed? && ParseSpaceArgs(ts, a.pos).at == k > a.pos
    decreases |ts| - p
  {
    hide ParseArg;
    var a := ParseArg(ts, p);
    if a.Failed? {
      ArgFailsLater(ts, p);
    } else {
      SpaceArgsFailLater(ts, a.pos);
    }
  }

  lemma {:induction false} SpaceArgsComplete(ts: seq<Token>, p: nat, rest: seq<Token>) returns (fill: seq<Token>)
    requires Cursor(ts, p) && ParseSpaceArgs(ts, p).Failed? && Tail(rest)
    ensures var k := ParseSpaceArgs(ts, p).at; ReadsTo(ParseSpaceArgs(Made(ts, k, fill, rest), p), k + |fill|)
    decreases |ts| - p
  {
    hide Made, ParseArg;
    SpaceArgsFailLater(ts, p);
    var k, a := ParseSpaceArgs(ts, p).at, ParseArg(ts, p);
    if a.Failed? {
      fill := ArgCompletes(ts, p, rest);
      MadeEnds(ts, k, fill, rest);
    } else {
      fill := SpaceArgsComplete(ts, a.pos, rest);
      MadeEchoes(ts, k, fill, rest, p);
      MadeEchoes(ts, k, fill, rest, a.pos);
      ArgKept(ts, Made(ts, k, fill, rest), p, a.pos);
    }
  }

  lemma {:induction false} ParenArgsComplete(ts: seq<Token>, p: nat, rest: seq<Token>) returns (fill: seq<Token>)
    requires Cursor(ts, p) && ParseParenArgs(ts, p).Failed? && Tail(rest) && rest[0].kind.RParen?
    ensures var k := ParseParenArgs(ts, p).at; ReadsTo(ParseParenArgs(Made(ts, k, fill, rest), p), k + |fill|)
    decreases |ts| - p, 1
  {
    hide ParseArg, ParseParenArgs, MoreParenArgs;
    var q := SkipSeps(ts, p);
    var k := ParseParenArgs(ts, p).at;
    ParenArgsFrom(ts, p);
    var x := ParseArg(ts, q);
    if x.Failed? {
      fill := ArgCompletes(ts, q, rest);
      var us := Made(ts, k, fill, rest);
      SepsMade(ts, us, p, q);
      ParenArgsFrom(us, p);
      ParenArgsStop(us, k + |fill|, ParseArg(us, q).value);
    } else {
      var e := ParenArgsFail(ts, x.pos, x.value);
      fill := ParenArgsComplete(ts, e + 1, rest);
      var us := Made(ts, k, fill, rest);
      MadeEchoes(ts, k, fill, rest, e);
      SepsMade(ts, us, p, q);
      ParenArgsFrom(us, p);
      ArgKept(ts, us, q, e);
      SepsKept(ts, us, x.pos, e);
      ParenArgsGoOn(us, x.pos, e, x.value, k + |fill|);
    }
  }

  lemma {:induction false} ParenArgsStop(us: seq<Token>, b: nat, x: Arg)
    requires Cursor(us, b) && us[b].kind.RParen?
    ensures ReadsTo(MoreParenArgs(us, b, x), b)
  {}

  lemma {:induction false} ParenArgsGoOn(us: seq<Token>, b: nat, e: nat, x: Arg, end: nat)
    requires Cursor(us, b) && SkipSeps(us, b) == e && us[e].kind.Comma? && e + 1 < |us| && ReadsTo(ParseParenArgs(us, e + 1), end)
    ensures ReadsTo(MoreParenArgs(us, b, x), end)
  {
    hide ParseParenArgs, SkipSeps;
  }

  lemma {:induction false} ParenArgsFail(ts: seq<Token>, b: nat, x: Arg) returns (e: nat)
    requires Cursor(ts, b) && MoreParenArgs(ts, b, x).Failed?
    ensures e == SkipSeps(ts, b) && ts[e].kind.Comma? && e + 1 < |ts| && ParseParenArgs(ts, e + 1).Failed?
    ensures ParseParenArgs(ts, e + 1).at == MoreParenArgs(ts, b, x).at > e
  {
    hide ParseParenArgs, SkipSeps;
    e := SkipSeps(ts, b);
  }

  lemma {:induction false} StepCompletes(ts: seq<Token>, p: nat, rest: seq<Token>) returns (fill: seq<Token>)
    requires Cursor(ts, p) && ParseStep(ts, p).Failed? && Tail(rest)
    ensures var k := ParseStep(ts, p).at;
            var us := Made(ts, k, fill, rest);
            ReadsTo(ParseStep(us, p), k + |fill|) && !us[p].kind.Sep?
  {
    hide Made, ParseParenArgs;
    var k := ParseStep(ts, p).at;
    if !ts[p].kind.Atom? {
      fill := [Tok(Atom("x"))];
      MadeEnds(ts, k, fill, rest);
    } else {
      var args := ParseParenArgs(ts, p + 2);
      if args.Failed? {
        var inner := ParenArgsComplete(ts, p + 2, [Tok(RParen)] + rest);
        MadeEnds(ts, k, inner, [Tok(RParen)] + rest);
        MadeEchoes(ts, k, inner, [Tok(RParen)] + rest, p);
        MadeEchoes(ts, k, inner, [Tok(RParen)] + rest, p + 1);
        Regroup(ts, k, inner, Tok(RParen), rest);
        fill := inner + [Tok(RParen)];
      } else {
        fill := [Tok(RParen)];
        MadeEnds(ts, k, fill, rest);
        MadeEchoes(ts, k, fill, rest, p);
        MadeEchoes(ts, k, fill, rest, p + 1);
        MadeEchoes(ts, k, fill, rest, k);
        ParenArgsKept(ts, Made(ts, k, fill, rest), p + 2, k);
      }
    }
  }

  lemma {:induction false} StepsComplete(ts: seq<Token>, p: nat, rest: seq<Token>) returns (fill: seq<Token>)
    requires Cursor(ts, p) && ParseSteps(ts, p).Failed? && Tail(rest)
    ensures var k := ParseSteps(ts, p).at; k > p && ReadsTo(ParseSteps(Made(ts, k, fill, rest), p), k + |fill|)
    decreases |ts| - p
  {
    hide Made, ParseStep, ParseSteps, SkipSeps;
    var q, n := StepsFail(ts, p);
    var k, s := ParseSteps(ts, p).at, ParseStep(ts, n);
    if s.Failed? {
      fill := StepCompletes(ts, n, rest);
    } else {
      fill := StepsComplete(ts, s.pos, rest);
    }
    var us := Made(ts, k, fill, rest);
    MadeEnds(ts, k, fill, rest);
    MadeAgrees(ts, k, fill, rest);
    SepsMade(ts, us, p, q);
    SepsMade(ts, us, q + 1, n);
    if s.Failed? {
      NoMoreSteps(us, k + |fill|);
      StepsThen(us, p, q, n, k + |fill|, k + |fill|);
    } else {
      MadeEchoes(ts, k, fill, rest, s.pos);
      StepKept(ts, us, n, s.pos);
      StepsThen(us, p, q, n, s.pos, k + |fill|);
    }
  }

  lemma {:induction false} StepsFail(ts: seq<Token>, p: nat) returns (q: nat, n: nat)
    requires Cursor(ts, p) && ParseSteps(ts, p).Failed?
    ensures q == SkipSeps(ts, p) && ts[q].kind.Arrow? && q + 1 < |ts| && n == SkipSeps(ts, q + 1)
    ensures var k, s := ParseSteps(ts, p).at, ParseStep(ts, n);
            && p <= q < n <= k
            && if s.Failed? then s.at == k
               else s.pos < k && ParseSteps(ts, s.pos).Failed? && ParseSteps(ts, s.pos).at == k
    decreases |ts| - p
  {
    hide ParseStep, SkipSeps;
    q := SkipSeps(ts, p);
    n := SkipSeps(ts, q + 1);
    var s := ParseStep(ts, n);
    if s.Parsed? {
      var q', n' := StepsFail(ts, s.pos);
    }
  }

  lemma {:induction false} StepsThen(us: seq<Token>, p: nat, q: nat, n: nat, b: nat, e: nat)
    requires Cursor(us, p) && SkipSeps(us, p) == q && us[q].kind.Arrow? && q + 1 < |us| && SkipSeps(us, q + 1) == n
    requires ReadsTo(ParseStep(us, n), b) && b < |us| && ReadsTo(ParseSteps(us, b), e)
    ensures ReadsTo(ParseSteps(us, p), e)
  {
    hide ParseStep, SkipSeps;
  }

  lemma {:induction false} NoMoreSteps(us: seq<Token>, b: nat)
    requires Cursor(us, b) && Calm(us[b].kind)
    ensures ParseSteps(us, b) == Parsed([], b)
  {}

  lemma {:induction false} MadeAgrees(ts: seq<Token>, k: nat, fill: seq<Token>, rest: seq<Token>)
    requires k <= |ts|
    ensures |Made(ts, k, fill, rest)| >= k && forall i :: 0 <= i < k ==> Made(ts, k, fill, rest)[i] == ts[i]
  {}

  lemma {:induction false} PredCompletes(ts: seq<Token>, p: nat, rest: seq<Token>, other: Lexemes) returns (fill: seq<Token>)
    requires Cursor(ts, p) && ParsePred(ts, p, other).Failed? && Tail(rest)
    ensures var k := ParsePred(ts, p, other).at;
            var us := Made(ts, k, fill, rest);
            ReadsTo(ParsePred(us, p, other), k + |fill|) && StartsValue(us[p].kind) && us[p].kind.Atom?
  {
    hide Made, ParseValue;
    var k := ParsePred(ts, p, other).at;
    if !ts[p].kind.Atom? {
      fill := [Tok(Atom("x"))];
      MadeEnds(ts, k, fill, rest);
    } else {
      fill := ValueCompletes(ts, p + 2, rest);
      MadeEchoes(ts, k, fill, rest, p);
      MadeEchoes(ts, k, fill, rest, p + 1);
    }
  }

  lemma {:induction false} PredsComplete(ts: seq<Token>, p: nat, rest: seq<Token>, other: Lexemes) returns (fill: seq<Token>)
    requires Cursor(ts, p) && ParsePreds(ts, p, other).Failed? && Tail(rest) && rest[0].kind.RBracket?
    ensures var k := ParsePreds(ts, p, other).at; ReadsTo(ParsePreds(Made(ts, k, fill, rest), p, other), k + |fill|)
    decreases |ts| - p, 1
  {
    hide ParsePred, ParsePreds, MorePreds;
    var q := SkipSeps(ts, p);
    var k := ParsePreds(ts, p, other).at;
    PredsFrom(ts, p, other);
    var x := ParsePred(ts, q, other);
    if x.Failed? {
      fill := PredCompletes(ts, q, rest, other);
      var us := Made(ts, k, fill, rest);
      SepsMade(ts, us, p, q);
      PredsFrom(us, p, other);
      PredsStop(us, k + |fill|, ParsePred(us, q, other).value, other);
    } else {
      var e := PredsFail(ts, x.pos, x.value, other);
      fill := PredsComplete(ts, e + 1, rest, other);
      var us := Made(ts, k, fill, rest);
      MadeEchoes(ts, k, fill, rest, e);
      SepsMade(ts, us, p, q);
      PredsFrom(us, p, other);
      PredKept(ts, us, q, e, other);
      SepsKept(ts, us, x.pos, e);
      PredsGoOn(us, x.pos, e, x.value, k + |fill|, other);
    }
  }

  lemma {:induction false} PredsStop(us: seq<Token>, b: nat, x: Pred, other: Lexemes)
    requires Cursor(us, b) && us[b].kind.RBracket?
    ensures ReadsTo(MorePreds(us, b, x, other), b)
  {}

  lemma {:induction false} PredsGoOn(us: seq<Token>, b: nat, e: nat, x: Pred, end: nat, other: Lexemes)
    requires Cursor(us, b) && SkipSeps(us, b) == e && us[e].kind.Comma? && e + 1 < |us| && ReadsTo(ParsePreds(us, e + 1, other), end)
    ensures ReadsTo(MorePreds(us, b, x, other), end)
  {
    hide ParsePreds, SkipSeps;
  }

  lemma {:induction false} PredsFail(ts: seq<Token>, b: nat, x: Pred, other: Lexemes) returns (e: nat)
    requires Cursor(ts, b) && MorePreds(ts, b, x, other).Failed?
    ensures e == SkipSeps(ts, b) && ts[e].kind.Comma? && e + 1 < |ts| && ParsePreds(ts, e + 1, other).Failed?
    ensures ParsePreds(ts, e + 1, other).at == MorePreds(ts, b, x, other).at > e
  {
    hide ParsePreds, SkipSeps;
    e := SkipSeps(ts, b);
  }

  lemma {:induction false} MatcherCompletes(ts: seq<Token>, p: nat, rest: seq<Token>, other: Lexemes) returns (fill: seq<Token>)
    requires Cursor(ts, p) && ParseMatcher(ts, p, other).Failed? && Tail(rest)
    ensures var k := ParseMatcher(ts, p, other).at; ReadsTo(ParseMatcher(Made(ts, k, fill, rest), p, other), k + |fill|)
  {
    hide Made, ParsePreds, ParseMatcher;
    var k := ParseMatcher(ts, p, other).at;
    var q := MatcherFails(ts, p, other);
    if !ts[q].kind.Atom? {
      fill := [Tok(Atom("x"))];
      MadeEnds(ts, k, fill, rest);
      MadeAgrees(ts, k, fill, rest);
      MatcherStops(Made(ts, k, fill, rest), p, q, other);
    } else {
      var xs := ParsePreds(ts, q + 2, other);
      if xs.Failed? {
        var inner := PredsComplete(ts, q + 2, [Tok(RBracket)] + rest, other);
        MadeEnds(ts, k, inner, [Tok(RBracket)] + rest);
        MadeAgrees(ts, k, inner, [Tok(RBracket)] + rest);
        Regroup(ts, k, inner, Tok(RBracket), rest);
        fill := inner + [Tok(RBracket)];
        MatcherCloses(Made(ts, k, fill, rest), p, q, k + |inner|, other);
      } else {
        fill := [Tok(RBracket)];
        MadeEnds(ts, k, fill, rest);
        MadeAgrees(ts, k, fill, rest);
        MadeEchoes(ts, k, fill, rest, k);
        PredsKept(ts, Made(ts, k, fill, rest), q + 2, k, other);
        MatcherCloses(Made(ts, k, fill, rest), p, q, k, other);
      }
    }
  }

  lemma {:induction false} MatcherFails(ts: seq<Token>, p: nat, other: Lexemes) returns (q: nat)
    requires Cursor(ts, p) && ParseMatcher(ts, p, other).Failed?
    ensures q == (if MatchKindAt(ts, p).Prefix? then p else p + 1) && q < |ts|
    ensures var k := ParseMatcher(ts, p, other).at;
            if !ts[q].kind.Atom? then k == q
            else && q + 2 < |ts| && ts[q + 1].kind.LBracket? && q + 2 <= k
                 && var xs := ParsePreds(ts, q + 2, other);
                    if xs.Failed? then xs.at == k else xs.pos == k && !ts[k].kind.RBracket?
  {
    hide ParsePreds;
    q := if MatchKindAt(ts, p).Prefix? then p else p + 1;
  }

  lemma {:induction false} MatcherStops(us: seq<Token>, p: nat, q: nat, other: Lexemes)
    requires Cursor(us, p) && q == (if MatchKindAt(us, p).Prefix? then p else p + 1) && q + 1 < |us|
    requires us[q].kind.Atom? && !us[q + 1].kind.LBracket?
    ensures ReadsTo(ParseMatcher(us, p, other), q + 1)
  {
    hide ParsePreds;
  }

  lemma {:induction false} MatcherCloses(us: seq<Token>, p: nat, q: nat, e: nat, other: Lexemes)
    requires Cursor(us, p) && q == (if MatchKindAt(us, p).Prefix? then p else p + 1) && q + 2 < |us|
    requires us[q].kind.Atom? && us[q + 1].kind.LBracket? && ReadsTo(ParsePreds(us, q + 2, other), e) && us[e].kind.RBracket?
    ensures ReadsTo(ParseMatcher(us, p, other), e + 1)
  {
    hide ParsePreds;
  }

  lemma {:induction false} RouteCompletes(ts: seq<Token>, p: nat, rest: seq<Token>, other: Lexemes) returns (fill: seq<Token>)
    requires Cursor(ts, p) && ts[p].kind.Atom? && ParseRoute(ts, p, other).Failed? && Tail(rest)
    ensures var k := ParseRoute(ts, p, other).at;
            var us := Made(ts, k, fill, rest);
            k > p && us[p] == ts[p] && ReadsTo(ParseRoute(us, p, other), k + |fill|)
  {
    hide Made, ParseMatcher, ParseSteps;
    var k, m := ParseRoute(ts, p, other).at, ParseMatcher(ts, p + 1, other);
    if m.Failed? {
      fill := MatcherCompletes(ts, p + 1, rest, other);
      MadeEnds(ts, k, fill, rest);
      MadeAgrees(ts, k, fill, rest);
      NoMoreSteps(Made(ts, k, fill, rest), k + |fill|);
    } else {
      fill := StepsComplete(ts, m.pos, rest);
      MadeAgrees(ts, k, fill, rest);
      MadeEchoes(ts, k, fill, rest, m.pos);
      MatcherKept(ts, Made(ts, k, fill, rest), p + 1, m.pos, other);
    }
  }

  // ---------- statements ----------

  lemma {:induction false} StmtCompletes(ts: seq<Token>, p: nat, rest: seq<Token>, other: Lexemes) returns (fill: seq<Token>)
    requires Cursor(ts, p) && ts[p].kind.Atom? && ParseStmt(ts, p, other).Failed? && Tail(rest)
    ensures var k := ParseStmt(ts, p, other).at;
            var us := Made(ts, k, fill, rest);
            k > p && us[p] == ts[p] && ReadsTo(ParseStmt(us, p, other), k + |fill|)
    decreases |ts| - p, 0
  {
    hide Made, ParseSpaceArgs, ParseStmts, ParseRoute;
    var k := ParseStmt(ts, p, other).at;
    if ts[p].kind.text == "route" {
      fill := RouteCompletes(ts, p, rest, other);
    } else {
      fill := KeywordCompletes(ts, p, rest, other);
    }
  }

  lemma {:induction false} KeywordCompletes(ts: seq<Token>, p: nat, rest: seq<Token>, other: Lexemes) returns (fill: seq<Token>)
    requires Cursor(ts, p) && ts[p].kind.Atom? && ts[p].kind.text != "route" && ParseStmt(ts, p, other).Failed? && Tail(rest)
    ensures var k := ParseStmt(ts, p, other).at;
            var us := Made(ts, k, fill, rest);
            k > p && us[p] == ts[p] && ReadsTo(ParseStmt(us, p, other), k + |fill|)
    decreases |ts| - p, 0, 0
  {
    hide Made, ParseSpaceArgs, ParseStmts, ParseStmt;
    KeywordFrom(ts, p, other);
    var k, args := ParseStmt(ts, p, other).at, ParseSpaceArgs(ts, p + 1);
    if args.Failed? {
      fill := SpaceArgsComplete(ts, p + 1, rest);
      MadeAgrees(ts, k, fill, rest);
      MadeEnds(ts, k, fill, rest);
      KeywordFrom(Made(ts, k, fill, rest), p, other);
    } else {
      var inner := StmtsComplete(ts, args.pos + 1, true, [Tok(RBrace)] + rest, other);
      MadeEnds(ts, k, inner, [Tok(RBrace)] + rest);
      MadeAgrees(ts, k, inner, [Tok(RBrace)] + rest);
      Regroup(ts, k, inner, Tok(RBrace), rest);
      fill := inner + [Tok(RBrace)];
      var us := Made(ts, k, fill, rest);
      MadeEchoes(ts, k, inner, [Tok(RBrace)] + rest, args.pos);
      SpaceArgsKept(ts, us, p + 1, args.pos);
      KeywordFrom(us, p, other);
    }
  }

  function Closing(inBlock: bool): nat {
    if inBlock then 1 else 0
  }

  /** `rest` ends the statements. */
  ghost predicate Ends(rest: seq<Token>, inBlock: bool) {
    EofTerminated(rest) && if inBlock then rest[0].kind.RBrace? else rest[0].kind.Eof?
  }

  lemma {:induction false} NoMoreStmts(us: seq<Token>, p: nat, q: nat, inBlock: bool, other: Lexemes)
    requires Cursor(us, p) && SkipSeps(us, p) == q && (if inBlock then us[q].kind.RBrace? && q + 1 < |us| else us[q].kind.Eof?)
    ensures ParseStmts(us, p, inBlock, other) == Parsed([], q + Closing(inBlock))
  {}

  lemma {:induction false} StmtsComplete(ts: seq<Token>, p: nat, inBlock: bool, rest: seq<Token>, other: Lexemes) returns (fill: seq<Token>)
    requires Cursor(ts, p) && ParseStmts(ts, p, inBlock, other).Failed? && Ends(rest, inBlock)
    ensures var k := ParseStmts(ts, p, inBlock, other).at;
            && (k == p ==> fill == [])
            && ReadsTo(ParseStmts(Made(ts, k, fill, rest), p, inBlock, other), k + |fill| + Closing(inBlock))
    decreases |ts| - p, 1
  {
    hide Made, ParseStmt, SkipSeps;
    var k, q := ParseStmts(ts, p, inBlock, other).at, SkipSeps(ts, p);
    if ts[q].kind.Eof? || ts[q].kind.RBrace? || !ts[q].kind.Atom? {
      StmtsStopAt(ts, p, q, inBlock, other);
      hide ParseStmts;
      fill := [];
      MadeEnds(ts, k, fill, rest);
      MadeAgrees(ts, k, fill, rest);
      SepsMade(ts, Made(ts, k, fill, rest), p, q);
      NoMoreStmts(Made(ts, k, fill, rest), p, q, inBlock, other);
    } else {
      var s := ParseStmt(ts, q, other);
      StmtsFail(ts, p, q, inBlock, other);
      hide ParseStmts;
      if s.Failed? {
        fill := StmtCompletes(ts, q, rest, other);
        MadeEnds(ts, k, fill, rest);
        StmtThenEnd(ts, p, q, inBlock, k, fill, rest, other);
      } else {
        fill := StmtsComplete(ts, s.pos, inBlock, rest, other);
        MadeEnds(ts, k, fill, rest);
        StmtThenMore(ts, p, q, inBlock, k, fill, rest, s, other);
      }
    }
  }

  lemma {:induction false} StmtsStopAt(ts: seq<Token>, p: nat, q: nat, inBlock: bool, other: Lexemes)
    requires Cursor(ts, p) && ParseStmts(ts, p, inBlock, other).Failed? && q == SkipSeps(ts, p)
    requires ts[q].kind.Eof? || ts[q].kind.RBrace? || !ts[q].kind.Atom?
    ensures ParseStmts(ts, p, inBlock, other).at == q
  {
    hide SkipSeps;
  }

  lemma {:induction false} StmtsFail(ts: seq<Token>, p: nat, q: nat, inBlock: bool, other: Lexemes)
    requires Cursor(ts, p) && ParseStmts(ts, p, inBlock, other).Failed? && q == SkipSeps(ts, p) && ts[q].kind.Atom?
    ensures var k, s := ParseStmts(ts, p, inBlock, other).at, ParseStmt(ts, q, other);
            if s.Failed? then s.at == k
            else ParseStmts(ts, s.pos, inBlock, other).Failed? && ParseStmts(ts, s.pos, inBlock, other).at == k
  {
    hide SkipSeps, ParseStmt;
  }

  lemma {:induction false} StmtsThen(us: seq<Token>, p: nat, q: nat, b: nat, inBlock: bool, e: nat, other: Lexemes)
    requires Cursor(us, p) && SkipSeps(us, p) == q && us[q].kind.Atom? && ReadsTo(ParseStmt(us, q, other), b)
    requires b < |us| && ReadsTo(ParseStmts(us, b, inBlock, other), e)
    ensures ReadsTo(ParseStmts(us, p, inBlock, other), e)
  {
    hide SkipSeps, ParseStmt;
  }

  lemma {:induction false} StmtThenEnd(ts: seq<Token>, p: nat, q: nat, inBlock: bool, k: nat, fill: seq<Token>,
                                       rest: seq<Token>, other: Lexemes)
    requires Cursor(ts, p) && q == SkipSeps(ts, p) < k < |ts| && ts[q].kind.Atom? && Ends(rest, inBlock)
    requires EofTerminated(Made(ts, k, fill, rest)) && ReadsTo(ParseStmt(Made(ts, k, fill, rest), q, other), k + |fill|)
    ensures ReadsTo(ParseStmts(Made(ts, k, fill, rest), p, inBlock, other), k + |fill| + Closing(inBlock))
  {
    hide Made, ParseStmt, ParseStmts, SkipSeps;
    var us := Made(ts, k, fill, rest);
    MadeEnds(ts, k, fill, rest);
    MadeAgrees(ts, k, fill, rest);
    SepsMade(ts, us, p, q);
    AtOnce(us, k + |fill|);
    NoMoreStmts(us, k + |fill|, k + |fill|, inBlock, other);
    StmtsThen(us, p, q, k + |fill|, inBlock, k + |fill| + Closing(inBlock), other);
  }

  lemma {:induction false} AtOnce(us: seq<Token>, b: nat)
    requires Cursor(us, b) && !us[b].kind.Sep?
    ensures SkipSeps(us, b) == b
  {}

  lemma {:induction false} StmtThenMore(ts: seq<Token>, p: nat, q: nat, inBlock: bool, k: nat, fill: seq<Token>,
                                        rest: seq<Token>, s: Parsed<Stmt>, other: Lexemes)
    requires Cursor(ts, p) && q == SkipSeps(ts, p) && ts[q].kind.Atom? && Ends(rest, inBlock)
    requires s == ParseStmt(ts, q, other) && s.Parsed? && s.pos <= k < |ts| && (k == s.pos ==> fill == [])
    requires EofTerminated(Made(ts, k, fill, rest))
    requires ReadsTo(ParseStmts(Made(ts, k, fill, rest), s.pos, inBlock, other), k + |fill| + Closing(inBlock))
    ensures ReadsTo(ParseStmts(Made(ts, k, fill, rest), p, inBlock, other), k + |fill| + Closing(inBlock))
  {
    hide Made, ParseStmt, ParseStmts, SkipSeps;
    var us := Made(ts, k, fill, rest);
    MadeEnds(ts, k, fill, rest);
    MadeAgrees(ts, k, fill, rest);
    SepsMade(ts, us, p, q);
    MadeEchoes(ts, k, fill, rest, s.pos);
    StmtKept(ts, us, q, s.pos, other);
    StmtsThen(us, p, q, s.pos, inBlock, k + |fill| + Closing(inBlock), other);
  }

  // ---------- the theorem ----------

  /** Some document starts with the first `k` tokens. */
  ghost predicate Viable(ts: seq<Token>, k: nat, other: Lexemes)
    requires k <= |ts|
  {
    exists us :: EofTerminated(us) && k <= |us| && us[..k] == ts[..k] && Parse(us, other).Ok?
  }

  /** When parsing fails it complains of the first token such that no document starts with the tokens up to
      and including it. */
  lemma {:induction false} FailsAtTheFirstBadToken(ts: seq<Token>, other: Lexemes)
    requires EofTerminated(ts) && Parse(ts, other).Err?
    ensures exists k: nat :: k < |ts| && Blamed(ts, k, Parse(ts, other).diag, other)
  {
    hide ParseStmts, Parse;
    var k := FailurePoint(ts, other);
    Completed(ts, k, other);
    forall us | EofTerminated(us) && k + 1 <= |us| && us[..k + 1] == ts[..k + 1]
      ensures Parse(us, other).Err?
    {
      FailsAgain(ts, us, k, other);
    }
    assert Blamed(ts, k, Parse(ts, other).diag, other);
  }

  ghost predicate Blamed(ts: seq<Token>, k: nat, d: Diag, other: Lexemes)
    requires k < |ts|
  {
    d.span == ts[k].span && Viable(ts, k, other) && !Viable(ts, k + 1, other)
  }

  lemma {:induction false} FailurePoint(ts: seq<Token>, other: Lexemes) returns (k: nat)
    requires EofTerminated(ts) && Parse(ts, other).Err?
    ensures var r := ParseStmts(ts, 0, false, other);
            r.Failed? && r.at == k < |ts| && Parse(ts, other).diag.span == ts[k].span
  {
    hide ParseStmts;
    k := ParseStmts(ts, 0, false, other).at;
  }

  lemma {:induction false} Completed(ts: seq<Token>, k: nat, other: Lexemes)
    requires EofTerminated(ts) && ParseStmts(ts, 0, false, other).Failed? && ParseStmts(ts, 0, false, other).at == k
    ensures Viable(ts, k, other)
  {
    hide ParseStmts;
    var fill := StmtsComplete(ts, 0, false, [Tok(Eof)], other);
    var us := Made(ts, k, fill, [Tok(Eof)]);
    assert us[..k] == ts[..k];
    assert EofTerminated(us) && Parse(us, other).Ok?;
  }

  lemma {:induction false} FailsAgain(ts: seq<Token>, us: seq<Token>, k: nat, other: Lexemes)
    requires EofTerminated(ts) && EofTerminated(us) && k < |ts| && k < |us| && us[..k + 1] == ts[..k + 1]
    requires ParseStmts(ts, 0, false, other).Failed? && ParseStmts(ts, 0, false, other).at == k
    ensures Parse(us, other).Err?
  {
    hide ParseStmts;
    forall i | 0 <= i <= k
      ensures us[i] == ts[i]
    {
      assert us[..k + 1][i] == ts[..k + 1][i];
    }
    StmtsKept(ts, us, 0, k, false, other);
  }
}
