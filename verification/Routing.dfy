/** The router: how routes and hosts score, and which of them a request gets. */
module Routing {
  import opened Basics

  const EXACT_SCORE := 1_000_000
  const PREFIX_BASE := 1_000
  const REGEX_SCORE := 10
  const WORD := 0x1_0000_0000

  /** From this prefix length on, a prefix no longer scores below an exact route. */
  const LONG := 999_000

  /** The prefix length whose score wraps around to a regex route's. */
  const WRAPPED := 4_294_966_306

  datatype Kind = Exact | Prefix | Regex

  /** `handler` stands for everything a route carries that plays no part in matching. */
  datatype Route = Route(kind: Kind, pattern: string, verb: Option<string>, handler: string)

  // ---------- matching ----------

  function StripLast(s: string, c: char): string {
    if s != [] && s[|s| - 1] == c then s[..|s| - 1] else s
  }

  function PrefixOf(pattern: string): string {
    var p := StripLast(StripLast(pattern, '*'), '/');
    if p == "/" then "" else p
  }

  function WithSlash(prefix: string): string {
    if prefix != [] && prefix[|prefix| - 1] == '/' then prefix else prefix + "/"
  }

  predicate UnderPrefix(prefix: string, path: string) {
    prefix == [] || path == prefix || WithSlash(prefix) <= path
  }

  /** The length as an unsigned 32-bit number, zero if it is none; the sum wraps. */
  function PrefixScore(n: nat): nat {
    if n < WORD then (PREFIX_BASE + n) % WORD else PREFIX_BASE
  }

  predicate Admits(r: Route, verb: string) {
    r.verb.Some? ==> Lower(r.verb.value) == Lower(verb)
  }

  function Score(r: Route, path: string, verb: string): Option<nat> {
    if !Admits(r, verb) then None
    else
      match r.kind
      case Exact => if r.pattern == path then Some(EXACT_SCORE) else None
      case Prefix =>
        if UnderPrefix(PrefixOf(r.pattern), path) then Some(PrefixScore(|PrefixOf(r.pattern)|)) else None
      case Regex => if r.pattern == path then Some(REGEX_SCORE) else None
  }

  // ---------- which requests a route takes ----------

  predicate EndsIn(s: string, c: char) {
    s != [] && s[|s| - 1] == c
  }

  /** `t` is the prefix a pattern stands for: the pattern without a final star and then a final slash; a
      single slash that is left over stands for everything. */
  predicate StandsFor(pattern: string, t: string) {
    || (t == "" && (pattern == "//" || pattern == "//*"))
    || (&& t != "/"
        && (|| pattern == t + "/*" || pattern == t + "/"
            || (pattern == t + "*" && !EndsIn(t, '/'))
            || (pattern == t && !EndsIn(t, '/') && !EndsIn(t, '*'))))
  }

  /** The path is `t`, or goes on below it at a segment boundary. */
  predicate Below(t: string, path: string) {
    || t == "" || path == t
    || (|t| <= |path| && path[..|t|] == t && (EndsIn(t, '/') || (|t| < |path| && path[|t|] == '/')))
  }

  /** The request is one the route is for: its method, in any case, and its path. */
  ghost predicate Takes(r: Route, path: string, verb: string) {
    && (r.verb.Some? ==> SameName(r.verb.value, verb))
    && if r.kind == Prefix then exists t :: StandsFor(r.pattern, t) && Below(t, path) else r.pattern == path
  }

  lemma {:induction false} PrefixOfMeans(pattern: string, t: string)
    ensures StandsFor(pattern, t) <==> t == PrefixOf(pattern)
  {
    Stripped(pattern);
    if StandsFor(pattern, t) {
      StandsForOne(pattern, t);
    }
  }

  lemma {:induction false} Stripped(pattern: string)
    ensures StandsFor(pattern, PrefixOf(pattern))
  {
    var p := StripLast(pattern, '*');
    var q := StripLast(p, '/');
    assert EndsIn(pattern, '*') ==> pattern == p + "*";
    assert EndsIn(p, '/') ==> p == q + "/";
    assert EndsIn(pattern, '*') && EndsIn(p, '/') ==> pattern == q + "/*";
  }

  lemma {:induction false} StandsForOne(pattern: string, t: string)
    requires StandsFor(pattern, t)
    ensures t == PrefixOf(pattern)
  {
    if pattern == t + "/*" {
      assert StripLast(pattern, '*') == t + "/";
      assert StripLast(t + "/", '/') == t;
    } else if pattern == t + "/" {
      assert StripLast(pattern, '*') == pattern;
      assert StripLast(pattern, '/') == t;
    } else if pattern == t + "*" {
      assert StripLast(pattern, '*') == t;
    }
  }

  lemma {:induction false} UnderIsBelow(t: string, path: string)
    ensures UnderPrefix(t, path) <==> Below(t, path)
  {
    if !EndsIn(t, '/') && |t| < |path| && path[..|t|] == t && path[|t|] == '/' {
      assert path[..|t| + 1] == t + "/";
    }
    if WithSlash(t) <= path {
      assert path[..|t|] == t;
    }
  }

  /** A route scores exactly the requests it takes. */
  lemma {:induction false} ScoresWhatItTakes(r: Route, path: string, verb: string)
    ensures Score(r, path, verb).Some? <==> Takes(r, path, verb)
  {
    if r.verb.Some? {
      LowerFolds(r.verb.value, verb);
    }
    var t := PrefixOf(r.pattern);
    PrefixOfMeans(r.pattern, t);
    UnderIsBelow(t, path);
    forall u | StandsFor(r.pattern, u)
      ensures u == t
    {
      PrefixOfMeans(r.pattern, u);
    }
  }

  /** A glob covers the bare prefix and what lies below it, not a longer segment that begins alike. */
  lemma {:induction false} GlobTakes(t: string, h: string, path: string, verb: string)
    requires t == [] || t[|t| - 1] != '/'
    ensures Score(Route(Prefix, t + "/*", None, h), path, verb).Some? <==>
              t == "" || path == t || (|t| < |path| && path[..|t|] == t && path[|t|] == '/')
  {
    ScoresWhatItTakes(Route(Prefix, t + "/*", None, h), path, verb);
    GlobPrefix(t);
    forall u
      ensures StandsFor(t + "/*", u) <==> u == t
    {
      PrefixOfMeans(t + "/*", u);
    }
  }

  // ---------- choosing ----------

  /** The last index of the greatest score. */
  function LastMax(scores: seq<Option<nat>>): (r: Option<nat>)
    ensures r.Some? ==> r.value < |scores| && scores[r.value].Some?
  {
    if scores == [] then None
    else
      var n := |scores| - 1;
      var b := LastMax(scores[..n]);
      if scores[n].None? then b
      else if b.Some? && scores[b.value].value > scores[n].value then b
      else Some(n)
  }

  ghost predicate IsLastMax(scores: seq<Option<nat>>, i: nat) {
    && i < |scores| && scores[i].Some?
    && (forall j :: 0 <= j < |scores| && scores[j].Some? ==> scores[j].value <= scores[i].value)
    && (forall j :: i < j < |scores| && scores[j].Some? ==> scores[j].value < scores[i].value)
  }

  lemma {:induction false} LastMaxMeans(scores: seq<Option<nat>>)
    ensures LastMax(scores).None? <==> forall i :: 0 <= i < |scores| ==> scores[i].None?
    ensures LastMax(scores).Some? ==> IsLastMax(scores, LastMax(scores).value)
    decreases |scores|
  {
    if scores == [] {
    } else {
      var n := |scores| - 1;
      LastMaxMeans(scores[..n]);
      assert forall i :: 0 <= i < n ==> scores[..n][i] == scores[i];
    }
  }

  function Scores(routes: seq<Route>, path: string, verb: string): seq<Option<nat>> {
    seq(|routes|, i requires 0 <= i < |routes| => Score(routes[i], path, verb))
  }

  /** The route a site answers with. */
  function Pick(routes: seq<Route>, path: string, verb: string): Option<Route> {
    var i := LastMax(Scores(routes, path, verb));
    if i.Some? then Some(routes[i.value]) else None
  }

  /** `r` is one of the routes that match the request with the highest score. */
  ghost predicate IsTop(routes: seq<Route>, r: Route, path: string, verb: string) {
    && r in routes && Score(r, path, verb).Some?
    && forall x :: x in routes && Score(x, path, verb).Some? ==>
         Score(x, path, verb).value <= Score(r, path, verb).value
  }

  /** The picked route matches, no route scores higher, and nothing is picked only if nothing matches. */
  lemma {:induction false} PickMeans(routes: seq<Route>, path: string, verb: string)
    ensures Pick(routes, path, verb).None? <==> forall r :: r in routes ==> Score(r, path, verb).None?
    ensures Pick(routes, path, verb).Some? ==> IsTop(routes, Pick(routes, path, verb).value, path, verb)
  {
    hide Score;
    var scores := Scores(routes, path, verb);
    LastMaxMeans(scores);
    forall r | r in routes
      ensures exists i :: 0 <= i < |scores| && scores[i] == Score(r, path, verb)
    {
      var i :| 0 <= i < |routes| && routes[i] == r;
      assert scores[i] == Score(r, path, verb);
    }
    assert forall i :: 0 <= i < |scores| ==> routes[i] in routes && scores[i] == Score(routes[i], path, verb);
  }

  /** In terms of the request alone: what is picked takes the request, and nothing is picked exactly when no
      listed route takes it. */
  lemma {:induction false} PickTakes(routes: seq<Route>, path: string, verb: string)
    ensures Pick(routes, path, verb).None? <==> forall r :: r in routes ==> !Takes(r, path, verb)
    ensures Pick(routes, path, verb).Some? ==>
              Pick(routes, path, verb).value in routes && Takes(Pick(routes, path, verb).value, path, verb)
  {
    hide Score, Takes;
    PickMeans(routes, path, verb);
    forall r
      ensures Score(r, path, verb).Some? <==> Takes(r, path, verb)
    {
      ScoresWhatItTakes(r, path, verb);
    }
  }

  // ---------- the score decides kind and prefix ----------

  /** What a route matches on: its kind, and the prefix or literal text. */
  function Shape(r: Route): (Kind, string) {
    (r.kind, if r.kind == Prefix then PrefixOf(r.pattern) else r.pattern)
  }

  /** Short enough that every exact route scores higher. */
  predicate Short(r: Route) {
    r.kind == Prefix ==> |PrefixOf(r.pattern)| < LONG
  }

  /** The prefix is short enough for its score to be its length on top of the base. */
  predicate Counted(r: Route) {
    r.kind == Prefix ==> |PrefixOf(r.pattern)| < WORD - PREFIX_BASE
  }

  /** The lengths at which different matches of one path score alike: a prefix of `LONG` bytes and the
      exact path, a prefix whose score wraps to a regex's and the regex, and prefixes too long to count. */
  predicate Ties(a: (Kind, string), b: (Kind, string)) {
    && b.0 == Prefix
    && match a.0
       case Exact => |b.1| == LONG
       case Regex => |b.1| == WRAPPED
       case Prefix => |b.1| >= WORD && (|a.1| == 0 || |a.1| >= WORD)
  }

  /** The route can tie with no match of another kind or text. */
  predicate Untied(r: Route) {
    r.kind == Prefix ==> |PrefixOf(r.pattern)| < WORD && |PrefixOf(r.pattern)| !in {LONG, WRAPPED}
  }

  lemma {:induction false} PrefixStarts(prefix: string, path: string)
    requires UnderPrefix(prefix, path)
    ensures |prefix| <= |path| && prefix == path[..|prefix|]
  {
    assert prefix <= WithSlash(prefix);
  }

  /** Two routes that match a request with the same score match on the same kind and text. */
  lemma {:induction false} ScoreDecidesShape(r: Route, s: Route, path: string, verb: string)
    requires Untied(r) && Untied(s)
    requires Score(r, path, verb).Some? && Score(r, path, verb) == Score(s, path, verb)
    ensures Shape(r) == Shape(s)
  {
    ScoreMeans(r, path, verb);
    ScoreMeans(s, path, verb);
    TiesExactly(Shape(r), Shape(s), path, Score(r, path, verb).value, Score(s, path, verb).value);
  }

  /** What matches `path`, and with which score. */
  predicate Scored(shape: (Kind, string), path: string, n: nat) {
    match shape.0
    case Exact => shape.1 == path && n == EXACT_SCORE
    case Prefix => UnderPrefix(shape.1, path) && n == PrefixScore(|shape.1|)
    case Regex => shape.1 == path && n == REGEX_SCORE
  }

  lemma {:induction false} ScoreMeans(r: Route, path: string, verb: string)
    requires Score(r, path, verb).Some?
    ensures Scored(Shape(r), path, Score(r, path, verb).value)
  {}

  lemma {:induction false} PrefixScoresTie(i: nat, j: nat)
    ensures PrefixScore(i) == PrefixScore(j) <==>
              || i == j || (j >= WORD && (i == 0 || i >= WORD)) || (i >= WORD && (j == 0 || j >= WORD))
    ensures PrefixScore(i) == EXACT_SCORE <==> i == LONG
    ensures PrefixScore(i) == REGEX_SCORE <==> i == WRAPPED
  {}

  lemma {:induction false} EqualPrefixes(p: string, q: string, path: string)
    requires UnderPrefix(p, path) && UnderPrefix(q, path)
    ensures |p| == |q| <==> p == q
  {
    PrefixStarts(p, path);
    PrefixStarts(q, path);
  }

  /** Two matches of one path score alike exactly when they are the same or tie at those lengths. */
  lemma {:induction false} TiesExactly(a: (Kind, string), b: (Kind, string), path: string, m: nat, n: nat)
    requires Scored(a, path, m) && Scored(b, path, n)
    ensures m == n <==> a == b || Ties(a, b) || Ties(b, a)
  {
    PrefixScoresTie(|a.1|, |b.1|);
    PrefixScoresTie(|b.1|, |a.1|);
    if a.0 == Prefix && b.0 == Prefix {
      EqualPrefixes(a.1, b.1, path);
    }
  }

  lemma {:induction false} ShapeDecidesScore(r: Route, s: Route, path: string, verb: string)
    requires Shape(r) == Shape(s) && Score(r, path, verb).Some? && Admits(s, verb)
    ensures Score(s, path, verb) == Score(r, path, verb)
  {}

  lemma {:induction false} SameElements(r: seq<Route>, s: seq<Route>)
    requires multiset(r) == multiset(s)
    ensures forall x :: x in r <==> x in s
  {
    forall x
      ensures x in r <==> x in s
    {
      assert x in multiset(r) <==> x in multiset(s);
    }
  }

  // ---------- when the order of the routes decides ----------

  /** However the site lists its routes, the request gets the same one. */
  ghost predicate OrderFree(routes: seq<Route>, path: string, verb: string) {
    forall p: seq<Route> :: multiset(p) == multiset(routes) ==> Pick(p, path, verb) == Pick(routes, path, verb)
  }

  /** However the site lists its routes, the request gets a route of the same kind and text, or none. */
  ghost predicate ShapeFree(routes: seq<Route>, path: string, verb: string) {
    forall p: seq<Route> :: multiset(p) == multiset(routes) ==>
      && (Pick(p, path, verb).Some? <==> Pick(routes, path, verb).Some?)
      && (Pick(p, path, verb).Some? ==> Shape(Pick(p, path, verb).value) == Shape(Pick(routes, path, verb).value))
  }

  ghost predicate OneTop(routes: seq<Route>, path: string, verb: string) {
    forall r, s :: IsTop(routes, r, path, verb) && IsTop(routes, s, path, verb) ==> r == s
  }

  ghost predicate OneTopShape(routes: seq<Route>, path: string, verb: string) {
    forall r, s :: IsTop(routes, r, path, verb) && IsTop(routes, s, path, verb) ==> Shape(r) == Shape(s)
  }

  lemma {:induction false} TopOfPermuted(r: seq<Route>, s: seq<Route>, x: Route, path: string, verb: string)
    requires multiset(r) == multiset(s)
    ensures IsTop(r, x, path, verb) <==> IsTop(s, x, path, verb)
  {
    SameElements(r, s);
  }

  lemma {:induction false} SomePermuted(r: seq<Route>, s: seq<Route>, path: string, verb: string)
    requires multiset(r) == multiset(s)
    ensures Pick(r, path, verb).Some? <==> Pick(s, path, verb).Some?
  {
    SameElements(r, s);
    PickMeans(r, path, verb);
    PickMeans(s, path, verb);
  }

  /** Whatever matches at the highest score is picked once it is listed last. */
  lemma {:induction false} LastTopWins(rest: seq<Route>, r: Route, path: string, verb: string)
    requires IsTop(rest + [r], r, path, verb)
    ensures Pick(rest + [r], path, verb) == Some(r)
  {
    var routes := rest + [r];
    var scores := Scores(routes, path, verb);
    LastMaxMeans(scores);
    assert scores[|rest|] == Score(r, path, verb);
    var i := LastMax(scores).value;
    assert scores[i] == Score(routes[i], path, verb) && routes[i] in routes;
  }

  lemma {:induction false} TopCanBePicked(routes: seq<Route>, r: Route, path: string, verb: string) returns (p: seq<Route>)
    requires IsTop(routes, r, path, verb)
    ensures multiset(p) == multiset(routes) && Pick(p, path, verb) == Some(r)
  {
    var i :| 0 <= i < |routes| && routes[i] == r;
    var rest := routes[..i] + routes[i + 1..];
    p := rest + [r];
    assert routes == routes[..i] + [r] + routes[i + 1..];
    TopOfPermuted(routes, p, r, path, verb);
    LastTopWins(rest, r, path, verb);
  }

  /** The order never decides exactly when no two different routes match at the highest score. */
  lemma {:induction false} OrderFreeIff(routes: seq<Route>, path: string, verb: string)
    ensures OrderFree(routes, path, verb) <==> OneTop(routes, path, verb)
  {
    if OrderFree(routes, path, verb) {
      forall r, s | IsTop(routes, r, path, verb) && IsTop(routes, s, path, verb)
        ensures r == s
      {
        var p := TopCanBePicked(routes, r, path, verb);
        var q := TopCanBePicked(routes, s, path, verb);
      }
    }
    if OneTop(routes, path, verb) {
      forall p: seq<Route> | multiset(p) == multiset(routes)
        ensures Pick(p, path, verb) == Pick(routes, path, verb)
      {
        PermutedTop(routes, p, path, verb);
      }
    }
  }

  /** What a permuted list picks is at the top of the list as it was. */
  lemma {:induction false} PermutedTop(routes: seq<Route>, p: seq<Route>, path: string, verb: string)
    requires multiset(p) == multiset(routes)
    ensures Pick(p, path, verb).Some? <==> Pick(routes, path, verb).Some?
    ensures Pick(p, path, verb).Some? ==>
              && IsTop(routes, Pick(p, path, verb).value, path, verb)
              && IsTop(routes, Pick(routes, path, verb).value, path, verb)
  {
    SomePermuted(p, routes, path, verb);
    PickMeans(p, path, verb);
    PickMeans(routes, path, verb);
    if Pick(p, path, verb).Some? {
      TopOfPermuted(routes, p, Pick(p, path, verb).value, path, verb);
    }
  }

  /** The same for kind and text alone. */
  lemma {:induction false} ShapeFreeIff(routes: seq<Route>, path: string, verb: string)
    ensures ShapeFree(routes, path, verb) <==> OneTopShape(routes, path, verb)
  {
    if ShapeFree(routes, path, verb) {
      forall r, s | IsTop(routes, r, path, verb) && IsTop(routes, s, path, verb)
        ensures Shape(r) == Shape(s)
      {
        var p := TopCanBePicked(routes, r, path, verb);
        var q := TopCanBePicked(routes, s, path, verb);
        assert Pick(p, path, verb).Some? && Pick(q, path, verb).Some?;
      }
    }
    if OneTopShape(routes, path, verb) {
      forall p: seq<Route> | multiset(p) == multiset(routes)
        ensures Pick(p, path, verb).Some? <==> Pick(routes, path, verb).Some?
        ensures Pick(p, path, verb).Some? ==> Shape(Pick(p, path, verb).value) == Shape(Pick(routes, path, verb).value)
      {
        PermutedTop(routes, p, path, verb);
      }
    }
  }

  /** A site none of whose prefixes has a tying length answers every request with the same kind and text
      in whatever order it lists its routes. */
  lemma {:induction false} OrderIsIrrelevant(routes: seq<Route>, path: string, verb: string)
    requires forall x :: x in routes ==> Untied(x)
    ensures ShapeFree(routes, path, verb)
  {
    ShapeFreeIff(routes, path, verb);
    forall r, s | IsTop(routes, r, path, verb) && IsTop(routes, s, path, verb)
      ensures Shape(r) == Shape(s)
    {
      TopsScoreAlike(routes, r, s, path, verb);
      ScoreDecidesShape(r, s, path, verb);
    }
  }

  lemma {:induction false} TopsScoreAlike(routes: seq<Route>, r: Route, s: Route, path: string, verb: string)
    requires IsTop(routes, r, path, verb) && IsTop(routes, s, path, verb)
    ensures Score(r, path, verb) == Score(s, path, verb)
  {
    var x, y := Score(r, path, verb).value, Score(s, path, verb).value;
    assert x <= y && y <= x;
  }

  /** Two different routes with one kind and text that some method reaches both of. */
  predicate Rivals(r: Route, s: Route) {
    r != s && Shape(r) == Shape(s) && Overlap(r, s)
  }

  predicate Overlap(r: Route, s: Route) {
    r.verb.Some? && s.verb.Some? ==> Lower(r.verb.value) == Lower(s.verb.value)
  }

  /** On such a site the order decides a request exactly when a top route has a rival that admits it. */
  lemma {:induction false} OrderDecidesIff(routes: seq<Route>, path: string, verb: string)
    requires forall x :: x in routes ==> Untied(x)
    ensures !OrderFree(routes, path, verb) <==>
              exists r, s :: IsTop(routes, r, path, verb) && s in routes && Rivals(r, s) && Admits(s, verb)
  {
    hide Score, Rivals, Admits, OrderFree;
    OrderFreeIff(routes, path, verb);
    forall r, s | IsTop(routes, r, path, verb) && s in routes
      ensures IsTop(routes, s, path, verb) && r != s <==> Rivals(r, s) && Admits(s, verb)
    {
      RivalIsTop(routes, r, s, path, verb);
    }
  }

  lemma {:induction false} RivalIsTop(routes: seq<Route>, r: Route, s: Route, path: string, verb: string)
    requires IsTop(routes, r, path, verb) && s in routes && Untied(r) && Untied(s)
    ensures IsTop(routes, s, path, verb) && r != s <==> Rivals(r, s) && Admits(s, verb)
  {
    if IsTop(routes, s, path, verb) {
      TopsScoreAlike(routes, r, s, path, verb);
      ScoreDecidesShape(r, s, path, verb);
    }
    if Shape(r) == Shape(s) && Admits(s, verb) {
      ShapeDecidesScore(r, s, path, verb);
    }
  }

  /** Without rivals on the site, no request ever depends on the order. */
  lemma {:induction false} NoRivalsNoOrder(routes: seq<Route>, path: string, verb: string)
    requires forall x :: x in routes ==> Untied(x)
    requires forall r, s :: r in routes && s in routes ==> !Rivals(r, s)
    ensures OrderFree(routes, path, verb)
  {
    OrderDecidesIff(routes, path, verb);
  }

  /** And for any two routes that is exact: rivals are told apart by some request. */
  lemma {:induction false} PairOrderIff(r: Route, s: Route)
    requires Untied(r) && Untied(s)
    ensures (forall path, verb :: Pick([r, s], path, verb) == Pick([s, r], path, verb)) <==> !Rivals(r, s)
  {
    if Rivals(r, s) {
      RivalsAreToldApart(r, s);
    } else {
      forall path, verb
        ensures Pick([r, s], path, verb) == Pick([s, r], path, verb)
      {
        NoRivalPair(r, s, path, verb);
      }
    }
  }

  lemma {:induction false} RivalsAreToldApart(r: Route, s: Route)
    requires Rivals(r, s)
    ensures exists path, verb :: Pick([r, s], path, verb) != Pick([s, r], path, verb)
  {
    var path := Shape(r).1;
    var verb := if r.verb.Some? then r.verb.value else if s.verb.Some? then s.verb.value else "";
    assert Score(r, path, verb).Some?;
    ShapeDecidesScore(r, s, path, verb);
    PickOfTwo(r, s, path, verb);
    PickOfTwo(s, r, path, verb);
    assert Pick([r, s], path, verb) != Pick([s, r], path, verb);
  }

  lemma {:induction false} NoRivalPair(r: Route, s: Route, path: string, verb: string)
    requires Untied(r) && Untied(s) && !Rivals(r, s)
    ensures Pick([r, s], path, verb) == Pick([s, r], path, verb)
  {
    assert !Rivals(s, r) && !Rivals(r, r) && !Rivals(s, s);
    NoRivalsNoOrder([r, s], path, verb);
    assert multiset([s, r]) == multiset([r, s]);
  }

  /** Two everyday routes: which of them a POST reaches depends on which is listed last. */
  lemma {:induction false} OrderDecidesForRivals()
    ensures var r, s := Route(Prefix, "/api/*", Some("POST"), "a"), Route(Prefix, "/api/*", None, "b");
            && Short(r) && Short(s)
            && Pick([r, s], "/api/x", "POST") == Some(s) && Pick([s, r], "/api/x", "POST") == Some(r)
  {
    var r, s := Route(Prefix, "/api/*", Some("POST"), "a"), Route(Prefix, "/api/*", None, "b");
    GlobPrefix("/api");
    assert "/api" + "/*" == "/api/*" && PrefixOf("/api/*") == "/api";
    assert WithSlash("/api") == "/api/" && "/api/" <= "/api/x";
    PickOfTwo(r, s, "/api/x", "POST");
    PickOfTwo(s, r, "/api/x", "POST");
  }

  /** Which of an exact and a prefix route for the same request wins whatever their order. */
  lemma {:induction false} ExactWinsIff(e: Route, p: Route, path: string, verb: string)
    requires e.kind == Exact && p.kind == Prefix && Score(e, path, verb).Some? && Score(p, path, verb).Some?
    ensures var n := |PrefixOf(p.pattern)|;
            Beats(e, p, path, verb) <==> n < LONG || n >= WORD - PREFIX_BASE
  {
    BeatsIff(e, p, path, verb);
  }

  lemma {:induction false} PickOfTwo(r: Route, s: Route, path: string, verb: string)
    requires Score(r, path, verb).Some? && Score(s, path, verb).Some?
    ensures Pick([r, s], path, verb) ==
              Some(if Score(r, path, verb).value > Score(s, path, verb).value then r else s)
  {
    var scores := Scores([r, s], path, verb);
    LastMaxMeans(scores);
    assert scores[0] == Score(r, path, verb) && scores[1] == Score(s, path, verb);
  }

  /** At a prefix of exactly `LONG` bytes the two tie, and then the order decides. */
  lemma {:induction false} OrderDecidesAtTheTie(path: string)
    requires |path| == LONG && path[|path| - 1] != '/'
    ensures var e, p := Route(Exact, path, None, ""), Route(Prefix, path + "/*", None, "");
            Pick([e, p], path, "GET") == Some(p) && Pick([p, e], path, "GET") == Some(e)
  {
    var e, p := Route(Exact, path, None, ""), Route(Prefix, path + "/*", None, "");
    GlobPrefix(path);
    PickOfTwo(e, p, path, "GET");
    PickOfTwo(p, e, path, "GET");
  }

  // ---------- precedence ----------

  /** The first of two routes is picked in either order. */
  predicate Beats(r: Route, s: Route, path: string, verb: string) {
    Pick([r, s], path, verb) == Some(r) && Pick([s, r], path, verb) == Some(r)
  }

  lemma {:induction false} BeatsIff(r: Route, s: Route, path: string, verb: string)
    requires Score(r, path, verb).Some? && Score(s, path, verb).Some?
    ensures Beats(r, s, path, verb) <==> r == s || Score(r, path, verb).value > Score(s, path, verb).value
  {
    PickOfTwo(r, s, path, verb);
    PickOfTwo(s, r, path, verb);
  }

  /** A regex route beats a prefix route for the same request only at lengths whose score wraps below ten. */
  lemma {:induction false} RegexWinsIff(r: Route, p: Route, path: string, verb: string)
    requires r.kind == Regex && p.kind == Prefix && Score(r, path, verb).Some? && Score(p, path, verb).Some?
    ensures Beats(r, p, path, verb) <==> WORD - PREFIX_BASE <= |PrefixOf(p.pattern)| < WRAPPED
  {
    BeatsIff(r, p, path, verb);
  }

  /** Of two prefixes the longer beats the shorter, until scores wrap or stop counting. */
  lemma {:induction false} LongerWinsIff(p: Route, q: Route, path: string, verb: string)
    requires p.kind == Prefix && q.kind == Prefix && Score(p, path, verb).Some? && Score(q, path, verb).Some?
    requires |PrefixOf(p.pattern)| > |PrefixOf(q.pattern)|
    ensures var m, n := |PrefixOf(p.pattern)|, |PrefixOf(q.pattern)|;
            Beats(p, q, path, verb) <==>
              || m < WORD - PREFIX_BASE
              || (WORD - PREFIX_BASE <= n < WORD)
  {
    hide PrefixScore, Beats;
    BeatsIff(p, q, path, verb);
    LongerScoresMore(|PrefixOf(p.pattern)|, |PrefixOf(q.pattern)|);
  }

  lemma {:induction false} LongerScoresMore(m: nat, n: nat)
    requires m > n
    ensures PrefixScore(m) > PrefixScore(n) <==> m < WORD - PREFIX_BASE || WORD - PREFIX_BASE <= n < WORD
  {}

  /** The catch-all answers a path that a regex route spells out, in either order. */
  lemma {:induction false} CatchAllShadowsRegex()
    ensures var r, all := Route(Regex, "/u", None, "r"), Route(Prefix, "/*", None, "all");
            Beats(all, r, "/u", "GET") && !Beats(r, all, "/u", "GET")
  {
    var r, all := Route(Regex, "/u", None, "r"), Route(Prefix, "/*", None, "all");
    GlobPrefix("");
    assert "" + "/*" == "/*";
    BeatsIff(all, r, "/u", "GET");
    BeatsIff(r, all, "/u", "GET");
  }

  ghost predicate AnyMatch(routes: seq<Route>, kind: Kind, path: string, verb: string) {
    exists r :: r in routes && r.kind == kind && Takes(r, path, verb)
  }

  lemma {:induction false} CountedScores(r: Route, path: string, verb: string)
    requires Takes(r, path, verb) && Counted(r)
    ensures Score(r, path, verb).Some?
    ensures Score(r, path, verb).value ==
              match r.kind
              case Exact => EXACT_SCORE
              case Prefix => PREFIX_BASE + |PrefixOf(r.pattern)|
              case Regex => REGEX_SCORE
  {
    ScoresWhatItTakes(r, path, verb);
    ScoreMeans(r, path, verb);
  }

  /** On a site whose prefix scores do not wrap, a regex route answers exactly the requests that no exact
      and no prefix route matches: every prefix route, the catch-all included, comes before it. */
  lemma {:induction false} RegexPickedIff(routes: seq<Route>, path: string, verb: string)
    requires forall x :: x in routes ==> Counted(x)
    ensures Pick(routes, path, verb).Some? && Pick(routes, path, verb).value.kind == Regex <==>
              && AnyMatch(routes, Regex, path, verb)
              && !AnyMatch(routes, Exact, path, verb) && !AnyMatch(routes, Prefix, path, verb)
  {
    hide Score, Takes;
    PickMeans(routes, path, verb);
    PickTakes(routes, path, verb);
    forall x | x in routes && Takes(x, path, verb)
      ensures Score(x, path, verb).Some?
      ensures x.kind == Regex <==> Score(x, path, verb).value <= REGEX_SCORE
    {
      CountedScores(x, path, verb);
    }
  }

  /** What the router does: exact first, then the longest prefix, the catch-all as the shortest among them,
      then regex. */
  lemma {:induction false} SitePrecedence(routes: seq<Route>, path: string, verb: string)
    requires forall x :: x in routes ==> Short(x)
    ensures Pick(routes, path, verb).None? <==> forall r :: r in routes ==> !Takes(r, path, verb)
    ensures Pick(routes, path, verb).Some? ==>
              var p := Pick(routes, path, verb).value;
              && p in routes && Takes(p, path, verb)
              && (p.kind == Exact <==> AnyMatch(routes, Exact, path, verb))
              && (p.kind == Prefix <==> !AnyMatch(routes, Exact, path, verb) && AnyMatch(routes, Prefix, path, verb))
              && (p.kind == Prefix ==> forall q :: q in routes && q.kind == Prefix && Takes(q, path, verb) ==>
                    |PrefixOf(q.pattern)| <= |PrefixOf(p.pattern)|)
  {
    hide Score, Takes;
    PickMeans(routes, path, verb);
    PickTakes(routes, path, verb);
    forall x | x in routes && Takes(x, path, verb)
      ensures Score(x, path, verb).Some?
      ensures x.kind == Exact <==> Score(x, path, verb).value == EXACT_SCORE
      ensures x.kind == Prefix <==> PREFIX_BASE <= Score(x, path, verb).value < EXACT_SCORE
      ensures x.kind == Prefix ==> Score(x, path, verb).value == PREFIX_BASE + |PrefixOf(x.pattern)|
      ensures x.kind == Regex <==> Score(x, path, verb).value == REGEX_SCORE
    {
      CountedScores(x, path, verb);
    }
  }

  // ---------- among equally specific routes ----------

  ghost predicate TopAt(routes: seq<Route>, i: nat, path: string, verb: string) {
    i < |routes| && IsTop(routes, routes[i], path, verb)
  }

  /** Of the routes at the highest score the last listed is picked. */
  lemma {:induction false} PicksTheLastTop(routes: seq<Route>, path: string, verb: string) returns (i: nat)
    requires Pick(routes, path, verb).Some?
    ensures TopAt(routes, i, path, verb) && Pick(routes, path, verb) == Some(routes[i])
    ensures LastMax(Scores(routes, path, verb)) == Some(i)
    ensures forall j: nat :: j > i ==> !TopAt(routes, j, path, verb)
  {
    var scores := Scores(routes, path, verb);
    LastMaxMeans(scores);
    PickMeans(routes, path, verb);
    i := LastMax(scores).value;
    forall j: nat | j > i
      ensures !TopAt(routes, j, path, verb)
    {
      assert j < |routes| ==> scores[j] == Score(routes[j], path, verb);
    }
  }

  /** So the first in source order wins exactly when it is the only one. */
  lemma {:induction false} FirstWinsIff(routes: seq<Route>, i: nat, path: string, verb: string)
    requires TopAt(routes, i, path, verb) && forall j: nat :: j < i ==> !TopAt(routes, j, path, verb)
    ensures LastMax(Scores(routes, path, verb)) == Some(i) <==> forall j: nat :: TopAt(routes, j, path, verb) ==> j == i
  {
    PickMeans(routes, path, verb);
    var k := PicksTheLastTop(routes, path, verb);
  }

  /** And a route with a method wins exactly when no equally specific one without a method is listed after
      the last such route. */
  lemma {:induction false} RefinedWinsIff(routes: seq<Route>, path: string, verb: string)
    requires Pick(routes, path, verb).Some?
    ensures Pick(routes, path, verb).value.verb.Some? <==>
              exists i: nat :: TopAt(routes, i, path, verb) && routes[i].verb.Some? &&
                forall j: nat :: i < j && TopAt(routes, j, path, verb) ==> routes[j].verb.Some?
  {
    var k := PicksTheLastTop(routes, path, verb);
    if routes[k].verb.Some? {
      assert TopAt(routes, k, path, verb);
    }
  }

  // A glob is its prefix followed by a slash and a star.
  lemma {:induction false} GlobPrefix(t: string)
    requires t == [] || t[|t| - 1] != '/'
    ensures PrefixOf(t + "/*") == t
  {
    assert (t + "/*")[..|t| + 1] == t + "/";
    assert (t + "/")[..|t|] == t;
  }

  // ---------- hosts ----------

  datatype Site = Site(hosts: seq<string>, routes: seq<Route>)

  function PatternScore(pattern: string, host: string): Option<nat> {
    if pattern == host then Some(3)
    else if pattern == ":default" then Some(1)
    else if "*." <= pattern && |host| > |pattern| - 2 && host[|host| - (|pattern| - 2)..] == pattern[2..] then Some(2)
    else None
  }

  /** The best of the patterns, scanning them with a running best. */
  method HostScore(hosts: seq<string>, host: string) returns (best: Option<nat>)
    ensures best == BestPattern(hosts, host)
  {
    best := None;
    for i := 0 to |hosts|
      invariant best == BestPattern(hosts[..i], host)
    {
      assert hosts[..i + 1][..i] == hosts[..i];
      var s := PatternScore(hosts[i], host);
      if best.None? || (s.Some? && s.value > best.value) {
        best := s;
      }
    }
    assert hosts[..|hosts|] == hosts;
  }

  function BestPattern(hosts: seq<string>, host: string): Option<nat> {
    if hosts == [] then None
    else
      var n := |hosts| - 1;
      var b, s := BestPattern(hosts[..n], host), PatternScore(hosts[n], host);
      if b.None? || (s.Some? && s.value > b.value) then s else b
  }

  /** The pattern's text behind its star and dot ends the host, with something before it. */
  ghost predicate Wildcard(pattern: string, host: string) {
    exists x: string, suffix: string :: x != "" && pattern == "*." + suffix && host == x + suffix
  }

  lemma {:induction false} WildcardIff(pattern: string, host: string)
    requires pattern != host
    ensures Wildcard(pattern, host) <==> PatternScore(pattern, host) == Some(2)
  {
    if PatternScore(pattern, host) == Some(2) {
      var suffix := pattern[2..];
      var x := host[..|host| - |suffix|];
      assert x != "" && pattern == "*." + suffix && host == x + suffix;
    }
    forall x: string, suffix: string | x != "" && pattern == "*." + suffix && host == x + suffix
      ensures PatternScore(pattern, host) == Some(2)
    {
      assert pattern[2..] == suffix && host[|host| - |suffix|..] == suffix;
      assert pattern[0] == '*' && ":default"[0] == ':';
    }
  }

  ghost predicate AnyWildcard(hosts: seq<string>, host: string) {
    exists p :: p in hosts && Wildcard(p, host)
  }

  /** An exact host beats a wildcard, a wildcard beats the default. */
  lemma {:induction false} BestPatternMeans(hosts: seq<string>, host: string)
    ensures BestPattern(hosts, host) ==
              if host in hosts then Some(3)
              else if AnyWildcard(hosts, host) then Some(2)
              else if ":default" in hosts then Some(1)
              else None
    decreases |hosts|
  {
    if hosts == [] {
    } else {
      var n := |hosts| - 1;
      BestPatternMeans(hosts[..n], host);
      assert hosts == hosts[..n] + [hosts[n]];
      assert forall p :: p in hosts <==> p in hosts[..n] || p == hosts[n];
      assert AnyWildcard(hosts, host) <==> AnyWildcard(hosts[..n], host) || Wildcard(hosts[n], host);
      if hosts[n] != host {
        WildcardIff(hosts[n], host);
      }
      assert hosts[n] == host <==> PatternScore(hosts[n], host) == Some(3);
      assert hosts[n] == ":default" && hosts[n] != host <==> PatternScore(hosts[n], host) == Some(1);
    }
  }

  function WithoutPort(host: string): string {
    if host == [] || host[0] == ':' then [] else [host[0]] + WithoutPort(host[1..])
  }

  /** `name` is the host up to its first colon. */
  ghost predicate NameOf(host: string, name: string) {
    ':' !in name && name <= host && (|name| < |host| ==> host[|name|] == ':')
  }

  lemma {:induction false} WithoutPortMeans(host: string, name: string)
    ensures NameOf(host, name) <==> name == WithoutPort(host)
    decreases |host|
  {
    if host == [] || host[0] == ':' {
    } else {
      WithoutPortMeans(host[1..], WithoutPort(host[1..]));
      if NameOf(host, name) {
        assert name != [] && name[0] == host[0];
        assert name == [name[0]] + name[1..];
        WithoutPortMeans(host[1..], name[1..]);
      }
    }
  }

  function HostScores(sites: seq<Site>, host: string): seq<Option<nat>> {
    seq(|sites|, i requires 0 <= i < |sites| => BestPattern(sites[i].hosts, host))
  }

  function PickSite(sites: seq<Site>, host: string): (i: Option<nat>)
    ensures i.Some? ==> i.value < |sites|
  {
    LastMax(HostScores(sites, WithoutPort(host)))
  }

  /** The whole lookup: the best site for the host, then its best route. */
  function Resolve(sites: seq<Site>, host: string, path: string, verb: string): Option<Route> {
    var i := PickSite(sites, host);
    if i.Some? then Pick(sites[i.value].routes, path, verb) else None
  }

  /** The site serves the host by name (3), by name or wildcard (2), or at all (1). */
  ghost predicate Serves(site: Site, name: string, n: nat) {
    || name in site.hosts
    || (n <= 2 && AnyWildcard(site.hosts, name))
    || (n <= 1 && ":default" in site.hosts)
  }

  ghost predicate SomeSite(sites: seq<Site>, name: string, n: nat) {
    exists i :: 0 <= i < |sites| && Serves(sites[i], name, n)
  }

  /** The chosen site serves the host as specifically as any site does: by name, by wildcard or as the
      default; and none is chosen exactly when none serves it. */
  lemma {:induction false} HostPrecedence(sites: seq<Site>, host: string, name: string, n: nat)
    requires 1 <= n <= 3 && NameOf(host, name)
    ensures PickSite(sites, host).Some? <==> SomeSite(sites, name, 1)
    ensures SomeSite(sites, name, n) <==>
              PickSite(sites, host).Some? && Serves(sites[PickSite(sites, host).value], name, n)
  {
    WithoutPortMeans(host, name);
    var scores := HostScores(sites, name);
    LastMaxMeans(scores);
    hide BestPattern, AnyWildcard;
    forall i | 0 <= i < |sites|
      ensures scores[i] == BestPattern(sites[i].hosts, name)
      ensures scores[i].Some? ==> 1 <= scores[i].value <= 3
      ensures forall m :: 1 <= m <= 3 ==> (Serves(sites[i], name, m) <==> scores[i].Some? && scores[i].value >= m)
    {
      BestPatternMeans(sites[i].hosts, name);
    }
  }

  /** The whole lookup: an answer comes from a site that serves the host as specifically as any, by a route
      that takes the request; there is none exactly when no site serves the host or none of the chosen
      site's routes takes the request. */
  lemma {:induction false} ResolveMeans(sites: seq<Site>, host: string, name: string, path: string, verb: string)
    requires NameOf(host, name)
    ensures PickSite(sites, host).None? <==> !SomeSite(sites, name, 1)
    ensures Resolve(sites, host, path, verb).None? <==>
              || PickSite(sites, host).None?
              || forall r :: r in sites[PickSite(sites, host).value].routes ==> !Takes(r, path, verb)
    ensures Resolve(sites, host, path, verb).Some? ==>
              var site, r := sites[PickSite(sites, host).value], Resolve(sites, host, path, verb).value;
              && r in site.routes && Takes(r, path, verb)
              && forall n :: 1 <= n <= 3 && SomeSite(sites, name, n) ==> Serves(site, name, n)
  {
    hide Takes, Serves, Pick;
    forall n | 1 <= n <= 3
      ensures PickSite(sites, host).Some? <==> SomeSite(sites, name, 1)
      ensures SomeSite(sites, name, n) <==>
                PickSite(sites, host).Some? && Serves(sites[PickSite(sites, host).value], name, n)
    {
      HostPrecedence(sites, host, name, n);
    }
    HostPrecedence(sites, host, name, 1);
    if PickSite(sites, host).Some? {
      PickTakes(sites[PickSite(sites, host).value].routes, path, verb);
    }
  }

  /** A wildcard does not ask for the dot: it covers a host that only ends like its domain. */
  lemma {:induction false} WildcardIgnoresTheDot()
    ensures Wildcard("*.example.com", "a.example.com") && Wildcard("*.example.com", "notexample.com")
    ensures !Wildcard("*.example.com", "example.com")
  {
    assert "a.example.com" == "a." + "example.com" && "notexample.com" == "not" + "example.com";
    assert "*.example.com" == "*." + "example.com";
    forall x: string, suffix: string | x != "" && "*.example.com" == "*." + suffix
      ensures "example.com" != x + suffix
    {
      assert |suffix| == 11;
    }
  }

  /** A site that names the host exactly is never passed over for one that does not. */
  lemma {:induction false} NamedSiteWins(sites: seq<Site>, host: string, i: nat)
    requires i < |sites| && WithoutPort(host) in sites[i].hosts
    ensures PickSite(sites, host).Some?
    ensures WithoutPort(host) in sites[PickSite(sites, host).value].hosts
  {
    var h := WithoutPort(host);
    var scores := HostScores(sites, h);
    LastMaxMeans(scores);
    BestPatternMeans(sites[i].hosts, h);
    assert scores[i] == Some(3);
    BestPatternMeans(sites[PickSite(sites, host).value].hosts, h);
  }
}
