/** Gateway API rules as Flow routes: the order they are emitted in, and that it agrees with the router. */
module Translation {
  import opened Basics
  import opened Routing

  const USIZE_MAX := 0xFFFF_FFFF_FFFF_FFFF

  // ---------- keys ----------

  /** Exact before prefix, longer before shorter, then by text. */
  datatype RouteKey = RouteKey(rank: nat, inverse: int, pattern: string, verb: string, upstream: string)

  predicate KeyLess(a: RouteKey, b: RouteKey) {
    || a.rank < b.rank
    || (a.rank == b.rank && a.inverse < b.inverse)
    || (a.rank == b.rank && a.inverse == b.inverse && TextLess(a, b))
  }

  predicate TextLess(a: RouteKey, b: RouteKey) {
    || Less(a.pattern, b.pattern)
    || (a.pattern == b.pattern && Less(a.verb, b.verb))
    || (a.pattern == b.pattern && a.verb == b.verb && Less(a.upstream, b.upstream))
  }

  lemma {:induction false} TextLessTransitive(a: RouteKey, b: RouteKey, c: RouteKey)
    requires TextLess(a, b) && TextLess(b, c)
    ensures TextLess(a, c)
  {
    if Less(a.pattern, b.pattern) && Less(b.pattern, c.pattern) {
      LessTransitive(a.pattern, b.pattern, c.pattern);
    } else if a.pattern == b.pattern == c.pattern && Less(a.verb, b.verb) && Less(b.verb, c.verb) {
      LessTransitive(a.verb, b.verb, c.verb);
    } else if a.pattern == b.pattern == c.pattern && a.verb == b.verb == c.verb {
      LessIrreflexive(a.pattern);
      LessIrreflexive(a.verb);
      LessTransitive(a.upstream, b.upstream, c.upstream);
    }
  }

  lemma {:induction false} KeyLessTransitive(a: RouteKey, b: RouteKey, c: RouteKey)
    requires KeyLess(a, b) && KeyLess(b, c)
    ensures KeyLess(a, c)
  {
    if a.rank == b.rank == c.rank && a.inverse == b.inverse == c.inverse {
      TextLessTransitive(a, b, c);
    }
  }

  lemma {:induction false} KeyLessTotal(a: RouteKey, b: RouteKey)
    ensures KeyLess(a, b) || a == b || KeyLess(b, a)
  {
    LessTotal(a.pattern, b.pattern);
    LessTotal(a.verb, b.verb);
    LessTotal(a.upstream, b.upstream);
  }

  // ---------- lines ----------

  datatype Line = Line(key: RouteKey, route: Route)

  datatype PathMatch = PathMatch(matchType: string, value: string)

  datatype RuleMatch = RuleMatch(path: Option<PathMatch>, verb: Option<string>)

  datatype Rule = Rule(matches: seq<RuleMatch>, upstream: string)

  function UpperChar(c: char): char {
    if 'a' <= c <= 'z' then (c as int - 32) as char else c
  }

  function Upper(s: string): string {
    seq(|s|, i requires 0 <= i < |s| => UpperChar(s[i]))
  }

  function TrimSlashes(s: string): string {
    if s != [] && s[|s| - 1] == '/' then TrimSlashes(s[..|s| - 1]) else s
  }

  function PrefixToGlob(value: string): string {
    TrimSlashes(value) + "/*"
  }

  /** The rank of a route among a site's lines. */
  function KeyOf(r: Route): RouteKey {
    RouteKey(if r.kind == Exact then 0 else 1, USIZE_MAX - |r.pattern|, r.pattern,
             if r.verb.Some? then r.verb.value else "", r.handler)
  }

  function RouteLine(kind: Kind, pattern: string, verb: Option<string>, upstream: string): Line {
    var route := Route(kind, pattern, if verb.Some? then Some(Upper(verb.value)) else None, upstream);
    Line(KeyOf(route), route)
  }

  function PathLine(exact: bool, value: string, verb: Option<string>, upstream: string): Line {
    if exact then RouteLine(Exact, value, verb, upstream) else RouteLine(Prefix, PrefixToGlob(value), verb, upstream)
  }

  function MatchLine(m: RuleMatch, upstream: string): Line {
    if m.path.None? then RouteLine(Prefix, "/*", m.verb, upstream)
    else PathLine(Lower(m.path.value.matchType) == "exact", m.path.value.value, m.verb, upstream)
  }

  /** One line per path match; a rule without matches stands for everything. */
  function RuleLines(rule: Rule): seq<Line> {
    if rule.matches == [] then [RouteLine(Prefix, "/*", None, rule.upstream)]
    else seq(|rule.matches|, i requires 0 <= i < |rule.matches| => MatchLine(rule.matches[i], rule.upstream))
  }

  /** What every emitted line looks like: the key of its own route, and a glob for a prefix. */
  predicate Emitted(l: Line) {
    l.key == KeyOf(l.route) && l.route.kind != Regex && (l.route.kind == Prefix ==> Glob(l.route.pattern))
  }

  predicate Glob(p: string) {
    |p| >= 2 && p == p[..|p| - 2] + "/*" && (|p| == 2 || p[|p| - 3] != '/')
  }

  lemma {:induction false} TrimmedEnds(s: string)
    ensures var t := TrimSlashes(s); t == [] || t[|t| - 1] != '/'
    decreases |s|
  {
    if s != [] && s[|s| - 1] == '/' {
      TrimmedEnds(s[..|s| - 1]);
    }
  }

  lemma {:induction false} PrefixToGlobIsGlob(value: string)
    ensures Glob(PrefixToGlob(value)) && PrefixOf(PrefixToGlob(value)) == TrimSlashes(value)
  {
    var t := TrimSlashes(value);
    TrimmedEnds(value);
    GlobPrefix(t);
    assert (t + "/*")[..|t|] == t;
  }

  lemma {:induction false} MatchLineIsEmitted(m: RuleMatch, upstream: string)
    ensures Emitted(MatchLine(m, upstream))
  {
    if m.path.None? {
      CatchAllIsGlob();
      LineIsEmitted(Prefix, "/*", m.verb, upstream);
    } else {
      PathLineIsEmitted(Lower(m.path.value.matchType) == "exact", m.path.value.value, m.verb, upstream);
    }
  }

  lemma {:induction false} PathLineIsEmitted(exact: bool, value: string, verb: Option<string>, upstream: string)
    ensures Emitted(PathLine(exact, value, verb, upstream))
  {
    PrefixToGlobIsGlob(value);
    if exact {
      LineIsEmitted(Exact, value, verb, upstream);
    } else {
      LineIsEmitted(Prefix, PrefixToGlob(value), verb, upstream);
    }
  }

  lemma {:induction false} LineIsEmitted(kind: Kind, pattern: string, verb: Option<string>, upstream: string)
    requires kind == Exact || (kind == Prefix && Glob(pattern))
    ensures Emitted(RouteLine(kind, pattern, verb, upstream))
  {}

  lemma {:induction false} CatchAllIsGlob()
    ensures Glob("/*")
  {
    PrefixToGlobIsGlob("");
    assert PrefixToGlob("") == "/*";
  }

  lemma {:induction false} RuleLinesAreEmitted(rule: Rule)
    ensures forall l :: l in RuleLines(rule) ==> Emitted(l)
  {
    CatchAllIsGlob();
    LineIsEmitted(Prefix, "/*", None, rule.upstream);
    forall i | 0 <= i < |rule.matches|
      ensures Emitted(MatchLine(rule.matches[i], rule.upstream))
    {
      MatchLineIsEmitted(rule.matches[i], rule.upstream);
    }
  }

  // ---------- a site's lines, in key order ----------

  predicate Sorted(lines: seq<Line>) {
    forall i, j :: 0 <= i < j < |lines| ==> KeyLess(lines[i].key, lines[j].key)
  }

  /** Into an ordered map: a line with the same key is replaced. */
  function Insert(lines: seq<Line>, l: Line): seq<Line> {
    if lines == [] then [l]
    else if lines[0].key == l.key then [l] + lines[1..]
    else if KeyLess(l.key, lines[0].key) then [l] + lines
    else [lines[0]] + Insert(lines[1..], l)
  }

  lemma {:induction false} InsertHolds(lines: seq<Line>, l: Line)
    requires Sorted(lines)
    ensures forall x :: x in Insert(lines, l) <==> x == l || (x in lines && x.key != l.key)
    decreases |lines|
  {
    if lines == [] {
    } else {
      assert lines == [lines[0]] + lines[1..];
      forall x | x in lines[1..]
        ensures x.key != lines[0].key && (KeyLess(l.key, lines[0].key) ==> x.key != l.key)
      {
        Distinct(lines, x, l);
      }
      if lines[0].key != l.key && !KeyLess(l.key, lines[0].key) {
        InsertHolds(lines[1..], l);
      } else if lines[0].key != l.key {
        KeyLessIrreflexive(l.key);
      }
    }
  }

  lemma {:induction false} KeyLessIrreflexive(a: RouteKey)
    ensures !KeyLess(a, a)
  {
    LessIrreflexive(a.pattern);
    LessIrreflexive(a.verb);
    LessIrreflexive(a.upstream);
  }

  lemma {:induction false} Distinct(lines: seq<Line>, x: Line, l: Line)
    requires Sorted(lines) && lines != [] && x in lines[1..]
    ensures KeyLess(lines[0].key, x.key) && x.key != lines[0].key
    ensures KeyLess(l.key, lines[0].key) ==> x.key != l.key
  {
    var i :| 0 <= i < |lines| - 1 && lines[1..][i] == x;
    assert lines[i + 1] == x;
    KeyLessIrreflexive(x.key);
    if KeyLess(l.key, lines[0].key) {
      KeyLessTransitive(l.key, lines[0].key, x.key);
    }
  }

  lemma {:induction false} SortedCons(l: Line, rest: seq<Line>)
    requires Sorted(rest) && forall x :: x in rest ==> KeyLess(l.key, x.key)
    ensures Sorted([l] + rest)
  {
    var lines := [l] + rest;
    forall i, j | 0 <= i < j < |lines|
      ensures KeyLess(lines[i].key, lines[j].key)
    {
      assert lines[j] == rest[j - 1];
      assert i > 0 ==> lines[i] == rest[i - 1];
    }
  }

  lemma {:induction false} InsertSorted(lines: seq<Line>, l: Line)
    requires Sorted(lines)
    ensures Sorted(Insert(lines, l))
    decreases |lines|
  {
    if lines == [] {
    } else {
      var rest := lines[1..];
      assert Sorted(rest);
      forall x | x in rest
        ensures KeyLess(lines[0].key, x.key) && (KeyLess(l.key, lines[0].key) ==> KeyLess(l.key, x.key))
      {
        Distinct(lines, x, l);
        if KeyLess(l.key, lines[0].key) {
          KeyLessTransitive(l.key, lines[0].key, x.key);
        }
      }
      InsertSortedCons(lines, l);
    }
  }

  lemma {:induction false} InsertSortedCons(lines: seq<Line>, l: Line)
    requires lines != [] && Sorted(lines) && Sorted(lines[1..])
    requires forall x :: x in lines[1..] ==> KeyLess(lines[0].key, x.key)
    requires forall x :: x in lines[1..] ==> (KeyLess(l.key, lines[0].key) ==> KeyLess(l.key, x.key))
    ensures Sorted(Insert(lines, l))
    decreases |lines|, 0
  {
    var rest := lines[1..];
    assert lines == [lines[0]] + rest;
    if lines[0].key == l.key {
      SortedCons(l, rest);
    } else if KeyLess(l.key, lines[0].key) {
      SortedCons(l, lines);
    } else {
      KeyLessTotal(l.key, lines[0].key);
      InsertSorted(rest, l);
      InsertHolds(rest, l);
      SortedCons(lines[0], Insert(rest, l));
    }
  }

  function InsertAll(lines: seq<Line>, more: seq<Line>): seq<Line> {
    if more == [] then lines else Insert(InsertAll(lines, more[..|more| - 1]), more[|more| - 1])
  }

  /** The lines of one site, from the rules placed on it. */
  function SiteLines(rules: seq<Rule>): seq<Line> {
    if rules == [] then [] else InsertAll(SiteLines(rules[..|rules| - 1]), RuleLines(rules[|rules| - 1]))
  }

  method Accumulate(rules: seq<Rule>) returns (lines: seq<Line>)
    ensures lines == SiteLines(rules)
  {
    lines := [];
    for i := 0 to |rules|
      invariant lines == SiteLines(rules[..i])
    {
      var more := RuleLines(rules[i]);
      ghost var before := lines;
      for j := 0 to |more|
        invariant lines == InsertAll(before, more[..j])
      {
        assert more[..j + 1][..j] == more[..j];
        lines := Insert(lines, more[j]);
      }
      assert more[..|more|] == more;
      assert rules[..i + 1][..i] == rules[..i];
    }
    assert rules[..|rules|] == rules;
  }

  ghost predicate Emission(lines: seq<Line>) {
    Sorted(lines) && forall l :: l in lines ==> Emitted(l)
  }

  lemma {:induction false} InsertAllEmission(lines: seq<Line>, more: seq<Line>)
    requires Emission(lines) && forall l :: l in more ==> Emitted(l)
    ensures Emission(InsertAll(lines, more))
    decreases |more|
  {
    if more == [] {
    } else {
      var before := InsertAll(lines, more[..|more| - 1]);
      InsertAllEmission(lines, more[..|more| - 1]);
      InsertSorted(before, more[|more| - 1]);
      InsertHolds(before, more[|more| - 1]);
    }
  }

  /** Whatever rules a site gathers, its lines come out sorted and well formed. */
  lemma {:induction false} SiteLinesAreEmission(rules: seq<Rule>)
    ensures Emission(SiteLines(rules))
    decreases |rules|
  {
    if rules == [] {
    } else {
      SiteLinesAreEmission(rules[..|rules| - 1]);
      RuleLinesAreEmitted(rules[|rules| - 1]);
      InsertAllEmission(SiteLines(rules[..|rules| - 1]), RuleLines(rules[|rules| - 1]));
    }
  }

  // ---------- agreement ----------

  function RoutesOf(lines: seq<Line>): seq<Route> {
    seq(|lines|, i requires 0 <= i < |lines| => lines[i].route)
  }

  /** The first line, in the order emitted, that matches the request. */
  function FirstMatch(lines: seq<Line>, path: string, verb: string): Option<Route> {
    if lines == [] then None
    else if Score(lines[0].route, path, verb).Some? then Some(lines[0].route)
    else FirstMatch(lines[1..], path, verb)
  }

  lemma {:induction false} FirstMatchMeans(lines: seq<Line>, path: string, verb: string) returns (i: nat)
    ensures FirstMatch(lines, path, verb).None? ==> forall l :: l in lines ==> Score(l.route, path, verb).None?
    ensures FirstMatch(lines, path, verb).Some? ==>
              && i < |lines| && FirstMatch(lines, path, verb) == Some(lines[i].route)
              && Score(lines[i].route, path, verb).Some?
              && forall j :: 0 <= j < i ==> Score(lines[j].route, path, verb).None?
    decreases |lines|
  {
    i := 0;
    if lines != [] && Score(lines[0].route, path, verb).None? {
      var k := FirstMatchMeans(lines[1..], path, verb);
      i := k + 1;
      assert lines == [lines[0]] + lines[1..];
      assert forall j :: 0 < j < |lines| ==> lines[j] == lines[1..][j - 1];
    }
  }

  lemma {:induction false} GlobLength(p: string)
    requires Glob(p)
    ensures |PrefixOf(p)| == |p| - 2
  {
    GlobPrefix(p[..|p| - 2]);
  }

  predicate Catches(l: Line, path: string, verb: string) {
    Score(l.route, path, verb).Some?
  }

  predicate Outgrows(a: Line, b: Line) {
    a.route.kind == Exact && b.route.kind == Prefix && |PrefixOf(b.route.pattern)| >= LONG
  }

  /** An exact line and a prefix line that has outgrown it catch the same request. */
  ghost predicate Outgrown(lines: seq<Line>, path: string, verb: string) {
    exists a, b :: a in lines && b in lines && Catches(a, path, verb) && Catches(b, path, verb) && Outgrows(a, b)
  }

  /** What a key tells of its route: the kind, and for a prefix its length. */
  predicate Ranked(shape: (Kind, string), key: RouteKey) {
    && shape.0 != Regex && key.rank == (if shape.0 == Exact then 0 else 1)
    && (shape.0 == Prefix ==> |shape.1| < WORD - PREFIX_BASE && |shape.1| == USIZE_MAX - key.inverse - 2)
  }

  lemma {:induction false} LengthInKey(l: Line)
    requires Emitted(l) && Counted(l.route)
    ensures Ranked(Shape(l.route), l.key)
  {
    if l.route.kind == Prefix {
      GlobLength(l.route.pattern);
    }
  }

  lemma {:induction false} RanksAgree(a: (Kind, string), b: (Kind, string), k: RouteKey, l: RouteKey,
                                      path: string, m: nat, n: nat)
    requires Ranked(a, k) && Ranked(b, l) && (k.rank < l.rank || (k.rank == l.rank && k.inverse <= l.inverse))
    requires Scored(a, path, m) && Scored(b, path, n)
    requires a.0 == Exact && b.0 == Prefix ==> |b.1| < LONG
    ensures m >= n
  {}

  /** An earlier line scores at least as high as a later one that catches the same request. */
  lemma {:induction false} EarlierScoresHigher(a: Line, b: Line, path: string, verb: string)
    requires Emitted(a) && Emitted(b) && KeyLess(a.key, b.key) && Counted(a.route) && Counted(b.route)
    requires Catches(a, path, verb) && Catches(b, path, verb) && !Outgrows(a, b)
    ensures Score(a.route, path, verb).value >= Score(b.route, path, verb).value
  {
    ScoreMeans(a.route, path, verb);
    ScoreMeans(b.route, path, verb);
    LengthInKey(a);
    LengthInKey(b);
    RanksAgree(Shape(a.route), Shape(b.route), a.key, b.key, path,
               Score(a.route, path, verb).value, Score(b.route, path, verb).value);
  }

  lemma {:induction false} RoutesHold(lines: seq<Line>)
    ensures forall l :: l in lines ==> l.route in RoutesOf(lines)
    ensures forall r :: r in RoutesOf(lines) ==> exists l :: l in lines && l.route == r
  {
    forall l | l in lines
      ensures l.route in RoutesOf(lines)
    {
      var i :| 0 <= i < |lines| && lines[i] == l;
      assert RoutesOf(lines)[i] == l.route;
    }
    forall r | r in RoutesOf(lines)
      ensures exists l :: l in lines && l.route == r
    {
      var i :| 0 <= i < |lines| && RoutesOf(lines)[i] == r;
      assert lines[i] in lines;
    }
  }

  /** Every line is emitted, and no prefix is so long that its score wraps. */
  ghost predicate Site(lines: seq<Line>) {
    Emission(lines) && forall l :: l in lines ==> Counted(l.route)
  }

  lemma {:induction false} FirstBeats(lines: seq<Line>, i: nat, l: Line, path: string, verb: string)
    requires Site(lines) && i < |lines| && l in lines && Catches(lines[i], path, verb) && Catches(l, path, verb)
    requires forall j :: 0 <= j < i ==> !Catches(lines[j], path, verb)
    requires !Outgrows(lines[i], l)
    ensures Score(l.route, path, verb).value <= Score(lines[i].route, path, verb).value
  {
    var j :| 0 <= j < |lines| && lines[j] == l;
    assert lines[i] in lines && i <= j;
    if i < j {
      EarlierScoresHigher(lines[i], lines[j], path, verb);
    }
  }

  /** Unless a prefix has outgrown an exact line, the first line that catches a request is at the top. */
  lemma {:induction false} FirstIsTop(lines: seq<Line>, i: nat, path: string, verb: string)
    requires Site(lines) && i < |lines| && Catches(lines[i], path, verb)
    requires forall j :: 0 <= j < i ==> !Catches(lines[j], path, verb)
    requires !Outgrown(lines, path, verb)
    ensures IsTop(RoutesOf(lines), lines[i].route, path, verb)
  {
    RoutesHold(lines);
    assert lines[i] in lines;
    forall r | r in RoutesOf(lines) && Score(r, path, verb).Some?
      ensures Score(r, path, verb).value <= Score(lines[i].route, path, verb).value
    {
      var l :| l in lines && l.route == r;
      FirstBeats(lines, i, l, path, verb);
    }
  }

  /** In whatever order the site then lists the routes, the router picks the kind and prefix of the first
      matching line. */
  ghost predicate Agrees(lines: seq<Line>, path: string, verb: string) {
    forall listed: seq<Route> :: multiset(listed) == multiset(RoutesOf(lines)) ==>
      SameShape(FirstMatch(lines, path, verb), Pick(listed, path, verb))
  }

  predicate SameShape(a: Option<Route>, b: Option<Route>) {
    (a.Some? <==> b.Some?) && (a.Some? ==> Shape(a.value) == Shape(b.value))
  }

  /** They agree exactly unless an exact line and a prefix of 999,000 bytes or more catch the request. */
  lemma {:induction false} EmissionAgreesIff(lines: seq<Line>, path: string, verb: string)
    requires Site(lines)
    ensures Agrees(lines, path, verb) <==> !Outgrown(lines, path, verb)
  {
    if Outgrown(lines, path, verb) {
      OutgrownDisagrees(lines, path, verb);
    } else {
      forall listed: seq<Route> | multiset(listed) == multiset(RoutesOf(lines))
        ensures SameShape(FirstMatch(lines, path, verb), Pick(listed, path, verb))
      {
        NotOutgrownAgrees(lines, listed, path, verb);
      }
    }
  }

  lemma {:induction false} NotOutgrownAgrees(lines: seq<Line>, listed: seq<Route>, path: string, verb: string)
    requires Site(lines) && !Outgrown(lines, path, verb) && multiset(listed) == multiset(RoutesOf(lines))
    ensures SameShape(FirstMatch(lines, path, verb), Pick(listed, path, verb))
  {
    var i := FirstMatchMeans(lines, path, verb);
    RoutesHold(lines);
    PermutedTop(RoutesOf(lines), listed, path, verb);
    PickMeans(RoutesOf(lines), path, verb);
    if FirstMatch(lines, path, verb).Some? {
      FirstIsTop(lines, i, path, verb);
      var p := Pick(listed, path, verb).value;
      var l :| l in lines && l.route == p;
      TopsScoreAlike(RoutesOf(lines), lines[i].route, p, path, verb);
      LinesShareShape(lines, lines[i], l, path, verb);
    }
  }

  lemma {:induction false} LinesShareShape(lines: seq<Line>, a: Line, b: Line, path: string, verb: string)
    requires Site(lines) && a in lines && b in lines && !Outgrown(lines, path, verb)
    requires Catches(a, path, verb) && Score(a.route, path, verb) == Score(b.route, path, verb)
    ensures Shape(a.route) == Shape(b.route)
  {
    ScoreMeans(a.route, path, verb);
    ScoreMeans(b.route, path, verb);
    assert !Outgrows(a, b) && !Outgrows(b, a);
    TiesExactly(Shape(a.route), Shape(b.route), path, Score(a.route, path, verb).value, Score(b.route, path, verb).value);
  }

  /** Past the limit some listing picks a prefix although an exact line comes first. */
  lemma {:induction false} OutgrownDisagrees(lines: seq<Line>, path: string, verb: string)
    requires Site(lines) && Outgrown(lines, path, verb)
    ensures !Agrees(lines, path, verb)
  {
    var a, b :| a in lines && b in lines && Catches(a, path, verb) && Catches(b, path, verb) && Outgrows(a, b);
    FirstIsExact(lines, a, path, verb);
    var t := TopPrefix(lines, b, path, verb);
    var listed := TopCanBePicked(RoutesOf(lines), t, path, verb);
    assert !SameShape(FirstMatch(lines, path, verb), Pick(listed, path, verb));
  }

  lemma {:induction false} FirstIsExact(lines: seq<Line>, a: Line, path: string, verb: string)
    requires Site(lines) && a in lines && Catches(a, path, verb) && a.route.kind == Exact
    ensures FirstMatch(lines, path, verb).Some? && FirstMatch(lines, path, verb).value.kind == Exact
  {
    var i := FirstMatchMeans(lines, path, verb);
    var j :| 0 <= j < |lines| && lines[j] == a;
    assert i <= j && lines[i] in lines;
    assert i < j ==> KeyLess(lines[i].key, lines[j].key);
  }

  lemma {:induction false} TopPrefix(lines: seq<Line>, b: Line, path: string, verb: string) returns (t: Route)
    requires Site(lines) && b in lines && Catches(b, path, verb)
    requires b.route.kind == Prefix && |PrefixOf(b.route.pattern)| >= LONG
    ensures IsTop(RoutesOf(lines), t, path, verb) && t.kind == Prefix
  {
    RoutesHold(lines);
    PickMeans(RoutesOf(lines), path, verb);
    t := Pick(RoutesOf(lines), path, verb).value;
    if t.kind != Prefix {
      LongScoresHigh(b.route, t, path, verb);
      AlsoTop(RoutesOf(lines), t, b.route, path, verb);
      t := b.route;
    }
  }

  lemma {:induction false} LongScoresHigh(r: Route, t: Route, path: string, verb: string)
    requires r.kind == Prefix && Counted(r) && |PrefixOf(r.pattern)| >= LONG && t.kind != Prefix
    requires Score(r, path, verb).Some? && Score(t, path, verb).Some?
    ensures Score(t, path, verb).value <= Score(r, path, verb).value
  {
    ScoreMeans(t, path, verb);
    ScoreMeans(r, path, verb);
  }

  lemma {:induction false} AlsoTop(routes: seq<Route>, t: Route, r: Route, path: string, verb: string)
    requires IsTop(routes, t, path, verb) && r in routes && Score(r, path, verb).Some?
    requires Score(t, path, verb).value <= Score(r, path, verb).value
    ensures IsTop(routes, r, path, verb)
  {}

  lemma {:induction false} ShortIsNotOutgrown(lines: seq<Line>, path: string, verb: string)
    requires forall l :: l in lines ==> Short(l.route)
    ensures !Outgrown(lines, path, verb) && forall l :: l in lines ==> Counted(l.route)
  {}

  // ---------- which of several lines of one shape ----------

  /** The line catches the request on the kind and text that the first match does. */
  predicate Shares(lines: seq<Line>, k: nat, path: string, verb: string) {
    && k < |lines| && Catches(lines[k], path, verb) && FirstMatch(lines, path, verb).Some?
    && Shape(lines[k].route) == Shape(FirstMatch(lines, path, verb).value)
  }

  /** Line `j` is the last of those lines. */
  ghost predicate LastSharing(lines: seq<Line>, j: nat, path: string, verb: string) {
    Shares(lines, j, path, verb) && forall k: nat :: j < k < |lines| ==> !Shares(lines, k, path, verb)
  }

  lemma {:induction false} LinesDiffer(lines: seq<Line>, i: nat, j: nat)
    requires Emission(lines) && i < |lines| && j < |lines| && lines[i].route == lines[j].route
    ensures i == j
  {
    assert lines[i] in lines && lines[j] in lines;
    KeyLessIrreflexive(lines[i].key);
  }

  /** Listed as emitted, the router answers with the last line that shares the shape of the first match. */
  lemma {:induction false} PicksLastSharing(lines: seq<Line>, path: string, verb: string) returns (j: nat)
    requires Site(lines) && !Outgrown(lines, path, verb) && FirstMatch(lines, path, verb).Some?
    ensures LastSharing(lines, j, path, verb) && Pick(RoutesOf(lines), path, verb) == Some(lines[j].route)
  {
    var routes := RoutesOf(lines);
    var scores := Scores(routes, path, verb);
    NotOutgrownAgrees(lines, routes, path, verb);
    LastMaxMeans(scores);
    j := LastMax(scores).value;
    forall k: nat | j < k < |lines|
      ensures !Shares(lines, k, path, verb)
    {
      assert scores[k] == Score(lines[k].route, path, verb) && scores[j] == Score(lines[j].route, path, verb);
      if Shares(lines, k, path, verb) {
        ShapeDecidesScore(lines[j].route, lines[k].route, path, verb);
      }
    }
  }

  /** So the router reaches the upstream of the first match exactly when no other line shares its shape. */
  lemma {:induction false} SameLineIff(lines: seq<Line>, path: string, verb: string)
    requires Site(lines) && !Outgrown(lines, path, verb)
    ensures Pick(RoutesOf(lines), path, verb) == FirstMatch(lines, path, verb) <==>
              forall i: nat, j: nat :: Shares(lines, i, path, verb) && Shares(lines, j, path, verb) ==> i == j
  {
    var i := FirstMatchMeans(lines, path, verb);
    if FirstMatch(lines, path, verb).Some? {
      var j := PicksLastSharing(lines, path, verb);
      assert Shares(lines, i, path, verb) && Shares(lines, j, path, verb);
      if lines[i].route == lines[j].route {
        LinesDiffer(lines, i, j);
      }
      assert forall k: nat :: Shares(lines, k, path, verb) ==> i <= k <= j;
    } else {
      NotOutgrownAgrees(lines, RoutesOf(lines), path, verb);
    }
  }

  /** In particular, on a site without rivals the first match is always the route picked. */
  lemma {:induction false} NoRivalsSameLine(lines: seq<Line>, path: string, verb: string)
    requires Site(lines) && !Outgrown(lines, path, verb)
    requires forall a, b :: a in lines && b in lines ==> !Rivals(a.route, b.route)
    ensures Pick(RoutesOf(lines), path, verb) == FirstMatch(lines, path, verb)
  {
    SameLineIff(lines, path, verb);
    forall i: nat, j: nat | Shares(lines, i, path, verb) && Shares(lines, j, path, verb)
      ensures i == j
    {
      if i != j {
        SharingAreRivals(lines, i, j, path, verb);
      }
    }
  }

  lemma {:induction false} SharingAreRivals(lines: seq<Line>, i: nat, j: nat, path: string, verb: string)
    requires Emission(lines) && Shares(lines, i, path, verb) && Shares(lines, j, path, verb) && i != j
    ensures lines[i] in lines && lines[j] in lines && Rivals(lines[i].route, lines[j].route)
  {
    if lines[i].route == lines[j].route {
      LinesDiffer(lines, i, j);
    }
  }

  /** Two lines, in key order: the first match leads to one upstream, the router to the other. */
  lemma {:induction false} UpstreamsDiffer()
    ensures var b, a := RouteLine(Prefix, "/api/*", None, "b"), RouteLine(Prefix, "/api/*", Some("POST"), "a");
            var lines := [b, a];
            && Emission(lines) && (forall l :: l in lines ==> Short(l.route))
            && FirstMatch(lines, "/api/x", "POST") == Some(b.route)
            && Pick(RoutesOf(lines), "/api/x", "POST") == Some(a.route)
  {
    var b, a := RouteLine(Prefix, "/api/*", None, "b"), RouteLine(Prefix, "/api/*", Some("POST"), "a");
    assert Upper("POST") == "POST";
    assert "/api/*"[..4] == "/api" && Glob("/api/*");
    OrderDecidesForRivals();
    assert Less("", "POST") && KeyLess(b.key, a.key);
    assert RoutesOf([b, a]) == [b.route, a.route];
    PickOfTwo(a.route, b.route, "/api/x", "POST");
  }

  // ---------- for the rules of a site ----------

  /** For all rules gathered on a site whose prefixes stay under 999,000 bytes. */
  lemma {:induction false} TranslationAgrees(rules: seq<Rule>, path: string, verb: string)
    requires forall l :: l in SiteLines(rules) ==> Short(l.route)
    ensures Agrees(SiteLines(rules), path, verb)
  {
    SiteLinesAreEmission(rules);
    ShortIsNotOutgrown(SiteLines(rules), path, verb);
    EmissionAgreesIff(SiteLines(rules), path, verb);
  }

  /** And listed as emitted, the router answers with the last line of that kind and prefix. */
  lemma {:induction false} TranslationPicksLast(rules: seq<Rule>, path: string, verb: string)
    requires forall l :: l in SiteLines(rules) ==> Short(l.route)
    ensures var lines := SiteLines(rules);
            var first, picked := FirstMatch(lines, path, verb), Pick(RoutesOf(lines), path, verb);
            && (first.None? <==> picked.None?)
            && (first.Some? ==> exists j: nat :: LastSharing(lines, j, path, verb) && picked == Some(lines[j].route))
            && (picked == first <==>
                  forall i: nat, j: nat :: Shares(lines, i, path, verb) && Shares(lines, j, path, verb) ==> i == j)
  {
    var lines := SiteLines(rules);
    SiteLinesAreEmission(rules);
    ShortIsNotOutgrown(lines, path, verb);
    NotOutgrownAgrees(lines, RoutesOf(lines), path, verb);
    SameLineIff(lines, path, verb);
    if FirstMatch(lines, path, verb).Some? {
      var j := PicksLastSharing(lines, path, verb);
      assert LastSharing(lines, j, path, verb);
    }
  }

  /** Through the whole lookup: on any host, the site chosen answers with the last line that shares the
      kind and prefix of its first match. */
  lemma {:induction false} LookupAgrees(rules: seq<seq<Rule>>, sites: seq<Routing.Site>, host: string, path: string, verb: string)
    requires |rules| == |sites| && PickSite(sites, host).Some?
    requires forall i :: 0 <= i < |sites| ==> sites[i].routes == RoutesOf(SiteLines(rules[i]))
    requires forall i, l :: 0 <= i < |sites| && l in SiteLines(rules[i]) ==> Short(l.route)
    ensures var lines := SiteLines(rules[PickSite(sites, host).value]);
            var first, picked := FirstMatch(lines, path, verb), Resolve(sites, host, path, verb);
            && SameShape(first, picked)
            && (first.Some? ==> exists j: nat :: LastSharing(lines, j, path, verb) && picked == Some(lines[j].route))
  {
    var i := PickSite(sites, host).value;
    TranslationAgrees(rules[i], path, verb);
    TranslationPicksLast(rules[i], path, verb);
  }
}
