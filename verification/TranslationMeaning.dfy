/** That translating rules into routes keeps their meaning: which requests are answered, and by whose
    upstream. */
module TranslationMeaning {
  import opened Basics
  import opened Routing
  import opened Translation

  // ---------- what the rules ask for ----------

  /** `value` is `t` and any number of slashes, `t` not ending in one. */
  ghost predicate Trimmed(value: string, t: string) {
    t <= value && !EndsIn(t, '/') && forall i :: |t| <= i < |value| ==> value[i] == '/'
  }

  /** The request is one the match asks for: its method in any case; the whole path for an exact match,
      whatever case that word is in; otherwise the path itself or anything below it, slashes at the
      end of the match not counting. */
  ghost predicate AsksFor(m: RuleMatch, path: string, verb: string) {
    && (m.verb.Some? ==> SameName(m.verb.value, verb))
    && (m.path.Some? ==>
          if SameName(m.path.value.matchType, "exact") then path == m.path.value.value
          else exists t :: Trimmed(m.path.value.value, t) && Below(t, path))
  }

  /** A rule without matches asks for everything. */
  ghost predicate RuleAsksFor(rule: Rule, path: string, verb: string) {
    rule.matches == [] || exists m :: m in rule.matches && AsksFor(m, path, verb)
  }

  /** The methods a translated rule may name: not empty. */
  ghost predicate ValidMethods(rule: Rule) {
    forall m :: m in rule.matches && m.verb.Some? ==> m.verb.value != ""
  }

  lemma {:induction false} TrimmedIs(value: string, t: string)
    ensures Trimmed(value, t) <==> t == TrimSlashes(value)
    decreases |value|
  {
    if EndsIn(value, '/') {
      var rest := value[..|value| - 1];
      TrimmedIs(rest, t);
      TrimmedIs(rest, TrimSlashes(rest));
      assert Trimmed(value, t) ==> t != value;
      assert Trimmed(rest, t) ==> t <= value;
      assert t <= value && t != value ==> t <= rest;
    } else if Trimmed(value, t) {
      assert |t| <= |value| && t == value[..|t|];
    }
  }

  lemma {:induction false} UpperFolds(v: string, verb: string)
    ensures SameName(Upper(v), verb) <==> SameName(v, verb)
  {
    forall c: char, d: char
      ensures SameLetter(UpperChar(c), d) <==> SameLetter(c, d)
    {}
    if SameName(Upper(v), verb) {
      forall i | 0 <= i < |v|
        ensures SameLetter(v[i], verb[i])
      {
        assert SameLetter(Upper(v)[i], verb[i]);
      }
    }
  }

  lemma {:induction false} GlobStandsFor(value: string, t: string)
    ensures StandsFor(PrefixToGlob(value), t) <==> Trimmed(value, t)
  {
    PrefixToGlobIsGlob(value);
    PrefixOfMeans(PrefixToGlob(value), t);
    TrimmedIs(value, t);
  }

  lemma {:induction false} LineVerb(kind: Kind, pattern: string, verb: Option<string>, upstream: string, asked: string)
    ensures var r := RouteLine(kind, pattern, verb, upstream).route;
            && (r.verb.Some? <==> verb.Some?)
            && (verb.Some? ==> (SameName(r.verb.value, asked) <==> SameName(verb.value, asked)))
  {
    if verb.Some? {
      UpperFolds(verb.value, asked);
    }
  }

  /** The line of a match takes exactly the requests the match asks for. */
  lemma {:induction false} LineTakes(m: RuleMatch, upstream: string, path: string, verb: string)
    ensures Takes(MatchLine(m, upstream).route, path, verb) <==> AsksFor(m, path, verb)
    ensures MatchLine(m, upstream).route.handler == upstream
  {
    if m.path.None? {
      LineVerb(Prefix, "/*", m.verb, upstream, verb);
      assert StandsFor("/*", "") by {
        assert "/*" == "" + "/*";
      }
    } else {
      PathLineTakes(m, upstream, path, verb);
    }
  }

  lemma {:induction false} PathLineTakes(m: RuleMatch, upstream: string, path: string, verb: string)
    requires m.path.Some?
    ensures Takes(MatchLine(m, upstream).route, path, verb) <==> AsksFor(m, path, verb)
  {
    var value := m.path.value.value;
    LowerFolds(m.path.value.matchType, "exact");
    assert Lower("exact") == "exact";
    if Lower(m.path.value.matchType) == "exact" {
      LineVerb(Exact, value, m.verb, upstream, verb);
    } else {
      LineVerb(Prefix, PrefixToGlob(value), m.verb, upstream, verb);
      forall t
        ensures StandsFor(PrefixToGlob(value), t) <==> Trimmed(value, t)
      {
        GlobStandsFor(value, t);
      }
    }
  }

  lemma {:induction false} RuleLinesTake(rule: Rule, path: string, verb: string)
    ensures RuleAsksFor(rule, path, verb) <==> exists l :: l in RuleLines(rule) && Takes(l.route, path, verb)
    ensures forall l :: l in RuleLines(rule) ==> l.route.handler == rule.upstream
  {
    hide Takes, AsksFor, MatchLine;
    if rule.matches == [] {
      CatchAllTakes(rule.upstream, path, verb);
      assert RuleLines(rule)[0] in RuleLines(rule);
    } else {
      forall m: RuleMatch
        ensures Takes(MatchLine(m, rule.upstream).route, path, verb) <==> AsksFor(m, path, verb)
        ensures MatchLine(m, rule.upstream).route.handler == rule.upstream
      {
        LineTakes(m, rule.upstream, path, verb);
      }
      forall i | 0 <= i < |rule.matches|
        ensures MatchLine(rule.matches[i], rule.upstream) in RuleLines(rule) && rule.matches[i] in rule.matches
      {
        assert RuleLines(rule)[i] == MatchLine(rule.matches[i], rule.upstream);
      }
    }
  }

  lemma {:induction false} CatchAllTakes(upstream: string, path: string, verb: string)
    ensures Takes(RouteLine(Prefix, "/*", None, upstream).route, path, verb)
  {
    assert StandsFor("/*", "") by {
      assert "/*" == "" + "/*";
    }
  }

  // ---------- no line is lost ----------

  ghost predicate VerbNamed(l: Line) {
    l.route.verb.Some? ==> l.route.verb.value != ""
  }

  lemma {:induction false} RuleVerbsNamed(rule: Rule)
    requires ValidMethods(rule)
    ensures forall l :: l in RuleLines(rule) ==> VerbNamed(l)
  {
    forall i | 0 <= i < |rule.matches|
      ensures VerbNamed(MatchLine(rule.matches[i], rule.upstream))
    {
      assert rule.matches[i] in rule.matches;
      assert rule.matches[i].verb.Some? ==> |Upper(rule.matches[i].verb.value)| == |rule.matches[i].verb.value|;
    }
  }

  /** Such lines with one key are the same line. */
  lemma {:induction false} KeyDecidesLine(a: Line, b: Line)
    requires Emitted(a) && Emitted(b) && VerbNamed(a) && VerbNamed(b) && a.key == b.key
    ensures a == b
  {}

  /** What a site is given stays: nothing else comes in, and every key remains. */
  lemma {:induction false} InsertAllHolds(lines: seq<Line>, more: seq<Line>)
    requires Emission(lines) && forall l :: l in more ==> Emitted(l)
    ensures forall x :: x in InsertAll(lines, more) ==> x in lines || x in more
    ensures forall x :: x in lines || x in more ==> HasKey(InsertAll(lines, more), x.key)
    decreases |more|
  {
    if more == [] {
    } else {
      var m, l := more[..|more| - 1], more[|more| - 1];
      var before := InsertAll(lines, m);
      assert more == m + [l];
      InsertAllHolds(lines, m);
      InsertAllEmission(lines, m);
      InsertHolds(before, l);
      forall x | x in lines || x in more
        ensures HasKey(InsertAll(lines, more), x.key)
      {
        KeyStays(before, l, x);
      }
    }
  }

  lemma {:induction false} KeyStays(before: seq<Line>, l: Line, x: Line)
    requires Sorted(before) && (x == l || HasKey(before, x.key))
    ensures HasKey(Insert(before, l), x.key)
  {
    InsertHolds(before, l);
    if x.key != l.key {
      var y :| y in before && y.key == x.key;
      assert y in Insert(before, l);
    } else {
      assert l in Insert(before, l);
    }
  }

  ghost predicate SomeRule(rules: seq<Rule>, l: Line) {
    exists i :: 0 <= i < |rules| && l in RuleLines(rules[i])
  }

  lemma {:induction false} SomeEarlierRule(rules: seq<Rule>, l: Line)
    requires rules != [] && (SomeRule(rules[..|rules| - 1], l) || l in RuleLines(rules[|rules| - 1]))
    ensures SomeRule(rules, l)
  {
    hide RuleLines;
    if SomeRule(rules[..|rules| - 1], l) {
      var i :| 0 <= i < |rules| - 1 && l in RuleLines(rules[..|rules| - 1][i]);
      assert l in RuleLines(rules[i]);
    }
  }

  lemma {:induction false} LastStep(rules: seq<Rule>)
    requires rules != []
    ensures var before, more := SiteLines(rules[..|rules| - 1]), RuleLines(rules[|rules| - 1]);
            && SiteLines(rules) == InsertAll(before, more)
            && (forall x :: x in SiteLines(rules) ==> x in before || x in more)
            && (forall x :: x in before || x in more ==> HasKey(SiteLines(rules), x.key))
  {
    SiteLinesAreEmission(rules[..|rules| - 1]);
    RuleLinesAreEmitted(rules[|rules| - 1]);
    InsertAllHolds(SiteLines(rules[..|rules| - 1]), RuleLines(rules[|rules| - 1]));
  }

  ghost predicate HasKey(lines: seq<Line>, key: RouteKey) {
    exists y :: y in lines && y.key == key
  }

  lemma {:induction false} SiteLinesFromRules(rules: seq<Rule>, l: Line)
    requires l in SiteLines(rules)
    ensures SomeRule(rules, l)
    decreases |rules|
  {
    hide RuleLines, InsertAll;
    LastStep(rules);
    if l in SiteLines(rules[..|rules| - 1]) {
      SiteLinesFromRules(rules[..|rules| - 1], l);
    }
    SomeEarlierRule(rules, l);
  }

  lemma {:induction false} KeysStay(rules: seq<Rule>, i: nat, l: Line)
    requires i < |rules| && l in RuleLines(rules[i])
    ensures HasKey(SiteLines(rules), l.key)
    decreases |rules|
  {
    hide RuleLines, InsertAll, SiteLines;
    LastStep(rules);
    var earlier := rules[..|rules| - 1];
    if i < |earlier| {
      assert earlier[i] == rules[i];
      KeysStay(earlier, i, l);
      var y :| y in SiteLines(earlier) && y.key == l.key;
    }
  }

  /** A site's lines are exactly the lines of its rules. */
  lemma {:induction false} SiteLinesAreTheRules(rules: seq<Rule>)
    requires forall i :: 0 <= i < |rules| ==> ValidMethods(rules[i])
    ensures forall l :: l in SiteLines(rules) <==> SomeRule(rules, l)
  {
    hide RuleLines, SiteLines;
    forall l | l in SiteLines(rules)
      ensures SomeRule(rules, l)
    {
      SiteLinesFromRules(rules, l);
    }
    forall l | SomeRule(rules, l)
      ensures l in SiteLines(rules)
    {
      var i :| 0 <= i < |rules| && l in RuleLines(rules[i]);
      RuleLineIsKept(rules, i, l);
    }
  }

  lemma {:induction false} RuleLineIsKept(rules: seq<Rule>, i: nat, l: Line)
    requires forall j :: 0 <= j < |rules| ==> ValidMethods(rules[j])
    requires i < |rules| && l in RuleLines(rules[i])
    ensures l in SiteLines(rules)
  {
    hide RuleLines, SiteLines, ValidMethods;
    KeysStay(rules, i, l);
    var y :| y in SiteLines(rules) && y.key == l.key;
    SiteLinesFromRules(rules, y);
    var j :| 0 <= j < |rules| && y in RuleLines(rules[j]);
    RuleLinesAreEmitted(rules[i]);
    RuleLinesAreEmitted(rules[j]);
    RuleVerbsNamed(rules[i]);
    RuleVerbsNamed(rules[j]);
    KeyDecidesLine(y, l);
  }

  /** Some rule with this upstream asks for the request. */
  ghost predicate Asked(rules: seq<Rule>, upstream: string, path: string, verb: string) {
    exists i :: 0 <= i < |rules| && rules[i].upstream == upstream && RuleAsksFor(rules[i], path, verb)
  }

  lemma {:induction false} LinesTakeWhatIsAsked(rules: seq<Rule>, upstream: string, path: string, verb: string)
    requires forall i :: 0 <= i < |rules| ==> ValidMethods(rules[i])
    ensures Asked(rules, upstream, path, verb) <==>
              exists l :: l in SiteLines(rules) && l.route.handler == upstream && Takes(l.route, path, verb)
  {
    hide Takes, RuleAsksFor, SiteLines, RuleLines;
    SiteLinesAreTheRules(rules);
    forall i | 0 <= i < |rules|
      ensures RuleAsksFor(rules[i], path, verb) <==> exists l :: l in RuleLines(rules[i]) && Takes(l.route, path, verb)
      ensures forall l :: l in RuleLines(rules[i]) ==> l.route.handler == rules[i].upstream
    {
      RuleLinesTake(rules[i], path, verb);
    }
    if Asked(rules, upstream, path, verb) {
      var i :| 0 <= i < |rules| && rules[i].upstream == upstream && RuleAsksFor(rules[i], path, verb);
      var l :| l in RuleLines(rules[i]) && Takes(l.route, path, verb);
      assert SomeRule(rules, l);
    }
  }

  /** The translation keeps its meaning: a site answers exactly the requests some rule of it asks for, and
      sends them to the upstream of such a rule. */
  lemma {:induction false} TranslationKeepsMeaning(rules: seq<Rule>, listed: seq<Route>, path: string, verb: string)
    requires forall i :: 0 <= i < |rules| ==> ValidMethods(rules[i])
    requires multiset(listed) == multiset(RoutesOf(SiteLines(rules)))
    ensures Pick(listed, path, verb).Some? <==> exists u :: Asked(rules, u, path, verb)
    ensures Pick(listed, path, verb).Some? ==> Asked(rules, Pick(listed, path, verb).value.handler, path, verb)
  {
    hide Takes, Asked, SiteLines, Pick;
    var lines := SiteLines(rules);
    PickTakes(listed, path, verb);
    SameElements(listed, RoutesOf(lines));
    RoutesHold(lines);
    forall u
      ensures Asked(rules, u, path, verb) <==>
                exists l :: l in lines && l.route.handler == u && Takes(l.route, path, verb)
    {
      LinesTakeWhatIsAsked(rules, u, path, verb);
    }
    if Pick(listed, path, verb).Some? {
      var p := Pick(listed, path, verb).value;
      var l :| l in lines && l.route == p;
      assert Asked(rules, p.handler, path, verb);
    } else {
      forall u
        ensures !Asked(rules, u, path, verb)
      {}
    }
  }
}
