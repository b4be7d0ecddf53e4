/** Requests, responses and the cache key. Header names are lower case and single-valued; what
    arrives in a request line or a header never contains a newline. */
module CacheKey {
  import opened Basics

  type Line = s: string | '\n' !in s

  type Headers = map<string, Line>

  datatype Config = Config(
    defaultTtl: nat,
    methods: seq<string>,
    vary: seq<Line>,
    staleWindow: nat,
    maxEntries: nat,
    maxBodyBytes: nat,
    maxTotalBytes: nat)

  datatype Request = Request(verb: Line, host: Line, target: Line, headers: Headers)

  /** A request's value for a field; a missing field counts as empty. */
  function FieldOf(h: Headers, name: string): Line {
    if Lower(name) in h then h[Lower(name)] else ""
  }

  function VaryPart(names: seq<Line>, h: Headers): string {
    if names == [] then ""
    else "\n" + (names[0] + "=" + FieldOf(h, names[0])) + VaryPart(names[1..], h)
  }

  /** method, host, target, then each configured field, on a line each. */
  function Key(cfg: Config, q: Request): string {
    q.verb + "\n" + (q.host + "\n" + (q.target + VaryPart(cfg.vary, q.headers)))
  }

  /** The source's loop over the configured fields. */
  method BuildKey(cfg: Config, q: Request) returns (key: string)
    ensures key == Key(cfg, q)
  {
    key := q.verb + "\n" + q.host + "\n" + q.target;
    var i := 0;
    assert cfg.vary[0..] == cfg.vary;
    assert key + VaryPart(cfg.vary, q.headers) == Key(cfg, q);
    while i < |cfg.vary|
      invariant 0 <= i <= |cfg.vary|
      invariant key + VaryPart(cfg.vary[i..], q.headers) == Key(cfg, q)
    {
      var name := cfg.vary[i];
      var v := FieldOf(q.headers, name);
      ghost var rest := VaryPart(cfg.vary[i + 1..], q.headers);
      assert cfg.vary[i..][1..] == cfg.vary[i + 1..];
      assert key + ("\n" + (name + "=" + v) + rest) == key + "\n" + name + "=" + v + rest;
      key := key + "\n" + name + "=" + v;
      i := i + 1;
    }
    assert key + "" == key;
  }

  // ---------- the key determines what it was built from ----------

  /** Texts that start with a line each can be equal only if the lines are. */
  lemma {:induction false} FirstLineIsUnique(a: Line, b: Line, x: string, y: string)
    requires a + "\n" + x == b + "\n" + y
    ensures a == b && x == y
  {
    var s, t := a + "\n" + x, b + "\n" + y;
    assert s[|a|] == '\n' && t[|b|] == '\n';
    assert forall i :: 0 <= i < |a| ==> s[i] == a[i] && a[i] != '\n';
    assert forall i :: 0 <= i < |b| ==> t[i] == b[i] && b[i] != '\n';
    assert |a| == |b|;
    assert a == s[..|a|] && b == t[..|b|];
    assert x == s[|a| + 1..] && y == t[|b| + 1..];
  }

  predicate NoCapitals(s: string) {
    forall i :: 0 <= i < |s| ==> !('A' <= s[i] <= 'Z')
  }

  /** Both give the field, named in any case, the same value, a missing one counting as empty. */
  ghost predicate SameValue(g: Headers, h: Headers, field: string) {
    forall n :: SameName(n, field) && NoCapitals(n) ==> (if n in g then g[n] else "") == (if n in h then h[n] else "")
  }

  ghost predicate SameFields(names: seq<string>, g: Headers, h: Headers) {
    forall i :: 0 <= i < |names| ==> SameValue(g, h, names[i])
  }

  lemma {:induction false} LowerNames(field: string, n: string)
    ensures SameName(n, field) && NoCapitals(n) <==> n == Lower(field)
  {
    if SameName(n, field) && NoCapitals(n) {
      assert forall i :: 0 <= i < |n| ==> n[i] == Lower(field)[i];
    }
  }

  lemma {:induction false} SameValueIff(g: Headers, h: Headers, field: string)
    ensures SameValue(g, h, field) <==> FieldOf(g, field) == FieldOf(h, field)
  {
    hide SameName, NoCapitals, Lower;
    LowerNames(field, Lower(field));
    if FieldOf(g, field) == FieldOf(h, field) {
      forall n | SameName(n, field) && NoCapitals(n)
        ensures (if n in g then g[n] else "") == (if n in h then h[n] else "")
      {
        LowerNames(field, n);
      }
    }
  }

  /** A line followed by the varying part tells both apart. */
  lemma {:induction false} VaryIsUnique(a: Line, b: Line, names: seq<Line>, g: Headers, h: Headers)
    requires a + VaryPart(names, g) == b + VaryPart(names, h)
    ensures a == b && SameFields(names, g, h)
    decreases |names|
  {
    hide SameValue, FieldOf;
    if names == [] {
      assert a + "" == a && b + "" == b;
    } else {
      var v, w := names[0] + "=" + FieldOf(g, names[0]), names[0] + "=" + FieldOf(h, names[0]);
      var x, y := VaryPart(names[1..], g), VaryPart(names[1..], h);
      assert a + ("\n" + v + x) == a + "\n" + (v + x) && b + ("\n" + w + y) == b + "\n" + (w + y);
      FirstLineIsUnique(a, b, v + x, w + y);
      VaryIsUnique(v, w, names[1..], g, h);
      var n := |names[0]| + 1;
      assert v[n..] == FieldOf(g, names[0]) && w[n..] == FieldOf(h, names[0]);
      SameValueIff(g, h, names[0]);
      forall i | 0 <= i < |names|
        ensures SameValue(g, h, names[i])
      {
        if i > 0 {
          assert names[i] == names[1..][i - 1];
        }
      }
    }
  }

  /** Requests share a key exactly if they agree on method, host, full target and every configured
      field, a missing one counting as empty. */
  lemma {:induction false} KeyIsExact(cfg: Config, p: Request, q: Request)
    ensures Key(cfg, p) == Key(cfg, q) <==>
            && p.verb == q.verb && p.host == q.host && p.target == q.target
            && SameFields(cfg.vary, p.headers, q.headers)
  {
    hide VaryPart, SameFields;
    if Key(cfg, p) == Key(cfg, q) {
      var x, y := p.target + VaryPart(cfg.vary, p.headers), q.target + VaryPart(cfg.vary, q.headers);
      FirstLineIsUnique(p.verb, q.verb, p.host + "\n" + x, q.host + "\n" + y);
      FirstLineIsUnique(p.host, q.host, x, y);
      VaryIsUnique(p.target, q.target, cfg.vary, p.headers, q.headers);
    }
    if SameFields(cfg.vary, p.headers, q.headers) {
      SameFieldsSameVary(cfg.vary, p.headers, q.headers);
    }
  }

  lemma {:induction false} SameFieldsSameVary(names: seq<Line>, g: Headers, h: Headers)
    requires SameFields(names, g, h)
    ensures VaryPart(names, g) == VaryPart(names, h)
    decreases |names|
  {
    hide SameValue, FieldOf;
    if names == [] {
    } else {
      assert forall i :: 0 <= i < |names[1..]| ==> names[1..][i] == names[i + 1];
      SameFieldsSameVary(names[1..], g, h);
      SameValueIff(g, h, names[0]);
    }
  }
}
