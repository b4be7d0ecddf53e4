/** Which responses may be stored, and for how long. */
module CachePolicy {
  import opened Basics
  import opened CacheHeaders
  import opened CacheKey

  type Bytes = seq<bv8>
  type Time = nat

  /** Durations are counted in nanoseconds. */
  const SECOND: nat := 1_000_000_000

  datatype Response = Response(status: nat, headers: Headers, body: Bytes)

  // ---------- the decision ----------

  function CacheControl(h: Headers): map<string, string> {
    if "cache-control" in h then Directives(Split(h["cache-control"], ',')) else map[]
  }

  predicate Keyed(cfg: Config, field: string) {
    exists i :: 0 <= i < |cfg.vary| && Lower(cfg.vary[i]) == Lower(field)
  }

  /** Every field the response varies on is part of the key. */
  predicate VaryIsKeyed(cfg: Config, h: Headers) {
    "vary" in h ==>
      var fields := ListOf(h["vary"]);
      forall i :: 0 <= i < |fields| ==> fields[i] != "*" && Keyed(cfg, fields[i])
  }

  /** The freshness lifetime, or nothing if the response must not be stored. */
  function CacheableTtl(cfg: Config, r: Response): Option<nat> {
    var cc := CacheControl(r.headers);
    if r.status != 200 || "set-cookie" in r.headers || !VaryIsKeyed(cfg, r.headers) then None
    else if "no-store" in cc || "private" in cc then None
    else if "no-cache" in cc then Some(0)
    else
      var age := if "s-maxage" in cc then Some(cc["s-maxage"])
                 else if "max-age" in cc then Some(cc["max-age"]) else None;
      if age.Some? && ParseU64(age.value).Some? then Some(ParseU64(age.value).value * SECOND)
      else Some(cfg.defaultTtl)
  }

  function TagsOf(h: Headers): seq<string> {
    if "cache-tag" in h then ListOf(h["cache-tag"])
    else if "x-cache-tag" in h then ListOf(h["x-cache-tag"])
    else []
  }

  // ---------- what it means ----------

  /** The header's text; a missing one counts as empty. */
  function TextOf(h: Headers, name: string): string {
    if name in h then h[name] else ""
  }

  /** The response may be stored at all. */
  ghost predicate Storable(r: Response) {
    && r.status == 200 && "set-cookie" !in r.headers
    && !Mentions(TextOf(r.headers, "cache-control"), "no-store")
    && !Mentions(TextOf(r.headers, "cache-control"), "private")
  }

  /** Every field the response varies on is configured, in any case, and none is a star. */
  ghost predicate VaryCovered(cfg: Config, h: Headers) {
    forall m :: Lists(TextOf(h, "vary"), m) ==> m != "*" && Configured(cfg, m)
  }

  predicate Configured(cfg: Config, field: string) {
    exists i :: 0 <= i < |cfg.vary| && SameName(cfg.vary[i], field)
  }

  /** How long the response is fresh: not at all if it must be revalidated; else as many seconds as
      `s-maxage` spells, or `max-age` if that is not there; the default if neither is there, or the one
      there spells no number. */
  ghost predicate Lifetime(cfg: Config, h: Headers, ttl: nat) {
    var cc := TextOf(h, "cache-control");
    if Mentions(cc, "no-cache") then ttl == 0
    else if Mentions(cc, "s-maxage") then LastsAs(cfg, cc, "s-maxage", ttl)
    else if Mentions(cc, "max-age") then LastsAs(cfg, cc, "max-age", ttl)
    else ttl == cfg.defaultTtl
  }

  ghost predicate LastsAs(cfg: Config, cc: string, name: string, ttl: nat) {
    exists v :: Says(cc, name, v) && LastsSeconds(cfg, v, ttl)
  }

  ghost predicate LastsSeconds(cfg: Config, v: string, ttl: nat) {
    || (exists n: nat :: Spells(v, n) && ttl == n * 1_000_000_000)
    || ((forall n: nat :: !Spells(v, n)) && ttl == cfg.defaultTtl)
  }

  /** The response carries the tag: its `Cache-Tag` lists it, or `X-Cache-Tag` if that is not there. */
  ghost predicate Carries(h: Headers, tag: string) {
    if "cache-tag" in h then Lists(h["cache-tag"], tag) else Lists(TextOf(h, "x-cache-tag"), tag)
  }

  lemma {:induction false} NothingInEmpty()
    ensures ListOf("") == [] && Directives(Split("", ',')) == map[]
  {
    assert Split("", ',') == [""];
    assert [""][..0] == [] && [""][1..] == [];
    assert Trim("") == "";
  }

  lemma {:induction false} ControlMeans(h: Headers, name: string)
    requires name == Lower(name)
    ensures name in CacheControl(h) <==> Mentions(TextOf(h, "cache-control"), name)
  {
    NothingInEmpty();
    DirectivesMean(TextOf(h, "cache-control"), name);
  }

  lemma {:induction false} ControlValueMeans(h: Headers, name: string, v: string)
    requires name == Lower(name) && name in CacheControl(h)
    ensures CacheControl(h)[name] == v <==> Says(TextOf(h, "cache-control"), name, v)
  {
    NothingInEmpty();
    ValuesMean(TextOf(h, "cache-control"), name, v);
  }

  lemma {:induction false} KeyedMeans(cfg: Config, field: string)
    ensures Keyed(cfg, field) <==> Configured(cfg, field)
  {
    forall i | 0 <= i < |cfg.vary|
      ensures Lower(cfg.vary[i]) == Lower(field) <==> SameName(cfg.vary[i], field)
    {
      LowerFolds(cfg.vary[i], field);
    }
  }

  lemma {:induction false} VaryMeans(cfg: Config, h: Headers)
    ensures VaryIsKeyed(cfg, h) <==> VaryCovered(cfg, h)
  {
    hide ListOf, Lists, Keyed, Configured;
    NothingInEmpty();
    var s := TextOf(h, "vary");
    var fields := ListOf(s);
    forall m
      ensures m in fields <==> Lists(s, m)
      ensures Keyed(cfg, m) <==> Configured(cfg, m)
    {
      ListOfMeans(s, m);
      KeyedMeans(cfg, m);
    }
    if VaryIsKeyed(cfg, h) {
      forall m | Lists(s, m)
        ensures m != "*" && Configured(cfg, m)
      {
        var i :| 0 <= i < |fields| && fields[i] == m;
      }
    }
    if VaryCovered(cfg, h) && "vary" in h {
      forall i | 0 <= i < |fields|
        ensures fields[i] != "*" && Keyed(cfg, fields[i])
      {
        assert fields[i] in fields;
      }
    }
  }

  lemma {:induction false} LastsAsMeans(cfg: Config, h: Headers, name: string, ttl: nat)
    requires name == Lower(name) && name in CacheControl(h)
    ensures var age := ParseU64(CacheControl(h)[name]);
            LastsAs(cfg, TextOf(h, "cache-control"), name, ttl) <==>
              ttl == if age.Some? then age.value * SECOND else cfg.defaultTtl
  {
    hide Says, LastsSeconds, ParseU64, CacheControl;
    var cc, w := TextOf(h, "cache-control"), CacheControl(h)[name];
    forall v
      ensures Says(cc, name, v) <==> v == w
    {
      ControlValueMeans(h, name, v);
    }
    SecondsMean(cfg, w, ttl);
  }

  lemma {:induction false} SecondsMean(cfg: Config, v: string, ttl: nat)
    ensures var age := ParseU64(v);
            LastsSeconds(cfg, v, ttl) <==> ttl == if age.Some? then age.value * SECOND else cfg.defaultTtl
  {
    hide Spells, ParseU64;
    forall n: nat
      ensures Spells(v, n) <==> ParseU64(v) == Some(n)
    {
      NumberMeans(v, n);
    }
  }

  /** A response is stored exactly if it may be and all it varies on is configured, and then for the
      lifetime it has. */
  lemma {:induction false} TtlMeans(cfg: Config, r: Response, ttl: nat)
    ensures CacheableTtl(cfg, r).Some? <==> Storable(r) && VaryCovered(cfg, r.headers)
    ensures CacheableTtl(cfg, r).Some? ==> (CacheableTtl(cfg, r).value == ttl <==> Lifetime(cfg, r.headers, ttl))
  {
    hide Mentions, LastsAs, VaryCovered, VaryIsKeyed, CacheControl, ParseU64, TextOf;
    var h := r.headers;
    VaryMeans(cfg, h);
    ControlNames(h);
    if "s-maxage" in CacheControl(h) {
      LastsAsMeans(cfg, h, "s-maxage", ttl);
    }
    if "max-age" in CacheControl(h) {
      LastsAsMeans(cfg, h, "max-age", ttl);
    }
  }

  lemma {:induction false} ControlNames(h: Headers)
    ensures var cc := TextOf(h, "cache-control");
            && ("no-store" in CacheControl(h) <==> Mentions(cc, "no-store"))
            && ("private" in CacheControl(h) <==> Mentions(cc, "private"))
            && ("no-cache" in CacheControl(h) <==> Mentions(cc, "no-cache"))
            && ("s-maxage" in CacheControl(h) <==> Mentions(cc, "s-maxage"))
            && ("max-age" in CacheControl(h) <==> Mentions(cc, "max-age"))
    ensures Lower("s-maxage") == "s-maxage" && Lower("max-age") == "max-age"
  {
    hide CacheControl, Mentions, TextOf;
    assert Lower("no-store") == "no-store" && Lower("private") == "private" && Lower("no-cache") == "no-cache";
    assert Lower("s-maxage") == "s-maxage" && Lower("max-age") == "max-age";
    ControlMeans(h, "no-store");
    ControlMeans(h, "private");
    ControlMeans(h, "no-cache");
    ControlMeans(h, "s-maxage");
    ControlMeans(h, "max-age");
  }

  lemma {:induction false} TagsMean(h: Headers, tag: string)
    ensures tag in TagsOf(h) <==> Carries(h, tag)
  {
    hide ListOf, Lists;
    NothingInEmpty();
    ListOfMeans(TextOf(h, "cache-tag"), tag);
    ListOfMeans(TextOf(h, "x-cache-tag"), tag);
  }

  /** The gate loop over the response's `Vary` fields. */
  method VaryGate(cfg: Config, h: Headers) returns (ok: bool)
    ensures ok == VaryIsKeyed(cfg, h) && (ok <==> VaryCovered(cfg, h))
  {
    VaryMeans(cfg, h);
    hide VaryCovered;
    if "vary" !in h {
      return true;
    }
    var fields := ListOf(h["vary"]);
    for i := 0 to |fields|
      invariant forall j :: 0 <= j < i ==> fields[j] != "*" && Keyed(cfg, fields[j])
    {
      if fields[i] == "*" || !Keyed(cfg, fields[i]) {
        return false;
      }
    }
    return true;
  }
}
