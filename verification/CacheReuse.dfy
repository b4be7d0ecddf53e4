/** The cache over whole runs: the accounting holds throughout, and a hit is always the latest
    accepted response for an equivalent request (sections 4.1 and 4.2 of RFC 9111). */
module CacheReuse {
  import opened Basics
  import opened CacheHeaders
  import opened CacheKey
  import opened CachePolicy
  import opened CacheStore

  datatype Op =
    | Put(q: Request, r: Response, now: Time, victims: seq<string>, stored: bool)
    | Get(q: Request, now: Time)
    | Purge(tag: string)
    | Clear

  ghost predicate Does(cfg: Config, s: Store, op: Op, s': Store) {
    match op
    case Put(q, r, now, victims, stored) => Stores(cfg, s, Key(cfg, q), r, now, victims, s', stored)
    case Get(q, now) => s' == Lookup(s, Key(cfg, q), now).0
    case Purge(tag) => s' == PurgeTag(s, tag)
    case Clear => s' == Store(map[], 0)
  }

  datatype Run = Run(cfg: Config, states: seq<Store>, ops: seq<Op>)

  ghost predicate IsRun(r: Run) {
    && |r.states| == |r.ops| + 1
    && r.states[0] == Store(map[], 0)
    && (forall i :: 0 <= i < |r.ops| ==> DoesAt(r, i))
  }

  ghost predicate DoesAt(r: Run, i: nat)
    requires |r.states| == |r.ops| + 1 && i < |r.ops|
  {
    Does(r.cfg, r.states[i], r.ops[i], r.states[i + 1])
  }

  // ---------- accounting ----------

  lemma {:induction false} DoesAccounted(cfg: Config, s: Store, op: Op, s': Store)
    requires Accounted(cfg, s) && Does(cfg, s, op, s')
    ensures Accounted(cfg, s')
  {
    match op
    case Put(q, r, now, victims, stored) => StoresExact(cfg, s, Key(cfg, q), r, now, victims, s', stored);
    case Get(q, now) =>
      RemoveExact(s, Key(cfg, q));
      CardinalityOfSubset(s'.entries.Keys, s.entries.Keys);
    case Purge(tag) =>
      PurgeExact(s, tag);
      CardinalityOfSubset(s'.entries.Keys, s.entries.Keys);
    case Clear =>
  }

  /** Along every run the total is the sum of the stored bodies and stays within the byte budget,
      and the entries stay within their cap. */
  lemma {:induction false} AccountingHolds(r: Run, k: nat)
    requires IsRun(r) && k < |r.states|
    ensures Accounted(r.cfg, r.states[k])
  {
    if k == 0 {
      EmptyAccounted(r.cfg);
    } else {
      AccountingHolds(r, k - 1);
      AccountedNext(r, k - 1);
    }
  }

  lemma {:induction false} EmptyAccounted(cfg: Config)
    ensures Accounted(cfg, Store(map[], 0))
  {}

  lemma {:induction false} AccountedNext(r: Run, i: nat)
    requires IsRun(r) && i < |r.ops| && Accounted(r.cfg, r.states[i])
    ensures Accounted(r.cfg, r.states[i + 1])
  {
    assert DoesAt(r, i);
    DoesAccounted(r.cfg, r.states[i], r.ops[i], r.states[i + 1]);
  }

  // ---------- reuse ----------

  /** The operation accepts a response under `key`. */
  predicate Accepts(cfg: Config, op: Op, key: string) {
    op.Put? && op.stored && Key(cfg, op.q) == key
  }

  /** The operation drops whatever carries these tags. */
  predicate Drops(op: Op, tags: seq<string>) {
    op.Clear? || (op.Purge? && op.tag in tags)
  }

  lemma {:induction false} EvictedKeeps(s: Store, victims: seq<string>, k: string)
    requires k in Evicted(s, victims).entries
    ensures k in s.entries && Evicted(s, victims).entries[k] == s.entries[k]
    decreases |victims|
  {
    if victims == [] {
    } else {
      EvictedKeeps(Remove(s, victims[0]), victims[1..], k);
    }
  }

  /** An entry present after an operation was just accepted, or was there before and not dropped. */
  lemma {:induction false} EntryAfter(cfg: Config, s: Store, op: Op, s': Store, key: string)
    requires Does(cfg, s, op, s') && key in s'.entries
    ensures if Accepts(cfg, op, key)
            then && CacheableTtl(cfg, op.r).Some? && s'.entries[key] == EntryOf(cfg, op.r, op.now)
            else && key in s.entries && s'.entries[key] == s.entries[key] && !Drops(op, s.entries[key].tags)
  {
    if op.Put? && CacheableTtl(cfg, op.r).Some? && |op.r.body| <= cfg.maxBodyBytes {
      var t := Remove(s, Key(cfg, op.q));
      if |t.entries| < cfg.maxEntries && key in Evicted(t, op.victims).entries {
        EvictedKeeps(t, op.victims, key);
      }
    }
  }

  /** The operation discards whatever came with these headers: a clear, or a purge of a tag they carry. */
  ghost predicate Discards(op: Op, h: Headers) {
    op.Clear? || (op.Purge? && Carries(h, op.tag))
  }

  lemma {:induction false} DropsIsDiscards(op: Op, h: Headers)
    ensures Drops(op, TagsOf(h)) <==> Discards(op, h)
  {
    if op.Purge? {
      TagsMean(h, op.tag);
    }
  }

  /** `ops[j]` accepted the entry under `key`, and nothing since replaced or discarded it. */
  ghost predicate LatestAccepted(r: Run, j: nat, k: nat, key: string)
    requires IsRun(r)
  {
    && j < k < |r.states| && Accepts(r.cfg, r.ops[j], key)
    && (forall i :: j < i < k ==>
          !Accepts(r.cfg, r.ops[i], key) && !Discards(r.ops[i], r.ops[j].r.headers))
  }

  /** `e` was stored under `key` by `ops[j]`, and nothing up to `k` replaced or dropped it. */
  ghost predicate HeldSince(r: Run, j: nat, k: nat, key: string, e: Entry)
    requires |r.states| == |r.ops| + 1
  {
    && j < k < |r.states| && Accepts(r.cfg, r.ops[j], key)
    && key in r.states[j + 1].entries && r.states[j + 1].entries[key] == e
    && (forall i :: j < i < k ==> !Accepts(r.cfg, r.ops[i], key) && !Drops(r.ops[i], e.tags))
  }

  lemma {:induction false} KeptOrAccepted(r: Run, i: nat, key: string)
    requires |r.states| == |r.ops| + 1 && i < |r.ops| && DoesAt(r, i) && key in r.states[i + 1].entries
    ensures !Accepts(r.cfg, r.ops[i], key) ==>
              && key in r.states[i].entries && r.states[i + 1].entries[key] == r.states[i].entries[key]
              && !Drops(r.ops[i], r.states[i].entries[key].tags)
  {
    EntryAfter(r.cfg, r.states[i], r.ops[i], r.states[i + 1], key);
  }

  lemma {:induction false} EntrySince(r: Run, k: nat, key: string) returns (j: nat)
    requires IsRun(r) && k < |r.states| && key in r.states[k].entries
    ensures HeldSince(r, j, k, key, r.states[k].entries[key])
    decreases k
  {
    assert DoesAt(r, k - 1);
    KeptOrAccepted(r, k - 1, key);
    if Accepts(r.cfg, r.ops[k - 1], key) {
      j := k - 1;
    } else {
      j := EntrySince(r, k - 1, key);
    }
  }

  lemma {:induction false} EntryIsLatest(r: Run, k: nat, key: string) returns (j: nat)
    requires IsRun(r) && k < |r.states| && key in r.states[k].entries
    ensures LatestAccepted(r, j, k, key) && CacheableTtl(r.cfg, r.ops[j].r).Some?
    ensures r.states[k].entries[key] == EntryOf(r.cfg, r.ops[j].r, r.ops[j].now)
  {
    j := EntrySince(r, k, key);
    assert DoesAt(r, j);
    EntryAfter(r.cfg, r.states[j], r.ops[j], r.states[j + 1], key);
    forall i | j < i < k
      ensures !Discards(r.ops[i], r.ops[j].r.headers)
    {
      DropsIsDiscards(r.ops[i], r.ops[j].r.headers);
    }
  }

  /** The two requests may share a response: same method, host and target, and the same value for
      every field the response varies on. */
  ghost predicate Interchangeable(p: Request, q: Request, h: Headers) {
    && p.verb == q.verb && p.host == q.host && p.target == q.target
    && (forall m :: Lists(TextOf(h, "vary"), m) ==> m != "*" && SameValue(p.headers, q.headers, m))
  }

  lemma {:induction false} SameValueOfSameName(g: Headers, h: Headers, a: string, b: string)
    requires SameName(a, b) && SameValue(g, h, a)
    ensures SameValue(g, h, b)
  {
    LowerFolds(a, b);
    SameValueIff(g, h, a);
    SameValueIff(g, h, b);
  }

  lemma {:induction false} KeyedFieldsAgree(cfg: Config, p: Request, q: Request, h: Headers)
    requires Key(cfg, p) == Key(cfg, q) && VaryCovered(cfg, h)
    ensures Interchangeable(p, q, h)
  {
    hide Lists, SameName, SameValue;
    KeyIsExact(cfg, p, q);
    forall m | Lists(TextOf(h, "vary"), m)
      ensures m != "*" && SameValue(p.headers, q.headers, m)
    {
      var j :| 0 <= j < |cfg.vary| && SameName(cfg.vary[j], m);
      SameValueOfSameName(p.headers, q.headers, cfg.vary[j], m);
    }
  }

  /** The hit is the response of `put`, in the last instant of its lifetime fresh and of its stale window
      servable. */
  ghost predicate Serves(cfg: Config, put: Op, now: Time, hit: Hit)
    requires put.Put?
  {
    && hit.status == put.r.status && hit.headers == put.r.headers && hit.body == put.r.body
    && hit.ageSecs == (if put.now <= now then now - put.now else 0) / 1_000_000_000
    && exists ttl: nat ::
         && Lifetime(cfg, put.r.headers, ttl)
         && now <= put.now + ttl + cfg.staleWindow
         && (hit.freshness.Fresh? <==> now <= put.now + ttl)
  }

  ghost predicate ServedFrom(r: Run, j: nat, k: nat, q: Request, now: Time, hit: Hit)
    requires IsRun(r)
  {
    && LatestAccepted(r, j, k, Key(r.cfg, q))
    && Interchangeable(r.ops[j].q, q, r.ops[j].r.headers) && Storable(r.ops[j].r)
    && Serves(r.cfg, r.ops[j], now, hit)
  }

  lemma {:induction false} EntryServes(cfg: Config, put: Op, now: Time)
    requires put.Put? && CacheableTtl(cfg, put.r).Some? && Servable(EntryOf(cfg, put.r, put.now), now)
    ensures Serves(cfg, put, now, HitOf(EntryOf(cfg, put.r, put.now), now))
  {
    hide Lifetime, CacheableTtl;
    TtlMeans(cfg, put.r, CacheableTtl(cfg, put.r).value);
  }

  /** Whenever a lookup hits, what it serves is the latest accepted store under that key, made for an
      interchangeable request, within its lifetime plus the stale window. */
  lemma {:induction false} HitIsReusable(r: Run, k: nat, q: Request, now: Time)
    requires IsRun(r) && k < |r.states| && Lookup(r.states[k], Key(r.cfg, q), now).1.Some?
    ensures exists j: nat :: j < k && ServedFrom(r, j, k, q, now, Lookup(r.states[k], Key(r.cfg, q), now).1.value)
  {
    var key := Key(r.cfg, q);
    var j := EntryIsLatest(r, k, key);
    AcceptedIsThere(r, j, key);
    hide CacheableTtl, Interchangeable, Serves, LatestAccepted;
    TtlMeans(r.cfg, r.ops[j].r, 0);
    KeyedFieldsAgree(r.cfg, r.ops[j].q, q, r.ops[j].r.headers);
    EntryServes(r.cfg, r.ops[j], now);
    assert ServedFrom(r, j, k, q, now, Lookup(r.states[k], key, now).1.value);
  }

  // ---------- the history decides ----------

  /** The operation takes the entry `e` under `key` out, other than by accepting a new one: a store of
      the key that clears the old entry before it is refused, an eviction, a lookup that finds it
      expired, a purge of one of its tags, or a clear. */
  ghost predicate TakesOut(cfg: Config, op: Op, key: string, e: Entry) {
    match op
    case Put(q, r, _, victims, stored) =>
      (Key(cfg, q) == key && !stored && Considered(cfg, r)) || key in victims
    case Get(q, now) => Key(cfg, q) == key && now > e.storedAt + e.ttl + e.staleWindow
    case Purge(tag) => tag in e.tags
    case Clear => true
  }

  /** The response gets past the checks made before the store is touched. */
  ghost predicate Considered(cfg: Config, r: Response) {
    Storable(r) && VaryCovered(cfg, r.headers) && |r.body| <= cfg.maxBodyBytes
  }

  /** What a store that does not accept the key keeps under it. */
  lemma {:induction false} PutKeeps(cfg: Config, s: Store, op: Op, s': Store, key: string)
    requires op.Put? && Does(cfg, s, op, s') && key in s.entries && !Accepts(cfg, op, key)
    ensures key in s'.entries <==> !TakesOut(cfg, op, key, s.entries[key])
    ensures key in s'.entries ==> s'.entries[key] == s.entries[key]
  {
    TtlMeans(cfg, op.r, 0);
    hide CacheableTtl, Storable, VaryCovered;
    if Considered(cfg, op.r) {
      var k := Key(cfg, op.q);
      var t := Remove(s, k);
      if |t.entries| < cfg.maxEntries {
        VictimsAreOldest(t, |op.r.body|, cfg.maxTotalBytes, op.victims, Evicted(t, op.victims));
        assert k == key ==> key !in t.entries;
        assert k != key ==> key in t.entries && t.entries[key] == s.entries[key];
      }
    }
  }

  /** An entry stays exactly until an operation accepts another under its key or takes it out. */
  lemma {:induction false} StaysUntilTakenOut(cfg: Config, s: Store, op: Op, s': Store, key: string)
    requires Does(cfg, s, op, s') && key in s.entries && !Accepts(cfg, op, key)
    ensures key in s'.entries <==> !TakesOut(cfg, op, key, s.entries[key])
    ensures key in s'.entries ==> s'.entries[key] == s.entries[key]
  {
    if op.Put? {
      PutKeeps(cfg, s, op, s', key);
    }
  }

  /** `ops[j]` accepted an entry under `key` and up to `k` nothing replaced it or took it out. */
  ghost predicate Lives(r: Run, j: nat, k: nat, key: string)
    requires |r.states| == |r.ops| + 1
  {
    && j < k < |r.states| && Accepts(r.cfg, r.ops[j], key)
    && forall i :: j < i < k ==> Spares(r, i, key, r.ops[j])
  }

  /** `ops[i]` neither replaces what `put` stored under `key` nor takes it out. */
  ghost predicate Spares(r: Run, i: nat, key: string, put: Op)
    requires i < |r.ops| && put.Put?
  {
    !Accepts(r.cfg, r.ops[i], key) && !Undoes(r.cfg, r.ops[i], key, put)
  }

  /** The operation takes out what `put` stored under `key`. */
  ghost predicate Undoes(cfg: Config, op: Op, key: string, put: Op)
    requires put.Put?
  {
    match op
    case Put(q, r, _, victims, stored) =>
      (Key(cfg, q) == key && !stored && Considered(cfg, r)) || key in victims
    case Get(q, now) => Key(cfg, q) == key && !InWindow(cfg, put, now)
    case Purge(tag) => Carries(put.r.headers, tag)
    case Clear => true
  }

  /** Whether what `put` stored still answers a lookup at `now`. */
  ghost predicate InWindow(cfg: Config, put: Op, now: Time)
    requires put.Put?
  {
    exists ttl: nat :: Lifetime(cfg, put.r.headers, ttl) && now <= put.now + ttl + cfg.staleWindow
  }

  lemma {:induction false} WindowMeans(cfg: Config, put: Op, now: Time)
    requires put.Put? && CacheableTtl(cfg, put.r).Some?
    ensures InWindow(cfg, put, now) <==> Servable(EntryOf(cfg, put.r, put.now), now)
  {
    hide Lifetime, CacheableTtl;
    var ttl := CacheableTtl(cfg, put.r).value;
    TtlMeans(cfg, put.r, ttl);
    if InWindow(cfg, put, now) {
      var other: nat :| Lifetime(cfg, put.r.headers, other) && now <= put.now + other + cfg.staleWindow;
      TtlMeans(cfg, put.r, other);
    }
  }

  lemma {:induction false} UndoesMeans(cfg: Config, op: Op, key: string, put: Op)
    requires put.Put? && CacheableTtl(cfg, put.r).Some?
    ensures Undoes(cfg, op, key, put) <==> TakesOut(cfg, op, key, EntryOf(cfg, put.r, put.now))
  {
    hide CacheableTtl, Considered, InWindow, Carries;
    match op
    case Get(q, now) => WindowMeans(cfg, put, now);
    case Purge(tag) => TagsMean(put.r.headers, tag);
    case _ =>
  }

  lemma {:induction false} SparedStays(r: Run, i: nat, key: string, put: Op)
    requires IsRun(r) && i < |r.ops| && put.Put? && CacheableTtl(r.cfg, put.r).Some?
    requires key in r.states[i].entries && r.states[i].entries[key] == EntryOf(r.cfg, put.r, put.now)
    ensures Spares(r, i, key, put) ==>
              key in r.states[i + 1].entries && r.states[i + 1].entries[key] == EntryOf(r.cfg, put.r, put.now)
    ensures !Spares(r, i, key, put) && key in r.states[i + 1].entries ==> Accepts(r.cfg, r.ops[i], key)
  {
    assert DoesAt(r, i);
    UndoesMeans(r.cfg, r.ops[i], key, put);
    hide CacheableTtl, Undoes, TakesOut;
    if !Accepts(r.cfg, r.ops[i], key) {
      StaysUntilTakenOut(r.cfg, r.states[i], r.ops[i], r.states[i + 1], key);
    }
  }

  lemma {:induction false} AcceptedIsThere(r: Run, j: nat, key: string)
    requires IsRun(r) && j < |r.ops| && Accepts(r.cfg, r.ops[j], key)
    ensures CacheableTtl(r.cfg, r.ops[j].r).Some? && key in r.states[j + 1].entries
    ensures r.states[j + 1].entries[key] == EntryOf(r.cfg, r.ops[j].r, r.ops[j].now)
  {
    assert DoesAt(r, j);
  }

  /** What lives is in the store as it was accepted. */
  lemma {:induction false} LivingIsThere(r: Run, j: nat, k: nat, key: string)
    requires IsRun(r) && Lives(r, j, k, key)
    ensures CacheableTtl(r.cfg, r.ops[j].r).Some? && key in r.states[k].entries
    ensures r.states[k].entries[key] == EntryOf(r.cfg, r.ops[j].r, r.ops[j].now)
    decreases k
  {
    hide CacheableTtl, Spares;
    AcceptedIsThere(r, j, key);
    if k > j + 1 {
      LivingIsThere(r, j, k - 1, key);
      SparedStays(r, k - 1, key, r.ops[j]);
    }
  }

  /** And what is in the store lives. */
  lemma {:induction false} ThereIsLiving(r: Run, k: nat, key: string) returns (j: nat)
    requires IsRun(r) && k < |r.states| && key in r.states[k].entries
    ensures Lives(r, j, k, key)
    decreases k
  {
    EmptyAtFirst(r, k, key);
    if Accepts(r.cfg, r.ops[k - 1], key) {
      j := k - 1;
      AcceptedIsThere(r, j, key);
    } else {
      CameFromBefore(r, k - 1, key);
      j := ThereIsLiving(r, k - 1, key);
      LivingIsThere(r, j, k - 1, key);
      LivesOn(r, j, k, key);
    }
  }

  lemma {:induction false} EmptyAtFirst(r: Run, k: nat, key: string)
    requires IsRun(r) && k < |r.states| && key in r.states[k].entries
    ensures k > 0
  {}

  lemma {:induction false} CameFromBefore(r: Run, i: nat, key: string)
    requires IsRun(r) && i < |r.ops| && key in r.states[i + 1].entries && !Accepts(r.cfg, r.ops[i], key)
    ensures key in r.states[i].entries && r.states[i + 1].entries[key] == r.states[i].entries[key]
  {
    assert DoesAt(r, i);
    KeptOrAccepted(r, i, key);
  }

  lemma {:induction false} LivesOn(r: Run, j: nat, k: nat, key: string)
    requires IsRun(r) && 0 < k < |r.states| && Lives(r, j, k - 1, key) && key in r.states[k].entries
    requires key in r.states[k - 1].entries && !Accepts(r.cfg, r.ops[k - 1], key)
    requires CacheableTtl(r.cfg, r.ops[j].r).Some?
    requires r.states[k - 1].entries[key] == EntryOf(r.cfg, r.ops[j].r, r.ops[j].now)
    ensures Lives(r, j, k, key)
  {
    hide CacheableTtl, Spares;
    SparedStays(r, k - 1, key, r.ops[j]);
  }

  lemma {:induction false} LivingAnswers(r: Run, j: nat, k: nat, key: string, now: Time)
    requires IsRun(r) && Lives(r, j, k, key)
    ensures key in r.states[k].entries
    ensures InWindow(r.cfg, r.ops[j], now) <==> Servable(r.states[k].entries[key], now)
  {
    LivingIsThere(r, j, k, key);
    WindowMeans(r.cfg, r.ops[j], now);
  }

  /** A lookup hits exactly when the history says so: some accepted store of the key was neither replaced,
      nor cleared by a refused store, evicted, expired at a lookup, purged nor cleared since, and is within
      its lifetime plus the stale window. */
  lemma {:induction false} HitIff(r: Run, k: nat, q: Request, now: Time)
    requires IsRun(r) && k < |r.states|
    ensures Lookup(r.states[k], Key(r.cfg, q), now).1.Some? <==>
              exists j: nat :: Lives(r, j, k, Key(r.cfg, q)) && InWindow(r.cfg, r.ops[j], now)
  {
    var key := Key(r.cfg, q);
    if key in r.states[k].entries {
      hide CacheableTtl, Lives, InWindow;
      var j := ThereIsLiving(r, k, key);
      LivingAnswers(r, j, k, key, now);
      forall i: nat | Lives(r, i, k, key)
        ensures InWindow(r.cfg, r.ops[i], now) <==> Servable(r.states[k].entries[key], now)
      {
        LivingAnswers(r, i, k, key, now);
      }
    } else {
      forall j: nat | Lives(r, j, k, key)
        ensures false
      {
        LivingIsThere(r, j, k, key);
      }
    }
  }

  // ---------- what is accepted ----------

  lemma {:induction false} FittingIsStored(cfg: Config, s: Store, q: Request, r: Response, now: Time, victims: seq<string>, s': Store, stored: bool)
    requires Accounted(cfg, s) && Considered(cfg, r)
    requires Stores(cfg, s, Key(cfg, q), r, now, victims, s', stored)
    ensures stored <==> |s.entries.Keys - {Key(cfg, q)}| < cfg.maxEntries && |r.body| <= cfg.maxTotalBytes
  {
    TtlMeans(cfg, r, 0);
    hide CacheableTtl, Storable, VaryCovered;
    var key := Key(cfg, q);
    var t := Remove(s, key);
    RemoveExact(s, key);
    assert t.entries.Keys == s.entries.Keys - {key};
    assert |t.entries| == |t.entries.Keys|;
    if |t.entries| < cfg.maxEntries {
      EvictsExact(t, |r.body|, cfg.maxTotalBytes, victims, Evicted(t, victims));
    }
  }

  /** In every run a response is accepted exactly if it may be stored, all it varies on is configured, its
      body is within both limits, and leaving out its own key there is room for one more entry. */
  lemma {:induction false} AcceptedIff(r: Run, i: nat)
    requires IsRun(r) && i < |r.ops| && r.ops[i].Put?
    ensures var op := r.ops[i];
            op.stored <==>
              && Storable(op.r) && VaryCovered(r.cfg, op.r.headers)
              && |op.r.body| <= r.cfg.maxBodyBytes && |op.r.body| <= r.cfg.maxTotalBytes
              && |r.states[i].entries.Keys - {Key(r.cfg, op.q)}| < r.cfg.maxEntries
  {
    var op := r.ops[i];
    assert DoesAt(r, i);
    AccountingHolds(r, i);
    TtlMeans(r.cfg, op.r, 0);
    hide Storable, VaryCovered, IsRun, Accounted;
    if Considered(r.cfg, op.r) {
      hide CacheableTtl, Stores;
      FittingIsStored(r.cfg, r.states[i], op.q, op.r, op.now, op.victims, r.states[i + 1], op.stored);
    }
  }
}
