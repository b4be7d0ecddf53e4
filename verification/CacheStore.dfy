/** The keyed store with its running byte total and oldest-first eviction. */
module CacheStore {
  import opened Basics
  import opened CacheKey
  import opened CachePolicy

  datatype Entry = Entry(
    status: nat,
    headers: Headers,
    body: Bytes,
    storedAt: Time,
    ttl: nat,
    staleWindow: nat,
    tags: seq<string>)

  type Entries = map<string, Entry>

  datatype Store = Store(entries: Entries, bytes: nat)

  // ---------- the byte total ----------

  ghost function AnyKey(m: Entries): (k: string)
    requires m != map[]
    ensures k in m
  {
    assert m.Keys != {};
    var k :| k in m.Keys;
    k
  }

  ghost function Total(m: Entries): nat
    decreases |m|
  {
    if m == map[] then 0 else |m[AnyKey(m)].body| + Total(m - {AnyKey(m)})
  }

  lemma {:induction false} TotalSplit(m: Entries, k: string)
    requires k in m
    ensures Total(m) == |m[k].body| + Total(m - {k})
    decreases |m|
  {
    var j := AnyKey(m);
    if j != k {
      TotalSplit(m - {j}, k);
      TotalSplit(m - {k}, j);
      assert m - {j} - {k} == m - {k} - {j};
    }
  }

  /** Fewer entries hold no more bytes. */
  lemma {:induction false} TotalMonotone(m: Entries, n: Entries)
    requires forall k :: k in m ==> k in n && n[k] == m[k]
    ensures Total(m) <= Total(n)
    decreases |m|
  {
    if m != map[] {
      var k := AnyKey(m);
      TotalSplit(m, k);
      TotalSplit(n, k);
      TotalMonotone(m - {k}, n - {k});
    }
  }

  // ---------- operations ----------

  function Remove(s: Store, k: string): Store {
    if k in s.entries then Store(s.entries - {k}, SatSub(s.bytes, |s.entries[k].body|)) else s
  }

  predicate Tagged(e: Entry, tag: string) {
    tag in e.tags
  }

  ghost function Freed(m: Entries, tag: string): nat {
    Total(map k | k in m && Tagged(m[k], tag) :: m[k])
  }

  ghost function PurgeTag(s: Store, tag: string): Store {
    Store(map k | k in s.entries && !Tagged(s.entries[k], tag) :: s.entries[k], SatSub(s.bytes, Freed(s.entries, tag)))
  }

  datatype Freshness = Fresh | Stale

  datatype Hit = Hit(status: nat, headers: Headers, body: Bytes, ageSecs: nat, freshness: Freshness)

  function Age(e: Entry, now: Time): nat {
    SatSub(now, e.storedAt)
  }

  predicate Servable(e: Entry, now: Time) {
    Age(e, now) <= e.ttl + e.staleWindow
  }

  function HitOf(e: Entry, now: Time): Hit {
    Hit(e.status, e.headers, e.body, Age(e, now) / SECOND, if Age(e, now) <= e.ttl then Fresh else Stale)
  }

  function Lookup(s: Store, k: string, now: Time): (Store, Option<Hit>) {
    if k !in s.entries then (s, None)
    else if Servable(s.entries[k], now) then (s, Some(HitOf(s.entries[k], now)))
    else (Remove(s, k), None)
  }

  ghost predicate Oldest(m: Entries, k: string) {
    k in m && forall j :: j in m ==> m[k].storedAt <= m[j].storedAt
  }

  /** Removing `victims` in this order, each the oldest then left, the body not fitting before any. */
  ghost predicate Evicting(s: Store, incoming: nat, budget: nat, victims: seq<string>, t: Store)
    decreases |victims|
  {
    if victims == [] then t == s
    else
      && s.bytes + incoming > budget && Oldest(s.entries, victims[0])
      && Evicting(Remove(s, victims[0]), incoming, budget, victims[1..], t)
  }

  /** The same until the body fits or nothing is left. */
  ghost predicate Evicts(s: Store, incoming: nat, budget: nat, victims: seq<string>, s': Store) {
    Evicting(s, incoming, budget, victims, s') && (s'.bytes + incoming <= budget || s'.entries == map[])
  }

  function EntryOf(cfg: Config, r: Response, now: Time): Entry
    requires CacheableTtl(cfg, r).Some?
  {
    Entry(r.status, r.headers, r.body, now, CacheableTtl(cfg, r).value, cfg.staleWindow, TagsOf(r.headers))
  }

  /** Store a response under `k`; `victims` is what eviction took. */
  ghost predicate Stores(cfg: Config, s: Store, k: string, r: Response, now: Time,
                         victims: seq<string>, s': Store, stored: bool)
  {
    var n, budget := |r.body|, cfg.maxTotalBytes;
    if CacheableTtl(cfg, r).None? || n > cfg.maxBodyBytes then
      s' == s && !stored && victims == []
    else
      var t := Remove(s, k);
      if |t.entries| >= cfg.maxEntries then
        s' == t && !stored && victims == []
      else
        var u := Evicted(t, victims);
        && Evicts(t, n, budget, victims, u)
        && stored == (u.bytes + n <= budget)
        && s' == if stored then Store(u.entries[k := EntryOf(cfg, r, now)], u.bytes + n) else u
  }

  function Evicted(s: Store, victims: seq<string>): Store
    decreases |victims|
  {
    if victims == [] then s else Evicted(Remove(s, victims[0]), victims[1..])
  }

  lemma {:induction false} EvictsIsEvicted(s: Store, incoming: nat, budget: nat, victims: seq<string>, s': Store)
    requires Evicts(s, incoming, budget, victims, s')
    ensures s' == Evicted(s, victims)
    decreases |victims|
  {
    if victims == [] {
    } else {
      EvictsIsEvicted(Remove(s, victims[0]), incoming, budget, victims[1..], s');
    }
  }

  // ---------- accounting ----------

  /** The running total is the sum of the stored bodies. */
  ghost predicate Exact(s: Store) {
    s.bytes == Total(s.entries)
  }

  ghost predicate Accounted(cfg: Config, s: Store) {
    Exact(s) && s.bytes <= cfg.maxTotalBytes && |s.entries| <= cfg.maxEntries
  }

  /** Removing never runs the subtraction into its floor. */
  lemma {:induction false} RemoveExact(s: Store, k: string)
    requires Exact(s)
    ensures Exact(Remove(s, k)) && Remove(s, k).bytes <= s.bytes
    ensures k in s.entries ==>
              && Remove(s, k).bytes + |s.entries[k].body| == s.bytes
              && |Remove(s, k).entries| == |s.entries| - 1
  {
    if k in s.entries {
      TotalSplit(s.entries, k);
      assert (s.entries - {k}).Keys == s.entries.Keys - {k};
    }
  }

  /** What is taken out and what stays add up. */
  lemma {:induction false} TotalParts(m: Entries, gone: Entries)
    requires forall k :: k in gone ==> k in m && m[k] == gone[k]
    ensures Total(m) == Total(gone) + Total(m - gone.Keys)
    decreases |gone|
  {
    if gone == map[] {
      assert m - gone.Keys == m;
    } else {
      var k := AnyKey(gone);
      TotalSplit(gone, k);
      TotalSplit(m, k);
      TotalParts(m - {k}, gone - {k});
      WithoutOne(m, gone, k);
    }
  }

  lemma {:induction false} WithoutOne(m: Entries, gone: Entries, k: string)
    requires k in gone
    ensures (m - {k}) - (gone - {k}).Keys == m - gone.Keys
  {
    assert (gone - {k}).Keys == gone.Keys - {k};
  }

  lemma {:induction false} PurgeExact(s: Store, tag: string)
    requires Exact(s)
    ensures Exact(PurgeTag(s, tag)) && PurgeTag(s, tag).bytes + Freed(s.entries, tag) == s.bytes
    ensures PurgeTag(s, tag).entries.Keys <= s.entries.Keys
  {
    var gone: Entries := map k | k in s.entries && Tagged(s.entries[k], tag) :: s.entries[k];
    TotalParts(s.entries, gone);
    assert s.entries - gone.Keys == PurgeTag(s, tag).entries;
  }

  /** Eviction keeps the total exact, and for a body within the budget it makes room. */
  lemma {:induction false} EvictsExact(s: Store, incoming: nat, budget: nat, victims: seq<string>, s': Store)
    requires Exact(s) && Evicts(s, incoming, budget, victims, s')
    ensures Exact(s') && s'.bytes <= s.bytes && s'.entries.Keys <= s.entries.Keys
    ensures incoming <= budget ==> s'.bytes + incoming <= budget
    decreases |victims|
  {
    if victims == [] {
    } else {
      RemoveExact(s, victims[0]);
      EvictsExact(Remove(s, victims[0]), incoming, budget, victims[1..], s');
    }
  }

  lemma {:induction false} CardinalityOfSubset(a: set<string>, b: set<string>)
    requires a <= b
    ensures |a| <= |b|
  {
    assert b == a + (b - a);
  }

  lemma {:induction false} StoresExact(cfg: Config, s: Store, k: string, r: Response, now: Time, victims: seq<string>, s': Store, stored: bool)
    requires Accounted(cfg, s) && Stores(cfg, s, k, r, now, victims, s', stored)
    ensures Accounted(cfg, s')
  {
    if CacheableTtl(cfg, r).Some? && |r.body| <= cfg.maxBodyBytes {
      var t := Remove(s, k);
      RemoveExact(s, k);
      CardinalityOfSubset(t.entries.Keys, s.entries.Keys);
      if |t.entries| < cfg.maxEntries {
        var u := Evicted(t, victims);
        EvictsExact(t, |r.body|, cfg.maxTotalBytes, victims, u);
        CardinalityOfSubset(u.entries.Keys, t.entries.Keys);
        if stored {
          InsertExact(u, k, EntryOf(cfg, r, now));
        }
      }
    }
  }

  lemma {:induction false} InsertExact(u: Store, k: string, e: Entry)
    requires Exact(u) && k !in u.entries
    ensures Exact(Store(u.entries[k := e], u.bytes + |e.body|)) && |u.entries[k := e]| == |u.entries| + 1
  {
    var m := u.entries[k := e];
    TotalSplit(m, k);
    assert m - {k} == u.entries;
    assert m.Keys == u.entries.Keys + {k};
  }

  // ---------- eviction takes no more than it must ----------

  /** Nothing outside `d` is older than anything in it. */
  ghost predicate OldestFirst(m: Entries, d: set<string>) {
    d <= m.Keys && forall j, k :: k in d && j in m && m[j].storedAt < m[k].storedAt ==> j in d
  }

  /** Nor as old. */
  ghost predicate WholeInstants(m: Entries, d: set<string>) {
    d <= m.Keys && forall j, k :: k in d && j in m && m[j].storedAt <= m[k].storedAt ==> j in d
  }

  lemma {:induction false} LeastOfWholeInstants(s: Store, incoming: nat, budget: nat, victims: seq<string>, s': Store, d: set<string>)
    requires Exact(s) && Evicts(s, incoming, budget, victims, s')
    requires WholeInstants(s.entries, d) && Total(s.entries - d) + incoming <= budget
    ensures forall i :: 0 <= i < |victims| ==> victims[i] in d
    decreases |victims|
  {
    if victims == [] {
    } else {
      var v := victims[0];
      OldestIsIn(s, incoming, budget, v, d);
      RemoveExact(s, v);
      var t := Remove(s, v);
      WithoutOldest(s.entries, d, v);
      LeastOfWholeInstants(t, incoming, budget, victims[1..], s', d - {v});
      forall i | 0 <= i < |victims|
        ensures victims[i] in d
      {
        if i > 0 {
          assert victims[i] == victims[1..][i - 1];
        }
      }
    }
  }

  lemma {:induction false} WithoutOldest(m: Entries, d: set<string>, v: string)
    requires WholeInstants(m, d) && v in d
    ensures WholeInstants(m - {v}, d - {v}) && (m - {v}) - (d - {v}) == m - d
  {}

  lemma {:induction false} OldestIsIn(s: Store, incoming: nat, budget: nat, v: string, d: set<string>)
    requires Exact(s) && s.bytes + incoming > budget && Oldest(s.entries, v)
    requires WholeInstants(s.entries, d) && Total(s.entries - d) + incoming <= budget
    ensures v in d
  {
    assert d == {} ==> s.entries - d == s.entries;
    if d != {} {
      var k :| k in d;
      assert s.entries[v].storedAt <= s.entries[k].storedAt;
    }
  }

  /** `d` with everything stored at the same instants. */
  ghost function Filled(m: Entries, d: set<string>): set<string>
    requires d <= m.Keys
  {
    set j | j in m && exists k :: k in d && m[j].storedAt <= m[k].storedAt
  }

  /** However room could be made oldest first, eviction takes from that set, or something stored at the
      very instant of one of its entries. */
  lemma {:induction false} EvictionIsLeast(s: Store, incoming: nat, budget: nat, victims: seq<string>, s': Store, d: set<string>)
    requires Exact(s) && Evicts(s, incoming, budget, victims, s')
    requires OldestFirst(s.entries, d) && Total(s.entries - d) + incoming <= budget
    ensures forall v :: v in victims ==>
              v in s.entries && (v in d || exists k :: k in d && s.entries[k].storedAt == s.entries[v].storedAt)
  {
    var f := Filled(s.entries, d);
    TotalMonotone(s.entries - f, s.entries - d);
    LeastOfWholeInstants(s, incoming, budget, victims, s', f);
    forall v | v in victims
      ensures v in s.entries && (v in d || exists k :: k in d && s.entries[k].storedAt == s.entries[v].storedAt)
    {
      var i :| 0 <= i < |victims| && victims[i] == v;
      assert v in f;
      var k :| k in d && s.entries[v].storedAt <= s.entries[k].storedAt;
      assert s.entries[v].storedAt < s.entries[k].storedAt ==> v in d;
    }
  }

  // ---------- when it takes the fewest ----------

  ghost function From(m: Entries, t: Time): Entries {
    map k | k in m && m[k].storedAt >= t :: m[k]
  }

  ghost function Newer(m: Entries, t: Time): Entries {
    map k | k in m && m[k].storedAt > t :: m[k]
  }

  /** Removing `d` makes room, and nothing outside it is older than anything in it. */
  ghost predicate MakesRoom(m: Entries, d: set<string>, incoming: nat, budget: nat) {
    OldestFirst(m, d) && Total(m - d) + incoming <= budget
  }

  /** The victims are among what any way of making room oldest first removes. */
  ghost predicate Least(m: Entries, victims: seq<string>, incoming: nat, budget: nat) {
    forall d :: MakesRoom(m, d, incoming, budget) ==> Among(victims, d)
  }

  ghost predicate Among(victims: seq<string>, d: set<string>) {
    forall v :: v in victims ==> v in d
  }

  /** The entry fits beside the body and everything newer. */
  ghost predicate Spared(m: Entries, v: string, incoming: nat, budget: nat)
    requires v in m
  {
    Total(Newer(m, m[v].storedAt)) + |m[v].body| + incoming <= budget
  }

  lemma {:induction false} VictimsWereThere(s: Store, incoming: nat, budget: nat, victims: seq<string>, s': Store)
    requires Evicting(s, incoming, budget, victims, s')
    ensures forall v :: v in victims ==> v in s.entries
    decreases |victims|
  {
    if victims == [] {
    } else {
      VictimsWereThere(Remove(s, victims[0]), incoming, budget, victims[1..], s');
      assert victims == [victims[0]] + victims[1..];
    }
  }

  /** All as old as `v` but not `v` itself: what is left is `v` and everything newer. */
  lemma {:induction false} SparingMakesRoom(m: Entries, v: string, incoming: nat, budget: nat) returns (d: set<string>)
    requires v in m && Spared(m, v, incoming, budget)
    ensures MakesRoom(m, d, incoming, budget) && v !in d
  {
    d := set k | k in m && m[k].storedAt <= m[v].storedAt && k != v;
    TotalSplit(m - d, v);
    assert (m - d) - {v} == Newer(m, m[v].storedAt);
  }

  /** Whatever makes room without `v` leaves `v` and everything newer. */
  lemma {:induction false} LeftOutIsSpared(m: Entries, v: string, d: set<string>, incoming: nat, budget: nat)
    requires v in m && v !in d && MakesRoom(m, d, incoming, budget)
    ensures Spared(m, v, incoming, budget)
  {
    var newer := Newer(m, m[v].storedAt);
    TotalSplit(m - d, v);
    TotalMonotone(newer, (m - d) - {v});
  }

  /** An eviction is least exactly when none of its victims would have fitted beside everything newer. */
  lemma {:induction false} LeastIff(s: Store, incoming: nat, budget: nat, victims: seq<string>, s': Store)
    requires Evicts(s, incoming, budget, victims, s')
    ensures Least(s.entries, victims, incoming, budget) <==>
              forall v :: v in victims ==> v in s.entries && !Spared(s.entries, v, incoming, budget)
  {
    VictimsWereThere(s, incoming, budget, victims, s');
    if Least(s.entries, victims, incoming, budget) {
      forall v | v in victims
        ensures !Spared(s.entries, v, incoming, budget)
      {
        if Spared(s.entries, v, incoming, budget) {
          var d := SparingMakesRoom(s.entries, v, incoming, budget);
        }
      }
    } else {
      var d :| MakesRoom(s.entries, d, incoming, budget) && !Among(victims, d);
      var v :| v in victims && v !in d;
      LeftOutIsSpared(s.entries, v, d, incoming, budget);
    }
  }

  // ---------- told before the call ----------

  /** Everything from `t` on does not fit beside the body, everything after `t` does. */
  ghost predicate Boundary(m: Entries, t: Time, incoming: nat, budget: nat) {
    Total(From(m, t)) + incoming > budget && Total(Newer(m, t)) + incoming <= budget
  }

  lemma {:induction false} BoundaryIsUnique(m: Entries, t: Time, u: Time, incoming: nat, budget: nat)
    requires Boundary(m, t, incoming, budget) && Boundary(m, u, incoming, budget)
    ensures t == u
  {
    if t < u {
      TotalMonotone(From(m, u), Newer(m, t));
    } else if u < t {
      TotalMonotone(From(m, t), Newer(m, u));
    }
  }

  /** Everything stored at or after a victim's instant does not fit. */
  lemma {:induction false} FromVictimDoesNotFit(s: Store, incoming: nat, budget: nat, victims: seq<string>, s': Store, v: string)
    requires Exact(s) && Evicting(s, incoming, budget, victims, s') && v in victims && v in s.entries
    ensures Total(From(s.entries, s.entries[v].storedAt)) + incoming > budget
    decreases |victims|
  {
    var m, w := s.entries, victims[0];
    if v == w {
      assert From(m, m[v].storedAt) == m;
    } else {
      RemoveExact(s, w);
      assert v in victims[1..];
      FromVictimDoesNotFit(Remove(s, w), incoming, budget, victims[1..], s', v);
      TotalMonotone(From(m - {w}, m[v].storedAt), From(m, m[v].storedAt));
    }
  }

  lemma {:induction false} OldestExists(m: Entries) returns (k: string)
    requires m != map[]
    ensures Oldest(m, k)
    decreases |m|
  {
    var any := AnyKey(m);
    var rest := m - {any};
    k := any;
    if rest != map[] {
      var j := OldestExists(rest);
      OlderOfTwo(m, any, j);
      k := if m[j].storedAt < m[any].storedAt then j else any;
    } else {
      OnlyOne(m, any);
    }
  }

  lemma {:induction false} OnlyOne(m: Entries, k: string)
    requires k in m && m - {k} == map[]
    ensures Oldest(m, k)
  {
    forall i | i in m
      ensures i == k
    {
      assert i in m - {k} <==> i != k;
    }
  }

  lemma {:induction false} OlderOfTwo(m: Entries, k: string, j: string)
    requires k in m && Oldest(m - {k}, j)
    ensures Oldest(m, if m[j].storedAt < m[k].storedAt then j else k)
  {
    forall i | i in m && i != k
      ensures m[j].storedAt <= m[i].storedAt
    {
      assert i in m - {k};
    }
  }

  lemma {:induction false} EvictionExists(s: Store, incoming: nat, budget: nat) returns (victims: seq<string>, s': Store)
    ensures Evicts(s, incoming, budget, victims, s')
    decreases |s.entries|
  {
    if s.bytes + incoming <= budget || s.entries == map[] {
      victims, s' := [], s;
    } else {
      var k := OldestExists(s.entries);
      victims, s' := EvictionExists(Remove(s, k), incoming, budget);
      victims := [k] + victims;
    }
  }

  /** If everything from its instant on does not fit, some eviction takes the entry. */
  lemma {:induction false} CanBeTaken(s: Store, incoming: nat, budget: nat, k: string) returns (victims: seq<string>, s': Store)
    requires Exact(s) && k in s.entries && Total(From(s.entries, s.entries[k].storedAt)) + incoming > budget
    ensures Evicts(s, incoming, budget, victims, s') && k in victims
    decreases |s.entries|
  {
    var m := s.entries;
    TotalMonotone(From(m, m[k].storedAt), m);
    var j := OldestExists(m);
    if m[j].storedAt == m[k].storedAt {
      victims, s' := EvictionExists(Remove(s, k), incoming, budget);
      victims := [k] + victims;
    } else {
      RemoveExact(s, j);
      assert From(m - {j}, m[k].storedAt) == From(m, m[k].storedAt);
      victims, s' := CanBeTaken(Remove(s, j), incoming, budget, k);
      victims := [j] + victims;
    }
  }

  ghost predicate EveryEvictionIsLeast(s: Store, incoming: nat, budget: nat) {
    forall victims, s' :: Evicts(s, incoming, budget, victims, s') ==> Least(s.entries, victims, incoming, budget)
  }

  /** Whatever order eviction takes ties in, it is least exactly when no entry of the boundary instant fits
      beside everything newer. */
  lemma {:induction false} EveryEvictionIsLeastIff(s: Store, incoming: nat, budget: nat)
    requires Exact(s)
    ensures EveryEvictionIsLeast(s, incoming, budget) <==>
              forall k :: k in s.entries && Boundary(s.entries, s.entries[k].storedAt, incoming, budget) ==>
                !Spared(s.entries, k, incoming, budget)
  {
    var m := s.entries;
    forall k | k in m && Boundary(m, m[k].storedAt, incoming, budget) && Spared(m, k, incoming, budget)
      ensures !EveryEvictionIsLeast(s, incoming, budget)
    {
      var victims, s' := CanBeTaken(s, incoming, budget, k);
      LeastIff(s, incoming, budget, victims, s');
    }
    forall victims, s' | Evicts(s, incoming, budget, victims, s') && !Least(m, victims, incoming, budget)
      ensures exists k :: k in m && Boundary(m, m[k].storedAt, incoming, budget) && Spared(m, k, incoming, budget)
    {
      LeastIff(s, incoming, budget, victims, s');
      VictimsWereThere(s, incoming, budget, victims, s');
      var v :| v in victims && Spared(m, v, incoming, budget);
      FromVictimDoesNotFit(s, incoming, budget, victims, s', v);
      assert Boundary(m, m[v].storedAt, incoming, budget);
    }
  }

  /** No two entries were stored at the same instant. */
  ghost predicate DistinctTimes(m: Entries) {
    forall j, k :: j in m && k in m && m[j].storedAt == m[k].storedAt ==> j == k
  }

  /** In particular between distinct instants. */
  lemma {:induction false} EvictionIsFewest(s: Store, incoming: nat, budget: nat)
    requires Exact(s) && DistinctTimes(s.entries)
    ensures EveryEvictionIsLeast(s, incoming, budget)
  {
    var m := s.entries;
    hide Boundary, Spared, EveryEvictionIsLeast, Exact;
    forall k | k in m && Boundary(m, m[k].storedAt, incoming, budget)
      ensures !Spared(m, k, incoming, budget)
    {
      AloneAtItsInstant(m, k, incoming, budget);
    }
    EveryEvictionIsLeastIff(s, incoming, budget);
  }

  lemma {:induction false} AloneAtItsInstant(m: Entries, k: string, incoming: nat, budget: nat)
    requires DistinctTimes(m) && k in m && Boundary(m, m[k].storedAt, incoming, budget)
    ensures !Spared(m, k, incoming, budget)
  {
    TotalSplit(From(m, m[k].storedAt), k);
    assert From(m, m[k].storedAt) - {k} == Newer(m, m[k].storedAt);
  }

  // ---------- what ties may cost ----------

  ghost predicate Alike(m: Entries, t: Time) {
    forall k :: k in m ==> |m[k].body| == 1 && m[k].storedAt == t
  }

  lemma {:induction false} TotalOfAlike(m: Entries, t: Time)
    requires Alike(m, t)
    ensures Total(m) == |m|
    decreases |m|
  {
    if m == map[] {
    } else {
      var k := AnyKey(m);
      TotalOfAlike(m - {k}, t);
      assert (m - {k}).Keys == m.Keys - {k};
    }
  }

  /** The small entries may all go while the big one, as old, stays. */
  lemma {:induction false} SmallOnesGo(m: Entries, k: string, big: Entry, n: nat) returns (victims: seq<string>)
    requires Alike(m, big.storedAt) && k !in m && |big.body| == n
    ensures |victims| == |m|
    ensures Evicting(Store(m[k := big], |m| + n), n, 2 * n, victims, Store(map[k := big], n))
    decreases |m|
  {
    if m == map[] {
      victims := [];
    } else {
      var j := AnyKey(m);
      assert (m - {j}).Keys == m.Keys - {j};
      victims := SmallOnesGo(m - {j}, k, big, n);
      victims := [j] + victims;
      assert m[k := big] - {j} == (m - {j})[k := big];
    }
  }

  /** At one instant any number of entries may go although one alone would make room. */
  lemma {:induction false} TiesMayCostMany(m: Entries, k: string, big: Entry) returns (victims: seq<string>)
    requires Alike(m, big.storedAt) && k !in m && |big.body| == |m|
    ensures var n, s := |m|, Store(m[k := big], 2 * |m|);
            && Exact(s) && Evicts(s, n, 2 * n, victims, Store(map[k := big], n)) && |victims| == n
            && MakesRoom(s.entries, {k}, n, 2 * n)
  {
    hide Exact, MakesRoom, Evicting;
    BigOneMakesRoom(m, k, big);
    victims := SmallOnesGo(m, k, big, |m|);
  }

  lemma {:induction false} BigOneMakesRoom(m: Entries, k: string, big: Entry)
    requires Alike(m, big.storedAt) && k !in m && |big.body| == |m|
    ensures Exact(Store(m[k := big], 2 * |m|)) && MakesRoom(m[k := big], {k}, |m|, 2 * |m|)
  {
    TotalOfAlike(m, big.storedAt);
    TotalSplit(m[k := big], k);
    assert m[k := big] - {k} == m;
  }

  /** The victims themselves are oldest-first: nothing kept is older than anything taken. */
  lemma {:induction false} VictimsAreOldest(s: Store, incoming: nat, budget: nat, victims: seq<string>, s': Store)
    requires Evicts(s, incoming, budget, victims, s')
    ensures s'.entries == s.entries - (set v | v in victims)
    ensures forall i, j :: 0 <= i < |victims| && j in s'.entries ==>
              victims[i] in s.entries && s.entries[victims[i]].storedAt <= s.entries[j].storedAt
    decreases |victims|
  {
    if victims == [] {
      assert s.entries - {} == s.entries;
    } else {
      var v, rest := victims[0], victims[1..];
      VictimsAreOldest(Remove(s, v), incoming, budget, rest, s');
      assert (set x | x in victims) == {v} + (set x | x in rest) by {
        assert victims == [v] + rest;
      }
      assert s.entries - {v} - (set x | x in rest) == s.entries - ({v} + (set x | x in rest));
      forall i, j | 0 <= i < |victims| && j in s'.entries
        ensures victims[i] in s.entries && s.entries[victims[i]].storedAt <= s.entries[j].storedAt
      {
        if i > 0 {
          assert victims[i] == rest[i - 1];
        }
      }
    }
  }
}
