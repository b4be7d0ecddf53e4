/** The fixed-window rate limiter, one bucket per key. */
module RateLimit {
  import opened Basics

  const SECOND := 1_000_000_000

  /** `limit` requests per `window` nanoseconds. */
  datatype Limits = Limits(limit: nat, window: nat)

  datatype Bucket = Bucket(start: nat, count: nat)

  type Buckets = map<string, Bucket>

  datatype Outcome = Outcome(allowed: bool, limit: nat, remaining: nat, resetSecs: nat)

  datatype Request = Request(key: string, now: nat)

  /** The key's bucket, opened or reopened at `now` when there is none or its window has elapsed. */
  function Current(cfg: Limits, m: Buckets, c: Request): Bucket {
    if c.key in m && SatSub(c.now, m[c.key].start) < cfg.window then m[c.key] else Bucket(c.now, 0)
  }

  function Charged(cfg: Limits, m: Buckets, c: Request): Bucket {
    var b := Current(cfg, m, c);
    b.(count := b.count + 1)
  }

  function OutcomeOf(cfg: Limits, m: Buckets, c: Request): Outcome {
    var b := Charged(cfg, m, c);
    Outcome(b.count <= cfg.limit, cfg.limit, SatSub(cfg.limit, b.count),
            SatSub(cfg.window, SatSub(c.now, b.start)) / SECOND)
  }

  class RateLimiter {
    const cfg: Limits
    var buckets: Buckets

    constructor (cfg: Limits)
      ensures this.cfg == cfg && buckets == map[]
    {
      this.cfg, buckets := cfg, map[];
    }

    method Check(key: string, now: nat) returns (r: Outcome)
      modifies this
      ensures r == OutcomeOf(cfg, old(buckets), Request(key, now))
      ensures buckets == old(buckets)[key := Charged(cfg, old(buckets), Request(key, now))]
    {
      if key !in buckets {
        buckets := buckets[key := Bucket(now, 0)];
      }
      var entry := buckets[key];
      if SatSub(now, entry.start) >= cfg.window {
        entry := Bucket(now, 0);
      }
      entry := entry.(count := entry.count + 1);
      buckets := buckets[key := entry];
      r := Outcome(entry.count <= cfg.limit, cfg.limit, SatSub(cfg.limit, entry.count),
                   SatSub(cfg.window, SatSub(now, entry.start)) / SECOND);
    }
  }

  // ---------- runs ----------

  function After(cfg: Limits, run: seq<Request>, n: nat): Buckets
    requires n <= |run|
  {
    if n == 0 then map[]
    else
      var m := After(cfg, run, n - 1);
      m[run[n - 1].key := Charged(cfg, m, run[n - 1])]
  }

  /** What check `i` of the run is answered. */
  function OutcomeAt(cfg: Limits, run: seq<Request>, i: nat): Outcome
    requires i < |run|
  {
    OutcomeOf(cfg, After(cfg, run, i), run[i])
  }

  predicate AllowedAt(cfg: Limits, run: seq<Request>, i: nat)
    requires i < |run|
  {
    OutcomeAt(cfg, run, i).allowed
  }

  /** A limiter answering a run of checks, from its first on. */
  method CheckAll(cfg: Limits, run: seq<Request>) returns (outcomes: seq<Outcome>)
    ensures |outcomes| == |run| && forall i :: 0 <= i < |run| ==> outcomes[i] == OutcomeAt(cfg, run, i)
  {
    var limiter := new RateLimiter(cfg);
    outcomes := [];
    for n := 0 to |run|
      invariant fresh(limiter) && limiter.cfg == cfg && limiter.buckets == After(cfg, run, n)
      invariant |outcomes| == n && forall i :: 0 <= i < n ==> outcomes[i] == OutcomeAt(cfg, run, i)
    {
      var r := limiter.Check(run[n].key, run[n].now);
      outcomes := outcomes + [r];
    }
  }

  // ---------- the answers, from the history alone ----------

  /** The check that opened the key's latest window among the first `n`: the first of the key, or the
      first at least a window after the opening check before it. */
  function Opening(cfg: Limits, run: seq<Request>, key: string, n: nat): (o: Option<nat>)
    requires n <= |run|
    ensures o.Some? ==> o.value < n && run[o.value].key == key
  {
    if n == 0 then None
    else
      var before := Opening(cfg, run, key, n - 1);
      if run[n - 1].key != key then before
      else if before.Some? && run[n - 1].now < run[before.value].now + cfg.window then before
      else Some(n - 1)
  }

  /** The checks of the key from `o` on among the first `n`. */
  function Since(run: seq<Request>, key: string, o: nat, n: nat): nat
    requires o <= n <= |run|
    decreases n
  {
    if n == o then 0 else Since(run, key, o, n - 1) + if run[n - 1].key == key then 1 else 0
  }

  lemma {:induction false} BucketFromHistory(cfg: Limits, run: seq<Request>, key: string, n: nat)
    requires n <= |run| && cfg.window > 0
    ensures var o := Opening(cfg, run, key, n);
            && (key in After(cfg, run, n) <==> o.Some?)
            && (o.Some? ==> After(cfg, run, n)[key] == Bucket(run[o.value].now, Since(run, key, o.value, n)))
    decreases n
  {
    if n == 0 {
    } else {
      BucketFromHistory(cfg, run, key, n - 1);
      if Opening(cfg, run, key, n) == Some(n - 1) {
        assert Since(run, key, n - 1, n - 1) == 0;
      }
    }
  }

  /** With `used` checks of the key since the one that opened its window, the answer is: allowed exactly if
      they are within the limit, what is left of it, and the whole seconds left of that window. */
  lemma {:induction false} OutcomeFromHistory(cfg: Limits, run: seq<Request>, i: nat)
    requires i < |run| && InOrder(run)
    ensures Opening(cfg, run, run[i].key, i + 1).Some?
    ensures var o := Opening(cfg, run, run[i].key, i + 1).value;
            var used, r := Since(run, run[i].key, o, i + 1), OutcomeAt(cfg, run, i);
            && (r.allowed <==> used <= cfg.limit) && r.limit == cfg.limit
            && r.remaining == (if used <= cfg.limit then cfg.limit - used else 0)
            && r.resetSecs == (run[o].now + cfg.window - run[i].now) / 1_000_000_000
  {
    var key := run[i].key;
    var o := Opening(cfg, run, key, i + 1).value;
    assert run[o].now <= run[i].now;
    if cfg.window > 0 {
      BucketFromHistory(cfg, run, key, i);
      BucketFromHistory(cfg, run, key, i + 1);
      assert o == i || run[i].now < run[o].now + cfg.window;
    } else {
      assert o == i && Since(run, key, i, i) == 0;
      assert Current(cfg, After(cfg, run, i), run[i]) == Bucket(run[i].now, 0);
    }
  }

  predicate InOrder(run: seq<Request>) {
    forall i, j :: 0 <= i <= j < |run| ==> run[i].now <= run[j].now
  }

  predicate Counts(cfg: Limits, run: seq<Request>, key: string, lo: int, hi: int, i: nat)
    requires i < |run|
  {
    run[i].key == key && lo <= run[i].now < hi && AllowedAt(cfg, run, i)
  }

  /** The checks of `key` allowed in `[lo, hi)` among the first `n`. */
  function Hits(cfg: Limits, run: seq<Request>, key: string, lo: int, hi: int, n: nat): nat
    requires n <= |run|
  {
    if n == 0 then 0
    else Hits(cfg, run, key, lo, hi, n - 1) + if Counts(cfg, run, key, lo, hi, n - 1) then 1 else 0
  }

  lemma {:induction false} HitsSplit(cfg: Limits, run: seq<Request>, key: string, lo: int, mid: int, hi: int, n: nat)
    requires n <= |run| && lo <= mid <= hi
    ensures Hits(cfg, run, key, lo, hi, n) == Hits(cfg, run, key, lo, mid, n) + Hits(cfg, run, key, mid, hi, n)
    decreases n
  {
    if n == 0 {
    } else {
      HitsSplit(cfg, run, key, lo, mid, hi, n - 1);
    }
  }

  lemma {:induction false} HitsWithin(cfg: Limits, run: seq<Request>, key: string, lo: int, hi: int, lo': int, hi': int, n: nat)
    requires n <= |run| && forall i :: 0 <= i < n && run[i].key == key && lo <= run[i].now < hi ==> lo' <= run[i].now < hi'
    ensures Hits(cfg, run, key, lo, hi, n) <= Hits(cfg, run, key, lo', hi', n)
    decreases n
  {
    if n == 0 {
    } else {
      HitsWithin(cfg, run, key, lo, hi, lo', hi', n - 1);
    }
  }

  lemma {:induction false} HitsNone(cfg: Limits, run: seq<Request>, key: string, lo: int, hi: int, n: nat)
    requires n <= |run| && forall i :: 0 <= i < n ==> run[i].key != key || !(lo <= run[i].now < hi)
    ensures Hits(cfg, run, key, lo, hi, n) == 0
    decreases n
  {
    if n == 0 {
    } else {
      HitsNone(cfg, run, key, lo, hi, n - 1);
    }
  }

  // ---------- what a bucket stands for ----------

  /** No check of the key falls at or past the end of its bucket's window. */
  ghost predicate Covers(cfg: Limits, run: seq<Request>, key: string, b: Bucket, n: nat)
    requires n <= |run|
  {
    && n > 0 && b.start <= run[n - 1].now
    && forall i :: 0 <= i < n && run[i].key == key ==> run[i].now < b.start + cfg.window
  }

  /** The check that opened the bucket is among those allowed. */
  ghost predicate Opened(cfg: Limits, run: seq<Request>, key: string, b: Bucket, n: nat)
    requires n <= |run|
  {
    b.count > 0 && cfg.limit > 0 ==> Hits(cfg, run, key, b.start, b.start + 1, n) > 0
  }

  /** A span that starts within a window before the bucket holds, up to the bucket, fewer than `limit`. */
  ghost predicate Quiet(cfg: Limits, run: seq<Request>, key: string, start: int, n: nat)
    requires n <= |run|
  {
    forall t: int :: t + cfg.window > start ==> Hits(cfg, run, key, t, start, n) <= SatSub(cfg.limit, 1)
  }

  ghost predicate Tracks(cfg: Limits, run: seq<Request>, key: string, n: nat)
    requires n <= |run|
  {
    var m := After(cfg, run, n);
    if key !in m then forall i :: 0 <= i < n ==> run[i].key != key
    else
      var b := m[key];
      && b.count > 0
      && Covers(cfg, run, key, b, n)
      && Hits(cfg, run, key, b.start, b.start + cfg.window, n) == Min(b.count, cfg.limit)
      && Opened(cfg, run, key, b, n)
      && Quiet(cfg, run, key, b.start, n)
  }

  /** Opening a bucket: nothing of the key lies at or after `now`, at most `limit` in the window before. */
  lemma {:induction false} Opens(cfg: Limits, run: seq<Request>, key: string, n: nat)
    requires InOrder(run) && cfg.window > 0 && n < |run| && Tracks(cfg, run, key, n) && run[n].key == key
    requires key in After(cfg, run, n) ==>
               After(cfg, run, n)[key].count > 0 && run[n].now >= After(cfg, run, n)[key].start + cfg.window
    ensures Hits(cfg, run, key, run[n].now, run[n].now + cfg.window, n) == 0
    ensures Quiet(cfg, run, key, run[n].now, n)
  {
    var now, m := run[n].now, After(cfg, run, n);
    if key in m {
      HitsNone(cfg, run, key, now, now + cfg.window, n);
      forall t: int | t + cfg.window > now
        ensures Hits(cfg, run, key, t, now, n) <= SatSub(cfg.limit, 1)
      {
        AfterOpening(cfg, run, key, n, t, now);
      }
    } else {
      HitsNone(cfg, run, key, now, now + cfg.window, n);
      forall t: int | t + cfg.window > now
        ensures Hits(cfg, run, key, t, now, n) <= SatSub(cfg.limit, 1)
      {
        HitsNone(cfg, run, key, t, now, n);
      }
    }
  }

  /** Past its opening check, a bucket allows fewer than `limit`. */
  lemma {:induction false} AfterOpening(cfg: Limits, run: seq<Request>, key: string, n: nat, t: int, hi: int)
    requires n <= |run| && Tracks(cfg, run, key, n) && key in After(cfg, run, n)
    requires After(cfg, run, n)[key].count > 0 && cfg.window > 0 && t > After(cfg, run, n)[key].start
    ensures Hits(cfg, run, key, t, hi, n) <= SatSub(cfg.limit, 1)
  {
    var b := After(cfg, run, n)[key];
    HitsSplit(cfg, run, key, b.start, b.start + 1, b.start + cfg.window, n);
    HitsWithin(cfg, run, key, t, hi, b.start + 1, b.start + cfg.window, n);
  }

  lemma {:induction false} QuietNext(cfg: Limits, run: seq<Request>, key: string, start: int, n: nat)
    requires n < |run| && Quiet(cfg, run, key, start, n) && (run[n].key == key ==> start <= run[n].now)
    ensures Quiet(cfg, run, key, start, n + 1)
  {
    var m := n + 1;
    forall t: int | t + cfg.window > start
      ensures Hits(cfg, run, key, t, start, m) <= SatSub(cfg.limit, 1)
    {
      assert Hits(cfg, run, key, t, start, n) <= SatSub(cfg.limit, 1);
    }
  }

  lemma {:induction false} OtherKey(cfg: Limits, run: seq<Request>, key: string, n: nat)
    requires InOrder(run) && n < |run| && Tracks(cfg, run, key, n) && run[n].key != key
    ensures Tracks(cfg, run, key, n + 1)
  {
    var m := After(cfg, run, n);
    if key in m {
      QuietNext(cfg, run, key, m[key].start, n);
      assert n > 0 && run[n - 1].now <= run[n].now;
    }
  }

  lemma {:induction false} CurrentIs(cfg: Limits, run: seq<Request>, n: nat)
    requires InOrder(run) && cfg.window > 0 && n < |run| && Tracks(cfg, run, run[n].key, n)
    ensures var b := Current(cfg, After(cfg, run, n), run[n]);
            && b.start <= run[n].now < b.start + cfg.window
            && (forall i :: 0 <= i < n && run[i].key == run[n].key ==> run[i].now < b.start + cfg.window)
            && Hits(cfg, run, run[n].key, b.start, b.start + cfg.window, n) == Min(b.count, cfg.limit)
            && Opened(cfg, run, run[n].key, b, n)
            && Quiet(cfg, run, run[n].key, b.start, n)
  {
    var m := After(cfg, run, n);
    var b := Current(cfg, m, run[n]);
    if run[n].key in m && SatSub(run[n].now, m[run[n].key].start) < cfg.window {
      assert n > 0 && run[n - 1].now <= run[n].now;
    } else {
      Opens(cfg, run, run[n].key, n);
      forall i | 0 <= i < n && run[i].key == run[n].key
        ensures run[i].now < b.start + cfg.window
      {
        assert run[i].now <= run[n].now;
      }
    }
  }

  lemma {:induction false} SameKey(cfg: Limits, run: seq<Request>, n: nat)
    requires InOrder(run) && cfg.window > 0 && n < |run| && Tracks(cfg, run, run[n].key, n)
    ensures Tracks(cfg, run, run[n].key, n + 1)
  {
    var key, b := run[n].key, Current(cfg, After(cfg, run, n), run[n]);
    CurrentIs(cfg, run, n);
    QuietNext(cfg, run, key, b.start, n);
    var b' := b.(count := b.count + 1);
    assert After(cfg, run, n + 1)[key] == b';
    assert Covers(cfg, run, key, b', n + 1);
    assert Opened(cfg, run, key, b', n + 1);
  }

  lemma {:induction false} TracksHolds(cfg: Limits, run: seq<Request>, key: string, n: nat)
    requires InOrder(run) && cfg.window > 0 && n <= |run|
    ensures Tracks(cfg, run, key, n)
    decreases n
  {
    if n == 0 {
    } else {
      TracksHolds(cfg, run, key, n - 1);
      if run[n - 1].key == key {
        SameKey(cfg, run, n - 1);
      } else {
        OtherKey(cfg, run, key, n - 1);
      }
    }
  }

  // ---------- the bounds ----------

  /** Right after a check of the key, a window-long span that reaches it holds less than twice the limit. */
  lemma {:induction false} SpanAtCheck(cfg: Limits, run: seq<Request>, n: nat, t: int)
    requires InOrder(run) && n < |run| && t <= run[n].now < t + cfg.window
    ensures Hits(cfg, run, run[n].key, t, t + cfg.window, n + 1) <= SatSub(2 * cfg.limit, 1)
  {
    var key := run[n].key;
    TracksHolds(cfg, run, key, n);
    TracksHolds(cfg, run, key, n + 1);
    CurrentIs(cfg, run, n);
    var b := After(cfg, run, n + 1)[key];
    var mid := if t < b.start then b.start else t;
    HitsSplit(cfg, run, key, t, mid, t + cfg.window, n + 1);
    HitsWithin(cfg, run, key, mid, t + cfg.window, b.start, b.start + cfg.window, n + 1);
    if t < b.start {
      assert Quiet(cfg, run, key, b.start, n + 1);
    } else {
      HitsNone(cfg, run, key, t, mid, n + 1);
    }
  }

  /** Any half-open span one window long holds fewer than twice `limit` allowed checks of a key
      (none when `limit` is zero). */
  lemma {:induction false} LessThanTwiceTheLimit(cfg: Limits, run: seq<Request>, key: string, t: int, n: nat)
    requires InOrder(run) && n <= |run|
    ensures Hits(cfg, run, key, t, t + cfg.window, n) <= SatSub(2 * cfg.limit, 1)
    decreases n
  {
    if n == 0 {
    } else {
      LessThanTwiceTheLimit(cfg, run, key, t, n - 1);
      if Counts(cfg, run, key, t, t + cfg.window, n - 1) {
        SpanAtCheck(cfg, run, n - 1, t);
      }
    }
  }

  /** A check is denied only if `limit` earlier checks of its key were allowed less than a window ago. */
  lemma {:induction false} DeniedOnlyAfterLimit(cfg: Limits, run: seq<Request>, n: nat)
    requires InOrder(run) && n < |run| && !AllowedAt(cfg, run, n)
    ensures Hits(cfg, run, run[n].key, run[n].now - cfg.window + 1, run[n].now + 1, n) >= cfg.limit
  {
    if cfg.window > 0 {
      var key, now, b := run[n].key, run[n].now, Current(cfg, After(cfg, run, n), run[n]);
      TracksHolds(cfg, run, key, n);
      CurrentIs(cfg, run, n);
      forall i | 0 <= i < n && run[i].key == key && b.start <= run[i].now < b.start + cfg.window
        ensures now - cfg.window + 1 <= run[i].now < now + 1
      {
        assert run[i].now <= run[n].now;
      }
      HitsWithin(cfg, run, key, b.start, b.start + cfg.window, now - cfg.window + 1, now + 1, n);
    }
  }

  /** Within one tick a window cannot be reopened, so it holds no more than the limit. */
  lemma {:induction false} OneTickHoldsTheLimit(cfg: Limits, run: seq<Request>, key: string, t: int, n: nat)
    requires InOrder(run) && n <= |run| && cfg.window == 1
    ensures Hits(cfg, run, key, t, t + 1, n) <= cfg.limit
    decreases n
  {
    if n == 0 {
    } else {
      OneTickHoldsTheLimit(cfg, run, key, t, n - 1);
      if Counts(cfg, run, key, t, t + 1, n - 1) {
        CurrentHolds(cfg, run, n - 1);
      }
    }
  }

  lemma {:induction false} CurrentHolds(cfg: Limits, run: seq<Request>, n: nat)
    requires InOrder(run) && n < |run| && cfg.window == 1
    ensures Hits(cfg, run, run[n].key, run[n].now, run[n].now + 1, n + 1) <= cfg.limit
  {
    TracksHolds(cfg, run, run[n].key, n);
    TracksHolds(cfg, run, run[n].key, n + 1);
    CurrentIs(cfg, run, n);
  }

  /** The most a window-long span can hold. */
  function Most(cfg: Limits): nat {
    if cfg.window == 0 then 0 else if cfg.window == 1 then cfg.limit else SatSub(2 * cfg.limit, 1)
  }

  /** For every limit and window: no window-long span of any run ever holds more than `Most`. */
  lemma {:induction false} NeverMoreThanMost(cfg: Limits, run: seq<Request>, key: string, t: int, n: nat)
    requires InOrder(run) && n <= |run|
    ensures Hits(cfg, run, key, t, t + cfg.window, n) <= Most(cfg)
  {
    if cfg.window == 0 {
      HitsNone(cfg, run, key, t, t + cfg.window, n);
    } else if cfg.window == 1 {
      OneTickHoldsTheLimit(cfg, run, key, t, n);
    } else {
      LessThanTwiceTheLimit(cfg, run, key, t, n);
    }
  }

  // ---------- a run that reaches it ----------

  /** Check `i` of the run: one opens the window, the rest of the limit comes with its last tick, and
      the limit again with the first tick of the next. */
  function BurstTime(cfg: Limits, i: nat): nat {
    if i == 0 then 0 else if i < cfg.limit then SatSub(cfg.window, 1) else cfg.window
  }

  function Burst(cfg: Limits, key: string): seq<Request> {
    seq(2 * cfg.limit, i requires 0 <= i => Request(key, BurstTime(cfg, i)))
  }

  lemma {:induction false} BurstInOrder(cfg: Limits, key: string)
    ensures InOrder(Burst(cfg, key))
  {}

  /** After `n` checks of the burst the first bucket holds them, or the second those past the limit. */
  lemma {:induction false} BurstBucket(cfg: Limits, key: string, n: nat)
    requires cfg.window > 0 && 0 < n <= 2 * cfg.limit
    ensures After(cfg, Burst(cfg, key), n) ==
              map[key := if n <= cfg.limit then Bucket(0, n) else Bucket(cfg.window, n - cfg.limit)]
    decreases n
  {
    if n > 1 {
      BurstBucket(cfg, key, n - 1);
    }
  }

  lemma {:induction false} BurstAllowed(cfg: Limits, key: string, i: nat)
    requires cfg.window > 0 && i < 2 * cfg.limit
    ensures AllowedAt(cfg, Burst(cfg, key), i)
  {
    if i > 0 {
      BurstBucket(cfg, key, i);
    }
  }

  /** All of the burst but the opening check falls into the span from the window's last tick on. */
  lemma {:induction false} BurstHits(cfg: Limits, key: string, n: nat)
    requires cfg.window > 1 && n <= 2 * cfg.limit
    ensures Hits(cfg, Burst(cfg, key), key, cfg.window - 1, 2 * cfg.window - 1, n) == SatSub(n, 1)
    decreases n
  {
    if n == 0 {
    } else {
      BurstHits(cfg, key, n - 1);
      BurstAllowed(cfg, key, n - 1);
    }
  }

  lemma {:induction false} TickHits(cfg: Limits, key: string, n: nat)
    requires cfg.window == 1 && n <= cfg.limit
    ensures Hits(cfg, Burst(cfg, key), key, 0, 1, n) == n
    decreases n
  {
    if n == 0 {
    } else {
      TickHits(cfg, key, n - 1);
      BurstAllowed(cfg, key, n - 1);
    }
  }

  /** For every limit and window some run holds exactly `Most` in a window-long span. */
  lemma {:induction false} MostIsReached(cfg: Limits, key: string) returns (t: int, n: nat)
    ensures InOrder(Burst(cfg, key)) && n <= |Burst(cfg, key)|
    ensures Hits(cfg, Burst(cfg, key), key, t, t + cfg.window, n) == Most(cfg)
  {
    BurstInOrder(cfg, key);
    if cfg.window == 0 {
      t, n := 0, 0;
    } else if cfg.window == 1 {
      t, n := 0, cfg.limit;
      TickHits(cfg, key, n);
    } else {
      t, n := cfg.window - 1, 2 * cfg.limit;
      BurstHits(cfg, key, n);
    }
  }
}
