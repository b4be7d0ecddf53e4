/** A pool of upstream targets: picking one, and taking failing ones out of rotation. */
module Balancer {
  import opened Basics

  const WORD := 0x1_0000_0000_0000_0000
  const MIX := 2_654_435_761

  datatype Policy = RoundRobin | LeastConn | Random | IpHash

  /** A target is ejected for `openFor` after `threshold` failures in a row. */
  datatype Pool = Pool(policy: Policy, threshold: nat, openFor: nat)

  datatype Target = Target(inflight: nat, failures: nat, until: Option<nat>)

  datatype State = State(targets: seq<Target>, turn: nat)

  predicate Ejected(t: Target, now: nat) {
    t.until.Some? && now < t.until.value
  }

  /** The indices in rotation, in order. */
  function Eligible(ts: seq<Target>, now: nat): seq<nat> {
    if ts == [] then []
    else
      var n := |ts| - 1;
      Eligible(ts[..n], now) + if Ejected(ts[n], now) then [] else [n]
  }

  predicate Within(e: seq<nat>, n: nat) {
    forall x :: 0 <= x < |e| ==> e[x] < n
  }

  lemma {:induction false} EligibleMeans(ts: seq<Target>, now: nat)
    ensures forall i: nat :: i in Eligible(ts, now) <==> i < |ts| && !Ejected(ts[i], now)
    ensures Within(Eligible(ts, now), |ts|)
    decreases |ts|
  {
    if ts == [] {
    } else {
      EligibleMeans(ts[..|ts| - 1], now);
    }
  }

  predicate Increasing(e: seq<nat>) {
    forall x, y :: 0 <= x < y < |e| ==> e[x] < e[y]
  }

  lemma {:induction false} IncreasingSnoc(e: seq<nat>, n: nat)
    requires Increasing(e) && Within(e, n)
    ensures Increasing(e + [n])
  {}

  lemma {:induction false} EligibleInOrder(ts: seq<Target>, now: nat)
    ensures Increasing(Eligible(ts, now))
    decreases |ts|
  {
    if ts == [] {
    } else {
      var n := |ts| - 1;
      EligibleInOrder(ts[..n], now);
      EligibleMeans(ts[..n], now);
      IncreasingSnoc(Eligible(ts[..n], now), n);
    }
  }

  /** The first of `e` with the fewest requests in flight. */
  ghost predicate Idlest(ts: seq<Target>, e: seq<nat>, x: nat)
    requires Within(e, |ts|)
  {
    && x < |e|
    && (forall y :: 0 <= y < |e| ==> ts[e[x]].inflight <= ts[e[y]].inflight)
    && (forall y :: 0 <= y < x ==> ts[e[x]].inflight < ts[e[y]].inflight)
  }

  ghost predicate Chosen(pool: Pool, s: State, e: seq<nat>, hash: nat, x: nat) {
    && x < |e|
    && match pool.policy
       case RoundRobin => x == s.turn % |e|
       case LeastConn => Within(e, |s.targets|) && Idlest(s.targets, e, x)
       case Random => x == s.turn * MIX % WORD % |e|
       case IpHash => x == hash % |e|
  }

  function Turned(pool: Pool, s: State): State {
    if pool.policy == RoundRobin || pool.policy == Random then s.(turn := Next(s.turn)) else s
  }

  function Next(turn: nat): nat {
    (turn + 1) % WORD
  }

  /** What a pick answers, and the counter after it. */
  ghost predicate Picks(pool: Pool, s: State, now: nat, hash: nat, r: Option<nat>, s': State)
  {
    var e := Eligible(s.targets, now);
    if e == [] then r == None && s' == s
    else s' == Turned(pool, s) && exists x: nat :: Chosen(pool, s, e, hash, x) && r == Some(e[x])
  }

  /** A pick is always a target in rotation, and there is none only if every target is out. */
  lemma {:induction false} PickIsInRotation(pool: Pool, s: State, now: nat, hash: nat, r: Option<nat>, s': State)
    requires Picks(pool, s, now, hash, r, s')
    ensures r.Some? ==> r.value < |s.targets| && !Ejected(s.targets[r.value], now)
    ensures r.None? <==> forall i :: 0 <= i < |s.targets| ==> Ejected(s.targets[i], now)
    ensures s'.targets == s.targets
  {
    EligibleMeans(s.targets, now);
    var e := Eligible(s.targets, now);
    if e != [] {
      assert e[0] in e;
      var x: nat :| Chosen(pool, s, e, hash, x) && r == Some(e[x]);
      assert e[x] in e;
    }
  }

  function Failed(pool: Pool, t: Target, now: nat): Target {
    var n := t.failures + 1;
    if n >= pool.threshold then Target(t.inflight, 0, Some(now + pool.openFor)) else t.(failures := n)
  }

  function Succeeded(t: Target): Target {
    Target(t.inflight, 0, None)
  }

  class Upstream {
    const pool: Pool
    var targets: seq<Target>
    var turn: nat

    ghost function View(): State
      reads this
    {
      State(targets, turn)
    }

    constructor (pool: Pool, n: nat)
      ensures this.pool == pool && View() == Fresh(n)
    {
      this.pool := pool;
      targets, turn := seq(n, i => Target(0, 0, None)), 0;
    }

    method EligibleNow(now: nat) returns (e: seq<nat>)
      ensures e == Eligible(targets, now)
    {
      e := [];
      for i := 0 to |targets|
        invariant e == Eligible(targets[..i], now)
      {
        assert targets[..i + 1][..i] == targets[..i];
        if !Ejected(targets[i], now) {
          e := e + [i];
        }
      }
      assert targets[..|targets|] == targets;
    }

    method LeastBusy(e: seq<nat>) returns (x: nat)
      requires e != [] && Within(e, |targets|)
      ensures Idlest(targets, e, x)
    {
      x := 0;
      for y := 1 to |e|
        invariant x < y
        invariant forall z :: 0 <= z < y ==> targets[e[x]].inflight <= targets[e[z]].inflight
        invariant forall z :: 0 <= z < x ==> targets[e[x]].inflight < targets[e[z]].inflight
      {
        if targets[e[y]].inflight < targets[e[x]].inflight {
          x := y;
        }
      }
    }

    method Pick(now: nat, hash: nat) returns (r: Option<nat>)
      modifies this
      ensures Picks(pool, old(View()), now, hash, r, View())
    {
      var e := EligibleNow(now);
      EligibleMeans(targets, now);
      if e == [] {
        return None;
      }
      var x := 0;
      match pool.policy {
        case RoundRobin =>
          x := turn % |e|;
        case LeastConn =>
          x := LeastBusy(e);
        case Random =>
          x := turn * MIX % WORD % |e|;
        case IpHash =>
          x := hash % |e|;
      }
      assert Chosen(pool, View(), e, hash, x);
      if pool.policy == RoundRobin || pool.policy == Random {
        turn := Next(turn);
      }
      return Some(e[x]);
    }

    method RecordSuccess(i: nat)
      modifies this
      ensures View() == OnTarget(old(View()), i, Succeeded)
    {
      if i < |targets| {
        targets := targets[i := targets[i].(failures := 0, until := None)];
      }
    }

    method RecordFailure(i: nat, now: nat)
      modifies this
      ensures View() == OnTarget(old(View()), i, t => Failed(pool, t, now))
    {
      if i >= |targets| {
        return;
      }
      var n := targets[i].failures + 1;
      targets := targets[i := targets[i].(failures := n)];
      if n >= pool.threshold {
        targets := targets[i := targets[i].(until := Some(now + pool.openFor))];
        targets := targets[i := targets[i].(failures := 0)];
      }
    }

    method Begin(i: nat)
      modifies this
      ensures View() == OnTarget(old(View()), i, Begun)
    {
      if i < |targets| {
        targets := targets[i := targets[i].(inflight := (targets[i].inflight + 1) % WORD)];
      }
    }

    method Finish(i: nat)
      modifies this
      ensures View() == OnTarget(old(View()), i, Finished)
    {
      if i < |targets| {
        targets := targets[i := targets[i].(inflight := (targets[i].inflight - 1) % WORD)];
      }
    }
  }

  function Fresh(n: nat): State {
    State(seq(n, i => Target(0, 0, None)), 0)
  }

  function OnTarget(s: State, i: nat, f: Target -> Target): State {
    if i < |s.targets| then s.(targets := s.targets[i := f(s.targets[i])]) else s
  }

  function Begun(t: Target): Target {
    t.(inflight := (t.inflight + 1) % WORD)
  }

  /** Unsigned, so finishing more than was begun wraps. */
  function Finished(t: Target): Target {
    t.(inflight := (t.inflight - 1) % WORD)
  }

  // ---------- runs ----------

  datatype Op =
    | Pick(at: nat, hash: nat, got: Option<nat>)
    | Success(target: nat)
    | Failure(target: nat, at: nat)
    | Start(target: nat)
    | End(target: nat)

  ghost predicate Does(pool: Pool, s: State, op: Op, s': State) {
    match op
    case Pick(now, hash, got) => Picks(pool, s, now, hash, got, s')
    case Success(i) => s' == OnTarget(s, i, Succeeded)
    case Failure(i, now) => s' == OnTarget(s, i, t => Failed(pool, t, now))
    case Start(i) => s' == OnTarget(s, i, Begun)
    case End(i) => s' == OnTarget(s, i, Finished)
  }

  datatype Run = Run(pool: Pool, size: nat, states: seq<State>, ops: seq<Op>)

  ghost predicate DoesAt(r: Run, i: nat)
    requires |r.states| == |r.ops| + 1 && i < |r.ops|
  {
    Does(r.pool, r.states[i], r.ops[i], r.states[i + 1])
  }

  ghost predicate IsRun(r: Run) {
    && |r.states| == |r.ops| + 1 && r.states[0] == Fresh(r.size)
    && (forall i :: 0 <= i < |r.ops| ==> DoesAt(r, i))
  }

  // ---------- the breaker ----------

  /** Failures it takes to eject; one even when the configured number is zero. */
  function Limit(pool: Pool): (n: nat)
    ensures n > 0
  {
    if pool.threshold == 0 then 1 else pool.threshold
  }

  /** Failures of target `i` in a row at the end of the first `n` operations. */
  function Streak(ops: seq<Op>, n: nat, i: nat): nat
    requires n <= |ops|
  {
    if n == 0 then 0
    else
      match ops[n - 1]
      case Success(t) => if t == i then 0 else Streak(ops, n - 1, i)
      case Failure(t, _) => if t == i then Streak(ops, n - 1, i) + 1 else Streak(ops, n - 1, i)
      case _ => Streak(ops, n - 1, i)
  }

  /** `ops[j]` is the latest failure of target `i` that completed a round of `Limit` in its streak. */
  ghost predicate EjectedBy(r: Run, n: nat, i: nat, j: nat)
    requires n <= |r.ops|
  {
    && j < n && r.ops[j].Failure? && r.ops[j].target == i
    && Streak(r.ops, j + 1, i) % Limit(r.pool) == 0
    && Streak(r.ops, j + 1, i) <= Streak(r.ops, n, i) < Streak(r.ops, j + 1, i) + Limit(r.pool)
    && (forall k :: j < k < n ==> r.ops[k] != Success(i))
  }

  /** The breaker state of target `i` is determined by the outcomes of its current streak. */
  ghost predicate Tripped(r: Run, n: nat, i: nat)
    requires n <= |r.ops| && |r.states| == |r.ops| + 1
  {
    && |r.states[n].targets| == r.size
    && (i < r.size ==>
          var t := r.states[n].targets[i];
          && t.failures == Streak(r.ops, n, i) % Limit(r.pool)
          && (t.until.None? <==> Streak(r.ops, n, i) < Limit(r.pool))
          && (t.until.Some? ==>
                exists j: nat :: EjectedBy(r, n, i, j) && t.until.value == r.ops[j].at + r.pool.openFor))
  }

  lemma {:induction false} NextRemainder(k: nat, m: nat)
    requires m > 0
    ensures (k + 1) % m == if k % m + 1 == m then 0 else k % m + 1
  {
    var q := k / m;
    assert k == q * m + k % m;
    if k % m + 1 == m {
      assert k + 1 == (q + 1) * m;
      Remainder(k + 1, q + 1, 0, m);
    } else {
      Remainder(k + 1, q, k % m + 1, m);
    }
  }

  lemma {:induction false} UntouchedTarget(r: Run, n: nat, i: nat)
    requires IsRun(r) && n < |r.ops| && Tripped(r, n, i)
    requires Streak(r.ops, n + 1, i) == Streak(r.ops, n, i) && r.ops[n] != Success(i)
    requires |r.states[n + 1].targets| == r.size
    requires i < r.size ==> r.states[n + 1].targets[i].failures == r.states[n].targets[i].failures
    requires i < r.size ==> r.states[n + 1].targets[i].until == r.states[n].targets[i].until
    ensures Tripped(r, n + 1, i)
  {
    if i < r.size && r.states[n].targets[i].until.Some? {
      var j: nat :| EjectedBy(r, n, i, j) && r.states[n].targets[i].until.value == r.ops[j].at + r.pool.openFor;
      assert EjectedBy(r, n + 1, i, j);
    }
  }

  lemma {:induction false} FailedTarget(r: Run, n: nat, i: nat)
    requires IsRun(r) && n < |r.ops| && Tripped(r, n, i) && i < r.size
    requires r.ops[n].Failure? && r.ops[n].target == i
    requires |r.states[n + 1].targets| == r.size
    requires r.states[n + 1].targets[i] == Failed(r.pool, r.states[n].targets[i], r.ops[n].at)
    ensures Tripped(r, n + 1, i)
  {
    var k, m := Streak(r.ops, n, i), Limit(r.pool);
    NextRemainder(k, m);
    if k % m + 1 == m {
      assert EjectedBy(r, n + 1, i, n);
      AtLeastOneRound(k + 1, m);
    } else {
      RoundNotOver(k, m);
      if r.states[n].targets[i].until.Some? {
        var j: nat :| EjectedBy(r, n, i, j) && r.states[n].targets[i].until.value == r.ops[j].at + r.pool.openFor;
        SameRound(Streak(r.ops, j + 1, i), k, m);
        assert EjectedBy(r, n + 1, i, j);
      }
    }
  }

  lemma {:induction false} SucceededTarget(r: Run, n: nat, i: nat)
    requires IsRun(r) && n < |r.ops| && i < r.size && r.ops[n] == Success(i)
    requires |r.states[n + 1].targets| == r.size
    requires r.states[n + 1].targets[i].failures == 0 && r.states[n + 1].targets[i].until == None
    ensures Tripped(r, n + 1, i)
  {}

  lemma {:induction false} AtLeastOneRound(k: nat, m: nat)
    requires m > 0 && k > 0 && k % m == 0
    ensures k >= m
  {}

  lemma {:induction false} RoundNotOver(k: nat, m: nat)
    requires m > 0 && (k + 1) % m != 0
    ensures k < m <==> k + 1 < m
  {}

  lemma {:induction false} SameRound(s: nat, k: nat, m: nat)
    requires m > 0 && s % m == 0 && s <= k < s + m && (k + 1) % m != 0
    ensures k + 1 < s + m
  {
    assert s == (s / m) * m;
    Remainder(s + m, s / m + 1, 0, m);
  }

  lemma {:induction false} StepTargets(r: Run, n: nat, i: nat)
    requires IsRun(r) && n < |r.ops| && |r.states[n].targets| == r.size && i < r.size
    ensures |r.states[n + 1].targets| == r.size
    ensures var t, t' := r.states[n].targets[i], r.states[n + 1].targets[i];
            match r.ops[n]
            case Success(x) => t' == if x == i then Succeeded(t) else t
            case Failure(x, now) => t' == if x == i then Failed(r.pool, t, now) else t
            case _ => t'.failures == t.failures && t'.until == t.until
  {
    assert DoesAt(r, n);
  }

  lemma {:induction false} TrippedHolds(r: Run, n: nat, i: nat)
    requires IsRun(r) && n <= |r.ops| && i < r.size
    ensures Tripped(r, n, i)
    decreases n
  {
    if n == 0 {
    } else {
      TrippedHolds(r, n - 1, i);
      StepTargets(r, n - 1, i);
      if r.ops[n - 1].Failure? && r.ops[n - 1].target == i {
        FailedTarget(r, n - 1, i);
      } else if r.ops[n - 1] == Success(i) {
        SucceededTarget(r, n - 1, i);
      } else {
        UntouchedTarget(r, n - 1, i);
      }
    }
  }

  /** The failure count never reaches the threshold, so counting one more never overflows. */
  lemma {:induction false} FailuresStaySmall(r: Run, n: nat, i: nat)
    requires IsRun(r) && n <= |r.ops| && i < r.size
    ensures |r.states[n].targets| == r.size && r.states[n].targets[i].failures < Limit(r.pool)
  {
    TrippedHolds(r, n, i);
  }

  lemma {:induction false} StreakGrows(r: Run, j: nat, n: nat, i: nat)
    requires j < n <= |r.ops| && forall k :: j < k < n ==> r.ops[k] != Success(i)
    ensures Streak(r.ops, j + 1, i) <= Streak(r.ops, n, i)
    decreases n
  {
    if j + 1 < n {
      StreakGrows(r, j, n - 1, i);
      assert r.ops[n - 1] != Success(i);
    }
  }

  /** At most one failure answers for an ejection. */
  lemma {:induction false} EjectionIsUnique(r: Run, n: nat, i: nat, j: nat, k: nat)
    requires n <= |r.ops| && EjectedBy(r, n, i, j) && EjectedBy(r, n, i, k)
    ensures j == k
  {
    if j < k {
      LaterEjection(r, n, i, j, k);
    } else if k < j {
      LaterEjection(r, n, i, k, j);
    }
  }

  lemma {:induction false} LaterEjection(r: Run, n: nat, i: nat, j: nat, k: nat)
    requires n <= |r.ops| && EjectedBy(r, n, i, j) && j < k < n && r.ops[k].Failure? && r.ops[k].target == i
    requires Streak(r.ops, k + 1, i) % Limit(r.pool) == 0
    ensures Streak(r.ops, k + 1, i) > Streak(r.ops, n, i)
  {
    StreakGrows(r, j, k, i);
    var s, t, m := Streak(r.ops, j + 1, i), Streak(r.ops, k + 1, i), Limit(r.pool);
    RoundsApart(s, t, m);
  }

  lemma {:induction false} RoundsApart(s: nat, t: nat, m: nat)
    requires m > 0 && s % m == 0 && t % m == 0 && s < t
    ensures t >= s + m
  {
    var a, b := s / m, t / m;
    assert s == a * m && t == b * m && (b - a) * m == t - s;
    Multiples(b - a, m);
  }

  /** A target is out of rotation exactly when its latest outcomes are a streak of failures with no
      success since, at least the threshold long, and the last failure to complete a round of the
      threshold came less than `openFor` ago. */
  lemma {:induction false} OutExactlyWhenTripped(r: Run, n: nat, i: nat, now: nat)
    requires IsRun(r) && n <= |r.ops| && i < r.size
    ensures |r.states[n].targets| == r.size
    ensures Ejected(r.states[n].targets[i], now) <==>
              exists j: nat :: EjectedBy(r, n, i, j) && now < r.ops[j].at + r.pool.openFor
    ensures Ejected(r.states[n].targets[i], now) ==> Streak(r.ops, n, i) >= Limit(r.pool)
  {
    TrippedHolds(r, n, i);
    var t := r.states[n].targets[i];
    if k: nat :| EjectedBy(r, n, i, k) && now < r.ops[k].at + r.pool.openFor {
      PositiveStreak(r, k, i);
      AtLeastOneRound(Streak(r.ops, k + 1, i), Limit(r.pool));
      var j: nat :| EjectedBy(r, n, i, j) && t.until.value == r.ops[j].at + r.pool.openFor;
      EjectionIsUnique(r, n, i, j, k);
    }
  }

  lemma {:induction false} PositiveStreak(r: Run, k: nat, i: nat)
    requires k < |r.ops| && r.ops[k].Failure? && r.ops[k].target == i
    ensures Streak(r.ops, k + 1, i) > 0
  {}

  /** No run ever picks a target that is out. */
  lemma {:induction false} NeverPicksEjected(r: Run, n: nat)
    requires IsRun(r) && n < |r.ops| && r.ops[n].Pick? && r.ops[n].got.Some?
    ensures r.ops[n].got.value < |r.states[n].targets|
    ensures !Ejected(r.states[n].targets[r.ops[n].got.value], r.ops[n].at)
  {
    assert DoesAt(r, n);
    PickIsInRotation(r.pool, r.states[n], r.ops[n].at, r.ops[n].hash, r.ops[n].got, r.states[n + 1]);
  }

  // ---------- fairness ----------

  /** How many of `c, c + 1, ..., c + k - 1` leave remainder `x`. */
  function Residues(c: nat, k: nat, m: nat, x: nat): nat
    requires m > 0
  {
    if k == 0 then 0 else Residues(c, k - 1, m, x) + if (c + k - 1) % m == x then 1 else 0
  }

  /** How many numbers below `n` leave remainder `x`. */
  function Below(n: nat, m: nat, x: nat): nat
    requires x < m
  {
    (n + m - 1 - x) / m
  }

  lemma {:induction false} BelowNext(n: nat, m: nat, x: nat)
    requires x < m
    ensures Below(n + 1, m, x) == Below(n, m, x) + if n % m == x then 1 else 0
  {
    var q, r := n / m, n % m;
    assert n == q * m + r;
    assert (q + 1) * m == q * m + m;
    assert (q + 2) * m == q * m + 2 * m;
    if r < x {
      Remainder(n + m - 1 - x, q, r + m - 1 - x, m);
      Remainder(n + m - x, q, r + m - x, m);
    } else if r == x {
      Remainder(n + m - 1 - x, q, m - 1, m);
      Remainder(n + m - x, q + 1, 0, m);
    } else {
      Remainder(n + m - 1 - x, q + 1, r - 1 - x, m);
      Remainder(n + m - x, q + 1, r - x, m);
    }
  }

  lemma {:induction false} ResiduesAre(c: nat, k: nat, m: nat, x: nat)
    requires x < m
    ensures Residues(c, k, m, x) == Below(c + k, m, x) - Below(c, m, x)
    decreases k
  {
    if k == 0 {
    } else {
      ResiduesAre(c, k - 1, m, x);
      BelowNext(c + k - 1, m, x);
    }
  }

  lemma {:induction false} SumQuotient(a: nat, k: nat, m: nat)
    requires m > 0
    ensures (a + k) / m == a / m + k / m || (a + k) / m == a / m + k / m + 1
  {
    var q, p := a / m, k / m;
    assert a == q * m + a % m && k == p * m + k % m;
    assert (q + p) * m == q * m + p * m && (q + p + 1) * m == q * m + p * m + m;
    var rest := a % m + k % m;
    if rest < m {
      Remainder(a + k, q + p, rest, m);
    } else {
      Remainder(a + k, q + p + 1, rest - m, m);
    }
  }

  /** Consecutive numbers spread over the remainders within one of each other. */
  lemma {:induction false} ResiduesBalance(c: nat, k: nat, m: nat, x: nat)
    requires x < m
    ensures k / m <= Residues(c, k, m, x) <= k / m + 1
  {
    ResiduesAre(c, k, m, x);
    SumQuotient(c + m - 1 - x, k, m);
    assert c + k + m - 1 - x == (c + m - 1 - x) + k;
  }

  /** Picks among `ops[a..b]`. */
  function PickCount(r: Run, a: nat, b: nat): nat
    requires a <= b <= |r.ops|
    decreases b
  {
    if a == b then 0 else PickCount(r, a, b - 1) + if r.ops[b - 1].Pick? then 1 else 0
  }

  /** Picks among `ops[a..b]` that went to target `t`. */
  function Served(r: Run, a: nat, b: nat, t: nat): nat
    requires a <= b <= |r.ops|
    decreases b
  {
    if a == b then 0
    else Served(r, a, b - 1, t) + if r.ops[b - 1].Pick? && r.ops[b - 1].got == Some(t) then 1 else 0
  }

  /** A round-robin stretch in which every pick finds the same targets in rotation. */
  ghost predicate Steady(r: Run, a: nat, b: nat, e: seq<nat>)
    requires a <= b <= |r.ops| && |r.states| == |r.ops| + 1
  {
    && r.pool.policy == RoundRobin && e != []
    && forall k :: a <= k < b && r.ops[k].Pick? ==> Eligible(r.states[k].targets, r.ops[k].at) == e
  }

  lemma {:induction false} TurnStep(r: Run, k: nat, e: seq<nat>)
    requires IsRun(r) && k < |r.ops| && r.pool.policy == RoundRobin && e != []
    requires r.ops[k].Pick? ==> Eligible(r.states[k].targets, r.ops[k].at) == e
    ensures if r.ops[k].Pick?
            then r.ops[k].got == Some(e[r.states[k].turn % |e|]) && r.states[k + 1].turn == Next(r.states[k].turn)
            else r.states[k + 1].turn == r.states[k].turn
  {
    assert DoesAt(r, k);
  }

  lemma {:induction false} TurnCounts(r: Run, a: nat, b: nat, e: seq<nat>)
    requires IsRun(r) && a <= b <= |r.ops| && Steady(r, a, b, e)
    requires r.states[a].turn + PickCount(r, a, b) < WORD
    ensures r.states[b].turn == r.states[a].turn + PickCount(r, a, b)
    decreases b
  {
    if a < b {
      TurnCounts(r, a, b - 1, e);
      TurnStep(r, b - 1, e);
    }
  }

  lemma {:induction false} ServedAreResidues(r: Run, a: nat, b: nat, e: seq<nat>, x: nat)
    requires IsRun(r) && a <= b <= |r.ops| && Steady(r, a, b, e)
    requires r.states[a].turn + PickCount(r, a, b) < WORD
    requires x < |e| && Increasing(e)
    ensures Served(r, a, b, e[x]) == Residues(r.states[a].turn, PickCount(r, a, b), |e|, x)
    decreases b
  {
    if a < b {
      ServedAreResidues(r, a, b - 1, e, x);
      TurnStep(r, b - 1, e);
      TurnCounts(r, a, b - 1, e);
      if r.ops[b - 1].Pick? {
        SamePlace(e, r.states[b - 1].turn % |e|, x);
      }
    }
  }

  lemma {:induction false} SamePlace(e: seq<nat>, y: nat, x: nat)
    requires y < |e| && x < |e| && Increasing(e)
    ensures e[y] == e[x] <==> y == x
  {}

  /** Over an unchanged rotation, and before the counter wraps, a stretch of round-robin picks serves
      any two targets within one of each other, and each at least its share rounded down. */
  lemma {:induction false} RoundRobinIsFair(r: Run, a: nat, b: nat, e: seq<nat>, x: nat, y: nat)
    requires IsRun(r) && a <= b <= |r.ops| && Steady(r, a, b, e)
    requires r.states[a].turn + PickCount(r, a, b) < WORD
    requires x < |e| && y < |e|
    ensures Served(r, a, b, e[x]) <= Served(r, a, b, e[y]) + 1
    ensures Served(r, a, b, e[x]) >= PickCount(r, a, b) / |e|
  {
    ServedAtMost(r, a, b, e[x]);
    if PickCount(r, a, b) > 0 {
      var k := AnyPick(r, a, b);
      EligibleInOrder(r.states[k].targets, r.ops[k].at);
      ServedAreResidues(r, a, b, e, x);
      ServedAreResidues(r, a, b, e, y);
      ResiduesBalance(r.states[a].turn, PickCount(r, a, b), |e|, x);
      ResiduesBalance(r.states[a].turn, PickCount(r, a, b), |e|, y);
    }
  }

  lemma {:induction false} ServedAtMost(r: Run, a: nat, b: nat, t: nat)
    requires a <= b <= |r.ops|
    ensures Served(r, a, b, t) <= PickCount(r, a, b)
    decreases b
  {
    if a < b {
      ServedAtMost(r, a, b - 1, t);
    }
  }

  lemma {:induction false} AnyPick(r: Run, a: nat, b: nat) returns (k: nat)
    requires a <= b <= |r.ops| && PickCount(r, a, b) > 0
    ensures a <= k < b && r.ops[k].Pick?
    decreases b
  {
    if r.ops[b - 1].Pick? {
      k := b - 1;
    } else {
      k := AnyPick(r, a, b - 1);
    }
  }

  // ---------- which target a pick names ----------

  /** The targets in rotation at `now`. */
  ghost function Rotation(ts: seq<Target>, now: nat): set<nat> {
    set i: nat | i < |ts| && !Ejected(ts[i], now)
  }

  ghost function Earlier(ids: set<nat>, t: nat): set<nat> {
    set i | i in ids && i < t
  }

  ghost function Elements(e: seq<nat>): set<nat> {
    set i | i in e
  }

  lemma {:induction false} ElementsGrow(e: seq<nat>, n: nat)
    requires n !in e
    ensures |Elements(e + [n])| == |Elements(e)| + 1
  {
    assert Elements(e + [n]) == Elements(e) + {n};
  }

  lemma {:induction false} SizeOfIncreasing(e: seq<nat>)
    requires Increasing(e)
    ensures |Elements(e)| == |e|
    decreases |e|
  {
    if e == [] {
    } else {
      var last := |e| - 1;
      SizeOfIncreasing(e[..last]);
      ElementsGrow(e[..last], e[last]);
      assert e == e[..last] + [e[last]];
    }
  }

  lemma {:induction false} PlaceInRotation(ts: seq<Target>, now: nat, x: nat)
    requires x < |Eligible(ts, now)|
    ensures var e, ids := Eligible(ts, now), Rotation(ts, now);
            && |ids| == |e| && e[x] in ids && |Earlier(ids, e[x])| == x
  {
    var e := Eligible(ts, now);
    EligibleMeans(ts, now);
    EligibleInOrder(ts, now);
    hide Eligible;
    SizeOfIncreasing(e);
    SizeOfIncreasing(e[..x]);
    assert e[x] in e;
    assert Rotation(ts, now) == Elements(e);
    assert Earlier(Rotation(ts, now), e[x]) == Elements(e[..x]);
  }

  /** How many of the first `n` operations were picks that found a target. */
  ghost function Found(r: Run, n: nat): nat
    requires n <= |r.ops|
  {
    if n == 0 then 0 else Found(r, n - 1) + if r.ops[n - 1].Pick? && r.ops[n - 1].got.Some? then 1 else 0
  }

  lemma {:induction false} CounterNext(r: Run, n: nat)
    requires IsRun(r) && n < |r.ops| && (r.pool.policy.RoundRobin? || r.pool.policy.Random?)
    requires r.states[n].turn < 0x1_0000_0000_0000_0000
    ensures r.states[n + 1].turn ==
            (r.states[n].turn + if r.ops[n].Pick? && r.ops[n].got.Some? then 1 else 0) % 0x1_0000_0000_0000_0000
  {
    assert DoesAt(r, n);
  }

  lemma {:induction false} CounterCounts(r: Run, n: nat)
    requires IsRun(r) && n <= |r.ops| && (r.pool.policy.RoundRobin? || r.pool.policy.Random?)
    ensures r.states[n].turn == Found(r, n) % 0x1_0000_0000_0000_0000
    decreases n
  {
    if n == 0 {
    } else {
      CounterCounts(r, n - 1);
      CounterNext(r, n - 1);
    }
  }

  /** What decides a pick that is not by load: the picks so far, plain or multiplied by a constant, both 64
      bits wide, or the client's hash. */
  ghost function Ticket(r: Run, n: nat): nat
    requires n < |r.ops| && r.ops[n].Pick?
  {
    var found := Found(r, n) % 0x1_0000_0000_0000_0000;
    match r.pool.policy
    case Random => found * 2_654_435_761 % 0x1_0000_0000_0000_0000
    case IpHash => r.ops[n].hash
    case _ => found
  }

  /** In every run a round-robin, random or hashed pick is the target in rotation that has as many before it
      as the ticket modulo their number. */
  lemma {:induction false} TicketDecides(r: Run, n: nat)
    requires IsRun(r) && n < |r.ops| && r.ops[n].Pick? && !r.pool.policy.LeastConn?
    ensures var ids := Rotation(r.states[n].targets, r.ops[n].at);
            if ids == {} then r.ops[n].got == None
            else && r.ops[n].got.Some? && r.ops[n].got.value in ids
                 && |Earlier(ids, r.ops[n].got.value)| == Ticket(r, n) % |ids|
  {
    var ts, now := r.states[n].targets, r.ops[n].at;
    var e := Eligible(ts, now);
    EligibleMeans(ts, now);
    assert DoesAt(r, n);
    if r.pool.policy.RoundRobin? || r.pool.policy.Random? {
      CounterCounts(r, n);
    }
    if e == [] {
      assert Rotation(ts, now) == {};
    } else {
      assert e[0] in e && e[0] in Rotation(ts, now);
      var x: nat :| Chosen(r.pool, r.states[n], e, r.ops[n].hash, x) && r.ops[n].got == Some(e[x]);
      PlaceInRotation(ts, now, x);
    }
  }

  /** A pick by load is the first target in rotation with the fewest requests in flight. */
  lemma {:induction false} LeastLoadDecides(r: Run, n: nat)
    requires IsRun(r) && n < |r.ops| && r.ops[n].Pick? && r.pool.policy.LeastConn?
    ensures var ts, ids := r.states[n].targets, Rotation(r.states[n].targets, r.ops[n].at);
            if ids == {} then r.ops[n].got == None
            else && r.ops[n].got.Some? && r.ops[n].got.value in ids
                 && forall i :: i in ids ==>
                      var t := r.ops[n].got.value;
                      ts[t].inflight < ts[i].inflight || (ts[t].inflight == ts[i].inflight && t <= i)
  {
    var ts, now := r.states[n].targets, r.ops[n].at;
    var e := Eligible(ts, now);
    EligibleMeans(ts, now);
    EligibleInOrder(ts, now);
    assert DoesAt(r, n);
    if e == [] {
      assert Rotation(ts, now) == {};
    } else {
      assert e[0] in e && e[0] in Rotation(ts, now);
      var x: nat :| Chosen(r.pool, r.states[n], e, r.ops[n].hash, x) && r.ops[n].got == Some(e[x]);
      assert e[x] in e;
      forall i | i in Rotation(ts, now)
        ensures ts[e[x]].inflight < ts[i].inflight || (ts[e[x]].inflight == ts[i].inflight && e[x] <= i)
      {
        var y :| 0 <= y < |e| && e[y] == i;
      }
    }
  }

  /** Requests begun at target `i` less those finished there. */
  function Open(ops: seq<Op>, n: nat, i: nat): int
    requires n <= |ops|
  {
    if n == 0 then 0
    else Open(ops, n - 1, i) + if ops[n - 1] == Start(i) then 1 else if ops[n - 1] == End(i) then -1 else 0
  }

  /** The load of a target is the requests begun there less those finished, 64 bits wide. */
  lemma {:induction false} LoadCounts(r: Run, n: nat, i: nat)
    requires IsRun(r) && n <= |r.ops| && i < r.size
    ensures |r.states[n].targets| == r.size
    ensures r.states[n].targets[i].inflight == Open(r.ops, n, i) % 0x1_0000_0000_0000_0000
    decreases n
  {
    if n == 0 {
    } else {
      LoadCounts(r, n - 1, i);
      LoadNext(r, n - 1, i);
    }
  }

  lemma {:induction false} LoadNext(r: Run, n: nat, i: nat)
    requires IsRun(r) && n < |r.ops| && i < r.size && |r.states[n].targets| == r.size
    ensures |r.states[n + 1].targets| == r.size
    ensures var a, b := r.states[n].targets[i].inflight, r.states[n + 1].targets[i].inflight;
            b == if r.ops[n] == Start(i) then (a + 1) % 0x1_0000_0000_0000_0000
                 else if r.ops[n] == End(i) then (a - 1) % 0x1_0000_0000_0000_0000 else a
  {
    assert DoesAt(r, n);
  }
}
