/** Probes go round: whom each probe asks, and that every live peer has its turn. */
module GossipTurns {
  import opened Basics
  import opened GossipWire
  import opened GossipNode
  import opened GossipCluster
  import opened GossipProgress

  /** Step `i` is one at which `a` sends out a new probe. */
  ghost predicate Opens(r: Run, i: nat, a: NodeId)
    requires IsRun(r) && i < |r.actions|
  {
    r.actions[i].StartProbe? && r.actions[i].node == a && Before(r, i).probe.None? && After(r, i).probe.Some?
  }

  /** How many probes `a` has sent out before step `k`. */
  ghost function Opened(r: Run, k: nat, a: NodeId): nat
    requires IsRun(r) && k < |r.states|
  {
    if k == 0 then 0 else Opened(r, k - 1, a) + if Opens(r, k - 1, a) then 1 else 0
  }

  /** The members of `ids` before `n` in identifier order. */
  ghost function Earlier(ids: set<NodeId>, n: NodeId): set<NodeId> {
    set m | m in ids && Less(m, n)
  }

  // ---------- positions in the order ----------

  lemma {:induction false} SizeOfDistinct(ids: seq<NodeId>)
    requires forall i, j :: 0 <= i < j < |ids| ==> ids[i] != ids[j]
    ensures |set m | m in ids| == |ids|
    decreases |ids|
  {
    if ids == [] {
    } else {
      var last := |ids| - 1;
      SizeOfDistinct(ids[..last]);
      assert (set m | m in ids) == (set m | m in ids[..last]) + {ids[last]};
    }
  }

  lemma {:induction false} SortedPosition(sorted: seq<NodeId>, ids: set<NodeId>, k: nat)
    requires Lists(sorted, ids) && Ascending(sorted) && k < |sorted|
    ensures |Earlier(ids, sorted[k])| == k && |ids| == |sorted|
  {
    SizeOfDistinct(sorted[..k]);
    SizeOfDistinct(sorted);
    assert ids == set m | m in sorted;
    forall m | m in ids
      ensures Less(m, sorted[k]) <==> m in sorted[..k]
    {
      var j :| 0 <= j < |sorted| && sorted[j] == m;
      if j < k {
        assert sorted[..k][j] == m;
      } else {
        LessIrreflexive(m);
        if j > k {
          LessAsymmetric(sorted[k], m);
        }
      }
    }
    assert Earlier(ids, sorted[k]) == set m | m in sorted[..k];
  }

  lemma {:induction false} OnePosition(ids: set<NodeId>, m: NodeId, n: NodeId)
    requires m in ids && n in ids && |Earlier(ids, m)| == |Earlier(ids, n)|
    ensures m == n
  {
    LessTotal(m, n);
    if Less(m, n) {
      StrictlyEarlier(ids, m, n);
    } else if Less(n, m) {
      StrictlyEarlier(ids, n, m);
    }
  }

  lemma {:induction false} StrictlyEarlier(ids: set<NodeId>, m: NodeId, n: NodeId)
    requires m in ids && Less(m, n)
    ensures |Earlier(ids, m)| < |Earlier(ids, n)|
  {
    forall x | x in Earlier(ids, m)
      ensures x in Earlier(ids, n) - {m}
    {
      LessTransitive(x, m, n);
      LessIrreflexive(m);
    }
    SubsetSize(Earlier(ids, m), Earlier(ids, n) - {m});
  }

  lemma {:induction false} SubsetSize(a: set<NodeId>, b: set<NodeId>)
    requires a <= b
    ensures |a| <= |b|
  {
    assert b == a + (b - a);
  }

  lemma {:induction false} PositionInRange(ids: set<NodeId>, m: NodeId)
    requires m in ids
    ensures |Earlier(ids, m)| < |ids|
  {
    LessIrreflexive(m);
    SubsetSize(Earlier(ids, m), ids - {m});
  }

  // ---------- whose turn it is ----------

  lemma {:induction false} CounterMoves(s: Node, a: Action, s': Node)
    requires LocalStep(s, a, s')
    ensures s'.roundRobin == (s.roundRobin + if a.StartProbe? && s.probe.None? && s'.probe.Some? then 1 else 0)
                             % 0x1_0000_0000_0000_0000
  {}

  lemma {:induction false} CounterCounts(r: Run, k: nat, a: NodeId)
    requires IsRun(r) && k < |r.states| && a in r.states[k].nodes
    ensures r.states[k].nodes[a].roundRobin == Opened(r, k, a) % 0x1_0000_0000_0000_0000
    decreases k
  {
    if k == 0 {
      assert Fresh(a, r.states[0].nodes[a]);
    } else {
      hide Opens, Before, After;
      CounterNext(r, k - 1, a);
      CounterCounts(r, k - 1, a);
    }
  }

  lemma {:induction false} CounterNext(r: Run, i: nat, a: NodeId)
    requires IsRun(r) && i < |r.actions| && a in r.states[i + 1].nodes
    ensures a in r.states[i].nodes
    ensures r.states[i + 1].nodes[a].roundRobin ==
            (r.states[i].nodes[a].roundRobin + if Opens(r, i, a) then 1 else 0) % 0x1_0000_0000_0000_0000
  {
    hide LocalStep, StepsAt;
    NodeAt(r, i, a);
    if a == r.actions[i].node {
      CounterMoves(r.states[i].nodes[a], r.actions[i], r.states[i + 1].nodes[a]);
    }
  }

  /** The probe sent out is of `n`, pinged under the probe's number. */
  ghost predicate Asks(s: Node, now: Time, n: NodeId, sent: seq<Envelope>, s': Node) {
    && |sent| == 1 && n in s.shared.peers && sent[0].dst == s.shared.peers[n].addr && sent[0].frame.kind.Ping?
    && s'.probe == Some(Probe(sent[0].frame.seqNo, n, sent[0].dst, Direct, now + s.cfg.probeTimeout))
    && s'.shared == s.shared && s'.relays == s.relays
  }

  lemma {:induction false} PositionAsked(s: Node, now: Time, sorted: seq<NodeId>, sent: seq<Envelope>, s': Node)
    requires StartsProbe(s, now, sorted, sent, s')
    ensures var live := NotDead(s.shared);
            if s.probe.Some? || live == {} then s' == s && sent == []
            else exists n :: n in live && |Earlier(live, n)| == s.roundRobin % |live| && Asks(s, now, n, sent, s')
  {
    var live := NotDead(s.shared);
    assert Live(s.shared) == live;
    SizeIsLength(sorted, live);
    if s.probe.None? && live != {} {
      assert |live| > 0;
      var k := s.roundRobin % |sorted|;
      SortedPosition(sorted, live, k);
      assert Asks(s, now, sorted[k], sent, s');
    }
  }

  /** With no probe out and someone not dead, starting a probe pings the peer whose turn it is and waits a
      probe timeout for it: as many live peers come before it in identifier order as probes have gone out,
      modulo the width of the counter and the number of live peers. Otherwise nothing happens. */
  lemma {:induction false} ProbesInTurn(r: Run, i: nat)
    requires IsRun(r) && i < |r.actions| && r.actions[i].StartProbe?
    ensures var s, s', a, live := Before(r, i), After(r, i), r.actions[i], NotDead(Before(r, i).shared);
            if s.probe.Some? || live == {} then s' == s && a.sent == []
            else exists n ::
                   && n in live && |Earlier(live, n)| == Opened(r, i, a.node) % 0x1_0000_0000_0000_0000 % |live|
                   && Asks(s, a.now, n, a.sent, s')
  {
    ActedOn(r, i);
    hide StartsProbe, Asks, IsRun;
    var a := r.actions[i];
    CounterCounts(r, i, a.node);
    PositionAsked(Before(r, i), a.now, a.order, a.sent, After(r, i));
  }

  lemma {:induction false} SizeIsLength(order: seq<NodeId>, ids: set<NodeId>)
    requires Lists(order, ids)
    ensures |order| == |ids|
  {
    SizeOfDistinct(order);
    assert ids == set m | m in order;
  }

  // ---------- everyone has a turn ----------

  /** Between two states, the probe with any number in between was sent out at some step. */
  lemma {:induction false} ProbeWithCount(r: Run, i: nat, j: nat, a: NodeId, c: nat) returns (k: nat)
    requires IsRun(r) && i <= j < |r.states| && Opened(r, i, a) <= c < Opened(r, j, a)
    ensures i <= k < j && Opens(r, k, a) && Opened(r, k, a) == c
    decreases j
  {
    assert i < j;
    if c < Opened(r, j - 1, a) {
      k := ProbeWithCount(r, i, j - 1, a, c);
    } else {
      k := j - 1;
    }
  }

  /** Every stretch of as many numbers as there are remainders has each of them. */
  lemma {:induction false} RemainderComes(from: nat, n: nat, p: nat) returns (c: nat)
    requires p < n
    ensures from <= c < from + n && c % n == p
  {
    var d := if p >= from % n then p - from % n else p + n - from % n;
    c := from + d;
    var q := from / n + if p >= from % n then 0 else 1;
    assert from == n * (from / n) + from % n;
    assert c == q * n + p;
    Remainder(c, q, p, n);
  }

  /** While the live peers of a node stay the same, as many probes as there are of them ask every one; the
      probe counter must not wrap in between. */
  lemma {:induction false} EveryLivePeerIsProbed(r: Run, i: nat, j: nat, a: NodeId, live: set<NodeId>, m: NodeId)
    requires IsRun(r) && i <= j < |r.states| && m in live
    requires forall k :: i <= k < j && r.actions[k].node == a ==> NotDead(Before(r, k).shared) == live
    requires Opened(r, i, a) + |live| <= Opened(r, j, a) <= 0x1_0000_0000_0000_0000
    ensures exists k :: i <= k < j && Opens(r, k, a) && After(r, k).probe.value.target == m
  {
    hide NotDead, Earlier, Opened, Before, After, StepsAt;
    PositionInRange(live, m);
    var c := RemainderComes(Opened(r, i, a), |live|, |Earlier(live, m)|);
    var k := ProbeWithCount(r, i, j, a, c);
    assert NotDead(Before(r, k).shared) == live;
    TurnDecides(r, k, live, m);
  }

  lemma {:induction false} TurnDecides(r: Run, k: nat, live: set<NodeId>, m: NodeId)
    requires IsRun(r) && k < |r.actions| && Opens(r, k, r.actions[k].node) && m in live
    requires NotDead(Before(r, k).shared) == live && Opened(r, k, r.actions[k].node) < 0x1_0000_0000_0000_0000
    requires |Earlier(live, m)| == Opened(r, k, r.actions[k].node) % |live|
    ensures After(r, k).probe.value.target == m
  {
    hide IsRun, NotDead, Earlier, Opened, Before, After;
    ProbesInTurn(r, k);
    OnePosition(live, m, After(r, k).probe.value.target);
  }
}
