/** What the failure detector, the rounds and the relays get done, told in the fields of the nodes at
    every step of every run. */
module GossipProgress {
  import opened Basics
  import opened GossipWire
  import opened GossipNode
  import opened GossipCluster
  import opened GossipOwnership
  import opened GossipView
  import opened GossipProvenance

  /** The acting node before step `i`. */
  ghost function Before(r: Run, i: nat): Node
    requires IsRun(r) && i < |r.actions|
  {
    assert StepsAt(r, i);
    r.states[i].nodes[r.actions[i].node]
  }

  /** And after it. */
  ghost function After(r: Run, i: nat): Node
    requires IsRun(r) && i < |r.actions|
  {
    assert StepsAt(r, i);
    r.states[i + 1].nodes[r.actions[i].node]
  }

  lemma {:induction false} ActedOn(r: Run, i: nat)
    requires IsRun(r) && i < |r.actions|
    ensures r.actions[i].node in r.states[i].nodes && r.actions[i].node in r.states[i + 1].nodes
    ensures LocalStep(Before(r, i), r.actions[i], After(r, i))
  {
    assert StepsAt(r, i);
  }

  // ---------- rounds ----------

  /** `hs` is `most` different members of `pool`, or all of them if there are fewer. */
  ghost predicate Picks(hs: seq<NodeId>, pool: set<NodeId>, most: nat) {
    && (forall k :: 0 <= k < |hs| ==> hs[k] in pool)
    && (forall j, k :: 0 <= j < k < |hs| ==> hs[j] != hs[k])
    && |hs| <= most && (|hs| == most || forall n :: n in pool ==> n in hs)
  }

  ghost function NotDead(s: Shared): set<NodeId> {
    set n | n in s.peers && s.peers[n].state != Dead
  }

  /** Pings to a fanout of peers not dead and to every seed not already among them, no seed twice. */
  ghost predicate Spreads(s: Node, sent: seq<Envelope>) {
    && (forall e :: e in sent ==> e.frame.kind.Ping?)
    && (forall a :: a in s.cfg.seeds ==> Pinged(sent, a))
    && exists hs :: && Picks(hs, NotDead(s.shared), s.cfg.gossipFanout)
                    && SentTo(s.shared, s.cfg.seeds, hs, sent)
  }

  ghost predicate Pinged(sent: seq<Envelope>, a: Addr) {
    exists e :: e in sent && e.dst == a
  }

  ghost predicate SentTo(s: Shared, seeds: seq<Addr>, hs: seq<NodeId>, sent: seq<Envelope>) {
    && |hs| <= |sent|
    && (forall k :: 0 <= k < |hs| ==> hs[k] in s.peers && sent[k].dst == s.peers[hs[k]].addr)
    && (forall k :: |hs| <= k < |sent| ==> sent[k].dst in seeds && !Pinged(sent[..k], sent[k].dst))
  }

  lemma {:induction false} AddedSeeds(dests: seq<Addr>, seeds: seq<Addr>)
    ensures var d := AddSeeds(dests, seeds);
            && dests <= d
            && (forall a :: a in seeds ==> a in d)
            && (forall k :: |dests| <= k < |d| ==> d[k] in seeds && d[k] !in d[..k])
  {
    if seeds == [] {
    } else {
      var most, last := seeds[..|seeds| - 1], seeds[|seeds| - 1];
      AddedSeeds(dests, most);
      var d, d' := AddSeeds(dests, most), AddSeeds(dests, seeds);
      assert seeds == most + [last];
      forall k | |dests| <= k < |d'|
        ensures d'[k] in seeds && d'[k] !in d'[..k]
      {
        if k < |d| {
          assert d'[..k] == d[..k];
          assert d'[k] in most;
        } else {
          assert d'[..k] == d;
        }
      }
    }
  }

  lemma {:induction false} TakenPicks(order: seq<NodeId>, pool: set<NodeId>, most: nat)
    requires Lists(order, pool)
    ensures Picks(Take(order, most), pool, most)
  {
  }

  lemma {:induction false} RoundSpreads(s: Node, order: seq<NodeId>, sent: seq<Envelope>)
    requires IsRound(s, order, sent)
    ensures Spreads(s, sent)
  {
    var hs := Take(order, s.cfg.gossipFanout);
    var dests := AddrsOf(s.shared, hs);
    var d := RoundDests(s, order);
    AddedSeeds(dests, s.cfg.seeds);
    TakenPicks(order, Live(s.shared), s.cfg.gossipFanout);
    assert Live(s.shared) == NotDead(s.shared);
    forall a | a in s.cfg.seeds
      ensures Pinged(sent, a)
    {
      var k :| 0 <= k < |d| && d[k] == a;
      assert sent[k] in sent;
    }
    forall k | |hs| <= k < |sent|
      ensures sent[k].dst in s.cfg.seeds && !Pinged(sent[..k], sent[k].dst)
    {
      assert d[k] !in d[..k];
      forall j | 0 <= j < k
        ensures sent[j].dst != sent[k].dst
      {
        assert d[..k][j] == d[j];
      }
    }
    forall k | 0 <= k < |hs|
      ensures hs[k] in s.shared.peers && sent[k].dst == s.shared.peers[hs[k]].addr
    {
      assert d[k] == dests[k];
    }
    assert SentTo(s.shared, s.cfg.seeds, hs, sent);
  }

  /** A round reaches every seed and a fanout of live peers, and changes nothing but the next number. */
  lemma {:induction false} RoundReaches(r: Run, i: nat)
    requires IsRun(r) && i < |r.actions| && r.actions[i].GossipRound?
    ensures Spreads(Before(r, i), r.actions[i].sent)
    ensures After(r, i) == Before(r, i).(seqNo := After(r, i).seqNo)
  {
    ActedOn(r, i);
    RoundSpreads(Before(r, i), r.actions[i].order, r.actions[i].sent);
  }

  // ---------- probes and suspicion ----------

  /** Everything but this part of the node is as it was. */
  ghost predicate SameButPeers(s: Shared, t: Shared) {
    t == s.(peers := t.peers, members := t.members)
  }

  /** A probe that nobody answered, directly or through a helper, ends: its target, if held alive at any
      incarnation, is suspect at that incarnation until a suspicion timeout from now; every other
      record stays, the view too, and a round spreads the word. */
  lemma {:induction false} UnansweredIsSuspected(r: Run, i: nat)
    requires IsRun(r) && i < |r.actions| && r.actions[i].AdvanceProbe?
    requires var p := Before(r, i).probe;
             p.Some? && p.value.phase.Indirect? && p.value.deadline <= r.actions[i].now
    ensures var s, s', now, n := Before(r, i), After(r, i), r.actions[i].now, Before(r, i).probe.value.target;
            && s'.probe.None? && s'.shared == s.shared.(peers := s'.shared.peers)
            && s'.shared.peers.Keys == s.shared.peers.Keys
            && (forall m :: m in s.shared.peers ==>
                  var p, p' := s.shared.peers[m], s'.shared.peers[m];
                  if m == n && p.state == Alive
                  then p' == Peer(p.addr, p.incarnation, Suspect, Some(now + s.cfg.suspicionTimeout))
                  else p' == p)
            && Spreads(s', r.actions[i].sent)
  {
    ActedOn(r, i);
    var s, a := Before(r, i), r.actions[i];
    var t := s.(probe := None, shared := MarkSuspect(s.shared, s.probe.value.target, a.now, s.cfg.suspicionTimeout));
    RoundSpreads(t, a.order, a.sent);
    SpreadsAgain(t, After(r, i), a.sent);
  }

  lemma {:induction false} SpreadsAgain(s: Node, t: Node, sent: seq<Envelope>)
    requires Spreads(s, sent) && t.cfg == s.cfg && t.shared == s.shared
    ensures Spreads(t, sent)
  {}

  /** A direct probe past its deadline asks as many helpers as configured, alive and at other addresses, to
      ping the target under the same number, and waits another probe timeout. */
  lemma {:induction false} LateProbeAsksHelpers(r: Run, i: nat)
    requires IsRun(r) && i < |r.actions| && r.actions[i].AdvanceProbe?
    requires var p := Before(r, i).probe;
             p.Some? && p.value.phase.Direct? && p.value.deadline <= r.actions[i].now
    ensures var s, p, sent := Before(r, i), Before(r, i).probe.value, r.actions[i].sent;
            && After(r, i) == s.(probe := Some(Probe(p.seqNo, p.target, p.targetAddr, Indirect,
                                                     r.actions[i].now + s.cfg.probeTimeout)))
            && exists hs :: Picks(hs, AliveElsewhere(s.shared, p.targetAddr), s.cfg.indirectProbes)
                            && Asked(s.shared, p, hs, sent)
  {
    ActedOn(r, i);
    var s, p, a := Before(r, i), Before(r, i).probe.value, r.actions[i];
    var hs := Take(a.order, s.cfg.indirectProbes);
    assert Helpers(s.shared, p.targetAddr) == AliveElsewhere(s.shared, p.targetAddr);
    TakenPicks(a.order, AliveElsewhere(s.shared, p.targetAddr), s.cfg.indirectProbes);
    assert Asked(s.shared, p, hs, a.sent);
  }

  ghost function AliveElsewhere(s: Shared, target: Addr): set<NodeId> {
    set n | n in s.peers && s.peers[n].state == Alive && s.peers[n].addr != target
  }

  /** Every helper is asked to ping the probe's target under the probe's number. */
  ghost predicate Asked(s: Shared, p: Probe, hs: seq<NodeId>, sent: seq<Envelope>) {
    && |sent| == |hs|
    && forall k :: 0 <= k < |hs| ==>
         && hs[k] in s.peers && sent[k].dst == s.peers[hs[k]].addr
         && sent[k].frame.kind == PingReq(p.targetAddr) && sent[k].frame.seqNo == p.seqNo
  }

  /** Reaping turns exactly the suspects whose deadline has come to dead, at their incarnation, and takes
      exactly them out of the view; it spreads the word exactly if there were any. */
  lemma {:induction false} DueSuspectsDie(r: Run, i: nat)
    requires IsRun(r) && i < |r.actions| && r.actions[i].ReapSuspects?
    ensures var s, s', now := Before(r, i), After(r, i), r.actions[i].now;
            && SameButPeers(s.shared, s'.shared) && s'.probe == s.probe && s'.relays == s.relays
            && s'.shared.peers.Keys == s.shared.peers.Keys
            && (forall m :: m in s.shared.peers ==>
                  var p, p' := s.shared.peers[m], s'.shared.peers[m];
                  p' == if Due(p, now) then Peer(p.addr, p.incarnation, Dead, None) else p)
            && (forall m :: m in s'.shared.members <==>
                  m in s.shared.members && !(m in s.shared.peers && Due(s.shared.peers[m], now)))
            && (if exists m :: m in s.shared.peers && Due(s.shared.peers[m], now)
                then Spreads(s', r.actions[i].sent) else r.actions[i].sent == [])
  {
    ActedOn(r, i);
    var s, a := Before(r, i), r.actions[i];
    ViewHolds(r, i, a.node);
    forall m | m in s.shared.peers
      ensures Due(s.shared.peers[m], a.now) <==> Expired(s.shared.peers[m], a.now)
    {}
    if AnyExpired(s.shared, a.now) {
      var t := s.(shared := Reap(s.shared, a.now));
      RoundSpreads(t, a.order, a.sent);
      SpreadsAgain(t, After(r, i), a.sent);
    }
  }

  predicate Due(p: Peer, now: Time) {
    p.state == Suspect && p.deadline.Some? && p.deadline.value <= now
  }

  /** From the step that suspects it on, a member still suspected at that incarnation keeps its deadline. */
  lemma {:induction false} SuspicionKeepsDeadline(r: Run, i: nat, k: nat, a: NodeId, n: NodeId, inc: nat, until: Time)
    requires IsRun(r) && i <= k < |r.states| && HoldsSuspect(r.states[i], a, n, inc, until)
    requires forall j :: i <= j <= k ==> SuspectedAt(r, j, a, n, inc)
    ensures HoldsSuspect(r.states[k], a, n, inc, until)
    decreases k
  {
    if k > i {
      SuspicionKeepsDeadline(r, i, k - 1, a, n, inc, until);
      assert SuspectedAt(r, k - 1, a, n, inc) && SuspectedAt(r, k, a, n, inc);
      hide IsRun, LocalStep;
      NodeAt(r, k - 1, a);
      if a == r.actions[k - 1].node {
        BecomesSuspect(r.states[k - 1].nodes[a], r.actions[k - 1], r.states[k].nodes[a], n);
      }
    }
  }

  ghost predicate SuspectedAt(r: Run, k: nat, a: NodeId, n: NodeId, inc: nat)
    requires k < |r.states|
  {
    && a in r.states[k].nodes && n in r.states[k].nodes[a].shared.peers
    && r.states[k].nodes[a].shared.peers[n].state == Suspect
    && r.states[k].nodes[a].shared.peers[n].incarnation == inc
  }

  /** Detection: step `i` ends a probe that nobody answered, its target held alive at any incarnation;
      nothing lifts the suspicion until step `j` reaps, a suspicion timeout later or more. Then the
      target is dead at that incarnation and out of the view. */
  lemma {:induction false} SilentPeerDies(r: Run, i: nat, j: nat, n: NodeId, inc: nat)
    requires IsRun(r) && i < j < |r.actions|
    requires r.actions[i].AdvanceProbe? && r.actions[j].ReapSuspects? && r.actions[i].node == r.actions[j].node
    requires var p := Before(r, i).probe;
             p.Some? && p.value.phase.Indirect? && p.value.deadline <= r.actions[i].now && p.value.target == n
    requires n in Before(r, i).shared.peers && Before(r, i).shared.peers[n].state == Alive
    requires Before(r, i).shared.peers[n].incarnation == inc
    requires forall k :: i < k <= j ==> SuspectedAt(r, k, r.actions[i].node, n, inc)
    requires r.actions[j].now >= r.actions[i].now + Before(r, i).cfg.suspicionTimeout
    ensures var t := After(r, j).shared;
            n in t.peers && t.peers[n].state == Dead && t.peers[n].incarnation == inc && n !in t.members
  {
    var a, until := r.actions[i].node, r.actions[i].now + Before(r, i).cfg.suspicionTimeout;
    hide IsRun;
    UnansweredIsSuspected(r, i);
    ActedOn(r, i);
    ActedOn(r, j);
    hide LocalStep, Spreads;
    assert HoldsSuspect(r.states[i + 1], a, n, inc, until);
    SuspicionKeepsDeadline(r, i + 1, j, a, n, inc, until);
    DueSuspectsDie(r, j);
    assert Due(Before(r, j).shared.peers[n], r.actions[j].now);
  }

  // ---------- answers ----------

  /** The node handles a frame of this kind at step `i`. */
  ghost predicate Handles(r: Run, i: nat, f: Frame)
    requires IsRun(r) && i < |r.actions|
  {
    r.actions[i].Dispatch? && Before(r, i).handling == Some(f)
  }

  /** A ping is answered to its sender under its number, and changes nothing. */
  lemma {:induction false} PingIsAnswered(r: Run, i: nat, f: Frame)
    requires IsRun(r) && i < |r.actions| && Handles(r, i, f) && f.kind.Ping?
    ensures exists e :: r.actions[i].sent == [e] && e.dst == f.fromAddr && e.frame.kind.Ack? && e.frame.seqNo == f.seqNo
    ensures After(r, i) == Before(r, i).(handling := None)
  {
    ActedOn(r, i);
    assert r.actions[i].sent == [r.actions[i].sent[0]];
  }

  /** An ack with the number of the probe out ends it: the probed peer, unless it is dead, is alive without a
      deadline and in the view. No other record changes, and an ack with any other number
      changes none. */
  lemma {:induction false} AnsweredIsAlive(r: Run, i: nat, f: Frame)
    requires IsRun(r) && i < |r.actions| && Handles(r, i, f) && f.kind.Ack?
    ensures var s, s' := Before(r, i), After(r, i);
            var ours := s.probe.Some? && s.probe.value.seqNo == f.seqNo;
            && SameButPeers(s.shared, s'.shared) && s'.handling.None?
            && s'.probe == (if ours then None else s.probe)
            && s'.shared.peers.Keys == s.shared.peers.Keys
            && (forall m :: m in s.shared.peers ==>
                  var p, p' := s.shared.peers[m], s'.shared.peers[m];
                  if ours && m == s.probe.value.target && p.state != Dead
                  then p' == Peer(p.addr, p.incarnation, Alive, None) && m in s'.shared.members
                  else p' == p)
            && s'.shared.members == s.shared.members
  {
    ActedOn(r, i);
    var s := Before(r, i);
    ViewHolds(r, i, r.actions[i].node);
    if s.probe.Some? && s.probe.value.target in s.shared.peers && s.shared.peers[s.probe.value.target].state != Dead {
      assert s.probe.value.target in Live(s.shared);
      assert s.shared.members + {s.probe.value.target} == s.shared.members;
    }
  }

  // ---------- relays ----------

  /** A ping request is passed on under its number, and who asked is remembered for two probe timeouts. */
  lemma {:induction false} RequestIsRelayed(r: Run, i: nat, f: Frame)
    requires IsRun(r) && i < |r.actions| && Handles(r, i, f) && f.kind.PingReq?
    ensures exists e :: r.actions[i].sent == [e] && e.dst == f.kind.target && e.frame.kind.Ping? && e.frame.seqNo == f.seqNo
    ensures var s := Before(r, i);
            After(r, i) == s.(handling := None,
                              relays := s.relays[f.seqNo := Relay(f.fromAddr, f.kind.target,
                                                                  r.actions[i].now + 2 * s.cfg.probeTimeout)])
  {
    ActedOn(r, i);
    assert r.actions[i].sent == [r.actions[i].sent[0]];
  }

  /** An ack takes the relay of its number with it, and goes back to who asked exactly if it comes from the
      address that was to be pinged. */
  lemma {:induction false} AckIsRelayed(r: Run, i: nat, f: Frame)
    requires IsRun(r) && i < |r.actions| && Handles(r, i, f) && f.kind.Ack?
    ensures var s, sent := Before(r, i), r.actions[i].sent;
            && After(r, i).relays == s.relays - {f.seqNo}
            && if f.seqNo in s.relays && s.relays[f.seqNo].target == f.fromAddr
               then exists e :: && sent == [e] && e.dst == s.relays[f.seqNo].origin
                                && e.frame.kind.Ack? && e.frame.seqNo == f.seqNo
               else sent == []
  {
    ActedOn(r, i);
    var s, sent := Before(r, i), r.actions[i].sent;
    if f.seqNo in s.relays && s.relays[f.seqNo].target == f.fromAddr {
      assert sent == [sent[0]];
    }
  }

  /** Exactly the relays whose time has come are dropped, and nothing else changes. */
  lemma {:induction false} DueRelaysGo(r: Run, i: nat)
    requires IsRun(r) && i < |r.actions| && r.actions[i].ExpireRelays?
    ensures var s, s' := Before(r, i), After(r, i);
            && s' == s.(relays := s'.relays)
            && (forall q :: q in s'.relays <==> q in s.relays && s.relays[q].expire > r.actions[i].now)
            && (forall q :: q in s'.relays ==> s'.relays[q] == s.relays[q])
  {
    ActedOn(r, i);
  }

  /** Step `k` leaves the relay of `q` at `h` alone: no request or ack under that number is handled there, and
      no relay is dropped there once it is due. */
  ghost predicate LeavesRelay(r: Run, k: nat, h: NodeId, q: nat, due: Time)
    requires IsRun(r) && k < |r.actions|
  {
    var a := r.actions[k];
    a.node == h ==>
      && (a.ExpireRelays? ==> a.now < due)
      && (a.Dispatch? && Before(r, k).handling.Some? && Before(r, k).handling.value.seqNo == q ==>
            Before(r, k).handling.value.kind.Ping?)
  }

  /** Two probe timeouts after step `i`. */
  ghost function RelayDue(r: Run, i: nat): Time
    requires IsRun(r) && i < |r.actions| && r.actions[i].Dispatch?
  {
    r.actions[i].now + 2 * Before(r, i).cfg.probeTimeout
  }

  ghost predicate HoldsRelay(r: Run, k: nat, h: NodeId, q: nat, relay: Relay)
    requires k < |r.states|
  {
    h in r.states[k].nodes && q in r.states[k].nodes[h].relays && r.states[k].nodes[h].relays[q] == relay
  }

  lemma {:induction false} RelayOutlives(s: Node, a: Action, s': Node, q: nat)
    requires LocalStep(s, a, s') && q in s.relays
    requires a.ExpireRelays? ==> a.now < s.relays[q].expire
    requires a.Dispatch? && s.handling.Some? && s.handling.value.seqNo == q ==> s.handling.value.kind.Ping?
    ensures q in s'.relays && s'.relays[q] == s.relays[q]
  {}

  lemma {:induction false} RelayStays(r: Run, i: nat, k: nat, h: NodeId, q: nat, relay: Relay)
    requires IsRun(r) && i <= k < |r.states| && HoldsRelay(r, i, h, q, relay)
    requires forall j :: i <= j < k ==> LeavesRelay(r, j, h, q, relay.expire)
    ensures HoldsRelay(r, k, h, q, relay)
    decreases k
  {
    if k > i {
      RelayStays(r, i, k - 1, h, q, relay);
      assert LeavesRelay(r, k - 1, h, q, relay.expire);
      NodeAt(r, k - 1, h);
      if h == r.actions[k - 1].node {
        hide LocalStep;
        RelayOutlives(r.states[k - 1].nodes[h], r.actions[k - 1], r.states[k].nodes[h], q);
      }
    }
  }

  /** The way through a helper: it handles a ping request at step `i` and pings the target under the same number;
      when at step `j` it handles the target's ack, it passes it on to who asked. */
  lemma {:induction false} HelperPassesAckOn(r: Run, i: nat, j: nat, f: Frame, g: Frame)
    requires IsRun(r) && i < j < |r.actions| && r.actions[i].node == r.actions[j].node
    requires Handles(r, i, f) && f.kind.PingReq?
    requires Handles(r, j, g) && g.kind.Ack? && g.seqNo == f.seqNo && g.fromAddr == f.kind.target
    requires forall k :: i < k < j ==>
               LeavesRelay(r, k, r.actions[i].node, f.seqNo, RelayDue(r, i))
    ensures exists e :: e in r.actions[i].sent && e.dst == f.kind.target && e.frame.kind.Ping? && e.frame.seqNo == f.seqNo
    ensures exists e :: e in r.actions[j].sent && e.dst == f.fromAddr && e.frame.kind.Ack? && e.frame.seqNo == f.seqNo
  {
    var h := r.actions[i].node;
    var relay := Relay(f.fromAddr, f.kind.target, RelayDue(r, i));
    RequestIsRelayed(r, i, f);
    ActedOn(r, i);
    ActedOn(r, j);
    hide LocalStep;
    assert HoldsRelay(r, i + 1, h, f.seqNo, relay);
    RelayStays(r, i + 1, j, h, f.seqNo, relay);
    AckIsRelayed(r, j, g);
  }

  // ---------- folding a frame in ----------

  /** Stronger evidence: suspect over alive, dead over both. */
  predicate Stronger(x: MemberState, y: MemberState) {
    (x == Suspect && y == Alive) || (x == Dead && y != Dead)
  }

  /** A later incarnation counts for more, and stronger evidence at the same. */
  predicate Beats(inc: nat, state: MemberState, inc': nat, state': MemberState) {
    inc > inc' || (inc == inc' && Stronger(state, state'))
  }

  lemma {:induction false} OutranksIsBeats(inc: nat, state: MemberState, p: Peer)
    ensures Outranks(inc, state, p) <==> Beats(inc, state, p.incarnation, p.state)
  {}

  /** The record of `m` the updates lead to: the first of the best of them if it beats the one held, else the
      one held. */
  ghost predicate Newest(held: Option<Peer>, us: seq<MemberUpdate>, m: NodeId, now: Time, timeout: Time, p: Peer) {
    && (forall u :: u in us && u.node == m ==> !Beats(u.incarnation, u.state, p.incarnation, p.state))
    && (held == Some(p) || exists k :: 0 <= k < |us| && Learned(held, us, k, m, now, timeout, p))
  }

  ghost predicate Learned(held: Option<Peer>, us: seq<MemberUpdate>, k: nat, m: NodeId, now: Time, timeout: Time, p: Peer)
    requires k < |us|
  {
    && us[k].node == m
    && p == Peer(us[k].addr, us[k].incarnation, us[k].state, if us[k].state == Suspect then Some(now + timeout) else None)
    && (held.Some? ==> Beats(p.incarnation, p.state, held.value.incarnation, held.value.state))
    && (forall l :: 0 <= l < k && us[l].node == m ==> Beats(p.incarnation, p.state, us[l].incarnation, us[l].state))
  }

  ghost function Held(s: Shared, m: NodeId): Option<Peer> {
    if m in s.peers then Some(s.peers[m]) else None
  }

  ghost predicate Mentioned(us: seq<MemberUpdate>, m: NodeId) {
    exists u :: u in us && u.node == m
  }

  lemma {:induction false} LearnedMore(held: Option<Peer>, us: seq<MemberUpdate>, u: MemberUpdate, k: nat, m: NodeId, now: Time, timeout: Time, p: Peer)
    requires k < |us| && Learned(held, us, k, m, now, timeout, p)
    ensures Learned(held, us + [u], k, m, now, timeout, p)
  {
    assert forall l :: 0 <= l <= k ==> (us + [u])[l] == us[l];
  }

  /** An update that does not beat the record leaves it the newest. */
  lemma {:induction false} NewestStays(held: Option<Peer>, us: seq<MemberUpdate>, u: MemberUpdate, m: NodeId, now: Time, timeout: Time, p: Peer)
    requires Newest(held, us, m, now, timeout, p)
    requires u.node == m ==> !Beats(u.incarnation, u.state, p.incarnation, p.state)
    ensures Newest(held, us + [u], m, now, timeout, p)
  {
    if held != Some(p) {
      var k :| 0 <= k < |us| && Learned(held, us, k, m, now, timeout, p);
      LearnedMore(held, us, u, k, m, now, timeout, p);
    }
  }

  /** One that does becomes it. */
  lemma {:induction false} NewestChanges(held: Option<Peer>, us: seq<MemberUpdate>, u: MemberUpdate, now: Time, timeout: Time, p: Peer)
    requires Newest(held, us, u.node, now, timeout, p) && Beats(u.incarnation, u.state, p.incarnation, p.state)
    ensures Newest(held, us + [u], u.node, now, timeout, PeerOf(u, now, timeout))
  {
    if held != Some(p) {
      var k :| 0 <= k < |us| && Learned(held, us, k, u.node, now, timeout, p);
    }
    var vs := us + [u];
    forall l | 0 <= l < |us| && vs[l].node == u.node
      ensures Beats(u.incarnation, u.state, vs[l].incarnation, vs[l].state)
    {
      assert vs[l] in us;
    }
    assert Learned(held, vs, |us|, u.node, now, timeout, PeerOf(u, now, timeout));
  }

  lemma {:induction false} NewestFirst(us: seq<MemberUpdate>, u: MemberUpdate, now: Time, timeout: Time)
    requires !Mentioned(us, u.node)
    ensures Newest(None, us + [u], u.node, now, timeout, PeerOf(u, now, timeout))
  {
    var vs := us + [u];
    forall l | 0 <= l < |us|
      ensures vs[l].node != u.node
    {
      assert vs[l] in us;
    }
    assert Learned(None, vs, |us|, u.node, now, timeout, PeerOf(u, now, timeout));
  }

  lemma {:induction false} FoldKeepsNewest(s: Shared, us: seq<MemberUpdate>, now: Time, timeout: Time, m: NodeId)
    requires m != s.me
    ensures var t := ApplyAll(s, us, now, timeout);
            && t.me == s.me
            && (m in t.peers <==> m in s.peers || Mentioned(us, m))
            && (m in t.peers ==> Newest(Held(s, m), us, m, now, timeout, t.peers[m]))
    decreases |us|
  {
    if us == [] {
    } else {
      var vs, u := us[..|us| - 1], us[|us| - 1];
      assert us == vs + [u];
      var t := ApplyAll(s, vs, now, timeout);
      FoldKeepsNewest(s, vs, now, timeout, m);
      hide Newest, Beats, Outranks;
      assert Mentioned(us, m) <==> Mentioned(vs, m) || u.node == m;
      if m in t.peers {
        OutranksIsBeats(u.incarnation, u.state, t.peers[m]);
        if u.node == m && Outranks(u.incarnation, u.state, t.peers[m]) {
          NewestChanges(Held(s, m), vs, u, now, timeout, t.peers[m]);
        } else {
          NewestStays(Held(s, m), vs, u, m, now, timeout, t.peers[m]);
        }
      } else if u.node == m {
        NewestFirst(vs, u, now, timeout);
      }
    }
  }

  /** Taking in a frame of the right version: the record of every other node is the newest of the one held
      and what the frame says, counters keep the larger of every slot, the node moves past its own
      incarnation exactly if the frame accuses it there, and exactly then a round spreads the word. */
  lemma {:induction false} NewestIsKept(r: Run, i: nat)
    requires IsRun(r) && i < |r.actions| && r.actions[i].Absorb? && r.actions[i].env.frame.version == 1
    ensures var s, s', f := Before(r, i), After(r, i), r.actions[i].env.frame;
            && (forall m :: m != s.shared.me ==>
                  && (m in s'.shared.peers <==> m in s.shared.peers || Mentioned(f.updates, m))
                  && (m in s'.shared.peers ==>
                        Newest(Held(s.shared, m), f.updates, m, r.actions[i].now, s.cfg.suspicionTimeout, s'.shared.peers[m])))
            && (forall m :: m in s'.shared.counter <==> m in s.shared.counter || m in f.counter)
            && (forall m :: m in s'.shared.counter ==> LargerOf(s.shared.counter, f.counter, m, s'.shared.counter[m]))
            && s'.shared.incarnation == s.shared.incarnation + (if Accused(s.shared, f.updates) then 1 else 0)
            && (if Accused(s.shared, f.updates) then Spreads(s', r.actions[i].sent) else r.actions[i].sent == [])
            && s' == s.(shared := s'.shared, seqNo := s'.seqNo, handling := Some(f))
  {
    var s, a := Before(r, i), r.actions[i];
    var f := a.env.frame;
    ActedOn(r, i);
    AccusedMeans(r, i);
    forall m | m != s.shared.me
      ensures var t := ApplyAll(s.shared, f.updates, a.now, s.cfg.suspicionTimeout);
              && (m in t.peers <==> m in s.shared.peers || Mentioned(f.updates, m))
              && (m in t.peers ==> Newest(Held(s.shared, m), f.updates, m, a.now, s.cfg.suspicionTimeout, t.peers[m]))
    {
      FoldKeepsNewest(s.shared, f.updates, a.now, s.cfg.suspicionTimeout, m);
    }
    hide Newest, Mentioned, Accused, IsRun;
    FoldKeepsCounter(s.shared, f.updates, a.now, s.cfg.suspicionTimeout);
    if RefutesAny(s.shared, f.updates, a.now, s.cfg.suspicionTimeout) {
      var t := s.(shared := Reconcile(s.shared, f, a.now, s.cfg.suspicionTimeout), handling := Some(f));
      RoundSpreads(t, a.order, a.sent);
      SpreadsAgain(t, After(r, i), a.sent);
    }
  }

  lemma {:induction false} FoldKeepsCounter(s: Shared, us: seq<MemberUpdate>, now: Time, timeout: Time)
    ensures ApplyAll(s, us, now, timeout).counter == s.counter
  {
    ApplyAllPeer(s, us, now, timeout, s.me);
  }

  predicate LargerOf(c: map<NodeId, nat>, d: map<NodeId, nat>, m: NodeId, v: nat) {
    && (m in c ==> v >= c[m]) && (m in d ==> v >= d[m])
    && ((m in c && v == c[m]) || (m in d && v == d[m]))
  }

  /** The updates hold this node suspect or dead at its own incarnation. */
  ghost predicate Accused(s: Shared, us: seq<MemberUpdate>) {
    exists k :: 0 <= k < |us| && us[k].node == s.me && us[k].state != Alive && us[k].incarnation == s.incarnation
  }

  lemma {:induction false} AccusedMeans(r: Run, i: nat)
    requires IsRun(r) && i < |r.actions| && r.actions[i].Absorb? && r.actions[i].env.frame.version == 1
    ensures var s, f := Before(r, i), r.actions[i].env.frame;
            && (Accused(s.shared, f.updates) <==> RefutesAny(s.shared, f.updates, r.actions[i].now, s.cfg.suspicionTimeout))
            && After(r, i).shared.incarnation == s.shared.incarnation + (if Accused(s.shared, f.updates) then 1 else 0)
  {
    var s, f := Before(r, i), r.actions[i].env.frame;
    var c := r.states[i];
    assert StepsAt(r, i);
    OwnershipHolds(r, i);
    assert FrameBounded(c, f) && NodeOwned(c, r.actions[i].node);
    forall k | 0 <= k < |f.updates| && f.updates[k].node == s.shared.me
      ensures f.updates[k].incarnation <= s.shared.incarnation
    {
      assert Bounded(c, f.updates[k]);
    }
    ApplyAllOwn(s.shared, f.updates, r.actions[i].now, s.cfg.suspicionTimeout);
    if Accused(s.shared, f.updates) {
      var k :| 0 <= k < |f.updates| && Refutes(s.shared, f.updates[k]);
    }
  }

  /** A frame of any other version changes nothing. */
  lemma {:induction false} OtherVersionsAreIgnored(r: Run, i: nat)
    requires IsRun(r) && i < |r.actions| && r.actions[i].Absorb? && r.actions[i].env.frame.version != 1
    ensures After(r, i) == Before(r, i) && r.actions[i].sent == []
  {
    ActedOn(r, i);
  }
}
