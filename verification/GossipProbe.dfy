/** Probe soundness: a probe completes only because its target really answered it. */
module GossipProbe {
  import opened GossipWire
  import opened GossipNode
  import opened GossipCluster
  import opened GossipOwnership
  import opened GossipProvenance

  /** No two draws in the cluster ever yield the same sequence number. */
  ghost predicate UniqueSeqNos(r: Run)
    requires IsRun(r)
  {
    forall i :: 0 <= i < |r.actions| ==> FreshAt(r, i)
  }

  ghost predicate FreshAt(r: Run, i: nat)
    requires IsRun(r) && i < |r.actions|
  {
    assert StepsAt(r, i);
    Draws(r.states[i].nodes[r.actions[i].node], r.actions[i]).Keys !! r.states[i].drawn.Keys
  }

  ghost predicate AddrIs(c: Cluster, n: NodeId, addr: Addr) {
    n in c.nodes && c.nodes[n].shared.addr == addr
  }

  /** `n` itself has sent an ack carrying `q`. */
  ghost predicate AckedBy(c: Cluster, n: NodeId, q: nat) {
    exists e :: e in c.net && IsAck(e.frame, n, q)
  }

  predicate IsAck(f: Frame, n: NodeId, q: nat) {
    f.kind.Ack? && f.from == n && f.seqNo == q
  }

  /** A datagram carrying a probe's number pings the probed node, asks for that, or follows its ack. */
  ghost predicate Attributed(c: Cluster, e: Envelope) {
    var q := e.frame.seqNo;
    && q in c.drawn
    && (c.drawn[q].ForProbe? ==>
          match e.frame.kind
          case Ping => AddrIs(c, c.drawn[q].target, e.dst)
          case PingReq(t) => AddrIs(c, c.drawn[q].target, t)
          case Ack => AckedBy(c, c.drawn[q].target, q))
  }

  ghost predicate NodeAttributed(c: Cluster, n: NodeId)
    requires n in c.nodes
  {
    var s := c.nodes[n];
    && (s.probe.Some? ==>
          && s.probe.value.seqNo in c.drawn
          && c.drawn[s.probe.value.seqNo] == ForProbe(n, s.probe.value.target)
          && AddrIs(c, s.probe.value.target, s.probe.value.targetAddr))
    && (forall q :: q in s.relays && q in c.drawn && c.drawn[q].ForProbe? ==>
          AddrIs(c, c.drawn[q].target, s.relays[q].target))
    && (forall q :: q in s.relays ==> q in c.drawn)
    && (s.handling.Some? ==> Envelope(s.shared.addr, s.handling.value) in c.net)
  }

  ghost predicate AllAttributed(c: Cluster) {
    && (forall e :: e in c.net ==> Attributed(c, e))
    && (forall n :: n in c.nodes ==> NodeAttributed(c, n))
  }

  /** What happened before keeps its meaning: addresses stay, the network and the draws only grow. */
  ghost predicate Extends(c: Cluster, c': Cluster) {
    && (forall n :: n in c.nodes ==> n in c'.nodes && c'.nodes[n].shared.addr == c.nodes[n].shared.addr)
    && c.net <= c'.net
    && (forall q :: q in c.drawn ==> q in c'.drawn && c'.drawn[q] == c.drawn[q])
  }

  lemma {:induction false} StaysAttributed(c: Cluster, c': Cluster, e: Envelope)
    requires Extends(c, c') && Attributed(c, e)
    ensures Attributed(c', e)
  {
    var q := e.frame.seqNo;
    if c.drawn[q].ForProbe? && e.frame.kind.Ack? {
      var w :| w in c.net && IsAck(w.frame, c.drawn[q].target, q);
      assert w in c'.net;
    }
  }

  lemma {:induction false} StepExtends(c: Cluster, a: Action, c': Cluster)
    requires Owned(c) && Step(c, a, c')
    requires Draws(c.nodes[a.node], a).Keys !! c.drawn.Keys
    ensures Extends(c, c')
  {
    StepRises(c, a, c');
  }

  // ---------- what is sent under a probe's number ----------

  ghost predicate OpensProbe(s: Node, a: Action, s': Node, e: Envelope) {
    && a.StartProbe? && s.probe.None? && a.sent == [e] && s'.probe.Some? && e.frame.kind.Ping?
    && e.frame.seqNo == s'.probe.value.seqNo && e.dst == s'.probe.value.targetAddr
  }

  ghost predicate AsksHelper(s: Node, a: Action, e: Envelope) {
    && a.AdvanceProbe? && s.probe.Some?
    && e.frame.seqNo == s.probe.value.seqNo && e.frame.kind == PingReq(s.probe.value.targetAddr)
  }

  ghost predicate Answers(s: Node, a: Action, e: Envelope) {
    && a.Dispatch? && s.handling.Some? && e.frame.seqNo == s.handling.value.seqNo
    && match s.handling.value.kind
       case Ping => e.frame.kind.Ack?
       case PingReq(t) => e.frame.kind.Ping? && e.dst == t
       case Ack => e.frame.kind.Ack?
  }

  lemma {:induction false} DispatchAnswers(s: Node, a: Action, s': Node, e: Envelope)
    requires LocalStep(s, a, s') && e in Sent(a) && a.Dispatch?
    ensures Answers(s, a, e)
  {
    assert a.sent == [e];
  }

  lemma {:induction false} AdvanceAsks(s: Node, a: Action, s': Node, e: Envelope)
    requires LocalStep(s, a, s') && e in Sent(a) && a.AdvanceProbe?
    ensures e in RoundOf(s, a) || AsksHelper(s, a, e)
  {
    var i :| 0 <= i < |a.sent| && a.sent[i] == e;
    if s.probe.Some? && s.probe.value.phase.Indirect? {
      assert e in RoundOf(s, a);
    } else {
      AskShape(s, a.now, a.order, a.sent, s', i);
    }
  }

  lemma {:induction false} AskShape(s: Node, now: Time, order: seq<NodeId>, sent: seq<Envelope>, s': Node, i: nat)
    requires Advances(s, now, order, sent, s') && i < |sent| && !(s.probe.Some? && s.probe.value.phase.Indirect?)
    ensures s.probe.Some? && sent[i].frame.seqNo == s.probe.value.seqNo
    ensures sent[i].frame.kind == PingReq(s.probe.value.targetAddr)
  {}

  /** Every datagram of an action is part of a round, opens or advances this node's probe, or
      answers the frame being handled. */
  lemma {:induction false} SentShape(s: Node, a: Action, s': Node, e: Envelope)
    requires LocalStep(s, a, s') && e in Sent(a)
    ensures e in RoundOf(s, a) || OpensProbe(s, a, s', e) || AsksHelper(s, a, e) || Answers(s, a, e)
  {
    if a.Dispatch? {
      DispatchAnswers(s, a, s', e);
    } else if a.AdvanceProbe? {
      AdvanceAsks(s, a, s', e);
    } else if a.StartProbe? {
      assert a.sent == [e];
    }
  }

  lemma {:induction false} ProbeStarted(c: Cluster, a: Action, c': Cluster)
    requires Owned(c) && Step(c, a, c') && a.StartProbe? && c.nodes[a.node].probe.None?
    requires c'.nodes[a.node].probe.Some?
    ensures var p := c'.nodes[a.node].probe.value;
            && p.seqNo in c'.drawn && c'.drawn[p.seqNo] == ForProbe(a.node, p.target)
            && AddrIs(c', p.target, p.targetAddr)
  {
    var s, s' := c.nodes[a.node], c'.nodes[a.node];
    assert NodeOwned(c, a.node);
    var n := s'.probe.value.target;
    assert n == NextTarget(s, a.order) && n in s.shared.peers;
    assert Bounded(c, UpdateOf(n, s.shared.peers[n]));
    StepRises(c, a, c');
    assert a.sent != [] && a.sent[0].frame.seqNo == s'.probe.value.seqNo;
  }

  lemma {:induction false} RoundsAreGossip(c: Cluster, a: Action, c': Cluster, e: Envelope)
    requires Step(c, a, c') && e in RoundOf(c.nodes[a.node], a)
    ensures e.frame.seqNo in c'.drawn && c'.drawn[e.frame.seqNo] == ForGossip
  {
    var d := Draws(c.nodes[a.node], a);
    assert !a.StartProbe?;
    assert e.frame.seqNo in d && d[e.frame.seqNo] == ForGossip;
  }

  /** Whatever is sent is attributed. */
  lemma {:induction false} SentAttributed(c: Cluster, a: Action, c': Cluster, e: Envelope)
    requires Owned(c) && AllAttributed(c) && Step(c, a, c') && Extends(c, c') && e in Sent(a)
    ensures Attributed(c', e)
  {
    var s, s' := c.nodes[a.node], c'.nodes[a.node];
    SentShape(s, a, s', e);
    assert NodeAttributed(c, a.node);
    if e in RoundOf(s, a) {
      RoundsAreGossip(c, a, c', e);
    } else if a.StartProbe? {
      ProbeStarted(c, a, c');
    } else if a.Dispatch? {
      ReplyAttributed(c, a, c', e);
    }
  }

  lemma {:induction false} ReplyAttributed(c: Cluster, a: Action, c': Cluster, e: Envelope)
    requires Owned(c) && AllAttributed(c) && Step(c, a, c') && Extends(c, c') && e in Sent(a) && a.Dispatch?
    ensures Attributed(c', e)
  {
    var s, s' := c.nodes[a.node], c'.nodes[a.node];
    SentShape(s, a, s', e);
    assert NodeAttributed(c, a.node) && NodeOwned(c, a.node);
    var got := Envelope(s.shared.addr, s.handling.value);
    assert Attributed(c, got);
    StaysAttributed(c, c', got);
    var q := e.frame.seqNo;
    if c'.drawn[q].ForProbe? && got.frame.kind.Ping? {
      assert c'.drawn[q].target == a.node;
      SentAreSnapshots(s, a, s', e);
      RefutationStep(c, a, c');
      assert e in c'.net && IsAck(e.frame, a.node, q);
    }
  }

  // ---------- the invariant ----------

  /** The only ways a node's probe and relay entries change. */
  lemma {:induction false} RuntimeChanges(s: Node, a: Action, s': Node)
    requires LocalStep(s, a, s')
    ensures s'.probe.Some? && s.probe.Some? ==>
              && s'.probe.value.seqNo == s.probe.value.seqNo && s'.probe.value.target == s.probe.value.target
              && s'.probe.value.targetAddr == s.probe.value.targetAddr
    ensures s'.probe.Some? && s.probe.None? ==> a.StartProbe?
    ensures forall q :: q in s'.relays ==>
              || (q in s.relays && s'.relays[q] == s.relays[q])
              || (&& a.Dispatch? && s.handling.Some? && s.handling.value.kind.PingReq? && q == s.handling.value.seqNo
                  && s'.relays[q].target == s.handling.value.kind.target)
  {
    ProbeChangesIfAny(s, a, s');
  }

  lemma {:induction false} ProbeChangesIfAny(s: Node, a: Action, s': Node)
    requires LocalStep(s, a, s')
    ensures s'.probe.Some? && s.probe.Some? ==>
              && s'.probe.value.seqNo == s.probe.value.seqNo && s'.probe.value.target == s.probe.value.target
              && s'.probe.value.targetAddr == s.probe.value.targetAddr
    ensures s'.probe.Some? && s.probe.None? ==> a.StartProbe?
  {
    if s'.probe.Some? {
      ProbeChanges(s, a, s');
    }
  }

  lemma {:induction false} ActorHandles(c: Cluster, a: Action, c': Cluster)
    requires Owned(c) && AllAttributed(c) && Step(c, a, c') && Extends(c, c')
    requires c'.nodes[a.node].handling.Some?
    ensures Envelope(c'.nodes[a.node].shared.addr, c'.nodes[a.node].handling.value) in c'.net
  {
    var s, s' := c.nodes[a.node], c'.nodes[a.node];
    assert NodeAttributed(c, a.node);
    HandlingFrom(s, a, s');
    if s'.handling != s.handling {
      assert a.env == Envelope(s.shared.addr, a.env.frame);
    }
  }

  lemma {:induction false} ActorRelays(c: Cluster, a: Action, c': Cluster, q: nat)
    requires AllAttributed(c) && Step(c, a, c') && Extends(c, c') && q in c'.nodes[a.node].relays
    ensures q in c'.drawn
    ensures c'.drawn[q].ForProbe? ==> AddrIs(c', c'.drawn[q].target, c'.nodes[a.node].relays[q].target)
  {
    var s, s' := c.nodes[a.node], c'.nodes[a.node];
    assert NodeAttributed(c, a.node);
    RuntimeChanges(s, a, s');
    if !(q in s.relays && s'.relays[q] == s.relays[q]) {
      assert Attributed(c, Envelope(s.shared.addr, s.handling.value));
    }
  }

  lemma {:induction false} ActorAttributed(c: Cluster, a: Action, c': Cluster)
    requires Owned(c) && AllAttributed(c) && Step(c, a, c') && Extends(c, c')
    ensures NodeAttributed(c', a.node)
  {
    var s, s' := c.nodes[a.node], c'.nodes[a.node];
    assert NodeAttributed(c, a.node);
    ProbeChangesIfAny(s, a, s');
    if s'.probe.Some? && s.probe.None? {
      ProbeStarted(c, a, c');
    }
    forall q | q in s'.relays
      ensures q in c'.drawn && (c'.drawn[q].ForProbe? ==> AddrIs(c', c'.drawn[q].target, s'.relays[q].target))
    {
      ActorRelays(c, a, c', q);
    }
    if s'.handling.Some? {
      ActorHandles(c, a, c');
    }
  }

  lemma {:induction false} StepAttributed(c: Cluster, a: Action, c': Cluster)
    requires Owned(c) && AllAttributed(c) && Step(c, a, c')
    requires Draws(c.nodes[a.node], a).Keys !! c.drawn.Keys
    ensures AllAttributed(c')
  {
    StepExtends(c, a, c');
    ActorAttributed(c, a, c');
    forall e | e in c'.net
      ensures Attributed(c', e)
    {
      if e in c.net {
        StaysAttributed(c, c', e);
      } else {
        SentAttributed(c, a, c', e);
      }
    }
    forall n | n in c'.nodes && n != a.node
      ensures NodeAttributed(c', n)
    {
      assert NodeAttributed(c, n);
    }
  }

  lemma {:induction false} AttributionHolds(r: Run, k: nat)
    requires IsRun(r) && UniqueSeqNos(r) && k < |r.states|
    ensures AllAttributed(r.states[k])
  {
    if k == 0 {
      forall n | n in r.states[0].nodes
        ensures NodeAttributed(r.states[0], n)
      {
        assert Fresh(n, r.states[0].nodes[n]);
      }
    } else {
      AttributionHolds(r, k - 1);
      OwnershipHolds(r, k - 1);
      assert StepsAt(r, k - 1) && FreshAt(r, k - 1);
      StepAttributed(r.states[k - 1], r.actions[k - 1], r.states[k]);
    }
  }

  // ---------- the theorem ----------

  /** A datagram that appeared between two states was sent at some step between them. */
  lemma {:induction false} SentBetween(r: Run, i: nat, j: nat, e: Envelope) returns (m: nat)
    requires IsRun(r) && i <= j < |r.states| && e !in r.states[i].net && e in r.states[j].net
    ensures i <= m < j && e in Sent(r.actions[m])
    decreases j
  {
    SentIfNew(r, j - 1, e);
    if e in r.states[j - 1].net {
      m := SentBetween(r, i, j - 1, e);
    } else {
      m := j - 1;
    }
  }

  lemma {:induction false} SentIfNew(r: Run, k: nat, e: Envelope)
    requires IsRun(r) && k < |r.actions| && e in r.states[k + 1].net
    ensures e in r.states[k].net || e in Sent(r.actions[k])
  {
    hide LocalStep, Draws;
    assert StepsAt(r, k);
  }

  /** At step `k` node `a` takes an ack that completes its probe of `target` under `q`. */
  ghost predicate CompletesAt(r: Run, k: nat, a: NodeId, target: NodeId, q: nat)
    requires IsRun(r) && k < |r.actions|
  {
    && a in r.states[k].nodes && r.actions[k].Dispatch? && r.actions[k].node == a
    && r.states[k].nodes[a].handling.Some?
    && Completes(r.states[k].nodes[a], r.states[k].nodes[a].handling.value)
    && Probing(r.states[k].nodes[a], q, target)
  }

  ghost predicate AckSentAt(r: Run, m: nat, n: NodeId, q: nat)
    requires IsRun(r) && m < |r.actions|
  {
    r.actions[m].node == n && exists e :: e in Sent(r.actions[m]) && IsAck(e.frame, n, q)
  }

  /** Before a probe begins nothing in the network carries the number it will draw. */
  lemma {:induction false} NumberUnusedBefore(r: Run, b: nat, a: NodeId, e: Envelope)
    requires IsRun(r) && UniqueSeqNos(r) && b < |r.actions|
    requires r.actions[b].StartProbe? && r.actions[b].node == a
    requires a in r.states[b].nodes && r.states[b].nodes[a].probe.None?
    requires a in r.states[b + 1].nodes && r.states[b + 1].nodes[a].probe.Some?
    requires e.frame.seqNo == r.states[b + 1].nodes[a].probe.value.seqNo
    ensures e !in r.states[b].net
  {
    AttributionHolds(r, b);
    assert StepsAt(r, b) && FreshAt(r, b);
    var act := r.actions[b];
    assert act.sent != [] && act.sent[0].frame.seqNo == e.frame.seqNo;
    assert e.frame.seqNo in Draws(r.states[b].nodes[a], act);
    assert e in r.states[b].net ==> Attributed(r.states[b], e);
  }

  lemma {:induction false} TargetAcked(r: Run, k: nat, a: NodeId, target: NodeId, q: nat) returns (e: Envelope)
    requires IsRun(r) && UniqueSeqNos(r) && k < |r.actions| && CompletesAt(r, k, a, target, q)
    ensures e in r.states[k].net && IsAck(e.frame, target, q)
  {
    var c, s := r.states[k], r.states[k].nodes[a];
    AttributionHolds(r, k);
    assert NodeAttributed(c, a);
    assert Attributed(c, Envelope(s.shared.addr, s.handling.value));
    e :| e in c.net && IsAck(e.frame, target, q);
  }

  /** The node a datagram names as its sender is the one that sent it, and opening a probe sends no ack. */
  lemma {:induction false} AckSender(r: Run, m: nat, e: Envelope)
    requires IsRun(r) && m < |r.actions| && e in Sent(r.actions[m]) && e.frame.kind.Ack?
    ensures r.actions[m].node == e.frame.from && !r.actions[m].StartProbe?
  {
    assert StepsAt(r, m);
    var n := r.actions[m].node;
    SentAreSnapshots(r.states[m].nodes[n], r.actions[m], r.states[m + 1].nodes[n], e);
    SentShape(r.states[m].nodes[n], r.actions[m], r.states[m + 1].nodes[n], e);
    OwnershipHolds(r, m + 1);
    assert NodeOwned(r.states[m + 1], n);
  }

  /** Under any loss, duplication and reordering: if a probe of `target` completes, then it had begun
      at some step, and `target` itself sent an ack with the probe's number after that and before. */
  lemma {:induction false} ProbeSound(r: Run, k: nat, a: NodeId, target: NodeId, q: nat)
    requires IsRun(r) && UniqueSeqNos(r) && k < |r.actions| && CompletesAt(r, k, a, target, q)
    ensures exists b: nat, m: nat :: b < m < k && ProbeBegan(r, b, k, a, target) && AckSentAt(r, m, target, q)
  {
    var e := TargetAcked(r, k, a, target, q);
    var b := ProbeSince(r, k, a);
    assert Probing(r.states[b + 1].nodes[a], q, target) by {
      assert Probing(r.states[k].nodes[a], SeqAfter(r.states[b].nodes[a].seqNo, 1), target);
    }
    NumberUnusedBefore(r, b, a, e);
    var m := SentBetween(r, b, k, e);
    AckSender(r, m, e);
    assert AckSentAt(r, m, target, q);
    assert m != b;
  }
}
