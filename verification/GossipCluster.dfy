/** The cluster as a transition system. The network is the set of every datagram ever sent:
    delivering an element late, repeatedly or never is reordering, duplication and loss. */
module GossipCluster {
  import opened Basics
  import opened GossipWire
  import opened GossipNode
  import GCounter

  /** What a sequence number was drawn for (a history variable: no node reads it). */
  datatype Purpose = ForGossip | ForProbe(prober: NodeId, target: NodeId)

  /** `made` (increments really made per node) and `drawn` are history variables. */
  datatype Cluster = Cluster(
    nodes: map<NodeId, Node>,
    net: set<Envelope>,
    made: map<NodeId, nat>,
    drawn: map<nat, Purpose>)

  /** Clock readings, shuffle results and the datagrams actually sent label each action. */
  datatype Action =
    | Incr(node: NodeId, amount: nat)
    | ReapSuspects(node: NodeId, now: Time, order: seq<NodeId>, sent: seq<Envelope>)
    | AdvanceProbe(node: NodeId, now: Time, order: seq<NodeId>, sent: seq<Envelope>)
    | StartProbe(node: NodeId, now: Time, order: seq<NodeId>, sent: seq<Envelope>)
    | GossipRound(node: NodeId, order: seq<NodeId>, sent: seq<Envelope>)
    | ExpireRelays(node: NodeId, now: Time)
    | Absorb(node: NodeId, now: Time, env: Envelope, order: seq<NodeId>, sent: seq<Envelope>)
    | Dispatch(node: NodeId, now: Time, sent: seq<Envelope>)

  function Sent(a: Action): seq<Envelope> {
    if a.Incr? || a.ExpireRelays? then [] else a.sent
  }

  /** The event loop finishes one datagram before it does anything else; `incr` runs on
      another thread and only waits for the mutex. */
  ghost predicate LocalStep(s: Node, a: Action, s': Node) {
    match a
    case Incr(_, amount) => s' == s.(shared := IncrOwn(s.shared, amount))
    case ReapSuspects(_, now, order, sent) => s.handling.None? && Reaps(s, now, order, sent, s')
    case AdvanceProbe(_, now, order, sent) => s.handling.None? && Advances(s, now, order, sent, s')
    case StartProbe(_, now, order, sent) => s.handling.None? && StartsProbe(s, now, order, sent, s')
    case GossipRound(_, order, sent) => s.handling.None? && IsRound(s, order, sent) && s' == Drew(s, |sent|)
    case ExpireRelays(_, now) => s.handling.None? && s' == GossipNode.ExpireRelays(s, now)
    case Absorb(_, now, env, order, sent) =>
      s.handling.None? && env.dst == s.shared.addr && Absorbs(s, now, env.frame, order, sent, s')
    case Dispatch(_, now, sent) => s.handling.Some? && Dispatches(s, now, sent, s')
  }

  /** The sequence numbers an action takes from the node's counter, with their purpose. */
  ghost function Draws(s: Node, a: Action): map<nat, Purpose> {
    if a.StartProbe? && s.probe.None? && a.sent != [] then
      map[a.sent[0].frame.seqNo := ForProbe(a.node, NextTarget(s, a.order))]
    else
      map e | e in RoundOf(s, a) :: e.frame.seqNo := ForGossip
  }

  function NextTarget(s: Node, order: seq<NodeId>): NodeId {
    if order == [] then "" else order[s.roundRobin % |order|]
  }

  /** The pings of an action that belong to a dissemination round. */
  ghost function RoundOf(s: Node, a: Action): set<Envelope> {
    if || a.ReapSuspects? || a.GossipRound? || a.Absorb?
       || (a.AdvanceProbe? && s.probe.Some? && s.probe.value.phase.Indirect?)
    then set e | e in Sent(a)
    else {}
  }

  ghost predicate Step(c: Cluster, a: Action, c': Cluster) {
    && a.node in c.nodes && a.node in c'.nodes
    && LocalStep(c.nodes[a.node], a, c'.nodes[a.node])
    && (a.Absorb? ==> a.env in c.net)
    && c'.nodes == c.nodes[a.node := c'.nodes[a.node]]
    && c'.net == c.net + (set e | e in Sent(a))
    && c'.made == (if a.Incr? then GCounter.Incr(c.made, a.node, a.amount) else c.made)
    && c'.drawn == c.drawn + Draws(c.nodes[a.node], a)
  }

  ghost predicate Fresh(n: NodeId, s: Node) {
    s == Node(s.cfg, NewShared(n, s.shared.addr), s.seqNo, None, map[], 0, None)
  }

  ghost predicate UniqueAddrs(c: Cluster) {
    forall m, n :: m in c.nodes && n in c.nodes && c.nodes[m].shared.addr == c.nodes[n].shared.addr ==> m == n
  }

  ghost predicate Init(c: Cluster) {
    && (forall n :: n in c.nodes ==> Fresh(n, c.nodes[n]))
    && UniqueAddrs(c)
    && c.net == {}
    && c.made == (map n | n in c.nodes :: 0)
    && c.drawn == map[]
  }

  /** `states[i]` becomes `states[i + 1]` by `actions[i]`. */
  datatype Run = Run(states: seq<Cluster>, actions: seq<Action>)

  ghost predicate IsRun(r: Run) {
    && |r.states| == |r.actions| + 1
    && Init(r.states[0])
    && (forall i :: 0 <= i < |r.actions| ==> StepsAt(r, i))
  }

  ghost predicate StepsAt(r: Run, i: nat)
    requires |r.states| == |r.actions| + 1 && i < |r.actions|
  {
    Step(r.states[i], r.actions[i], r.states[i + 1])
  }

  /** One step seen from one node: it acted, or it did not change. */
  lemma {:induction false} NodeAt(r: Run, i: nat, n: NodeId)
    requires IsRun(r) && i < |r.actions| && (n in r.states[i].nodes || n in r.states[i + 1].nodes)
    ensures n in r.states[i].nodes && n in r.states[i + 1].nodes
    ensures if n == r.actions[i].node
            then LocalStep(r.states[i].nodes[n], r.actions[i], r.states[i + 1].nodes[n])
            else r.states[i + 1].nodes[n] == r.states[i].nodes[n]
  {
    assert StepsAt(r, i);
  }

  // ---------- what a single handler can do to a node ----------

  /** A peer entry was learned from one of the updates. */
  ghost predicate LearnedFrom(us: seq<MemberUpdate>, m: NodeId, p: Peer, now: Time, timeout: Time) {
    exists i :: 0 <= i < |us| && us[i].node == m && p == PeerOf(us[i], now, timeout)
  }

  /** Folding updates in: every entry is kept as it was or learned from an outranking update. */
  lemma {:induction false} ApplyAllPeer(s: Shared, us: seq<MemberUpdate>, now: Time, timeout: Time, m: NodeId)
    ensures var t := ApplyAll(s, us, now, timeout);
            && t.me == s.me && t.addr == s.addr && t.counter == s.counter
            && (m in s.peers ==> m in t.peers)
            && (m in t.peers ==>
                  || (m in s.peers && t.peers[m] == s.peers[m])
                  || (&& m != s.me && LearnedFrom(us, m, t.peers[m], now, timeout)
                      && (m in s.peers ==> Outranks(t.peers[m].incarnation, t.peers[m].state, s.peers[m]))))
  {
    if us == [] {
    } else {
      var us' := us[..|us| - 1];
      var t := ApplyAll(s, us', now, timeout);
      var t' := ApplyAll(s, us, now, timeout);
      ApplyAllPeer(s, us', now, timeout, m);
      if m in t.peers && LearnedFrom(us', m, t.peers[m], now, timeout) {
        var i :| 0 <= i < |us'| && us'[i].node == m && t.peers[m] == PeerOf(us'[i], now, timeout);
        assert us[i] == us'[i];
        assert LearnedFrom(us, m, t.peers[m], now, timeout);
      }
      if m in t'.peers && (m !in t.peers || t'.peers[m] != t.peers[m]) {
        assert us[|us| - 1].node == m;
        assert LearnedFrom(us, m, t'.peers[m], now, timeout);
      }
    }
  }

  /** If no update about this node is ahead of it, refuting moves it exactly one incarnation on. */
  lemma {:induction false} ApplyAllOwn(s: Shared, us: seq<MemberUpdate>, now: Time, timeout: Time)
    requires forall i :: 0 <= i < |us| && us[i].node == s.me ==> us[i].incarnation <= s.incarnation
    ensures ApplyAll(s, us, now, timeout).me == s.me
    ensures ApplyAll(s, us, now, timeout).incarnation ==
            s.incarnation + if RefutesAny(s, us, now, timeout) then 1 else 0
    ensures RefutesAny(s, us, now, timeout) <==> exists i :: 0 <= i < |us| && Refutes(s, us[i])
  {
    if us == [] {
    } else {
      var us' := us[..|us| - 1];
      assert forall i :: 0 <= i < |us'| ==> us'[i] == us[i];
      ApplyAllOwn(s, us', now, timeout);
      assert forall i :: 0 <= i < |us| ==> i == |us| - 1 || (i < |us'| && us[i] == us'[i]);
      if exists i :: 0 <= i < |us'| && Refutes(s, us'[i]) {
        var i :| 0 <= i < |us'| && Refutes(s, us'[i]);
        assert Refutes(s, us[i]);
      } else if Refutes(s, us[|us| - 1]) {
        assert RefutesAny(s, us, now, timeout);
      }
    }
  }

  /** Whatever a node sends in one action is a snapshot of the state the action leaves behind. */
  lemma {:induction false} SentAreSnapshots(s: Node, a: Action, s': Node, e: Envelope)
    requires LocalStep(s, a, s') && e in Sent(a)
    ensures IsSnapshot(s'.shared, e.frame.seqNo, e.frame.kind, e.frame)
  {
    var i :| 0 <= i < |Sent(a)| && Sent(a)[i] == e;
    if a.Dispatch? {
      assert i == 0;
    }
  }

  /** Every entry of a snapshot is the sender's own or one of its peers'. */
  lemma {:induction false} SnapshotEntry(s: Shared, f: Frame, i: nat)
    requires IsSnapshot(s, f.seqNo, f.kind, f) && i < |f.updates|
    ensures var u := f.updates[i];
            u == SelfUpdate(s) || (u.node in s.peers && u == UpdateOf(u.node, s.peers[u.node]))
  {
    if i > 0 {
      assert f.updates[i] == f.updates[1..][i - 1];
    }
  }
}
