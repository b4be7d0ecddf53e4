/** What one undisturbed ping-ack exchange achieves. */
module GossipExchange {
  import opened Basics
  import opened GossipWire
  import opened GossipNode
  import opened GossipCluster
  import opened GossipOwnership
  import opened GossipView
  import opened GossipProbe
  import GCounter

  // ---------- folding a frame that names each member once ----------

  ghost predicate Distinct(us: seq<MemberUpdate>) {
    forall i, j :: 0 <= i < j < |us| ==> us[i].node != us[j].node
  }

  /** The entry that remains when `u` meets what `s` knows. */
  function Resolved(s: Shared, u: MemberUpdate, now: Time, timeout: Time): Peer {
    if u.node in s.peers && !Supersedes(u, s.peers[u.node]) then s.peers[u.node] else PeerOf(u, now, timeout)
  }

  lemma {:induction false} FoldMiss(s: Shared, us: seq<MemberUpdate>, now: Time, timeout: Time, m: NodeId)
    requires forall i :: 0 <= i < |us| ==> us[i].node != m
    ensures ApplyAll(s, us, now, timeout).me == s.me
    ensures var t := ApplyAll(s, us, now, timeout);
            (m in t.peers <==> m in s.peers) && (m in s.peers ==> t.peers[m] == s.peers[m])
  {
    if us == [] {
    } else {
      FoldMiss(s, us[..|us| - 1], now, timeout, m);
    }
  }

  /** The outcome for each named member does not depend on the order of the entries. */
  lemma {:induction false} FoldHit(s: Shared, us: seq<MemberUpdate>, now: Time, timeout: Time, i: nat)
    requires Distinct(us) && i < |us| && us[i].node != s.me
    ensures var t := ApplyAll(s, us, now, timeout);
            us[i].node in t.peers && t.peers[us[i].node] == Resolved(s, us[i], now, timeout)
  {
    var us', m := us[..|us| - 1], us[i].node;
    if i == |us| - 1 {
      FoldMiss(s, us', now, timeout, m);
    } else {
      assert us'[i] == us[i];
      FoldHit(s, us', now, timeout, i);
      assert us[|us| - 1].node != m;
    }
  }

  lemma {:induction false} SnapshotIsDistinct(s: Shared, f: Frame)
    requires s.me !in s.peers && IsSnapshot(s, f.seqNo, f.kind, f)
    ensures Distinct(f.updates)
  {
    forall i, j | 0 <= i < j < |f.updates|
      ensures f.updates[i].node != f.updates[j].node
    {
      assert f.updates[j] == f.updates[1..][j - 1];
      if i > 0 {
        assert f.updates[i] == f.updates[1..][i - 1];
      }
    }
  }

  lemma {:induction false} SnapshotLists(s: Shared, f: Frame, m: NodeId) returns (i: nat)
    requires IsSnapshot(s, f.seqNo, f.kind, f) && m in s.peers
    ensures i < |f.updates| && f.updates[i] == UpdateOf(m, s.peers[m])
  {
    var j :| 0 <= j < |f.updates[1..]| && f.updates[1..][j] == UpdateOf(m, s.peers[m]);
    i := j + 1;
  }

  /** Receiving a snapshot: what the receiver then knows of a member other than both. */
  lemma {:induction false} ReceivedPeer(s: Shared, x: Shared, f: Frame, now: Time, timeout: Time, m: NodeId)
    requires x.me !in x.peers && IsSnapshot(x, f.seqNo, f.kind, f) && m != s.me && m != x.me
    ensures var t := Reconcile(s, f, now, timeout);
            && (m in t.peers <==> m in s.peers || m in x.peers)
            && (m in x.peers ==> t.peers[m] == Resolved(s, UpdateOf(m, x.peers[m]), now, timeout))
            && (m !in x.peers && m in s.peers ==> t.peers[m] == s.peers[m])
  {
    SnapshotIsDistinct(x, f);
    if m in x.peers {
      var i := SnapshotLists(x, f, m);
      FoldHit(s, f.updates, now, timeout, i);
    } else {
      forall i | 0 <= i < |f.updates|
        ensures f.updates[i].node != m
      {
        SnapshotEntry(x, f, i);
      }
      FoldMiss(s, f.updates, now, timeout, m);
    }
  }

  // ---------- the exchange, on values ----------

  predicate Agree(s: Shared, t: Shared, m: NodeId) {
    && (m in s.peers <==> m in t.peers)
    && (m in s.peers ==>
          && s.peers[m].incarnation == t.peers[m].incarnation
          && s.peers[m].state == t.peers[m].state)
  }

  lemma {:induction false} RankInjective(x: MemberState, y: MemberState)
    requires Rank(x) == Rank(y)
    ensures x == y
  {
  }

  /** `b` folds in `a`'s snapshot, then `a` folds in the snapshot of the result. */
  lemma {:induction false} ThirdAgrees(a: Shared, b: Shared, f: Frame, b': Shared, g: Frame, a': Shared,
                    now: Time, timeout: Time, now': Time, timeout': Time, m: NodeId)
    requires a.me !in a.peers && IsSnapshot(a, f.seqNo, f.kind, f) && b' == Reconcile(b, f, now, timeout)
    requires b'.me !in b'.peers && IsSnapshot(b', g.seqNo, g.kind, g) && a' == Reconcile(a, g, now', timeout')
    requires m != a.me && m != b.me && b'.me == b.me
    ensures Agree(a', b', m)
  {
    ReceivedPeer(b, a, f, now, timeout, m);
    ReceivedPeer(a, b', g, now', timeout', m);
    if m in a'.peers && m in a.peers && !Supersedes(UpdateOf(m, b'.peers[m]), a.peers[m]) {
      RankInjective(a.peers[m].state, b'.peers[m].state);
    }
  }

  lemma {:induction false} CountersAgree(a: Shared, b: Shared, f: Frame, b': Shared, g: Frame, a': Shared,
                      now: Time, timeout: Time, now': Time, timeout': Time)
    requires IsSnapshot(a, f.seqNo, f.kind, f) && b' == Reconcile(b, f, now, timeout)
    requires IsSnapshot(b', g.seqNo, g.kind, g) && a' == Reconcile(a, g, now', timeout')
    ensures a'.counter == b'.counter
  {
    ApplyAllPeer(b, f.updates, now, timeout, b.me);
    ApplyAllPeer(a, g.updates, now', timeout', a.me);
    GCounter.MergeAbsorbs(a.counter, b.counter);
  }

  /** Whatever `a` believed of `b` before, it ends up holding `b` alive at `b`'s incarnation. */
  lemma {:induction false} AnswererIsAlive(a: Shared, b: Shared, f: Frame, b': Shared, g: Frame, a': Shared,
                        now: Time, timeout: Time, now': Time, timeout': Time)
    requires a.me !in a.peers && IsSnapshot(a, f.seqNo, f.kind, f) && b' == Reconcile(b, f, now, timeout)
    requires b'.me !in b'.peers && IsSnapshot(b', g.seqNo, g.kind, g) && a' == Reconcile(a, g, now', timeout')
    requires a.me != b.me && b'.me == b.me
    requires forall i :: 0 <= i < |f.updates| && f.updates[i].node == b.me ==> f.updates[i].incarnation <= b.incarnation
    ensures b.me in a'.peers && a'.peers[b.me].state == Alive && a'.peers[b.me].incarnation == b'.incarnation
  {
    ApplyAllOwn(b, f.updates, now, timeout);
    if b.me in a.peers {
      var i := SnapshotLists(a, f, b.me);
      assert f.updates[i].state != Alive && f.updates[i].incarnation == b.incarnation ==> Refutes(b, f.updates[i]);
    }
    SnapshotIsDistinct(b', g);
    FoldHit(a, g.updates, now', timeout', 0);
  }

  // ---------- the exchange, in a run ----------

  /** From step `i` on: `a` pings `b`, `b` receives and answers, `a` receives the answer. */
  ghost predicate ExchangeAt(r: Run, i: nat, a: NodeId, b: NodeId)
    requires IsRun(r) && i + 5 < |r.states|
  {
    && a != b && a in r.states[i].nodes && b in r.states[i].nodes
    && r.actions[i].node == a
    && r.actions[i + 1].Absorb? && r.actions[i + 1].node == b
    && r.actions[i + 1].env in Sent(r.actions[i]) && r.actions[i + 1].env.frame.kind.Ping?
    && r.actions[i + 2].Dispatch? && r.actions[i + 2].node == b
    && r.actions[i + 3].Absorb? && r.actions[i + 3].node == a
    && r.actions[i + 3].env in r.actions[i + 2].sent
    && r.actions[i + 4].Dispatch? && r.actions[i + 4].node == a
  }

  // One step each, so that a whole exchange is put together from small facts.

  lemma {:induction false} IdleAt(r: Run, k: nat, n: NodeId)
    requires IsRun(r) && k < |r.actions| && n in r.states[k].nodes && n != r.actions[k].node
    ensures n in r.states[k + 1].nodes && r.states[k + 1].nodes[n] == r.states[k].nodes[n]
  {
    NodeAt(r, k, n);
  }

  lemma {:induction false} SentAt(r: Run, k: nat, n: NodeId, e: Envelope)
    requires IsRun(r) && k < |r.actions| && n in r.states[k].nodes && n == r.actions[k].node && e in Sent(r.actions[k])
    ensures n in r.states[k + 1].nodes
    ensures IsSnapshot(r.states[k + 1].nodes[n].shared, e.frame.seqNo, e.frame.kind, e.frame)
  {
    NodeAt(r, k, n);
    SentAreSnapshots(r.states[k].nodes[n], r.actions[k], r.states[k + 1].nodes[n], e);
  }

  lemma {:induction false} AbsorbedAt(r: Run, k: nat, n: NodeId)
    requires IsRun(r) && k < |r.actions| && n in r.states[k].nodes && n == r.actions[k].node
    requires r.actions[k].Absorb? && r.actions[k].env.frame.version == PROTOCOL_VERSION
    ensures n in r.states[k + 1].nodes
    ensures var s, s', a := r.states[k].nodes[n], r.states[k + 1].nodes[n], r.actions[k];
            && s'.handling == Some(a.env.frame) && s'.cfg == s.cfg && a.env.dst == s.shared.addr
            && s'.shared == Reconcile(s.shared, a.env.frame, a.now, s.cfg.suspicionTimeout)
  {
    NodeAt(r, k, n);
  }

  lemma {:induction false} AckedAt(r: Run, k: nat, n: NodeId, e: Envelope)
    requires IsRun(r) && k < |r.actions| && n in r.states[k].nodes && n == r.actions[k].node
    requires r.actions[k].Dispatch? && e in r.actions[k].sent
    requires r.states[k].nodes[n].handling.Some? && r.states[k].nodes[n].handling.value.kind.Ping?
    ensures n in r.states[k + 1].nodes && r.states[k + 1].nodes[n].shared == r.states[k].nodes[n].shared
    ensures IsSnapshot(r.states[k].nodes[n].shared, r.states[k].nodes[n].handling.value.seqNo, Ack, e.frame)
  {
    NodeAt(r, k, n);
    assert r.actions[k].sent == [e];
  }

  /** The states the two nodes pass through: `b` receives `a`'s snapshot, `a` receives the snapshot of
      the result, and nobody else moves them. */
  ghost predicate Exchanged(r: Run, i: nat, a: NodeId, b: NodeId)
    requires IsRun(r) && i + 5 < |r.states| && ExchangeAt(r, i, a, b)
  {
    var f, g := r.actions[i + 1].env.frame, r.actions[i + 3].env.frame;
    && a in r.states[i + 1].nodes && b in r.states[i + 1].nodes && b in r.states[i + 2].nodes
    && a in r.states[i + 4].nodes && b in r.states[i + 4].nodes
    && var A, B := r.states[i + 1].nodes[a], r.states[i + 1].nodes[b];
       var A', B' := r.states[i + 4].nodes[a], r.states[i + 2].nodes[b];
       && IsSnapshot(A.shared, f.seqNo, f.kind, f)
       && B'.shared == Reconcile(B.shared, f, r.actions[i + 1].now, B.cfg.suspicionTimeout)
       && r.states[i + 4].nodes[b].shared == B'.shared
       && IsSnapshot(B'.shared, g.seqNo, g.kind, g) && g.seqNo == f.seqNo && g.kind.Ack?
       && A'.shared == Reconcile(A.shared, g, r.actions[i + 3].now, A.cfg.suspicionTimeout)
       && A'.handling == Some(g)
  }

  lemma {:induction false} ExchangeShape(r: Run, i: nat, a: NodeId, b: NodeId)
    requires IsRun(r) && i + 5 < |r.states| && ExchangeAt(r, i, a, b)
    ensures Exchanged(r, i, a, b)
  {
    var e, e' := r.actions[i + 1].env, r.actions[i + 3].env;
    SentAt(r, i, a, e);
    IdleAt(r, i, b);
    AbsorbedAt(r, i + 1, b);
    IdleAt(r, i + 1, a);
    AckedAt(r, i + 2, b, e');
    IdleAt(r, i + 2, a);
    AbsorbedAt(r, i + 3, a);
    IdleAt(r, i + 3, b);
  }

  lemma {:induction false} OwnAt(r: Run, k: nat, n: NodeId)
    requires IsRun(r) && k < |r.states| && n in r.states[k].nodes
    ensures r.states[k].nodes[n].shared.me == n && n !in r.states[k].nodes[n].shared.peers
  {
    OwnershipHolds(r, k);
    assert NodeOwned(r.states[k], n);
  }

  lemma {:induction false} NotAheadAt(r: Run, k: nat, n: NodeId)
    requires IsRun(r) && k < |r.actions| && r.actions[k].Absorb? && n in r.states[k].nodes
    ensures var us := r.actions[k].env.frame.updates;
            forall i :: 0 <= i < |us| && us[i].node == n ==> us[i].incarnation <= r.states[k].nodes[n].shared.incarnation
  {
    OwnershipHolds(r, k);
    assert StepsAt(r, k);
    var us := r.actions[k].env.frame.updates;
    assert FrameBounded(r.states[k], r.actions[k].env.frame);
    assert forall i :: 0 <= i < |us| ==> Bounded(r.states[k], us[i]);
  }

  /** After an undisturbed exchange the two nodes agree on every third member and on the counter, and
      the pinging node holds the other alive at its current incarnation. */
  lemma {:induction false} ExchangeConverges(r: Run, i: nat, a: NodeId, b: NodeId, m: NodeId)
    requires IsRun(r) && i + 5 < |r.states| && ExchangeAt(r, i, a, b)
    ensures a in r.states[i + 4].nodes && b in r.states[i + 4].nodes
    ensures var A, B := r.states[i + 4].nodes[a].shared, r.states[i + 4].nodes[b].shared;
            && (m != a && m != b ==> Agree(A, B, m))
            && A.counter == B.counter
            && b in A.peers && A.peers[b].state == Alive && A.peers[b].incarnation == B.incarnation
  {
    hide Reconcile, IsSnapshot, StepsAt;
    ExchangeShape(r, i, a, b);
    OwnAt(r, i + 1, a); OwnAt(r, i + 1, b); OwnAt(r, i + 2, b);
    NotAheadAt(r, i + 1, b);
    var f, g := r.actions[i + 1].env.frame, r.actions[i + 3].env.frame;
    var A, B := r.states[i + 1].nodes[a], r.states[i + 1].nodes[b];
    var A', B' := r.states[i + 4].nodes[a], r.states[i + 2].nodes[b];
    var t, t' := r.actions[i + 1].now, r.actions[i + 3].now;
    AnswererIsAlive(A.shared, B.shared, f, B'.shared, g, A'.shared,
                    t, B.cfg.suspicionTimeout, t', A.cfg.suspicionTimeout);
    CountersAgree(A.shared, B.shared, f, B'.shared, g, A'.shared,
                  t, B.cfg.suspicionTimeout, t', A.cfg.suspicionTimeout);
    if m != a && m != b {
      ThirdAgrees(A.shared, B.shared, f, B'.shared, g, A'.shared,
                  t, B.cfg.suspicionTimeout, t', A.cfg.suspicionTimeout, m);
    }
  }

  /** If the ack completes a probe, it is the probe of the node that answered. */
  lemma {:induction false} ExchangeProbesAnswerer(r: Run, i: nat, a: NodeId, b: NodeId)
    requires IsRun(r) && UniqueSeqNos(r) && i + 5 < |r.states| && ExchangeAt(r, i, a, b)
    requires Exchanged(r, i, a, b) && a in r.states[i + 4].nodes
    requires Completes(r.states[i + 4].nodes[a], r.actions[i + 3].env.frame)
    ensures r.states[i + 4].nodes[a].probe.value.target == b
  {
    var c, e := r.states[i + 4], r.actions[i + 1].env;
    AttributionHolds(r, i + 4);
    OwnershipHolds(r, i + 4);
    assert NodeAttributed(c, a);
    assert e in c.net by {
      assert StepsAt(r, i) && StepsAt(r, i + 1) && StepsAt(r, i + 2) && StepsAt(r, i + 3);
    }
    assert Attributed(c, e);
    AbsorbedAddr(r, i, a, b);
  }

  lemma {:induction false} AbsorbedAddr(r: Run, i: nat, a: NodeId, b: NodeId)
    requires IsRun(r) && i + 5 < |r.states| && ExchangeAt(r, i, a, b) && Exchanged(r, i, a, b)
    ensures r.actions[i + 1].env.dst == r.states[i + 4].nodes[b].shared.addr
  {
    hide StepsAt, ApplyAll;
    AbsorbedAt(r, i + 1, b);
    ApplyAllPeer(r.states[i + 1].nodes[b].shared, r.actions[i + 1].env.frame.updates, r.actions[i + 1].now,
                 r.states[i + 1].nodes[b].cfg.suspicionTimeout, b);
  }

  lemma {:induction false} TakingAckChanges(r: Run, k: nat, n: NodeId)
    requires IsRun(r) && k < |r.actions| && n in r.states[k].nodes && n == r.actions[k].node
    requires r.actions[k].Dispatch? && r.states[k].nodes[n].handling.Some?
    requires r.states[k].nodes[n].handling.value.kind.Ack?
    ensures n in r.states[k + 1].nodes
    ensures var s, f := r.states[k].nodes[n], r.states[k].nodes[n].handling.value;
            r.states[k + 1].nodes[n].shared ==
            if Completes(s, f) then MarkAlive(s.shared, s.probe.value.target) else s.shared
  {
    NodeAt(r, k, n);
  }

  /** Acting on the ack leaves what the exchange achieved as it is. */
  lemma {:induction false} ExchangeSettles(r: Run, i: nat, a: NodeId, b: NodeId)
    requires IsRun(r) && UniqueSeqNos(r) && i + 5 < |r.states| && ExchangeAt(r, i, a, b)
    ensures a in r.states[i + 4].nodes && a in r.states[i + 5].nodes
    ensures b in r.states[i + 4].nodes && b in r.states[i + 5].nodes
    ensures r.states[i + 5].nodes[a].shared == r.states[i + 4].nodes[a].shared
    ensures r.states[i + 5].nodes[b] == r.states[i + 4].nodes[b]
  {
    hide Reconcile, IsSnapshot, StepsAt, Completes, MarkAlive;
    ExchangeShape(r, i, a, b);
    ExchangeConverges(r, i, a, b, a);
    IdleAt(r, i + 4, b);
    TakingAckChanges(r, i + 4, a);
    if Completes(r.states[i + 4].nodes[a], r.actions[i + 3].env.frame) {
      CompletingChangesNothing(r, i, a, b);
    }
  }

  lemma {:induction false} CompletingChangesNothing(r: Run, i: nat, a: NodeId, b: NodeId)
    requires IsRun(r) && UniqueSeqNos(r) && i + 5 < |r.states| && ExchangeAt(r, i, a, b)
    requires Exchanged(r, i, a, b) && a in r.states[i + 4].nodes
    requires var s := r.states[i + 4].nodes[a].shared; b in s.peers && s.peers[b].state == Alive
    requires Completes(r.states[i + 4].nodes[a], r.actions[i + 3].env.frame)
    ensures var s := r.states[i + 4].nodes[a]; MarkAlive(s.shared, s.probe.value.target) == s.shared
  {
    hide Reconcile, IsSnapshot, StepsAt, MarkAlive;
    ExchangeProbesAnswerer(r, i, a, b);
    ViewHolds(r, i + 4, a);
    AliveAlready(r.states[i + 4].nodes[a].shared, b);
  }

  lemma {:induction false} AliveAlready(s: Shared, n: NodeId)
    requires Consistent(s) && n in s.peers && s.peers[n].state == Alive
    ensures MarkAlive(s, n) == s
  {
    assert s.peers[n] == s.peers[n].(state := Alive, deadline := None);
    assert s.peers[n := s.peers[n]] == s.peers;
    assert Join(s, n) == s.members;
  }
}
