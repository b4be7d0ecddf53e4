/** Ownership: a node's incarnation and its counter slot are never known anywhere in the
    cluster, in a table or in flight, ahead of the node itself. */
module GossipOwnership {
  import opened Basics
  import opened GossipWire
  import opened GossipNode
  import opened GossipCluster
  import GCounter

  ghost predicate Bounded(c: Cluster, u: MemberUpdate) {
    && u.node in c.nodes
    && u.addr == c.nodes[u.node].shared.addr
    && u.incarnation <= c.nodes[u.node].shared.incarnation
  }

  ghost predicate CountsBounded(c: Cluster, k: GCounter.Counter) {
    forall n :: n in k ==> n in c.made && k[n] <= c.made[n]
  }

  ghost predicate FrameBounded(c: Cluster, f: Frame) {
    && f.from in c.nodes && f.fromAddr == c.nodes[f.from].shared.addr
    && (forall i :: 0 <= i < |f.updates| ==> Bounded(c, f.updates[i]))
    && CountsBounded(c, f.counter)
  }

  ghost predicate TableBounded(c: Cluster, s: Shared) {
    && s.me !in s.peers
    && (forall m :: m in s.peers ==> Bounded(c, UpdateOf(m, s.peers[m])))
    && CountsBounded(c, s.counter)
  }

  ghost predicate NodeOwned(c: Cluster, n: NodeId)
    requires n in c.nodes
  {
    var s := c.nodes[n];
    && s.shared.me == n
    && TableBounded(c, s.shared)
    && n in c.made && GCounter.Slot(s.shared.counter, n) == c.made[n]
    && (s.handling.Some? ==> FrameBounded(c, s.handling.value))
  }

  ghost predicate Owned(c: Cluster) {
    && UniqueAddrs(c)
    && (forall n :: n in c.nodes ==> NodeOwned(c, n))
    && (forall e :: e in c.net ==> FrameBounded(c, e.frame))
  }

  /** The bounds only ever rise, so whatever was within them stays within them. */
  ghost predicate Rises(c: Cluster, c': Cluster) {
    && c.nodes.Keys == c'.nodes.Keys
    && (forall n :: n in c.nodes ==>
          && c'.nodes[n].shared.addr == c.nodes[n].shared.addr
          && c'.nodes[n].shared.incarnation >= c.nodes[n].shared.incarnation)
    && (forall n :: n in c.made ==> n in c'.made && c'.made[n] >= c.made[n])
  }

  lemma {:induction false} FrameStaysBounded(c: Cluster, c': Cluster, f: Frame)
    requires Rises(c, c') && FrameBounded(c, f)
    ensures FrameBounded(c', f)
  {
    forall i | 0 <= i < |f.updates|
      ensures Bounded(c', f.updates[i])
    {
      assert Bounded(c, f.updates[i]);
    }
  }

  lemma {:induction false} TableStaysBounded(c: Cluster, c': Cluster, s: Shared)
    requires Rises(c, c') && TableBounded(c, s)
    ensures TableBounded(c', s)
  {
    forall m | m in s.peers
      ensures Bounded(c', UpdateOf(m, s.peers[m]))
    {
      assert Bounded(c, UpdateOf(m, s.peers[m]));
    }
  }

  /** Reconciling a bounded frame leaves a bounded table. */
  lemma {:induction false} ReconcileStaysBounded(c: Cluster, s: Shared, f: Frame, now: Time, timeout: Time)
    requires TableBounded(c, s) && FrameBounded(c, f)
    ensures TableBounded(c, Reconcile(s, f, now, timeout))
  {
    var t := Reconcile(s, f, now, timeout);
    ApplyAllPeer(s, f.updates, now, timeout, s.me);
    forall m | m in t.peers
      ensures Bounded(c, UpdateOf(m, t.peers[m]))
    {
      ApplyAllPeer(s, f.updates, now, timeout, m);
      if !(m in s.peers && t.peers[m] == s.peers[m]) {
        var i :| 0 <= i < |f.updates| && f.updates[i].node == m && t.peers[m] == PeerOf(f.updates[i], now, timeout);
        assert Bounded(c, f.updates[i]);
      } else {
        assert Bounded(c, UpdateOf(m, s.peers[m]));
      }
    }
  }

  /** The failure detector changes states and deadlines, never incarnations or addresses. */
  ghost predicate SameClaims(s: Shared, t: Shared) {
    && t.me == s.me && t.addr == s.addr && t.incarnation == s.incarnation && t.counter == s.counter
    && t.peers.Keys == s.peers.Keys
    && (forall m :: m in s.peers ==>
          t.peers[m].incarnation == s.peers[m].incarnation && t.peers[m].addr == s.peers[m].addr)
  }

  lemma {:induction false} TimersKeepClaims(s: Node, a: Action, s': Node)
    requires LocalStep(s, a, s') && !a.Incr? && !a.Absorb?
    ensures SameClaims(s.shared, s'.shared)
  {
    if a.Dispatch? {
      assert s'.shared == s.shared || s'.shared == MarkAlive(s.shared, s.probe.value.target);
    }
  }

  lemma {:induction false} ClaimsStayBounded(c: Cluster, s: Shared, t: Shared)
    requires TableBounded(c, s) && SameClaims(s, t)
    ensures TableBounded(c, t)
  {
    forall m | m in t.peers
      ensures Bounded(c, UpdateOf(m, t.peers[m]))
    {
      assert Bounded(c, UpdateOf(m, s.peers[m]));
    }
  }

  /** A node moves its own incarnation only by refuting, and then by exactly one. */
  lemma {:induction false} RefutationStep(c: Cluster, a: Action, c': Cluster)
    requires Owned(c) && Step(c, a, c')
    ensures var s, s' := c.nodes[a.node].shared, c'.nodes[a.node].shared;
            && s'.me == s.me && s'.addr == s.addr
            && s'.incarnation == s.incarnation +
               (if && a.Absorb? && a.env.frame.version == PROTOCOL_VERSION
                   && exists i :: 0 <= i < |a.env.frame.updates| && Refutes(s, a.env.frame.updates[i])
                then 1 else 0)
  {
    var s := c.nodes[a.node];
    if a.Absorb? {
      var f := a.env.frame;
      assert FrameBounded(c, f);
      assert NodeOwned(c, a.node);
      forall i | 0 <= i < |f.updates| && f.updates[i].node == s.shared.me
        ensures f.updates[i].incarnation <= s.shared.incarnation
      {
        assert Bounded(c, f.updates[i]);
      }
      ApplyAllOwn(s.shared, f.updates, a.now, s.cfg.suspicionTimeout);
      ApplyAllPeer(s.shared, f.updates, a.now, s.cfg.suspicionTimeout, s.shared.me);
    } else if !a.Incr? {
      TimersKeepClaims(s, a, c'.nodes[a.node]);
    }
  }

  lemma {:induction false} StepRises(c: Cluster, a: Action, c': Cluster)
    requires Owned(c) && Step(c, a, c')
    ensures Rises(c, c') && UniqueAddrs(c')
  {
    RefutationStep(c, a, c');
    assert c'.nodes.Keys == c.nodes.Keys;
    ActorRises(c, a, c');
    assert UniqueAddrs(c);
  }

  lemma {:induction false} ActorRises(c: Cluster, a: Action, c': Cluster)
    requires Step(c, a, c') && c'.nodes[a.node].shared.addr == c.nodes[a.node].shared.addr
    requires c'.nodes[a.node].shared.incarnation >= c.nodes[a.node].shared.incarnation
    ensures Rises(c, c')
    ensures forall n :: n in c.nodes ==> c'.nodes[n].shared.addr == c.nodes[n].shared.addr
  {}

  /** What an action leaves in the shared state, timers aside. */
  lemma {:induction false} SharedAfter(s: Node, a: Action, s': Node)
    requires LocalStep(s, a, s') && (a.Absorb? || a.Incr?)
    ensures s'.shared ==
            if a.Incr? then IncrOwn(s.shared, a.amount)
            else if a.env.frame.version != PROTOCOL_VERSION then s.shared
            else Reconcile(s.shared, a.env.frame, a.now, s.cfg.suspicionTimeout)
  {
  }

  lemma {:induction false} IncrStaysBounded(c: Cluster, c': Cluster, s: Shared, amount: nat)
    requires Rises(c, c') && TableBounded(c, s) && GCounter.Slot(s.counter, s.me) <= GCounter.Slot(c.made, s.me)
    requires s.me in c.made && c'.made == GCounter.Incr(c.made, s.me, amount)
    ensures TableBounded(c', IncrOwn(s, amount))
  {
    TableStaysBounded(c, c', s);
  }

  /** The acting node's table stays within the new bounds. */
  lemma {:induction false} ActorTableBounded(c: Cluster, a: Action, c': Cluster)
    requires Owned(c) && Step(c, a, c') && Rises(c, c')
    ensures TableBounded(c', c'.nodes[a.node].shared)
  {
    var s, s' := c.nodes[a.node], c'.nodes[a.node];
    assert NodeOwned(c, a.node);
    if a.Incr? {
      SharedAfter(s, a, s');
      IncrStaysBounded(c, c', s.shared, a.amount);
    } else {
      assert TableBounded(c, s'.shared) by {
        if a.Absorb? {
          SharedAfter(s, a, s');
          ReconcileStaysBounded(c, s.shared, a.env.frame, a.now, s.cfg.suspicionTimeout);
        } else {
          TimersKeepClaims(s, a, s');
          ClaimsStayBounded(c, s.shared, s'.shared);
        }
      }
      TableStaysBounded(c, c', s'.shared);
    }
  }

  lemma {:induction false} HandlingFrom(s: Node, a: Action, s': Node)
    requires LocalStep(s, a, s') && s'.handling.Some?
    ensures s'.handling == s.handling || (a.Absorb? && s'.handling == Some(a.env.frame))
  {
  }

  lemma {:induction false} ActorStaysOwned(c: Cluster, a: Action, c': Cluster)
    requires Owned(c) && Step(c, a, c') && Rises(c, c')
    ensures NodeOwned(c', a.node)
  {
    var s, s' := c.nodes[a.node], c'.nodes[a.node];
    assert NodeOwned(c, a.node);
    RefutationStep(c, a, c');
    ActorTableBounded(c, a, c');
    OwnSlotExact(c, a, c');
    if s'.handling.Some? {
      HandlingFrom(s, a, s');
      FrameStaysBounded(c, c', s'.handling.value);
    }
  }

  lemma {:induction false} OwnSlotExact(c: Cluster, a: Action, c': Cluster)
    requires Owned(c) && Step(c, a, c')
    ensures GCounter.Slot(c'.nodes[a.node].shared.counter, a.node) == GCounter.Slot(c'.made, a.node)
  {
    var n := a.node;
    var s, s' := c.nodes[n], c'.nodes[n];
    assert NodeOwned(c, n);
    if a.Absorb? {
      SharedAfter(s, a, s');
      assert FrameBounded(c, a.env.frame);
      ReconcileOwnSlot(c, s.shared, a.env.frame, a.now, s.cfg.suspicionTimeout);
    } else if a.Incr? {
      SharedAfter(s, a, s');
    } else {
      TimersKeepClaims(s, a, s');
    }
  }

  lemma {:induction false} ReconcileOwnSlot(c: Cluster, s: Shared, f: Frame, now: Time, timeout: Time)
    requires CountsBounded(c, f.counter) && GCounter.Slot(s.counter, s.me) == GCounter.Slot(c.made, s.me)
    ensures GCounter.Slot(Reconcile(s, f, now, timeout).counter, s.me) == GCounter.Slot(c.made, s.me)
  {
    ApplyAllPeer(s, f.updates, now, timeout, s.me);
    GCounter.SlotOfMerge(s.counter, f.counter, s.me);
  }

  /** A snapshot of a bounded node is a bounded frame. */
  lemma {:induction false} SnapshotIsBounded(c: Cluster, n: NodeId, f: Frame)
    requires n in c.nodes && NodeOwned(c, n)
    requires IsSnapshot(c.nodes[n].shared, f.seqNo, f.kind, f)
    ensures FrameBounded(c, f)
  {
    var s := c.nodes[n].shared;
    forall i | 0 <= i < |f.updates|
      ensures Bounded(c, f.updates[i])
    {
      SnapshotEntry(s, f, i);
      if f.updates[i] != SelfUpdate(s) {
        assert Bounded(c, UpdateOf(f.updates[i].node, s.peers[f.updates[i].node]));
      }
    }
  }

  lemma {:induction false} StepKeepsOwned(c: Cluster, a: Action, c': Cluster)
    requires Owned(c) && Step(c, a, c')
    ensures Owned(c')
  {
    StepRises(c, a, c');
    ActorStaysOwned(c, a, c');
    forall n | n in c'.nodes
      ensures NodeOwned(c', n)
    {
      if n != a.node {
        assert NodeOwned(c, n);
        TableStaysBounded(c, c', c.nodes[n].shared);
        if c.nodes[n].handling.Some? {
          FrameStaysBounded(c, c', c.nodes[n].handling.value);
        }
      }
    }
    forall e | e in c'.net
      ensures FrameBounded(c', e.frame)
    {
      if e in c.net {
        FrameStaysBounded(c, c', e.frame);
      } else {
        SentAreSnapshots(c.nodes[a.node], a, c'.nodes[a.node], e);
        SnapshotIsBounded(c', a.node, e.frame);
      }
    }
  }

  lemma {:induction false} InitOwned(c: Cluster)
    requires Init(c)
    ensures Owned(c)
  {
    forall n | n in c.nodes
      ensures NodeOwned(c, n)
    {
      assert Fresh(n, c.nodes[n]);
    }
  }

  /** In every reachable state nothing anywhere runs ahead of its owner. */
  lemma {:induction false} OwnershipHolds(r: Run, k: nat)
    requires IsRun(r) && k < |r.states|
    ensures Owned(r.states[k])
  {
    if k == 0 {
      InitOwned(r.states[0]);
    } else {
      OwnershipHolds(r, k - 1);
      assert StepsAt(r, k - 1);
      StepKeepsOwned(r.states[k - 1], r.actions[k - 1], r.states[k]);
    }
  }

  /** No node ever reports more than the increments really made across the cluster, nor
      less than its own. */
  lemma {:induction false} CounterNeverOvercounts(r: Run, k: nat, n: NodeId)
    requires IsRun(r) && k < |r.states| && n in r.states[k].nodes
    ensures var c := r.states[k];
            n in c.made && c.made[n] <= GCounter.Value(c.nodes[n].shared.counter) <= GCounter.Value(c.made)
  {
    OwnershipHolds(r, k);
    var c := r.states[k];
    assert NodeOwned(c, n);
    var counter := c.nodes[n].shared.counter;
    GCounter.ValueMonotone(counter, c.made);
    if n in counter {
      GCounter.ValueSplit(counter, n);
    }
  }
}
