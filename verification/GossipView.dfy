/** The membership view, leadership, and why a tombstone is final. */
module GossipView {
  import opened Basics
  import opened GossipWire
  import opened GossipNode
  import opened GossipCluster
  import opened GossipOwnership

  /** The view is this node and its non-dead peers, and a deadline is armed exactly while a
      peer is suspected. */
  ghost predicate Consistent(s: Shared) {
    && s.me !in s.peers
    && s.members == {s.me} + Live(s)
    && (forall m :: m in s.peers ==> (s.peers[m].deadline.Some? <==> s.peers[m].state.Suspect?))
  }

  lemma {:induction false} ApplyUpdateConsistent(s: Shared, u: MemberUpdate, now: Time, timeout: Time)
    requires Consistent(s)
    ensures Consistent(ApplyUpdate(s, u, now, timeout))
  {
    var t := ApplyUpdate(s, u, now, timeout);
    assert Live(t) == if t.peers == s.peers then Live(s)
                      else if u.state.Dead? then Live(s) - {u.node} else Live(s) + {u.node};
  }

  lemma {:induction false} ApplyAllConsistent(s: Shared, us: seq<MemberUpdate>, now: Time, timeout: Time)
    requires Consistent(s)
    ensures Consistent(ApplyAll(s, us, now, timeout))
  {
    if us == [] {
    } else {
      ApplyAllConsistent(s, us[..|us| - 1], now, timeout);
      ApplyUpdateConsistent(ApplyAll(s, us[..|us| - 1], now, timeout), us[|us| - 1], now, timeout);
    }
  }

  lemma {:induction false} MarkSuspectConsistent(s: Shared, n: NodeId, now: Time, timeout: Time)
    requires Consistent(s)
    ensures Consistent(MarkSuspect(s, n, now, timeout))
  {
    assert Live(MarkSuspect(s, n, now, timeout)) == Live(s);
  }

  lemma {:induction false} MarkAliveConsistent(s: Shared, n: NodeId)
    requires Consistent(s)
    ensures Consistent(MarkAlive(s, n))
  {
    assert Live(MarkAlive(s, n)) == Live(s);
  }

  lemma {:induction false} ReapConsistent(s: Shared, now: Time)
    requires Consistent(s)
    ensures Consistent(Reap(s, now))
  {
    assert Live(Reap(s, now)) == Live(s) - (set n | n in s.peers && Expired(s.peers[n], now) && n != s.me);
  }

  /** Which of the table operations an action performs. */
  lemma {:induction false} TableOperation(s: Node, a: Action, s': Node)
    requires LocalStep(s, a, s')
    ensures match a
            case Incr(_, amount) => s'.shared == IncrOwn(s.shared, amount)
            case ReapSuspects(_, now, _, _) => s'.shared == Reap(s.shared, now)
            case AdvanceProbe(_, now, _, _) =>
              || s'.shared == s.shared
              || (&& s.probe.Some? && s.probe.value.phase.Indirect? && s.probe.value.deadline <= now
                  && s'.shared == MarkSuspect(s.shared, s.probe.value.target, now, s.cfg.suspicionTimeout))
            case Absorb(_, now, env, _, _) =>
              || s'.shared == s.shared
              || s'.shared == Reconcile(s.shared, env.frame, now, s.cfg.suspicionTimeout)
            case Dispatch(_, _, _) =>
              || s'.shared == s.shared
              || (s.probe.Some? && s'.shared == MarkAlive(s.shared, s.probe.value.target))
            case _ => s'.shared == s.shared
  {
  }

  lemma {:induction false} StepConsistent(s: Node, a: Action, s': Node)
    requires LocalStep(s, a, s') && Consistent(s.shared)
    ensures Consistent(s'.shared)
  {
    TableOperation(s, a, s');
    match a
    case ReapSuspects(_, now, _, _) => ReapConsistent(s.shared, now);
    case AdvanceProbe(_, now, _, _) =>
      if s.probe.Some? {
        MarkSuspectConsistent(s.shared, s.probe.value.target, now, s.cfg.suspicionTimeout);
      }
    case Absorb(_, now, env, _, _) =>
      ApplyAllConsistent(s.shared, env.frame.updates, now, s.cfg.suspicionTimeout);
      assert Live(Reconcile(s.shared, env.frame, now, s.cfg.suspicionTimeout))
          == Live(ApplyAll(s.shared, env.frame.updates, now, s.cfg.suspicionTimeout));
    case Dispatch(_, _, _) =>
      if s.probe.Some? {
        MarkAliveConsistent(s.shared, s.probe.value.target);
      }
    case Incr(_, amount) => assert Live(IncrOwn(s.shared, amount)) == Live(s.shared);
    case _ =>
  }

  /** In every reachable state every view is consistent. */
  lemma {:induction false} ViewHolds(r: Run, k: nat, n: NodeId)
    requires IsRun(r) && k < |r.states| && n in r.states[k].nodes
    ensures Consistent(r.states[k].nodes[n].shared)
  {
    if k == 0 {
      assert Fresh(n, r.states[0].nodes[n]);
    } else {
      NodeAt(r, k - 1, n);
      ViewHolds(r, k - 1, n);
      if n == r.actions[k - 1].node {
        StepConsistent(r.states[k - 1].nodes[n], r.actions[k - 1], r.states[k].nodes[n]);
      }
    }
  }

  // ---------- leadership ----------

  /** The node answers `is_leader` with yes; `IsLeader` computes it. */
  ghost predicate Leads(s: Shared) {
    IsLeast(s.me, s.members)
  }

  lemma {:induction false} LeastIsUnique(m: NodeId, n: NodeId, ids: set<NodeId>)
    requires IsLeast(m, ids) && IsLeast(n, ids)
    ensures m == n
  {
    if m != n {
      LessAsymmetric(m, n);
    }
  }

  /** The source's leader: the first identifier of the sorted view. */
  method Leader(ids: set<NodeId>) returns (leader: Option<NodeId>)
    ensures leader.None? <==> ids == {}
    ensures leader.Some? ==> IsLeast(leader.value, ids)
  {
    if ids == {} {
      return None;
    }
    var least := PickLeast(ids);
    return Some(least);
  }

  /** The source's test for leadership: whether the leader of the view is the node itself. */
  method IsLeader(me: NodeId, ids: set<NodeId>) returns (yes: bool)
    ensures yes <==> IsLeast(me, ids)
  {
    var leader := Leader(ids);
    yes := leader == Some(me);
    if leader.Some? && IsLeast(me, ids) {
      LeastIsUnique(me, leader.value, ids);
    }
  }

  /** Two nodes that each see the other alive or suspected never both lead. */
  lemma {:induction false} AtMostOneLeader(r: Run, k: nat, m: NodeId, n: NodeId)
    requires IsRun(r) && k < |r.states|
    requires m in r.states[k].nodes && n in r.states[k].nodes && m != n
    requires n in Live(r.states[k].nodes[m].shared) && m in Live(r.states[k].nodes[n].shared)
    ensures !(Leads(r.states[k].nodes[m].shared) && Leads(r.states[k].nodes[n].shared))
  {
    OwnershipHolds(r, k);
    assert NodeOwned(r.states[k], m) && NodeOwned(r.states[k], n);
    ViewHolds(r, k, m);
    ViewHolds(r, k, n);
    if Less(m, n) {
      LessAsymmetric(m, n);
    }
  }

  // ---------- tombstones ----------

  /** The pair (incarnation, is-dead) has not gone down. */
  predicate NotBefore(p': Peer, p: Peer) {
    || p'.incarnation > p.incarnation
    || (p'.incarnation == p.incarnation && (p.state.Dead? ==> p'.state.Dead?))
  }

  lemma {:induction false} StepNotBefore(s: Node, a: Action, s': Node, m: NodeId)
    requires LocalStep(s, a, s') && m in s.shared.peers
    ensures m in s'.shared.peers && NotBefore(s'.shared.peers[m], s.shared.peers[m])
  {
    TableOperation(s, a, s');
    if a.Absorb? {
      ApplyAllPeer(s.shared, a.env.frame.updates, a.now, s.cfg.suspicionTimeout, m);
    }
  }

  /** Along every run an entry is never forgotten and its (incarnation, is-dead) pair only grows,
      although a suspicion may be taken back. */
  lemma {:induction false} EntriesOnlyGrow(r: Run, i: nat, j: nat, n: NodeId, m: NodeId)
    requires IsRun(r) && i <= j < |r.states|
    requires n in r.states[i].nodes && m in r.states[i].nodes[n].shared.peers
    ensures n in r.states[j].nodes && m in r.states[j].nodes[n].shared.peers
    ensures NotBefore(r.states[j].nodes[n].shared.peers[m], r.states[i].nodes[n].shared.peers[m])
    decreases j
  {
    if i < j {
      EntriesOnlyGrow(r, i, j - 1, n, m);
      NodeAt(r, j - 1, n);
      if n == r.actions[j - 1].node {
        StepNotBefore(r.states[j - 1].nodes[n], r.actions[j - 1], r.states[j].nodes[n], m);
      }
    }
  }

  lemma {:induction false} StoppedKeepsIncarnation(r: Run, i: nat, j: nat, m: NodeId)
    requires IsRun(r) && i <= j < |r.states| && m in r.states[i].nodes
    requires forall k :: i <= k < |r.actions| ==> r.actions[k].node != m
    ensures m in r.states[j].nodes && r.states[j].nodes[m] == r.states[i].nodes[m]
    decreases j
  {
    if i < j {
      StoppedKeepsIncarnation(r, i, j - 1, m);
      NodeAt(r, j - 1, m);
    }
  }

  /** Once a stopped node is recorded dead at its last incarnation, no gossip, however late or
      duplicated, brings it back into that view. */
  lemma {:induction false} TombstoneIsFinal(r: Run, i: nat, j: nat, n: NodeId, m: NodeId)
    requires IsRun(r) && i <= j < |r.states|
    requires n in r.states[i].nodes && m in r.states[i].nodes && m in r.states[i].nodes[n].shared.peers
    requires forall k :: i <= k < |r.actions| ==> r.actions[k].node != m
    requires r.states[i].nodes[n].shared.peers[m].state.Dead?
    requires r.states[i].nodes[n].shared.peers[m].incarnation == r.states[i].nodes[m].shared.incarnation
    ensures n in r.states[j].nodes && m !in r.states[j].nodes[n].shared.members
    ensures m in r.states[j].nodes[n].shared.peers && r.states[j].nodes[n].shared.peers[m].state.Dead?
  {
    EntriesOnlyGrow(r, i, j, n, m);
    StoppedKeepsIncarnation(r, i, j, m);
    OwnershipHolds(r, j);
    ViewHolds(r, j, n);
    var s := r.states[j].nodes[n].shared;
    assert NodeOwned(r.states[j], n);
    assert Bounded(r.states[j], UpdateOf(m, s.peers[m]));
  }
}
