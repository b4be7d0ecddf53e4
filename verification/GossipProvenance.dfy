/** Where a death comes from: every dead entry, in a table or in flight, goes back to one node
    that held the member suspected, unbroken, for its whole suspicion timeout. */
module GossipProvenance {
  import opened Basics
  import opened GossipWire
  import opened GossipNode
  import opened GossipCluster
  import opened GossipView

  ghost predicate HoldsSuspect(c: Cluster, a: NodeId, n: NodeId, inc: nat, until: Time) {
    && a in c.nodes && n in c.nodes[a].shared.peers
    && c.nodes[a].shared.peers[n].state == Suspect
    && c.nodes[a].shared.peers[n].incarnation == inc
    && c.nodes[a].shared.peers[n].deadline == Some(until)
  }

  ghost predicate Suspects(s: Shared, n: NodeId, inc: nat) {
    n in s.peers && s.peers[n].state == Suspect && s.peers[n].incarnation == inc
  }

  /** `a` took up the suspicion of `n` at step `p` (on its own, or on hearsay) and held it in every
      state from there up to `q`. */
  ghost predicate HeldSuspect(r: Run, a: NodeId, n: NodeId, inc: nat, p: nat, q: nat)
    requires IsRun(r)
  {
    && p < q < |r.states|
    && r.actions[p].node == a && a in r.states[p].nodes
    && (r.actions[p].Absorb? || r.actions[p].AdvanceProbe?)
    && !Suspects(r.states[p].nodes[a].shared, n, inc)
    && (forall k :: p < k <= q ==>
          HoldsSuspect(r.states[k], a, n, inc, r.actions[p].now + r.states[p].nodes[a].cfg.suspicionTimeout))
  }

  lemma {:induction false} StartsEmpty(r: Run)
    requires IsRun(r)
    ensures forall a :: a in r.states[0].nodes ==>
              r.states[0].nodes[a].shared.peers == map[] && r.states[0].nodes[a].probe.None?
  {
    forall a | a in r.states[0].nodes
      ensures r.states[0].nodes[a].shared.peers == map[] && r.states[0].nodes[a].probe.None?
    {
      assert Fresh(a, r.states[0].nodes[a]);
    }
  }

  lemma {:induction false} ConfigFixed(s: Node, a: Action, s': Node)
    requires LocalStep(s, a, s')
    ensures s'.cfg == s.cfg && s'.shared.me == s.shared.me
  {
    TableOperation(s, a, s');
    if a.Absorb? {
      ApplyAllPeer(s.shared, a.env.frame.updates, a.now, s.cfg.suspicionTimeout, s.shared.me);
    }
  }

  /** An entry becomes suspected only by hearsay or by a failed probe, and its deadline then lies
      one suspicion timeout ahead. */
  lemma {:induction false} BecomesSuspect(s: Node, a: Action, s': Node, n: NodeId)
    requires LocalStep(s, a, s') && n in s'.shared.peers && s'.shared.peers[n].state.Suspect?
    ensures || (n in s.shared.peers && s'.shared.peers[n] == s.shared.peers[n])
            || (&& (a.Absorb? || a.AdvanceProbe?)
                && !Suspects(s.shared, n, s'.shared.peers[n].incarnation)
                && s'.shared.peers[n].deadline == Some(a.now + s.cfg.suspicionTimeout))
  {
    TableOperation(s, a, s');
    if a.Absorb? {
      ApplyAllPeer(s.shared, a.env.frame.updates, a.now, s.cfg.suspicionTimeout, n);
    }
  }

  /** Every suspicion a node holds was taken up at some step and has been held ever since. */
  lemma {:induction false} SuspectSince(r: Run, k: nat, a: NodeId, n: NodeId) returns (p: nat)
    requires IsRun(r) && k < |r.states| && a in r.states[k].nodes && n in r.states[k].nodes[a].shared.peers
    requires r.states[k].nodes[a].shared.peers[n].state.Suspect?
    ensures HeldSuspect(r, a, n, r.states[k].nodes[a].shared.peers[n].incarnation, p, k)
  {
    hide LocalStep, StepsAt;
    StartsEmpty(r);
    if k == 0 {
      assert false;
    } else {
      NodeAt(r, k - 1, a);
      var s, s' := r.states[k - 1].nodes[a], r.states[k].nodes[a];
      if a == r.actions[k - 1].node {
        BecomesSuspect(s, r.actions[k - 1], s', n);
      }
      if n in s.shared.peers && s'.shared.peers[n] == s.shared.peers[n] {
        p := SuspectSince(r, k - 1, a, n);
        StillHeld(r, a, n, s'.shared.peers[n].incarnation, p, k);
      } else {
        p := k - 1;
        TakenUp(r, a, n, p);
      }
    }
  }

  lemma {:induction false} TakenUp(r: Run, a: NodeId, n: NodeId, p: nat)
    requires IsRun(r) && p < |r.actions| && r.actions[p].node == a && a in r.states[p].nodes
    requires a in r.states[p + 1].nodes && n in r.states[p + 1].nodes[a].shared.peers
    requires r.states[p + 1].nodes[a].shared.peers[n].state.Suspect? && (r.actions[p].Absorb? || r.actions[p].AdvanceProbe?)
    requires !Suspects(r.states[p].nodes[a].shared, n, r.states[p + 1].nodes[a].shared.peers[n].incarnation)
    requires r.states[p + 1].nodes[a].shared.peers[n].deadline ==
             Some(r.actions[p].now + r.states[p].nodes[a].cfg.suspicionTimeout)
    ensures HeldSuspect(r, a, n, r.states[p + 1].nodes[a].shared.peers[n].incarnation, p, p + 1)
  {
    assert HoldsSuspect(r.states[p + 1], a, n, r.states[p + 1].nodes[a].shared.peers[n].incarnation,
                        r.actions[p].now + r.states[p].nodes[a].cfg.suspicionTimeout);
  }

  lemma {:induction false} StillHeld(r: Run, a: NodeId, n: NodeId, inc: nat, p: nat, k: nat)
    requires IsRun(r) && 0 < k < |r.states| && HeldSuspect(r, a, n, inc, p, k - 1)
    requires a in r.states[k - 1].nodes && n in r.states[k - 1].nodes[a].shared.peers
    requires a in r.states[k].nodes && n in r.states[k].nodes[a].shared.peers
    requires r.states[k].nodes[a].shared.peers[n] == r.states[k - 1].nodes[a].shared.peers[n]
    ensures HeldSuspect(r, a, n, inc, p, k)
  {
    var until := r.actions[p].now + r.states[p].nodes[a].cfg.suspicionTimeout;
    assert HoldsSuspect(r.states[k - 1], a, n, inc, until);
    assert HoldsSuspect(r.states[k], a, n, inc, until);
  }

  // ---------- deaths ----------

  ghost predicate DeadInTable(c: Cluster, a: NodeId, n: NodeId, inc: nat) {
    && a in c.nodes && n in c.nodes[a].shared.peers
    && c.nodes[a].shared.peers[n].state == Dead && c.nodes[a].shared.peers[n].incarnation == inc
  }

  ghost predicate DeadInFrame(f: Frame, n: NodeId, inc: nat) {
    exists i :: 0 <= i < |f.updates| && f.updates[i].node == n
                && f.updates[i].state == Dead && f.updates[i].incarnation == inc
  }

  /** `a` held `n` suspected from step `p` to step `q`, at least its suspicion timeout by its own
      clock, and then declared it dead. */
  ghost predicate Died(r: Run, n: NodeId, inc: nat, a: NodeId, p: nat, q: nat)
    requires IsRun(r)
  {
    && q < |r.actions| && HeldSuspect(r, a, n, inc, p, q)
    && r.actions[q].ReapSuspects? && r.actions[q].node == a
    && r.actions[p].now + r.states[p].nodes[a].cfg.suspicionTimeout <= r.actions[q].now
  }

  /** A table entry turns dead only by hearsay or when its own deadline has passed. */
  lemma {:induction false} BecomesDead(s: Node, a: Action, s': Node, n: NodeId)
    requires LocalStep(s, a, s') && n in s'.shared.peers && s'.shared.peers[n].state.Dead?
    ensures || (n in s.shared.peers && s'.shared.peers[n] == s.shared.peers[n])
            || (a.Absorb? && DeadInFrame(a.env.frame, n, s'.shared.peers[n].incarnation))
            || (&& a.ReapSuspects? && n in s.shared.peers && Expired(s.shared.peers[n], a.now)
                && s'.shared.peers[n].incarnation == s.shared.peers[n].incarnation)
  {
    TableOperation(s, a, s');
    if a.Absorb? {
      ApplyAllPeer(s.shared, a.env.frame.updates, a.now, s.cfg.suspicionTimeout, n);
      if !(n in s.shared.peers && s'.shared.peers[n] == s.shared.peers[n]) {
        var us := a.env.frame.updates;
        var i :| 0 <= i < |us| && us[i].node == n
                 && s'.shared.peers[n] == PeerOf(us[i], a.now, s.cfg.suspicionTimeout);
        assert us[i].state == Dead && us[i].incarnation == s'.shared.peers[n].incarnation;
      }
    }
  }

  lemma {:induction false} TraceTable(r: Run, k: nat, b: NodeId, n: NodeId, inc: nat)
    returns (a: NodeId, p: nat, q: nat)
    requires IsRun(r) && k < |r.states| && DeadInTable(r.states[k], b, n, inc)
    ensures q < k && Died(r, n, inc, a, p, q)
    decreases k, 0
  {
    StartsEmpty(r);
    if k == 0 {
      assert false;
    } else {
      NodeAt(r, k - 1, b);
      var act, s, s' := r.actions[k - 1], r.states[k - 1].nodes[b], r.states[k].nodes[b];
      if b == act.node {
        BecomesDead(s, act, s', n);
      }
      if n in s.shared.peers && s'.shared.peers[n] == s.shared.peers[n] {
        a, p, q := TraceTable(r, k - 1, b, n, inc);
      } else if act.Absorb? {
        assert StepsAt(r, k - 1);
        a, p, q := TraceFrame(r, k - 1, act.env, n, inc);
      } else {
        a, q := b, k - 1;
        p := SuspectSince(r, k - 1, b, n);
        assert HoldsSuspect(r.states[q], a, n, inc, r.actions[p].now + r.states[p].nodes[a].cfg.suspicionTimeout);
      }
    }
  }

  lemma {:induction false} TraceFrame(r: Run, k: nat, e: Envelope, n: NodeId, inc: nat)
    returns (a: NodeId, p: nat, q: nat)
    requires IsRun(r) && k < |r.states| && e in r.states[k].net && DeadInFrame(e.frame, n, inc)
    ensures q < k && Died(r, n, inc, a, p, q)
    decreases k, 1
  {
    if k == 0 {
      assert false;
    } else {
      assert StepsAt(r, k - 1);
      if e in r.states[k - 1].net {
        a, p, q := TraceFrame(r, k - 1, e, n, inc);
      } else {
        var b := r.actions[k - 1].node;
        SentDeadIsInTable(r.states[k - 1].nodes[b], r.actions[k - 1], r.states[k].nodes[b], e, n, inc);
        a, p, q := TraceTable(r, k, b, n, inc);
      }
    }
  }

  lemma {:induction false} SentDeadIsInTable(s: Node, a: Action, s': Node, e: Envelope, n: NodeId, inc: nat)
    requires LocalStep(s, a, s') && e in Sent(a) && DeadInFrame(e.frame, n, inc)
    ensures n in s'.shared.peers && s'.shared.peers[n].state == Dead && s'.shared.peers[n].incarnation == inc
  {
    SentAreSnapshots(s, a, s', e);
    var i :| 0 <= i < |e.frame.updates| && e.frame.updates[i].node == n
             && e.frame.updates[i].state == Dead && e.frame.updates[i].incarnation == inc;
    SnapshotEntry(s'.shared, e.frame, i);
  }

  // ---------- how long a death takes ----------

  ghost predicate Probing(s: Node, q: nat, target: NodeId) {
    s.probe.Some? && s.probe.value.seqNo == q && s.probe.value.target == target
  }

  /** `a` began at step `b` the probe of `target` that it still had in flight at state `k`. */
  ghost predicate ProbeBegan(r: Run, b: nat, k: nat, a: NodeId, target: NodeId)
    requires IsRun(r)
  {
    && b < k < |r.states| && r.actions[b].StartProbe? && r.actions[b].node == a
    && a in r.states[b].nodes && r.states[b].nodes[a].probe.None?
    && (forall j :: b < j <= k ==>
          a in r.states[j].nodes && Probing(r.states[j].nodes[a], SeqAfter(r.states[b].nodes[a].seqNo, 1), target))
  }

  lemma {:induction false} ProbeChanges(s: Node, a: Action, s': Node)
    requires LocalStep(s, a, s') && s'.probe.Some?
    ensures || s'.probe == s.probe
            || (&& a.AdvanceProbe? && s.probe.Some? && s.probe.value.phase.Direct? && s.probe.value.deadline <= a.now
                && s'.probe == Some(s.probe.value.(phase := Indirect, deadline := a.now + s.cfg.probeTimeout)))
            || (&& a.StartProbe? && s.probe.None? && s'.probe.value.seqNo == SeqAfter(s.seqNo, 1)
                && s'.probe.value.phase.Direct? && s'.probe.value.deadline == a.now + s.cfg.probeTimeout)
  {
  }

  /** A probe waits one probe timeout in each of its two phases. */
  lemma {:induction false} ProbeSince(r: Run, k: nat, a: NodeId) returns (b: nat)
    requires IsRun(r) && k < |r.states| && a in r.states[k].nodes && r.states[k].nodes[a].probe.Some?
    ensures ProbeBegan(r, b, k, a, r.states[k].nodes[a].probe.value.target)
    ensures r.states[b].nodes[a].cfg == r.states[k].nodes[a].cfg
    ensures var pr, cfg := r.states[k].nodes[a].probe.value, r.states[k].nodes[a].cfg;
            pr.deadline >= r.actions[b].now + cfg.probeTimeout * (if pr.phase.Direct? then 1 else 2)
  {
    StartsEmpty(r);
    if k == 0 {
      assert false;
    } else {
      NodeAt(r, k - 1, a);
      var act, s, s' := r.actions[k - 1], r.states[k - 1].nodes[a], r.states[k].nodes[a];
      if a == act.node {
        ProbeChanges(s, act, s');
        ConfigFixed(s, act, s');
      }
      if s.probe.Some? {
        b := ProbeSince(r, k - 1, a);
        assert Probing(s, SeqAfter(r.states[b].nodes[a].seqNo, 1), s.probe.value.target);
      } else {
        b := k - 1;
      }
    }
  }

  /** The suspicion a node takes up by itself comes two probe timeouts after the probe began. */
  lemma {:induction false} OwnSuspicionIsSlow(r: Run, p: nat, a: NodeId, n: NodeId, inc: nat, q: nat) returns (b: nat)
    requires IsRun(r) && HeldSuspect(r, a, n, inc, p, q) && r.actions[p].AdvanceProbe?
    ensures ProbeBegan(r, b, p, a, n)
    ensures r.states[b].nodes[a].cfg == r.states[p].nodes[a].cfg
    ensures r.actions[b].now + 2 * r.states[p].nodes[a].cfg.probeTimeout <= r.actions[p].now
  {
    NodeAt(r, p, a);
    var act, s, s' := r.actions[p], r.states[p].nodes[a], r.states[p + 1].nodes[a];
    assert HoldsSuspect(r.states[p + 1], a, n, inc, act.now + s.cfg.suspicionTimeout);
    TableOperation(s, act, s');
    assert Suspects(s'.shared, n, inc);
    b := ProbeSince(r, p, a);
  }

  /** A death whose suspicion the node took up by itself came at least two probe timeouts and the
      suspicion timeout after that node began to probe. */
  ghost predicate SlowIfOwn(r: Run, n: NodeId, a: NodeId, p: nat, q: nat)
    requires IsRun(r) && p < q < |r.actions| && a in r.states[p].nodes && r.actions[p].AdvanceProbe?
    requires r.actions[q].ReapSuspects?
  {
    exists b: nat :: b < p && ProbeBegan(r, b, p, a, n) &&
      r.actions[b].now + 2 * r.states[p].nodes[a].cfg.probeTimeout + r.states[p].nodes[a].cfg.suspicionTimeout
      <= r.actions[q].now
  }

  lemma {:induction false} DiedSlowly(r: Run, n: NodeId, inc: nat, a: NodeId, p: nat, q: nat)
    requires IsRun(r) && Died(r, n, inc, a, p, q) && r.actions[p].AdvanceProbe?
    ensures SlowIfOwn(r, n, a, p, q)
  {
    var b := OwnSuspicionIsSlow(r, p, a, n, inc, q);
  }

  /** Every dead entry in any table or any datagram traces back to one node that held the member
      suspected at that incarnation without a break for its whole suspicion timeout. */
  lemma {:induction false} DeathProvenance(r: Run, k: nat, n: NodeId, inc: nat)
    requires IsRun(r) && k < |r.states|
    requires || (exists b :: DeadInTable(r.states[k], b, n, inc))
             || (exists e :: e in r.states[k].net && DeadInFrame(e.frame, n, inc))
    ensures exists a, p: nat, q: nat ::
              && q < k && Died(r, n, inc, a, p, q)
              && (r.actions[p].AdvanceProbe? ==> SlowIfOwn(r, n, a, p, q))
  {
    var a, p, q;
    if exists b :: DeadInTable(r.states[k], b, n, inc) {
      var b :| DeadInTable(r.states[k], b, n, inc);
      a, p, q := TraceTable(r, k, b, n, inc);
    } else {
      var e :| e in r.states[k].net && DeadInFrame(e.frame, n, inc);
      a, p, q := TraceFrame(r, k, e, n, inc);
    }
    if r.actions[p].AdvanceProbe? {
      DiedSlowly(r, n, inc, a, p, q);
    }
  }

  /** The step at which a node that hears nothing turns an entry dead is its own reaping. */
  lemma {:induction false} TurnsDead(r: Run, i: nat, j: nat, a: NodeId, n: NodeId) returns (q: nat)
    requires IsRun(r) && i <= j < |r.states|
    requires a in r.states[i].nodes && n in r.states[i].nodes[a].shared.peers
    requires !r.states[i].nodes[a].shared.peers[n].state.Dead?
    requires a in r.states[j].nodes && n in r.states[j].nodes[a].shared.peers
    requires r.states[j].nodes[a].shared.peers[n].state.Dead?
    requires forall k :: i <= k < j && r.actions[k].node == a ==> !r.actions[k].Absorb?
    ensures i <= q < j && r.actions[q].ReapSuspects? && r.actions[q].node == a
    ensures a in r.states[q].nodes && n in r.states[q].nodes[a].shared.peers
    ensures Expired(r.states[q].nodes[a].shared.peers[n], r.actions[q].now)
    decreases j
  {
    NodeAt(r, j - 1, a);
    EntriesOnlyGrow(r, i, j - 1, a, n);
    var s, s' := r.states[j - 1].nodes[a], r.states[j].nodes[a];
    if s.shared.peers[n].state.Dead? {
      q := TurnsDead(r, i, j - 1, a, n);
    } else {
      BecomesDead(s, r.actions[j - 1], s', n);
      q := j - 1;
    }
  }

  /** On its own timers alone a node cannot turn an alive peer dead sooner than two probe timeouts
      plus the suspicion timeout after it began to probe it. */
  lemma {:induction false} OwnTimersAreSlow(r: Run, i: nat, j: nat, a: NodeId, n: NodeId)
    requires IsRun(r) && i <= j < |r.states|
    requires a in r.states[i].nodes && n in r.states[i].nodes[a].shared.peers
    requires r.states[i].nodes[a].shared.peers[n].state.Alive?
    requires a in r.states[j].nodes && n in r.states[j].nodes[a].shared.peers
    requires r.states[j].nodes[a].shared.peers[n].state.Dead?
    requires forall k :: i <= k < j && r.actions[k].node == a ==> !r.actions[k].Absorb?
    ensures exists p: nat, q: nat ::
              && i <= p < q < j && r.actions[p].AdvanceProbe? && r.actions[q].ReapSuspects?
              && a in r.states[p].nodes && SlowIfOwn(r, n, a, p, q)
  {
    var q := TurnsDead(r, i, j, a, n);
    var p := SuspectSince(r, q, a, n);
    var inc := r.states[q].nodes[a].shared.peers[n].incarnation;
    var until := r.actions[p].now + r.states[p].nodes[a].cfg.suspicionTimeout;
    assert !HoldsSuspect(r.states[i], a, n, inc, until);
    assert HoldsSuspect(r.states[q], a, n, inc, until);
    DiedSlowly(r, n, inc, a, p, q);
  }
}
