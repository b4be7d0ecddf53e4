/** The gossip task itself, in place: every handler of the event loop, updating the fields it
    owns and writing datagrams to its socket, proved to do what the transition system says. */
module GossipRuntime {
  import opened Basics
  import opened GossipWire
  import opened GossipNode
  import GCounter

  /** The order in which a shuffled candidate list comes out is arbitrary. */
  method Shuffle(ids: set<NodeId>) returns (order: seq<NodeId>)
    ensures Lists(order, ids)
  {
    order := [];
    var rest := ids;
    while rest != {}
      invariant rest <= ids
      invariant forall i :: 0 <= i < |order| ==> order[i] in ids && order[i] !in rest
      invariant forall n :: n in ids && n !in rest ==> n in order
      invariant forall i, j :: 0 <= i < j < |order| ==> order[i] != order[j]
      decreases |rest|
    {
      var n :| n in rest;
      order := order + [n];
      rest := rest - {n};
    }
  }

  method SortIds(ids: set<NodeId>) returns (sorted: seq<NodeId>)
    ensures Lists(sorted, ids) && Ascending(sorted)
  {
    sorted := [];
    var rest := ids;
    while rest != {}
      invariant rest <= ids
      invariant forall i :: 0 <= i < |sorted| ==> sorted[i] in ids && sorted[i] !in rest
      invariant forall n :: n in ids && n !in rest ==> n in sorted
      invariant forall i, n :: 0 <= i < |sorted| && n in rest ==> Less(sorted[i], n)
      invariant Ascending(sorted)
      decreases |rest|
    {
      var n := PickLeast(rest);
      sorted := sorted + [n];
      rest := rest - {n};
    }
    forall i, j | 0 <= i < j < |sorted|
      ensures sorted[i] != sorted[j]
    {
      LessAsymmetric(sorted[i], sorted[j]);
    }
  }

  lemma {:induction false} SeqAfterStep(q: U64, k: nat)
    ensures SeqAfter(SeqAfter(q, k), 1) == SeqAfter(q, k + 1) && SeqAfter(q, 0) == q
  {
  }

  lemma {:induction false} PingsSnoc(s: Shared, q: U64, dests: seq<Addr>, sent: seq<Envelope>, dst: Addr, e: Envelope)
    requires Pings(s, q, dests, sent) && e.dst == dst && IsSnapshot(s, SeqAfter(q, |dests| + 1), Ping, e.frame)
    ensures Pings(s, q, dests + [dst], sent + [e])
  {
  }

  /** What a round sends does not depend on whether a frame is being handled. */
  lemma {:induction false} RoundWhileHandling(s: Node, f: Frame, order: seq<NodeId>, sent: seq<Envelope>)
    requires IsRound(s, order, sent)
    ensures IsRound(s.(handling := Some(f)), order, sent)
  {
  }

  /** A request to each of the first helpers to ping the target for this probe. */
  ghost predicate Asks(s: Shared, p: Probe, order: seq<NodeId>, sent: seq<Envelope>) {
    && |sent| <= |order|
    && forall i :: 0 <= i < |sent| ==>
         && order[i] in s.peers && sent[i].dst == s.peers[order[i]].addr
         && IsSnapshot(s, p.seqNo, PingReq(p.targetAddr), sent[i].frame)
  }

  lemma {:induction false} AsksSnoc(s: Shared, p: Probe, order: seq<NodeId>, sent: seq<Envelope>, e: Envelope)
    requires Asks(s, p, order, sent) && |sent| < |order| && order[|sent|] in s.peers
    requires e.dst == s.peers[order[|sent|]].addr && IsSnapshot(s, p.seqNo, PingReq(p.targetAddr), e.frame)
    ensures Asks(s, p, order, sent + [e])
  {}

  class Runtime {
    const cfg: Config
    const me: NodeId
    const addr: Addr
    var incarnation: nat
    var members: set<NodeId>
    var counter: GCounter.Counter
    var peers: map<NodeId, Peer>
    var seqNo: U64
    var probe: Option<Probe>
    var relays: map<nat, Relay>
    var roundRobin: U64
    /** Everything written to the socket so far. */
    var socket: seq<Envelope>

    ghost function SharedView(): Shared
      reads this
    {
      Shared(me, addr, incarnation, members, counter, peers)
    }

    ghost function View(): Node
      reads this
    {
      Node(cfg, SharedView(), seqNo, probe, relays, roundRobin, None)
    }

    constructor (cfg: Config, me: NodeId, addr: Addr, seqNo: U64)
      ensures View() == Node(cfg, NewShared(me, addr), seqNo, None, map[], 0, None) && socket == []
    {
      this.cfg, this.me, this.addr := cfg, me, addr;
      incarnation, members, counter, peers := 0, {me}, map[], map[];
      this.seqNo, probe, relays, roundRobin, socket := seqNo, None, map[], 0, [];
    }

    method Incr(amount: nat)
      modifies this`counter
      ensures SharedView() == IncrOwn(old(SharedView()), amount)
    {
      var slot := if me in counter then counter[me] else 0;
      counter := counter[me := slot + amount];
    }

    method Leave(n: NodeId)
      modifies this`members
      ensures members == GossipNode.Leave(old(SharedView()), n)
    {
      if n != me {
        members := members - {n};
      }
    }

    method ApplyUpdate(u: MemberUpdate, now: Time) returns (refuted: bool)
      modifies this`incarnation, this`members, this`peers
      ensures SharedView() == GossipNode.ApplyUpdate(old(SharedView()), u, now, cfg.suspicionTimeout)
      ensures refuted == Refutes(old(SharedView()), u)
    {
      if u.node == me {
        if (u.state.Suspect? || u.state.Dead?) && u.incarnation >= incarnation {
          incarnation := u.incarnation + 1;
          return true;
        }
        return false;
      }
      var deadline := if u.state.Suspect? then Some(now + cfg.suspicionTimeout) else None;
      if u.node !in peers {
        peers := peers[u.node := Peer(u.addr, u.incarnation, u.state, deadline)];
        if !u.state.Dead? {
          members := members + {u.node};
        }
      } else {
        var peer := peers[u.node];
        if || u.incarnation > peer.incarnation
           || (u.incarnation == peer.incarnation && Rank(u.state) > Rank(peer.state)) {
          peers := peers[u.node := peer.(incarnation := u.incarnation, addr := u.addr, state := u.state, deadline := deadline)];
          match u.state
          case Alive => members := members + {u.node};
          case Suspect => members := members + {u.node};
          case Dead => Leave(u.node);
        }
      }
      return false;
    }

    method Reconcile(f: Frame, now: Time) returns (refuted: bool)
      modifies this`incarnation, this`members, this`peers, this`counter
      ensures SharedView() == GossipNode.Reconcile(old(SharedView()), f, now, cfg.suspicionTimeout)
      ensures refuted == RefutesAny(old(SharedView()), f.updates, now, cfg.suspicionTimeout)
    {
      refuted := false;
      ghost var start := SharedView();
      for i := 0 to |f.updates|
        invariant SharedView() == ApplyAll(start, f.updates[..i], now, cfg.suspicionTimeout)
        invariant counter == old(counter)
        invariant refuted == RefutesAny(start, f.updates[..i], now, cfg.suspicionTimeout)
      {
        assert f.updates[..i + 1][..i] == f.updates[..i];
        var hit := ApplyUpdate(f.updates[i], now);
        refuted := refuted || hit;
      }
      assert f.updates[..|f.updates|] == f.updates;
      counter := GCounter.MergeInto(counter, f.counter);
    }

    method MarkSuspect(n: NodeId, now: Time)
      modifies this`peers
      ensures SharedView() == GossipNode.MarkSuspect(old(SharedView()), n, now, cfg.suspicionTimeout)
    {
      if n in peers && peers[n].state == Alive {
        peers := peers[n := peers[n].(state := Suspect, deadline := Some(now + cfg.suspicionTimeout))];
      }
    }

    method MarkAlive(n: NodeId)
      modifies this`peers, this`members
      ensures SharedView() == GossipNode.MarkAlive(old(SharedView()), n)
    {
      if n in peers && peers[n].state != Dead {
        peers := peers[n := peers[n].(state := Alive, deadline := None)];
        members := members + {n};
      }
    }

    /** The two loops of the reaper: turn expired suspects dead, then evict them. */
    method ReapTable(now: Time) returns (died: bool)
      modifies this`peers, this`members
      ensures SharedView() == Reap(old(SharedView()), now)
      ensures died == AnyExpired(old(SharedView()), now)
    {
      ghost var start := peers;
      var dead: set<NodeId> := {};
      var todo := peers.Keys;
      while todo != {}
        invariant todo <= start.Keys == peers.Keys && members == old(members)
        invariant forall n :: n in start ==> peers[n] == if n in todo then start[n] else ReapPeer(start[n], now)
        invariant dead == set n | n in start && n !in todo && Expired(start[n], now)
        decreases |todo|
      {
        var n :| n in todo;
        todo := todo - {n};
        if Expired(peers[n], now) {
          peers := peers[n := peers[n].(state := Dead, deadline := None)];
          dead := dead + {n};
        }
      }
      assert peers == Reap(old(SharedView()), now).peers;
      died := dead != {};
      assert died ==> exists n :: n in dead;
      EvictAll(dead);
      ghost var s := old(SharedView());
      assert dead - {me} == set n | n in s.peers && Expired(s.peers[n], now) && n != s.me;
    }

    method EvictAll(dead: set<NodeId>)
      modifies this`members
      ensures members == old(members) - (dead - {me})
    {
      var rest := dead;
      while rest != {}
        invariant rest <= dead
        invariant members == old(members) - (dead - rest - {me})
        decreases |rest|
      {
        var n :| n in rest;
        Leave(n);
        rest := rest - {n};
      }
    }

    method Snapshot(q: nat, kind: Kind) returns (f: Frame)
      ensures IsSnapshot(SharedView(), q, kind, f)
    {
      var rest := peers.Keys;
      var us: seq<MemberUpdate> := [];
      while rest != {}
        invariant rest <= peers.Keys
        invariant forall u :: u in us ==> u.node in peers && u.node !in rest && u == UpdateOf(u.node, peers[u.node])
        invariant forall n :: n in peers && n !in rest ==> UpdateOf(n, peers[n]) in us
        invariant forall i, j :: 0 <= i < j < |us| ==> us[i].node != us[j].node
        decreases |rest|
      {
        var n :| n in rest;
        us := us + [UpdateOf(n, peers[n])];
        rest := rest - {n};
      }
      var self := MemberUpdate(me, addr, incarnation, Alive);
      f := Frame(PROTOCOL_VERSION, me, addr, q, kind, [self] + us, counter);
      assert f.updates[1..] == us;
    }

    method Send(dst: Addr, q: nat, kind: Kind)
      modifies this`socket
      ensures |socket| == |old(socket)| + 1 && socket[..|old(socket)|] == old(socket)
      ensures socket[|old(socket)|].dst == dst
      ensures IsSnapshot(SharedView(), q, kind, socket[|old(socket)|].frame)
    {
      var f := Snapshot(q, kind);
      socket := socket + [Envelope(dst, f)];
    }

    /** The datagrams written since the socket had `from` of them. */
    ghost function Written(from: nat): seq<Envelope>
      requires from <= |socket|
      reads this
    {
      socket[from..]
    }

    method RoundDestinations(order: seq<NodeId>) returns (dests: seq<Addr>)
      requires Lists(order, Live(SharedView()))
      ensures dests == RoundDests(View(), order)
    {
      dests := [];
      var k := if cfg.gossipFanout < |order| then cfg.gossipFanout else |order|;
      for i := 0 to k
        invariant |dests| == i && forall j :: 0 <= j < i ==> dests[j] == peers[order[j]].addr
      {
        dests := dests + [peers[order[i]].addr];
      }
      ghost var picked := dests;
      assert picked == AddrsOf(SharedView(), Take(order, cfg.gossipFanout));
      for i := 0 to |cfg.seeds|
        invariant dests == AddSeeds(picked, cfg.seeds[..i])
      {
        assert cfg.seeds[..i + 1][..i] == cfg.seeds[..i];
        if cfg.seeds[i] !in dests {
          dests := dests + [cfg.seeds[i]];
        }
      }
      assert cfg.seeds[..|cfg.seeds|] == cfg.seeds;
    }

    method GossipRound() returns (ghost order: seq<NodeId>)
      modifies this`seqNo, this`socket
      ensures |old(socket)| <= |socket| && socket[..|old(socket)|] == old(socket)
      ensures IsRound(old(View()), order, Written(|old(socket)|))
      ensures View() == Drew(old(View()), |Written(|old(socket)|)|)
    {
      var live := set n | n in peers && peers[n].state != Dead;
      assert live == Live(SharedView());
      var shuffled := Shuffle(live);
      order := shuffled;
      var dests := RoundDestinations(shuffled);
      PingAll(dests);
    }

    /** Draw a number for each destination and ping it. */
    method PingAll(dests: seq<Addr>)
      modifies this`seqNo, this`socket
      ensures |old(socket)| <= |socket| && socket[..|old(socket)|] == old(socket)
      ensures Pings(SharedView(), old(seqNo), dests, Written(|old(socket)|))
      ensures seqNo == SeqAfter(old(seqNo), |dests|)
    {
      ghost var base, shared := |socket|, SharedView();
      SeqAfterStep(seqNo, 0);
      for i := 0 to |dests|
        invariant |socket| == base + i && socket[..base] == old(socket)
        invariant seqNo == SeqAfter(old(seqNo), i) && SharedView() == shared
        invariant Pings(shared, old(seqNo), dests[..i], socket[base..])
      {
        ghost var before := socket;
        SeqAfterStep(old(seqNo), i);
        seqNo := SeqAfter(seqNo, 1);
        Send(dests[i], seqNo, Ping);
        assert socket[base..] == before[base..] + [socket[base + i]];
        assert dests[..i + 1] == dests[..i] + [dests[i]];
        PingsSnoc(shared, old(seqNo), dests[..i], before[base..], dests[i], socket[base + i]);
      }
      assert dests[..|dests|] == dests;
    }

    method ReapSuspects(now: Time) returns (ghost order: seq<NodeId>)
      modifies this`peers, this`members, this`seqNo, this`socket
      ensures |old(socket)| <= |socket| && socket[..|old(socket)|] == old(socket)
      ensures Reaps(old(View()), now, order, Written(|old(socket)|), View())
    {
      order := [];
      var died := ReapTable(now);
      if died {
        order := GossipRound();
      }
    }

    method AdvanceProbe(now: Time) returns (ghost order: seq<NodeId>)
      modifies this`peers, this`probe, this`seqNo, this`socket
      ensures |old(socket)| <= |socket| && socket[..|old(socket)|] == old(socket)
      ensures Advances(old(View()), now, order, Written(|old(socket)|), View())
    {
      order := [];
      if probe.None? || probe.value.deadline > now {
        return;
      }
      var p := probe.value;
      match p.phase
      case Direct =>
        order := AskHelpers(p);
        probe := Some(p.(phase := Indirect, deadline := now + cfg.probeTimeout));
      case Indirect =>
        probe := None;
        MarkSuspect(p.target, now);
        order := GossipRound();
    }

    /** Ask up to `indirectProbes` alive peers other than the target to ping it for us. */
    method AskHelpers(p: Probe) returns (ghost order: seq<NodeId>)
      modifies this`socket
      ensures |old(socket)| <= |socket| && socket[..|old(socket)|] == old(socket)
      ensures Lists(order, Helpers(SharedView(), p.targetAddr))
      ensures |Written(|old(socket)|)| == |Take(order, cfg.indirectProbes)|
      ensures forall i :: 0 <= i < |Written(|old(socket)|)| ==>
                && Written(|old(socket)|)[i].dst == peers[order[i]].addr
                && IsSnapshot(SharedView(), p.seqNo, PingReq(p.targetAddr), Written(|old(socket)|)[i].frame)
    {
      var helpers := set n | n in peers && peers[n].state == Alive && peers[n].addr != p.targetAddr;
      assert helpers == Helpers(SharedView(), p.targetAddr);
      var shuffled := Shuffle(helpers);
      order := shuffled;
      var k := if cfg.indirectProbes < |shuffled| then cfg.indirectProbes else |shuffled|;
      ghost var base := |socket|;
      for i := 0 to k
        invariant |socket| == base + i && socket[..base] == old(socket)
        invariant Asks(SharedView(), p, shuffled, socket[base..])
      {
        ghost var before := socket;
        assert shuffled[i] in peers;
        Send(peers[shuffled[i]].addr, p.seqNo, PingReq(p.targetAddr));
        assert socket == before + [socket[base + i]];
        AsksSnoc(SharedView(), p, shuffled, before[base..], socket[base + i]);
        assert socket[base..] == before[base..] + [socket[base + i]];
      }
    }

    method StartProbe(now: Time) returns (ghost order: seq<NodeId>)
      modifies this`probe, this`seqNo, this`roundRobin, this`socket
      ensures |old(socket)| <= |socket| && socket[..|old(socket)|] == old(socket)
      ensures StartsProbe(old(View()), now, order, Written(|old(socket)|), View())
    {
      var live := set n | n in peers && peers[n].state != Dead;
      assert live == Live(SharedView());
      var sorted := SortIds(live);
      order := sorted;
      if probe.Some? || sorted == [] {
        return;
      }
      var n := sorted[roundRobin % |sorted|];
      roundRobin := (roundRobin + 1) % SEQ_SPACE;
      seqNo := SeqAfter(seqNo, 1);
      Send(peers[n].addr, seqNo, Ping);
      probe := Some(Probe(seqNo, n, peers[n].addr, Direct, now + cfg.probeTimeout));
    }

    /** Drop relays whose time is up. */
    method RetainRelays(now: Time)
      modifies this`relays
      ensures View() == ExpireRelays(old(View()), now)
    {
      var keep: map<nat, Relay> := map[];
      var todo := relays.Keys;
      while todo != {}
        invariant todo <= relays.Keys && relays == old(relays)
        invariant keep == map q | q in relays && q !in todo && relays[q].expire > now :: relays[q]
        decreases |todo|
      {
        var q :| q in todo;
        todo := todo - {q};
        if relays[q].expire > now {
          keep := keep[q := relays[q]];
        }
      }
      relays := keep;
    }

    /** First half of an incoming datagram: fold it in and, if that refuted an accusation, tell
        everyone at once. */
    method Absorb(f: Frame, now: Time) returns (ghost order: seq<NodeId>)
      requires f.version == PROTOCOL_VERSION
      modifies this`incarnation, this`members, this`peers, this`counter, this`seqNo, this`socket
      ensures |old(socket)| <= |socket| && socket[..|old(socket)|] == old(socket)
      ensures Absorbs(old(View()), now, f, order, Written(|old(socket)|), View().(handling := Some(f)))
    {
      order := [];
      var refuted := Reconcile(f, now);
      ghost var folded := View();
      if refuted {
        order := GossipRound();
        RoundWhileHandling(folded, f, order, Written(|old(socket)|));
      }
    }

    /** Second half: act on the kind. */
    method Dispatch(f: Frame, now: Time)
      modifies this`members, this`peers, this`probe, this`relays, this`socket
      ensures |old(socket)| <= |socket| && socket[..|old(socket)|] == old(socket)
      ensures Dispatches(old(View()).(handling := Some(f)), now, Written(|old(socket)|), View())
    {
      match f.kind
      case Ping =>
        Send(f.fromAddr, f.seqNo, Ack);
      case PingReq(target) =>
        relays := relays[f.seqNo := Relay(f.fromAddr, target, now + cfg.probeTimeout * 2)];
        Send(target, f.seqNo, Ping);
      case Ack =>
        HandleAck(f, now);
    }

    /** One incoming datagram; `mid` is the state between the halves, `cut` the number of
        datagrams written by then. */
    method Handle(f: Frame, now: Time) returns (ghost order: seq<NodeId>, ghost mid: Node, ghost cut: nat)
      modifies this`incarnation, this`members, this`peers, this`counter, this`seqNo, this`probe, this`relays, this`socket
      ensures |old(socket)| <= cut <= |socket| && socket[..|old(socket)|] == old(socket)
      ensures Absorbs(old(View()), now, f, order, socket[|old(socket)|..cut], mid)
      ensures mid.handling.Some? ==> Dispatches(mid, now, socket[cut..], View())
      ensures mid.handling.None? ==> mid == View() && cut == |socket|
    {
      if f.version != PROTOCOL_VERSION {
        order, mid, cut := [], View(), |socket|;
        return;
      }
      order := Absorb(f, now);
      mid, cut := View().(handling := Some(f)), |socket|;
      ghost var written := socket;
      Dispatch(f, now);
      assert socket[|old(socket)|..cut] == written[|old(socket)|..];
      assert socket[..|old(socket)|] == written[..|old(socket)|];
    }

    method HandleAck(f: Frame, now: Time)
      requires f.kind.Ack?
      modifies this`members, this`peers, this`probe, this`relays, this`socket
      ensures |old(socket)| <= |socket| && socket[..|old(socket)|] == old(socket)
      ensures Dispatches(old(View()).(handling := Some(f)), now, Written(|old(socket)|), View())
    {
      if probe.Some? && probe.value.seqNo == f.seqNo {
        var n := probe.value.target;
        probe := None;
        MarkAlive(n);
      }
      assert View() == AfterAck(old(View()), f);
      if f.seqNo in relays {
        var relay := relays[f.seqNo];
        relays := relays - {f.seqNo};
        if relay.target == f.fromAddr {
          Send(relay.origin, f.seqNo, Ack);
        }
      } else {
        assert relays - {f.seqNo} == relays;
      }
    }
  }
}
