/** One gossip node as a value: the state behind the mutex (`Shared`), the state of the
    background task around it (`Node`), and what every handler does to them. */
module GossipNode {
  import opened Basics
  import opened GossipWire
  import GCounter

  const SEQ_SPACE: nat := 0x1_0000_0000_0000_0000

  type U64 = n: nat | n < SEQ_SPACE

  datatype Config = Config(
    seeds: seq<Addr>,
    probeTimeout: Time,
    suspicionTimeout: Time,
    indirectProbes: nat,
    gossipFanout: nat)

  datatype Peer = Peer(addr: Addr, incarnation: nat, state: MemberState, deadline: Option<Time>)

  datatype Shared = Shared(
    me: NodeId,
    addr: Addr,
    incarnation: nat,
    members: set<NodeId>,
    counter: GCounter.Counter,
    peers: map<NodeId, Peer>)

  datatype Phase = Direct | Indirect

  datatype Probe = Probe(seqNo: nat, target: NodeId, targetAddr: Addr, phase: Phase, deadline: Time)

  datatype Relay = Relay(origin: Addr, target: Addr, expire: Time)

  /** `handling` is the frame already folded into `shared` whose kind has still to be acted on. */
  datatype Node = Node(
    cfg: Config,
    shared: Shared,
    seqNo: U64,
    probe: Option<Probe>,
    relays: map<nat, Relay>,
    roundRobin: U64,
    handling: Option<Frame>)

  function NewShared(me: NodeId, addr: Addr): Shared {
    Shared(me, addr, 0, {me}, map[], map[])
  }

  // ---------- folding a frame in ----------

  /** The update accuses this very node at an incarnation it has not yet moved past. */
  predicate Refutes(s: Shared, u: MemberUpdate) {
    u.node == s.me && u.state != Alive && u.incarnation >= s.incarnation
  }

  /** News of this incarnation and state counts for more than the entry held. */
  predicate Outranks(incarnation: nat, state: MemberState, p: Peer) {
    || incarnation > p.incarnation
    || (incarnation == p.incarnation && Rank(state) > Rank(p.state))
  }

  predicate Supersedes(u: MemberUpdate, p: Peer) {
    Outranks(u.incarnation, u.state, p)
  }

  function PeerOf(u: MemberUpdate, now: Time, timeout: Time): Peer {
    Peer(u.addr, u.incarnation, u.state, if u.state.Suspect? then Some(now + timeout) else None)
  }

  function Join(s: Shared, n: NodeId): set<NodeId> {
    s.members + {n}
  }

  function Leave(s: Shared, n: NodeId): set<NodeId> {
    if n != s.me then s.members - {n} else s.members
  }

  function ApplyUpdate(s: Shared, u: MemberUpdate, now: Time, timeout: Time): Shared {
    if u.node == s.me then
      if Refutes(s, u) then s.(incarnation := u.incarnation + 1) else s
    else if u.node !in s.peers then
      s.(peers := s.peers[u.node := PeerOf(u, now, timeout)],
      members := if u.state.Dead? then s.members else Join(s, u.node))
    else if Supersedes(u, s.peers[u.node]) then
      s.(peers := s.peers[u.node := PeerOf(u, now, timeout)],
      members := if u.state.Dead? then Leave(s, u.node) else Join(s, u.node))
    else
      s
  }

  function ApplyAll(s: Shared, us: seq<MemberUpdate>, now: Time, timeout: Time): Shared {
    if us == [] then s
    else ApplyUpdate(ApplyAll(s, us[..|us| - 1], now, timeout), us[|us| - 1], now, timeout)
  }

  predicate RefutesAny(s: Shared, us: seq<MemberUpdate>, now: Time, timeout: Time) {
    us != [] &&
    (|| RefutesAny(s, us[..|us| - 1], now, timeout)
     || Refutes(ApplyAll(s, us[..|us| - 1], now, timeout), us[|us| - 1]))
  }

  function Reconcile(s: Shared, f: Frame, now: Time, timeout: Time): Shared {
    var t := ApplyAll(s, f.updates, now, timeout);
    t.(counter := GCounter.Merge(t.counter, f.counter))
  }

  // ---------- the failure detector ----------

  function MarkSuspect(s: Shared, n: NodeId, now: Time, timeout: Time): Shared {
    if n in s.peers && s.peers[n].state.Alive?
    then s.(peers := s.peers[n := s.peers[n].(state := Suspect, deadline := Some(now + timeout))])
    else s
  }

  function MarkAlive(s: Shared, n: NodeId): Shared {
    if n in s.peers && !s.peers[n].state.Dead?
    then s.(peers := s.peers[n := s.peers[n].(state := Alive, deadline := None)], members := Join(s, n))
    else s
  }

  predicate Expired(p: Peer, now: Time) {
    p.state.Suspect? && p.deadline.Some? && p.deadline.value <= now
  }

  function ReapPeer(p: Peer, now: Time): Peer {
    if Expired(p, now) then p.(state := Dead, deadline := None) else p
  }

  function Reap(s: Shared, now: Time): Shared {
    s.(peers := map n | n in s.peers :: ReapPeer(s.peers[n], now),
    members := s.members - (set n | n in s.peers && Expired(s.peers[n], now) && n != s.me))
  }

  ghost predicate AnyExpired(s: Shared, now: Time) {
    exists n :: n in s.peers && Expired(s.peers[n], now)
  }

  // ---------- what is sent ----------

  function SelfUpdate(s: Shared): MemberUpdate {
    MemberUpdate(s.me, s.addr, s.incarnation, Alive)
  }

  function UpdateOf(n: NodeId, p: Peer): MemberUpdate {
    MemberUpdate(n, p.addr, p.incarnation, p.state)
  }

  /** `us` lists every peer once, in some order. */
  ghost predicate ListsPeers(us: seq<MemberUpdate>, peers: map<NodeId, Peer>) {
    && (forall u :: u in us ==> u.node in peers && u == UpdateOf(u.node, peers[u.node]))
    && (forall n :: n in peers ==> UpdateOf(n, peers[n]) in us)
    && (forall i, j :: 0 <= i < j < |us| ==> us[i].node != us[j].node)
  }

  /** `f` is this node's own entry, then every peer, then the whole counter. */
  ghost predicate IsSnapshot(s: Shared, q: nat, kind: Kind, f: Frame) {
    && f.updates != []
    && f == Frame(PROTOCOL_VERSION, s.me, s.addr, q, kind, f.updates, s.counter)
    && f.updates[0] == SelfUpdate(s)
    && ListsPeers(f.updates[1..], s.peers)
  }

  ghost predicate Lists(order: seq<NodeId>, ids: set<NodeId>) {
    && (forall i :: 0 <= i < |order| ==> order[i] in ids)
    && (forall n :: n in ids ==> n in order)
    && (forall i, j :: 0 <= i < j < |order| ==> order[i] != order[j])
  }

  function Live(s: Shared): set<NodeId> {
    set n | n in s.peers && !s.peers[n].state.Dead?
  }

  function Helpers(s: Shared, target: Addr): set<NodeId> {
    set n | n in s.peers && s.peers[n].state.Alive? && s.peers[n].addr != target
  }

  function Take<T>(xs: seq<T>, k: nat): seq<T> {
    if k < |xs| then xs[..k] else xs
  }

  function AddrsOf(s: Shared, ids: seq<NodeId>): seq<Addr>
    requires forall i :: 0 <= i < |ids| ==> ids[i] in s.peers
  {
    seq(|ids|, i requires 0 <= i < |ids| => s.peers[ids[i]].addr)
  }

  function AddSeeds(dests: seq<Addr>, seeds: seq<Addr>): seq<Addr> {
    if seeds == [] then dests
    else
      var d := AddSeeds(dests, seeds[..|seeds| - 1]);
      if seeds[|seeds| - 1] in d then d else d + [seeds[|seeds| - 1]]
  }

  /** Sequence numbers wrap at 64 bits. */
  function SeqAfter(q: U64, k: nat): U64 {
    (q + k) % SEQ_SPACE
  }

  function Drew(s: Node, k: nat): Node {
    s.(seqNo := SeqAfter(s.seqNo, k))
  }

  function RoundDests(s: Node, order: seq<NodeId>): seq<Addr>
    requires Lists(order, Live(s.shared))
  {
    AddSeeds(AddrsOf(s.shared, Take(order, s.cfg.gossipFanout)), s.cfg.seeds)
  }

  /** One ping to each destination in turn, under consecutive numbers. */
  ghost predicate Pings(s: Shared, q: U64, dests: seq<Addr>, sent: seq<Envelope>) {
    && |sent| == |dests|
    && (forall i :: 0 <= i < |sent| ==>
          sent[i].dst == dests[i] && IsSnapshot(s, SeqAfter(q, i + 1), Ping, sent[i].frame))
  }

  /** One dissemination round, `order` being the shuffled live peers: a ping with a fresh
      sequence number to each of the first few and to every seed not among them. */
  ghost predicate IsRound(s: Node, order: seq<NodeId>, sent: seq<Envelope>) {
    Lists(order, Live(s.shared)) && Pings(s.shared, s.seqNo, RoundDests(s, order), sent)
  }

  // ---------- the handlers ----------

  ghost predicate Reaps(s: Node, now: Time, order: seq<NodeId>, sent: seq<Envelope>, s': Node) {
    var t := s.(shared := Reap(s.shared, now));
    if AnyExpired(s.shared, now)
    then IsRound(t, order, sent) && s' == Drew(t, |sent|)
    else sent == [] && s' == t
  }

  ghost predicate Advances(s: Node, now: Time, order: seq<NodeId>, sent: seq<Envelope>, s': Node) {
    if s.probe.None? || s.probe.value.deadline > now then
      sent == [] && s' == s
    else
      var p := s.probe.value;
      match p.phase
      case Direct =>
        && Lists(order, Helpers(s.shared, p.targetAddr))
        && |sent| == |Take(order, s.cfg.indirectProbes)|
        && (forall i :: 0 <= i < |sent| ==>
              && sent[i].dst == s.shared.peers[order[i]].addr
              && IsSnapshot(s.shared, p.seqNo, PingReq(p.targetAddr), sent[i].frame))
        && s' == s.(probe := Some(p.(phase := Indirect, deadline := now + s.cfg.probeTimeout)))
      case Indirect =>
        var t := s.(probe := None, shared := MarkSuspect(s.shared, p.target, now, s.cfg.suspicionTimeout));
        IsRound(t, order, sent) && s' == Drew(t, |sent|)
  }

  ghost predicate Ascending(ids: seq<NodeId>) {
    forall i, j :: 0 <= i < j < |ids| ==> Less(ids[i], ids[j])
  }

  /** Probe the next live peer in identifier order, round-robin. */
  ghost predicate StartsProbe(s: Node, now: Time, sorted: seq<NodeId>, sent: seq<Envelope>, s': Node) {
    && Lists(sorted, Live(s.shared)) && Ascending(sorted)
    && if s.probe.Some? || sorted == [] then
         sent == [] && s' == s
       else
         var n := sorted[s.roundRobin % |sorted|];
         var q := SeqAfter(s.seqNo, 1);
         && |sent| == 1
         && sent[0].dst == s.shared.peers[n].addr
         && IsSnapshot(s.shared, q, Ping, sent[0].frame)
         && s' == Drew(s, 1).(
                  roundRobin := (s.roundRobin + 1) % SEQ_SPACE,
                  probe := Some(Probe(q, n, s.shared.peers[n].addr, Direct, now + s.cfg.probeTimeout)))
  }

  /** First half of handling a datagram: reconcile, and broadcast at once if we refuted. */
  ghost predicate Absorbs(s: Node, now: Time, f: Frame, order: seq<NodeId>, sent: seq<Envelope>, s': Node) {
    if f.version != PROTOCOL_VERSION then
      sent == [] && s' == s
    else
      var t := s.(shared := Reconcile(s.shared, f, now, s.cfg.suspicionTimeout), handling := Some(f));
      if RefutesAny(s.shared, f.updates, now, s.cfg.suspicionTimeout)
      then IsRound(t, order, sent) && s' == Drew(t, |sent|)
      else sent == [] && s' == t
  }

  predicate Completes(s: Node, f: Frame) {
    f.kind.Ack? && s.probe.Some? && s.probe.value.seqNo == f.seqNo
  }

  function AfterAck(s: Node, f: Frame): Node {
    if Completes(s, f)
    then s.(probe := None, shared := MarkAlive(s.shared, s.probe.value.target))
    else s
  }

  /** Second half: answer a ping, relay a ping request, or take an ack. */
  ghost predicate Dispatches(s: Node, now: Time, sent: seq<Envelope>, s': Node)
    requires s.handling.Some?
  {
    var f := s.handling.value;
    var t := s.(handling := None);
    match f.kind
    case Ping =>
      && |sent| == 1 && sent[0].dst == f.fromAddr
      && IsSnapshot(t.shared, f.seqNo, Ack, sent[0].frame)
      && s' == t
    case PingReq(target) =>
      && |sent| == 1 && sent[0].dst == target
      && IsSnapshot(t.shared, f.seqNo, Ping, sent[0].frame)
      && s' == t.(relays := t.relays[f.seqNo := Relay(f.fromAddr, target, now + t.cfg.probeTimeout * 2)])
    case Ack =>
      var u := AfterAck(t, f);
      && s' == u.(relays := u.relays - {f.seqNo})
      && if f.seqNo in u.relays && u.relays[f.seqNo].target == f.fromAddr
         then && |sent| == 1 && sent[0].dst == u.relays[f.seqNo].origin
              && IsSnapshot(u.shared, f.seqNo, Ack, sent[0].frame)
         else sent == []
  }

  function ExpireRelays(s: Node, now: Time): Node {
    s.(relays := map q | q in s.relays && s.relays[q].expire > now :: s.relays[q])
  }

  function IncrOwn(s: Shared, amount: nat): Shared {
    s.(counter := GCounter.Incr(s.counter, s.me, amount))
  }

  // ---------- the sorted view ----------

  /** The first identifier in sorted order. */
  ghost predicate IsLeast(n: NodeId, ids: set<NodeId>) {
    n in ids && forall m :: m in ids && m != n ==> Less(n, m)
  }

  method PickLeast(ids: set<NodeId>) returns (least: NodeId)
    requires ids != {}
    ensures IsLeast(least, ids)
  {
    least :| least in ids;
    var rest := ids - {least};
    while rest != {}
      invariant least in ids && rest <= ids && least !in rest
      invariant forall m :: m in ids && m !in rest && m != least ==> Less(least, m)
      decreases |rest|
    {
      var m :| m in rest;
      rest := rest - {m};
      LessTotal(least, m);
      if Less(m, least) {
        forall x | x in ids && x !in rest && x != m
          ensures Less(m, x)
        {
          if x != least {
            LessTransitive(m, least, x);
          }
        }
        least := m;
      }
    }
  }
}
