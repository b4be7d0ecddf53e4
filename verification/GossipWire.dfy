/** The gossip datagrams: what one node tells another about every member it knows. */
module GossipWire {

  type NodeId = string
  type Addr = nat
  type Time = nat

  const PROTOCOL_VERSION: nat := 1

  datatype MemberState = Alive | Suspect | Dead

  /** Stronger evidence of failure outranks weaker at equal incarnation. */
  function Rank(state: MemberState): nat {
    match state
    case Alive => 0
    case Suspect => 1
    case Dead => 2
  }

  datatype MemberUpdate = MemberUpdate(node: NodeId, addr: Addr, incarnation: nat, state: MemberState)

  datatype Kind = Ping | Ack | PingReq(target: Addr)

  datatype Frame = Frame(
    version: nat,
    from: NodeId,
    fromAddr: Addr,
    seqNo: nat,
    kind: Kind,
    updates: seq<MemberUpdate>,
    counter: map<NodeId, nat>)

  /** A frame together with the address it was sent to. */
  datatype Envelope = Envelope(dst: Addr, frame: Frame)
}
