/** What an access list means: first match wins, and what nothing matches is denied. */
module AccessList {
  import opened Basics
  import opened Addresses
  import opened Config

  /** `srcPort`, `dstPort` and `icmpType` only matter for protocols that carry them. */
  datatype Packet = Packet(protocol: nat, src: Addr, dst: Addr, srcPort: nat, dstPort: nat, icmpType: nat)

  const TCP := 6
  const UDP := 17
  const ICMP := 1
  const ICMP6 := 58

  predicate EndpointMatches(e: Endpoint, a: Addr) {
    e.Any? || e.prefix.Contains(a)
  }

  /** A port qualifier selects only packets that have ports. */
  predicate PortsMatch(ports: Ports, protocol: nat, port: nat) {
    match ports
    case NoPorts => true
    case One(n) => protocol in {TCP, UDP} && port == n
    case Range(lo, hi) => protocol in {TCP, UDP} && lo <= port <= hi
  }

  predicate ProtocolMatches(p: Protocol, protocol: nat) {
    match p
    case Ip => true
    case Tcp => protocol == TCP
    case Udp => protocol == UDP
    case Icmp => protocol == ICMP
    case Icmp6 => protocol == ICMP6
    case Number(word) => Atoi(word) == Some(protocol)
  }

  predicate Matches(e: Ace, p: Packet) {
    && ProtocolMatches(e.protocol, p.protocol)
    && EndpointMatches(e.src, p.src) && EndpointMatches(e.dst, p.dst)
    && PortsMatch(e.srcPorts, p.protocol, p.srcPort) && PortsMatch(e.dstPorts, p.protocol, p.dstPort)
    && (e.icmpType.Some? ==> p.icmpType == e.icmpType.value)
  }

  /** The position of the first entry that matches, or the length of the list. */
  function FirstMatch(entries: seq<Ace>, p: Packet): (k: nat)
    ensures k <= |entries|
    ensures k < |entries| ==> Matches(entries[k], p)
    ensures forall j :: 0 <= j < k ==> !Matches(entries[j], p)
  {
    if entries == [] || Matches(entries[0], p) then 0 else 1 + FirstMatch(entries[1..], p)
  }

  /** Whether the list lets the packet through. */
  predicate Permits(entries: seq<Ace>, p: Packet) {
    var k := FirstMatch(entries, p);
    k < |entries| && entries[k].permit
  }
}
