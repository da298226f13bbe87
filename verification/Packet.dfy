/** Parsed packet fields shared by the classifier components. */
module Packet {
  import opened Machine

  /** The largest batch that the bulk calls on the flow table, the member set and the rule table look at. */
  const BULK_MAX: nat := 64

  datatype Protocol = Tcp | Udp
  datatype Action = Forward | Drop
  datatype IpVersion = Ipv4 | Ipv6

  /** A 16-byte address buffer. */
  type Address = a: Bytes | |a| == 16 witness [0, 0, 0, 0, 0, 0, 0, 0, 0, 0, 0, 0, 0, 0, 0, 0]

  /** The parsed fields the reassembler and the matchers read. 32-bit addresses and ports are
      the raw network-order words of the packet, exactly as the parser stores them. */
  datatype Metadata = Metadata(
    sourceIp: U32,
    destinationIp: U32,
    sourceIp6: Address,
    destinationIp6: Address,
    sourcePort: U16,
    destinationPort: U16,
    tcpSequence: U32,
    tcpFlags: Byte,
    protocol: Protocol,
    version: IpVersion)

  /** The same connection seen from the other side. */
  function Reversed(m: Metadata): Metadata {
    m.(sourceIp := m.destinationIp, destinationIp := m.sourceIp,
    sourceIp6 := m.destinationIp6, destinationIp6 := m.sourceIp6,
    sourcePort := m.destinationPort, destinationPort := m.sourcePort)
  }
}
