/** Where the headers of a packet lie, read off the packet by absolute offsets: plain, VXLAN,
    GRE and IP-in-IP. The reference for the checksum forwarder's parsers. */
module TunnelHeaders {

  const ETHER_TYPE_IPv4: nat := 0x0800
  const ETHER_TYPE_IPv6: nat := 0x86DD
  const ETHER_TYPE_VLAN: nat := 0x8100
  const ETHER_TYPE_TEB: nat := 0x6558

  const IPPROTO_IPIP: nat := 4
  const IPPROTO_TCP: nat := 6
  const IPPROTO_UDP: nat := 17
  const IPPROTO_GRE: nat := 47

  const GRE_KEY_PRESENT: nat := 0x2000
  const VXLAN_PORT: nat := 4789

  /** No header byte beyond this one is ever looked at. */
  const HEADERS_END: nat := 185

  type Byte = b: nat | b < 256

  /** The data room of a packet buffer. */
  type Packet = p: seq<Byte> | |p| >= HEADERS_END witness seq(HEADERS_END, _ => 0)

  function U16(p: Packet, at: nat): nat
    requires at + 1 < HEADERS_END
  {
    p[at] as nat * 256 + p[at + 1]
  }

  /** A layer-3 header: its offset, ethertype, length, protocol, and the length of the layer above. */
  datatype Layer3 = Layer3(at: nat, ethertype: nat, len: nat, proto: nat, l4Len: nat)

  function TcpLength(p: Packet, at: nat): nat
    requires at + 12 < HEADERS_END
  {
    p[at + 12] / 16 * 4
  }

  function Ipv4At(p: Packet, at: nat): Layer3
    requires at + 73 <= HEADERS_END
  {
    var len := p[at] % 16 * 4;
    var proto := p[at + 9];
    Layer3(at, ETHER_TYPE_IPv4, len, proto, if proto == IPPROTO_TCP then TcpLength(p, at + len) else 0)
  }

  function Ipv6At(p: Packet, at: nat): Layer3
    requires at + 73 <= HEADERS_END
  {
    var proto := p[at + 6];
    Layer3(at, ETHER_TYPE_IPv6, 40, proto, if proto == IPPROTO_TCP then TcpLength(p, at + 40) else 0)
  }

  /** The layer-3 header behind an Ethernet header with at most one VLAN tag. */
  function BehindEthernet(p: Packet, at: nat): Layer3
    requires at + 18 + 73 <= HEADERS_END
  {
    var tagged := U16(p, at + 12) == ETHER_TYPE_VLAN;
    var start := if tagged then at + 18 else at + 14;
    var ethertype := U16(p, start - 2);
    if ethertype == ETHER_TYPE_IPv4 then Ipv4At(p, start)
    else if ethertype == ETHER_TYPE_IPv6 then Ipv6At(p, start)
    else Layer3(start, ethertype, 0, 0, 0)
  }

  function Outer(p: Packet): Layer3 { BehindEthernet(p, 0) }

  datatype Option<T> = None | Some(value: T)

  lemma LengthsSmall(p: Packet, at: nat)
    requires at + 73 <= HEADERS_END
    ensures Ipv4At(p, at).len <= 60 && Ipv4At(p, at).l4Len <= 60 && Ipv6At(p, at).l4Len <= 60
  {
  }

  lemma EthernetSmall(p: Packet, at: nat)
    requires at + 18 + 73 <= HEADERS_END
    ensures var h := BehindEthernet(p, at); at + 14 <= h.at <= at + 18 && h.len <= 60 && h.l4Len <= 60 && h.proto < 256
  {
  }

  /** The length of a GRE header, if its flags are supported. */
  function GreLength(flags: nat): Option<nat>
  {
    if flags == 0 then Some(4) else if flags == GRE_KEY_PRESENT then Some(8) else None
  }

  function BehindUdp(p: Packet, at: nat, rxTunnel: bool): Option<Layer3>
    requires at <= 78
  {
    if U16(p, at + 2) == VXLAN_PORT || rxTunnel then Some(BehindEthernet(p, at + 8 + 8)) else None
  }

  function BehindGre(p: Packet, at: nat): Option<Layer3>
    requires at <= 78
  {
    match GreLength(U16(p, at))
    case None => None
    case Some(n) =>
      var proto := U16(p, at + 2);
      if proto == ETHER_TYPE_IPv4 then Some(Ipv4At(p, at + n))
      else if proto == ETHER_TYPE_IPv6 then Some(Ipv6At(p, at + n))
      else if proto == ETHER_TYPE_TEB then Some(BehindEthernet(p, at + n))
      else None
  }

  function BehindIp(p: Packet, at: nat): Option<Layer3>
    requires at <= 78
  {
    if p[at] / 16 == 4 then Some(Ipv4At(p, at))
    else if p[at] / 16 == 6 then Some(Ipv6At(p, at))
    else None
  }

  /** The header inside the tunnel, if the packet is one that is recognised. */
  function Inner(p: Packet, rxTunnel: bool): Option<Layer3>
  {
    var outer := Outer(p);
    EthernetSmall(p, 0);
    var l4 := outer.at + outer.len;
    if outer.proto == IPPROTO_UDP then BehindUdp(p, l4, rxTunnel)
    else if outer.proto == IPPROTO_GRE then BehindGre(p, l4)
    else if outer.proto == IPPROTO_IPIP then BehindIp(p, l4)
    else None
  }

  lemma InnerSmall(p: Packet, rxTunnel: bool)
    requires Inner(p, rxTunnel).Some?
    ensures var outer, inner := Outer(p), Inner(p, rxTunnel).value;
            && outer.at <= 18 && outer.len <= 60 && inner.len <= 60 && inner.l4Len <= 60
            && outer.at + outer.len <= inner.at <= 112
  {
    EthernetSmall(p, 0);
    var l4 := Outer(p).at + Outer(p).len;
    if Outer(p).proto == IPPROTO_UDP {
      EthernetSmall(p, l4 + 16);
    } else if Outer(p).proto == IPPROTO_GRE {
      var n := GreLength(U16(p, l4)).value;
      LengthsSmall(p, l4 + n);
      EthernetSmall(p, l4 + n);
    } else {
      LengthsSmall(p, l4);
    }
  }
}
