/** The parsers of the checksum forwarder, which fill one shared record step by step, and
    the header lengths it leaves in the packet buffer. */
module ChecksumOffsets {
  import opened TunnelHeaders

  const ETHER_VXLAN_HLEN: nat := 16

  /** The record as a value, without what the parsers never touch. */
  datatype Info = Info(ethertype: nat, l2Len: nat, l3Len: nat, l4Len: nat, l4Proto: nat, isTunnel: bool,
                       outerEthertype: nat, outerL2Len: nat, outerL3Len: nat, outerL4Proto: nat)

  /** The inner half of the record describes header h, found l2Len bytes behind start. */
  predicate Describes(i: Info, h: Layer3, start: nat)
  {
    && start + i.l2Len == h.at && i.ethertype == h.ethertype
    && i.l3Len == h.len && i.l4Proto == h.proto && i.l4Len == h.l4Len
  }

  /** The outer half describes h, except for the protocol. */
  predicate DescribesOuter(i: Info, h: Layer3)
  {
    i.outerL2Len == h.at && i.outerEthertype == h.ethertype && i.outerL3Len == h.len
  }

  /** The whole record after the dissection of packet p; before is what the packet before left. */
  predicate Dissected(i: Info, p: Packet, parseTunnel: bool, rxTunnel: bool, before: Info)
  {
    var outer := Outer(p);
    if parseTunnel && Inner(p, rxTunnel).Some? then
      && i.isTunnel && Describes(i, Inner(p, rxTunnel).value, outer.at + outer.len) && DescribesOuter(i, outer)
      && i.outerL4Proto == (if outer.proto == IPPROTO_IPIP then before.outerL4Proto else outer.proto)
    else
      !i.isTunnel && Describes(i, outer, 0)
  }

  // ---------- the lengths in the packet buffer ----------

  /** The bit fields: 7 bits for layer 2, 9 for layer 3, 8 for layer 4. */
  datatype Meta = Meta(l2: nat, l3: nat, l4: nat, outerL2: nat, outerL3: nat)

  /** was holds what the buffer had before. */
  function Fill(i: Info, outerCksum: bool, was: Meta): Meta
  {
    if i.isTunnel && outerCksum then
      Meta(i.l2Len % 128, i.l3Len % 512, i.l4Len % 256, i.outerL2Len % 128, i.outerL3Len % 512)
    else if i.isTunnel then
      was.(l2 := (i.outerL2Len + i.outerL3Len + i.l2Len) % 128, l3 := i.l3Len % 512, l4 := i.l4Len % 256)
    else
      was.(l2 := i.l2Len % 128, l3 := i.l3Len % 512, l4 := i.l4Len % 256)
  }

  /** Lengths this small lose nothing in the bit fields. */
  lemma FillExact(i: Info, outerCksum: bool, was: Meta)
    requires i.l3Len <= 60 && i.l4Len <= 60 && i.l2Len < 128
    requires i.isTunnel ==> i.outerL3Len <= 60 && i.outerL2Len + i.outerL3Len + i.l2Len < 128
    ensures var m := Fill(i, outerCksum, was);
            && m.l3 == i.l3Len && m.l4 == i.l4Len
            && m.l2 == i.l2Len + (if i.isTunnel && !outerCksum then i.outerL2Len + i.outerL3Len else 0)
            && (i.isTunnel && outerCksum ==> m.outerL2 == i.outerL2Len && m.outerL3 == i.outerL3Len)
  {
  }

  /** The header that the checksums are computed on. */
  function Target(p: Packet, parseTunnel: bool, rxTunnel: bool): Layer3
  {
    if parseTunnel && Inner(p, rxTunnel).Some? then Inner(p, rxTunnel).value else Outer(p)
  }

  lemma TargetSmall(p: Packet, parseTunnel: bool, rxTunnel: bool)
    ensures var h := Target(p, parseTunnel, rxTunnel); h.at <= 112 && h.len <= 60 && h.l4Len <= 60
  {
    EthernetSmall(p, 0);
    if Inner(p, rxTunnel).Some? {
      InnerSmall(p, rxTunnel);
    }
  }

  /** The lengths lead to the headers: in the split form through the outer ones to the inner
      layers, in the merged and the plain form straight to the target. */
  predicate LeadsTo(m: Meta, split: bool, outer: Layer3, target: Layer3)
  {
    && m.l3 == target.len && m.l4 == target.l4Len
    && (if split
        then m.outerL2 == outer.at && m.outerL3 == outer.len && m.outerL2 + m.outerL3 + m.l2 == target.at
        else m.l2 == target.at)
  }

  /** For every packet and every setting the lengths left in the buffer lead to the inner
      layers: no bit field is too narrow, and what the packet before left does not matter. */
  lemma LengthsLeadToInner(i: Info, p: Packet, parseTunnel: bool, rxTunnel: bool, before: Info, outerCksum: bool, was: Meta)
    requires Dissected(i, p, parseTunnel, rxTunnel, before)
    ensures LeadsTo(Fill(i, outerCksum, was), i.isTunnel && outerCksum, Outer(p), Target(p, parseTunnel, rxTunnel))
  {
    TargetSmall(p, parseTunnel, rxTunnel);
    if i.isTunnel {
      InnerSmall(p, rxTunnel);
    }
    FillExact(i, outerCksum, was);
  }

  /** Whatever two packets came before, the record of a packet differs at most in what it
      keeps of the tunnel fields. */
  lemma HistoryForgotten(i: Info, j: Info, p: Packet, parseTunnel: bool, rxTunnel: bool, before: Info, other: Info)
    requires Dissected(i, p, parseTunnel, rxTunnel, before) && Dissected(j, p, parseTunnel, rxTunnel, other)
    ensures i.isTunnel == j.isTunnel && i.l2Len == j.l2Len && i.l3Len == j.l3Len && i.l4Len == j.l4Len
    ensures i.isTunnel ==> i.outerL2Len == j.outerL2Len && i.outerL3Len == j.outerL3Len
    ensures i.isTunnel ==> (i.outerL4Proto == j.outerL4Proto
                            <==> Outer(p).proto != IPPROTO_IPIP || before.outerL4Proto == other.outerL4Proto)
  {
  }

  /** What the record says of the packet: the protocols of the header to checksum and, for a
      tunnel, those of the outer header, whose protocol IP-in-IP does not record. */
  lemma RecordIs(i: Info, p: Packet, parseTunnel: bool, rxTunnel: bool, before: Info)
    requires Dissected(i, p, parseTunnel, rxTunnel, before)
    ensures var outer, target := Outer(p), Target(p, parseTunnel, rxTunnel);
            && (i.isTunnel <==> parseTunnel && Inner(p, rxTunnel) != None)
            && i.ethertype == target.ethertype && i.l4Proto == target.proto
            && i.l3Len == target.len && i.l4Len == target.l4Len
            && (i.isTunnel ==>
                  && i.outerEthertype == outer.ethertype && i.outerL2Len == outer.at && i.outerL3Len == outer.len
                  && outer.at + outer.len + i.l2Len == target.at
                  && i.outerL4Proto == (if outer.proto == 4 then before.outerL4Proto else outer.proto))
            && (!i.isTunnel ==> i.l2Len == outer.at)
  {
  }

  // ---------- the parsers ----------

  class OffloadInfo {
    var ethertype: nat
    var l2Len: nat
    var l3Len: nat
    var l4Len: nat
    var l4Proto: nat
    var isTunnel: bool
    var outerEthertype: nat
    var outerL2Len: nat
    var outerL3Len: nat
    var outerL4Proto: nat

    ghost function View(): Info
      reads this
    {
      Info(ethertype, l2Len, l3Len, l4Len, l4Proto, isTunnel, outerEthertype, outerL2Len, outerL3Len, outerL4Proto)
    }

    constructor ()
      ensures View() == Info(0, 0, 0, 0, 0, false, 0, 0, 0, 0)
    {
      ethertype, l2Len, l3Len, l4Len, l4Proto, isTunnel := 0, 0, 0, 0, 0, false;
      outerEthertype, outerL2Len, outerL3Len, outerL4Proto := 0, 0, 0, 0;
    }

    method ParseIpv4(p: Packet, at: nat)
      requires at + 73 <= HEADERS_END
      modifies `l3Len, `l4Len, `l4Proto
      ensures var h := Ipv4At(p, at); l3Len == h.len && l4Proto == h.proto && l4Len == h.l4Len
    {
      l3Len := p[at] % 16 * 4;
      l4Proto := p[at + 9];
      if l4Proto == IPPROTO_TCP {
        l4Len := p[at + l3Len + 12] / 16 * 4;
      } else {
        l4Len := 0;
      }
    }

    method ParseIpv6(p: Packet, at: nat)
      requires at + 73 <= HEADERS_END
      modifies `l3Len, `l4Len, `l4Proto
      ensures var h := Ipv6At(p, at); l3Len == h.len && l4Proto == h.proto && l4Len == h.l4Len
    {
      l3Len := 40;
      l4Proto := p[at + 6];
      if l4Proto == IPPROTO_TCP {
        l4Len := p[at + l3Len + 12] / 16 * 4;
      } else {
        l4Len := 0;
      }
    }

    method ParseEthernet(p: Packet, at: nat)
      requires at + 18 + 73 <= HEADERS_END
      modifies `ethertype, `l2Len, `l3Len, `l4Len, `l4Proto
      ensures Describes(View(), BehindEthernet(p, at), at)
    {
      l2Len := 14;
      ethertype := U16(p, at + 12);
      if ethertype == ETHER_TYPE_VLAN {
        l2Len := l2Len + 4;
        ethertype := U16(p, at + 16);
      }
      if ethertype == ETHER_TYPE_IPv4 {
        ParseIpv4(p, at + l2Len);
      } else if ethertype == ETHER_TYPE_IPv6 {
        ParseIpv6(p, at + l2Len);
      } else {
        l4Len, l3Len, l4Proto := 0, 0, 0;
      }
    }

    /** The inner fields become the outer ones. */
    method MoveOut()
      modifies `isTunnel, `outerEthertype, `outerL2Len, `outerL3Len, `outerL4Proto
      ensures isTunnel && outerEthertype == ethertype && outerL2Len == l2Len && outerL3Len == l3Len && outerL4Proto == l4Proto
    {
      isTunnel := true;
      outerEthertype, outerL2Len, outerL3Len, outerL4Proto := ethertype, l2Len, l3Len, l4Proto;
    }

    /** What all three tunnel parsers promise, for the header they may find. */
    twostate predicate TunnelParsed(found: Option<Layer3>, start: nat, proto: nat)
      reads this
    {
      if found.None? then View() == old(View())
      else
        && isTunnel && Describes(View(), found.value, start) && outerEthertype == old(ethertype)
        && outerL2Len == old(l2Len) && outerL3Len == old(l3Len) && outerL4Proto == proto
    }

    method ParseVxlan(p: Packet, udp: nat, rxTunnel: bool)
      requires udp <= 78
      modifies this
      ensures TunnelParsed(BehindUdp(p, udp, rxTunnel), udp, old(l4Proto))
    {
      if U16(p, udp + 2) != VXLAN_PORT && !rxTunnel {
        return;
      }
      MoveOut();
      ParseEthernet(p, udp + 8 + 8);
      l2Len := l2Len + ETHER_VXLAN_HLEN;
    }

    method ParseGre(p: Packet, gre: nat)
      requires gre <= 78
      modifies this
      ensures TunnelParsed(BehindGre(p, gre), gre, old(l4Proto))
    {
      var flags := U16(p, gre);
      if flags != 0 && flags != GRE_KEY_PRESENT {
        return;
      }
      var greLen := 4;
      if flags == GRE_KEY_PRESENT {
        greLen := greLen + 4;
      }
      var proto := U16(p, gre + 2);
      if proto == ETHER_TYPE_IPv4 {
        MoveOut();
        ParseIpv4(p, gre + greLen);
        ethertype := ETHER_TYPE_IPv4;
        l2Len := 0;
      } else if proto == ETHER_TYPE_IPv6 {
        MoveOut();
        ethertype := ETHER_TYPE_IPv6;
        ParseIpv6(p, gre + greLen);
        l2Len := 0;
      } else if proto == ETHER_TYPE_TEB {
        MoveOut();
        ParseEthernet(p, gre + greLen);
      } else {
        return;
      }
      l2Len := l2Len + greLen;
    }

    /** Unlike the other two, leaves the outer protocol as it was. */
    method ParseEncapIp(p: Packet, at: nat)
      requires at <= 78
      modifies this
      ensures TunnelParsed(BehindIp(p, at), at, old(outerL4Proto))
    {
      var version := p[at] / 16;
      if version != 4 && version != 6 {
        return;
      }
      isTunnel := true;
      outerEthertype, outerL2Len, outerL3Len := ethertype, l2Len, l3Len;
      if version == 4 {
        ParseIpv4(p, at);
        ethertype := ETHER_TYPE_IPv4;
      } else {
        ParseIpv6(p, at);
        ethertype := ETHER_TYPE_IPv6;
      }
      l2Len := 0;
    }

    /** Step 1 for one packet: the record, and the layer-3 pointers computed from it, which
        are where the headers were in fact parsed. */
    method Dissect(p: Packet, parseTunnel: bool, rxTunnel: bool) returns (l3: nat, outerL3: nat)
      modifies this
      ensures Dissected(View(), p, parseTunnel, rxTunnel, old(View()))
      ensures l3 == Target(p, parseTunnel, rxTunnel).at
      ensures isTunnel ==> outerL3 == Outer(p).at
    {
      isTunnel := false;
      outerL3 := 0;
      ParseEthernet(p, 0);
      l3 := l2Len;
      EthernetSmall(p, 0);
      if parseTunnel {
        if l4Proto == IPPROTO_UDP {
          ParseVxlan(p, l3 + l3Len, rxTunnel);
        } else if l4Proto == IPPROTO_GRE {
          ParseGre(p, l3 + l3Len);
        } else if l4Proto == IPPROTO_IPIP {
          ParseEncapIp(p, l3 + l3Len);
        }
      }
      if isTunnel {
        outerL3 := l3;
        l3 := l3 + outerL3Len + l2Len;
      }
    }
  }

  /** Step 4: the lengths in the buffer lead to the headers of the packet dissected last. */
  method FillMeta(info: OffloadInfo, outerCksum: bool, was: Meta, ghost p: Packet, ghost parseTunnel: bool,
                  ghost rxTunnel: bool, ghost before: Info) returns (m: Meta)
    requires Dissected(info.View(), p, parseTunnel, rxTunnel, before)
    ensures LeadsTo(m, info.isTunnel && outerCksum, Outer(p), Target(p, parseTunnel, rxTunnel))
    ensures !(info.isTunnel && outerCksum) ==> m.outerL2 == was.outerL2 && m.outerL3 == was.outerL3
  {
    m := was;
    if info.isTunnel {
      if outerCksum {
        m := m.(outerL2 := info.outerL2Len % 128, outerL3 := info.outerL3Len % 512);
        m := m.(l2 := info.l2Len % 128, l3 := info.l3Len % 512, l4 := info.l4Len % 256);
      } else {
        m := m.(l2 := (info.outerL2Len + info.outerL3Len + info.l2Len) % 128);
        m := m.(l3 := info.l3Len % 512, l4 := info.l4Len % 256);
      }
    } else {
      m := m.(l2 := info.l2Len % 128, l3 := info.l3Len % 512, l4 := info.l4Len % 256);
    }
    LengthsLeadToInner(info.View(), p, parseTunnel, rxTunnel, before, outerCksum, was);
  }

  /** Steps 1 and 4 for one packet, whatever record the packet before left: the layer-3
      pointer and the lengths agree on where the header to checksum is. */
  method ProcessPacket(info: OffloadInfo, p: Packet, parseTunnel: bool, rxTunnel: bool, outerCksum: bool, was: Meta)
    returns (l3: nat, m: Meta)
    modifies info
    ensures var target, split := Target(p, parseTunnel, rxTunnel), info.isTunnel && outerCksum;
            && info.isTunnel == (parseTunnel && Inner(p, rxTunnel).Some?)
            && l3 == target.at && LeadsTo(m, split, Outer(p), target)
            && l3 == m.l2 + (if split then m.outerL2 + m.outerL3 else 0)
  {
    ghost var before := info.View();
    var outerL3;
    l3, outerL3 := info.Dissect(p, parseTunnel, rxTunnel);
    m := FillMeta(info, outerCksum, was, p, parseTunnel, rxTunnel, before);
  }
}
