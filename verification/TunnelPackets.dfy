/** Packets written header by header, and what the parsers' reference finds in them: for
    every packet of each tunnel kind, the headers it was built from. */
module TunnelPackets {
  import opened TunnelHeaders

  function BigEndian(x: nat): (r: seq<Byte>)
    requires x < 0x1_0000
    ensures |r| == 2
  {
    [x / 256, x % 256]
  }

  /** The Ethernet addresses, and a VLAN tag if there is one. */
  datatype Link = Link(addresses: seq<Byte>, tag: Option<seq<Byte>>) {
    predicate Valid() { |addresses| == 12 && (tag.Some? ==> |tag.value| == 2) }

    function Length(): nat { if tag.Some? then 18 else 14 }

    function Bytes(ethertype: nat): (r: seq<Byte>)
      requires Valid() && ethertype < 0x1_0000
      ensures |r| == Length()
    {
      addresses + (if tag.Some? then [0x81, 0x00] + tag.value else []) + BigEndian(ethertype)
    }
  }

  /** An IPv4 header of so many 32-bit words, an IPv6 header, or nothing that is looked into. */
  datatype Net =
    | V4(words: nat, mid: seq<Byte>, proto: Byte, tail: seq<Byte>)
    | V6(low: nat, mid: seq<Byte>, proto: Byte, tail: seq<Byte>)
    | Other(ethertype: nat)
  {
    predicate Valid() {
      match this
      case V4(words, mid, _, tail) => 5 <= words < 16 && |mid| == 8 && |tail| == 4 * words - 10
      case V6(low, mid, _, tail) => low < 16 && |mid| == 5 && |tail| == 33
      case Other(ethertype) => ethertype < 0x1_0000 && ethertype !in {0x0800, 0x86DD, 0x8100}
    }

    function Ethertype(): nat {
      match this
      case V4(_, _, _, _) => 0x0800
      case V6(_, _, _, _) => 0x86DD
      case Other(ethertype) => ethertype
    }

    function Carries(): nat { if Other? then 0 else proto }

    function Length(): nat {
      match this
      case V4(words, _, _, _) => 4 * words
      case V6(_, _, _, _) => 40
      case Other(_) => 0
    }

    function Bytes(): (r: seq<Byte>)
      requires Valid()
      ensures |r| == Length() <= 60
    {
      match this
      case V4(words, mid, proto, tail) => [4 * 16 + words] + mid + [proto] + tail
      case V6(low, mid, proto, tail) => [6 * 16 + low] + mid + [proto] + tail
      case Other(_) => []
    }
  }

  /** What follows a layer-3 header: a TCP header with its length in words, or anything else. */
  datatype Payload = Tcp(front: seq<Byte>, words: nat, low: nat, rest: seq<Byte>) | Raw(rest: seq<Byte>) {
    predicate Valid() { Tcp? ==> |front| == 12 && words < 16 && low < 16 }

    function Bytes(): seq<Byte>
      requires Valid()
    {
      if Tcp? then front + [words * 16 + low] + rest else rest
    }

    function HeaderLength(): nat { if Tcp? then 4 * words else 0 }
  }

  /** What a parser should find of a header that starts at offset at. */
  function Found(at: nat, n: Net, payload: Payload): Layer3
  {
    Layer3(at, n.Ethertype(), n.Length(), n.Carries(), payload.HeaderLength())
  }

  /** The payload is of the kind that the header announces. */
  predicate Fits(n: Net, payload: Payload)
  {
    n.Valid() && payload.Valid() && (payload.Tcp? <==> n.Carries() == 6)
  }

  // ---------- one header at its place ----------

  predicate At(p: Packet, at: nat, bytes: seq<Byte>)
  {
    at + |bytes| <= |p| && p[at..at + |bytes|] == bytes
  }

  lemma AtIs(p: Packet, at: nat, bytes: seq<Byte>, k: nat)
    requires At(p, at, bytes) && k < |bytes|
    ensures p[at + k] == bytes[k]
  {
    assert p[at..at + |bytes|][k] == bytes[k];
  }

  lemma PartOf(p: Packet, at: nat, a: seq<Byte>, b: seq<Byte>)
    requires At(p, at, a + b)
    ensures At(p, at, a) && At(p, at + |a|, b)
  {
    var r := p[at..at + |a + b|];
    assert p[at..at + |a|] == r[..|a|] == a;
    assert p[at + |a|..at + |a| + |b|] == r[|a|..] == b;
  }

  lemma PartsOf(p: Packet, at: nat, a: seq<Byte>, b: seq<Byte>, c: seq<Byte>)
    requires At(p, at, a + (b + c))
    ensures At(p, at, a) && At(p, at + |a|, b) && At(p, at + |a| + |b|, c)
  {
    PartOf(p, at, a, b + c);
    PartOf(p, at + |a|, b, c);
  }

  lemma TcpFound(p: Packet, at: nat, payload: Payload)
    requires payload.Valid() && payload.Tcp? && At(p, at, payload.Bytes()) && at + 12 < HEADERS_END
    ensures TcpLength(p, at) == payload.HeaderLength()
  {
    AtIs(p, at, payload.Bytes(), 12);
  }

  lemma Net4Found(p: Packet, at: nat, n: Net, payload: Payload)
    requires n.V4? && Fits(n, payload) && at + 73 <= HEADERS_END
    requires At(p, at, n.Bytes()) && At(p, at + n.Length(), payload.Bytes())
    ensures p[at] / 16 == 4 && Ipv4At(p, at) == Found(at, n, payload)
  {
    AtIs(p, at, n.Bytes(), 0);
    AtIs(p, at, n.Bytes(), 9);
    if payload.Tcp? {
      TcpFound(p, at + n.Length(), payload);
    }
  }

  lemma Net6Found(p: Packet, at: nat, n: Net, payload: Payload)
    requires n.V6? && Fits(n, payload) && at + 73 <= HEADERS_END
    requires At(p, at, n.Bytes()) && At(p, at + n.Length(), payload.Bytes())
    ensures p[at] / 16 == 6 && Ipv6At(p, at) == Found(at, n, payload)
  {
    AtIs(p, at, n.Bytes(), 0);
    AtIs(p, at, n.Bytes(), 6);
    if payload.Tcp? {
      TcpFound(p, at + n.Length(), payload);
    }
  }

  lemma U16Is(p: Packet, at: nat, x: nat)
    requires x < 0x1_0000 && At(p, at, BigEndian(x)) && at + 1 < HEADERS_END
    ensures U16(p, at) == x
  {
    AtIs(p, at, BigEndian(x), 0);
    AtIs(p, at, BigEndian(x), 1);
  }

  /** The ethertype is the last thing in the link header, and behind the tag if there is one. */
  lemma LinkFound(p: Packet, at: nat, l: Link, ethertype: nat)
    requires l.Valid() && ethertype < 0x1_0000 && ethertype != 0x8100 && at + 18 < HEADERS_END
    requires At(p, at, l.Bytes(ethertype))
    ensures U16(p, at + l.Length() - 2) == ethertype
    ensures U16(p, at + 12) == 0x8100 <==> l.tag.Some?
  {
    var tag := if l.tag.Some? then [0x81 as Byte, 0x00] + l.tag.value else [];
    PartOf(p, at, l.addresses + tag, BigEndian(ethertype));
    U16Is(p, at + l.Length() - 2, ethertype);
    if l.tag.Some? {
      PartOf(p, at, l.addresses, tag);
      AtIs(p, at + 12, tag, 0);
      AtIs(p, at + 12, tag, 1);
    }
  }

  lemma FrameFound(p: Packet, at: nat, l: Link, n: Net, payload: Payload)
    requires l.Valid() && Fits(n, payload) && at + 18 + 73 <= HEADERS_END
    requires var net := at + l.Length();
             At(p, at, l.Bytes(n.Ethertype())) && At(p, net, n.Bytes()) && At(p, net + n.Length(), payload.Bytes())
    ensures BehindEthernet(p, at) == Found(at + l.Length(), n, payload)
  {
    var net := at + l.Length();
    LinkFound(p, at, l, n.Ethertype());
    if n.V4? {
      Net4Found(p, net, n, payload);
    } else if n.V6? {
      Net6Found(p, net, n, payload);
    }
  }

  // ---------- whole packets ----------

  function Frame(l: Link, n: Net, body: seq<Byte>): seq<Byte>
    requires l.Valid() && n.Valid()
  {
    l.Bytes(n.Ethertype()) + (n.Bytes() + body)
  }

  /** Where the layer-3 body of a frame begins. */
  function BodyOf(l: Link, n: Net): (at: nat)
    requires n.Valid()
    ensures at <= 78
  {
    l.Length() + n.Length()
  }

  lemma FrameParts(p: Packet, at: nat, l: Link, n: Net, body: seq<Byte>)
    requires l.Valid() && n.Valid() && At(p, at, Frame(l, n, body))
    ensures var net := at + l.Length();
            At(p, at, l.Bytes(n.Ethertype())) && At(p, net, n.Bytes()) && At(p, net + n.Length(), body)
  {
    PartsOf(p, at, l.Bytes(n.Ethertype()), n.Bytes(), body);
  }

  lemma FramedFound(p: Packet, at: nat, l: Link, n: Net, payload: Payload)
    requires l.Valid() && Fits(n, payload) && at + 18 + 73 <= HEADERS_END
    requires At(p, at, Frame(l, n, payload.Bytes()))
    ensures BehindEthernet(p, at) == Found(at + l.Length(), n, payload)
  {
    FrameParts(p, at, l, n, payload.Bytes());
    FrameFound(p, at, l, n, payload);
  }

  lemma Whole(p: Packet)
    ensures At(p, 0, p)
  {
  }

  /** The outer header of every packet, with or without a VLAN tag; and there is no inner one
      unless it carries UDP, GRE or IP. */
  lemma OuterFound(p: Packet, l: Link, n: Net, payload: Payload, rxTunnel: bool)
    requires l.Valid() && Fits(n, payload) && p == Frame(l, n, payload.Bytes())
    ensures Outer(p) == Found(l.Length(), n, payload)
    ensures n.Carries() !in {4, 17, 47} ==> Inner(p, rxTunnel) == None
  {
    Whole(p);
    FramedFound(p, 0, l, n, payload);
  }

  /** What a tunnel header at the body of the outer frame is parsed from. */
  lemma BodyFound(p: Packet, l: Link, n: Net, body: seq<Byte>)
    requires l.Valid() && n.Valid() && n.Carries() != 6 && p == Frame(l, n, body)
    ensures At(p, BodyOf(l, n), body)
    ensures Outer(p).at + Outer(p).len == BodyOf(l, n) && Outer(p).proto == n.Carries()
  {
    Whole(p);
    FrameParts(p, 0, l, n, body);
    FramedFound(p, 0, l, n, Raw(body));
  }

  /** The parser that the body is handed to. */
  lemma InnerIs(p: Packet, l: Link, n: Net, body: seq<Byte>, rxTunnel: bool)
    requires l.Valid() && n.Valid() && n.Carries() in {4, 17, 47} && p == Frame(l, n, body)
    ensures At(p, BodyOf(l, n), body)
    ensures Inner(p, rxTunnel) ==
              if n.Carries() == 17 then BehindUdp(p, BodyOf(l, n), rxTunnel)
              else if n.Carries() == 47 then BehindGre(p, BodyOf(l, n))
              else BehindIp(p, BodyOf(l, n))
  {
    BodyFound(p, l, n, body);
    InnerBy(p, BodyOf(l, n), n.Carries(), rxTunnel);
  }

  lemma InnerBy(p: Packet, at: nat, proto: nat, rxTunnel: bool)
    requires Outer(p).at + Outer(p).len == at <= 78 && Outer(p).proto == proto && proto in {4, 17, 47}
    ensures Inner(p, rxTunnel) ==
              if proto == 17 then BehindUdp(p, at, rxTunnel) else if proto == 47 then BehindGre(p, at) else BehindIp(p, at)
  {
  }

  function Udp(source: seq<Byte>, port: nat, rest: seq<Byte>): seq<Byte>
    requires |source| == 2 && port < 0x1_0000 && |rest| == 4
  {
    source + (BigEndian(port) + rest)
  }

  lemma UdpPort(p: Packet, at: nat, source: seq<Byte>, port: nat, rest: seq<Byte>)
    requires |source| == 2 && port < 0x1_0000 && |rest| == 4 && at <= 78 && At(p, at, Udp(source, port, rest))
    ensures U16(p, at + 2) == port
  {
    PartOf(p, at, source, BigEndian(port) + rest);
    PartOf(p, at + 2, BigEndian(port), rest);
    U16Is(p, at + 2, port);
  }

  lemma BehindUdpFound(p: Packet, at: nat, udp: seq<Byte>, vxlan: seq<Byte>, l: Link, n: Net, payload: Payload, rxTunnel: bool)
    requires at <= 78 && l.Valid() && Fits(n, payload) && |udp| == |vxlan| == 8
    requires At(p, at, udp + (vxlan + Frame(l, n, payload.Bytes())))
    ensures BehindUdp(p, at, rxTunnel) ==
              if U16(p, at + 2) == 4789 || rxTunnel then Some(Found(at + 16 + l.Length(), n, payload)) else None
  {
    var inner := Frame(l, n, payload.Bytes());
    PartOf(p, at, udp, vxlan + inner);
    PartOf(p, at + 8, vxlan, inner);
    FramedFound(p, at + 16, l, n, payload);
  }

  /** VXLAN: the inner frame is found behind 8 bytes of UDP and 8 of VXLAN, on port 4789 or
      when the NIC says so, and only then. */
  lemma VxlanFound(p: Packet, l: Link, n: Net, source: seq<Byte>, port: nat, rest: seq<Byte>, vxlan: seq<Byte>,
                   l': Link, n': Net, payload: Payload, rxTunnel: bool)
    requires l.Valid() && n.Valid() && n.Carries() == 17 && l'.Valid() && Fits(n', payload)
    requires |source| == 2 && port < 0x1_0000 && |rest| == 4 && |vxlan| == 8
    requires p == Frame(l, n, Udp(source, port, rest) + (vxlan + Frame(l', n', payload.Bytes())))
    ensures Inner(p, rxTunnel) ==
              if port == 4789 || rxTunnel then Some(Found(BodyOf(l, n) + 16 + l'.Length(), n', payload))
              else None
  {
    var at, udp, more := BodyOf(l, n), Udp(source, port, rest), vxlan + Frame(l', n', payload.Bytes());
    InnerIs(p, l, n, udp + more, rxTunnel);
    PartOf(p, at, udp, more);
    UdpPort(p, at, source, port, rest);
    BehindUdpFound(p, at, udp, vxlan, l', n', payload, rxTunnel);
  }

  /** A GRE header: no flags, or the key flag and a key of four bytes. */
  function Gre(key: Option<seq<Byte>>, ethertype: nat): (r: seq<Byte>)
    requires ethertype < 0x1_0000 && (key.Some? ==> |key.value| == 4)
    ensures |r| == GreRoom(key)
  {
    [if key.Some? then 0x20 else 0, 0] + (BigEndian(ethertype) + if key.Some? then key.value else [])
  }

  function GreRoom(key: Option<seq<Byte>>): nat { if key.Some? then 8 else 4 }

  lemma GreFields(p: Packet, at: nat, key: Option<seq<Byte>>, ethertype: nat)
    requires ethertype < 0x1_0000 && (key.Some? ==> |key.value| == 4) && at <= 78 && At(p, at, Gre(key, ethertype))
    ensures U16(p, at) == (if key.Some? then 0x2000 else 0) && U16(p, at + 2) == ethertype
  {
    var more := if key.Some? then key.value else [];
    AtIs(p, at, Gre(key, ethertype), 0);
    AtIs(p, at, Gre(key, ethertype), 1);
    PartOf(p, at, [if key.Some? then 0x20 else 0, 0], BigEndian(ethertype) + more);
    PartOf(p, at + 2, BigEndian(ethertype), more);
    U16Is(p, at + 2, ethertype);
  }

  lemma InGre(p: Packet, l: Link, n: Net, body: seq<Byte>, rxTunnel: bool)
    requires l.Valid() && n.Valid() && n.Carries() == 47 && p == Frame(l, n, body)
    ensures At(p, BodyOf(l, n), body) && Inner(p, rxTunnel) == BehindGre(p, BodyOf(l, n))
  {
    InnerIs(p, l, n, body, rxTunnel);
  }

  lemma BareFound(p: Packet, at: nat, n: Net, payload: Payload)
    requires Fits(n, payload) && !n.Other? && at + 73 <= HEADERS_END && At(p, at, n.Bytes() + payload.Bytes())
    ensures p[at] / 16 == (if n.V4? then 4 else 6)
    ensures (if n.V4? then Ipv4At(p, at) else Ipv6At(p, at)) == Found(at, n, payload)
  {
    PartOf(p, at, n.Bytes(), payload.Bytes());
    if n.V4? {
      Net4Found(p, at, n, payload);
    } else {
      Net6Found(p, at, n, payload);
    }
  }

  lemma BehindGreFound(p: Packet, at: nat, key: Option<seq<Byte>>, ethertype: nat, body: seq<Byte>)
    requires at <= 78 && ethertype in {0x0800, 0x86DD, 0x6558} && (key.Some? ==> |key.value| == 4)
    requires At(p, at, Gre(key, ethertype) + body)
    ensures var next := at + GreRoom(key);
            && At(p, next, body)
            && BehindGre(p, at) == Some(
                 if ethertype == 0x0800 then Ipv4At(p, next)
                 else if ethertype == 0x86DD then Ipv6At(p, next)
                 else BehindEthernet(p, next))
  {
    PartOf(p, at, Gre(key, ethertype), body);
    GreFields(p, at, key, ethertype);
  }

  lemma BehindGreIp(p: Packet, at: nat, key: Option<seq<Byte>>, n: Net, payload: Payload, body: seq<Byte>)
    requires at <= 78 && Fits(n, payload) && !n.Other? && (key.Some? ==> |key.value| == 4)
    requires At(p, at, body) && body == Gre(key, n.Ethertype()) + (n.Bytes() + payload.Bytes())
    ensures BehindGre(p, at) == Some(Found(at + GreRoom(key), n, payload))
  {
    BehindGreFound(p, at, key, n.Ethertype(), n.Bytes() + payload.Bytes());
    BareFound(p, at + GreRoom(key), n, payload);
  }

  lemma BehindGreFrame(p: Packet, at: nat, key: Option<seq<Byte>>, l: Link, n: Net, payload: Payload, body: seq<Byte>)
    requires at <= 78 && l.Valid() && Fits(n, payload) && (key.Some? ==> |key.value| == 4)
    requires At(p, at, body) && body == Gre(key, 0x6558) + Frame(l, n, payload.Bytes())
    ensures BehindGre(p, at) == Some(Found(at + GreRoom(key) + l.Length(), n, payload))
  {
    BehindGreFound(p, at, key, 0x6558, Frame(l, n, payload.Bytes()));
    FramedFound(p, at + GreRoom(key), l, n, payload);
  }

  /** GRE over IP: the inner header is found right behind the GRE header, key or no key. */
  lemma GreIpFound(p: Packet, l: Link, n: Net, key: Option<seq<Byte>>, n': Net, payload: Payload, body: seq<Byte>, rxTunnel: bool)
    requires l.Valid() && n.Valid() && n.Carries() == 47 && Fits(n', payload) && !n'.Other?
    requires key.Some? ==> |key.value| == 4
    requires body == Gre(key, n'.Ethertype()) + (n'.Bytes() + payload.Bytes()) && p == Frame(l, n, body)
    ensures Inner(p, rxTunnel) == Some(Found(BodyOf(l, n) + GreRoom(key), n', payload))
  {
    InGre(p, l, n, body, rxTunnel);
    BehindGreIp(p, BodyOf(l, n), key, n', payload, body);
  }

  /** GRE over Ethernet: the inner frame is found there. */
  lemma GreFrameFound(p: Packet, l: Link, n: Net, key: Option<seq<Byte>>, l': Link, n': Net, payload: Payload, body: seq<Byte>,
                      rxTunnel: bool)
    requires l.Valid() && n.Valid() && n.Carries() == 47 && l'.Valid() && Fits(n', payload)
    requires key.Some? ==> |key.value| == 4
    requires body == Gre(key, 0x6558) + Frame(l', n', payload.Bytes()) && p == Frame(l, n, body)
    ensures Inner(p, rxTunnel) == Some(Found(BodyOf(l, n) + GreRoom(key) + l'.Length(), n', payload))
  {
    InGre(p, l, n, body, rxTunnel);
    BehindGreFrame(p, BodyOf(l, n), key, l', n', payload, body);
  }

  lemma BehindGreRefused(p: Packet, at: nat, flags: nat, ethertype: nat, rest: seq<Byte>)
    requires at <= 78 && flags < 0x1_0000 && ethertype < 0x1_0000
    requires At(p, at, BigEndian(flags) + (BigEndian(ethertype) + rest))
    ensures BehindGre(p, at) == None <==> flags !in {0, 0x2000} || ethertype !in {0x0800, 0x86DD, 0x6558}
  {
    PartsOf(p, at, BigEndian(flags), BigEndian(ethertype), rest);
    U16Is(p, at, flags);
    U16Is(p, at + 2, ethertype);
  }

  /** No inner header is found behind GRE flags other than the key flag, or another protocol. */
  lemma GreRefused(p: Packet, l: Link, n: Net, flags: nat, ethertype: nat, rest: seq<Byte>, rxTunnel: bool)
    requires l.Valid() && n.Valid() && n.Carries() == 47 && flags < 0x1_0000 && ethertype < 0x1_0000
    requires p == Frame(l, n, BigEndian(flags) + (BigEndian(ethertype) + rest))
    ensures Inner(p, rxTunnel) == None <==> flags !in {0, 0x2000} || ethertype !in {0x0800, 0x86DD, 0x6558}
  {
    InGre(p, l, n, BigEndian(flags) + (BigEndian(ethertype) + rest), rxTunnel);
    BehindGreRefused(p, BodyOf(l, n), flags, ethertype, rest);
  }

  /** IP in IP: the inner header is found behind the outer one, by its own version. */
  lemma EncapsulatedFound(p: Packet, l: Link, n: Net, n': Net, payload: Payload, rxTunnel: bool)
    requires l.Valid() && n.Valid() && n.Carries() == 4 && Fits(n', payload) && !n'.Other?
    requires p == Frame(l, n, n'.Bytes() + payload.Bytes())
    ensures Inner(p, rxTunnel) == Some(Found(BodyOf(l, n), n', payload))
  {
    InnerIs(p, l, n, n'.Bytes() + payload.Bytes(), rxTunnel);
    BareFound(p, BodyOf(l, n), n', payload);
  }

  lemma EncapsulatedRefused(p: Packet, l: Link, n: Net, version: nat, low: nat, rest: seq<Byte>, rxTunnel: bool)
    requires l.Valid() && n.Valid() && n.Carries() == 4 && version < 16 && low < 16
    requires p == Frame(l, n, [version * 16 + low] + rest)
    ensures Inner(p, rxTunnel) == None <==> version !in {4, 6}
  {
    InnerIs(p, l, n, [version * 16 + low] + rest, rxTunnel);
    AtIs(p, BodyOf(l, n), [version * 16 + low] + rest, 0);
  }
}
