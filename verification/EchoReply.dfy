/** The in-place rewrite of an ICMP echo request into its reply (icmpecho). */
module EchoReply {
  import opened OnesComplement
  import opened HeaderChecksums

  const ETHER_LEN: nat := 14
  const IP_LEN: nat := 20
  const ICMP_ECHO_REQUEST: byte := 8

  // ---------- ICMP: incremental checksum update ----------

  /** The reply's checksum from the request's: one word of the message, type and code, changes. */
  function UpdatedChecksum(little: bool, cksum: word): word
  {
    var s0: nat := 0xFFFF - cksum;
    var s1: nat := s0 + (0xFFFF - WordOf(little, ICMP_ECHO_REQUEST, 0));
    var s2: nat := s1 + WordOf(little, 0, 0);
    FoldKeeps(s2);
    FoldKeeps(Fold(s2));
    0xFFFF - Fold(Fold(s2))
  }

  /** A word as the host stores it. */
  function BytesOf(little: bool, w: word): (r: seq<byte>)
    ensures |r| == 2 && WordOf(little, r[0], r[1]) == w
  {
    if little then [w % 0x100, w / 0x100] else [w / 0x100, w % 0x100]
  }

  /** The ICMP message after the rewrite: type 0 and the updated checksum. */
  function IcmpReply(little: bool, m: seq<byte>): (r: seq<byte>)
    requires |m| >= 4
    ensures |r| == |m|
  {
    [0 as byte, m[1]] + BytesOf(little, UpdatedChecksum(little, WordOf(little, m[2], m[3]))) + m[4..]
  }

  ghost predicate ValidMessage(little: bool, m: seq<byte>)
  {
    Accepted(Words(little, m))
  }

  lemma MessageSum(little: bool, m: seq<byte>)
    requires |m| >= 4
    ensures Sum(Words(little, m))
         == WordOf(little, m[0], m[1]) + WordOf(little, m[2], m[3]) + Sum(Words(little, m[4..]))
  {
    var tail, rest := m[2..], m[4..];
    assert m == [m[0], m[1]] + tail;
    assert tail == [m[2], m[3]] + rest;
    SumTwo(little, m[0], m[1], tail);
    SumTwo(little, m[2], m[3], rest);
  }

  lemma TwoFolds(s: nat)
    requires s <= 0x1_FFFE
    ensures Fold(Fold(s)) == if s > 0xFFFF then s - 0xFFFF else s
  {
    FoldExact(s);
    FoldExact(Fold(s));
  }

  /** The new checksum word is the old one plus the word that is gone, with end-around carry
      that leaves no 0xFFFF. */
  lemma UpdateAdds(little: bool, cksum: word)
    ensures var t := cksum + WordOf(little, ICMP_ECHO_REQUEST, 0);
            UpdatedChecksum(little, cksum) == if t >= 0xFFFF then t - 0xFFFF else t
  {
    TwoFolds((0xFFFF - cksum) + (0xFFFF - WordOf(little, ICMP_ECHO_REQUEST, 0)));
  }

  lemma ReplySums(little: bool, m: seq<byte>)
    requires |m| >= 4 && m[0] == ICMP_ECHO_REQUEST && m[1] == 0
    ensures var cksum, w, rest := WordOf(little, m[2], m[3]), WordOf(little, ICMP_ECHO_REQUEST, 0), Sum(Words(little, m[4..]));
            && Sum(Words(little, m)) == w + cksum + rest
            && Sum(Words(little, IcmpReply(little, m))) == UpdatedChecksum(little, cksum) + rest
  {
    var r := IcmpReply(little, m);
    MessageSum(little, m);
    MessageSum(little, r);
    assert r[4..] == m[4..];
  }

  /** The rewrite leaves the one's-complement sum of a message of any length as it was. */
  lemma IcmpReplyKeepsSum(little: bool, m: seq<byte>)
    requires |m| >= 4 && m[0] == ICMP_ECHO_REQUEST && m[1] == 0
    ensures SameNumber(OnesSum(Words(little, IcmpReply(little, m))), OnesSum(Words(little, m)))
  {
    var r := IcmpReply(little, m);
    var before, after := Sum(Words(little, m)), Sum(Words(little, r));
    ReplySums(little, m);
    UpdateAdds(little, WordOf(little, m[2], m[3]));
    ModPeriod(1, after);
    assert before == after || before == 0xFFFF * 1 + after;
    SameRemainder(after, before);
    OnesSumIsCanon(Words(little, m));
    OnesSumIsCanon(Words(little, r));
  }

  /** For a valid request of any length the reply's words sum to zero modulo 65535, and the
      reply is valid: exactly when anything beyond the first two words of the request is non-zero. */
  lemma IcmpReplyValidIff(little: bool, m: seq<byte>)
    requires |m| >= 4 && m[0] == ICMP_ECHO_REQUEST && m[1] == 0 && ValidMessage(little, m)
    ensures Sum(Words(little, IcmpReply(little, m))) % 0xFFFF == 0
    ensures ValidMessage(little, IcmpReply(little, m)) <==> exists i :: 4 <= i < |m| && m[i] != 0
  {
    IcmpReplyKeepsSum(little, m);
    OnesSumIsCanon(Words(little, IcmpReply(little, m)));
    ReplyZeroIff(little, m);
    TailIsZero(little, m);
  }

  lemma OnlyMultiple(t: nat)
    requires 0 < t < 2 * 0xFFFF && t % 0xFFFF == 0
    ensures t == 0xFFFF
  {
  }

  /** The words of the reply are all zero exactly when the request had nothing behind its checksum. */
  lemma ReplyZeroIff(little: bool, m: seq<byte>)
    requires |m| >= 4 && m[0] == ICMP_ECHO_REQUEST && m[1] == 0 && ValidMessage(little, m)
    ensures Sum(Words(little, IcmpReply(little, m))) == 0 <==> Sum(Words(little, m[4..])) == 0
  {
    ReplySums(little, m);
    UpdateAdds(little, WordOf(little, m[2], m[3]));
    if Sum(Words(little, m[4..])) == 0 {
      AcceptedIff(Words(little, m));
      OnlyMultiple(Sum(Words(little, m)));
    }
  }

  lemma TailIsZero(little: bool, m: seq<byte>)
    requires |m| >= 4
    ensures Sum(Words(little, m[4..])) == 0 <==> forall i :: 4 <= i < |m| ==> m[i] == 0
  {
    WordsZeroIff(little, m[4..]);
    assert forall i :: 4 <= i < |m| ==> m[i] == m[4..][i - 4];
    assert forall i :: 0 <= i < |m| - 4 ==> m[4..][i] == m[i + 4];
  }

  /** The smallest request whose reply a receiver would reject. */
  lemma EmptyEchoIsRejected()
    ensures var m := [8, 0, 0xF7, 0xFF, 0, 0, 0, 0];
            ValidMessage(false, m) && !ValidMessage(false, IcmpReply(false, m))
  {
    var m := [8, 0, 0xF7, 0xFF, 0, 0, 0, 0];
    MessageSum(false, m);
    TailIsZero(false, m);
    AcceptedIff(Words(false, m));
    assert Sum(Words(false, m)) == 0xFFFF;
    IcmpReplyValidIff(false, m);
  }

  // ---------- IP: address swap, or a new source and a recomputed checksum ----------

  /** The test the code makes: only 224.0.0.0/8. */
  predicate IsMulticast(dst: seq<byte>)
    requires |dst| == 4
  {
    dst[0] == 0xE0
  }

  /** A source address different from the request's, in the last two bits. */
  function OtherSource(src: seq<byte>): (r: seq<byte>)
    requires |src| == 4
    ensures |r| == 4 && r != src
  {
    var base := src[3] - src[3] % 4;
    src[..3] + [if src[3] % 4 == 1 then base + 2 else base + 1]
  }

  function WithAddresses(h: seq<byte>, src: seq<byte>, dst: seq<byte>): (r: seq<byte>)
    requires |h| == IP_LEN && |src| == |dst| == 4
    ensures |r| == IP_LEN
  {
    h[..12] + src + dst
  }

  function WithChecksum(little: bool, h: seq<byte>): (r: seq<byte>)
    requires |h| == IP_LEN
    ensures |r| == IP_LEN
  {
    h[..10] + BytesOf(little, Ipv4HdrCksum(Words(little, h))) + h[12..]
  }

  function IpReply(little: bool, h: seq<byte>): (r: seq<byte>)
    requires |h| == IP_LEN
    ensures |r| == IP_LEN
  {
    var src, dst := h[12..16], h[16..20];
    if IsMulticast(dst) then WithChecksum(little, WithAddresses(h, OtherSource(src), src))
    else WithAddresses(h, dst, src)
  }

  lemma SwapKeepsSum(little: bool, h: seq<byte>)
    requires |h| == IP_LEN
    ensures Sum(Words(little, WithAddresses(h, h[16..20], h[12..16]))) == Sum(Words(little, h))
  {
    var front, src, dst := h[..12], h[12..16], h[16..20];
    assert h == front + (src + dst);
    WordsConcat(little, front, src + dst);
    WordsConcat(little, src, dst);
    assert WithAddresses(h, dst, src) == front + (dst + src);
    WordsConcat(little, front, dst + src);
    WordsConcat(little, dst, src);
    SumConcat(Words(little, front), Words(little, src + dst));
    SumConcat(Words(little, front), Words(little, dst + src));
    SumConcat(Words(little, src), Words(little, dst));
    SumConcat(Words(little, dst), Words(little, src));
  }

  lemma {:induction false} WordAt(little: bool, bytes: seq<byte>, k: nat)
    requires 2 * k + 1 < |bytes|
    ensures Words(little, bytes)[k] == WordOf(little, bytes[2 * k], bytes[2 * k + 1])
  {
    if k > 0 {
      WordAt(little, bytes[2..], k - 1);
    }
  }

  lemma ChecksumWordReplaced(little: bool, h: seq<byte>)
    requires |h| == IP_LEN
    ensures Words(little, WithChecksum(little, h))
         == Words(little, h)[CHECKSUM_WORD := Ipv4HdrCksum(Words(little, h))]
  {
    var w, r := Words(little, h), WithChecksum(little, h);
    forall k | 0 <= k < IPV4_WORDS
      ensures Words(little, r)[k] == w[CHECKSUM_WORD := Ipv4HdrCksum(w)][k]
    {
      WordAt(little, r, k);
      WordAt(little, h, k);
    }
  }

  lemma SwappedAcceptedIff(little: bool, h: seq<byte>, options: seq<byte>)
    requires |h| == IP_LEN
    ensures var r := WithAddresses(h, h[16..20], h[12..16]);
            Accepted(Words(little, r + options)) <==> Accepted(Words(little, h + options))
  {
    var r := WithAddresses(h, h[16..20], h[12..16]);
    SwapKeepsSum(little, h);
    WordsConcat(little, r, options);
    WordsConcat(little, h, options);
    SumConcat(Words(little, r), Words(little, options));
    SumConcat(Words(little, h), Words(little, options));
    AcceptedIff(Words(little, r + options));
    AcceptedIff(Words(little, h + options));
  }

  lemma ReaddressedAcceptedIff(little: bool, moved: seq<byte>, options: seq<byte>)
    requires |moved| == IP_LEN
    ensures Accepted(Words(little, WithChecksum(little, moved) + options)) <==> Sum(Words(little, options)) % 0xFFFF == 0
  {
    WordsConcat(little, WithChecksum(little, moved), options);
    ChecksumWordReplaced(little, moved);
    RecomputedAcceptedIff(Words(little, moved), Words(little, options));
  }

  /** Swapping the addresses keeps a header of any length exactly as valid as it was; the
      multicast branch makes it valid exactly when its options (if any) sum to zero. */
  lemma IpReplyValidIff(little: bool, h: seq<byte>, options: seq<byte>)
    requires |h| == IP_LEN
    ensures Accepted(Words(little, IpReply(little, h) + options)) <==>
              if IsMulticast(h[16..20]) then Sum(Words(little, options)) % 0xFFFF == 0
              else Accepted(Words(little, h + options))
  {
    if IsMulticast(h[16..20]) {
      ReaddressedAcceptedIff(little, WithAddresses(h, OtherSource(h[12..16]), h[12..16]), options);
    } else {
      SwappedAcceptedIff(little, h, options);
    }
  }

  // ---------- the packet buffer ----------

  function SwapMacs(p: seq<byte>): (r: seq<byte>)
    requires |p| >= ETHER_LEN
    ensures |r| == |p|
  {
    p[6..12] + p[..6] + p[12..]
  }

  /** The whole packet after the rewrite, with the IP header at offset l2. */
  function Reply(little: bool, p: seq<byte>, l2: nat): (r: seq<byte>)
    requires ETHER_LEN <= l2 && |p| >= l2 + IP_LEN + 4
    ensures |r| == |p|
  {
    SwapMacs(p)[..l2] + IpReply(little, p[l2..l2 + IP_LEN]) + IcmpReply(little, p[l2 + IP_LEN..])
  }

  method SwapMacsInPlace(p: array<byte>)
    requires p.Length >= ETHER_LEN
    modifies p
    ensures p[..] == SwapMacs(old(p[..]))
  {
    for k := 0 to 6
      invariant forall j :: 0 <= j < 6 ==> p[j] == old(p[..])[if j < k then 6 + j else j]
      invariant forall j :: 6 <= j < 12 ==> p[j] == old(p[..])[if j - 6 < k then j - 6 else j]
      invariant forall j :: 12 <= j < p.Length ==> p[j] == old(p[j])
    {
      p[k], p[6 + k] := p[6 + k], p[k];
    }
  }

  function Copied(s: seq<byte>, at: nat, bytes: seq<byte>): (r: seq<byte>)
    requires at + |bytes| <= |s|
    ensures |r| == |s|
  {
    s[..at] + bytes + s[at + |bytes|..]
  }

  /** A copy inside a window changes the window alone. */
  lemma CopiedInside(s: seq<byte>, at: nat, bytes: seq<byte>, lo: nat, hi: nat)
    requires lo <= at && at + |bytes| <= hi <= |s|
    ensures var r := Copied(s, at, bytes);
            r[lo..hi] == Copied(s[lo..hi], at - lo, bytes) && r[..lo] == s[..lo] && r[hi..] == s[hi..]
  {
    var r, w := Copied(s, at, bytes), s[lo..hi];
    forall k | 0 <= k < hi - lo
      ensures r[lo..hi][k] == Copied(w, at - lo, bytes)[k]
    {
      assert r[lo..hi][k] == r[lo + k];
    }
  }

  method CopyInto(p: array<byte>, at: nat, bytes: seq<byte>)
    requires at + |bytes| <= p.Length
    modifies p
    ensures p[..] == Copied(old(p[..]), at, bytes)
  {
    for k := 0 to |bytes|
      invariant forall j :: 0 <= j < p.Length ==> p[j] == if at <= j < at + k then bytes[j - at] else old(p[j])
    {
      p[at + k] := bytes[k];
    }
  }

  lemma AddressesCopied(h: seq<byte>, src: seq<byte>, dst: seq<byte>)
    requires |h| == IP_LEN && |src| == |dst| == 4
    ensures Copied(Copied(h, 12, src), 16, dst) == WithAddresses(h, src, dst)
  {
  }

  method WriteAddresses(p: array<byte>, l2: nat, src: seq<byte>, dst: seq<byte>)
    requires p.Length >= l2 + IP_LEN && |src| == |dst| == 4
    modifies p
    ensures p[l2..l2 + IP_LEN] == WithAddresses(old(p[..])[l2..l2 + IP_LEN], src, dst)
    ensures p[..l2] == old(p[..])[..l2] && p[l2 + IP_LEN..] == old(p[..])[l2 + IP_LEN..]
  {
    CopiedInside(p[..], l2 + 12, src, l2, l2 + IP_LEN);
    AddressesCopied(p[..][l2..l2 + IP_LEN], src, dst);
    CopyInto(p, l2 + 12, src);
    CopiedInside(p[..], l2 + 16, dst, l2, l2 + IP_LEN);
    CopyInto(p, l2 + 16, dst);
  }

  method IpReplyInPlace(little: bool, p: array<byte>, l2: nat)
    requires p.Length >= l2 + IP_LEN
    modifies p
    ensures p[..][l2..l2 + IP_LEN] == IpReply(little, old(p[..])[l2..l2 + IP_LEN])
    ensures p[..][..l2] == old(p[..])[..l2] && p[..][l2 + IP_LEN..] == old(p[..])[l2 + IP_LEN..]
  {
    var src, dst := p[..][l2..l2 + IP_LEN][12..16], p[..][l2..l2 + IP_LEN][16..20];
    if IsMulticast(dst) {
      WriteAddresses(p, l2, OtherSource(src), src);
      var cksum := BytesOf(little, Ipv4HdrCksum(Words(little, p[l2..l2 + IP_LEN])));
      CopiedInside(p[..], l2 + 10, cksum, l2, l2 + IP_LEN);
      CopyInto(p, l2 + 10, cksum);
    } else {
      WriteAddresses(p, l2, dst, src);
    }
  }

  method IcmpReplyInPlace(little: bool, p: array<byte>, icmp: nat)
    requires p.Length >= icmp + 4
    modifies p
    ensures p[..][icmp..] == IcmpReply(little, old(p[..])[icmp..]) && p[..][..icmp] == old(p[..])[..icmp]
  {
    p[icmp] := 0;
    var cksum := WordOf(little, p[icmp + 2], p[icmp + 3]);
    CopyInto(p, icmp + 2, BytesOf(little, UpdatedChecksum(little, cksum)));
  }

  /** The two address steps. */
  method ReaddressInPlace(little: bool, p: array<byte>, l2: nat)
    requires ETHER_LEN <= l2 && p.Length >= l2 + IP_LEN
    modifies p
    ensures p[..] == SwapMacs(old(p[..]))[..l2] + IpReply(little, old(p[..])[l2..l2 + IP_LEN]) + old(p[..])[l2 + IP_LEN..]
  {
    MacsAside(p[..], l2, l2 + IP_LEN);
    SwapMacsInPlace(p);
    IpReplyInPlace(little, p, l2);
    Joined(p[..], l2, l2 + IP_LEN);
  }

  method EchoReplyInPlace(little: bool, p: array<byte>, l2: nat)
    requires ETHER_LEN <= l2 && p.Length >= l2 + IP_LEN + 4
    modifies p
    ensures p[..] == Reply(little, old(p[..]), l2)
  {
    ghost var front := SwapMacs(p[..])[..l2] + IpReply(little, p[..][l2..l2 + IP_LEN]);
    ghost var icmp := p[..][l2 + IP_LEN..];
    ReaddressInPlace(little, p, l2);
    FrontAndBack(front, icmp, p[..]);
    IcmpReplyInPlace(little, p, l2 + IP_LEN);
    Joined(p[..], l2 + IP_LEN, l2 + IP_LEN);
  }

  lemma FrontAndBack(front: seq<byte>, back: seq<byte>, s: seq<byte>)
    requires s == front + back
    ensures s[..|front|] == front && s[|front|..] == back
  {
  }

  lemma Joined(s: seq<byte>, a: nat, b: nat)
    requires a <= b <= |s|
    ensures s == s[..a] + s[a..b] + s[b..]
  {
  }

  lemma MacsAside(p: seq<byte>, lo: nat, hi: nat)
    requires ETHER_LEN <= lo <= hi <= |p|
    ensures SwapMacs(p)[lo..hi] == p[lo..hi] && SwapMacs(p)[hi..] == p[hi..]
  {
  }

  // ---------- what the reply says, byte by byte ----------

  lemma AddressesWritten(h: seq<byte>, src: seq<byte>, dst: seq<byte>)
    requires |h| == IP_LEN && |src| == |dst| == 4
    ensures var r := WithAddresses(h, src, dst); r[..12] == h[..12] && r[12..16] == src && r[16..20] == dst
  {
    PartsOf(h[..12], src, dst);
  }

  lemma ChecksumWritten(little: bool, h: seq<byte>)
    requires |h| == IP_LEN
    ensures var r := WithChecksum(little, h); r[..10] == h[..10] && r[12..] == h[12..]
  {
    PartsOf(h[..10], BytesOf(little, Ipv4HdrCksum(Words(little, h))), h[12..]);
  }

  lemma UnicastAddresses(little: bool, h: seq<byte>)
    requires |h| == IP_LEN && h[16] != 0xE0
    ensures var r := IpReply(little, h); r[..12] == h[..12] && r[12..16] == h[16..20] && r[16..20] == h[12..16]
  {
    AddressesWritten(h, h[16..20], h[12..16]);
  }

  lemma MulticastAddresses(little: bool, h: seq<byte>)
    requires |h| == IP_LEN && h[16] == 0xE0
    ensures var r := IpReply(little, h); r[..10] == h[..10] && r[12..16] == OtherSource(h[12..16]) && r[16..20] == h[12..16]
  {
    var src := h[12..16];
    var moved := WithAddresses(h, OtherSource(src), src);
    var r := WithChecksum(little, moved);
    AddressesWritten(h, OtherSource(src), src);
    ChecksumWritten(little, moved);
    assert r[..10] == h[..12][..10];
    assert r[12..16] == r[12..][..4] && moved[12..16] == moved[12..][..4];
    assert r[16..20] == r[12..][4..8] && moved[16..20] == moved[12..][4..8];
  }

  lemma OtherSourceIsNear(src: seq<byte>)
    requires |src| == 4
    ensures var r := OtherSource(src);
            r[..3] == src[..3] && r[3] / 4 == src[3] / 4 && r[3] % 4 == if src[3] % 4 == 1 then 2 else 1
  {
  }

  /** The reply goes to the sender. It comes from the address that was asked or, if that was a
      multicast address, from one like the sender's with other last two bits. The checksum is
      rewritten in that case alone, everything else in the header never. */
  lemma ReplyAddresses(little: bool, h: seq<byte>)
    requires |h| == IP_LEN
    ensures var r := IpReply(little, h);
            && r[16..20] == h[12..16]
            && r[..10] == h[..10]
            && (h[16] != 0xE0 ==> r[12..16] == h[16..20] && r[10..12] == h[10..12])
            && (h[16] == 0xE0 ==>
                  && r[12..15] == h[12..15] && r[15] / 4 == h[15] / 4
                  && r[15] % 4 == (if h[15] % 4 == 1 then 2 else 1))
  {
    var r := IpReply(little, h);
    if h[16] == 0xE0 {
      MulticastAddresses(little, h);
      OtherSourceIsNear(h[12..16]);
      assert r[12..15] == r[12..16][..3] && h[12..15] == h[12..16][..3];
      assert r[15] == r[12..16][3] && h[15] == h[12..16][3];
    } else {
      UnicastAddresses(little, h);
      assert r[..10] == r[..12][..10] && h[..10] == h[..12][..10];
      assert r[10..12] == r[..12][10..] && h[10..12] == h[..12][10..];
    }
  }

  /** Type echo reply, the request's code, and all its bytes behind the checksum. */
  lemma ReplyMessage(little: bool, m: seq<byte>)
    requires |m| >= 4
    ensures var r := IcmpReply(little, m); r[0] == 0 && r[1] == m[1] && r[4..] == m[4..]
  {
  }

  lemma MacsSwapped(p: seq<byte>)
    requires |p| >= ETHER_LEN
    ensures SwapMacs(p)[..6] == p[6..12] && SwapMacs(p)[6..12] == p[..6] && SwapMacs(p)[12..] == p[12..]
  {
  }

  /** The parts of the reply. */
  lemma ReplyPieces(little: bool, p: seq<byte>, l2: nat)
    requires ETHER_LEN <= l2 && |p| >= l2 + IP_LEN + 4
    ensures var r := Reply(little, p, l2);
            && r[..l2] == SwapMacs(p)[..l2]
            && r[l2..l2 + IP_LEN] == IpReply(little, p[l2..l2 + IP_LEN])
            && r[l2 + IP_LEN..] == IcmpReply(little, p[l2 + IP_LEN..])
  {
    PartsOf(SwapMacs(p)[..l2], IpReply(little, p[l2..l2 + IP_LEN]), IcmpReply(little, p[l2 + IP_LEN..]));
  }

  lemma PartsOf(a: seq<byte>, b: seq<byte>, c: seq<byte>)
    ensures var r := a + b + c; r[..|a|] == a && r[|a|..|a| + |b|] == b && r[|a| + |b|..] == c
  {
  }

  lemma TailOfTail(s: seq<byte>, a: nat, k: nat)
    requires a + k <= |s|
    ensures s[a..][k..] == s[a + k..] && s[..a + k][..a] == s[..a]
  {
  }

  /** Link layer: the two addresses change places and the rest of the header stays. */
  lemma PacketMacs(little: bool, p: seq<byte>, l2: nat)
    requires ETHER_LEN <= l2 && |p| >= l2 + IP_LEN + 4
    ensures var r := Reply(little, p, l2); r[..6] == p[6..12] && r[6..12] == p[..6] && r[12..l2] == p[12..l2]
  {
    var r, m := Reply(little, p, l2), SwapMacs(p);
    ReplyPieces(little, p, l2);
    MacsSwapped(p);
    assert r[..6] == r[..l2][..6] && m[..6] == m[..l2][..6];
    assert r[6..12] == r[..l2][6..12] && m[6..12] == m[..l2][6..12];
    assert r[12..l2] == r[..l2][12..] && m[12..l2] == m[..l2][12..];
    assert m[12..l2] == m[12..][..l2 - 12] && p[12..l2] == p[12..][..l2 - 12];
  }

  /** Network layer: back to the sender, from the address asked unless that is a multicast one. */
  lemma PacketAddresses(little: bool, p: seq<byte>, l2: nat)
    requires ETHER_LEN <= l2 && |p| >= l2 + IP_LEN + 4
    ensures var r := Reply(little, p, l2);
            && r[l2 + 16..l2 + 20] == p[l2 + 12..l2 + 16]
            && r[l2..l2 + 10] == p[l2..l2 + 10]
            && (p[l2 + 16] != 0xE0 ==>
                  r[l2 + 12..l2 + 16] == p[l2 + 16..l2 + 20] && r[l2 + 10..l2 + 12] == p[l2 + 10..l2 + 12])
            && (p[l2 + 16] == 0xE0 ==>
                  && r[l2 + 12..l2 + 15] == p[l2 + 12..l2 + 15] && r[l2 + 15] / 4 == p[l2 + 15] / 4
                  && r[l2 + 15] % 4 == (if p[l2 + 15] % 4 == 1 then 2 else 1))
  {
    var r, h := Reply(little, p, l2), p[l2..l2 + IP_LEN];
    var hr := r[l2..l2 + IP_LEN];
    ReplyPieces(little, p, l2);
    ReplyAddresses(little, h);
    assert h[16] == p[l2 + 16] && h[15] == p[l2 + 15] && hr[15] == r[l2 + 15];
    HeaderSlices(p, l2);
    HeaderSlices(r, l2);
  }

  lemma HeaderSlices(s: seq<byte>, l2: nat)
    requires l2 + IP_LEN <= |s|
    ensures var h := s[l2..l2 + IP_LEN];
            && h[..10] == s[l2..l2 + 10] && h[10..12] == s[l2 + 10..l2 + 12]
            && h[12..15] == s[l2 + 12..l2 + 15] && h[12..16] == s[l2 + 12..l2 + 16] && h[16..20] == s[l2 + 16..l2 + 20]
  {
  }

  /** Message: an echo reply with everything that the request carried. */
  lemma PacketMessage(little: bool, p: seq<byte>, l2: nat)
    requires ETHER_LEN <= l2 && |p| >= l2 + IP_LEN + 4
    ensures var r, at := Reply(little, p, l2), l2 + IP_LEN;
            r[at] == 0 && r[at + 1] == p[at + 1] && r[at + 4..] == p[at + 4..]
  {
    var r, at := Reply(little, p, l2), l2 + IP_LEN;
    ReplyPieces(little, p, l2);
    ReplyMessage(little, p[at..]);
    TailOfTail(r, at, 4);
    TailOfTail(p, at, 4);
    assert r[at] == r[at..][0] && r[at + 1] == r[at..][1] && p[at + 1] == p[at..][1];
  }

  // ---------- the IP header, options included, as the whole rewrite leaves it ----------

  const IPPROTO_ICMP: byte := 1

  /** What the code checks before the rewrite. It takes the ICMP header to follow the first
      20 bytes, so in a header with options it looks at, and later writes, the options. */
  predicate TakenForEcho(p: seq<byte>, l2: nat)
    requires |p| >= l2 + IP_LEN + 4
  {
    p[l2 + 9] == IPPROTO_ICMP && p[l2 + IP_LEN] == ICMP_ECHO_REQUEST && p[l2 + IP_LEN + 1] == 0
  }

  /** The IP header of hl bytes at offset l2. */
  function HeaderOf(p: seq<byte>, l2: nat, hl: nat): seq<byte>
    requires l2 + hl <= |p|
  {
    p[l2..l2 + hl]
  }

  /** Of a message the rewrite touches the first four bytes alone. */
  lemma IcmpReplyPrefix(little: bool, m: seq<byte>, n: nat)
    requires 4 <= n <= |m|
    ensures IcmpReply(little, m)[..n] == IcmpReply(little, m[..n])
  {
    assert m[4..][..n - 4] == m[..n][4..];
    var front := [0 as byte, m[1]] + BytesOf(little, UpdatedChecksum(little, WordOf(little, m[2], m[3])));
    assert (front + m[4..])[..n] == front + m[4..][..n - 4];
  }

  lemma ReplyParts(little: bool, p: seq<byte>, l2: nat, n: nat)
    requires ETHER_LEN <= l2 && |p| >= l2 + IP_LEN + 4 && l2 + IP_LEN + n <= |p|
    ensures HeaderOf(Reply(little, p, l2), l2, IP_LEN + n)
         == IpReply(little, p[l2..l2 + IP_LEN]) + IcmpReply(little, p[l2 + IP_LEN..])[..n]
  {
    ReplySlice(SwapMacs(p)[..l2], IpReply(little, p[l2..l2 + IP_LEN]), IcmpReply(little, p[l2 + IP_LEN..]), n);
  }

  /** Without options the header is rewritten by the IP step alone. */
  lemma PlainHeader(little: bool, p: seq<byte>, l2: nat)
    requires ETHER_LEN <= l2 && |p| >= l2 + IP_LEN + 4
    ensures HeaderOf(Reply(little, p, l2), l2, IP_LEN) == IpReply(little, HeaderOf(p, l2, IP_LEN))
  {
    ReplyParts(little, p, l2, 0);
  }

  lemma JoinedWith(a: seq<byte>, b: seq<byte>, c: seq<byte>, r: seq<byte>)
    requires r == a + b && b == c
    ensures r == a + c
  {
  }

  /** With options the ICMP step goes on to rewrite them. */
  lemma HeaderWithOptions(little: bool, p: seq<byte>, l2: nat, hl: nat, options: seq<byte>)
    requires ETHER_LEN <= l2 && IP_LEN + 4 <= hl && l2 + hl <= |p| && options == p[l2 + IP_LEN..l2 + hl]
    ensures HeaderOf(Reply(little, p, l2), l2, hl) == IpReply(little, HeaderOf(p, l2, IP_LEN)) + IcmpReply(little, options)
  {
    var icmp, n := p[l2 + IP_LEN..], hl - IP_LEN;
    TailSlice(p, l2 + IP_LEN, n);
    IcmpReplyPrefix(little, icmp, n);
    ReplyParts(little, p, l2, n);
    JoinedWith(IpReply(little, HeaderOf(p, l2, IP_LEN)), IcmpReply(little, icmp)[..n], IcmpReply(little, options),
               HeaderOf(Reply(little, p, l2), l2, hl));
  }

  lemma TailSlice(p: seq<byte>, a: nat, n: nat)
    requires a + n <= |p|
    ensures p[a..][..n] == p[a..a + n]
  {
  }

  lemma ReplySlice(front: seq<byte>, ip: seq<byte>, icmp: seq<byte>, n: nat)
    requires n <= |icmp|
    ensures (front + ip + icmp)[|front|..|front| + |ip| + n] == ip + icmp[..n]
  {
  }

  /** The protocol byte stays, so the words of the reply header are not all zero. */
  lemma ReplyHeaderNotZero(little: bool, h: seq<byte>)
    requires |h| == IP_LEN && h[9] != 0
    ensures OnesSum(Words(little, IpReply(little, h))) != 0
  {
    var r := IpReply(little, h);
    assert r[9] == h[9];
    WordsZeroIff(little, r);
    OnesSumIsCanon(Words(little, r));
  }

  lemma OptionsRewritten(little: bool, r: seq<byte>, options: seq<byte>)
    requires |r| == IP_LEN && OnesSum(Words(little, r)) != 0
    requires |options| >= 4 && options[0] == ICMP_ECHO_REQUEST && options[1] == 0
    ensures Accepted(Words(little, r + IcmpReply(little, options))) <==> Accepted(Words(little, r + options))
  {
    WordsConcat(little, r, options);
    WordsConcat(little, r, IcmpReply(little, options));
    OnesSumConcat(Words(little, r), Words(little, options));
    OnesSumConcat(Words(little, r), Words(little, IcmpReply(little, options)));
    IcmpReplyKeepsSum(little, options);
  }

  lemma AddNothing(s: seq<byte>)
    ensures s + [] == s
  {
  }

  lemma SliceOfHeader(p: seq<byte>, l2: nat, hl: nat)
    requires IP_LEN <= hl && l2 + hl <= |p|
    ensures HeaderOf(p, l2, IP_LEN)[16..20] == p[l2 + 16..l2 + 20] && HeaderOf(p, l2, IP_LEN)[9] == p[l2 + 9]
    ensures HeaderOf(p, l2, hl) == HeaderOf(p, l2, IP_LEN) + p[l2 + IP_LEN..l2 + hl]
  {
  }

  lemma PlainReplyValidIff(little: bool, h: seq<byte>)
    requires |h| == IP_LEN
    ensures Accepted(Words(little, IpReply(little, h))) <==> IsMulticast(h[16..20]) || Accepted(Words(little, h))
  {
    IpReplyValidIff(little, h, []);
    AddNothing(h);
    AddNothing(IpReply(little, h));
  }

  lemma OptionsReplyValidIff(little: bool, h: seq<byte>, options: seq<byte>)
    requires |h| == IP_LEN && h[9] == IPPROTO_ICMP
    requires |options| >= 4 && options[0] == ICMP_ECHO_REQUEST && options[1] == 0
    ensures Accepted(Words(little, IpReply(little, h) + IcmpReply(little, options))) <==>
              if IsMulticast(h[16..20]) then Sum(Words(little, options)) % 0xFFFF == 0
              else Accepted(Words(little, h + options))
  {
    IpReplyValidIff(little, h, options);
    ReplyHeaderNotZero(little, h);
    OptionsRewritten(little, IpReply(little, h), options);
  }

  /** For every packet that gets to the rewrite and every header length: the header left in
      the buffer is as valid as it was when the addresses are swapped; in the multicast
      branch it is valid exactly when the option words it came with sum to zero. */
  lemma ReplyHeaderValidIff(little: bool, p: seq<byte>, l2: nat, hl: nat)
    requires ETHER_LEN <= l2 && |p| >= l2 + IP_LEN + 4 && TakenForEcho(p, l2)
    requires IP_LEN <= hl <= 60 && hl % 4 == 0 && l2 + hl <= |p|
    ensures Accepted(Words(little, HeaderOf(Reply(little, p, l2), l2, hl))) <==>
              if IsMulticast(p[l2 + 16..l2 + 20]) then Sum(Words(little, p[l2 + IP_LEN..l2 + hl])) % 0xFFFF == 0
              else Accepted(Words(little, HeaderOf(p, l2, hl)))
  {
    var h, options := HeaderOf(p, l2, IP_LEN), p[l2 + IP_LEN..l2 + hl];
    SliceOfHeader(p, l2, hl);
    if hl == IP_LEN {
      PlainHeader(little, p, l2);
      PlainReplyValidIff(little, h);
      assert options == [];
    } else {
      HeaderWithOptions(little, p, l2, hl, options);
      OptionsReplyValidIff(little, h, options);
    }
  }

  /** With options the message behind the header is not the one rewritten: it stays a request. */
  lemma OptionsShieldMessage(little: bool, p: seq<byte>, l2: nat, hl: nat)
    requires ETHER_LEN <= l2 && IP_LEN + 4 <= hl && l2 + hl <= |p|
    ensures Reply(little, p, l2)[l2 + hl..] == p[l2 + hl..]
  {
    var icmp, n := p[l2 + IP_LEN..], hl - IP_LEN;
    assert Reply(little, p, l2)[l2 + hl..] == IcmpReply(little, icmp)[n..];
    assert IcmpReply(little, icmp)[n..] == icmp[4..][n - 4..];
  }

  /** Every multicast echo request whose options do not sum to zero ends with a bad header. */
  lemma BadOptionsFail(little: bool, p: seq<byte>, l2: nat, hl: nat, options: seq<byte>)
    requires ETHER_LEN <= l2 && |p| >= l2 + IP_LEN + 4 && TakenForEcho(p, l2)
    requires IP_LEN <= hl <= 60 && hl % 4 == 0 && l2 + hl <= |p| && options == p[l2 + IP_LEN..l2 + hl]
    requires p[l2 + 16] == 0xE0 && Sum(Words(little, options)) % 0xFFFF != 0
    ensures !Accepted(Words(little, HeaderOf(Reply(little, p, l2), l2, hl)))
  {
    ReplyHeaderValidIff(little, p, l2, hl);
  }

  lemma HeaderSum(little: bool, h: seq<byte>)
    requires |h| == IP_LEN
    ensures Sum(Words(little, h))
         == WordOf(little, h[0], h[1]) as int + WordOf(little, h[2], h[3]) + WordOf(little, h[4], h[5])
          + WordOf(little, h[6], h[7]) + WordOf(little, h[8], h[9]) + WordOf(little, h[10], h[11])
          + WordOf(little, h[12], h[13]) + WordOf(little, h[14], h[15]) + WordOf(little, h[16], h[17])
          + WordOf(little, h[18], h[19])
  {
    SumTen(Words(little, h));
    WordAt(little, h, 0); WordAt(little, h, 1); WordAt(little, h, 2); WordAt(little, h, 3); WordAt(little, h, 4);
    WordAt(little, h, 5); WordAt(little, h, 6); WordAt(little, h, 7); WordAt(little, h, 8); WordAt(little, h, 9);
  }

  /** A header for 224.0.0.1, and four bytes of options that look like the start of an echo request. */
  const MULTICAST_HEADER: seq<byte> :=
    [0x46, 0, 0, 0x20, 0, 0, 0, 0, 0x40, 1, 0x87, 0xDB, 10, 0, 0, 1, 0xE0, 0, 0, 1]
  const ECHO_OPTIONS: seq<byte> := [8, 0, 0, 0]

  lemma ExampleHeaderSum()
    ensures Sum(Words(false, MULTICAST_HEADER)) == 0x1_F7FE
  {
    HeaderSum(false, MULTICAST_HEADER);
  }

  lemma ExampleOptionsSum()
    ensures Sum(Words(false, ECHO_OPTIONS)) == 0x800
  {
    MessageSum(false, ECHO_OPTIONS);
    assert ECHO_OPTIONS[4..] == [];
  }

  lemma AcceptedBySums(little: bool, h: seq<byte>, options: seq<byte>)
    requires |h| == IP_LEN && Sum(Words(little, h)) + Sum(Words(little, options)) == 2 * 0xFFFF
    ensures Accepted(Words(little, h + options))
  {
    WordsConcat(little, h, options);
    SumConcat(Words(little, h), Words(little, options));
    OnesSumIsCanon(Words(little, h + options));
    CanonOf(2 * 0xFFFF, 2, 0);
  }

  lemma PacketParts(eth: seq<byte>, h: seq<byte>, options: seq<byte>, body: seq<byte>)
    requires |eth| == ETHER_LEN && |h| == IP_LEN && |options| == 4
    ensures var p := eth + h + options + body;
            && p[ETHER_LEN] == h[0] && p[ETHER_LEN + 9] == h[9] && p[ETHER_LEN + 16] == h[16]
            && p[ETHER_LEN + IP_LEN] == options[0] && p[ETHER_LEN + IP_LEN + 1] == options[1]
            && p[ETHER_LEN + IP_LEN..ETHER_LEN + 24] == options
            && HeaderOf(p, ETHER_LEN, 24) == h + options
  {
  }

  /** In a packet, its header of 24 bytes is valid and is taken for an echo request; the
      rewrite leaves it invalid. */
  lemma MulticastOptionsFail(eth: seq<byte>, body: seq<byte>)
    requires |eth| == ETHER_LEN
    ensures var p := eth + MULTICAST_HEADER + ECHO_OPTIONS + body;
            && TakenForEcho(p, ETHER_LEN) && p[ETHER_LEN] % 16 * 4 == 24
            && Accepted(Words(false, HeaderOf(p, ETHER_LEN, 24)))
            && !Accepted(Words(false, HeaderOf(Reply(false, p, ETHER_LEN), ETHER_LEN, 24)))
  {
    var p := eth + MULTICAST_HEADER + ECHO_OPTIONS + body;
    PacketParts(eth, MULTICAST_HEADER, ECHO_OPTIONS, body);
    ExampleHeaderSum();
    ExampleOptionsSum();
    AcceptedBySums(false, MULTICAST_HEADER, ECHO_OPTIONS);
    BadOptionsFail(false, p, ETHER_LEN, 24, ECHO_OPTIONS);
  }
}
