/** The two IPv4 header checksum routines: ip_sum of the flow generator, with its deferred
    folding, and ipv4_hdr_cksum of the echo responder, which skips the checksum word. */
module HeaderChecksums {
  import opened OnesComplement

  const CHECKSUM_WORD: nat := 5
  const IPV4_WORDS: nat := 10

  /** 32-bit accumulation: never wraps, for a header of any length, and both loops end. */
  method IpSum(hdr: seq<word>, hdrLen: int) returns (r: word)
    requires hdrLen / 2 <= |hdr|
    ensures r == 0xFFFF - OnesSum(hdr[..if hdrLen < 0 then 0 else hdrLen / 2])
  {
    ghost var n := if hdrLen < 0 then 0 else hdrLen / 2;
    var sum: nat := 0;
    var i, left := 0, hdrLen;
    while left > 1
      invariant 0 <= i <= n && (left == hdrLen - 2 * i)
      invariant sum < 0x8000_0000 && Canon(sum) == Canon(Sum(hdr[..i]))
      decreases left
    {
      assert hdr[..i + 1] == hdr[..i] + [hdr[i]];
      SumConcat(hdr[..i], [hdr[i]]);
      SumOne(hdr[i]);
      CanonAdd(sum, Sum(hdr[..i]), hdr[i]);
      sum := sum + hdr[i];
      assert sum < 0x1_0000_0000;
      if sum >= 0x8000_0000 {
        FoldKeeps(sum);
        sum := sum % 0x1_0000 + sum / 0x1_0000;
      }
      i, left := i + 1, left - 2;
    }
    while sum / 0x1_0000 != 0
      invariant Canon(sum) == Canon(Sum(hdr[..n]))
      decreases sum
    {
      FoldKeeps(sum);
      sum := sum % 0x1_0000 + sum / 0x1_0000;
    }
    OnesSumIsCanon(hdr[..n]);
    r := 0xFFFF - sum;
  }

  lemma CanonAdd(a: nat, b: nat, w: word)
    requires Canon(a) == Canon(b)
    ensures Canon(a + w) == Canon(b + w)
  {
    CanonStep(a, w);
    CanonStep(b, w);
  }

  /** The value of ipv4_hdr_cksum on the first ten words of a header. */
  function Ipv4HdrCksum(h: seq<word>): (r: word)
    requires |h| == IPV4_WORDS
  {
    var sum: nat := h[0] as int + h[1] + h[2] + h[3] + h[4] + h[6] + h[7] + h[8] + h[9];
    var once := sum % 0x1_0000 + sum / 0x1_0000;
    var twice := once % 0x1_0000 + once / 0x1_0000;
    TwoFoldsSuffice(sum);
    if twice == 0xFFFF then 0xFFFF else 0xFFFF - twice
  }

  lemma TwoFoldsSuffice(s: nat)
    requires s <= 9 * 0xFFFF
    ensures Fold(Fold(s)) == Canon(s)
  {
    FoldKeeps(s);
    FoldKeeps(Fold(s));
    FoldExact(s);
    FoldExact(Fold(s));
    CanonSmall(Fold(Fold(s)));
  }

  lemma CanonSmall(s: nat)
    requires s <= 0xFFFF
    ensures Canon(s) == s
  {
  }

  lemma SumTen(h: seq<word>)
    requires |h| == IPV4_WORDS
    ensures Sum(h) == h[0] as int + h[1] + h[2] + h[3] + h[4] + h[5] + h[6] + h[7] + h[8] + h[9]
  {
    SumPrefix(h, 10); SumPrefix(h, 9); SumPrefix(h, 8); SumPrefix(h, 7); SumPrefix(h, 6);
    SumPrefix(h, 5); SumPrefix(h, 4); SumPrefix(h, 3); SumPrefix(h, 2); SumPrefix(h, 1);
    assert h[..10] == h && Sum(h[..0]) == 0;
  }

  lemma SumPrefix(h: seq<word>, k: nat)
    requires 0 < k <= |h|
    ensures Sum(h[..k]) == Sum(h[..k - 1]) + h[k - 1]
  {
    assert h[..k][..k - 1] == h[..k - 1];
  }

  /** On a 20-byte header with a zero checksum field the two routines agree, except that
      ipv4_hdr_cksum writes the zero checksum as all ones. */
  lemma RoutinesAgree(h: seq<word>)
    requires |h| == IPV4_WORDS
    ensures var zeroed := h[CHECKSUM_WORD := 0];
            var ipSum := 0xFFFF - OnesSum(zeroed);
            Ipv4HdrCksum(h) == if ipSum == 0 then 0xFFFF else ipSum
  {
    var zeroed := h[CHECKSUM_WORD := 0];
    SumTen(zeroed);
    OnesSumIsCanon(zeroed);
    TwoFoldsSuffice(Sum(zeroed));
  }

  /** A header of any length that gets ip_sum of its zeroed self as checksum is accepted. */
  lemma IpSumIsAccepted(h: seq<word>)
    requires |h| > CHECKSUM_WORD
    ensures var zeroed := h[CHECKSUM_WORD := 0]; Accepted(zeroed[CHECKSUM_WORD := 0xFFFF - OnesSum(zeroed)])
  {
    var zeroed := h[CHECKSUM_WORD := 0];
    var c := 0xFFFF - OnesSum(zeroed);
    SumReplace(zeroed, CHECKSUM_WORD, c);
    OnesSumIsCanon(zeroed);
    AcceptedIff(zeroed[CHECKSUM_WORD := c]);
    ComplementCancels(Sum(zeroed));
  }

  lemma ComplementCancels(s: nat)
    ensures s + (0xFFFF - Canon(s)) > 0 && (s + (0xFFFF - Canon(s))) % 0xFFFF == 0
  {
    var q, r := s / 0xFFFF, s % 0xFFFF;
    assert s == 0xFFFF * q + r;
    if s == 0 {
      ModPeriod(1, 0);
    } else {
      CanonOf(s, q, r);
      var k := if r == 0 then q else q + 1;
      assert s + (0xFFFF - Canon(s)) == 0xFFFF * k + 0;
      ModPeriod(k, 0);
    }
  }

  lemma SumReplace(h: seq<word>, k: nat, w: word)
    requires k < |h|
    ensures Sum(h[k := w]) == Sum(h) - h[k] + w
  {
    assert h == h[..k] + ([h[k]] + h[k + 1..]);
    assert h[k := w] == h[..k] + ([w] + h[k + 1..]);
    SumConcat(h[..k], [h[k]] + h[k + 1..]);
    SumConcat(h[..k], [w] + h[k + 1..]);
    SumConcat([h[k]], h[k + 1..]);
    SumConcat([w], h[k + 1..]);
    SumOne(h[k]);
    SumOne(w);
  }

  /** A header whose first ten words get the ipv4_hdr_cksum: it is accepted exactly when the
      option words, which the routine never adds, contribute nothing. */
  lemma RecomputedAcceptedIff(h: seq<word>, options: seq<word>)
    requires |h| == IPV4_WORDS
    ensures Accepted(h[CHECKSUM_WORD := Ipv4HdrCksum(h)] + options) <==> Sum(options) % 0xFFFF == 0
  {
    var zeroed := h[CHECKSUM_WORD := 0];
    var c := Ipv4HdrCksum(h);
    RoutinesAgree(h);
    OnesSumIsCanon(zeroed);
    SumReplace(zeroed, CHECKSUM_WORD, c);
    assert zeroed[CHECKSUM_WORD := c] == h[CHECKSUM_WORD := c];
    ComplementCancels(Sum(zeroed));
    var base := Sum(h[CHECKSUM_WORD := c]);
    assert base > 0 && base % 0xFFFF == 0;
    SumConcat(h[CHECKSUM_WORD := c], options);
    AcceptedIff(h[CHECKSUM_WORD := c] + options);
    ModPeriod(base / 0xFFFF, Sum(options));
    assert base == 0xFFFF * (base / 0xFFFF);
  }
}
