/** 16-bit one's-complement sums, as section 1 of RFC 1071 defines them. */
module OnesComplement {
  type byte = x: int | 0 <= x < 0x100
  type word = x: int | 0 <= x < 0x1_0000

  /** Addition with end-around carry. */
  function OnesAdd(a: word, b: word): word
  {
    if a + b > 0xFFFF then a + b - 0xFFFF else a + b
  }

  function OnesSum(words: seq<word>): word
  {
    if words == [] then 0 else OnesAdd(OnesSum(words[..|words| - 1]), words[|words| - 1])
  }

  /** A checksummed block is accepted when its one's-complement sum is all ones. */
  predicate Accepted(words: seq<word>)
  {
    OnesSum(words) == 0xFFFF
  }

  function Sum(words: seq<word>): nat
  {
    if words == [] then 0 else Sum(words[..|words| - 1]) + words[|words| - 1]
  }

  /** The one's-complement representative of a plain sum: 0 stands only for 0. */
  function Canon(s: nat): word
  {
    if s == 0 then 0 else if s % 0xFFFF == 0 then 0xFFFF else s % 0xFFFF
  }

  /** Canon from an explicit quotient and remainder. */
  lemma CanonOf(s: nat, q: nat, r: nat)
    requires s == 0xFFFF * q + r && r < 0xFFFF && s > 0
    ensures Canon(s) == if r == 0 then 0xFFFF else r
  {
    ModPeriod(q, r);
  }

  /** End-around carry keeps up with a plain sum. */
  lemma CanonStep(s: nat, w: word)
    ensures Canon(s + w) == OnesAdd(Canon(s), w)
  {
    var q, r := s / 0xFFFF, s % 0xFFFF;
    assert s == 0xFFFF * q + r;
    if s > 0 { CanonOf(s, q, r); }
    if s + w == 0 {
    } else if r + w < 0xFFFF {
      CanonOf(s + w, q, r + w);
    } else {
      CanonOf(s + w, q + 1, r + w - 0xFFFF);
    }
  }

  lemma {:induction false} OnesSumIsCanon(words: seq<word>)
    ensures OnesSum(words) == Canon(Sum(words))
  {
    if words != [] {
      var init := words[..|words| - 1];
      OnesSumIsCanon(init);
      CanonStep(Sum(init), words[|words| - 1]);
    }
  }

  lemma AcceptedIff(words: seq<word>)
    ensures Accepted(words) <==> Sum(words) > 0 && Sum(words) % 0xFFFF == 0
  {
    OnesSumIsCanon(words);
  }

  lemma {:induction false} SumConcat(a: seq<word>, b: seq<word>)
    ensures Sum(a + b) == Sum(a) + Sum(b)
  {
    if b == [] {
      assert a + b == a;
    } else {
      var init, x := b[..|b| - 1], b[|b| - 1];
      SumConcat(a, init);
      assert (a + b)[..|a + b| - 1] == a + init;
    }
  }

  lemma OnesAddAssociative(a: word, b: word, c: word)
    ensures OnesAdd(OnesAdd(a, b), c) == OnesAdd(a, OnesAdd(b, c))
  {
  }

  lemma {:induction false} OnesSumConcat(a: seq<word>, b: seq<word>)
    ensures OnesSum(a + b) == OnesAdd(OnesSum(a), OnesSum(b))
  {
    if b == [] {
      assert a + b == a;
    } else {
      var init, x := b[..|b| - 1], b[|b| - 1];
      OnesSumConcat(a, init);
      assert (a + b)[..|a + b| - 1] == a + init;
      OnesAddAssociative(OnesSum(a), OnesSum(init), x);
    }
  }

  /** The same number but for its two representations of zero. */
  predicate SameNumber(x: word, y: word)
  {
    x == y || (x == 0 && y == 0xFFFF) || (x == 0xFFFF && y == 0)
  }

  lemma SameRemainder(x: nat, y: nat)
    requires x % 0xFFFF == y % 0xFFFF
    ensures SameNumber(Canon(x), Canon(y))
  {
  }

  lemma {:induction false} SumZeroIff(words: seq<word>)
    ensures Sum(words) == 0 <==> forall i :: 0 <= i < |words| ==> words[i] == 0
  {
    if words != [] {
      var init := words[..|words| - 1];
      SumZeroIff(init);
      if forall i :: 0 <= i < |words| ==> words[i] == 0 {
        assert forall i :: 0 <= i < |init| ==> init[i] == words[i];
      }
      if Sum(words) == 0 {
        forall i | 0 <= i < |words|
          ensures words[i] == 0
        {
          assert i < |init| ==> words[i] == init[i];
        }
      }
    }
  }

  /** The low half of a 32-bit sum plus its high half. */
  function Fold(s: nat): nat
  {
    s % 0x1_0000 + s / 0x1_0000
  }

  lemma FoldKeeps(s: nat)
    ensures Fold(s) % 0xFFFF == s % 0xFFFF && (Fold(s) == 0 <==> s == 0) && Fold(s) <= s
    ensures Canon(Fold(s)) == Canon(s)
    ensures s > 0xFFFF ==> Fold(s) < s
    ensures s < 0x1_0000_0000 ==> Fold(s) <= 0x1_FFFE
  {
    var h, l := s / 0x1_0000, s % 0x1_0000;
    assert s == 0xFFFF * h + Fold(s);
    ModPeriod(h, Fold(s));
  }

  lemma FoldExact(s: nat)
    ensures Fold(s) == s - 0xFFFF * (s / 0x1_0000)
  {
  }

  lemma {:induction false} ModPeriod(h: nat, x: nat)
    ensures (0xFFFF * h + x) % 0xFFFF == x % 0xFFFF
  {
    if h > 0 {
      ModPeriod(h - 1, x);
      assert 0xFFFF * h + x == (0xFFFF * (h - 1) + x) + 0xFFFF;
    }
  }

  // ---------- words in the order in which the host reads them ----------

  /** Two bytes in memory as the host's 16-bit word. */
  function WordOf(little: bool, b0: byte, b1: byte): word
  {
    if little then b0 + 0x100 * b1 else 0x100 * b0 + b1
  }

  /** The bytes of a block as words; an odd last byte is padded with zero. */
  function Words(little: bool, bytes: seq<byte>): (r: seq<word>)
    ensures |r| == (|bytes| + 1) / 2
  {
    if bytes == [] then []
    else if |bytes| == 1 then [WordOf(little, bytes[0], 0)]
    else [WordOf(little, bytes[0], bytes[1])] + Words(little, bytes[2..])
  }

  lemma {:induction false} WordsConcat(little: bool, a: seq<byte>, b: seq<byte>)
    requires |a| % 2 == 0
    ensures Words(little, a + b) == Words(little, a) + Words(little, b)
  {
    if a == [] {
      assert a + b == b;
    } else {
      var w, rest := [WordOf(little, a[0], a[1])], a[2..];
      WordsConcat(little, rest, b);
      assert (a + b)[2..] == rest + b && (a + b)[0] == a[0] && (a + b)[1] == a[1];
      assert Words(little, a + b) == w + Words(little, rest + b);
      assert w + (Words(little, rest) + Words(little, b)) == (w + Words(little, rest)) + Words(little, b);
    }
  }

  lemma {:induction false} WordsZeroIff(little: bool, bytes: seq<byte>)
    ensures Sum(Words(little, bytes)) == 0 <==> forall i :: 0 <= i < |bytes| ==> bytes[i] == 0
  {
    if |bytes| == 1 {
      SumOne(WordOf(little, bytes[0], 0));
    } else if |bytes| > 1 {
      WordsZeroIff(little, bytes[2..]);
      SumConcat([WordOf(little, bytes[0], bytes[1])], Words(little, bytes[2..]));
      SumOne(WordOf(little, bytes[0], bytes[1]));
      assert forall i :: 2 <= i < |bytes| ==> bytes[i] == bytes[2..][i - 2];
      assert forall i :: 0 <= i < |bytes| - 2 ==> bytes[2..][i] == bytes[i + 2];
    }
  }

  lemma SumOne(w: word)
    ensures Sum([w]) == w
  {
    assert [w][..0] == [];
  }

  lemma SumTwo(little: bool, b0: byte, b1: byte, rest: seq<byte>)
    ensures Sum(Words(little, [b0, b1] + rest)) == WordOf(little, b0, b1) + Sum(Words(little, rest))
  {
    assert ([b0, b1] + rest)[2..] == rest;
    SumConcat([WordOf(little, b0, b1)], Words(little, rest));
    SumOne(WordOf(little, b0, b1));
  }
}
