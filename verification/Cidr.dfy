/**
  The prefix matchers of the forwarder: the SPF one for IPv4 and IPv6 addresses and the
  blocklist one for IPv4. Machine words are natural numbers; an operator that can leave its
  word is followed by `Low`, which keeps the word's low bits.
 */
module Cidr {
  import opened Powers

  /** The `n` low bits of a number. */
  function Low(x: nat, n: nat): nat {
    if n == 0 then 0 else 2 * Low(x / 2, n - 1) + x % 2
  }

  /** What is left of a number after dropping its `n` low bits. */
  function High(x: nat, n: nat): nat {
    if n == 0 then x else High(x / 2, n - 1)
  }

  /** Appending `n` zero bits. */
  function ShiftUp(x: nat, n: nat): nat {
    if n == 0 then x else 2 * ShiftUp(x, n - 1)
  }

  /** Bitwise AND, bit by bit from the least significant one. */
  function BitAnd(a: nat, b: nat): nat {
    if a == 0 || b == 0 then 0
    else 2 * BitAnd(a / 2, b / 2) + (if a % 2 == 1 && b % 2 == 1 then 1 else 0)
  }

  /** Left shift in a word of `width` bits; the bits shifted out are lost. */
  function Shl(x: nat, n: nat, width: nat): nat {
    Low(ShiftUp(x, n), width)
  }

  /** Bitwise NOT in a word of `width` bits. */
  function BitNot(x: nat, width: nat): nat
    requires x < Pow2(width)
  {
    Pow2(width) - 1 - x
  }

  /** `!((1 << k) - 1)` in a word of `width` bits. */
  function NotMask(k: nat, width: nat): nat
    requires k < width
  {
    ShlOne(k, width);
    BitNot(Shl(1, k, width) - 1, width)
  }

  /** A prefix match on words of `width` bits whose mask is built in a word of `built` bits. */
  predicate MatchWord(a: nat, b: nat, prefix: nat, width: nat, built: nat)
    requires width <= built
  {
    var capped := Min(prefix, width);
    if capped == 0 then true
    else if capped == width then a == b
    else
      var mask := Low(NotMask(width - capped, built), width);
      BitAnd(a, mask) == BitAnd(b, mask)
  }

  /** The IPv4 branch: the mask is built in 64 bits and truncated to 32. */
  predicate MatchV4(a: nat, b: nat, prefix: nat) {
    MatchWord(a, b, prefix, 32, 64)
  }

  /** The IPv6 branch: the mask is built in 128 bits, where truncation changes nothing. */
  predicate MatchV6(a: nat, b: nat, prefix: nat) {
    MatchWord(a, b, prefix, 128, 128)
  }

  /** A prefix match whose mask is an all-ones word shifted left. */
  predicate ShiftMatchWord(network: nat, prefix: nat, ip: nat, width: nat) {
    if prefix == 0 then true
    else if prefix >= width then ip == network
    else
      var mask := Shl(Pow2(width) - 1, width - prefix, width);
      BitAnd(ip, mask) == BitAnd(network, mask)
  }

  /** The blocklist matcher. */
  predicate SubnetContains(network: nat, prefix: nat, ip: nat) {
    ShiftMatchWord(network, prefix, ip, 32)
  }

  // ---------- low and high bits are remainder and quotient ----------

  lemma {:induction false} TimesAtLeast(d: nat, n: nat)
    requires n >= 1
    ensures d * n >= d
  {
    if n <= 1 {
    } else {
      TimesAtLeast(d, n - 1);
      assert d * n == d * (n - 1) + d;
    }
  }

  lemma TimesMonotone(d: nat, x: nat, y: nat)
    requires x < y
    ensures d * x + d <= d * y
  {
    TimesAtLeast(d, y - x);
    assert d * y == d * x + d * (y - x);
  }

  lemma DivisionUnique(d: nat, q: nat, r: nat, q': nat, r': nat)
    requires d > 0 && r < d && r' < d && d * q + r == d * q' + r'
    ensures q == q' && r == r'
  {
    if q < q' { TimesMonotone(d, q, q'); }
    if q' < q { TimesMonotone(d, q', q); }
  }

  lemma QuotientUnique(a: nat, d: nat, q: nat, r: nat)
    requires d > 0 && a == d * q + r && r < d
    ensures a / d == q && a % d == r
  {
    assert a == d * (a / d) + a % d;
    DivisionUnique(d, q, r, a / d, a % d);
  }

  lemma TwiceInside(x: nat, p: nat)
    ensures 2 * (p * x) == (2 * p) * x
  {
  }

  lemma {:induction false} LowAndHigh(x: nat, n: nat)
    ensures Low(x, n) < Pow2(n)
    ensures x == Pow2(n) * High(x, n) + Low(x, n)
  {
    if n == 0 {
    } else {
      LowAndHigh(x / 2, n - 1);
      TwiceInside(High(x, n), Pow2(n - 1));
    }
  }

  /** Keeping and dropping low bits are remainder and quotient by a power of two. */
  lemma LowIsRemainder(x: nat, n: nat)
    ensures Low(x, n) == x % Pow2(n)
    ensures High(x, n) == x / Pow2(n)
  {
    LowAndHigh(x, n);
    QuotientUnique(x, Pow2(n), High(x, n), Low(x, n));
  }

  lemma {:induction false} LowOfWord(x: nat, n: nat)
    requires x < Pow2(n)
    ensures Low(x, n) == x && High(x, n) == 0
  {
    if n == 0 {
    } else {
      LowOfWord(x / 2, n - 1);
    }
  }

  lemma {:induction false} HighTwice(x: nat, m: nat, n: nat)
    ensures High(High(x, m), n) == High(x, m + n)
  {
    if m == 0 {
    } else {
      HighTwice(x / 2, m - 1, n);
    }
  }

  // ---------- the masks ----------

  lemma {:induction false} ShiftedOne(k: nat)
    ensures ShiftUp(1, k) == Pow2(k)
  {
    if k == 0 {
    } else {
      ShiftedOne(k - 1);
    }
  }

  lemma ShlOne(k: nat, width: nat)
    requires k < width
    ensures Shl(1, k, width) == Pow2(k) < Pow2(width)
  {
    ShiftedOne(k);
    PowMonotone(k, width);
    LowOfWord(Pow2(k), width);
  }

  /** A word of `n` bits whose bits from position `k` up are set. */
  function HighOnes(k: nat, n: nat): nat {
    if n == 0 then 0
    else if k == 0 then 2 * HighOnes(0, n - 1) + 1
    else 2 * HighOnes(k - 1, n - 1)
  }

  lemma {:induction false} HighOnesValue(k: nat, n: nat)
    requires k <= n
    ensures HighOnes(k, n) + Pow2(k) == Pow2(n)
  {
    if k != 0 {
      HighOnesValue(k - 1, n - 1);
    } else if n != 0 {
      HighOnesValue(0, n - 1);
    }
  }

  /** Truncating a run of high ones to a shorter word leaves a run of high ones. */
  lemma {:induction false} TruncatedOnes(k: nat, width: nat, longer: nat)
    requires width <= longer
    ensures Low(HighOnes(k, longer), width) == HighOnes(k, width)
  {
    if width == 0 {
    } else {
      TruncatedOnes(if k == 0 then 0 else k - 1, width - 1, longer - 1);
    }
  }

  lemma {:induction false} ShiftedOnes(k: nat, width: nat)
    ensures ShiftUp(Pow2(width) - 1, k) == HighOnes(k, width + k)
  {
    if k == 0 {
      HighOnesValue(0, width);
    } else {
      ShiftedOnes(k - 1, width);
    }
  }

  /** The ways of building a mask give the same run of high ones. */
  lemma MasksAgree(k: nat, width: nat, built: nat)
    requires k < width <= built
    ensures Low(NotMask(k, built), width) == HighOnes(k, width)
    ensures Shl(Pow2(width) - 1, k, width) == HighOnes(k, width)
  {
    assert NotMask(k, built) == HighOnes(k, built) by {
      ShlOne(k, built);
      HighOnesValue(k, built);
    }
    TruncatedOnes(k, width, built);
    ShiftedOnes(k, width);
    TruncatedOnes(k, width, width + k);
  }

  lemma AndDoubled(a: nat, b: nat)
    ensures BitAnd(a, 2 * b) == 2 * BitAnd(a / 2, b)
    ensures BitAnd(a, 2 * b + 1) == 2 * BitAnd(a / 2, b) + a % 2
  {
    assert (2 * b) / 2 == b && (2 * b) % 2 == 0;
    assert (2 * b + 1) / 2 == b && (2 * b + 1) % 2 == 1;
  }

  /** ANDing with a run of high ones clears exactly the `k` low bits. */
  lemma {:induction false} AndHighOnes(a: nat, k: nat, width: nat)
    requires k <= width && a < Pow2(width)
    ensures BitAnd(a, HighOnes(k, width)) == ShiftUp(High(a, k), k)
  {
    if k != 0 {
      AndHighOnes(a / 2, k - 1, width - 1);
      AndDoubled(a, HighOnes(k - 1, width - 1));
    } else if width != 0 {
      AndHighOnes(a / 2, 0, width - 1);
      AndDoubled(a, HighOnes(0, width - 1));
    }
  }

  lemma {:induction false} ShiftUpInjective(x: nat, y: nat, k: nat)
    ensures ShiftUp(x, k) == ShiftUp(y, k) <==> x == y
  {
    if k == 0 {
    } else {
      ShiftUpInjective(x, y, k - 1);
    }
  }

  // ---------- what matching means ----------

  /** Two addresses agree in their first `prefix` bits: equal quotients by a power of two. */
  predicate SamePrefix(a: nat, b: nat, prefix: nat, width: nat)
    requires prefix <= width
  {
    a / Pow2(width - prefix) == b / Pow2(width - prefix)
  }

  lemma SamePrefixByHigh(a: nat, b: nat, prefix: nat, width: nat)
    requires prefix <= width
    ensures SamePrefix(a, b, prefix, width) <==> High(a, width - prefix) == High(b, width - prefix)
  {
    LowIsRemainder(a, width - prefix);
    LowIsRemainder(b, width - prefix);
  }

  lemma MaskedEqual(a: nat, b: nat, k: nat, width: nat)
    requires k <= width && a < Pow2(width) && b < Pow2(width)
    ensures BitAnd(a, HighOnes(k, width)) == BitAnd(b, HighOnes(k, width)) <==> High(a, k) == High(b, k)
  {
    AndHighOnes(a, k, width);
    AndHighOnes(b, k, width);
    ShiftUpInjective(High(a, k), High(b, k), k);
  }

  lemma MatchWordIsPrefixEquality(a: nat, b: nat, prefix: nat, width: nat, built: nat)
    requires width <= built && a < Pow2(width) && b < Pow2(width)
    ensures MatchWord(a, b, prefix, width, built) <==> SamePrefix(a, b, Min(prefix, width), width)
  {
    var capped := Min(prefix, width);
    SamePrefixByHigh(a, b, capped, width);
    if capped == 0 {
      LowOfWord(a, width);
      LowOfWord(b, width);
    } else if capped < width {
      MasksAgree(width - capped, width, built);
      MaskedEqual(a, b, width - capped, width);
    }
  }

  /** IPv4 matching compares the leading `min(prefix, 32)` bits, for every prefix. */
  lemma MatchV4IsPrefixEquality(a: nat, b: nat, prefix: nat)
    requires a < Pow2(32) && b < Pow2(32)
    ensures MatchV4(a, b, prefix) <==> SamePrefix(a, b, Min(prefix, 32), 32)
  {
    MatchWordIsPrefixEquality(a, b, prefix, 32, 64);
  }

  /** IPv6 matching compares the leading `min(prefix, 128)` bits, for every prefix. */
  lemma MatchV6IsPrefixEquality(a: nat, b: nat, prefix: nat)
    requires a < Pow2(128) && b < Pow2(128)
    ensures MatchV6(a, b, prefix) <==> SamePrefix(a, b, Min(prefix, 128), 128)
  {
    MatchWordIsPrefixEquality(a, b, prefix, 128, 128);
  }

  lemma WordMatchersAgree(network: nat, prefix: nat, ip: nat, width: nat, built: nat)
    requires 0 < width <= built
    ensures ShiftMatchWord(network, prefix, ip, width) <==> MatchWord(ip, network, prefix, width, built)
  {
    if 0 < prefix < width {
      MasksAgree(width - prefix, width, built);
    }
  }

  /** The blocklist and the SPF matcher agree on every address, network and prefix. */
  lemma MatchersAgree(network: nat, prefix: nat, ip: nat)
    ensures SubnetContains(network, prefix, ip) <==> MatchV4(ip, network, prefix)
  {
    WordMatchersAgree(network, prefix, ip, 32, 64);
  }

  /** Addresses that agree on a long prefix agree on every shorter one. */
  lemma ShorterPrefixIsWeaker(a: nat, b: nat, short: nat, long: nat, width: nat)
    requires short <= long <= width
    requires SamePrefix(a, b, long, width)
    ensures SamePrefix(a, b, short, width)
  {
    SamePrefixByHigh(a, b, long, width);
    SamePrefixByHigh(a, b, short, width);
    HighTwice(a, width - long, long - short);
    HighTwice(b, width - long, long - short);
  }

  lemma ShorterWordMatches(a: nat, b: nat, short: nat, long: nat, width: nat, built: nat)
    requires short <= long && width <= built && a < Pow2(width) && b < Pow2(width)
    requires MatchWord(a, b, long, width, built)
    ensures MatchWord(a, b, short, width, built)
  {
    MatchWordIsPrefixEquality(a, b, long, width, built);
    MatchWordIsPrefixEquality(a, b, short, width, built);
    ShorterPrefixIsWeaker(a, b, Min(short, width), Min(long, width), width);
  }

  /** Matching a longer prefix implies matching every shorter one, prefixes beyond the width included. */
  lemma ShorterPrefixMatches(a: nat, b: nat, short: nat, long: nat)
    requires short <= long
    ensures a < Pow2(32) && b < Pow2(32) && MatchV4(a, b, long) ==> MatchV4(a, b, short)
    ensures a < Pow2(128) && b < Pow2(128) && MatchV6(a, b, long) ==> MatchV6(a, b, short)
  {
    hide Pow2, MatchWord;
    if a < Pow2(32) && b < Pow2(32) && MatchV4(a, b, long) {
      ShorterWordMatches(a, b, short, long, 32, 64);
    }
    if a < Pow2(128) && b < Pow2(128) && MatchV6(a, b, long) {
      ShorterWordMatches(a, b, short, long, 128, 128);
    }
  }
}
