/**
  The string operations of the Rust standard library that the mail forwarder leans on:
  ASCII case mapping, trimming, searching, splitting and decimal numbers.
  A byte is modelled as one `char`, so lengths are byte lengths.
 */
module Text {

  datatype Option<+T> = None | Some(value: T) {
    function GetOr(default: T): T {
      if Some? then value else default
    }
  }

  /** The first `n` elements, or all of them if there are fewer. */
  function Take<T>(s: seq<T>, n: nat): seq<T> {
    if n <= |s| then s[..n] else s
  }

  predicate Distinct<T(==)>(s: seq<T>) {
    forall i, j :: 0 <= i < j < |s| ==> s[i] != s[j]
  }

  // ---------- case ----------

  function LowerChar(c: char): char {
    if 'A' <= c <= 'Z' then (c as int + 32) as char else c
  }

  function UpperChar(c: char): char {
    if 'a' <= c <= 'z' then (c as int - 32) as char else c
  }

  /** `str::to_lowercase` on ASCII text. */
  function Lower(s: string): (r: string)
    ensures |r| == |s|
  {
    seq(|s|, i requires 0 <= i < |s| => LowerChar(s[i]))
  }

  /** `str::to_uppercase` on ASCII text. */
  function Upper(s: string): (r: string)
    ensures |r| == |s|
  {
    seq(|s|, i requires 0 <= i < |s| => UpperChar(s[i]))
  }

  /** Only the 26 letters have two cases. */
  lemma LetterCases(c: char)
    ensures LowerChar(c) as int == if 65 <= c as int <= 90 then c as int + 32 else c as int
    ensures UpperChar(c) as int == if 97 <= c as int <= 122 then c as int - 32 else c as int
  {
  }

  lemma LowerConcat(a: string, b: string)
    ensures Lower(a + b) == Lower(a) + Lower(b)
  {
    assert forall i | 0 <= i < |a + b| :: Lower(a + b)[i] == (Lower(a) + Lower(b))[i];
  }

  lemma UpperForgetsLower(s: string)
    ensures Upper(Lower(s)) == Upper(s)
  {
    assert forall i | 0 <= i < |s| :: Upper(Lower(s))[i] == Upper(s)[i];
  }

  /** Lower-casing can only create or destroy letters. */
  lemma LowerKeepsNonLetters(s: string, c: char)
    requires !('A' <= c <= 'Z') && !('a' <= c <= 'z')
    ensures c in Lower(s) <==> c in s
    ensures forall i :: 0 <= i < |s| ==> (Lower(s)[i] == c <==> s[i] == c)
  {
    if c in s {
      var i :| 0 <= i < |s| && s[i] == c;
      assert Lower(s)[i] == c;
    }
  }

  // ---------- trimming ----------

  predicate IsSpace(c: char) {
    c == ' ' || '\t' <= c <= '\r'
  }

  /** Blank, tab, line feed, vertical tab, form feed and carriage return. */
  lemma SpacesAre(c: char)
    ensures IsSpace(c) <==> c as int in {32, 9, 10, 11, 12, 13}
  {
  }

  predicate IsLineBreak(c: char) {
    c == '\r' || c == '\n'
  }

  predicate IsAngle(c: char) {
    c == '<' || c == '>'
  }

  /** `trim_start_matches` */
  function TrimStart(s: string, p: char -> bool): string {
    if s != "" && p(s[0]) then TrimStart(s[1..], p) else s
  }

  /** `trim_end_matches` */
  function TrimEnd(s: string, p: char -> bool): string {
    if s != "" && p(s[|s| - 1]) then TrimEnd(s[..|s| - 1], p) else s
  }

  function TrimBoth(s: string, p: char -> bool): string {
    TrimEnd(TrimStart(s, p), p)
  }

  /** `str::trim` */
  function Trim(s: string): string {
    TrimBoth(s, IsSpace)
  }

  predicate CleanEnds(s: string, p: char -> bool) {
    s == "" || (!p(s[0]) && !p(s[|s| - 1]))
  }

  /** Trimming removes exactly the matching padding around text with clean ends. */
  lemma {:induction false} TrimBothPadded(before: string, s: string, after: string, p: char -> bool)
    requires s != "" && CleanEnds(s, p)
    requires forall c :: c in before ==> p(c)
    requires forall c :: c in after ==> p(c)
    ensures TrimBoth(before + s + after, p) == s
    decreases |before| + |after|
  {
    if before != "" {
      assert (before + s + after)[1..] == before[1..] + s + after;
      TrimBothPadded(before[1..], s, after, p);
    } else {
      assert before + s + after == s + after;
      assert (s + after)[0] == s[0];
      TrimEndPadded(s, after, p);
    }
  }

  lemma {:induction false} TrimEndPadded(s: string, after: string, p: char -> bool)
    requires s != "" ==> !p(s[|s| - 1])
    requires forall c :: c in after ==> p(c)
    ensures TrimEnd(s + after, p) == s
    decreases |after|
  {
    if after == "" {
      assert s + after == s;
    } else {
      var t := s + after;
      assert t[|t| - 1] == after[|after| - 1];
      assert t[..|t| - 1] == s + after[..|after| - 1];
      TrimEndPadded(s, after[..|after| - 1], p);
    }
  }

  // ---------- searching ----------

  predicate OccursAt(s: string, p: string, i: nat) {
    i + |p| <= |s| && s[i..i + |p|] == p
  }

  /** First occurrence of `p` in `s` at or after `from`. */
  function FindFrom(s: string, p: string, from: nat): (r: Option<nat>)
    requires from <= |s|
    ensures r.Some? ==> from <= r.value && OccursAt(s, p, r.value)
    ensures r.Some? ==> forall j: nat :: from <= j < r.value ==> !OccursAt(s, p, j)
    ensures r.None? ==> forall j: nat :: from <= j ==> !OccursAt(s, p, j)
    decreases |s| - from
  {
    if OccursAt(s, p, from) then Some(from)
    else if from == |s| then None
    else FindFrom(s, p, from + 1)
  }

  predicate Contains(s: string, p: string) {
    FindFrom(s, p, 0).Some?
  }

  lemma ContainedAt(s: string, p: string, i: nat)
    requires OccursAt(s, p, i)
    ensures Contains(s, p)
  {
  }

  lemma OccursChar(s: string, p: string, i: nat, m: nat)
    requires i + |p| <= |s| && m < |p|
    ensures OccursAt(s, p, i) ==> s[i + m] == p[m]
  {
    assert s[i..i + |p|][m] == s[i + m];
  }

  lemma FoundAt(s: string, p: string) returns (i: nat)
    requires Contains(s, p)
    ensures OccursAt(s, p, i)
  {
    i := FindFrom(s, p, 0).value;
  }

  /** A text contains a pattern only if it contains all of the pattern's characters. */
  lemma NeedsChar(s: string, p: string, c: char)
    requires c in p
    ensures Contains(s, p) ==> c in s
  {
    var j :| 0 <= j < |p| && p[j] == c;
    if Contains(s, p) {
      var i := FindFrom(s, p, 0).value;
      assert s[i..i + |p|][j] == s[i + j];
    }
  }

  /** An occurrence that spans a character contains it. */
  lemma SpanNeedsChar(a: string, c: char, b: string, p: string, i: nat)
    requires OccursAt(a + [c] + b, p, i)
    ensures i <= |a| < i + |p| ==> c in p
  {
    var s := a + [c] + b;
    if i <= |a| < i + |p| {
      assert s[i..i + |p|][|a| - i] == s[|a|];
    }
  }

  /** Where a pattern occurs in a part it occurs in the whole, and the other way round. */
  lemma OccursInPart(s: string, p: string, i: nat, from: nat, to: nat)
    requires from <= i && i + |p| <= to <= |s|
    ensures OccursAt(s, p, i) <==> OccursAt(s[from..to], p, i - from)
  {
    var part, k := s[from..to], i - from;
    var x, y := part[k..k + |p|], s[i..i + |p|];
    assert forall m :: 0 <= m < |p| ==> x[m] == y[m];
  }

  /** A pattern does not span a character that is not in it. */
  lemma ContainsAcross(a: string, c: char, b: string, p: string)
    requires p != "" && c !in p
    ensures Contains(a + [c] + b, p) <==> Contains(a, p) || Contains(b, p)
  {
    hide Contains, OccursAt;
    var s := a + [c] + b;
    var n := |a| + 1;
    assert s[0..|a|] == a && s[n..|s|] == b;
    if Contains(s, p) {
      var i := FoundAt(s, p);
      SpanNeedsChar(a, c, b, p, i);
      if i + |p| <= |a| {
        OccursInPart(s, p, i, 0, |a|);
        ContainedAt(a, p, i);
      } else {
        OccursInPart(s, p, i, n, |s|);
        ContainedAt(b, p, i - n);
      }
    }
    if Contains(a, p) {
      var i := FoundAt(a, p);
      OccursInPart(s, p, i, 0, |a|);
      ContainedAt(s, p, i);
    }
    if Contains(b, p) {
      var i := FoundAt(b, p);
      OccursInPart(s, p, n + i, n, |s|);
      ContainedAt(s, p, n + i);
    }
  }

  /** `str::split_once` with a string pattern. */
  function SplitOnce(s: string, p: string): Option<(string, string)> {
    match FindFrom(s, p, 0)
    case None => None
    case Some(i) => Some((s[..i], s[i + |p|..]))
  }

  /** Splitting at the first occurrence undoes joining, if the left part completes no earlier occurrence. */
  lemma SplitOnceJoined(a: string, p: string, b: string)
    requires p != ""
    requires forall j: nat :: j < |a| ==> !OccursAt(a + p + b, p, j)
    ensures SplitOnce(a + p + b, p) == Some((a, b))
  {
    var s := a + p + b;
    assert s[|a|..|a| + |p|] == p;
    assert OccursAt(s, p, |a|);
    var i := FindFrom(s, p, 0).value;
    assert i == |a|;
    assert s[..|a|] == a && s[|a| + |p|..] == b;
  }

  lemma SplitOnceAtChar(a: string, c: char, b: string)
    requires c !in a
    ensures SplitOnce(a + [c] + b, [c]) == Some((a, b))
  {
    forall j: nat | j < |a|
      ensures !OccursAt(a + [c] + b, [c], j)
    {
      assert (a + [c] + b)[j..j + 1] == [a[j]];
    }
    SplitOnceJoined(a, [c], b);
  }

  /** `split_once` succeeds exactly when the character is there, and the parts rebuild the text. */
  lemma SplitOnceCharSpec(s: string, c: char)
    ensures SplitOnce(s, [c]).Some? <==> c in s
    ensures SplitOnce(s, [c]).Some? ==>
              var (a, b) := SplitOnce(s, [c]).value; c !in a && s == a + [c] + b
  {
    if c in s {
      var i :| 0 <= i < |s| && s[i] == c;
      assert OccursAt(s, [c], i);
    }
    match FindFrom(s, [c], 0)
    case None =>
    case Some(i) =>
      assert s[i..i + 1][0] == c;
      forall j: nat | j < i
        ensures s[j] != c
      {
        assert !OccursAt(s, [c], j);
        assert s[j..j + 1] == [s[j]];
      }
  }

  /** `splitn(n, c)`: at most `n` pieces, the last one keeping any further separators. */
  function SplitN(s: string, c: char, n: nat): (r: seq<string>)
    requires n >= 1
    ensures 1 <= |r| <= n
    ensures |r| == 1 <==> n == 1 || SplitOnce(s, [c]).None?
    ensures |r| == 1 ==> r == [s]
  {
    if n == 1 then [s]
    else
      match SplitOnce(s, [c])
      case None => [s]
      case Some((a, b)) => [a] + SplitN(b, c, n - 1)
  }

  /** `split(c).collect()`: the last piece is the one without separators. */
  function Split(s: string, c: char): seq<string> {
    SplitN(s, c, |s| + 1)
  }

  /** Exactly two pieces means exactly one separator. */
  lemma SplitInTwo(s: string, c: char)
    ensures |Split(s, c)| == 2 <==>
            (SplitOnce(s, [c]).Some? && c !in SplitOnce(s, [c]).value.1)
    ensures |Split(s, c)| == 2 ==>
              Split(s, c)[0] == SplitOnce(s, [c]).value.0 && Split(s, c)[1] == SplitOnce(s, [c]).value.1
  {
    SplitOnceCharSpec(s, c);
    match SplitOnce(s, [c])
    case None =>
    case Some((a, b)) =>
      SplitOnceCharSpec(b, c);
      assert |s| >= 1;
      if c in b {
        assert |b| >= 1;
      }
  }

  /** The first piece ends at the first separator. */
  lemma SplitFirst(a: string, c: char, b: string)
    requires c !in a
    ensures Split(a, c) == [a]
    ensures |Split(a + [c] + b, c)| >= 2 && Split(a + [c] + b, c)[0] == a
    ensures c !in b ==> Split(a + [c] + b, c) == [a, b]
  {
    SplitOnceCharSpec(a, c);
    SplitOnceAtChar(a, c, b);
    SplitInTwo(a + [c] + b, c);
  }

  // ---------- decimal numbers ----------

  predicate IsDigit(c: char) {
    '0' <= c <= '9'
  }

  function Digit(d: nat): char
    requires d < 10
  {
    ('0' as int + d) as char
  }

  /** `format!("{}", n)` */
  function Decimal(n: nat): (r: string)
    ensures r != "" && forall c :: c in r ==> IsDigit(c)
  {
    if n < 10 then [Digit(n)] else Decimal(n / 10) + [Digit(n % 10)]
  }

  function DigitsValue(s: string): nat
    requires forall c :: c in s ==> IsDigit(c)
  {
    if s == "" then 0
    else
      assert IsDigit(s[|s| - 1]);
      DigitsValue(s[..|s| - 1]) * 10 + (s[|s| - 1] as int - '0' as int)
  }

  predicate AllDigits(s: string) {
    forall c :: c in s ==> IsDigit(c)
  }

  /** Unsigned `str::parse`: an optional `+`, then at least one digit, and no overflow. */
  function ParseUnsigned(s: string, bound: nat): Option<nat> {
    var digits := if |s| > 1 && s[0] == '+' then s[1..] else s;
    if digits == "" || !AllDigits(digits) then None
    else if DigitsValue(digits) >= bound then None
    else Some(DigitsValue(digits))
  }

  lemma {:induction false} DecimalValue(n: nat)
    ensures DigitsValue(Decimal(n)) == n
  {
    if n >= 10 {
      var s := Decimal(n);
      assert s[..|s| - 1] == Decimal(n / 10);
      DecimalValue(n / 10);
    } else {
      assert [Digit(n)][..0] == "";
    }
  }

  /** Printing a number and parsing it back gives the number. */
  lemma ParseDecimal(n: nat, bound: nat)
    ensures ParseUnsigned(Decimal(n), bound) == if n < bound then Some(n) else None
    ensures ParseUnsigned("+" + Decimal(n), bound) == ParseUnsigned(Decimal(n), bound)
  {
    DecimalValue(n);
    assert Decimal(n)[0] in Decimal(n);
    assert ("+" + Decimal(n))[1..] == Decimal(n);
  }
}
