/**
  Transparency of the DATA phase (section 4.5.2 of RFC 5321): the client's byte loop, the
  server's line-wise inverse, and the proof that a body survives the trip.
 */
module DotStuffing {
  import opened Text

  // ---------- lines ----------

  /** Position just after the first LF, or the end of the text. */
  function LineEnd(s: string): (n: nat)
    ensures n <= |s| && (s != "" ==> n > 0)
    ensures forall i :: 0 <= i < n - 1 ==> s[i] != '\n'
    ensures n < |s| ==> s[n - 1] == '\n'
  {
    if s == "" then 0
    else if s[0] == '\n' then 1
    else 1 + LineEnd(s[1..])
  }

  /** What successive `read_line` calls return: pieces that end with LF, the last one possibly without. */
  function Lines(s: string): seq<string> {
    if s == "" then [] else [s[..LineEnd(s)]] + Lines(s[LineEnd(s)..])
  }

  function Join(lines: seq<string>): string {
    if lines == [] then "" else lines[0] + Join(lines[1..])
  }

  /** Text made of complete lines only. */
  predicate EndsLine(s: string) {
    s == "" || s[|s| - 1] == '\n'
  }

  /** A single complete line: one LF, at its end. */
  predicate IsLine(l: string) {
    l != "" && LineEnd(l) == |l| && l[|l| - 1] == '\n'
  }

  lemma {:induction false} LineEndConcat(a: string, b: string)
    requires a != "" && EndsLine(a)
    ensures LineEnd(a + b) == LineEnd(a)
  {
    if a[0] == '\n' {
    } else {
      assert (a + b)[1..] == a[1..] + b;
      LineEndConcat(a[1..], b);
    }
  }

  /** Complete lines stay what they are when more text arrives. */
  lemma {:induction false} LinesConcat(a: string, b: string)
    requires EndsLine(a)
    ensures Lines(a + b) == Lines(a) + Lines(b)
    decreases |a|
  {
    if a == "" {
      assert a + b == b;
    } else {
      var n := LineEnd(a);
      LineEndConcat(a, b);
      assert (a + b)[..n] == a[..n];
      assert (a + b)[n..] == a[n..] + b;
      assert EndsLine(a[n..]);
      LinesConcat(a[n..], b);
    }
  }

  lemma LinesOfOne(l: string)
    requires l != "" && LineEnd(l) == |l|
    ensures Lines(l) == [l]
  {
    assert l[..|l|] == l && l[|l|..] == "";
  }

  lemma {:induction false} JoinLines(s: string)
    ensures Join(Lines(s)) == s
    decreases |s|
  {
    if s == "" {
    } else {
      JoinLines(s[LineEnd(s)..]);
    }
  }

  /** A line without LF except at its end stops exactly there. */
  lemma {:induction false} LineEndOf(l: string)
    requires forall i :: 0 <= i < |l| - 1 ==> l[i] != '\n'
    ensures LineEnd(l) == |l|
  {
    if |l| <= 1 {
    } else {
      LineEndOf(l[1..]);
    }
  }

  // ---------- stuffing line by line ----------

  function StuffLine(l: string): string {
    if l != "" && l[0] == '.' then "." + l else l
  }

  /** The server's rule: a leading dot is dropped. */
  function UnstuffLine(l: string): string {
    if l != "" && l[0] == '.' then l[1..] else l
  }

  /** The line on which the server stops reading a body. */
  predicate IsTerminator(l: string) {
    TrimEnd(l, IsLineBreak) == "."
  }

  /** A terminator is a dot followed by nothing but line breaks. */
  lemma {:induction false} TerminatorIs(l: string)
    ensures IsTerminator(l) <==>
            l != "" && l[0] == '.' && forall k :: 1 <= k < |l| ==> l[k] == '\r' || l[k] == '\n'
    decreases |l|
  {
    if l == "" || !IsLineBreak(l[|l| - 1]) {
      if |l| > 1 {
        assert TrimEnd(l, IsLineBreak) == l;
      }
    } else {
      var front := l[..|l| - 1];
      TerminatorIs(front);
      assert forall k :: 1 <= k < |front| ==> front[k] == l[k];
    }
  }

  function StuffLines(lines: seq<string>): seq<string> {
    if lines == [] then [] else [StuffLine(lines[0])] + StuffLines(lines[1..])
  }

  function UnstuffLines(lines: seq<string>): seq<string> {
    if lines == [] then [] else [UnstuffLine(lines[0])] + UnstuffLines(lines[1..])
  }

  /** Dot stuffing as the standard states it: double the leading dot of every line. */
  function Stuffed(body: string): string {
    Join(StuffLines(Lines(body)))
  }

  // ---------- the byte loop ----------

  function StuffByte(c: char, atLineStart: bool): string {
    if atLineStart && c == '.' then ".." else [c]
  }

  /** Stuffing seen from the middle of a body, remembering only whether a line starts here. */
  function StuffFrom(s: string, atLineStart: bool): string {
    if s == "" then "" else StuffByte(s[0], atLineStart) + StuffFrom(s[1..], s[0] == '\n')
  }

  predicate StartsLineAfter(s: string, atLineStart: bool) {
    if s == "" then atLineStart else s[|s| - 1] == '\n'
  }

  lemma {:induction false} StuffFromConcat(a: string, b: string, atLineStart: bool)
    ensures StuffFrom(a + b, atLineStart) == StuffFrom(a, atLineStart) + StuffFrom(b, StartsLineAfter(a, atLineStart))
  {
    if a == "" {
      assert a + b == b;
    } else {
      assert (a + b)[1..] == a[1..] + b;
      StuffFromConcat(a[1..], b, a[0] == '\n');
    }
  }

  lemma StuffFromByte(s: string, c: char, atLineStart: bool)
    ensures StuffFrom(s + [c], atLineStart) == StuffFrom(s, atLineStart) + StuffByte(c, StartsLineAfter(s, atLineStart))
  {
    StuffFromConcat(s, [c], atLineStart);
    assert [c][1..] == "";
  }

  lemma {:induction false} StuffInsideLine(l: string)
    requires LineEnd(l) == |l|
    ensures StuffFrom(l, false) == l
    ensures StuffFrom(l, true) == StuffLine(l)
  {
    if l == "" {
    } else {
      if l[0] == '\n' {
        assert l == "\n" && l[1..] == "";
      } else {
        StuffInsideLine(l[1..]);
      }
      assert l == [l[0]] + l[1..];
    }
  }

  /** The byte-wise and the line-wise form of stuffing agree. */
  lemma {:induction false} StuffFromIsStuffed(s: string)
    ensures StuffFrom(s, true) == Stuffed(s)
    decreases |s|
  {
    if s == "" {
    } else {
      var n := LineEnd(s);
      LineEndOf(s[..n]);
      StuffInsideLine(s[..n]);
      assert s == s[..n] + s[n..];
      StuffFromConcat(s[..n], s[n..], true);
      StuffFromIsStuffed(s[n..]);
    }
  }

  /**
    The client's loop: a growing vector, a look-ahead for CR LF pairs, and a flag for line starts.
    It produces exactly the standard's line-wise stuffing.
   */
  method ApplyDotStuffing(payload: string) returns (stuffed: string)
    ensures stuffed == Stuffed(payload)
  {
    stuffed := "";
    var i := 0;
    var atLineStart := true;
    while i < |payload|
      invariant 0 <= i <= |payload|
      invariant atLineStart == StartsLineAfter(payload[..i], true)
      invariant stuffed == StuffFrom(payload[..i], true)
    {
      var byte := payload[i];
      StuffFromByte(payload[..i], byte, true);
      i := i + 1;
      assert payload[..i] == payload[..i - 1] + [byte];
      if atLineStart && byte == '.' {
        stuffed := stuffed + ['.'];
        stuffed := stuffed + ['.'];
        atLineStart := false;
      } else {
        stuffed := stuffed + [byte];
        if byte == '\r' {
          if i < |payload| && payload[i] == '\n' {
            StuffFromByte(payload[..i], '\n', true);
            stuffed := stuffed + ['\n'];
            i := i + 1;
            assert payload[..i] == payload[..i - 1] + ['\n'];
            atLineStart := true;
          } else {
            atLineStart := false;
          }
        } else {
          atLineStart := byte == '\n';
        }
      }
    }
    assert payload[..i] == payload;
    StuffFromIsStuffed(payload);
  }

  // ---------- the trip over the wire ----------

  predicate EndsCrLf(s: string) {
    |s| >= 2 && s[|s| - 2..] == "\r\n"
  }

  function EnsureCrLf(s: string): string {
    if EndsCrLf(s) then s else s + "\r\n"
  }

  /** What the client writes between the DATA reply and the terminating dot. */
  function BodyOnWire(body: string): string {
    EnsureCrLf(Stuffed(body))
  }

  /** What the server keeps of the lines it reads. */
  function Received(lines: seq<string>): string {
    Join(UnstuffLines(lines))
  }

  lemma {:induction false} UnstuffStuffed(lines: seq<string>)
    ensures UnstuffLines(StuffLines(lines)) == lines
  {
    if lines == [] {
    } else {
      UnstuffStuffed(lines[1..]);
      var l := lines[0];
      assert UnstuffLine(StuffLine(l)) == l by {
        if l != "" && l[0] == '.' {
          assert ("." + l)[1..] == l;
        }
      }
    }
  }

  lemma StuffLineIsLine(l: string)
    requires IsLine(l)
    ensures IsLine(StuffLine(l))
  {
    LineEndOf(StuffLine(l));
  }

  /** Stuffing complete lines gives complete lines: they are read back one by one. */
  lemma {:induction false} LinesOfStuffed(s: string)
    requires EndsLine(s)
    ensures Lines(Stuffed(s)) == StuffLines(Lines(s))
    ensures EndsLine(Stuffed(s))
    decreases |s|
  {
    if s == "" {
    } else {
      var n := LineEnd(s);
      LineEndOf(s[..n]);
      StuffLineIsLine(s[..n]);
      LinesOfStuffed(s[n..]);
      PrependLine(StuffLine(s[..n]), Stuffed(s[n..]));
    }
  }

  lemma PrependLine(l: string, rest: string)
    requires IsLine(l) && EndsLine(rest)
    ensures Lines(l + rest) == [l] + Lines(rest)
    ensures EndsLine(l + rest)
  {
    LinesOfOne(l);
    LinesConcat(l, rest);
  }

  /** No stuffed line of complete text is the terminator. */
  lemma {:induction false} StuffedNeverTerminates(lines: seq<string>)
    ensures forall l :: l in StuffLines(lines) ==> !IsTerminator(l)
  {
    if lines == [] {
    } else {
      StuffedNeverTerminates(lines[1..]);
      TrimEndKeepsDots(StuffLine(lines[0]));
    }
  }

  /** Trimming line breaks keeps a doubled dot doubled and creates no leading dot. */
  lemma {:induction false} TrimEndKeepsDots(l: string)
    ensures l != "" && l[0] != '.' ==> !IsTerminator(l)
    ensures |l| >= 2 && l[0] == '.' && l[1] == '.' ==> !IsTerminator(l)
    ensures l == "" ==> !IsTerminator(l)
    decreases |l|
  {
    if l != "" && IsLineBreak(l[|l| - 1]) {
      TrimEndKeepsDots(l[..|l| - 1]);
    }
  }

  lemma LastByteKept(s: string, atLineStart: bool)
    requires s != ""
    ensures var w := StuffFrom(s, atLineStart); w != "" && w[|w| - 1] == s[|s| - 1]
  {
    assert s == s[..|s| - 1] + [s[|s| - 1]];
    StuffFromByte(s[..|s| - 1], s[|s| - 1], atLineStart);
  }

  /** Text ends in CR LF exactly when its last byte is LF and the one before it is CR. */
  lemma EndsCrLfByBytes(s: string)
    ensures EndsCrLf(s) <==> |s| >= 2 && s[|s| - 1] == '\n' && s[|s| - 2] == '\r'
  {
    if |s| >= 2 {
      assert s[|s| - 2..] == [s[|s| - 2], s[|s| - 1]];
    }
  }

  /** Stuffing neither adds nor removes a CR LF at the end of a body. */
  lemma StuffedEndsCrLf(body: string)
    ensures EndsCrLf(Stuffed(body)) <==> EndsCrLf(body)
  {
    var w := StuffFrom(body, true);
    StuffFromIsStuffed(body);
    EndsCrLfByBytes(body);
    EndsCrLfByBytes(w);
    if body != "" {
      var front, last := body[..|body| - 1], body[|body| - 1];
      assert body == front + [last];
      StuffFromByte(front, last, true);
      LastByteKept(body, true);
      if front != "" && last == '\n' {
        LastByteKept(front, true);
      }
    }
  }

  lemma StuffedAppendCrLf(body: string)
    ensures Stuffed(body + "\r\n") == Stuffed(body) + "\r\n"
  {
    StuffFromIsStuffed(body);
    StuffFromIsStuffed(body + "\r\n");
    StuffFromConcat(body, "\r\n", true);
    LineEndOf("\r\n");
    StuffInsideLine("\r\n");
  }

  /** Completing the last line before or after stuffing makes no difference. */
  lemma StuffThenComplete(body: string)
    ensures BodyOnWire(body) == Stuffed(EnsureCrLf(body))
    ensures EndsLine(EnsureCrLf(body)) && EndsLine(BodyOnWire(body))
  {
    StuffedEndsCrLf(body);
    if EndsCrLf(body) {
      EndsCrLfByBytes(body);
    } else {
      StuffedAppendCrLf(body);
    }
    LinesOfStuffed(EnsureCrLf(body));
  }

  /**
    Transparency: for every body, the server reads the client's bytes as lines none of which is
    the terminator, and un-stuffing them gives the body back with a CR LF added only if missing.
   */
  lemma Transparency(body: string)
    ensures var lines := Lines(BodyOnWire(body));
            && (forall l :: l in lines ==> !IsTerminator(l))
            && Received(lines) == EnsureCrLf(body)
  {
    var complete := EnsureCrLf(body);
    StuffThenComplete(body);
    LinesOfStuffed(complete);
    StuffedNeverTerminates(Lines(complete));
    UnstuffStuffed(Lines(complete));
    JoinLines(complete);
  }

  /** The terminating dot the client sends after the body is its own line and is recognised. */
  lemma TerminatorRecognised(body: string)
    ensures Lines(BodyOnWire(body) + ".\r\n") == Lines(BodyOnWire(body)) + [".\r\n"]
    ensures IsTerminator(".\r\n")
  {
    StuffThenComplete(body);
    LinesConcat(BodyOnWire(body), ".\r\n");
    LineEndOf(".\r\n");
    LinesOfOne(".\r\n");
    TrimEndPadded(".", "\r\n", IsLineBreak);
    assert "." + "\r\n" == ".\r\n";
  }
}
