/** Reading the address out of a MAIL or RCPT command line. */
module SmtpCommands {
  import opened Text

  /** The address after `to:`, lower-cased, trimmed and without its angle brackets; an empty one is no address. */
  function ExtractRecipient(cmd: string): Option<string> {
    match SplitOnce(Lower(cmd), "to:")
    case None => None
    case Some((_, rest)) =>
      var addr := TrimBoth(Trim(rest), IsAngle);
      if addr == "" then None else Some(addr)
  }

  /** The address after `from:`; it may be empty (a bounce). */
  function ExtractSender(cmd: string): Option<string> {
    match SplitOnce(Lower(cmd), "from:")
    case None => None
    case Some((_, rest)) => Some(TrimBoth(Trim(rest), IsAngle))
  }

  // ---------- any well-formed command line ----------

  lemma {:induction false} TrimAll(s: string, p: char -> bool)
    requires forall c :: c in s ==> p(c)
    ensures TrimBoth(s, p) == ""
  {
    if s == "" {
    } else {
      assert s[0] in s;
      TrimAll(s[1..], p);
    }
  }

  /** What stands between the keyword and the end of the line: padding, brackets, the address, brackets, padding. */
  predicate Bracketed(before: string, open: string, close: string, after: string) {
    && (forall c :: c in before ==> IsSpace(c)) && (forall c :: c in after ==> IsSpace(c))
    && (forall c :: c in open ==> IsAngle(c)) && (forall c :: c in close ==> IsAngle(c))
  }

  lemma LowerOthers(s: string)
    requires forall c :: c in s ==> IsSpace(c) || IsAngle(c)
    ensures Lower(s) == s
  {
    assert forall i :: 0 <= i < |s| ==> s[i] in s;
    assert forall i :: 0 <= i < |s| ==> Lower(s)[i] == s[i];
  }

  lemma LowerCleanEnds(addr: string)
    requires CleanEnds(addr, IsSpace) && CleanEnds(addr, IsAngle)
    ensures CleanEnds(Lower(addr), IsSpace) && CleanEnds(Lower(addr), IsAngle)
  {
  }

  /** The address is found whatever stands around it. */
  lemma Unwrap(before: string, open: string, addr: string, close: string, after: string)
    requires Bracketed(before, open, close, after)
    requires CleanEnds(addr, IsSpace) && CleanEnds(addr, IsAngle)
    ensures TrimBoth(Trim(before + (open + addr + close) + after), IsAngle) == addr
  {
    var core := open + addr + close;
    if core == "" {
      var s := before + core + after;
      TrimAll(s, IsSpace);
    } else {
      assert CleanEnds(core, IsSpace) by { CoreEnds(open, addr, close); }
      TrimBothPadded(before, core, after, IsSpace);
      if addr == "" {
        TrimAll(core, IsAngle);
      } else {
        TrimBothPadded(open, addr, close, IsAngle);
      }
    }
  }

  lemma CoreEnds(open: string, addr: string, close: string)
    requires (forall c :: c in open ==> IsAngle(c)) && (forall c :: c in close ==> IsAngle(c))
    requires CleanEnds(addr, IsSpace) && open + addr + close != ""
    ensures CleanEnds(open + addr + close, IsSpace)
  {
    var core := open + addr + close;
    if open != "" {
      assert core[0] == open[0] && open[0] in open;
    } else if addr != "" {
      assert core[0] == addr[0];
    } else {
      assert core[0] == close[0] && close[0] in close;
    }
    if close != "" {
      assert core[|core| - 1] == close[|close| - 1] && close[|close| - 1] in close;
    } else if addr != "" {
      assert core[|core| - 1] == addr[|addr| - 1];
    } else {
      assert core[|core| - 1] == open[|open| - 1] && open[|open| - 1] in open;
    }
  }

  /** A keyword that ends in a colon is found behind text without one. */
  lemma KeywordFound(verb: string, keyword: string, rest: string)
    requires ':' !in verb && keyword != "" && keyword[|keyword| - 1] == ':' && ':' !in keyword[..|keyword| - 1]
    ensures SplitOnce(verb + keyword + rest, keyword) == Some((verb, rest))
  {
    var s := verb + keyword + rest;
    forall j: nat | j < |verb|
      ensures !OccursAt(s, keyword, j)
    {
      var k := j + |keyword| - 1;
      if k < |verb| {
        assert s[k] == verb[k] && verb[k] in verb;
      } else {
        assert s[k] == keyword[k - |verb|] && keyword[k - |verb|] in keyword[..|keyword| - 1];
      }
      assert s[k] != ':';
      if j + |keyword| <= |s| {
        OccursChar(s, keyword, j, |keyword| - 1);
      }
    }
    SplitOnceJoined(verb, keyword, rest);
  }

  lemma LowerLine(verb: string, keyword: string, before: string, open: string, addr: string, close: string,
                  after: string)
    requires Bracketed(before, open, close, after)
    ensures Lower(verb + keyword + (before + (open + addr + close) + after))
            == Lower(verb) + Lower(keyword) + (before + (open + Lower(addr) + close) + after)
  {
    hide Lower;
    var core := open + addr + close;
    LowerOthers(before);
    LowerOthers(open);
    LowerOthers(close);
    LowerOthers(after);
    LowerConcat(open, addr);
    LowerConcat(open + addr, close);
    LowerConcat(before, core);
    LowerConcat(before + core, after);
    LowerConcat(verb, keyword);
    LowerConcat(verb + keyword, before + core + after);
  }

  /**
    In every command line with a verb, `TO:` or `FROM:` in any letter case, padding and brackets,
    the address is read in lower case; no recipient may be empty, a sender may.
   */
  lemma AnyLineRead(verb: string, keyword: string, before: string, open: string, addr: string, close: string,
                    after: string)
    requires ':' !in verb && Bracketed(before, open, close, after)
    requires CleanEnds(addr, IsSpace) && CleanEnds(addr, IsAngle)
    ensures var line := verb + keyword + (before + (open + addr + close) + after);
            && (Lower(keyword) == "to:" ==>
                  ExtractRecipient(line) == if addr == "" then None else Some(Lower(addr)))
            && (Lower(keyword) == "from:" ==> ExtractSender(line) == Some(Lower(addr)))
  {
    hide Lower, SplitOnce, TrimBoth, Trim, CleanEnds;
    LowerLine(verb, keyword, before, open, addr, close, after);
    LowerKeepsNonLetters(verb, ':');
    LowerCleanEnds(addr);
    Unwrap(before, open, Lower(addr), close, after);
    if Lower(keyword) == "to:" || Lower(keyword) == "from:" {
      KeywordFound(Lower(verb), Lower(keyword), before + (open + Lower(addr) + close) + after);
    }
  }

  // ---------- the client's command lines ----------

  function MailCommand(sender: string): string {
    "MAIL FROM:<" + sender + ">"
  }

  function RcptCommand(recipient: string): string {
    "RCPT TO:<" + recipient + ">"
  }

  lemma LowerMail(sender: string)
    ensures Lower(MailCommand(sender)) == "mail " + "from:" + ("<" + Lower(sender) + ">")
  {
    LowerConcat("MAIL FROM:<" + sender, ">");
    LowerConcat("MAIL FROM:<", sender);
    assert Lower("MAIL FROM:<") == "mail from:<";
    assert Lower(">") == ">";
  }

  lemma LowerRcpt(recipient: string)
    ensures Lower(RcptCommand(recipient)) == "rcpt " + "to:" + ("<" + Lower(recipient) + ">")
  {
    LowerConcat("RCPT TO:<" + recipient, ">");
    LowerConcat("RCPT TO:<", recipient);
    assert Lower("RCPT TO:<") == "rcpt to:<";
    assert Lower(">") == ">";
  }

  /** The server finds the bracketed part of the client's MAIL command. */
  lemma SenderSplit(sender: string)
    ensures SplitOnce(Lower(MailCommand(sender)), "from:") == Some(("mail ", "<" + Lower(sender) + ">"))
  {
    LowerMail(sender);
    var rest := "<" + Lower(sender) + ">";
    var s := "mail " + "from:" + rest;
    forall j: nat | j < 5
      ensures !OccursAt(s, "from:", j)
    {
      assert s[j] == "mail "[j] != 'f';
      assert s[j..j + 5][0] == s[j];
    }
    SplitOnceJoined("mail ", "from:", rest);
  }

  lemma RecipientSplit(recipient: string)
    ensures SplitOnce(Lower(RcptCommand(recipient)), "to:") == Some(("rcpt ", "<" + Lower(recipient) + ">"))
  {
    LowerRcpt(recipient);
    var rest := "<" + Lower(recipient) + ">";
    var s := "rcpt " + "to:" + rest;
    forall j: nat | j < 5
      ensures !OccursAt(s, "to:", j)
    {
      assert s[j + 1] == ("rcpt " + "to:")[j + 1] != 'o';
      assert s[j..j + 3][1] == s[j + 1];
    }
    SplitOnceJoined("rcpt ", "to:", rest);
  }

  lemma Unbracket(addr: string)
    requires addr != "" && CleanEnds(addr, IsAngle)
    ensures TrimBoth(Trim("<" + Lower(addr) + ">"), IsAngle) == Lower(addr)
  {
    var s := "<" + Lower(addr) + ">";
    TrimBothPadded("", s, "", IsSpace);
    assert "" + s + "" == s;
    TrimBothPadded("<", Lower(addr), ">", IsAngle);
  }

  /** The server reads the address the client wrote, in lower case. */
  lemma AddressesRead(addr: string)
    requires addr != "" && CleanEnds(addr, IsAngle)
    ensures ExtractRecipient(RcptCommand(addr)) == Some(Lower(addr))
    ensures ExtractSender(MailCommand(addr)) == Some(Lower(addr))
  {
    Unbracket(addr);
    RecipientSplit(addr);
    SenderSplit(addr);
  }

  /** Whatever the client puts between the brackets, the MAIL command is well-formed for the server. */
  lemma SenderAlwaysRead(sender: string)
    ensures ExtractSender(MailCommand(sender)).Some?
  {
    SenderSplit(sender);
  }
}
