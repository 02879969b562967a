/**
  What a client is told, line by line: the answer to every command as a function of the line, the
  tables and the counters, with its code and its words.
 */
module SmtpAnswers {
  import opened Text
  import opened DotStuffing
  import opened BodyBuffer
  import opened SmtpCommands
  import opened SmtpSession
  import opened SmtpHistory
  import opened SmtpClient
  import opened Srs
  import opened SmtpAddresses

  /** One reply with this code and this text, and nothing delivered. */
  predicate Says(o: Outcome, code: string, text: string) {
    && |o.replies| == 1 && Code(o.replies[0]) == code && Message(o.replies[0]) == text
    && o.deliveries == [] && !o.panicked
  }

  /** The words of the answers to RCPT. */
  lemma SoftWords()
    ensures Code(ActionAborted) == "451" && Message(ActionAborted) == "Requested action aborted"
    ensures Code(TryLater) == "451" && Message(TryLater) == "4.7.1" + " " + "Please try again later"
    ensures Code(RecipientOk) == "250" && Message(RecipientOk) == "2.1.5" + " " + "Destination address accepted"
  {
  }

  lemma HardWords()
    ensures Code(UserNotFound) == "550" && Message(UserNotFound) == "User Not Found"
    ensures Code(SenderDenied) == "550" && Message(SenderDenied) == "Sender Denied"
    ensures Code(SpfFailed) == "550" && Message(SpfFailed) == "SPF Validation Failed"
  {
  }

  /** A connection is greeted before anything is read. */
  lemma GreetingWords()
    ensures Code(Welcome) == "220" && Message(Welcome) == "Welcome to my Email Server"
  {
  }

  lemma LastWords()
    ensures Code(BadSequence) == "503" && Message(BadSequence) == "Bad sequence of commands (MAIL FROM first)"
    ensures Code(AddressBlocked) == "554"
    ensures Message(AddressBlocked) == "5.7.1" + " " + "Connection refused - IP address blocked"
  {
  }

  // ---------- RCPT ----------

  /** An address that is looked up as it is. */
  predicate PlainAlias(local: string, domain: string) {
    && PlainAddress(local + "@" + domain) && '@' !in local && '@' !in domain
    && !("reply-" <= local) && !("srs0+" <= Lower(local))
  }

  function RcptLine(addr: string): string {
    RcptCommand(addr) + "\r\n"
  }

  /** What an alias lookup is answered with; `s` is the session that has noted the recipient. */
  predicate AliasAnswered(s: Session, found: Lookup<AliasRow>, w: World, o: Outcome) {
    match found
    case Found(row) =>
      && Says(o, "250", "2.1.5" + " " + "Destination address accepted")
      && o.next == s.(aliasId := Some(row.id), destination := Some(row.destination),
                      autoForward := row.autoForward, phase := Data)
    case DbError => Says(o, "451", "Requested action aborted") && o.next == s
    case Missing =>
      if w.failures >= w.blockThreshold then
        Says(o, "554", "5.7.1" + " " + "Connection refused - IP address blocked") && !o.next.open
      else if w.failures >= w.tarpitThreshold then
        Says(o, "451", "4.7.1" + " " + "Please try again later") && o.next == s
      else Says(o, "550", "User Not Found") && o.next == s
  }

  lemma AliasLookupAnswered(s: Session, local: string, domain: string, w: World)
    ensures AliasAnswered(s, w.aliases(local, domain), w, AliasStep(s, local, domain, w))
  {
    hide Code, Message;
    SoftWords();
    HardWords();
    LastWords();
  }

  /**
    An ordinary alias. A failing database is a soft refusal, an unknown alias a hard one until the
    client has failed too often; only the last resort ends the session.
   */
  lemma AliasAnswers(s: Session, w: World, local: string, domain: string)
    requires s.phase == RcptTo && PlainAlias(local, domain)
    ensures AliasAnswered(s.(recipient := Some(local + "@" + domain)), w.aliases(local, domain), w,
                          Step(s, RcptLine(local + "@" + domain), w))
  {
    hide Step, RcptCommand, ExtractRecipient, TargetOf, Lower, Split, AliasStep, AliasAnswered;
    var addr := local + "@" + domain;
    AddressesRead(addr);
    RcptSent(s, addr, w);
    AliasTargetOf(local, domain, w);
    AliasLookupAnswered(s.(recipient := Some(addr)), local, domain, w);
  }

  /** What a token lookup is answered with: each reason for a refusal has its own answer. */
  predicate TokenAnswered(s: Session, found: Lookup<ReplyMapping>, w: World, o: Outcome) {
    match found
    case Missing => Says(o, "550", "User Not Found") && o.next == s
    case DbError => Says(o, "451", "Requested action aborted") && o.next == s
    case Found(mapping) =>
      if s.sender.None? then Says(o, "503", "Bad sequence of commands (MAIL FROM first)") && o.next == s
      else
        var parts := Split(s.sender.value, '@');
        if Lower(s.sender.value) != Lower(mapping.destination) then Says(o, "550", "Sender Denied") && o.next == s
        else if |parts| == 2 && !w.spf(parts[1]) then Says(o, "550", "SPF Validation Failed") && o.next == s
        else
          && Says(o, "250", "2.1.5" + " " + "Destination address accepted")
          && o.next == s.(replyMapping := Some(mapping), phase := Data)
  }

  lemma TokenLookupAnswered(s: Session, token: string, w: World)
    ensures TokenAnswered(s, w.tokens(token), w, TokenStep(s, token, w))
  {
    hide Code, Message;
    SoftWords();
    HardWords();
    LastWords();
    hide Lower, Split;
  }

  /** A reply token: a refusal changes nothing but the recipient. */
  lemma TokenAnswers(s: Session, w: World, token: string, own: string)
    requires s.phase == RcptTo && PlainAddress(token + "@" + own)
    requires "reply-" <= token && '@' !in token && '@' !in own
    ensures TokenAnswered(s.(recipient := Some(token + "@" + own)), w.tokens(token), w,
                          Step(s, RcptLine(token + "@" + own), w))
  {
    hide Step, RcptCommand, ExtractRecipient, TargetOf, Lower, Split, TokenStep, TokenAnswered;
    var addr := token + "@" + own;
    AddressesRead(addr);
    RcptSent(s, addr, w);
    TokenTargetOf(token, own, w);
    TokenLookupAnswered(s.(recipient := Some(addr)), token, w);
  }

  /** An address without exactly one `@`, and a line without an address, are syntax errors. */
  lemma BadAddressAnswers(s: Session, w: World, addr: string, cmd: string)
    requires s.phase == RcptTo && PlainAddress(addr) && |Split(addr, '@')| != 2
    requires ExtractRecipient(cmd).None?
    ensures var o := Step(s, RcptLine(addr), w);
            Says(o, "501", "Syntax error in address") && o.next == s.(recipient := Some(addr))
    ensures Says(RcptStep(s, cmd, w), "501", "Syntax error in address") && RcptStep(s, cmd, w).next == s
  {
    hide Step, RcptCommand, ExtractRecipient, Lower, Split;
    AddressesRead(addr);
    RcptSent(s, addr, w);
  }

  /** A rewritten address that does not decode is an unknown user. */
  lemma ForgedAddressAnswers(s: Session, w: World, local: string, domain: string)
    requires s.phase == RcptTo && PlainAddress(local + "@" + domain) && '@' !in local && '@' !in domain
    requires "srs0+" <= Lower(local) && !("reply-" <= local)
    requires DecodeSrs(local + "@" + domain, w.srsHash, w.day).None?
    ensures var o := Step(s, RcptLine(local + "@" + domain), w);
            Says(o, "550", "User Not Found") && o.next == s.(recipient := Some(local + "@" + domain))
  {
    hide Step, RcptCommand, ExtractRecipient, Lower, Split, DecodeSrs;
    var addr := local + "@" + domain;
    AddressesRead(addr);
    RcptSent(s, addr, w);
    TwoParts(local, domain);
  }

  // ---------- the other commands ----------

  /** None of the three commands that work in every phase. */
  predicate Ordinary(line: string) {
    Upper(Trim(line)) != "QUIT" && Upper(Trim(line)) != "STARTTLS" && Upper(Trim(line)) != "RSET"
  }

  lemma GreetAnswers(s: Session, line: string, w: World)
    requires s.phase == Greet && Ordinary(line)
    ensures var cmd, o := Upper(Trim(line)), Step(s, line, w);
            if "HELO" <= cmd || "EHLO" <= cmd then Says(o, "250", "Hello") && o.next == s.(phase := MailFrom)
            else Says(o, "500", "Syntax error, command unrecognized") && o.next == s
  {
    hide Trim, Upper;
  }

  lemma MailAnswers(s: Session, line: string, w: World)
    requires s.phase == MailFrom && Ordinary(line)
    ensures var o := Step(s, line, w);
            if Contains(Lower(Trim(line)), "from:") then
              && Says(o, "250", "OK") && o.next.sender.Some?
              && o.next == s.(sender := o.next.sender, phase := RcptTo)
            else Says(o, "501", "Syntax error") && o.next == s
  {
    hide Trim, Upper, Lower, TrimBoth;
  }

  lemma DataAnswers(s: Session, line: string, w: World)
    requires s.phase == Data && Ordinary(line)
    ensures var o := Step(s, line, w);
            if Upper(Trim(line)) == "DATA" then
              Says(o, "354", "End data with <CR><LF>.<CR><LF>") && o.next == s.(phase := ReadingBody)
            else Says(o, "500", "Error") && o.next == s
  {
    hide Trim, Upper;
  }

  /** QUIT and RSET, in any letter case and in every phase outside a body. */
  lemma QuitAndResetAnswers(s: Session, line: string, w: World)
    requires s.phase != ReadingBody
    ensures var o := Step(s, line, w);
            && (Upper(Trim(line)) == "QUIT" ==>
                  Says(o, "221", "2.0.0" + " " + "Service closing transmission channel") && !o.next.open)
            && (Upper(Trim(line)) == "RSET" ==>
                  && Says(o, "250", "OK Resetting") && o.next.phase == MailFrom && o.next.open == s.open
                  && o.next.sender.None? && o.next.aliasId.None? && o.next.replyMapping == s.replyMapping)
  {
    hide Trim, Upper;
  }

  /**
    STARTTLS: refused without a certificate; otherwise announced, and then the stream is encrypted
    and the greeting starts over, or the session ends.
   */
  lemma TlsAnswers(s: Session, line: string, w: World)
    requires s.phase != ReadingBody && Upper(Trim(line)) == "STARTTLS"
    ensures var o := Step(s, line, w);
            match w.tls
            case Disabled => Says(o, "502", "Command not implemented") && o.next == s
            case NoCertificate => Says(o, "454", "TLS not available due to temporary reason") && o.next == s
            case Ready(handshakeOk) =>
              && Says(o, "220", "Ready to start TLS")
              && if handshakeOk && s.stream == Tcp then o.next == s.(stream := Tls, phase := Greet) else !o.next.open
  {
    hide Trim, Upper;
  }

  /** An open session is encrypted exactly if it has announced TLS before. */
  lemma {:induction false} EncryptedIff(inputs: seq<Input>)
    ensures StateAfter(inputs).open ==>
              (StateAfter(inputs).stream == Tls
               <==> exists i :: 0 <= i < |History(inputs)| && History(inputs)[i].replies == [ReadyForTls])
    decreases |inputs|
  {
    hide Step;
    if inputs == [] {
    } else {
      var front, last := inputs[..|inputs| - 1], inputs[|inputs| - 1];
      EncryptedIff(front);
      if StateAfter(front).open {
        StreamStep(StateAfter(front), last.line, last.world);
        var h, e := History(front), Entry(last.line, last.world, LastStep(StateAfter(front), last).replies);
        assert History(inputs) == h + [e];
        if e.replies == [ReadyForTls] {
          assert (h + [e])[|h|].replies == [ReadyForTls];
        }
        assert forall i :: 0 <= i < |h| ==> (h + [e])[i] == h[i];
      }
    }
  }

  lemma StreamStep(s: Session, line: string, w: World)
    ensures var o := Step(s, line, w);
            o.next.open ==>
              (o.replies == [ReadyForTls] ==> o.next.stream == Tls)
              && (o.replies != [ReadyForTls] ==> o.next.stream == s.stream)
  {
    hide Trim, Upper, ExtractSender, ExtractRecipient, TargetOf, Lower, Split, IsTerminator, UnstuffLine, Readable;
  }

  // ---------- the body ----------

  /** A body line is kept in silence; above 26,214,400 bytes the session ends with 552, on a disk failure in silence. */
  lemma BodyAnswers(s: Session, line: string, w: World)
    requires s.phase == ReadingBody && !IsTerminator(line)
    ensures var o := Step(s, line, w);
            var body := s.body + if line != "" && line[0] == '.' then line[1..] else line;
            if |body| > 26_214_400 then
              && Says(o, "552", "5.3.4" + " " + ("Message size exceeds " + "fixed maximum message size"))
              && !o.next.open
            else if |body| > 65_536 && w.disk.Fails? then o.replies == [] && o.deliveries == [] && !o.next.open
            else o == Outcome(s.(body := body, readable := o.next.readable), [], [], false)
  {
    hide IsTerminator, Readable;
  }

  /**
    The answers to a finished message. When the disk fails, a message to be stored or one above
    65,536 bytes ends the session without an answer.
   */
  lemma FinishedAnswers(s: Session, line: string, w: World)
    requires s.phase == ReadingBody && IsTerminator(line)
    requires s.replyMapping.Some? || s.aliasId.Some?
    ensures var o := Step(s, line, w);
            if w.disk.Fails? && (s.replyMapping.None? || |s.body| > 65_536) then
              o.replies == [] && o.deliveries == [] && !o.panicked && !o.next.open
            else
              && |o.replies| == 1 && |o.deliveries| == 1 && !o.panicked
              && o.next == s.(phase := Greet, body := "", readable := 0)
              && var (code, text) := (Code(o.replies[0]), Message(o.replies[0]));
                 if s.replyMapping.Some? then code == "250" && text == "OK: reply relayed"
                 else if w.insertOk then code == "250" && text == "OK: queued as " + w.bodyKey
                 else code == "451" && text == "Requested action aborted"
  {
    hide IsTerminator;
  }
}
