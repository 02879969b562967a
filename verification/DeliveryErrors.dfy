/**
  What the queue makes of the text of a failed delivery. The classifier looks for four codes and
  two phrases anywhere in the text, and the text of a refused command quotes the command, so the
  address decides with the server's answer.
 */
module DeliveryErrors {
  import opened Text
  import opened SmtpCommands
  import opened SmtpSession
  import opened SmtpHistory
  import opened SmtpClient
  import opened SmtpDelivery
  import opened SmtpAddresses
  import opened SmtpAnswers
  import Q = OutboundQueue
  import W = QueueWorker

  // ---------- the classifier on composed texts ----------

  /** A character none of the six texts has in it. */
  predicate Separates(c: char) {
    c == '\'' || c == ':' || c == '<' || c == '>'
  }

  lemma ClassifiedAcross(a: string, c: char, b: string)
    requires Separates(c)
    ensures Q.IsPermanentDeliveryError(a + [c] + b) <==> Q.IsPermanentDeliveryError(a) || Q.IsPermanentDeliveryError(b)
  {
    hide Contains;
    ContainsAcross(a, c, b, "550");
    ContainsAcross(a, c, b, "554");
    ContainsAcross(a, c, b, "552");
    ContainsAcross(a, c, b, "501");
    ContainsAcross(a, c, b, "Invalid recipient");
    ContainsAcross(a, c, b, "Command contains invalid characters");
  }

  /** Every code has a `5` in it, and both phrases a `v`. */
  lemma Harmless(s: string)
    requires '5' !in s && 'v' !in s
    ensures !Q.IsPermanentDeliveryError(s)
  {
    hide Contains;
    NeedsChar(s, "550", '5');
    NeedsChar(s, "554", '5');
    NeedsChar(s, "552", '5');
    NeedsChar(s, "501", '5');
    NeedsChar(s, "Invalid recipient", 'v');
    NeedsChar(s, "Command contains invalid characters", 'v');
  }

  lemma ContainsAfterSpace(s: string, p: string)
    requires p != "" && p[0] != ' '
    ensures Contains(" " + s, p) <==> Contains(s, p)
  {
    var t := " " + s;
    if Contains(t, p) {
      var i := FindFrom(t, p, 0).value;
      assert t[i..i + |p|][0] == t[i];
      assert s[i - 1..i - 1 + |p|] == t[i..i + |p|];
      ContainedAt(s, p, i - 1);
    }
    if Contains(s, p) {
      var i := FindFrom(s, p, 0).value;
      assert t[i + 1..i + 1 + |p|] == s[i..i + |p|];
      ContainedAt(t, p, i + 1);
    }
  }

  lemma ClassifiedAfterSpace(s: string)
    ensures Q.IsPermanentDeliveryError(" " + s) <==> Q.IsPermanentDeliveryError(s)
  {
    hide Contains;
    ContainsAfterSpace(s, "550");
    ContainsAfterSpace(s, "554");
    ContainsAfterSpace(s, "552");
    ContainsAfterSpace(s, "501");
    ContainsAfterSpace(s, "Invalid recipient");
    ContainsAfterSpace(s, "Command contains invalid characters");
  }

  /** The text of a refused command is permanent exactly if the command or the answer is. */
  lemma ErrorTextSplits(cmd: string, answer: string)
    ensures Q.IsPermanentDeliveryError(SmtpError(cmd, answer))
            <==> Q.IsPermanentDeliveryError(cmd) || Q.IsPermanentDeliveryError(answer)
  {
    hide Q.IsPermanentDeliveryError;
    var intro := "SMTP Error for command ";
    var rest := ":" + (" " + answer);
    assert SmtpError(cmd, answer) == intro + ['\''] + (cmd + ['\''] + rest);
    ClassifiedAcross(intro, '\'', cmd + ['\''] + rest);
    ClassifiedAcross(cmd, '\'', rest);
    assert rest == "" + [':'] + (" " + answer);
    ClassifiedAcross("", ':', " " + answer);
    ClassifiedAfterSpace(answer);
    Harmless(intro);
    Harmless("");
  }

  /** Of the client's two addressed commands only the address matters. */
  lemma OnlyTheAddressMatters(addr: string)
    ensures Q.IsPermanentDeliveryError(RcptCommand(addr)) <==> Q.IsPermanentDeliveryError(addr)
    ensures Q.IsPermanentDeliveryError(MailCommand(addr)) <==> Q.IsPermanentDeliveryError(addr)
  {
    hide Q.IsPermanentDeliveryError;
    assert RcptCommand(addr) == "RCPT TO:" + ['<'] + (addr + ['>'] + "");
    assert MailCommand(addr) == "MAIL FROM:" + ['<'] + (addr + ['>'] + "");
    ClassifiedAcross("RCPT TO:", '<', addr + ['>'] + "");
    ClassifiedAcross("MAIL FROM:", '<', addr + ['>'] + "");
    ClassifiedAcross(addr, '>', "");
    Harmless("");
    Harmless("RCPT TO:");
    Harmless("MAIL FROM:");
  }

  /** Each of the six texts makes any error permanent, wherever it stands. */
  lemma NeedleAnywhere(before: string, needle: string, after: string)
    requires needle in ["550", "554", "552", "501", "Invalid recipient", "Command contains invalid characters"]
    ensures Q.IsPermanentDeliveryError(before + needle + after)
  {
    hide Contains;
    var s := before + needle + after;
    assert s[|before|..|before| + |needle|] == needle;
    ContainedAt(s, needle, |before|);
  }

  /** And nothing else does. */
  lemma PermanentIff(err: string)
    ensures Q.IsPermanentDeliveryError(err) <==>
            exists i: nat, needle ::
              needle in ["550", "554", "552", "501", "Invalid recipient", "Command contains invalid characters"]
              && OccursAt(err, needle, i)
  {
    hide Contains, OccursAt;
    var needles := ["550", "554", "552", "501", "Invalid recipient", "Command contains invalid characters"];
    if Q.IsPermanentDeliveryError(err) {
      var k := if Contains(err, "550") then 0 else if Contains(err, "554") then 1 else if Contains(err, "552") then 2
        else if Contains(err, "501") then 3 else if Contains(err, "Invalid recipient") then 4 else 5;
      var needle := needles[k];
      assert needle in needles && Contains(err, needle);
      var i := FoundAt(err, needle);
    }
    if i: nat, needle :| needle in needles && OccursAt(err, needle, i) {
      ContainedAt(err, needle, i);
    }
  }

  lemma BadCommandPermanent()
    ensures Q.IsPermanentDeliveryError(BAD_COMMAND)
  {
    hide Q.IsPermanentDeliveryError;
    NeedleAnywhere("", "Command contains invalid characters", "");
    assert "" + "Command contains invalid characters" + "" == BAD_COMMAND;
  }

  lemma NoResponseTransient()
    ensures !Q.IsPermanentDeliveryError(NO_RESPONSE)
  {
    hide Q.IsPermanentDeliveryError;
    Harmless(NO_RESPONSE);
  }

  /** The client's own two refusals to send are permanent: neither is ever queued. A silent server is not. */
  lemma OwnErrorsPermanent(q: Q.World, id: Q.Id, msg: Q.Msg, fate: W.EnqueueFate)
    requires Q.Unused(q, id)
    ensures W.SendSteps(q, id, msg, W.Error(BAD_COMMAND), fate) == q
    ensures W.SendSteps(q, id, msg, W.Error("Invalid recipient" + " email address"), fate) == q
    ensures W.SendSteps(q, id, msg, W.Error(NO_RESPONSE), fate) == W.EnqueueSteps(q, id, msg, fate)
  {
    hide Q.IsPermanentDeliveryError, W.EnqueueSteps;
    BadCommandPermanent();
    NoResponseTransient();
    NeedleAnywhere("", "Invalid recipient", " email address");
    assert "" + "Invalid recipient" + " email address" == "Invalid recipient" + " email address";
  }

  // ---------- the server's replies ----------

  /** A hard reply: its code begins with 5. */
  predicate Hard(r: Reply) {
    Code(r)[0] == '5'
  }

  predicate Listed(code: string) {
    code == "550" || code == "554" || code == "552" || code == "501"
  }

  /** The hard replies the classifier does not know. */
  predicate Unlisted(r: Reply) {
    r == Unrecognized || r == DataExpected || r == NotImplemented || r == BadSequence
  }

  /** A code needle in a text `code message` is the code itself or is in the message. */
  lemma CodeNeedle(code: string, message: string, p: string)
    requires |code| == |p| == 3 && ' ' !in p
    ensures Contains(code + " " + message, p) <==> code == p || Contains(message, p)
  {
    ContainsAcross(code, ' ', message, p);
    if code == p {
      assert code[0..0 + |p|] == p;
      ContainedAt(code, p, 0);
    }
    if Contains(code, p) {
      assert OccursAt(code, p, 0);
      assert code[0..0 + |p|] == code;
    }
  }

  predicate Lacks(s: string, c: char) {
    forall i :: 0 <= i < |s| ==> s[i] != c
  }

  /** Free of the `5` of every code and of the `v` of both phrases. */
  predicate Bland(s: string) {
    Lacks(s, '5') && Lacks(s, 'v')
  }

  lemma SoftBland(r: Reply)
    requires r == ActionAborted || r == TryLater
    ensures Bland(Phrase(r))
  {
    match r
    case ActionAborted => assert Bland("Requested action aborted");
    case TryLater => assert Bland("Please try again later");
  }

  lemma SyntaxBland(r: Reply)
    requires r == Unrecognized || r == DataExpected || r == BadAddress || r == BadSender
    ensures Bland(Phrase(r))
  {
    match r
    case Unrecognized => assert Bland("Syntax error, command unrecognized");
    case DataExpected => assert Bland("Error");
    case BadAddress => assert Bland("Syntax error in address");
    case BadSender => assert Bland("Syntax error");
  }

  lemma DeniedBland(r: Reply)
    requires r == NotImplemented || r == UserNotFound || r == SenderDenied || r == SpfFailed
    ensures Bland(Phrase(r))
  {
    match r
    case NotImplemented => assert Bland("Command not implemented");
    case UserNotFound => assert Bland("User Not Found");
    case SenderDenied => assert Bland("Sender Denied");
    case SpfFailed => assert Bland("SPF Validation Failed");
  }

  lemma SequenceBland()
    ensures Bland(Phrase(BadSequence))
  {
    assert Bland("Bad sequence of commands (MAIL FROM first)");
  }

  lemma BlockedBland()
    ensures Bland(Phrase(AddressBlocked))
  {
    assert Bland("Connection refused - IP address blocked");
  }

  lemma TooLargeBland()
    ensures Bland(Phrase(MessageTooLarge))
  {
    assert Bland("Message size exceeds ");
    assert Bland("fixed maximum message size");
  }

  lemma RefusalsBland(r: Reply)
    requires !Positive(r) && r != TlsUnavailable
    ensures Bland(Phrase(r))
  {
    hide Phrase, Bland;
    if r == ActionAborted || r == TryLater {
      SoftBland(r);
    } else if r == Unrecognized || r == DataExpected || r == BadAddress || r == BadSender {
      SyntaxBland(r);
    } else if r == BadSequence {
      SequenceBland();
    } else if r == AddressBlocked {
      BlockedBland();
    } else if r == MessageTooLarge {
      TooLargeBland();
    } else {
      DeniedBland(r);
    }
  }

  lemma TlsUnavailableText()
    ensures Lacks(Phrase(TlsUnavailable), '5')
    ensures Lacks(Phrase(TlsUnavailable), 'I')
    ensures Lacks(Phrase(TlsUnavailable), 'C')
  {
    var s := "TLS not available due to temporary reason";
    assert Lacks(s, '5') && Lacks(s, 'I') && Lacks(s, 'C');
  }

  /** A dot keeps the digits of an enhanced status code apart. */
  lemma EnhancedHasNoCode(r: Reply, p: string)
    requires |p| == 3 && '.' !in p
    ensures !Contains(Enhanced(r), p)
  {
    hide Contains;
    var e := Enhanced(r);
    if e == "" {
      ShorterThan(e, p);
    } else {
      assert e == [e[0]] + ['.'] + ([e[2]] + ['.'] + [e[4]]);
      ContainsAcross([e[0]], '.', [e[2]] + ['.'] + [e[4]], p);
      ContainsAcross([e[2]], '.', [e[4]], p);
      ShorterThan([e[0]], p);
      ShorterThan([e[2]], p);
      ShorterThan([e[4]], p);
    }
  }

  lemma ShorterThan(s: string, p: string)
    requires |s| < |p|
    ensures !Contains(s, p)
  {
  }

  /** No message of a refusal contains a code. */
  lemma MessagesHaveNoCode(r: Reply, p: string)
    requires !Positive(r) && '5' in p && '.' !in p && ' ' !in p && |p| == 3
    ensures !Contains(Message(r), p)
  {
    hide Contains, Phrase, Enhanced, Code;
    if r == TlsUnavailable {
      TlsUnavailableText();
    } else {
      RefusalsBland(r);
    }
    NeedsChar(Phrase(r), p, '5');
    EnhancedHasNoCode(r, p);
    ContainsAcross(Enhanced(r), ' ', Phrase(r), p);
  }

  lemma AnswerLacks(r: Reply, c: char)
    requires Lacks(Phrase(r), c) && !IsDigit(c) && c != '.' && c != ' '
    ensures Lacks(ReplyText(r), c)
  {
    hide Phrase, Enhanced, Code;
  }

  lemma PhraseNeedsV(s: string)
    requires Lacks(s, 'v')
    ensures !Contains(s, "Invalid recipient") && !Contains(s, "Command contains invalid characters")
  {
    hide Contains;
    NeedsChar(s, "Invalid recipient", 'v');
    NeedsChar(s, "Command contains invalid characters", 'v');
  }

  lemma PhraseNeedsCapital(s: string)
    requires Lacks(s, 'I') && Lacks(s, 'C')
    ensures !Contains(s, "Invalid recipient") && !Contains(s, "Command contains invalid characters")
  {
    hide Contains;
    NeedsChar(s, "Invalid recipient", 'I');
    NeedsChar(s, "Command contains invalid characters", 'C');
  }

  lemma AnswersHaveNoPhrase(r: Reply)
    requires !Positive(r)
    ensures !Contains(ReplyText(r), "Invalid recipient")
    ensures !Contains(ReplyText(r), "Command contains invalid characters")
  {
    hide Contains, ReplyText, Code, Phrase, Lacks;
    if r == TlsUnavailable {
      TlsUnavailableText();
      AnswerLacks(r, 'I');
      AnswerLacks(r, 'C');
      PhraseNeedsCapital(ReplyText(r));
    } else {
      RefusalsBland(r);
      AnswerLacks(r, 'v');
      PhraseNeedsV(ReplyText(r));
    }
  }

  /** A refusal by this server counts as permanent exactly if its code is one of the four. */
  lemma AnswerClassified(r: Reply)
    requires !Positive(r)
    ensures Q.IsPermanentDeliveryError(ReplyText(r)) <==> Listed(Code(r))
  {
    hide Message, Code, Contains;
    AnswersHaveNoPhrase(r);
    CodeNeedle(Code(r), Message(r), "550");
    CodeNeedle(Code(r), Message(r), "554");
    CodeNeedle(Code(r), Message(r), "552");
    CodeNeedle(Code(r), Message(r), "501");
    MessagesHaveNoCode(r, "550");
    MessagesHaveNoCode(r, "554");
    MessagesHaveNoCode(r, "552");
    MessagesHaveNoCode(r, "501");
  }

  lemma HardCodesMissed(r: Reply)
    requires !Positive(r)
    ensures Hard(r) <==> Listed(Code(r)) || Unlisted(r)
    ensures !(Listed(Code(r)) && Unlisted(r))
  {
  }

  /**
    A refused RCPT or MAIL is classified by its code, as documented, exactly when the code is listed,
    or the reply is soft and the address contains none of the six texts, or the code is one of the
    hard ones the classifier misses and the address contains one of them.
   */
  lemma ClassifiedByCodeIff(addr: string, r: Reply)
    requires !Positive(r)
    ensures (Q.IsPermanentDeliveryError(SmtpError(RcptCommand(addr), ReplyText(r))) <==> Hard(r))
            <==> Listed(Code(r))
                 || (!Hard(r) && !Q.IsPermanentDeliveryError(addr))
                 || (Unlisted(r) && Q.IsPermanentDeliveryError(addr))
    ensures Q.IsPermanentDeliveryError(SmtpError(MailCommand(addr), ReplyText(r)))
            <==> Q.IsPermanentDeliveryError(SmtpError(RcptCommand(addr), ReplyText(r)))
  {
    hide Q.IsPermanentDeliveryError, ReplyText, Code;
    ErrorTextSplits(RcptCommand(addr), ReplyText(r));
    ErrorTextSplits(MailCommand(addr), ReplyText(r));
    OnlyTheAddressMatters(addr);
    AnswerClassified(r);
    HardCodesMissed(r);
  }

  // ---------- over the wire and into the queue ----------

  /** The client reports a refused recipient with the command and the server's own words. */
  lemma RefusalReported(s: Session, sender: string, recipient: string, body: string, world: nat -> World,
                        clock: nat, r: Reply)
    requires s.open && s.phase == MailFrom && !HasBreak(sender) && !HasBreak(recipient) && !Positive(r)
    requires RcptStep(AfterMail(s, sender), RcptCommand(recipient), world(clock + 1)).replies == [r]
    ensures var f := MailFlow(s, sender, recipient, body, world, clock);
            && f.error == Some(SmtpError(RcptCommand(recipient), ReplyText(r)))
            && f.outcome.deliveries == []
  {
    hide Step, RcptStep, MailCommand, RcptCommand, ExtractSender, Code, Trim, SmtpError, ReplyText;
    BreaksAreInAddresses(sender);
    BreaksAreInAddresses(recipient);
    AcceptedCodes();
    MailSent(s, sender, world(clock));
    var s1 := AfterMail(s, sender);
    RcptSent(s1, recipient, world(clock + 1));
    RcptPositiveIff(s1, RcptCommand(recipient), world(clock + 1));
  }

  /**
    A message to a recipient this server puts off is queued for another try exactly when the
    recipient's address contains none of the six texts; otherwise it is given up, with nothing
    queued, and a queued job for it is failed for good on the spot, whatever its attempts.
   */
  lemma PutOffIsQueuedIff(s: Session, sender: string, recipient: string, body: string, world: nat -> World, clock: nat,
                          r: Reply, q: Q.World, id: Q.Id, fate: W.EnqueueFate, job: Q.Job)
    requires s.open && s.phase == MailFrom && !HasBreak(sender) && !HasBreak(recipient) && !Positive(r) && !Hard(r)
    requires RcptStep(AfterMail(s, sender), RcptCommand(recipient), world(clock + 1)).replies == [r]
    requires Q.Unused(q, id) && fate.mkdirOk && fate.write.None? && fate.insertOk
    ensures var f := MailFlow(s, sender, recipient, body, world, clock);
            f.error.Some? &&
            var q' := W.SendSteps(q, id, Q.Msg(sender, recipient, body), W.Error(f.error.value), fate);
            && (id in q'.table <==> !Q.IsPermanentDeliveryError(recipient))
            && (Q.IsPermanentDeliveryError(recipient) ==>
                  q' == q && Q.Verdict(job, f.error.value) == (Q.Failed, job.row.attempts + 1, Q.YEAR))
  {
    hide Q.IsPermanentDeliveryError, MailFlow, W.EnqueueSteps, RcptStep, SmtpError, ReplyText, Code, HasBreak;
    RefusalReported(s, sender, recipient, body, world, clock, r);
    ClassifiedByCodeIff(recipient, r);
    HardCodesMissed(r);
    W.EnqueueAllOrNothing(q, id, Q.Msg(sender, recipient, body), fate);
  }

  lemma AliasReplies(s: Session, w: World, local: string, domain: string)
    requires s.phase == RcptTo && PlainAlias(local, domain)
    ensures var replies := RcptStep(s, RcptCommand(local + "@" + domain), w).replies;
            && (w.aliases(local, domain).DbError? ==> replies == [ActionAborted])
            && (w.aliases(local, domain).Missing? && w.failures < w.tarpitThreshold && w.failures < w.blockThreshold ==>
                  replies == [UserNotFound])
            && (w.aliases(local, domain).Missing? && w.tarpitThreshold <= w.failures < w.blockThreshold ==>
                  replies == [TryLater])
  {
    hide ExtractRecipient, TargetOf, RcptCommand, Lower;
    AddressesRead(local + "@" + domain);
    AliasTargetOf(local, domain, w);
  }

  /**
    This repository's own client against its own server: when the server's database fails, the
    message is queued for another try, unless the address contains one of the six texts.
   */
  lemma DatabaseFailureIsQueued(s: Session, w: World, sender: string, local: string, domain: string, body: string,
                                q: Q.World, id: Q.Id, fate: W.EnqueueFate)
    requires s.open && s.phase == MailFrom && !HasBreak(sender) && !HasBreak(local + "@" + domain)
    requires PlainAlias(local, domain) && w.aliases(local, domain).DbError?
    requires Q.Unused(q, id) && fate.mkdirOk && fate.write.None? && fate.insertOk
    ensures var to := local + "@" + domain;
            var error := MailFlow(s, sender, to, body, Always(w), 0).error;
            error.Some? &&
            var q' := W.SendSteps(q, id, Q.Msg(sender, to, body), W.Error(error.value), fate);
            id in q'.table <==> !Q.IsPermanentDeliveryError(to)
  {
    hide Q.IsPermanentDeliveryError, MailFlow, RcptStep, SmtpError, ReplyText, HasBreak, PlainAlias, W.SendSteps;
    AliasReplies(AfterMail(s, sender), w, local, domain);
    var job := Q.Job(id, Q.Row(sender, local + "@" + domain, 0, 1, Q.Pending, 0, None));
    PutOffIsQueuedIff(s, sender, local + "@" + domain, body, Always(w), 0, ActionAborted, q, id, fate, job);
  }

  /** An unknown alias is given up at once: the client reports the 550 and nothing is queued. */
  lemma UnknownAliasIsGivenUp(s: Session, w: World, sender: string, local: string, domain: string, body: string,
                              q: Q.World, id: Q.Id, fate: W.EnqueueFate)
    requires s.open && s.phase == MailFrom && !HasBreak(sender) && !HasBreak(local + "@" + domain)
    requires PlainAlias(local, domain) && w.aliases(local, domain).Missing?
    requires w.failures < w.tarpitThreshold && w.failures < w.blockThreshold && Q.Unused(q, id)
    ensures var to := local + "@" + domain;
            var error := MailFlow(s, sender, to, body, Always(w), 0).error;
            && error == Some(SmtpError(RcptCommand(to), "550" + " " + "User Not Found"))
            && W.SendSteps(q, id, Q.Msg(sender, to, body), W.Error(error.value), fate) == q
  {
    hide Q.IsPermanentDeliveryError, MailFlow, RcptStep, SmtpError, HasBreak, PlainAlias, RcptCommand;
    var to := local + "@" + domain;
    AliasReplies(AfterMail(s, sender), w, local, domain);
    RefusalReported(s, sender, to, body, Always(w), 0, UserNotFound);
    ClassifiedByCodeIff(to, UserNotFound);
    HardWords();
  }

  const FLAT550: string := "flat550"
  const X_ORG: string := "x.org"

  lemma FlatAddress()
    ensures Lower(FLAT550 + "@" + X_ORG) == FLAT550 + "@" + X_ORG
    ensures '@' !in FLAT550 && '@' !in X_ORG
    ensures !("reply-" <= FLAT550) && !("srs0+" <= Lower(FLAT550))
    ensures CleanEnds(FLAT550 + "@" + X_ORG, IsAngle) && !HasBreak(FLAT550 + "@" + X_ORG)
    ensures Q.IsPermanentDeliveryError(FLAT550 + "@" + X_ORG)
  {
    var addr := FLAT550 + "@" + X_ORG;
    assert Lower(FLAT550)[0] == 'f';
    assert addr[4..4 + |"550"|] == "550";
    ContainedAt(addr, "550", 4);
  }

  /**
    One such address: the server greylists it with a 451, which is not hard, and the sending side
    gives the message up at once, without queueing it and whatever attempts a queued job has left.
   */
  lemma GreylistedAddressGivenUp(w: World, sender: string, body: string, q: Q.World, id: Q.Id,
                                 fate: W.EnqueueFate, job: Q.Job)
    requires w.aliases(FLAT550, X_ORG).Missing? && w.tarpitThreshold <= w.failures < w.blockThreshold
    requires !HasBreak(sender) && Q.Unused(q, id)
    ensures var to := FLAT550 + "@" + X_ORG;
            var error := MailFlow(Fresh.(phase := MailFrom), sender, to, body, Always(w), 0).error;
            && error == Some(SmtpError(RcptCommand(to), ReplyText(TryLater))) && !Hard(TryLater)
            && W.SendSteps(q, id, Q.Msg(sender, to, body), W.Error(error.value), fate) == q
            && Q.Verdict(job, error.value) == (Q.Failed, job.row.attempts + 1, Q.YEAR)
  {
    hide Q.IsPermanentDeliveryError, MailFlow, RcptStep, SmtpError, ReplyText, HasBreak, RcptCommand, Lower, CleanEnds;
    var s, to := Fresh.(phase := MailFrom), FLAT550 + "@" + X_ORG;
    FlatAddress();
    AliasReplies(AfterMail(s, sender), w, FLAT550, X_ORG);
    RefusalReported(s, sender, to, body, Always(w), 0, TryLater);
    ClassifiedByCodeIff(to, TryLater);
  }

  /** And the hard codes that are missed: such a refusal is tried again until the attempts are used up. */
  lemma MissedHardReplyRetried(addr: string, r: Reply, job: Q.Job)
    requires Unlisted(r) && !Q.IsPermanentDeliveryError(addr) && job.row.attempts + 1 < job.row.maxAttempts
    ensures Hard(r)
    ensures Q.Verdict(job, SmtpError(RcptCommand(addr), ReplyText(r))).0 == Q.Pending
  {
    hide Q.IsPermanentDeliveryError, ReplyText, SmtpError;
    assert !Positive(r);
    HardCodesMissed(r);
    ClassifiedByCodeIff(addr, r);
  }
}
