/**
  End to end: the client's mail transaction against the inbound session. If the client reports
  success the server has taken exactly one delivery, made of exactly the client's body.
 */
module SmtpDelivery {
  import opened Text
  import opened DotStuffing
  import opened BodyBuffer
  import opened SmtpCommands
  import opened SmtpSession
  import opened SmtpHistory
  import opened SmtpClient

  /** Where a message really goes: a mapping left over from earlier on the connection overrides an alias. */
  function Effective(s: Session, accepted: Accepted): Accepted {
    if accepted.ByAlias? && s.replyMapping.Some? then ByToken(s.replyMapping.value) else accepted
  }

  /** The one delivery a finished transaction stands for; metadata is parsed from the first `readable` bytes. */
  function FinalDelivery(sender: Option<string>, target: Accepted, body: string, readable: nat, w: World): Delivery {
    match target
    case ByToken(mapping) =>
      var alias := mapping.subdomain + "@" + mapping.domain;
      Relayed(mapping.originalSender, alias, w.prepare(body, alias, mapping.originalSender))
    case ByAlias(row) =>
      var metadata := w.parse(Take(body, readable), sender.GetOr(""));
      var left := if |body| <= 65_536 then body else "";
      var forward := if row.autoForward then Some(Forward(row.destination, metadata.sender, left)) else None;
      Stored(row.id, metadata, w.thread(ThreadRefs(metadata)), w.bodyKey, body, w.labels(left), forward)
  }

  function AfterMail(s: Session, sender: string): Session {
    s.(sender := ExtractSender(MailCommand(sender)), phase := RcptTo)
  }

  function RcptEntry(recipient: string, w: World): Entry {
    Entry(RcptCommand(recipient) + "\r\n", w, [RecipientOk])
  }

  /** The position of the terminating dot among the lines of a transaction. */
  function DotAt(body: string): nat {
    3 + |Lines(BodyOnWire(body))|
  }

  /** What is needed of the database: a relayed message needs no row. */
  predicate RowInserted(target: Accepted, w: World) {
    target.ByAlias? ==> w.insertOk
  }

  /** What it takes for a transaction to succeed: plain addresses, an accepted recipient, a body that fits, a row. */
  predicate Acceptable(s: Session, sender: string, recipient: string, body: string, world: nat -> World, clock: nat) {
    && !HasBreak(sender) && !HasBreak(recipient)
    && RcptStep(AfterMail(s, sender), RcptCommand(recipient), world(clock + 1)).replies == [RecipientOk]
    && |EnsureCrLf(body)| <= 26_214_400
    && (match AcceptedBy(RcptEntry(recipient, world(clock + 1)))
        case Some(accepted) => RowInserted(Effective(s, accepted), world(clock + DotAt(body)))
        case None => false)
  }

  lemma BreaksAreInAddresses(addr: string)
    ensures HasBreak(MailCommand(addr)) <==> HasBreak(addr)
    ensures HasBreak(RcptCommand(addr)) <==> HasBreak(addr)
  {
    assert MailCommand(addr)[11..|addr| + 11] == addr;
    assert RcptCommand(addr)[9..|addr| + 9] == addr;
    if HasBreak(addr) {
      var i :| 0 <= i < |addr| && (addr[i] == '\r' || addr[i] == '\n');
      assert MailCommand(addr)[11 + i] == addr[i] && RcptCommand(addr)[9 + i] == addr[i];
    }
  }

  /** The terminator: a positive reply exactly when the one delivery was made. */
  lemma DotStep(s: Session, before: Session, accepted: Accepted, w: World)
    requires s.phase == ReadingBody && s.sender.Some?
    requires Recorded(before, s.(phase := Data, body := before.body, readable := before.readable), accepted)
    ensures var o := BodyStep(s, ".\r\n", w);
            var target := Effective(before, accepted);
            var good := o.replies != [] && Positive(o.replies[0]);
            && (good ==> o.deliveries == [FinalDelivery(s.sender, target, s.body, s.readable, w)]
                         && |o.replies| == 1 && RowInserted(target, w)
                         && o.next == s.(phase := Greet, body := "", readable := 0))
            && (!good ==> forall d :: d in o.deliveries ==> d.Orphaned?)
            && (w.disk.Works? && RowInserted(target, w) ==> good)
  {
    hide IsTerminator;
    TerminatorRecognised("");
    match Effective(before, accepted)
    case ByToken(mapping) => RelayDot(s, mapping, w);
    case ByAlias(row) => StoreDot(s, row, w);
  }

  lemma RelayDot(s: Session, mapping: ReplyMapping, w: World)
    ensures var o := RelayStep(s, mapping, w);
            || (o.replies == [] && o.deliveries == [] && w.disk.Fails?)
            || (o.replies == [ReplyRelayed] && Positive(ReplyRelayed)
                && o.next == s.(phase := Greet, body := "", readable := 0)
                && o.deliveries == [FinalDelivery(s.sender, ByToken(mapping), s.body, s.readable, w)])
  {
  }

  lemma StoreDot(s: Session, row: AliasRow, w: World)
    requires s.aliasId == Some(row.id) && s.destination == Some(row.destination) && s.autoForward == row.autoForward
    ensures var o := StoreStep(s, w);
            || (o.replies == [] && o.deliveries == [] && w.disk.Fails?)
            || (o.replies == [ActionAborted] && !Positive(ActionAborted) && !w.insertOk
                && o.deliveries == [Orphaned(w.bodyKey, s.body)])
            || (o.replies == [QueuedAs(w.bodyKey)] && Positive(QueuedAs(w.bodyKey)) && w.insertOk
                && o.next == s.(phase := Greet, body := "", readable := 0)
                && o.deliveries == [FinalDelivery(s.sender, ByAlias(row), s.body, s.readable, w)])
  {
  }

  // ---------- the transaction on values ----------

  /** Surroundings that stay the same. */
  function Always(w: World): nat -> World {
    _ => w
  }

  /** MAIL, RCPT and DATA, stopping at the first refusal. */
  function Envelope(s: Session, sender: string, recipient: string, world: nat -> World, clock: nat): Sent {
    var mail := SendLine(s, MailCommand(sender), world(clock));
    if !mail.Ok() then mail
    else
      var rcpt := SendLine(mail.outcome.next, RcptCommand(recipient), world(clock + 1));
      if !rcpt.Ok() then Sent(rcpt.error, mail.outcome.Then(rcpt.outcome))
      else
        var data := SendLine(rcpt.outcome.next, "DATA", world(clock + 2));
        Sent(data.error, mail.outcome.Then(rcpt.outcome).Then(data.outcome))
  }

  /** The body and the terminating dot. */
  function BodyTransfer(s: Session, body: string, world: nat -> World, clock: nat): Sent {
    var o := RunLines(s, Lines(BodyOnWire(body)) + [".\r\n"], world, clock);
    Sent(ErrorOf(".", o.replies), o)
  }

  /** Everything after DATA: the body, the dot, and QUIT if the dot was taken. */
  function Finish(s: Session, body: string, world: nat -> World, clock: nat): Sent {
    var transfer := BodyTransfer(s, body, world, clock);
    if !transfer.Ok() then transfer
    else
      var quit := SendLine(transfer.outcome.next, "QUIT", world(clock + |Lines(BodyOnWire(body))| + 1));
      Sent(quit.error, transfer.outcome.Then(quit.outcome))
  }

  /** The whole transaction. */
  function MailFlow(s: Session, sender: string, recipient: string, body: string, world: nat -> World, clock: nat): Sent
  {
    var envelope := Envelope(s, sender, recipient, world, clock);
    if !envelope.Ok() then envelope
    else
      var finish := Finish(envelope.outcome.next, body, world, clock + 3);
      Sent(finish.error, envelope.outcome.Then(finish.outcome))
  }

  lemma AcceptedCodes()
    ensures Positive(SenderOk) && Positive(RecipientOk) && Positive(StartMail) && Positive(Closing)
    ensures !Positive(MessageTooLarge)
  {
  }

  lemma PlainCommands(addr: string)
    ensures MailCommand(addr) != "" && CleanEnds(MailCommand(addr), IsSpace)
    ensures RcptCommand(addr) != "" && CleanEnds(RcptCommand(addr), IsSpace)
  {
  }

  lemma PlainWords()
    ensures CleanEnds("DATA", IsSpace) && !HasBreak("DATA")
    ensures CleanEnds("QUIT", IsSpace) && !HasBreak("QUIT")
  {
  }

  /** The envelope succeeds exactly when both addresses are plain and the recipient is accepted. */
  lemma EnvelopeMeaning(s: Session, sender: string, recipient: string, world: nat -> World, clock: nat)
    requires s.open && s.phase == MailFrom
    ensures var e := Envelope(s, sender, recipient, world, clock);
            var rcpt := RcptStep(AfterMail(s, sender), RcptCommand(recipient), world(clock + 1));
            && (e.Ok() <==> !HasBreak(sender) && !HasBreak(recipient) && rcpt.replies == [RecipientOk])
            && (e.Ok() ==>
                  && e.outcome.next == rcpt.next.(phase := ReadingBody)
                  && e.outcome.replies == [SenderOk, RecipientOk, StartMail])
            && e.outcome.deliveries == []
  {
    hide Step, RcptStep, AcceptedBy, MailCommand, RcptCommand, ExtractSender, Code, Trim;
    BreaksAreInAddresses(sender);
    BreaksAreInAddresses(recipient);
    AcceptedCodes();
    PlainWords();
    PlainCommands(recipient);
    var s1 := AfterMail(s, sender);
    var rcpt := RcptStep(s1, RcptCommand(recipient), world(clock + 1));
    MailSent(s, sender, world(clock));
    RcptSent(s1, recipient, world(clock + 1));
    RcptPositiveIff(s1, RcptCommand(recipient), world(clock + 1));
    if rcpt.replies == [RecipientOk] {
      CommandAsRead(RcptCommand(recipient));
      RcptRecords(s1, RcptCommand(recipient), world(clock + 1), RcptEntry(recipient, world(clock + 1)));
      assert "DATA" + "\r\n" == "DATA\r\n";
      DataSent(rcpt.next, world(clock + 2));
    }
  }

  /** The body transfer succeeds with the final delivery, or delivers at most an orphaned file. */
  lemma TransferMeaning(s: Session, before: Session, accepted: Accepted, body: string, world: nat -> World, clock: nat)
    requires s.open && s.phase == ReadingBody && s.body == "" && s.readable == 0 && s.sender.Some?
    requires Recorded(before, s.(phase := Data, body := before.body, readable := before.readable), accepted)
    ensures var t := BodyTransfer(s, body, world, clock);
            var target := Effective(before, accepted);
            var w := world(clock + |Lines(BodyOnWire(body))|);
            var n := ReadableAfter("", 0, Lines(BodyOnWire(body)), world, clock);
            var fits := |EnsureCrLf(body)| <= MAX_TOTAL_SIZE;
            && (t.Ok() ==>
                  && fits && RowInserted(target, w) && |t.outcome.replies| == 1
                  && t.outcome.deliveries == [FinalDelivery(s.sender, target, EnsureCrLf(body), n, w)]
                  && t.outcome.next.phase == Greet)
            && (!t.Ok() ==> forall d :: d in t.outcome.deliveries ==> d.Orphaned?)
            && (fits && RowInserted(target, w) && (forall k :: world(k).disk.Works?) ==> t.Ok())
  {
    hide BodyStep, RunLines, Lines, Code, FinalDelivery, Recorded, RowInserted, EnsureCrLf, ReadableAfter;
    hide ReplyText, Effective;
    BodyAndDot(s, body, world, clock);
    AcceptedCodes();
    var s' := Filled(s, body, world, clock);
    DotStep(s', before, accepted, world(clock + |Lines(BodyOnWire(body))|));
  }

  /**
    End to end, from any session that waits for MAIL: success means the server made exactly one
    delivery, built from this transaction's sender, its recipient's row (or the reply token accepted
    last, if there was one) and the client's body with a CR LF added only if missing, and that
    five commands were answered by five replies. Failure means no row was inserted and nothing was
    relayed. On a working disk the transaction succeeds exactly when it is acceptable.
   */
  lemma EndToEnd(s: Session, sender: string, recipient: string, body: string, world: nat -> World, clock: nat)
    requires s.open && s.phase == MailFrom && s.body == "" && s.readable == 0
    ensures var f := MailFlow(s, sender, recipient, body, world, clock);
            var accepted := AcceptedBy(RcptEntry(recipient, world(clock + 1)));
            var n := ReadableAfter("", 0, Lines(BodyOnWire(body)), world, clock + 3);
            && (f.Ok() ==>
                  && Acceptable(s, sender, recipient, body, world, clock)
                  && accepted.Some?
                  && f.outcome.deliveries ==
                       [FinalDelivery(ExtractSender(MailCommand(sender)), Effective(s, accepted.value),
                                      EnsureCrLf(body), n, world(clock + DotAt(body)))]
                  && |f.outcome.replies| == 5 && !f.outcome.next.open)
            && (!f.Ok() ==> forall d :: d in f.outcome.deliveries ==> d.Orphaned?)
            && ((forall k :: world(k).disk.Works?) ==>
                  (f.Ok() <==> Acceptable(s, sender, recipient, body, world, clock)))
  {
    hide Step, RcptStep, AcceptedBy, MailCommand, RcptCommand, ExtractSender, Trim, Envelope, Finish, FinalDelivery;
    hide EnsureCrLf, Lines, Recorded, ReadableAfter, Effective, RowInserted;
    EnvelopeMeaning(s, sender, recipient, world, clock);
    var envelope := Envelope(s, sender, recipient, world, clock);
    if envelope.Ok() {
      var s1, e := AfterMail(s, sender), RcptEntry(recipient, world(clock + 1));
      MailSent(s, sender, world(clock));
      assert RcptCommand(recipient) == Trim(e.line) by {
        PlainCommands(recipient);
        CommandAsRead(RcptCommand(recipient));
      }
      RcptRecords(s1, RcptCommand(recipient), world(clock + 1), e);
      var s2 := RcptStep(s1, RcptCommand(recipient), world(clock + 1)).next;
      RecordedBody(s1, envelope.outcome.next, AcceptedBy(e).value, s2);
      FinishMeaning(envelope.outcome.next, s1, AcceptedBy(e).value, body, world, clock + 3);
      SameMapping(s, s1, AcceptedBy(e).value);
    }
  }

  lemma SameMapping(s: Session, s': Session, accepted: Accepted)
    requires s.replyMapping == s'.replyMapping
    ensures Effective(s, accepted) == Effective(s', accepted)
  {
  }

  /**
    Every connection that waits for MAIL, whatever came before, is in a state from which a
    transaction is served as `EndToEnd` says; the mapping it may be overridden by is the reply
    token accepted last.
   */
  lemma ReadyForMail(inputs: seq<Input>)
    requires StateAfter(inputs).open && StateAfter(inputs).phase == MailFrom
    ensures StateAfter(inputs).body == "" && StateAfter(inputs).readable == 0
    ensures StateAfter(inputs).replyMapping == LastToken(History(inputs))
  {
    hide StateAfter, History;
    AlwaysLinked(inputs);
  }

  /** What metadata is parsed from in a transaction: a prefix of the body, and all of a body that stays in memory. */
  lemma TransferReadable(body: string, world: nat -> World, clock: nat)
    ensures var n := ReadableAfter("", 0, Lines(BodyOnWire(body)), world, clock);
            && n <= |EnsureCrLf(body)|
            && (|EnsureCrLf(body)| <= 65_536 ==> Take(EnsureCrLf(body), n) == EnsureCrLf(body))
  {
    hide ReadableAfter, Lines, BodyOnWire, Received, IsTerminator, EnsureCrLf;
    var lines := Lines(BodyOnWire(body));
    Transparency(body);
    ReadableWithin("", 0, lines, world, clock);
    assert "" + Received(lines) == EnsureCrLf(body);
  }

  lemma RecordedBody(s1: Session, s3: Session, accepted: Accepted, s2: Session)
    requires Recorded(s1, s2, accepted) && s3 == s2.(phase := ReadingBody)
    ensures s2.phase == Data && s3.body == s1.body && s3.readable == s1.readable && s3.sender == s1.sender
    ensures s3.open == s1.open
    ensures Recorded(s1, s3.(phase := Data, body := s1.body, readable := s1.readable), accepted)
  {
    assert s3.(phase := Data, body := s1.body, readable := s1.readable) == s2;
  }

  lemma FinishMeaning(s: Session, before: Session, accepted: Accepted, body: string, world: nat -> World, clock: nat)
    requires s.open && s.phase == ReadingBody && s.body == "" && s.readable == 0 && s.sender.Some?
    requires Recorded(before, s.(phase := Data, body := before.body, readable := before.readable), accepted)
    ensures var f := Finish(s, body, world, clock);
            var target := Effective(before, accepted);
            var w := world(clock + |Lines(BodyOnWire(body))|);
            var n := ReadableAfter("", 0, Lines(BodyOnWire(body)), world, clock);
            var fits := |EnsureCrLf(body)| <= MAX_TOTAL_SIZE;
            && (f.Ok() ==>
                  && fits && RowInserted(target, w) && |f.outcome.replies| == 2 && !f.outcome.next.open
                  && f.outcome.deliveries == [FinalDelivery(s.sender, target, EnsureCrLf(body), n, w)])
            && (!f.Ok() ==> forall d :: d in f.outcome.deliveries ==> d.Orphaned?)
            && (fits && RowInserted(target, w) && (forall k :: world(k).disk.Works?) ==> f.Ok())
  {
    hide Step, BodyTransfer, FinalDelivery, Recorded, Lines, EnsureCrLf, Code, RowInserted, ReadableAfter;
    hide Effective, ReplyText;
    TransferMeaning(s, before, accepted, body, world, clock);
    var transfer := BodyTransfer(s, body, world, clock);
    if transfer.Ok() {
      PlainWords();
      AcceptedCodes();
      assert "QUIT" + "\r\n" == "QUIT\r\n";
      QuitSent(transfer.outcome.next, world(clock + |Lines(BodyOnWire(body))| + 1));
    }
  }

  // ---------- the transaction as the program runs it ----------

  /** The body and the terminating dot, as the client writes them. */
  method SendBody(link: Link, body: string) returns (error: Option<string>)
    requires link.Valid() && link.InStep() && link.pending == ""
    modifies link, link.server, link.server.body
    ensures link.Valid() && link.pending == ""
    ensures var t := BodyTransfer(old(link.server.Abs()), body, link.world, old(link.clock));
            && error == t.error
            && link.server.Total() == old(link.server.Total()).Then(t.outcome)
            && (|t.outcome.replies| == 1 ==> link.InStep())
            && (t.outcome.next.open ==> link.clock == old(link.clock) + |Lines(BodyOnWire(body))| + 1)
  {
    hide RunLines, Lines;
    var stuffed := ApplyDotStuffing(body);
    var wire := stuffed;
    if !EndsCrLf(stuffed) {
      wire := wire + "\r\n";
    }
    StuffThenComplete(body);
    link.pending := wire;
    TerminatorRecognised(body);
    assert BodyOnWire(body) + "." + "\r\n" == BodyOnWire(body) + ".\r\n";
    error := link.SendCmd(".");
  }

  /** Where each accepted command of the envelope takes the server. */
  lemma EnvelopeStages(s: Session, sender: string, recipient: string, w0: World, w1: World, w2: World)
    requires s.open && s.phase == MailFrom
    ensures var mail := SendLine(s, MailCommand(sender), w0);
            var rcpt := SendLine(mail.outcome.next, RcptCommand(recipient), w1);
            var data := SendLine(rcpt.outcome.next, "DATA", w2);
            && (mail.Ok() ==> mail.outcome.next.open && mail.outcome.next.phase == RcptTo)
            && (mail.Ok() && rcpt.Ok() ==> rcpt.outcome.next.open && rcpt.outcome.next.phase == Data)
            && (mail.Ok() && rcpt.Ok() ==>
                  data.Ok() && data.outcome.next.open && data.outcome.next.phase == ReadingBody)
  {
    hide Step, RcptStep, AcceptedBy, MailCommand, RcptCommand, ExtractSender, Code, Trim;
    var s1 := AfterMail(s, sender);
    MailSent(s, sender, w0);
    RcptSent(s1, recipient, w1);
    RcptPositiveIff(s1, RcptCommand(recipient), w1);
    AcceptedCodes();
    PlainWords();
    PlainCommands(recipient);
    var rcpt := RcptStep(s1, RcptCommand(recipient), w1);
    if rcpt.replies == [RecipientOk] {
      CommandAsRead(RcptCommand(recipient));
      RcptRecords(s1, RcptCommand(recipient), w1, RcptEntry(recipient, w1));
      assert "DATA" + "\r\n" == "DATA\r\n";
      DataSent(rcpt.next, w2);
    }
  }

  /** MAIL and RCPT. */
  function Addressing(s: Session, sender: string, recipient: string, w0: World, w1: World): Sent {
    var mail := SendLine(s, MailCommand(sender), w0);
    if !mail.Ok() then mail
    else
      var rcpt := SendLine(mail.outcome.next, RcptCommand(recipient), w1);
      Sent(rcpt.error, mail.outcome.Then(rcpt.outcome))
  }

  method SendAddresses(link: Link, sender: string, recipient: string) returns (error: Option<string>)
    requires link.Valid() && link.InStep() && link.pending == ""
    requires link.server.open && link.server.phase == MailFrom
    modifies link, link.server, link.server.body
    ensures link.Valid() && link.InStep() && link.pending == ""
    ensures var n := old(link.clock);
            var a := Addressing(old(link.server.Abs()), sender, recipient, link.world(n), link.world(n + 1));
            && error == a.error
            && link.server.Total() == old(link.server.Total()).Then(a.outcome)
            && (error.None? ==> link.server.open && link.server.phase == Data && link.clock == old(link.clock) + 2)
  {
    hide SendLine, MailCommand, RcptCommand, CleanEnds, HasBreak, Positive, ErrorOf, ReplyText, Step;
    ghost var s, start, n := link.server.Abs(), link.server.Total(), link.clock;
    EnvelopeStages(s, sender, recipient, link.world(n), link.world(n + 1), link.world(n + 2));
    PlainCommands(sender);
    PlainCommands(recipient);
    ghost var mail := SendLine(s, MailCommand(sender), link.world(n));
    error := link.SendOne(MailCommand(sender));
    if error.Some? {
      return;
    }
    ghost var rcpt := SendLine(mail.outcome.next, RcptCommand(recipient), link.world(n + 1));
    error := link.SendOne(RcptCommand(recipient));
    ThenAssociative(start, mail.outcome, rcpt.outcome);
  }

  method SendEnvelope(link: Link, sender: string, recipient: string) returns (error: Option<string>)
    requires link.Valid() && link.InStep() && link.pending == ""
    requires link.server.open && link.server.phase == MailFrom
    modifies link, link.server, link.server.body
    ensures link.Valid() && link.InStep() && link.pending == ""
    ensures var e := Envelope(old(link.server.Abs()), sender, recipient, link.world, old(link.clock));
            && error == e.error
            && link.server.Total() == old(link.server.Total()).Then(e.outcome)
            && (error.None? ==>
                  link.server.open && link.server.phase == ReadingBody && link.clock == old(link.clock) + 3)
  {
    hide SendLine, MailCommand, RcptCommand, CleanEnds, HasBreak, Positive, ErrorOf, ReplyText, Step;
    ghost var s, start, n := link.server.Abs(), link.server.Total(), link.clock;
    ghost var addresses := Addressing(s, sender, recipient, link.world(n), link.world(n + 1));
    EnvelopeStages(s, sender, recipient, link.world(n), link.world(n + 1), link.world(n + 2));
    error := SendAddresses(link, sender, recipient);
    if error.Some? {
      return;
    }
    PlainWords();
    ghost var data := SendLine(addresses.outcome.next, "DATA", link.world(n + 2));
    error := link.SendOne("DATA");
    ThenAssociative(start, addresses.outcome, data.outcome);
  }

  method SendRest(link: Link, body: string) returns (error: Option<string>)
    requires link.Valid() && link.InStep() && link.pending == ""
    requires link.server.open && link.server.phase == ReadingBody
    requires link.server.Abs().body == "" && link.server.Abs().readable == 0
    modifies link, link.server, link.server.body
    ensures link.Valid() && (error.None? ==> link.InStep())
    ensures var f := Finish(old(link.server.Abs()), body, link.world, old(link.clock));
            && error == f.error
            && link.server.Total() == old(link.server.Total()).Then(f.outcome)
  {
    hide BodyTransfer, SendLine, Lines, BodyOnWire, CleanEnds, HasBreak, Positive, ErrorOf, ReplyText, Step;
    ghost var s, start, n := link.server.Abs(), link.server.Total(), link.clock;
    ghost var transfer := BodyTransfer(s, body, link.world, n);
    TransferStage(s, body, link.world, n);
    error := SendBody(link, body);
    if error.Some? {
      return;
    }
    PlainWords();
    assert link.server.Total() == start.Then(transfer.outcome);
    ghost var quit := SendLine(transfer.outcome.next, "QUIT", link.world(link.clock));
    error := link.SendOne("QUIT");
    ThenAssociative(start, transfer.outcome, quit.outcome);
  }

  /** A body transfer that the client takes for a success leaves one reply and an open session. */
  lemma TransferStage(s: Session, body: string, world: nat -> World, clock: nat)
    requires s.open && s.phase == ReadingBody && s.body == "" && s.readable == 0
    ensures var t := BodyTransfer(s, body, world, clock);
            t.Ok() ==> |t.outcome.replies| == 1 && t.outcome.next.open && t.outcome.next.phase == Greet
  {
    hide RunLines, Lines, IsTerminator, BodyOnWire;
    BodyAndDot(s, body, world, clock);
    AcceptedCodes();
    TerminatorRecognised(body);
  }

  /**
    The client's mail transaction, command by command: it does to the server and reports to its
    caller what `MailFlow` says, and on success no reply is left in flight.
   */
  method SendMailFlow(link: Link, sender: string, recipient: string, body: string) returns (error: Option<string>)
    requires link.Valid() && link.InStep() && link.pending == ""
    requires link.server.open && link.server.phase == MailFrom
    requires link.server.Abs().body == "" && link.server.Abs().readable == 0
    modifies link, link.server, link.server.body
    ensures var f := MailFlow(old(link.server.Abs()), sender, recipient, body, link.world, old(link.clock));
            && error == f.error
            && link.server.Total() == old(link.server.Total()).Then(f.outcome)
    ensures link.Valid() && (error.None? ==> link.InStep())
  {
    hide Envelope, Finish, RcptStep, MailCommand, RcptCommand;
    ghost var s, start, n := link.server.Abs(), link.server.Total(), link.clock;
    ghost var envelope := Envelope(s, sender, recipient, link.world, n);
    EnvelopeKeepsBody(s, sender, recipient, link.world, n);
    error := SendEnvelope(link, sender, recipient);
    if error.Some? {
      return;
    }
    ghost var finish := Finish(envelope.outcome.next, body, link.world, n + 3);
    error := SendRest(link, body);
    ThenAssociative(start, envelope.outcome, finish.outcome);
  }

  lemma EnvelopeKeepsBody(s: Session, sender: string, recipient: string, world: nat -> World, clock: nat)
    requires s.open && s.phase == MailFrom && s.body == "" && s.readable == 0
    ensures var e := Envelope(s, sender, recipient, world, clock);
            e.Ok() ==> e.outcome.next.body == "" && e.outcome.next.readable == 0
  {
    hide Envelope, RcptStep, AcceptedBy, RcptCommand, MailCommand, Trim;
    EnvelopeMeaning(s, sender, recipient, world, clock);
    var w := world(clock + 1);
    var s1 := AfterMail(s, sender);
    if RcptStep(s1, RcptCommand(recipient), w).replies == [RecipientOk] {
      PlainCommands(recipient);
      CommandAsRead(RcptCommand(recipient));
      RcptRecords(s1, RcptCommand(recipient), w, RcptEntry(recipient, w));
    }
  }
}
