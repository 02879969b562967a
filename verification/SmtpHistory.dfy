/**
  What a session does, told from the outside: the transcript of a connection holds the lines, the
  surroundings and the replies, and every delivery is determined by it. The session's own fields
  do not appear in the reference functions.
 */
module SmtpHistory {
  import opened Text
  import opened DotStuffing
  import opened BodyBuffer
  import opened SmtpCommands
  import opened SmtpSession

  datatype Entry = Entry(line: string, world: World, replies: seq<Reply>)

  /** The session after all inputs so far. */
  function StateAfter(inputs: seq<Input>): Session {
    if inputs == [] then Fresh
    else
      var s := StateAfter(inputs[..|inputs| - 1]);
      if !s.open then s else LastStep(s, inputs[|inputs| - 1]).next
  }

  function LastStep(s: Session, input: Input): Outcome {
    Step(s, input.line, input.world)
  }

  /** The transcript so far; it stops growing when the session ends. */
  function History(inputs: seq<Input>): seq<Entry> {
    if inputs == [] then []
    else
      var s := StateAfter(inputs[..|inputs| - 1]);
      var h := History(inputs[..|inputs| - 1]);
      var last := inputs[|inputs| - 1];
      if !s.open then h else h + [Entry(last.line, last.world, LastStep(s, last).replies)]
  }

  // ---------- reading a transcript ----------

  /** The last command was answered with 354, and only unanswered lines came after it. */
  predicate InBody(h: seq<Entry>) {
    h != [] &&
    var e := h[|h| - 1];
    e.replies == [StartMail] || (e.replies == [] && InBody(h[..|h| - 1]))
  }

  /** The un-stuffed lines since the 354 reply. */
  function BodySoFar(h: seq<Entry>): string
    requires InBody(h)
  {
    var e := h[|h| - 1];
    if e.replies == [StartMail] then "" else BodySoFar(h[..|h| - 1]) + UnstuffLine(e.line)
  }

  /** How much of the body so far metadata extraction can read; the disk's part in every line is in the transcript. */
  function ReadableSoFar(h: seq<Entry>): nat
    requires InBody(h)
  {
    var e := h[|h| - 1];
    if e.replies == [StartMail] then 0
    else
      var before := h[..|h| - 1];
      Readable(BodySoFar(before), ReadableSoFar(before), BodySoFar(h), MAX_MEMORY, e.world.disk)
  }

  datatype Accepted = ByToken(mapping: ReplyMapping) | ByAlias(row: AliasRow)

  /** What an accepted RCPT line stands for, from the line and the tables alone. */
  function AcceptedBy(e: Entry): Option<Accepted> {
    match ExtractRecipient(Trim(e.line))
    case None => None
    case Some(addr) =>
      match TargetOf(addr, e.world)
      case NoTarget => None
      case TokenTarget(token) =>
        (match e.world.tokens(token)
         case Found(mapping) => Some(ByToken(mapping))
         case _ => None)
      case AliasTarget(local, domain) =>
        match e.world.aliases(local, domain)
        case Found(row) => Some(ByAlias(row))
        case _ => None
  }

  function LastAccepted(h: seq<Entry>): Option<Accepted> {
    if h == [] then None
    else if h[|h| - 1].replies == [RecipientOk] then AcceptedBy(h[|h| - 1])
    else LastAccepted(h[..|h| - 1])
  }

  /** The most recently accepted reply token of the whole connection. */
  function LastToken(h: seq<Entry>): Option<ReplyMapping> {
    if h == [] then None
    else
      var e := h[|h| - 1];
      match AcceptedBy(e)
      case Some(ByToken(mapping)) =>
        if e.replies == [RecipientOk] then Some(mapping) else LastToken(h[..|h| - 1])
      case _ => LastToken(h[..|h| - 1])
  }

  function LastSender(h: seq<Entry>): Option<string> {
    if h == [] then None
    else if h[|h| - 1].replies == [SenderOk] then ExtractSender(Trim(h[|h| - 1].line))
    else LastSender(h[..|h| - 1])
  }

  /** Recipients accepted since the last accepted MAIL command. */
  function AcceptsSinceSender(h: seq<Entry>): nat {
    if h == [] || h[|h| - 1].replies == [SenderOk] then 0
    else AcceptsSinceSender(h[..|h| - 1]) + (if h[|h| - 1].replies == [RecipientOk] then 1 else 0)
  }

  /** What the next line must deliver, given the transcript before it. */
  function Expected(h: seq<Entry>, line: string, w: World): seq<Delivery> {
    if !InBody(h) || !IsTerminator(line) then []
    else
      var body := BodySoFar(h);
      match LastToken(h)
      case Some(mapping) =>
        if |body| > 65_536 && w.disk.Fails? then []
        else
          var alias := mapping.subdomain + "@" + mapping.domain;
          [Relayed(mapping.originalSender, alias, w.prepare(body, alias, mapping.originalSender))]
      case None =>
        if w.disk.Fails? then []
        else
          match LastAccepted(h)
          case Some(ByAlias(row)) =>
            if !w.insertOk then [Orphaned(w.bodyKey, body)]
            else
              var metadata := w.parse(Take(body, ReadableSoFar(h)), LastSender(h).GetOr(""));
              var left := if |body| <= 65_536 then body else "";
              var forward := if row.autoForward then Some(Forward(row.destination, metadata.sender, left)) else None;
              [Stored(row.id, metadata, w.thread(ThreadRefs(metadata)), w.bodyKey, body, w.labels(left), forward)]
          case _ => []
  }

  // ---------- the link between fields and transcript ----------

  predicate Linked(s: Session, h: seq<Entry>) {
    && (s.phase == ReadingBody <==> InBody(h))
    && s.body == (if InBody(h) then BodySoFar(h) else "")
    && s.readable == (if InBody(h) then ReadableSoFar(h) else 0)
    && s.replyMapping == LastToken(h)
    && (s.phase == RcptTo || s.phase == Data || s.phase == ReadingBody ==> LinkedSender(s, h))
    && (s.phase == RcptTo ==> AcceptsSinceSender(h) == 0)
    && (s.phase == Data || s.phase == ReadingBody ==> LinkedRecipient(s, h))
  }

  predicate LinkedSender(s: Session, h: seq<Entry>) {
    s.sender.Some? && s.sender == LastSender(h)
  }

  predicate LinkedRecipient(s: Session, h: seq<Entry>) {
    && AcceptsSinceSender(h) == 1
    && match LastAccepted(h)
       case None => false
       case Some(ByToken(mapping)) => s.replyMapping == Some(mapping)
       case Some(ByAlias(row)) =>
         s.aliasId == Some(row.id) && s.destination == Some(row.destination) && s.autoForward == row.autoForward
  }

  /** The order of commands (section 4.1.4 of RFC 5321) as it shows in the fields. */
  predicate Ordered(s: Session) {
    && (s.phase == Data || s.phase == ReadingBody ==> s.aliasId.Some? || s.replyMapping.Some?)
    && (s.phase == RcptTo || s.phase == Data || s.phase == ReadingBody ==> s.sender.Some?)
    && (s.phase != ReadingBody ==> s.body == "" && s.readable == 0)
  }

  lemma LinkedIsOrdered(s: Session, h: seq<Entry>)
    requires Linked(s, h)
    ensures Ordered(s)
  {
  }

  /** A reply that is none of the three the reference functions look for leaves them as they were. */
  predicate Neutral(replies: seq<Reply>) {
    replies != [] && replies != [StartMail] && replies != [RecipientOk] && replies != [SenderOk]
  }

  lemma Unfold(h: seq<Entry>, e: Entry)
    ensures h + [e] != [] && (h + [e])[|h + [e]| - 1] == e && (h + [e])[..|h + [e]| - 1] == h
  {
  }

  lemma NeutralKeeps(h: seq<Entry>, e: Entry)
    requires Neutral(e.replies)
    ensures var h' := h + [e];
            && !InBody(h')
            && LastToken(h') == LastToken(h)
            && LastAccepted(h') == LastAccepted(h)
            && LastSender(h') == LastSender(h)
            && AcceptsSinceSender(h') == AcceptsSinceSender(h)
  {
    Unfold(h, e);
  }

  // ---------- one step keeps the link ----------

  /** Same fields as far as the transcript tells, in a phase where nothing of the transaction is pinned down. */
  predicate Restarts(s: Session, next: Session) {
    && (next.phase == Greet || next.phase == MailFrom)
    && next.body == "" && next.readable == 0
    && next.replyMapping == s.replyMapping
  }

  lemma NeutralStep(s: Session, h: seq<Entry>, next: Session, e: Entry)
    requires Linked(s, h) && Neutral(e.replies)
    requires Restarts(s, next)
             || (s.phase != ReadingBody && next == s.(recipient := next.recipient))
    ensures Linked(next, h + [e])
  {
    NeutralKeeps(h, e);
  }

  lemma MailLinked(s: Session, h: seq<Entry>, cmd: string, e: Entry)
    requires Linked(s, h) && s.phase == MailFrom && cmd == Trim(e.line) && e.replies == MailStep(s, cmd).replies
    ensures Linked(MailStep(s, cmd).next, h + [e])
  {
    hide ExtractSender, AcceptedBy;
    if ExtractSender(cmd).None? {
      NeutralStep(s, h, s, e);
    } else {
      Unfold(h, e);
      assert LastToken(h + [e]) == LastToken(h);
    }
  }

  /** The fields an accepted recipient sets, and the ones it leaves alone. */
  predicate Recorded(s: Session, next: Session, accepted: Accepted) {
    match accepted
    case ByToken(mapping) =>
      next == s.(phase := Data, recipient := next.recipient, replyMapping := Some(mapping))
    case ByAlias(row) =>
      next == s.(phase := Data, recipient := next.recipient, aliasId := Some(row.id),
                 destination := Some(row.destination), autoForward := row.autoForward)
  }

  /** A positive RCPT reply means a row was found for the address as read, and that row is recorded. */
  lemma RcptRecords(s: Session, cmd: string, w: World, e: Entry)
    requires cmd == Trim(e.line) && e.world == w
    requires RcptStep(s, cmd, w).replies == [RecipientOk]
    ensures AcceptedBy(e).Some? && Recorded(s, RcptStep(s, cmd, w).next, AcceptedBy(e).value)
  {
    hide ExtractRecipient, TargetOf, Trim, Lower, Split;
  }

  lemma AcceptedLinked(s: Session, h: seq<Entry>, next: Session, e: Entry, accepted: Accepted)
    requires Linked(s, h) && s.phase == RcptTo
    requires e.replies == [RecipientOk] && AcceptedBy(e) == Some(accepted)
    requires Recorded(s, next, accepted)
    ensures Linked(next, h + [e])
  {
    hide AcceptedBy;
    Unfold(h, e);
  }

  lemma RcptLinked(s: Session, h: seq<Entry>, cmd: string, w: World, e: Entry)
    requires Linked(s, h) && s.phase == RcptTo && cmd == Trim(e.line) && e.world == w
    requires e.replies == RcptStep(s, cmd, w).replies
    ensures RcptStep(s, cmd, w).next.open && s.open ==> Linked(RcptStep(s, cmd, w).next, h + [e])
    ensures BadSequence !in RcptStep(s, cmd, w).replies
  {
    hide ExtractRecipient, TargetOf, Linked, Trim, Lower, Split;
    var o := RcptStep(s, cmd, w);
    assert s.sender.Some? by { LinkedIsOrdered(s, h); }
    if o.replies != [RecipientOk] {
      if o.next.open {
        NeutralStep(s, h, o.next, e);
      }
    } else {
      RcptRecords(s, cmd, w, e);
      AcceptedLinked(s, h, o.next, e, AcceptedBy(e).value);
    }
  }

  lemma DataLinked(s: Session, h: seq<Entry>, cmd: string, e: Entry)
    requires Linked(s, h) && s.phase == Data && e.replies == DataStep(s, cmd).replies
    ensures Linked(DataStep(s, cmd).next, h + [e])
  {
    hide Upper, AcceptedBy;
    if DataStep(s, cmd).replies == [StartMail] {
      Unfold(h, e);
    } else {
      NeutralStep(s, h, s, e);
    }
  }

  lemma CommandLinked(s: Session, h: seq<Entry>, cmd: string, w: World, e: Entry)
    requires s.open && Linked(s, h) && s.phase != ReadingBody && cmd == Trim(e.line) && e.world == w
    requires e.replies == CommandStep(s, cmd, w).replies
    ensures var o := CommandStep(s, cmd, w);
            && (o.next.open ==> Linked(o.next, h + [e]))
            && o.deliveries == [] && !o.panicked && BadSequence !in o.replies
  {
    hide MailStep, RcptStep, DataStep, Upper, Linked;
    var o := CommandStep(s, cmd, w);
    if Upper(cmd) == "QUIT" {
    } else if Upper(cmd) == "STARTTLS" || Upper(cmd) == "RSET" || s.phase == Greet {
      if o.next.open {
        RestartLinked(s, h, cmd, w, e);
      }
    } else if s.phase == MailFrom {
      MailLinked(s, h, cmd, e);
      MailSaysOne(s, cmd);
    } else if s.phase == RcptTo {
      RcptLinked(s, h, cmd, w, e);
      RcptSaysOne(s, cmd, w);
    } else {
      DataLinked(s, h, cmd, e);
      DataSaysOne(s, cmd);
    }
  }

  lemma RestartLinked(s: Session, h: seq<Entry>, cmd: string, w: World, e: Entry)
    requires s.open && Linked(s, h) && s.phase != ReadingBody
    requires Upper(cmd) != "QUIT"
    requires Upper(cmd) == "STARTTLS" || Upper(cmd) == "RSET" || s.phase == Greet
    requires e.replies == CommandStep(s, cmd, w).replies && CommandStep(s, cmd, w).next.open
    ensures Linked(CommandStep(s, cmd, w).next, h + [e])
  {
    hide Upper;
    NeutralStep(s, h, CommandStep(s, cmd, w).next, e);
  }

  lemma MailSaysOne(s: Session, cmd: string)
    ensures var o := MailStep(s, cmd); o.deliveries == [] && !o.panicked && BadSequence !in o.replies
  {
    hide ExtractSender;
  }

  lemma RcptSaysOne(s: Session, cmd: string, w: World)
    ensures var o := RcptStep(s, cmd, w); o.deliveries == [] && !o.panicked
  {
    hide ExtractRecipient, TargetOf, Lower, Split;
  }

  lemma DataSaysOne(s: Session, cmd: string)
    ensures var o := DataStep(s, cmd); o.deliveries == [] && !o.panicked && BadSequence !in o.replies
  {
    hide Upper;
  }

  lemma BodyLineLinked(s: Session, h: seq<Entry>, line: string, w: World, e: Entry)
    requires s.open && Linked(s, h) && s.phase == ReadingBody && !IsTerminator(line)
    requires e.line == line && e.world == w
    requires e.replies == BodyStep(s, line, w).replies
    ensures var o := BodyStep(s, line, w);
            && (o.next.open ==> Linked(o.next, h + [e]))
            && o.deliveries == [] && !o.panicked && BadSequence !in o.replies
  {
    hide AcceptedBy, IsTerminator, UnstuffLine, Readable;
    Unfold(h, e);
  }

  lemma DotLinked(s: Session, h: seq<Entry>, line: string, w: World, e: Entry)
    requires s.open && Linked(s, h) && s.phase == ReadingBody && e.line == line && IsTerminator(line)
    requires e.replies == BodyStep(s, line, w).replies && BodyStep(s, line, w).next.open
    ensures Linked(BodyStep(s, line, w).next, h + [e])
  {
    hide AcceptedBy, IsTerminator, BodySoFar, ReadableSoFar, LastToken, LastAccepted, LastSender;
    hide AcceptsSinceSender, InBody;
    NeutralKeeps(h, e);
  }

  lemma DotDelivers(s: Session, h: seq<Entry>, line: string, w: World)
    requires s.open && Linked(s, h) && s.phase == ReadingBody && IsTerminator(line)
    ensures var o := BodyStep(s, line, w);
            o.deliveries == Expected(h, line, w) && !o.panicked && BadSequence !in o.replies
  {
    hide AcceptedBy, IsTerminator, BodySoFar, ReadableSoFar, LastToken, LastAccepted, LastSender;
    hide AcceptsSinceSender, InBody;
  }

  lemma BodyLinked(s: Session, h: seq<Entry>, line: string, w: World, e: Entry)
    requires s.open && Linked(s, h) && s.phase == ReadingBody && e.line == line && e.world == w
    requires e.replies == BodyStep(s, line, w).replies
    ensures var o := BodyStep(s, line, w);
            && (o.next.open ==> Linked(o.next, h + [e]))
            && o.deliveries == Expected(h, line, w) && !o.panicked && BadSequence !in o.replies
  {
    hide BodyStep, Linked, IsTerminator, BodySoFar, ReadableSoFar, LastToken, LastAccepted, LastSender;
    if !IsTerminator(line) {
      BodyLineLinked(s, h, line, w, e);
    } else {
      DotDelivers(s, h, line, w);
      if BodyStep(s, line, w).next.open {
        DotLinked(s, h, line, w, e);
      }
    }
  }

  /** One line: the link is kept, the deliveries are the expected ones, and nothing goes wrong inside. */
  lemma StepLinked(s: Session, h: seq<Entry>, line: string, w: World)
    requires s.open && Linked(s, h)
    ensures var o := Step(s, line, w);
            && (o.next.open ==> Linked(o.next, h + [Entry(line, w, o.replies)]))
            && o.deliveries == Expected(h, line, w) && !o.panicked && BadSequence !in o.replies
  {
    hide Linked, BodyStep, CommandStep, Trim, IsTerminator;
    hide BodySoFar, ReadableSoFar, LastToken, LastAccepted, LastSender;
    var o := Step(s, line, w);
    var e := Entry(line, w, o.replies);
    assert s.phase == ReadingBody <==> InBody(h) by { PhaseLinked(s, h); }
    if s.phase == ReadingBody {
      BodyLinked(s, h, line, w, e);
    } else {
      CommandLinked(s, h, Trim(line), w, e);
    }
  }

  lemma PhaseLinked(s: Session, h: seq<Entry>)
    requires Linked(s, h)
    ensures s.phase == ReadingBody <==> InBody(h)
  {
  }

  // ---------- whole connections ----------

  lemma {:induction false} AlwaysLinked(inputs: seq<Input>)
    ensures StateAfter(inputs).open ==> Linked(StateAfter(inputs), History(inputs))
  {
    hide Step, Linked;
    if inputs == [] {
      assert Linked(Fresh, []) by { FreshLinked(); }
    } else {
      var front := inputs[..|inputs| - 1];
      var last := inputs[|inputs| - 1];
      AlwaysLinked(front);
      if StateAfter(front).open {
        StepLinked(StateAfter(front), History(front), last.line, last.world);
      }
    }
  }

  lemma FreshLinked()
    ensures Linked(Fresh, [])
  {
  }

  /**
    Message isolation and routing, on every run: what a line delivers is a function of the
    transcript before it. Nothing is delivered except on a terminator; the body is made of the
    un-stuffed lines since this message's own 354 reply; it is relayed for the most recently
    accepted reply token of the connection if there ever was one, and stored under the alias row
    accepted in this transaction otherwise. Nothing panics, and the 503 reply never appears.
   */
  lemma DeliveriesFollowTranscript(inputs: seq<Input>, line: string, w: World)
    requires StateAfter(inputs).open
    ensures var o := Step(StateAfter(inputs), line, w);
            o.deliveries == Expected(History(inputs), line, w) && !o.panicked && BadSequence !in o.replies
  {
    hide Step, Linked, Expected;
    AlwaysLinked(inputs);
    StepLinked(StateAfter(inputs), History(inputs), line, w);
  }

  /** Command order on every run: the fields a later phase needs are set, and the buffer is empty outside a body. */
  lemma AlwaysOrdered(inputs: seq<Input>)
    ensures StateAfter(inputs).open ==> Ordered(StateAfter(inputs))
  {
    AlwaysLinked(inputs);
    if StateAfter(inputs).open {
      LinkedIsOrdered(StateAfter(inputs), History(inputs));
    }
  }

  /** A message being read has exactly one accepted recipient and an accepted sender. */
  lemma OneRecipientPerMessage(inputs: seq<Input>)
    requires StateAfter(inputs).open && InBody(History(inputs))
    ensures AcceptsSinceSender(History(inputs)) == 1
    ensures LastAccepted(History(inputs)).Some? && LastSender(History(inputs)).Some?
  {
    hide StateAfter, History;
    AlwaysLinked(inputs);
  }

  /** All deliveries a transcript calls for. */
  function ExpectedRun(inputs: seq<Input>): seq<Delivery> {
    if inputs == [] then []
    else
      var front, last := inputs[..|inputs| - 1], inputs[|inputs| - 1];
      ExpectedRun(front)
      + if StateAfter(front).open then Expected(History(front), last.line, last.world) else []
  }

  lemma {:induction false} RunSnoc(s: Session, inputs: seq<Input>, last: Input)
    ensures var o := Run(s, inputs);
            var all := Run(s, inputs + [last]);
            if o.next.open then
              all == o.Then(LastStep(o.next, last))
            else all == o
    decreases |inputs|
  {
    hide Step;
    if s.open {
      if inputs == [] {
        assert (inputs + [last])[1..] == [];
      } else {
        assert (inputs + [last])[1..] == inputs[1..] + [last];
        var first := Step(s, inputs[0].line, inputs[0].world);
        RunSnoc(first.next, inputs[1..], last);
        var rest := Run(first.next, inputs[1..]);
        ThenAssociative(first, rest, LastStep(rest.next, last));
      }
    }
  }

  /** The session loop delivers exactly what the transcript calls for and never panics. */
  lemma {:induction false} RunFollowsTranscript(inputs: seq<Input>)
    ensures Run(Fresh, inputs).next == StateAfter(inputs)
    ensures Run(Fresh, inputs).deliveries == ExpectedRun(inputs)
    ensures !Run(Fresh, inputs).panicked
  {
    hide Step, Expected, History;
    if inputs == [] {
    } else {
      var front, last := inputs[..|inputs| - 1], inputs[|inputs| - 1];
      assert inputs == front + [last];
      RunFollowsTranscript(front);
      RunSnoc(Fresh, front, last);
      if StateAfter(front).open {
        DeliveriesFollowTranscript(front, last.line, last.world);
      }
    }
  }

  // ---------- is a message served by its own recipient? ----------

  /** A delivery goes where this transaction's own recipient points. */
  predicate ServesOwnRecipient(d: Delivery, accepted: Accepted) {
    match accepted
    case ByToken(mapping) => d.Relayed? && d.to == mapping.originalSender
    case ByAlias(row) => (d.Stored? && d.aliasId == row.id) || d.Orphaned?
  }

  /**
    It does exactly when the recipient is itself a reply token or no reply token was accepted
    earlier on this connection: RSET and the end of a message leave the mapping in place.
   */
  lemma OwnRecipientServedIff(inputs: seq<Input>, line: string, w: World)
    requires StateAfter(inputs).open
    requires var d := Expected(History(inputs), line, w); d != []
    ensures LastAccepted(History(inputs)).Some?
    ensures var d := Step(StateAfter(inputs), line, w).deliveries;
            var own := LastAccepted(History(inputs)).value;
            |d| == 1 && (ServesOwnRecipient(d[0], own) <==> own.ByToken? || LastToken(History(inputs)).None?)
  {
    hide Step, History, StateAfter, BodySoFar, ReadableSoFar, InBody;
    AlwaysLinked(inputs);
    OneRecipientPerMessage(inputs);
    DeliveriesFollowTranscript(inputs, line, w);
  }

  /** The order of commands: which answer takes a session from which phase to which. */
  lemma PhaseAdvances(s: Session, line: string, w: World)
    ensures var o := Step(s, line, w);
            o.next.phase == s.phase
            || (o.next.phase == Greet && s.phase != ReadingBody && o.replies == [ReadyForTls])
            || (o.next.phase == Greet && s.phase == ReadingBody && IsTerminator(line)
                && (o.replies == [ReplyRelayed] || o.replies == [ActionAborted] || o.replies == [QueuedAs(w.bodyKey)]))
            || (o.next.phase == MailFrom && (o.replies == [ResetOk] || (s.phase == Greet && o.replies == [Hello])))
            || (o.next.phase == RcptTo && s.phase == MailFrom && o.replies == [SenderOk])
            || (o.next.phase == Data && s.phase == RcptTo && o.replies == [RecipientOk])
            || (o.next.phase == ReadingBody && s.phase == Data && o.replies == [StartMail])
  {
    hide Trim, Upper, ExtractSender, ExtractRecipient, TargetOf, Lower, Split, IsTerminator, UnstuffLine, Readable;
  }

  // ---------- what later readers see of a message ----------

  lemma {:induction false} ReadableBounds(h: seq<Entry>)
    requires InBody(h)
    ensures ReadableSoFar(h) <= |BodySoFar(h)|
    ensures |BodySoFar(h)| <= MAX_MEMORY ==> ReadableSoFar(h) == |BodySoFar(h)|
    decreases |h|
  {
    hide UnstuffLine;
    if h[|h| - 1].replies == [StartMail] {
    } else {
      ReadableBounds(h[..|h| - 1]);
    }
  }

  /**
    A stored message: the file is the body, the row's metadata is parsed from a prefix of it, and
    for a message that never left memory from all of it.
   */
  lemma MetadataReadsPrefix(inputs: seq<Input>, line: string, w: World)
    requires StateAfter(inputs).open
    requires var d := Step(StateAfter(inputs), line, w).deliveries; d != [] && d[0].Stored?
    ensures InBody(History(inputs))
    ensures var h := History(inputs);
            var d := Step(StateAfter(inputs), line, w).deliveries[0];
            && d.file == BodySoFar(h)
            && ReadableSoFar(h) <= |d.file|
            && d.metadata == w.parse(d.file[..ReadableSoFar(h)], LastSender(h).GetOr(""))
            && (|d.file| <= 65_536 ==> d.metadata == w.parse(d.file, LastSender(h).GetOr("")))
  {
    hide Step, History, StateAfter, LastToken, LastAccepted, LastSender, BodySoFar, ReadableSoFar;
    DeliveriesFollowTranscript(inputs, line, w);
    ReadableBounds(History(inputs));
    assert BodySoFar(History(inputs))[..|BodySoFar(History(inputs))|] == BodySoFar(History(inputs));
  }

  /**
    The forwarded copy and the text the filter rules see equal the stored file exactly when the
    lines received since DATA un-stuff to at most 65,536 bytes; otherwise both are empty.
   */
  lemma ForwardCarriesBodyIff(inputs: seq<Input>, line: string, w: World)
    requires StateAfter(inputs).open
    requires var d := Step(StateAfter(inputs), line, w).deliveries; d != [] && d[0].Stored?
    ensures InBody(History(inputs))
    ensures var d := Step(StateAfter(inputs), line, w).deliveries[0];
            var body := BodySoFar(History(inputs));
            && d.file == body
            && (d.forward.Some? ==> (d.forward.value.body == d.file <==> |body| <= 65_536))
            && d.labels == w.labels(if |body| <= 65_536 then body else "")
            && (d.forward.Some? && |body| > 65_536 ==> d.forward.value.body == "")
  {
    hide Step, History, StateAfter, LastToken, LastAccepted, LastSender, BodySoFar, ReadableSoFar;
    DeliveriesFollowTranscript(inputs, line, w);
  }

  /**
    The thread of a stored message is looked up by the messages it refers to, and by the one it
    answers if that is not among them.
   */
  lemma ThreadLookedUp(inputs: seq<Input>, line: string, w: World) returns (refs: seq<string>)
    requires StateAfter(inputs).open
    requires var d := Step(StateAfter(inputs), line, w).deliveries; d != [] && d[0].Stored?
    ensures var d := Step(StateAfter(inputs), line, w).deliveries[0];
            var m := d.metadata;
            && d.thread == w.thread(refs)
            && m.references <= refs && |refs| <= |m.references| + 1
            && (m.inReplyTo.Some? ==> m.inReplyTo.value in refs)
            && (|refs| > |m.references| ==>
                  m.inReplyTo == Some(refs[|m.references|]) && refs[|m.references|] !in m.references)
  {
    hide Step, History, StateAfter, LastToken, LastAccepted, LastSender, BodySoFar, ReadableSoFar;
    DeliveriesFollowTranscript(inputs, line, w);
    refs := ThreadRefs(Step(StateAfter(inputs), line, w).deliveries[0].metadata);
  }

  // ---------- who may use a reply token ----------

  /** The owner of the token sends; if the address has exactly one `@`, its domain vouches for the client. */
  predicate Authorized(sender: Option<string>, mapping: ReplyMapping, w: World) {
    && sender.Some?
    && Lower(sender.value) == Lower(mapping.destination)
    && (|Split(sender.value, '@')| == 2 ==> w.spf(Split(sender.value, '@')[1]))
  }

  predicate MayAddress(sender: Option<string>, accepted: Accepted, w: World) {
    match accepted
    case ByToken(mapping) => Authorized(sender, mapping, w)
    case ByAlias(_) => true
  }

  /** A recipient is accepted exactly when its address names a row and, for a reply token, the sender owns it. */
  lemma RcptAcceptedIff(s: Session, cmd: string, w: World, e: Entry)
    requires cmd == Trim(e.line) && e.world == w
    ensures RcptStep(s, cmd, w).replies == [RecipientOk]
            <==> AcceptedBy(e).Some? && MayAddress(s.sender, AcceptedBy(e).value, w)
  {
    hide ExtractRecipient, TargetOf, Trim, Lower, Split;
  }

  /** Nothing but an accepted RCPT is answered like one. */
  lemma OnlyRcptAccepts(s: Session, line: string, w: World)
    requires Step(s, line, w).replies == [RecipientOk]
    ensures s.phase == RcptTo && Step(s, line, w) == RcptStep(s, Trim(line), w)
  {
    hide Trim, Upper, ExtractSender, RcptStep, IsTerminator, UnstuffLine;
  }

  /** Position `i` of a transcript accepts a reply token, and if so its sender owned it. */
  predicate AcceptsTokenAt(h: seq<Entry>, i: nat, mapping: ReplyMapping)
    requires i < |h|
  {
    h[i].replies == [RecipientOk] && AcceptedBy(h[i]) == Some(ByToken(mapping))
  }

  predicate VouchedAt(h: seq<Entry>, i: nat, mapping: ReplyMapping)
    requires i < |h|
  {
    AcceptsTokenAt(h, i, mapping) && Authorized(LastSender(h[..i]), mapping, h[i].world)
  }

  lemma AcceptedIsVouched(s: Session, h: seq<Entry>, line: string, w: World, mapping: ReplyMapping)
    requires s.open && Linked(s, h)
    requires var e := Entry(line, w, Step(s, line, w).replies);
             e.replies == [RecipientOk] && AcceptedBy(e) == Some(ByToken(mapping))
    ensures Authorized(LastSender(h), mapping, w)
  {
    OnlyRcptAccepts(s, line, w);
    hide Step, RcptStep, AcceptedBy, Authorized, LastToken, LastAccepted, BodySoFar, ReadableSoFar, InBody;
    RcptAcceptedIff(s, Trim(line), w, Entry(line, w, Step(s, line, w).replies));
  }

  /** On every connection each accepted reply token belonged to the sender of its transaction. */
  lemma {:induction false} TokensAreVouched(inputs: seq<Input>, i: nat, mapping: ReplyMapping)
    requires StateAfter(inputs).open && i < |History(inputs)|
    requires AcceptsTokenAt(History(inputs), i, mapping)
    ensures VouchedAt(History(inputs), i, mapping)
    decreases |inputs|
  {
    hide Step, Linked, AcceptedBy, Authorized, LastSender;
    if inputs == [] {
    } else {
      var front, last := inputs[..|inputs| - 1], inputs[|inputs| - 1];
      var h := History(front);
      assert History(inputs)[..|h|] == h;
      if i < |h| {
        TokensAreVouched(front, i, mapping);
        assert History(inputs)[..i] == h[..i];
      } else {
        AlwaysLinked(front);
        AcceptedIsVouched(StateAfter(front), h, last.line, last.world, mapping);
      }
    }
  }

  lemma {:induction false} LastTokenWasAccepted(h: seq<Entry>) returns (i: nat)
    requires LastToken(h).Some?
    ensures i < |h| && AcceptsTokenAt(h, i, LastToken(h).value)
    decreases |h|
  {
    hide AcceptedBy;
    var e := h[|h| - 1];
    if e.replies == [RecipientOk] && AcceptedBy(e).Some? && AcceptedBy(e).value.ByToken? {
      i := |h| - 1;
    } else {
      i := LastTokenWasAccepted(h[..|h| - 1]);
    }
  }

  /**
    Nobody relays through a token that is not theirs: on every connection, whatever is relayed goes
    to the original sender of a token that was accepted from a sender owning it, and passing SPF if
    the sender's address has exactly one `@`.
   */
  lemma RelaysAreVouched(inputs: seq<Input>, line: string, w: World) returns (i: nat, mapping: ReplyMapping)
    requires StateAfter(inputs).open
    requires var d := Step(StateAfter(inputs), line, w).deliveries; d != [] && d[0].Relayed?
    ensures i < |History(inputs)| && VouchedAt(History(inputs), i, mapping)
    ensures Step(StateAfter(inputs), line, w).deliveries[0].to == mapping.originalSender
  {
    hide Step, StateAfter, History, BodySoFar, ReadableSoFar, LastToken, LastAccepted, LastSender;
    hide VouchedAt, AcceptsTokenAt;
    DeliveriesFollowTranscript(inputs, line, w);
    mapping := LastToken(History(inputs)).value;
    i := LastTokenWasAccepted(History(inputs));
    TokensAreVouched(inputs, i, mapping);
  }
}
