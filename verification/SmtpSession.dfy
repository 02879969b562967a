/**
  The inbound SMTP session: a line-driven state machine that owns a body buffer. `Step` is the
  reference, on values and with one flat body; the class does the same in place, line by line,
  with the two-mode buffer.
 */
module SmtpSession {
  import opened Text
  import opened DotStuffing
  import opened BodyBuffer
  import opened SmtpCommands
  import opened Srs

  datatype Phase = Greet | MailFrom | RcptTo | Data | ReadingBody

  datatype ReplyMapping = ReplyMapping(originalSender: string, destination: string, subdomain: string, domain: string)

  datatype AliasRow = AliasRow(id: nat, destination: string, autoForward: bool)

  datatype Lookup<+T> = Found(row: T) | Missing | DbError

  datatype TlsOffer = Disabled | NoCertificate | Ready(handshakeOk: bool)

  datatype Stream = Tcp | Tls

  /** What the parser makes of the bytes it can read and the envelope sender. */
  datatype Metadata = Metadata(sender: string, subject: string, messageId: Option<string>,
                               inReplyTo: Option<string>, references: seq<string>, attachments: seq<Attachment>)

  datatype Attachment = Attachment(filename: Option<string>, contentType: Option<string>, sizeBytes: int,
                                   partIndex: int, isInline: bool, contentId: Option<string>)

  /** The messages a thread is looked up by. */
  function ThreadRefs(m: Metadata): seq<string> {
    if m.inReplyTo.Some? && m.inReplyTo.value !in m.references then m.references + [m.inReplyTo.value]
    else m.references
  }

  /** Everything a session asks of its surroundings while it handles one line. */
  datatype World = World(
    tokens: string -> Lookup<ReplyMapping>,
    aliases: (string, string) -> Lookup<AliasRow>,
    spf: string -> bool,
    srsHash: string -> string,
    day: nat,
    failures: nat,
    tarpitThreshold: nat,
    blockThreshold: nat,
    tls: TlsOffer,
    disk: DiskFate,
    parse: (string, string) -> Metadata,            // readable bytes, envelope sender
    thread: seq<string> -> Option<nat>,
    prepare: (string, string, string) -> string,    // reply body, alias address, original sender
    labels: string -> set<nat>,                     // the labels the filter rules assign to a text
    bodyKey: string,
    insertOk: bool)

  datatype Forward = Forward(destination: string, from: string, body: string)

  /** What a completed message turns into outside the session. */
  datatype Delivery =
    | Relayed(to: string, fromAlias: string, body: string)
    | Stored(aliasId: nat, metadata: Metadata, thread: Option<nat>, key: string, file: string,
             labels: set<nat>, forward: Option<Forward>)
    | Orphaned(key: string, file: string)  // file written, row refused by the database

  datatype Session = Session(
    open: bool,
    stream: Stream,
    phase: Phase,
    sender: Option<string>,
    recipient: Option<string>,
    aliasId: Option<nat>,
    destination: Option<string>,
    autoForward: bool,
    replyMapping: Option<ReplyMapping>,
    body: string,
    readable: nat)  // how much of the body metadata extraction can read

  const Fresh := Session(true, Tcp, Greet, None, None, None, None, false, None, "", 0)

  /** A session after some input, with everything it wrote and delivered on the way. */
  datatype Outcome = Outcome(next: Session, replies: seq<Reply>, deliveries: seq<Delivery>, panicked: bool) {
    /** This, and afterwards that. */
    function Then(o: Outcome): Outcome {
      Outcome(o.next, replies + o.replies, deliveries + o.deliveries, panicked || o.panicked)
    }
  }

  lemma ThenAssociative(a: Outcome, b: Outcome, c: Outcome)
    ensures a.Then(b).Then(c) == a.Then(b.Then(c))
  {
    assert a.replies + b.replies + c.replies == a.replies + (b.replies + c.replies);
    assert a.deliveries + b.deliveries + c.deliveries == a.deliveries + (b.deliveries + c.deliveries);
  }

  const MAX_MEMORY: nat := 65_536

  /** The replies a session can write. */
  datatype Reply =
    | Welcome
    | ReadyForTls
    | Closing
    | Hello
    | SenderOk
    | RecipientOk
    | ResetOk
    | ReplyRelayed
    | StartMail
    | ActionAborted
    | TryLater
    | TlsUnavailable
    | Unrecognized
    | DataExpected
    | BadAddress
    | BadSender
    | NotImplemented
    | BadSequence
    | UserNotFound
    | SenderDenied
    | SpfFailed
    | MessageTooLarge
    | AddressBlocked
    | QueuedAs(key: string)

  /** The three-digit code of a reply. */
  function Code(r: Reply): (code: string)
    ensures |code| == 3 && forall i :: 0 <= i < 3 ==> IsDigit(code[i])
  {
    match r
    case Welcome => "220"
    case ReadyForTls => "220"
    case Closing => "221"
    case Hello => "250"
    case SenderOk => "250"
    case RecipientOk => "250"
    case ResetOk => "250"
    case ReplyRelayed => "250"
    case StartMail => "354"
    case ActionAborted => "451"
    case TryLater => "451"
    case TlsUnavailable => "454"
    case Unrecognized => "500"
    case DataExpected => "500"
    case BadAddress => "501"
    case BadSender => "501"
    case NotImplemented => "502"
    case BadSequence => "503"
    case UserNotFound => "550"
    case SenderDenied => "550"
    case SpfFailed => "550"
    case MessageTooLarge => "552"
    case AddressBlocked => "554"
    case QueuedAs(_) => "250"
  }

  /** The enhanced status code, where there is one. */
  function Enhanced(r: Reply): (status: string)
    ensures status == "" || |status| == 5
    ensures forall i :: 0 <= i < |status| ==> IsDigit(status[i]) || status[i] == '.'
  {
    match r
    case Closing => "2.0.0"
    case RecipientOk => "2.1.5"
    case TryLater => "4.7.1"
    case MessageTooLarge => "5.3.4"
    case AddressBlocked => "5.7.1"
    case _ => ""
  }

  function Phrase(r: Reply): string {
    match r
    case Welcome => "Welcome to my Email Server"
    case ReadyForTls => "Ready to start TLS"
    case Closing => "Service closing transmission channel"
    case Hello => "Hello"
    case SenderOk => "OK"
    case RecipientOk => "Destination address accepted"
    case ResetOk => "OK Resetting"
    case ReplyRelayed => "OK: reply relayed"
    case StartMail => "End data with <CR><LF>.<CR><LF>"
    case ActionAborted => "Requested action aborted"
    case TryLater => "Please try again later"
    case TlsUnavailable => "TLS not available due to temporary reason"
    case Unrecognized => "Syntax error, command unrecognized"
    case DataExpected => "Error"
    case BadAddress => "Syntax error in address"
    case BadSender => "Syntax error"
    case NotImplemented => "Command not implemented"
    case BadSequence => "Bad sequence of commands (MAIL FROM first)"
    case UserNotFound => "User Not Found"
    case SenderDenied => "Sender Denied"
    case SpfFailed => "SPF Validation Failed"
    case MessageTooLarge => "Message size exceeds " + "fixed maximum message size"
    case AddressBlocked => "Connection refused - IP address blocked"
    case QueuedAs(key) => "OK: queued as " + key
  }

  function Message(r: Reply): string {
    if Enhanced(r) == "" then Phrase(r) else Enhanced(r) + " " + Phrase(r)
  }

  /** A reply line, without its CR LF. */
  function ReplyText(r: Reply): string {
    Code(r) + " " + Message(r)
  }

  // ---------- the reference step ----------

  function Say(s: Session, reply: Reply): Outcome {
    Outcome(s, [reply], [], false)
  }

  /** The connection ends; the session and its body are dropped. */
  function Hangup(s: Session, replies: seq<Reply>, panicked: bool): Outcome {
    Outcome(s.(open := false, body := "", readable := 0), replies, [], panicked)
  }

  function GreetStep(s: Session, cmd: string): Outcome {
    if "HELO" <= Upper(cmd) || "EHLO" <= Upper(cmd) then Say(s.(phase := MailFrom), Hello)
    else Say(s, Unrecognized)
  }

  function MailStep(s: Session, cmd: string): Outcome {
    match ExtractSender(cmd)
    case Some(addr) => Say(s.(sender := Some(addr), phase := RcptTo), SenderOk)
    case None => Say(s, BadSender)
  }

  /** What a recipient address names: a reply token, or an alias to look up, or nothing usable. */
  datatype Target = TokenTarget(token: string) | AliasTarget(local: string, domain: string) | NoTarget

  function TargetOf(addr: string, w: World): Target {
    var parts := Split(addr, '@');
    if |parts| != 2 then NoTarget
    else if "reply-" <= parts[0] then TokenTarget(parts[0])
    else if "srs0+" <= Lower(parts[0]) then
      match DecodeSrs(addr, w.srsHash, w.day)
      case None => NoTarget
      case Some(original) =>
        match SplitOnce(original, "@")
        case None => NoTarget
        case Some((local, domain)) => AliasTarget(local, domain)
    else AliasTarget(parts[0], parts[1])
  }

  function RcptStep(s: Session, cmd: string, w: World): Outcome {
    match ExtractRecipient(cmd)
    case None => Say(s, BadAddress)
    case Some(addr) =>
      var s' := s.(recipient := Some(addr));
      match TargetOf(addr, w)
      case TokenTarget(token) => TokenStep(s', token, w)
      case AliasTarget(local, domain) => AliasStep(s', local, domain, w)
      case NoTarget => Say(s', if |Split(addr, '@')| != 2 then BadAddress else UserNotFound)
  }

  function TokenStep(s: Session, token: string, w: World): Outcome {
    match w.tokens(token)
    case Missing => Say(s, UserNotFound)
    case DbError => Say(s, ActionAborted)
    case Found(mapping) =>
      match s.sender
      case None => Say(s, BadSequence)
      case Some(addr) =>
        var parts := Split(addr, '@');
        if Lower(addr) != Lower(mapping.destination) then Say(s, SenderDenied)
        else if |parts| == 2 && !w.spf(parts[1]) then Say(s, SpfFailed)
        else Say(s.(replyMapping := Some(mapping), phase := Data), RecipientOk)
  }

  function AliasStep(s: Session, local: string, domain: string, w: World): Outcome {
    match w.aliases(local, domain)
    case Found(row) =>
      Say(s.(aliasId := Some(row.id), destination := Some(row.destination),
          autoForward := row.autoForward, phase := Data), RecipientOk)
    case Missing =>
      if w.failures >= w.blockThreshold then Hangup(s, [AddressBlocked], false)
      else if w.failures >= w.tarpitThreshold then Say(s, TryLater)
      else Say(s, UserNotFound)
    case DbError => Say(s, ActionAborted)
  }

  function DataStep(s: Session, cmd: string): Outcome {
    if Upper(cmd) == "DATA" then Say(s.(phase := ReadingBody), StartMail) else Say(s, DataExpected)
  }

  function BodyStep(s: Session, line: string, w: World): Outcome {
    if IsTerminator(line) then
      match s.replyMapping
      case Some(mapping) => RelayStep(s, mapping, w)
      case None => StoreStep(s, w)
    else
      var body := s.body + UnstuffLine(line);
      if |body| > MAX_TOTAL_SIZE then Hangup(s, [MessageTooLarge], false)
      else if |body| > MAX_MEMORY && w.disk.Fails? then Hangup(s, [], false)
      else
        Outcome(s.(body := body, readable := Readable(s.body, s.readable, body, MAX_MEMORY, w.disk)), [], [], false)
  }

  function RelayStep(s: Session, mapping: ReplyMapping, w: World): Outcome {
    if |s.body| > MAX_MEMORY && w.disk.Fails? then Hangup(s, [], false)
    else
      Outcome(s.(phase := Greet, body := "", readable := 0), [ReplyRelayed], [RelayOf(mapping, s.body, w)], false)
  }

  /** The body is rewritten for its new recipient under the alias's own address. */
  function RelayOf(mapping: ReplyMapping, body: string, w: World): Delivery {
    var aliasAddress := mapping.subdomain + "@" + mapping.domain;
    Relayed(mapping.originalSender, aliasAddress, w.prepare(body, aliasAddress, mapping.originalSender))
  }

  function StoreStep(s: Session, w: World): Outcome {
    if w.disk.Fails? then Hangup(s, [], false)
    else
      match s.aliasId
      case None => Hangup(s, [], true)
      // a body that left memory is no longer in the buffer once its file is in place
      case Some(id) =>
        var metadata := w.parse(Take(s.body, s.readable), s.sender.GetOr(""));
        RowStep(s, id, metadata, s.body, if |s.body| <= MAX_MEMORY then s.body else "", w)
  }

  /** The file is in place; `left` is what the buffer still holds. */
  function RowStep(s: Session, id: nat, metadata: Metadata, file: string, left: string, w: World): Outcome {
    var next := s.(phase := Greet, body := "", readable := 0);
    if !w.insertOk then Outcome(next, [ActionAborted], [Orphaned(w.bodyKey, file)], false)
    else
      var forward := if s.autoForward && s.destination.Some?
        then Some(Forward(s.destination.value, metadata.sender, left)) else None;
      Outcome(next, [QueuedAs(w.bodyKey)],
              [Stored(id, metadata, w.thread(ThreadRefs(metadata)), w.bodyKey, file, w.labels(left), forward)], false)
  }

  lemma RowStepIgnoresBody(s: Session, body: string, readable: nat, id: nat, metadata: Metadata, file: string,
                           left: string, w: World)
    ensures RowStep(s.(body := body, readable := readable), id, metadata, file, left, w)
            == RowStep(s, id, metadata, file, left, w)
  {
  }

  function TlsStep(s: Session, w: World): Outcome {
    match w.tls
    case Disabled => Say(s, NotImplemented)
    case NoCertificate => Say(s, TlsUnavailable)
    case Ready(handshakeOk) =>
      if s.stream.Tcp? && handshakeOk then Say(s.(stream := Tls, phase := Greet), ReadyForTls)
      else Hangup(s, [ReadyForTls], false)
  }

  function ResetStep(s: Session): Outcome {
    Say(s.(sender := None, recipient := None, aliasId := None, body := "", readable := 0, phase := MailFrom), ResetOk)
  }

  function CommandStep(s: Session, cmd: string, w: World): Outcome
    requires s.phase != ReadingBody
  {
    if Upper(cmd) == "QUIT" then Hangup(s, [Closing], false)
    else if Upper(cmd) == "STARTTLS" then TlsStep(s, w)
    else if Upper(cmd) == "RSET" then ResetStep(s)
    else
      match s.phase
      case Greet => GreetStep(s, cmd)
      case MailFrom => MailStep(s, cmd)
      case RcptTo => RcptStep(s, cmd, w)
      case Data => DataStep(s, cmd)
  }

  /** One line of input: a body line is taken as it is, a command is trimmed first. */
  function Step(s: Session, line: string, w: World): Outcome {
    if s.phase == ReadingBody then BodyStep(s, line, w) else CommandStep(s, Trim(line), w)
  }

  datatype Input = Input(line: string, world: World)

  /** A whole connection: lines are handled in order until the session ends. */
  function Run(s: Session, inputs: seq<Input>): Outcome
    decreases |inputs|
  {
    if !s.open || inputs == [] then Outcome(s, [], [], false)
    else
      var o := Step(s, inputs[0].line, inputs[0].world);
      o.Then(Run(o.next, inputs[1..]))
  }

  /** The run from position `i` on is one step followed by the run from the next position on. */
  lemma RunFromNext(s: Session, inputs: seq<Input>, i: nat)
    requires s.open && i < |inputs|
    ensures var o := Step(s, inputs[i].line, inputs[i].world);
            Run(s, inputs[i..]) == o.Then(Run(o.next, inputs[i + 1..]))
  {
    hide Step;
    assert inputs[i..][0] == inputs[i] && inputs[i..][1..] == inputs[i + 1..];
  }

  /** A session so far, completed by the run on the inputs from position `i` on. */
  function Completed(sofar: Outcome, inputs: seq<Input>, i: nat): Outcome
    requires i <= |inputs|
  {
    sofar.Then(Run(sofar.next, inputs[i..]))
  }

  lemma CompletedByStep(sofar: Outcome, inputs: seq<Input>, i: nat)
    requires sofar.next.open && i < |inputs|
    ensures Completed(sofar.Then(Step(sofar.next, inputs[i].line, inputs[i].world)), inputs, i + 1)
            == Completed(sofar, inputs, i)
  {
    hide Step, Run;
    var o := Step(sofar.next, inputs[i].line, inputs[i].world);
    RunFromNext(sofar.next, inputs, i);
    ThenAssociative(sofar, o, Run(o.next, inputs[i + 1..]));
  }

  /** Nothing is left to do once the session has ended or the inputs are used up. */
  lemma CompletedAlready(sofar: Outcome, inputs: seq<Input>, i: nat)
    requires i <= |inputs| && (!sofar.next.open || i == |inputs|)
    ensures Completed(sofar, inputs, i) == sofar
  {
    assert sofar.replies + [] == sofar.replies && sofar.deliveries + [] == sofar.deliveries;
  }

  lemma CompletedFromStart(start: Outcome, reply: Reply, inputs: seq<Input>)
    ensures Completed(start.Then(Say(start.next, reply)), inputs, 0)
            == start.Then(Say(start.next, reply).Then(Run(start.next, inputs)))
  {
    hide Run;
    assert inputs[0..] == inputs;
    ThenAssociative(start, Say(start.next, reply), Run(start.next, inputs));
  }

  // ---------- the session as the program has it ----------

  class SmtpSession {
    var open: bool
    var stream: Stream
    var phase: Phase
    var sender: Option<string>
    var recipient: Option<string>
    var aliasId: Option<nat>
    var destination: Option<string>
    var autoForward: bool
    var replyMapping: Option<ReplyMapping>
    const body: SmartBodyBuffer

    var replies: seq<Reply>         // written to the client
    var deliveries: seq<Delivery>    // handed to storage or to the outbound side
    var panicked: bool

    ghost predicate Valid()
      reads this, body
    {
      body.maxMemory == MAX_MEMORY && (open ==> body.Value().Valid())
    }

    ghost function Abs(): Session
      reads this, body
    {
      Session(open, stream, phase, sender, recipient, aliasId, destination, autoForward, replyMapping,
              if open then body.Value().Contents() else "",
              if open then |body.Value().MetadataInput()| else 0)
    }

    /** The session so far. */
    ghost function Total(): Outcome
      reads this, body
    {
      Outcome(Abs(), replies, deliveries, panicked)
    }

    /** The session moved as the outcome says, and wrote and delivered exactly that. */
    twostate predicate Did(o: Outcome)
      reads this, body
    {
      Valid() && Total() == old(Total()).Then(o)
    }

    constructor ()
      ensures Valid() && Abs() == Fresh
      ensures fresh(body)
      ensures replies == [] && deliveries == [] && !panicked
    {
      open, stream, phase := true, Tcp, Greet;
      sender, recipient, aliasId, destination := None, None, None, None;
      autoForward, replyMapping := false, None;
      body := new SmartBodyBuffer(MAX_MEMORY);
      replies, deliveries, panicked := [], [], false;
    }

    method WriteLine(msg: Reply)
      modifies this`replies
      ensures replies == old(replies) + [msg]
    {
      replies := replies + [msg];
    }

    method HandleGreet(cmd: string)
      requires Valid() && open
      modifies this
      ensures Did(GreetStep(old(Abs()), cmd))
    {
      if "HELO" <= Upper(cmd) || "EHLO" <= Upper(cmd) {
        WriteLine(Hello);
        phase := MailFrom;
      } else {
        WriteLine(Unrecognized);
      }
    }

    method HandleMailFrom(cmd: string)
      requires Valid() && open
      modifies this
      ensures Did(MailStep(old(Abs()), cmd))
    {
      var extracted := ExtractSender(cmd);
      if extracted.Some? {
        sender := extracted;
        WriteLine(SenderOk);
        phase := RcptTo;
      } else {
        WriteLine(BadSender);
      }
    }

    method HandleRcptTo(cmd: string, w: World)
      requires Valid() && open
      modifies this
      ensures Did(RcptStep(old(Abs()), cmd, w))
    {
      hide ExtractRecipient, TokenStep, AliasStep, DecodeSrs, Lower, Split, SplitOnce;
      var extracted := ExtractRecipient(cmd);
      if extracted.None? {
        WriteLine(BadAddress);
        return;
      }
      var addr := extracted.value;
      recipient := Some(addr);
      var parts := Split(addr, '@');
      if |parts| != 2 {
        WriteLine(BadAddress);
        return;
      }
      var local, domain := parts[0], parts[1];
      if "reply-" <= local {
        HandleToken(local, w);
        return;
      }
      if "srs0+" <= Lower(local) {
        var decoded := DecodeSrs(addr, w.srsHash, w.day);
        if decoded.None? {
          WriteLine(UserNotFound);
          return;
        }
        var split := SplitOnce(decoded.value, "@");
        if split.None? {
          WriteLine(UserNotFound);
          return;
        }
        local, domain := split.value.0, split.value.1;
      }
      HandleAlias(local, domain, w);
    }

    method HandleToken(token: string, w: World)
      requires Valid() && open
      modifies this
      ensures Did(TokenStep(old(Abs()), token, w))
    {
      match w.tokens(token) {
        case Missing =>
          WriteLine(UserNotFound);
        case DbError =>
          WriteLine(ActionAborted);
        case Found(mapping) =>
          if sender.None? {
            WriteLine(BadSequence);
            return;
          }
          if Lower(sender.value) != Lower(mapping.destination) {
            WriteLine(SenderDenied);
            return;
          }
          var senderParts := Split(sender.value, '@');
          if |senderParts| == 2 {
            var spfValid := w.spf(senderParts[1]);
            if !spfValid {
              WriteLine(SpfFailed);
              return;
            }
          }
          replyMapping := Some(mapping);
          phase := Data;
          WriteLine(RecipientOk);
      }
    }

    method HandleAlias(local: string, domain: string, w: World)
      requires Valid() && open
      modifies this
      ensures Did(AliasStep(old(Abs()), local, domain, w))
    {
      match w.aliases(local, domain) {
        case Found(row) =>
          aliasId := Some(row.id);
          destination := Some(row.destination);
          autoForward := row.autoForward;
          phase := Data;
          WriteLine(RecipientOk);
        case Missing =>
          if w.failures >= w.blockThreshold {
            WriteLine(AddressBlocked);
            open := false;
          } else if w.failures >= w.tarpitThreshold {
            WriteLine(TryLater);
          } else {
            WriteLine(UserNotFound);
          }
        case DbError =>
          WriteLine(ActionAborted);
      }
    }

    method HandleDataCommand(cmd: string)
      requires Valid() && open
      modifies this
      ensures Did(DataStep(old(Abs()), cmd))
    {
      if Upper(cmd) == "DATA" {
        WriteLine(StartMail);
        phase := ReadingBody;
      } else {
        WriteLine(DataExpected);
      }
    }

    method HandleBodyLine(line: string, w: World)
      requires Valid() && open
      modifies this, body
      ensures Did(BodyStep(old(Abs()), line, w))
    {
      hide RelayStep, StoreStep, Readable;
      if TrimEnd(line, IsLineBreak) == "." {
        if replyMapping.Some? {
          HandleRelay(replyMapping.value, w);
        } else {
          HandleStore(w);
        }
        return;
      }
      AppendReadable(body.Value(), line, w.disk);
      var appended := body.Append(line, w.disk);
      match appended {
        case Appended =>
        case TooLarge =>
          WriteLine(MessageTooLarge);
          open := false;
        case IoFailed =>
          open := false;
      }
    }

    method HandleRelay(mapping: ReplyMapping, w: World)
      requires Valid() && open
      modifies this, body
      ensures Did(RelayStep(old(Abs()), mapping, w))
    {
      var aliasAddress := mapping.subdomain + "@" + mapping.domain;
      var content := body.GetContentBytes(w.disk.Works?);
      if content.None? {
        open := false;
        return;
      }
      var cleanBody := w.prepare(content.value, aliasAddress, mapping.originalSender);
      deliveries := deliveries + [Relayed(mapping.originalSender, aliasAddress, cleanBody)];
      WriteLine(ReplyRelayed);
      phase := Greet;
      body.Clear();
    }

    method HandleStore(w: World)
      requires Valid() && open
      modifies this, body
      ensures Did(StoreStep(old(Abs()), w))
    {
      hide RowStep;
      ghost var start := Abs();
      assert body.Value().MetadataInput() == Take(start.body, start.readable);
      var metadata := body.ExtractFullMetadata(sender.GetOr(""), w.parse, w.disk.Works?);
      if metadata.None? {
        open := false;
        return;
      }
      var stored := body.PersistToPath(w.disk.Works?);
      if stored.None? {
        open := false;
        return;
      }
      if aliasId.None? {
        panicked := true;
        open := false;
        return;
      }
      ghost var left := body.Value().Contents();
      assert Abs() == start.(body := left, readable := |left|);
      RowStepIgnoresBody(start, left, |left|, aliasId.value, metadata.value, stored.value, left, w);
      InsertRow(aliasId.value, metadata.value, stored.value, w);
    }

    /** The row, the forwarded copy and the reply, once the file is in place. */
    method InsertRow(id: nat, metadata: Metadata, file: string, w: World)
      requires open && body.maxMemory == MAX_MEMORY && body.state.Memory?
      modifies this, body
      ensures Did(RowStep(old(Abs()), id, metadata, file, old(body.Value().Contents()), w))
    {
      var refs := metadata.references;
      if metadata.inReplyTo.Some? && metadata.inReplyTo.value !in refs {
        refs := refs + [metadata.inReplyTo.value];
      }
      var threadId := w.thread(refs);
      if w.insertOk {
        var rawBytes := body.GetContentBytes(w.disk.Works?);
        var labels := w.labels(rawBytes.value);
        var forward := None;
        if autoForward && destination.Some? {
          var content := body.GetContentBytes(w.disk.Works?);
          forward := Some(Forward(destination.value, metadata.sender, content.value));
        }
        deliveries := deliveries + [Stored(id, metadata, threadId, w.bodyKey, file, labels, forward)];
        WriteLine(QueuedAs(w.bodyKey));
      } else {
        deliveries := deliveries + [Orphaned(w.bodyKey, file)];
        WriteLine(ActionAborted);
      }
      phase := Greet;
      body.Clear();
    }

    method UpgradeToTls(w: World)
      requires Valid() && open
      modifies this
      ensures Did(TlsStep(old(Abs()), w))
    {
      match w.tls {
        case Disabled =>
          WriteLine(NotImplemented);
        case NoCertificate =>
          WriteLine(TlsUnavailable);
        case Ready(handshakeOk) =>
          WriteLine(ReadyForTls);
          if stream.Tcp? {
            if handshakeOk {
              stream := Tls;
              phase := Greet;
            } else {
              open := false;
            }
          } else {
            open := false;
          }
      }
    }

    /** A command outside the body: QUIT, STARTTLS and RSET work in every phase. */
    method HandleCommand(cmd: string, w: World)
      requires Valid() && open && phase != ReadingBody
      modifies this, body
      ensures Did(CommandStep(old(Abs()), cmd, w))
    {
      hide TlsStep, GreetStep, MailStep, RcptStep, DataStep, Upper;
      if Upper(cmd) == "QUIT" {
        WriteLine(Closing);
        open := false;
        return;
      }
      if Upper(cmd) == "STARTTLS" {
        UpgradeToTls(w);
        return;
      }
      if Upper(cmd) == "RSET" {
        HandleReset();
        return;
      }
      match phase {
        case Greet => HandleGreet(cmd);
        case MailFrom => HandleMailFrom(cmd);
        case RcptTo => HandleRcptTo(cmd, w);
        case Data => HandleDataCommand(cmd);
      }
    }

    method HandleReset()
      requires Valid() && open
      modifies this, body
      ensures Did(ResetStep(old(Abs())))
      ensures sender.None? && recipient.None? && aliasId.None? && phase == MailFrom
      ensures body.Value().Contents() == ""
      ensures replyMapping == old(replyMapping) && destination == old(destination)
      ensures autoForward == old(autoForward) && stream == old(stream) && open
    {
      sender := None;
      recipient := None;
      aliasId := None;
      body.Clear();
      phase := MailFrom;
      WriteLine(ResetOk);
    }

    /** One turn of the session loop. */
    method HandleLine(line: string, w: World)
      requires Valid() && open
      modifies this, body
      ensures Did(Step(old(Abs()), line, w))
    {
      hide BodyStep, CommandStep, Trim;
      if phase == ReadingBody {
        HandleBodyLine(line, w);
      } else {
        HandleCommand(Trim(line), w);
      }
    }

    /** The session loop: a greeting, then line after line until the peer or the session ends. */
    method Handle(inputs: seq<Input>)
      requires Valid() && open
      modifies this, body
      ensures Did(Say(old(Abs()), Welcome).Then(Run(old(Abs()), inputs)))
    {
      hide Step, Run, Completed;
      ghost var start := Total();
      CompletedFromStart(start, Welcome, inputs);
      ghost var whole := Completed(start.Then(Say(start.next, Welcome)), inputs, 0);
      WriteLine(Welcome);
      assert Total() == start.Then(Say(start.next, Welcome));
      var i := 0;
      while open && i < |inputs|
        invariant 0 <= i <= |inputs|
        invariant Valid()
        invariant Completed(Total(), inputs, i) == whole
      {
        CompletedByStep(Total(), inputs, i);
        HandleLine(inputs[i].line, inputs[i].world);
        i := i + 1;
      }
      CompletedAlready(Total(), inputs, i);
    }
  }
}
