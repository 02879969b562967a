/**
  The outbound side of an SMTP transaction, run against the inbound session: the client's five
  commands, its reading of replies, and the proof that what it sends is what the server keeps.
 */
module SmtpClient {
  import opened Text
  import opened DotStuffing
  import opened BodyBuffer
  import opened SmtpCommands
  import opened SmtpSession
  import opened SmtpHistory

  predicate HasBreak(cmd: string) {
    '\r' in cmd || '\n' in cmd
  }

  /** The lines of a byte stream, each paired with the surroundings in which it is handled. */
  function InputsOf(lines: seq<string>, world: nat -> World, clock: nat): (inputs: seq<Input>)
    ensures |inputs| == |lines|
    ensures forall i :: 0 <= i < |lines| ==> inputs[i] == Input(lines[i], world(clock + i))
  {
    seq(|lines|, i requires 0 <= i < |lines| => Input(lines[i], world(clock + i)))
  }

  /** Handling lines one after the other, with the surroundings of their turn. */
  function RunLines(s: Session, lines: seq<string>, world: nat -> World, clock: nat): Outcome {
    Run(s, InputsOf(lines, world, clock))
  }

  lemma RunOfLines(s: Session, lines: seq<string>, world: nat -> World, clock: nat)
    requires s.open && lines != []
    ensures var o := Step(s, lines[0], world(clock));
            RunLines(s, lines, world, clock) == o.Then(RunLines(o.next, lines[1..], world, clock + 1))
  {
    hide Step;
    assert InputsOf(lines, world, clock)[1..] == InputsOf(lines[1..], world, clock + 1);
  }

  lemma RunOneLine(s: Session, line: string, world: nat -> World, clock: nat)
    requires s.open
    ensures RunLines(s, [line], world, clock) == Step(s, line, world(clock))
  {
    hide Step;
    RunOfLines(s, [line], world, clock);
    var o := Step(s, line, world(clock));
    assert o.replies + [] == o.replies && o.deliveries + [] == o.deliveries;
  }

  // ---------- reading replies (section 4.2.1 of RFC 5321) ----------

  /** A line that announces another one: a dash after the code. */
  predicate Continued(line: string) {
    |line| >= 4 && line[3] == '-'
  }

  /** The lines up to the first one that is not continued; none if the stream ends before that. */
  function Response(lines: seq<string>): Option<seq<string>> {
    if lines == [] then None
    else if !Continued(lines[0] + "\r\n") then Some([lines[0]])
    else Continue([lines[0]], Response(lines[1..]))
  }

  /** The lines on the wire. */
  function Texts(replies: seq<Reply>): seq<string> {
    seq(|replies|, i requires 0 <= i < |replies| => ReplyText(replies[i]))
  }

  /** Any number of continued lines and the first one that is not make one response, whatever follows. */
  lemma {:induction false} MultiLineResponse(front: seq<string>, last: string, rest: seq<string>)
    requires forall l :: l in front ==> |l| >= 4 && l[3] == '-'
    requires |last| < 4 || last[3] != '-'
    ensures Response(front + [last] + rest) == Some(front + [last])
  {
    if front == [] {
      assert front + [last] + rest == [last] + rest;
      assert ([last] + rest)[0] == last;
      assert !Continued(last + "\r\n") by { LastLine(last); }
    } else {
      MultiLineResponse(front[1..], last, rest);
      var lines := front + [last] + rest;
      assert front[0] in front && (front[0] + "\r\n")[3] == front[0][3];
      assert lines[0] == front[0] && lines[1..] == front[1..] + [last] + rest;
      assert [front[0]] + (front[1..] + [last]) == front + [last];
    }
  }

  lemma LastLine(last: string)
    requires |last| < 4 || last[3] != '-'
    ensures !Continued(last + "\r\n")
  {
    var l := last + "\r\n";
    if |l| >= 4 {
      assert l[3] == if |last| > 3 then last[3] else if |last| == 3 then '\r' else '\n';
    }
  }

  function Continue(got: seq<string>, rest: Option<seq<string>>): Option<seq<string>> {
    match rest
    case None => None
    case Some(more) => Some(got + more)
  }

  lemma ContinueNothing(rest: Option<seq<string>>)
    ensures Continue([], rest) == rest
  {
    if rest.Some? {
      assert [] + rest.value == rest.value;
    }
  }

  lemma ContinueMore(got: seq<string>, line: string, rest: Option<seq<string>>)
    ensures Continue(got, Continue([line], rest)) == Continue(got + [line], rest)
  {
    if rest.Some? {
      assert got + ([line] + rest.value) == got + [line] + rest.value;
    }
  }

  /** Every reply of the server is one line, so a response is exactly one reply. */
  lemma ResponseIsOneReply(replies: seq<Reply>)
    ensures Response(Texts(replies)) == if replies == [] then None else Some([ReplyText(replies[0])])
  {
    if replies != [] {
      assert (ReplyText(replies[0]) + "\r\n")[3] == ' ';
    }
  }

  lemma StartsWithCode(r: Reply)
    ensures ReplyText(r) != "" && ReplyText(r)[0] == Code(r)[0]
  {
  }

  predicate Positive(r: Reply) {
    Code(r)[0] == '2' || Code(r)[0] == '3'
  }

  // ---------- the five commands, one by one ----------

  lemma CommandAsRead(cmd: string)
    requires cmd != "" && CleanEnds(cmd, IsSpace)
    ensures Trim(cmd + "\r\n") == cmd
    ensures !HasBreak(cmd) ==> Lines(cmd + "\r\n") == [cmd + "\r\n"]
  {
    TrimBothPadded("", cmd, "\r\n", IsSpace);
    assert "" + cmd + "\r\n" == cmd + "\r\n";
    if !HasBreak(cmd) {
      LineEndOf(cmd + "\r\n");
      LinesOfOne(cmd + "\r\n");
    }
  }

  lemma MailSent(s: Session, sender: string, w: World)
    requires s.phase == MailFrom
    ensures ExtractSender(MailCommand(sender)).Some?
    ensures Step(s, MailCommand(sender) + "\r\n", w)
            == Say(s.(sender := ExtractSender(MailCommand(sender)), phase := RcptTo), SenderOk)
  {
    hide ExtractSender, Trim;
    var cmd := MailCommand(sender);
    CommandAsRead(cmd);
    SenderAlwaysRead(sender);
    assert Upper(cmd)[0] == 'M';
  }

  lemma RcptSent(s: Session, recipient: string, w: World)
    requires s.phase == RcptTo
    ensures Step(s, RcptCommand(recipient) + "\r\n", w) == RcptStep(s, RcptCommand(recipient), w)
  {
    hide RcptStep, Trim;
    var cmd := RcptCommand(recipient);
    CommandAsRead(cmd);
    assert Upper(cmd)[0] == 'R' && |Upper(cmd)| > 8;
  }

  lemma DataSent(s: Session, w: World)
    requires s.phase == Data
    ensures Step(s, "DATA\r\n", w) == Say(s.(phase := ReadingBody), StartMail)
  {
    hide Trim;
    CommandAsRead("DATA");
    assert "DATA" + "\r\n" == "DATA\r\n";
    assert Upper("DATA") == "DATA";
  }

  lemma QuitSent(s: Session, w: World)
    requires s.phase != ReadingBody
    ensures Step(s, "QUIT\r\n", w) == Hangup(s, [Closing], false)
  {
    hide Trim;
    CommandAsRead("QUIT");
    assert "QUIT" + "\r\n" == "QUIT\r\n";
    assert Upper("QUIT") == "QUIT";
  }

  /** The only positive reply to RCPT is the one that accepts the recipient. */
  lemma RcptPositiveIff(s: Session, cmd: string, w: World)
    ensures var o := RcptStep(s, cmd, w);
            |o.replies| == 1 && o.deliveries == [] && (Positive(o.replies[0]) <==> o.replies == [RecipientOk])
  {
    hide ExtractRecipient, TargetOf, Lower, Split;
  }

  /** Lockstep (section 4.2.1 of RFC 5321): outside a body every line is answered by exactly one reply. */
  lemma OneReplyPerCommand(s: Session, line: string, w: World)
    requires s.phase != ReadingBody
    ensures |Step(s, line, w).replies| == 1
  {
    hide Trim, Upper, ExtractRecipient, ExtractSender, TargetOf, Lower, Split;
  }

  /** What became of something the client sent: the error it reports, if any, and the server's part. */
  datatype Sent = Sent(error: Option<string>, outcome: Outcome) {
    predicate Ok() {
      error.None?
    }
  }

  const BAD_COMMAND: string := "Command contains invalid characters"
  const NO_RESPONSE: string := "Connection closed unexpectedly"

  /** The text of a refused command: the command itself, and what the server said. */
  function SmtpError(cmd: string, answer: string): string {
    "SMTP Error for command '" + cmd + "': " + answer
  }

  /** What a command's answer means to the client. */
  function ErrorOf(cmd: string, replies: seq<Reply>): Option<string> {
    if replies == [] then Some(NO_RESPONSE)
    else if Positive(replies[0]) then None
    else Some(SmtpError(cmd, ReplyText(replies[0])))
  }

  function Joined(lines: seq<string>): string
    requires lines != []
  {
    if |lines| == 1 then lines[0] else lines[0] + "\n" + Joined(lines[1..])
  }

  function Nothing(s: Session): Outcome {
    Outcome(s, [], [], false)
  }

  /** A command with a line break in it is not sent; any other is answered by one reply. */
  function SendLine(s: Session, cmd: string, w: World): Sent {
    if HasBreak(cmd) then Sent(Some(BAD_COMMAND), Nothing(s))
    else
      var o := Step(s, cmd + "\r\n", w);
      Sent(ErrorOf(cmd, o.replies), o)
  }

  lemma NothingAfter(o: Outcome)
    ensures o.Then(Nothing(o.next)) == o
  {
    assert o.replies + [] == o.replies && o.deliveries + [] == o.deliveries;
  }

  // ---------- the body ----------

  lemma ReceivedStep(lines: seq<string>)
    ensures Received(lines) == if lines == [] then "" else UnstuffLine(lines[0]) + Received(lines[1..])
  {
    hide UnstuffLine;
  }

  /** How much of the body metadata extraction can read after these lines. */
  function ReadableAfter(body: string, readable: nat, lines: seq<string>, world: nat -> World, clock: nat): nat
    decreases |lines|
  {
    if lines == [] then readable
    else
      var after := body + UnstuffLine(lines[0]);
      ReadableAfter(after, Readable(body, readable, after, MAX_MEMORY, world(clock).disk), lines[1..], world, clock + 1)
  }

  /** Never more than all of it, and all of it as long as the body is small. */
  lemma {:induction false} ReadableWithin(body: string, readable: nat, lines: seq<string>, world: nat -> World,
                                          clock: nat)
    requires readable <= |body| && (|body| <= MAX_MEMORY ==> readable == |body|)
    ensures var whole := body + Received(lines);
            var n := ReadableAfter(body, readable, lines, world, clock);
            n <= |whole| && (|whole| <= MAX_MEMORY ==> n == |whole|)
    decreases |lines|
  {
    hide UnstuffLine, Received;
    ReceivedStep(lines);
    if lines == [] {
    } else {
      var after := body + UnstuffLine(lines[0]);
      assert body + Received(lines) == after + Received(lines[1..]);
      var more := Readable(body, readable, after, MAX_MEMORY, world(clock).disk);
      ReadableWithin(after, more, lines[1..], world, clock + 1);
    }
  }

  /** Lines that are not the terminator are un-stuffed and kept, until the size limit or the disk ends the session. */
  lemma {:induction false} BodyRun(s: Session, lines: seq<string>, world: nat -> World, clock: nat)
    requires s.open && s.phase == ReadingBody && |s.body| <= MAX_TOTAL_SIZE
    requires forall l :: l in lines ==> !IsTerminator(l)
    ensures var o := RunLines(s, lines, world, clock);
            var whole := s.body + Received(lines);
            var n := ReadableAfter(s.body, s.readable, lines, world, clock);
            && (o.next.open ==>
                  |whole| <= MAX_TOTAL_SIZE && o == Outcome(s.(body := whole, readable := n), [], [], false))
            && (!o.next.open ==> o.replies <= [MessageTooLarge] && o.deliveries == [])
            && (|whole| <= MAX_TOTAL_SIZE && (forall k :: world(k).disk.Works?) ==> o.next.open)
    decreases |lines|
  {
    hide IsTerminator, UnstuffLine, Received, Readable;
    ReceivedStep(lines);
    if lines == [] {
      assert s.body + Received(lines) == s.body;
    } else {
      hide Step, RunLines;
      RunOfLines(s, lines, world, clock);
      BodyLineStep(s, lines[0], world(clock));
      var o := Step(s, lines[0], world(clock));
      var rest := RunLines(o.next, lines[1..], world, clock + 1);
      assert s.body + Received(lines) == s.body + UnstuffLine(lines[0]) + Received(lines[1..]);
      if o.next.open {
        NothingThen(o.next, rest);
        BodyRun(o.next, lines[1..], world, clock + 1);
      } else {
        ClosedRun(o.next, lines[1..], world, clock + 1);
        assert o.replies + [] == o.replies && o.deliveries + [] == o.deliveries;
      }
    }
  }

  lemma ClosedRun(s: Session, lines: seq<string>, world: nat -> World, clock: nat)
    requires !s.open
    ensures RunLines(s, lines, world, clock) == Outcome(s, [], [], false)
  {
  }

  lemma BodyLineStep(s: Session, line: string, w: World)
    requires s.open && s.phase == ReadingBody && !IsTerminator(line)
    ensures var o := Step(s, line, w);
            var body := s.body + UnstuffLine(line);
            var n := Readable(s.body, s.readable, body, MAX_MEMORY, w.disk);
            && (o.next.open ==>
                  |body| <= MAX_TOTAL_SIZE && o == Outcome(s.(body := body, readable := n), [], [], false))
            && (!o.next.open ==> o.replies <= [MessageTooLarge] && o.deliveries == [])
            && (|body| <= MAX_TOTAL_SIZE && w.disk.Works? ==> o.next.open)
  {
    hide IsTerminator, UnstuffLine, Readable;
  }

  /** A session that has read the client's whole body. */
  function Filled(s: Session, body: string, world: nat -> World, clock: nat): Session {
    s.(body := EnsureCrLf(body), readable := ReadableAfter("", 0, Lines(BodyOnWire(body)), world, clock))
  }

  /** The whole body and its terminator: the server ends up handling a terminator on exactly the client's body. */
  lemma BodyAndDot(s: Session, body: string, world: nat -> World, clock: nat)
    requires s.open && s.phase == ReadingBody && s.body == "" && s.readable == 0
    ensures var lines := Lines(BodyOnWire(body));
            var o := RunLines(s, lines + [".\r\n"], world, clock);
            var end := BodyStep(Filled(s, body, world, clock), ".\r\n", world(clock + |lines|));
            && (|| (|EnsureCrLf(body)| <= MAX_TOTAL_SIZE && o == end)
                || (!o.next.open && o.replies <= [MessageTooLarge] && o.deliveries == []))
            && (|EnsureCrLf(body)| <= MAX_TOTAL_SIZE && (forall k :: world(k).disk.Works?) ==> o == end)
  {
    hide BodyStep, BodyOnWire, RunLines, EnsureCrLf, IsTerminator, ReadableAfter;
    var lines := Lines(BodyOnWire(body));
    var dot := clock + |lines|;
    Transparency(body);
    BodyRun(s, lines, world, clock);
    assert s.body + Received(lines) == Received(lines);
    RunLinesSnoc(s, lines, ".\r\n", world, clock);
    var o := RunLines(s, lines, world, clock);
    if o.next.open {
      var s' := Filled(s, body, world, clock);
      assert o == Outcome(s', [], [], false);
      TerminatorRecognised(body);
      assert Step(s', ".\r\n", world(dot)) == BodyStep(s', ".\r\n", world(dot));
      NothingThen(s', BodyStep(s', ".\r\n", world(dot)));
    }
  }

  lemma NothingThen(s: Session, o: Outcome)
    ensures Outcome(s, [], [], false).Then(o) == o
  {
    assert [] + o.replies == o.replies && [] + o.deliveries == o.deliveries;
  }

  lemma RunLinesSnoc(s: Session, lines: seq<string>, last: string, world: nat -> World, clock: nat)
    ensures var o := RunLines(s, lines, world, clock);
            RunLines(s, lines + [last], world, clock) ==
            if o.next.open then o.Then(Step(o.next, last, world(clock + |lines|))) else o
  {
    hide Step, Run;
    assert InputsOf(lines + [last], world, clock)
        == InputsOf(lines, world, clock) + [Input(last, world(clock + |lines|))];
    RunSnoc(s, InputsOf(lines, world, clock), Input(last, world(clock + |lines|)));
  }

  /** A connection: the client's end of the stream and the session at the other end. */
  class Link {
    const server: SmtpSession
    const world: nat -> World
    var pending: string  // written by the client, not yet handled by the server
    var read: nat        // replies the client has taken
    var clock: nat       // lines the server has handled

    constructor (server: SmtpSession, world: nat -> World)
      requires server.Valid()
      ensures this.server == server && this.world == world
      ensures Valid() && InStep() && pending == "" && clock == 0
    {
      this.server, this.world := server, world;
      pending, read, clock := "", |server.replies|, 0;
    }

    ghost predicate Valid()
      reads this, server, server.body
    {
      server.Valid() && read <= |server.replies| && EndsLine(pending)
    }

    /** No reply is in flight. */
    predicate InStep()
      reads this, server
    {
      read == |server.replies|
    }

    /** The server moved as on these lines; whatever followed the end of the session is lost. */
    twostate predicate Handled(lines: seq<string>)
      reads this, server, server.body
    {
      var o := RunLines(old(server.Abs()), lines, world, old(clock));
      && Valid()
      && pending == ""
      && server.Total() == old(server.Total()).Then(o)
      && (o.next.open ==> clock == old(clock) + |lines|)
    }

    /** The server handles one pending line. */
    method PumpLine()
      requires Valid() && server.open && pending != ""
      modifies this, server, server.body
      ensures Valid() && read == old(read) && clock == old(clock) + 1
      ensures Lines(old(pending)) == [old(pending)[..LineEnd(old(pending))]] + Lines(pending)
      ensures |pending| < |old(pending)|
      ensures server.Total() ==
              old(server.Total()).Then(Step(old(server.Abs()), Lines(old(pending))[0], world(old(clock))))
    {
      hide Step;
      var n := LineEnd(pending);
      var line := pending[..n];
      pending := pending[n..];
      server.HandleLine(line, world(clock));
      clock := clock + 1;
    }

    /** The server handles everything the client has written so far, unless the session ends first. */
    method Pump()
      requires Valid()
      modifies this, server, server.body
      ensures Handled(Lines(old(pending)))
      ensures read == old(read)
      decreases |pending|
    {
      hide Step;
      if !server.open || pending == "" {
        pending := "";
        return;
      }
      hide RunLines;
      ghost var s, before, lines, n := server.Abs(), server.Total(), Lines(pending), clock;
      PumpLine();
      RunOfLines(s, lines, world, n);
      ghost var o := Step(s, lines[0], world(n));
      ThenAssociative(before, o, RunLines(o.next, lines[1..], world, n + 1));
      Pump();
    }

    /** Reads reply lines until one that is not marked as continued; fails if the server stays silent. */
    method ReadFullResponse() returns (lines: Option<seq<string>>)
      requires Valid()
      modifies this, server, server.body
      ensures Handled(Lines(old(pending)))
      ensures lines == Response(Texts(server.replies[old(read)..]))
      ensures lines.Some? ==> read == old(read) + |lines.value|
      ensures lines.None? ==> read == |server.replies|
    {
      hide ReplyText, Lines, RunLines, EndsLine, Response;
      Pump();
      lines := TakeReply();
    }

    method TakeReply() returns (lines: Option<seq<string>>)
      requires read <= |server.replies|
      modifies this`read
      ensures lines == Response(Texts(server.replies[old(read)..]))
      ensures lines.Some? ==> read == old(read) + |lines.value|
      ensures lines.None? ==> read == |server.replies|
      ensures read <= |server.replies|
    {
      hide ReplyText;
      ContinueNothing(Response(Texts(server.replies[read..])));
      lines := Some([]);
      while true
        invariant lines.Some? && read == old(read) + |lines.value| <= |server.replies|
        invariant Response(Texts(server.replies[old(read)..]))
                  == Continue(lines.value, Response(Texts(server.replies[read..])))
        decreases |server.replies| - read
      {
        if read == |server.replies| {
          return None;
        }
        var text := ReplyText(server.replies[read]);
        assert Texts(server.replies[read..])[1..] == Texts(server.replies[read + 1..]);
        ContinueMore(lines.value, text, Response(Texts(server.replies[read + 1..])));
        read := read + 1;
        lines := Some(lines.value + [text]);
        if !Continued(text + "\r\n") {
          break;
        }
      }
    }

    /** Sends one command and reads its reply; anything but a 2xx or 3xx reply is an error. */
    method SendCmd(cmd: string) returns (error: Option<string>)
      requires Valid() && InStep()
      modifies this, server, server.body
      ensures '\r' in cmd || '\n' in cmd ==>
                && error == Some("Command contains invalid characters") && pending == old(pending)
                && read == old(read) && server.Total() == old(server.Total())
      ensures Valid()
      ensures !HasBreak(cmd) ==> Handled(Lines(old(pending) + cmd + "\r\n"))
      ensures !HasBreak(cmd) ==>
                var answer := server.replies[|old(server.replies)|..];
                error == ErrorOf(cmd, answer) && (answer != [] ==> read == old(read) + 1)
    {
      hide ReplyText;
      if '\r' in cmd || '\n' in cmd {
        return Some(BAD_COMMAND);
      }
      pending := pending + (cmd + "\r\n");
      assert pending == old(pending) + cmd + "\r\n";
      var lines := ReadFullResponse();
      ResponseIsOneReply(server.replies[old(read)..]);
      if lines.None? {
        return Some(NO_RESPONSE);
      }
      var last := lines.value[|lines.value| - 1];
      assert last == ReplyText(server.replies[old(read)]);
      StartsWithCode(server.replies[old(read)]);
      if last[0] != '2' && last[0] != '3' {
        return Some(SmtpError(cmd, Joined(lines.value)));
      }
      return None;
    }

    /** One command outside a body: the server takes exactly one step and exactly one reply comes back. */
    method SendOne(cmd: string) returns (error: Option<string>)
      requires Valid() && InStep() && pending == "" && server.open && server.phase != ReadingBody
      requires cmd != "" && CleanEnds(cmd, IsSpace)
      modifies this, server, server.body
      ensures Valid() && InStep() && pending == ""
      ensures var sent := SendLine(old(server.Abs()), cmd, world(old(clock)));
              && error == sent.error
              && server.Total() == old(server.Total()).Then(sent.outcome)
              && (error.None? && server.open ==> clock == old(clock) + 1)
    {
      hide Step, Run;
      ghost var s, before := server.Abs(), server.Total();
      NothingAfter(before);
      CommandAsRead(cmd);
      assert "" + cmd == cmd;
      error := SendCmd(cmd);
      if !HasBreak(cmd) {
        OneReplyPerCommand(s, cmd + "\r\n", world(old(clock)));
        RunOneLine(s, cmd + "\r\n", world, old(clock));
      }
    }
  }
}
