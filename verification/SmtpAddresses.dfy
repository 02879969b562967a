/**
  Addresses the forwarder hands out and gets back in RCPT commands: rewritten senders and reply
  tokens; and a run in which an old reply token captures a later message.
 */
module SmtpAddresses {
  import opened Text
  import opened DotStuffing
  import opened SmtpCommands
  import opened SmtpSession
  import opened SmtpHistory
  import opened SmtpClient
  import opened Srs

  /** The target of a recipient address as the session reads it off the command line. */
  function RcptTarget(address: string, w: World): Option<Target> {
    match ExtractRecipient(RcptCommand(address))
    case None => None
    case Some(addr) => Some(TargetOf(addr, w))
  }

  lemma TwoParts(a: string, b: string)
    requires '@' !in a && '@' !in b
    ensures Split(a + "@" + b, '@') == [a, b]
  {
    SplitOnceAtChar(a, '@', b);
    SplitInTwo(a + "@" + b, '@');
  }

  // ---------- rewritten senders ----------

  lemma EncodedEnds(sender: string, own: string, hash: string -> string, day: nat)
    requires own != "" && !IsAngle(own[|own| - 1])
    ensures var e := EncodeSrs(sender, own, hash, day); e != "" && CleanEnds(e, IsAngle) && "SRS0+" <= e
  {
    hide Format;
    var (local, domain) := SenderParts(sender);
    var t := Timestamp(day);
    FormatEnds(hash(Signed(t, domain, local)), Decimal(t), domain, local, own);
  }

  lemma FormatEnds(mac: string, time: string, domain: string, local: string, own: string)
    requires own != ""
    ensures var e := Format("SRS0", mac, time, domain, local, own);
            e != "" && "SRS0+" <= e && e[0] == 'S' && e[|e| - 1] == own[|own| - 1]
  {
    var rest := mac + "=" + (time + "=" + (domain + "=" + local));
    var e := Format("SRS0", mac, time, domain, local, own);
    assert e == "SRS0" + "+" + rest + "@" + own;
    assert e[..5] == "SRS0+";
  }

  lemma LoweredPrefix(e: string)
    requires "SRS0+" <= e
    ensures "srs0+" <= Lower(e)
  {
    hide Lower;
    LoweredLiteral();
    LowerConcat("SRS0+", e[5..]);
    assert e == "SRS0+" + e[5..];
  }

  /** The part before the `@` keeps a prefix without one. */
  lemma PrefixBeforeAt(s: string, prefix: string, a: string, b: string)
    requires prefix <= s && s == a + "@" + b
    ensures '@' in prefix || prefix <= a
  {
    assert s[|a|] == '@';
    if |a| < |prefix| {
      assert prefix[|a|] == s[|a|];
    } else {
      assert a[..|prefix|] == s[..|prefix|];
    }
  }

  /** The first part of a lowered rewritten address still carries the tag. */
  lemma LoweredTag(e: string)
    requires "SRS0+" <= e
    ensures var parts := Split(Lower(e), '@');
            |parts| == 2 ==> "srs0+" <= parts[0] && !("reply-" <= parts[0])
  {
    hide Lower, Split;
    var s := Lower(e);
    LoweredPrefix(e);
    SplitInTwo(s, '@');
    SplitOnceCharSpec(s, '@');
    if |Split(s, '@')| == 2 {
      var a, b := Split(s, '@')[0], Split(s, '@')[1];
      PrefixBeforeAt(s, "srs0+", a, b);
      assert a[0] == 's';
    }
  }

  lemma LoweredLiteral()
    ensures Lower("SRS0+") == "srs0+" && Lower("srs0+") == "srs0+"
  {
  }

  lemma LowerTagged(a: string)
    requires "srs0+" <= a
    ensures "srs0+" <= Lower(a)
  {
    hide Lower;
    LoweredLiteral();
    LowerConcat("srs0+", a[5..]);
    assert a == "srs0+" + a[5..];
  }

  /** The session takes the decoding branch for a lowered rewritten address. */
  lemma LoweredTarget(e: string, w: World)
    requires "SRS0+" <= e
    ensures TargetOf(Lower(e), w) ==
            if |Split(Lower(e), '@')| != 2 then NoTarget
            else
              match DecodeSrs(Lower(e), w.srsHash, w.day)
              case None => NoTarget
              case Some(original) =>
                match SplitOnce(original, "@")
                case None => NoTarget
                case Some((local, domain)) => AliasTarget(local, domain)
  {
    hide DecodeSrs, Lower, Split;
    LoweredTag(e);
    if |Split(Lower(e), '@')| == 2 {
      LowerTagged(Split(Lower(e), '@')[0]);
    }
  }

  lemma RewritableSplits(sender: string, own: string, hash: string -> string, day: nat)
    requires IsHash(hash) && Rewritable(sender) && '@' !in own
    ensures |Split(Lower(EncodeSrs(sender, own, hash, day)), '@')| == 2
  {
    var (local, domain) := SenderParts(sender);
    var t := Timestamp(day);
    var mac := hash(Signed(t, domain, local));
    SplitOnceCharSpec(sender, '@');
    HashIsPlain(hash, Signed(t, domain, local));
    var front := "SRS0" + "+" + (mac + "=" + (Decimal(t) + "=" + (domain + "=" + local)));
    assert '@' !in Decimal(t);
    assert '@' !in front;
    LowerConcat(front, "@");
    LowerConcat(front + "@", own);
    LowerKeepsNonLetters(front, '@');
    LowerKeepsNonLetters(own, '@');
    assert Lower("@") == "@";
    TwoParts(Lower(front), Lower(own));
  }

  /**
    A bounce to a rewritten address: the session looks up the original sender's own parts exactly
    when the sender is lower-case, has one `@` and no `=` in its domain, and the address is at most
    21 days old modulo 1024.
   */
  lemma RewrittenSenderResolves(sender: string, own: string, w: World, sent: nat)
    requires IsHash(w.srsHash) && sent <= w.day
    requires '@' in sender && '@' !in own && own != "" && !IsAngle(own[|own| - 1])
    ensures var (local, domain) := SenderParts(sender);
            RcptTarget(EncodeSrs(sender, own, w.srsHash, sent), w) == Some(AliasTarget(local, domain))
            <==> Rewritable(sender) && Lower(sender) == sender && (w.day - sent) % 1024 <= 21
  {
    hide EncodeSrs, DecodeSrs, ExtractRecipient, TargetOf, Split, RcptCommand, Rewritable, CleanEnds;
    var e := EncodeSrs(sender, own, w.srsHash, sent);
    EncodedEnds(sender, own, w.srsHash, sent);
    AddressesRead(e);
    LoweredTarget(e, w);
    RoundTripLowered(sender, own, w.srsHash, sent, w.day);
    if Rewritable(sender) {
      RewritableSplits(sender, own, w.srsHash, sent);
    }
    var decoded := DecodeSrs(Lower(e), w.srsHash, w.day);
    if decoded.Some? {
      SamePartsSameText(sender, decoded.value);
    }
  }

  /** Two addresses with an `@` and the same parts are the same. */
  lemma SamePartsSameText(a: string, b: string)
    requires '@' in a
    ensures SplitOnce(a, "@").Some?
    ensures SplitOnce(a, "@") == SplitOnce(b, "@") <==> a == b
  {
    SplitOnceCharSpec(a, '@');
    SplitOnceCharSpec(b, '@');
  }

  // ---------- reply tokens ----------

  /** A reply to a lower-case token address is looked up under exactly that token. */
  lemma ReplyTokenResolves(token: string, own: string, w: World)
    requires "reply-" <= token && Lower(token) == token && '@' !in token
    requires '@' !in own && own != "" && !IsAngle(own[|own| - 1])
    ensures RcptTarget(token + "@" + own, w) == Some(TokenTarget(token))
  {
    hide ExtractRecipient, TargetOf;
    AddressesRead(token + "@" + own);
    LowerConcat(token, "@");
    LowerConcat(token + "@", own);
    LowerKeepsNonLetters(own, '@');
    assert Lower("@") == "@";
    TokenTargetOf(token, Lower(own), w);
  }

  // ---------- the envelope of a forwarded message ----------

  /** A rewritten address is never taken for a reply token, whatever it decodes to. */
  lemma RewrittenIsNoToken(e: string, w: World)
    requires "SRS0+" <= e
    ensures !TargetOf(Lower(e), w).TokenTarget?
  {
    hide DecodeSrs, Lower, Split;
    LoweredTarget(e, w);
  }

  lemma TokenAddressRewritable(token: string, own: string)
    requires '@' !in token && '@' !in own
    ensures SenderParts(token + "@" + own) == (token, own)
    ensures Rewritable(token + "@" + own) <==> '=' !in own
    ensures Lower(token + "@" + own) == token + "@" + own <==> Lower(token) == token && Lower(own) == own
  {
    hide Lower;
    SplitOnceAtChar(token, '@', own);
    LoweredAddress(token, own);
  }

  /**
    A forwarded message goes out under its rewritten reply-token address. Mail sent back to that
    envelope address never reaches the token: it is looked up as an alias named like the token,
    exactly when the address is still valid.
   */
  lemma ForwardedEnvelopeIsNoToken(token: string, own: string, w: World, sent: nat)
    requires IsHash(w.srsHash) && sent <= w.day
    requires '@' !in token && '@' !in own && own != "" && !IsAngle(own[|own| - 1])
    ensures var target := RcptTarget(EncodeSrs(token + "@" + own, own, w.srsHash, sent), w);
            && (target.Some? ==> !target.value.TokenTarget?)
            && (target == Some(AliasTarget(token, own)) <==>
                  '=' !in own && Lower(token) == token && Lower(own) == own && (w.day - sent) % 1024 <= 21)
  {
    hide EncodeSrs, ExtractRecipient, TargetOf, RcptCommand, Rewritable, Lower, SenderParts, CleanEnds;
    var sender := token + "@" + own;
    TokenAddressRewritable(token, own);
    assert sender[|token|] == '@';
    RewrittenSenderResolves(sender, own, w, sent);
    var e := EncodeSrs(sender, own, w.srsHash, sent);
    EncodedEnds(sender, own, w.srsHash, sent);
    AddressesRead(e);
    RewrittenIsNoToken(e, w);
  }

  // ---------- a stale reply token ----------

  lemma AfterOneMore(inputs: seq<Input>, last: Input)
    requires StateAfter(inputs).open
    ensures var o := Step(StateAfter(inputs), last.line, last.world);
            StateAfter(inputs + [last]) == o.next
            && History(inputs + [last]) == History(inputs) + [Entry(last.line, last.world, o.replies)]
  {
    hide Step;
    assert (inputs + [last])[..|inputs|] == inputs;
  }

  lemma EhloSent(s: Session, w: World)
    requires s.phase == Greet
    ensures Step(s, "EHLO\r\n", w) == Say(s.(phase := MailFrom), Hello)
  {
    hide Trim;
    CommandAsRead("EHLO");
    assert "EHLO" + "\r\n" == "EHLO\r\n";
    assert Upper("EHLO") == "EHLO";
  }

  lemma Greeted(w: World)
    ensures StateAfter([] + [Input("EHLO\r\n", w)]) == Fresh.(phase := MailFrom)
  {
    hide Step;
    EhloSent(Fresh, w);
    AfterOneMore([], Input("EHLO\r\n", w));
  }

  lemma ResetSent(s: Session, w: World)
    requires s.phase != ReadingBody
    ensures Step(s, "RSET\r\n", w) == ResetStep(s)
  {
    hide Trim;
    CommandAsRead("RSET");
    assert "RSET" + "\r\n" == "RSET\r\n";
    assert Upper("RSET") == "RSET";
  }

  lemma TokenTargetOf(token: string, domain: string, w: World)
    requires "reply-" <= token && '@' !in token && '@' !in domain
    ensures TargetOf(token + "@" + domain, w) == TokenTarget(token)
  {
    hide Split;
    TwoParts(token, domain);
  }

  lemma AliasTargetOf(local: string, domain: string, w: World)
    requires !("reply-" <= local) && !("srs0+" <= Lower(local)) && '@' !in local && '@' !in domain
    ensures TargetOf(local + "@" + domain, w) == AliasTarget(local, domain)
  {
    hide Split, DecodeSrs, Lower;
    TwoParts(local, domain);
  }

  /** Addresses that come back from the command line as they are. */
  predicate PlainAddress(addr: string) {
    addr != "" && CleanEnds(addr, IsAngle) && Lower(addr) == addr
  }

  /** MAIL, then RCPT for a reply token whose owner is the sender. */
  lemma TokenTransaction(inputs: seq<Input>, w: World, me: string, token: string, own: string, mapping: ReplyMapping)
    returns (more: seq<Input>)
    requires StateAfter(inputs).open && StateAfter(inputs).phase == MailFrom
    requires PlainAddress(me) && mapping.destination == me && (forall d :: w.spf(d))
    requires PlainAddress(token + "@" + own) && "reply-" <= token && '@' !in token && '@' !in own
    requires w.tokens(token) == Found(mapping)
    ensures var s := StateAfter(more);
            s.open && s.phase == Data && s.replyMapping == Some(mapping)
  {
    hide Step, MailCommand, RcptCommand, ExtractSender, ExtractRecipient, TargetOf, Split, StateAfter, History;
    var mail, rcpt := Input(MailCommand(me) + "\r\n", w), Input(RcptCommand(token + "@" + own) + "\r\n", w);
    MailSent(StateAfter(inputs), me, w);
    AfterOneMore(inputs, mail);
    AddressesRead(me);
    AddressesRead(token + "@" + own);
    RcptSent(StateAfter(inputs + [mail]), token + "@" + own, w);
    TokenTargetOf(token, own, w);
    AfterOneMore(inputs + [mail], rcpt);
    more := inputs + [mail] + [rcpt];
  }

  lemma AliasStepSent(s: Session, w: World, local: string, domain: string, row: AliasRow)
    requires s.phase == RcptTo
    requires PlainAddress(local + "@" + domain) && '@' !in local && '@' !in domain
    requires !("reply-" <= local) && !("srs0+" <= Lower(local)) && w.aliases(local, domain) == Found(row)
    ensures Step(s, RcptCommand(local + "@" + domain) + "\r\n", w)
            == Say(s.(recipient := Some(local + "@" + domain), aliasId := Some(row.id),
                   destination := Some(row.destination), autoForward := row.autoForward, phase := Data), RecipientOk)
    ensures AcceptedBy(Entry(RcptCommand(local + "@" + domain) + "\r\n", w, [RecipientOk])) == Some(ByAlias(row))
  {
    hide Step, RcptCommand, ExtractRecipient, TargetOf, Trim, Split, Lower;
    var addr := local + "@" + domain;
    AddressesRead(addr);
    RcptSent(s, addr, w);
    AliasTargetOf(local, domain, w);
    assert Trim(RcptCommand(addr) + "\r\n") == RcptCommand(addr) by { PlainRcpt(addr); }
  }

  lemma PlainRcpt(addr: string)
    ensures Trim(RcptCommand(addr) + "\r\n") == RcptCommand(addr)
  {
    CommandAsRead(RcptCommand(addr));
  }

  /** RSET, MAIL, RCPT for an ordinary alias, DATA. */
  lemma AliasTransaction(inputs: seq<Input>, w: World, me: string, local: string, domain: string, row: AliasRow)
    returns (more: seq<Input>)
    requires StateAfter(inputs).open && StateAfter(inputs).phase == Data
    requires PlainAddress(local + "@" + domain) && '@' !in local && '@' !in domain
    requires !("reply-" <= local) && !("srs0+" <= Lower(local)) && w.aliases(local, domain) == Found(row)
    ensures var s := StateAfter(more);
            && s.open && s.phase == ReadingBody && s.body == "" && s.replyMapping == StateAfter(inputs).replyMapping
            && LastAccepted(History(more)) == Some(ByAlias(row))
  {
    hide Step, MailCommand, RcptCommand, ExtractSender, AcceptedBy, StateAfter, History, PlainAddress, Lower;
    var reset, mail := Input("RSET\r\n", w), Input(MailCommand(me) + "\r\n", w);
    var rcpt, data := Input(RcptCommand(local + "@" + domain) + "\r\n", w), Input("DATA\r\n", w);
    ResetSent(StateAfter(inputs), w);
    AfterOneMore(inputs, reset);
    var a := inputs + [reset];
    MailSent(StateAfter(a), me, w);
    AfterOneMore(a, mail);
    var b := a + [mail];
    AliasStepSent(StateAfter(b), w, local, domain, row);
    AfterOneMore(b, rcpt);
    var c := b + [rcpt];
    DataSent(StateAfter(c), w);
    AfterOneMore(c, data);
    more := c + [data];
    Unfold(History(b), Entry(rcpt.line, w, [RecipientOk]));
    Unfold(History(c), Entry(data.line, w, [StartMail]));
  }

  /**
    Serving a message by its own recipient fails on every such connection: a reply token is
    accepted, the client resets and addresses an ordinary alias, and the message is relayed to the
    token's original sender.
   */
  lemma StaleTokenCaptures(w: World, me: string, token: string, own: string, mapping: ReplyMapping,
                           local: string, domain: string, row: AliasRow) returns (inputs: seq<Input>)
    requires PlainAddress(me) && mapping.destination == me && (forall d :: w.spf(d))
    requires PlainAddress(token + "@" + own) && "reply-" <= token && '@' !in token && '@' !in own
    requires w.tokens(token) == Found(mapping)
    requires PlainAddress(local + "@" + domain) && '@' !in local && '@' !in domain
    requires !("reply-" <= local) && !("srs0+" <= Lower(local)) && w.aliases(local, domain) == Found(row)
    ensures StateAfter(inputs).open && LastAccepted(History(inputs)) == Some(ByAlias(row))
    ensures Step(StateAfter(inputs), ".\r\n", w).deliveries ==
            [RelayOf(mapping, "", w)]
  {
    hide StateAfter, History, LastAccepted, IsTerminator, PlainAddress, Lower;
    Greeted(w);
    var first := TokenTransaction([] + [Input("EHLO\r\n", w)], w, me, token, own, mapping);
    inputs := AliasTransaction(first, w, me, local, domain, row);
    TerminatorRecognised("");
  }
}
