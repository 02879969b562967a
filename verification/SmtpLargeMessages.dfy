/**
  A connection on which a message is forwarded empty: a body that has left memory is stored whole,
  but the forwarded copy and the filter rules are given the empty buffer left behind.
 */
module SmtpLargeMessages {
  import opened Text
  import opened DotStuffing
  import opened BodyBuffer
  import opened SmtpCommands
  import opened SmtpSession
  import opened SmtpHistory
  import opened SmtpClient
  import opened SmtpDelivery
  import opened SmtpAddresses

  /** An address of an alias with forwarding, as these surroundings have it. */
  predicate Forwarding(w: World, local: string, domain: string, row: AliasRow) {
    && PlainAddress(local + "@" + domain) && !HasBreak(local + "@" + domain)
    && '@' !in local && '@' !in domain && !("reply-" <= local) && !("srs0+" <= Lower(local))
    && w.aliases(local, domain) == Found(row) && row.autoForward
    && w.disk.Works? && w.insertOk
  }

  /** A client's transaction with a large body, on a new connection: accepted, stored whole, forwarded empty. */
  lemma LargeMessageForwardedEmpty(w: World, sender: string, local: string, domain: string, row: AliasRow, body: string)
    requires Forwarding(w, local, domain, row) && !HasBreak(sender)
    requires 65_536 < |EnsureCrLf(body)| <= 26_214_400
    ensures var s := StateAfter([] + [Input("EHLO\r\n", w)]);
            var f := MailFlow(s, sender, local + "@" + domain, body, Always(w), 1);
            && f.Ok() && |f.outcome.deliveries| == 1
            && var d := f.outcome.deliveries[0];
               d.Stored? && d.aliasId == row.id && d.file == EnsureCrLf(body) && d.labels == w.labels("")
               && d.forward == Some(Forward(row.destination, d.metadata.sender, ""))
  {
    hide StateAfter, MailFlow, AcceptedBy, RcptCommand, MailCommand, ExtractSender, Lower, PlainAddress, HasBreak;
    hide EnsureCrLf, Lines, BodyOnWire, Step, RcptStep, ReadableAfter;
    Greeted(w);
    var s, recipient := Fresh.(phase := MailFrom), local + "@" + domain;
    EndToEnd(s, sender, recipient, body, Always(w), 1);
    AliasStepSent(AfterMail(s, sender), w, local, domain, row);
    RcptSent(AfterMail(s, sender), recipient, w);
  }

  /** 65,537 times the same letter. */
  function LargeBody(): string {
    seq(MAX_MEMORY + 1, _ => 'x')
  }

  lemma LargeBodySize()
    ensures |EnsureCrLf(LargeBody())| == MAX_MEMORY + 3
  {
    EndsCrLfByBytes(LargeBody());
  }

  /** Surroundings with one forwarding alias, `shop@x.org`. */
  function ShopWorld(): World {
    World(_ => Missing, (_, _) => Found(AliasRow(1, "me@home.org", true)), _ => true, _ => "0000", 0,
          0, 10, 20, Disabled, Works(0),
          (_, from) => Metadata(from, "", None, None, [], []), _ => None, (body, _, _) => body, _ => {},
          "k", true)
  }

  lemma ShopForwards()
    ensures Forwarding(ShopWorld(), "shop", "x.org", AliasRow(1, "me@home.org", true))
  {
    assert "shop" + "@" + "x.org" == "shop@x.org";
    assert Lower("shop@x.org") == "shop@x.org";
    assert Lower("shop")[1] == 'h';
  }

  /** A connection without any parameters: stored as 65,539 bytes, forwarded as none. */
  lemma ShopMessageForwardedEmpty()
    ensures var s := StateAfter([] + [Input("EHLO\r\n", ShopWorld())]);
            var f := MailFlow(s, "a@b.org", "shop@x.org", LargeBody(), Always(ShopWorld()), 1);
            && f.Ok() && |f.outcome.deliveries| == 1
            && var d := f.outcome.deliveries[0];
               d.Stored? && |d.file| == 65_539 && d.forward == Some(Forward("me@home.org", d.metadata.sender, ""))
  {
    hide StateAfter, MailFlow, Forwarding, EnsureCrLf, LargeBody;
    ShopForwards();
    LargeBodySize();
    assert "shop" + "@" + "x.org" == "shop@x.org";
    LargeMessageForwardedEmpty(ShopWorld(), "a@b.org", "shop", "x.org", AliasRow(1, "me@home.org", true), LargeBody());
  }
}
