/**
  The sender rewriting codec: a printer, a parser and an expiry window modulo 1024 days.
  The keyed hash is a parameter that yields four Crockford characters for every input.
 */
module Srs {
  import opened Text

  const WRAP: nat := 1024
  const MAX_AGE: nat := 21
  const U64: nat := 0x1_0000_0000_0000_0000

  predicate IsCrockford(c: char) {
    IsDigit(c) || ('A' <= c <= 'Z' && c != 'I' && c != 'L' && c != 'O' && c != 'U')
  }

  ghost predicate IsHash(hash: string -> string) {
    forall s :: |hash(s)| == 4 && forall c :: c in hash(s) ==> IsCrockford(c)
  }

  function Timestamp(day: nat): nat {
    day % WRAP
  }

  /** The local part and the domain that go into the rewritten address. */
  function SenderParts(sender: string): (string, string) {
    match SplitOnce(sender, "@")
    case Some(parts) => parts
    case None => (sender, "unknown")
  }

  function Signed(timestamp: nat, domain: string, local: string): string {
    Decimal(timestamp) + domain + local
  }

  /** The printed form: tag, `+`, then four fields separated by `=`, then `@` and our own domain. */
  function Format(tag: string, mac: string, time: string, domain: string, local: string, own: string): string {
    (tag + "+" + (mac + "=" + (time + "=" + (domain + "=" + local)))) + "@" + own
  }

  function EncodeSrs(sender: string, own: string, hash: string -> string, day: nat): string {
    var (local, domain) := SenderParts(sender);
    var t := Timestamp(day);
    Format("SRS0", hash(Signed(t, domain, local)), Decimal(t), domain, local, own)
  }

  /** The expiry test, with the wrap-around of 64-bit unsigned subtraction. */
  predicate IsRecent(timestamp: nat, day: nat) {
    var now := Timestamp(day);
    var diff := if now >= timestamp then now - timestamp else (now + WRAP - timestamp) % U64;
    diff <= MAX_AGE
  }

  function DecodeSrs(address: string, hash: string -> string, day: nat): Option<string> {
    match SplitOnce(address, "@")
    case None => None
    case Some((localPart, _)) =>
      if !("srs0+" <= Lower(localPart)) then None
      else
        match SplitOnce(localPart, "+")
        case None => None
        case Some((_, data)) => DecodeData(data, hash, day)
  }

  function DecodeData(data: string, hash: string -> string, day: nat): Option<string> {
    var parts := SplitN(data, '=', 4);
    if |parts| != 4 then None
    else
      match ParseUnsigned(parts[1], U64)
      case None => None
      case Some(timestamp) =>
        if !IsRecent(timestamp, day) then None
        else if Upper(parts[0]) != Upper(hash(Signed(timestamp, parts[2], parts[3]))) then None
        else Some(parts[3] + "@" + parts[2])
  }

  // ---------- the senders that can be rewritten ----------

  /** Exactly one `@`, and no `=` after it. */
  predicate Rewritable(sender: string) {
    && SplitOnce(sender, "@").Some?
    && '@' !in SplitOnce(sender, "@").value.1
    && '=' !in SplitOnce(sender, "@").value.1
  }

  lemma SplitHead(s: string, c: char, n: nat) returns (rest: string)
    requires n >= 2 && |SplitN(s, c, n)| == n
    ensures SplitN(s, c, n)[1..] == SplitN(rest, c, n - 1)
    ensures c !in SplitN(s, c, n)[0] && s == SplitN(s, c, n)[0] + [c] + rest
  {
    SplitOnceCharSpec(s, c);
    rest := SplitOnce(s, [c]).value.1;
  }

  lemma SplitFour(s: string, c: char)
    ensures var parts := SplitN(s, c, 4);
            |parts| == 4 ==>
              && c !in parts[0] && c !in parts[1] && c !in parts[2]
              && s == parts[0] + [c] + (parts[1] + [c] + (parts[2] + [c] + parts[3]))
  {
    if |SplitN(s, c, 4)| == 4 {
      var three := SplitHead(s, c, 4);
      var two := SplitHead(three, c, 3);
      var one := SplitHead(two, c, 2);
      assert SplitN(one, c, 1) == [one];
    }
  }

  lemma SplitFourJoined(p: string, q: string, r: string, last: string, c: char)
    requires c !in p && c !in q && c !in r
    ensures SplitN(p + [c] + (q + [c] + (r + [c] + last)), c, 4) == [p, q, r, last]
  {
    SplitOnceAtChar(p, c, q + [c] + (r + [c] + last));
    SplitOnceAtChar(q, c, r + [c] + last);
    SplitOnceAtChar(r, c, last);
    assert SplitN(r + [c] + last, c, 2) == [r, last];
    assert SplitN(q + [c] + (r + [c] + last), c, 3) == [q, r, last];
  }

  /** Whatever decodes successfully has one `@` and no `=` in its domain. */
  lemma DecodedIsRewritable(address: string, hash: string -> string, day: nat)
    ensures DecodeSrs(address, hash, day).Some? ==> Rewritable(DecodeSrs(address, hash, day).value)
  {
    if DecodeSrs(address, hash, day).Some? {
      SplitOnceCharSpec(address, '@');
      var localPart := SplitOnce(address, "@").value.0;
      SplitOnceCharSpec(localPart, '+');
      var data := SplitOnce(localPart, "+").value.1;
      assert '@' !in data;
      SplitFour(data, '=');
      var parts := SplitN(data, '=', 4);
      assert '@' !in parts[3] && '@' !in parts[2];
      SplitOnceAtChar(parts[3], '@', parts[2]);
    }
  }

  lemma DecodeFields(mac: string, t: nat, domain: string, local: string, hash: string -> string, day: nat)
    requires '=' !in mac && '=' !in domain && t < WRAP
    ensures DecodeData(mac + "=" + (Decimal(t) + "=" + (domain + "=" + local)), hash, day) ==
            if IsRecent(t, day) && Upper(mac) == Upper(hash(Signed(t, domain, local)))
            then Some(local + "@" + domain) else None
  {
    hide IsRecent, Upper, SplitN;
    assert '=' !in Decimal(t);
    SplitFourJoined(mac, Decimal(t), domain, local, '=');
    ParseDecimal(t, U64);
  }

  /** Decoding a printed address checks its age and its hash, and nothing else. */
  lemma DecodeFormatted(tag: string, mac: string, t: nat, domain: string, local: string, own: string,
                        hash: string -> string, day: nat)
    requires Lower(tag) == "srs0" && '@' !in tag && '+' !in tag
    requires '@' !in mac && '=' !in mac
    requires '@' !in domain && '=' !in domain && '@' !in local
    requires t < WRAP
    ensures DecodeSrs(Format(tag, mac, Decimal(t), domain, local, own), hash, day) ==
            if IsRecent(t, day) && Upper(mac) == Upper(hash(Signed(t, domain, local)))
            then Some(local + "@" + domain) else None
  {
    hide IsRecent, Upper, Lower, DecodeData;
    var data := mac + "=" + (Decimal(t) + "=" + (domain + "=" + local));
    var localPart := tag + "+" + data;
    assert '@' !in Decimal(t);
    SplitOnceAtChar(localPart, '@', own);
    SplitOnceAtChar(tag, '+', data);
    LowerConcat(tag + "+", data);
    assert Lower(tag + "+") == "srs0+" by { LowerTag(tag); }
    DecodeFields(mac, t, domain, local, hash, day);
  }

  lemma LowerTag(tag: string)
    requires Lower(tag) == "srs0"
    ensures Lower(tag + "+") == "srs0+"
  {
    LowerConcat(tag, "+");
  }

  /** The window test on the modulo-1024 day stamps. */
  lemma RecentIsAge(d1: nat, d2: nat)
    requires d1 <= d2
    ensures IsRecent(Timestamp(d1), d2) <==> (d2 - d1) % 1024 <= 21
  {
    var age := (d2 - d1) % WRAP;
    var q := (d2 - d1) / WRAP;
    assert d2 == d1 + WRAP * q + age;
    assert Timestamp(d2) == (Timestamp(d1) + age) % WRAP;
  }

  lemma HashIsPlain(hash: string -> string, s: string)
    requires IsHash(hash)
    ensures '@' !in hash(s) && '=' !in hash(s)
    ensures '@' !in Lower(hash(s)) && '=' !in Lower(hash(s))
  {
    LowerKeepsNonLetters(hash(s), '@');
    LowerKeepsNonLetters(hash(s), '=');
  }

  /**
    Round trip: what was encoded on day d1 decodes on day d2 to the original sender exactly when
    the sender has one `@` and no `=` in its domain, and the age modulo 1024 is at most 21 days.
   */
  lemma RoundTrip(sender: string, own: string, hash: string -> string, d1: nat, d2: nat)
    requires IsHash(hash) && d1 <= d2
    ensures DecodeSrs(EncodeSrs(sender, own, hash, d1), hash, d2) == Some(sender)
            <==> Rewritable(sender) && (d2 - d1) % 1024 <= 21
  {
    DecodedIsRewritable(EncodeSrs(sender, own, hash, d1), hash, d2);
    if Rewritable(sender) {
      var (local, domain) := SenderParts(sender);
      SplitOnceCharSpec(sender, '@');
      HashIsPlain(hash, Signed(Timestamp(d1), domain, local));
      RecentIsAge(d1, d2);
      DecodeFormatted("SRS0", hash(Signed(Timestamp(d1), domain, local)), Timestamp(d1), domain, local, own, hash, d2);
    }
  }

  lemma LowerFormat(tag: string, mac: string, time: string, domain: string, local: string, own: string)
    ensures Lower(Format(tag, mac, time, domain, local, own))
            == Format(Lower(tag), Lower(mac), Lower(time), Lower(domain), Lower(local), Lower(own))
  {
    var d := domain + "=" + local;
    var t := time + "=" + d;
    var m := mac + "=" + t;
    LowerConcat(domain, "=");
    LowerConcat(domain + "=", local);
    LowerConcat(time, "=");
    LowerConcat(time + "=", d);
    LowerConcat(mac, "=");
    LowerConcat(mac + "=", t);
    LowerConcat(tag, "+");
    LowerConcat(tag + "+", m);
    LowerConcat(tag + "+" + m, "@");
    LowerConcat(tag + "+" + m + "@", own);
    assert Lower("=") == "=" && Lower("+") == "+" && Lower("@") == "@";
  }

  lemma LowerDecimal(n: nat)
    ensures Lower(Decimal(n)) == Decimal(n)
  {
    var s := Decimal(n);
    forall i | 0 <= i < |s|
      ensures Lower(s)[i] == s[i]
    {
      assert IsDigit(s[i]);
    }
  }

  lemma DecodeLowered(sender: string, own: string, hash: string -> string, d1: nat, d2: nat)
    requires IsHash(hash) && Rewritable(sender)
    ensures var (local, domain) := SenderParts(sender);
            var t := Timestamp(d1);
            DecodeSrs(Lower(EncodeSrs(sender, own, hash, d1)), hash, d2) ==
            if IsRecent(t, d2)
               && Upper(hash(Signed(t, domain, local))) == Upper(hash(Signed(t, Lower(domain), Lower(local))))
            then Some(Lower(sender)) else None
  {
    var (local, domain) := SenderParts(sender);
    var t := Timestamp(d1);
    var mac := hash(Signed(t, domain, local));
    SplitOnceCharSpec(sender, '@');
    HashIsPlain(hash, Signed(t, domain, local));
    LowerFormat("SRS0", mac, Decimal(t), domain, local, own);
    LowerDecimal(t);
    assert Lower("SRS0") == "srs0";
    LowerKeepsNonLetters(domain, '@');
    LowerKeepsNonLetters(domain, '=');
    LowerKeepsNonLetters(local, '@');
    DecodeFormatted("srs0", Lower(mac), t, Lower(domain), Lower(local), Lower(own), hash, d2);
    UpperForgetsLower(mac);
    LoweredAddress(local, domain);
  }

  /** The same after the server has lower-cased the command line: now exactly for lower-case senders. */
  lemma RoundTripLowered(sender: string, own: string, hash: string -> string, d1: nat, d2: nat)
    requires IsHash(hash) && d1 <= d2
    ensures DecodeSrs(Lower(EncodeSrs(sender, own, hash, d1)), hash, d2) == Some(sender)
            <==> Rewritable(sender) && Lower(sender) == sender && (d2 - d1) % 1024 <= 21
  {
    DecodedIsRewritable(Lower(EncodeSrs(sender, own, hash, d1)), hash, d2);
    if Rewritable(sender) {
      var (local, domain) := SenderParts(sender);
      SplitOnceCharSpec(sender, '@');
      DecodeLowered(sender, own, hash, d1, d2);
      RecentIsAge(d1, d2);
      LoweredAddress(local, domain);
    }
  }

  lemma LoweredAddress(local: string, domain: string)
    ensures Lower(local + "@" + domain) == Lower(local) + "@" + Lower(domain)
    ensures Lower(local + "@" + domain) == local + "@" + domain <==> Lower(local) == local && Lower(domain) == domain
  {
    LowerConcat(local, "@");
    LowerConcat(local + "@", domain);
    assert Lower("@") == "@";
    var a, b := Lower(local) + "@" + Lower(domain), local + "@" + domain;
    if a == b {
      assert a[..|local|] == Lower(local) && b[..|local|] == local;
      assert a[|local| + 1..] == Lower(domain) && b[|local| + 1..] == domain;
    }
  }

  // ---------- what is printed, and what is believed ----------

  /** The printed form of a sender, with the text its hash covers: the day stamp, the domain and the local part. */
  lemma PrintedForm(local: string, domain: string, own: string, hash: string -> string, day: nat)
    requires '@' !in local
    ensures EncodeSrs(local + "@" + domain, own, hash, day) ==
            "SRS0" + "+" + hash(Decimal(day % 1024) + domain + local) + "=" + Decimal(day % 1024)
            + "=" + domain + "=" + local + "@" + own
    ensures EncodeSrs(local, own, hash, day) == EncodeSrs(local + "@" + "unknown", own, hash, day)
  {
    SplitOnceAtChar(local, '@', domain);
    SplitOnceAtChar(local, '@', "unknown");
    SplitOnceCharSpec(local, '@');
    var t := Decimal(day % 1024);
    Reassociated(hash(t + domain + local), t, domain, local, own);
  }

  lemma Reassociated(mac: string, time: string, domain: string, local: string, own: string)
    ensures Format("SRS0", mac, time, domain, local, own)
            == "SRS0" + "+" + mac + "=" + time + "=" + domain + "=" + local + "@" + own
  {
    var d := domain + "=" + local;
    assert mac + "=" + (time + "=" + d) == mac + "=" + time + "=" + domain + "=" + local;
  }

  /** The window test on any day stamp, the wrap-around of 64-bit subtraction included. */
  lemma RecentExactly(timestamp: nat, day: nat)
    requires timestamp < 0x1_0000_0000_0000_0000
    ensures var now := day % 1024;
            IsRecent(timestamp, day)
            <==> (timestamp <= now <= timestamp + 21) || (now < timestamp <= now + 1024 <= timestamp + 21)
  {
  }

  /** The first `+` of an accepted address ends its tag. */
  lemma TagFirst(localPart: string)
    requires "srs0+" <= Lower(localPart)
    ensures SplitOnce(localPart, "+") == Some((localPart[..4], localPart[5..]))
    ensures Lower(localPart[..4]) == "srs0" && localPart == localPart[..4] + "+" + localPart[5..]
  {
    var tag, data := localPart[..4], localPart[5..];
    assert Lower(localPart)[..5] == "srs0+";
    assert forall i :: 0 <= i < 5 ==> Lower(localPart)[i] == "srs0+"[i];
    LowerKeepsNonLetters(localPart, '+');
    assert localPart[4] == '+';
    assert localPart == tag + ['+'] + data;
    assert '+' !in tag by {
      forall i | 0 <= i < 4
        ensures tag[i] != '+'
      {
        assert Lower(localPart)[i] != '+';
      }
    }
    assert Lower(tag) == Lower(localPart)[..4] == "srs0"[..4];
    SplitOnceAtChar(tag, '+', data);
  }

  /**
    Whatever is believed has the printed form, a day stamp inside the window, and the hash of its own
    stamp, domain and local part, up to letter case.
   */
  lemma BelievedForm(address: string, hash: string -> string, day: nat)
    returns (tag: string, mac: string, time: string, domain: string, local: string, rest: string)
    requires DecodeSrs(address, hash, day).Some?
    ensures address == tag + "+" + (mac + "=" + (time + "=" + (domain + "=" + local))) + "@" + rest
    ensures Lower(tag) == "srs0" && DecodeSrs(address, hash, day) == Some(local + "@" + domain)
    ensures ParseUnsigned(time, U64).Some?
    ensures var t := ParseUnsigned(time, U64).value;
            IsRecent(t, day) && Upper(mac) == Upper(hash(Decimal(t) + domain + local))
  {
    hide IsRecent, Upper, Lower, ParseUnsigned;
    SplitOnceCharSpec(address, '@');
    var localPart := SplitOnce(address, "@").value.0;
    rest := SplitOnce(address, "@").value.1;
    TagFirst(localPart);
    tag := localPart[..4];
    var data := localPart[5..];
    SplitFour(data, '=');
    var parts := SplitN(data, '=', 4);
    mac, time, domain, local := parts[0], parts[1], parts[2], parts[3];
  }

  /** Putting another local part or domain behind a printed hash is believed only on a hash collision. */
  lemma TamperingNeedsCollision(domain: string, local: string, domain': string, local': string, own: string,
                                hash: string -> string, t: nat, day: nat)
    requires IsHash(hash) && t < WRAP && '@' !in domain' && '=' !in domain' && '@' !in local'
    requires var mac := hash(Decimal(t) + domain + local);
             DecodeSrs(Format("SRS0", mac, Decimal(t), domain', local', own), hash, day).Some?
    ensures Upper(hash(Decimal(t) + domain' + local')) == Upper(hash(Decimal(t) + domain + local))
  {
    hide IsRecent, Upper;
    var mac := hash(Decimal(t) + domain + local);
    HashIsPlain(hash, Decimal(t) + domain + local);
    assert Lower("SRS0") == "srs0";
    DecodeFormatted("SRS0", mac, t, domain', local', own, hash, day);
  }
}
