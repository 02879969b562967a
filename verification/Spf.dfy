/**
  The SPF check: a record parser, a prefix matcher on address text, and a search through included
  and redirected domains with a visited set and a budget of ten lookups.
 */
module Spf {
  import opened Text
  import opened Powers
  import opened Cidr

  // ---------- records ----------

  datatype Directive = Ip4(cidr: string) | Ip6(cidr: string) | Include(domain: string) | Redirect(domain: string)

  function WordEnd(s: string): (n: nat)
    ensures n <= |s|
    ensures s != "" && !IsSpace(s[0]) ==> n > 0
  {
    if s == "" || IsSpace(s[0]) then 0 else 1 + WordEnd(s[1..])
  }

  /** `split_whitespace` */
  function Words(s: string): (words: seq<string>)
    ensures "" !in words
    decreases |s|
  {
    if s == "" then []
    else if IsSpace(s[0]) then Words(s[1..])
    else [s[..WordEnd(s)]] + Words(s[WordEnd(s)..])
  }

  predicate IsQualifier(c: char) {
    c == '+' || c == '-' || c == '~' || c == '?'
  }

  /** What one term stands for; its qualifier is dropped, whichever it is. */
  function DirectiveOf(term: string): Option<Directive>
    requires term != ""
  {
    var clean := if IsQualifier(term[0]) then term[1..] else term;
    if term == "v=spf1" then None
    else if "ip4:" <= clean then Some(Ip4(clean[4..]))
    else if "ip6:" <= clean then Some(Ip6(clean[4..]))
    else if "include:" <= clean then Some(Include(clean[8..]))
    else if "redirect=" <= clean then Some(Redirect(clean[9..]))
    else None
  }

  function DirectivesOf(terms: seq<string>): seq<Directive>
    requires "" !in terms
  {
    if terms == [] then []
    else
      (match DirectiveOf(terms[0]) case None => [] case Some(d) => [d]) + DirectivesOf(terms[1..])
  }

  function Parsed(record: string): seq<Directive> {
    if "v=spf1" <= record then DirectivesOf(Words(record)) else []
  }

  lemma {:induction false} DirectivesConcat(a: seq<string>, b: seq<string>)
    requires "" !in a && "" !in b
    ensures DirectivesOf(a + b) == DirectivesOf(a) + DirectivesOf(b)
  {
    if a == [] {
      assert a + b == b;
    } else {
      assert (a + b)[1..] == a[1..] + b;
      DirectivesConcat(a[1..], b);
    }
  }

  lemma DirectivesNext(terms: seq<string>, term: string)
    requires "" !in terms && term != ""
    ensures DirectivesOf(terms + [term]) ==
            DirectivesOf(terms) + (match DirectiveOf(term) case None => [] case Some(d) => [d])
  {
    hide DirectiveOf;
    DirectivesConcat(terms, [term]);
    assert [term][1..] == [];
  }

  /** The parser: one pass over the terms of a record that starts like an SPF record. */
  method ParseSpfRecord(record: string) returns (directives: seq<Directive>)
    ensures directives == Parsed(record)
  {
    directives := [];
    if !("v=spf1" <= record) {
      return;
    }
    var terms := Words(record);
    var i := 0;
    while i < |terms|
      invariant 0 <= i <= |terms|
      invariant directives == DirectivesOf(terms[..i])
    {
      var term := terms[i];
      assert terms[..i + 1] == terms[..i] + [term];
      DirectivesNext(terms[..i], term);
      hide DirectivesOf;
      i := i + 1;
      if term == "v=spf1" {
        continue;
      }
      var clean := if IsQualifier(term[0]) then term[1..] else term;
      if "ip4:" <= clean {
        directives := directives + [Ip4(clean[4..])];
      } else if "ip6:" <= clean {
        directives := directives + [Ip6(clean[4..])];
      } else if "include:" <= clean {
        directives := directives + [Include(clean[8..])];
      } else if "redirect=" <= clean {
        directives := directives + [Redirect(clean[9..])];
      }
    }
    assert terms[..i] == terms;
  }

  /** A term with a fail qualifier reads exactly like the same term without one. */
  lemma QualifierIgnored(term: string, qualifier: char)
    requires qualifier in "+-~?" && term != "" && term[0] !in "+-~?" && term != "v=spf1"
    ensures DirectiveOf([qualifier] + term) == DirectiveOf(term)
  {
    assert ([qualifier] + term)[1..] == term;
    assert ([qualifier] + term)[0] != "v=spf1"[0];
  }

  // ---------- addresses ----------

  datatype IpAddr = V4(bits4: nat) | V6(bits6: nat)

  function Width(ip: IpAddr): nat {
    if ip.V4? then 32 else 128
  }

  /** An address against a block in text form; a missing or unreadable prefix counts as the full width. */
  predicate MatchIpCidr(ip: IpAddr, cidr: string, parseIp: string -> Option<IpAddr>) {
    var parts := Split(cidr, '/');
    match parseIp(parts[0])
    case None => false
    case Some(network) =>
      var prefix := if |parts| > 1 then ParseUnsigned(parts[1], 0x1_0000_0000).GetOr(Width(ip)) else Width(ip);
      match (ip, network)
      case (V4(a), V4(b)) => MatchV4(a, b, prefix)
      case (V6(a), V6(b)) => MatchV6(a, b, prefix)
      case _ => false
  }

  /** A block `network/prefix` matches exactly the addresses that share its first `prefix` bits. */
  lemma BlockMeaning(ip: IpAddr, text: string, network: IpAddr, prefix: nat, parseIp: string -> Option<IpAddr>)
    requires '/' !in text && parseIp(text) == Some(network) && prefix < 0x1_0000_0000
    requires ip.V4? ==> ip.bits4 < Pow2(32)
    requires ip.V6? ==> ip.bits6 < Pow2(128)
    requires network.V4? ==> network.bits4 < Pow2(32)
    requires network.V6? ==> network.bits6 < Pow2(128)
    ensures MatchIpCidr(ip, text + "/" + Decimal(prefix), parseIp) <==>
            || (ip.V4? && network.V4? && SamePrefix(ip.bits4, network.bits4, Min(prefix, 32), 32))
            || (ip.V6? && network.V6? && SamePrefix(ip.bits6, network.bits6, Min(prefix, 128), 128))
  {
    hide Pow2, SamePrefix, MatchV4, MatchV6;
    assert '/' !in Decimal(prefix);
    SplitOnceAtChar(text, '/', Decimal(prefix));
    SplitInTwo(text + "/" + Decimal(prefix), '/');
    ParseDecimal(prefix, 0x1_0000_0000);
    if ip.V4? && network.V4? {
      MatchV4IsPrefixEquality(ip.bits4, network.bits4, prefix);
    } else if ip.V6? && network.V6? {
      MatchV6IsPrefixEquality(ip.bits6, network.bits6, prefix);
    }
  }

  /** An address text without a prefix, or with an unreadable one, matches exactly the address it names. */
  lemma BareAddressMeaning(ip: IpAddr, text: string, p: string, network: IpAddr, parseIp: string -> Option<IpAddr>)
    requires '/' !in text && parseIp(text) == Some(network)
    requires '/' !in p && ParseUnsigned(p, 0x1_0000_0000).None?
    ensures MatchIpCidr(ip, text, parseIp) <==> ip == network
    ensures MatchIpCidr(ip, text + "/" + p, parseIp) <==> ip == network
  {
    hide ParseUnsigned, Split;
    SplitFirst(text, '/', p);
  }

  /** What makes a prefix unreadable: no digits at all, or any other character beside one leading `+`. */
  lemma UnreadablePrefix(p: string)
    requires p == "" || p == "+" || exists i :: 0 <= i < |p| && !IsDigit(p[i]) && (i > 0 || p[i] != '+')
    ensures ParseUnsigned(p, 0x1_0000_0000).None?
  {
    var digits := if |p| > 1 && p[0] == '+' then p[1..] else p;
    if p == "+" {
      assert p[0] in digits;
    } else if i :| 0 <= i < |p| && !IsDigit(p[i]) && (i > 0 || p[i] != '+') {
      assert p[i] in digits by {
        if |p| > 1 && p[0] == '+' {
          assert p[1..][i - 1] == p[i];
        }
      }
    }
  }

  /** A text whose address cannot be read matches nothing. */
  lemma UnreadableAddress(ip: IpAddr, text: string, rest: string, parseIp: string -> Option<IpAddr>)
    requires '/' !in text && parseIp(text).None?
    ensures !MatchIpCidr(ip, text, parseIp) && !MatchIpCidr(ip, text + "/" + rest, parseIp)
  {
    hide Split;
    SplitFirst(text, '/', rest);
  }

  // ---------- domains ----------

  /** A fixed resolver: the text of the TXT answers for a domain, or a failed lookup. */
  type Resolver = string -> Option<seq<string>>

  predicate Authorized(d: Directive, ip: IpAddr, parseIp: string -> Option<IpAddr>) {
    match d
    case Ip4(cidr) => ip.V4? && MatchIpCidr(ip, cidr, parseIp)
    case Ip6(cidr) => ip.V6? && MatchIpCidr(ip, cidr, parseIp)
    case _ => false
  }

  function LinksIn(directives: seq<Directive>): seq<string> {
    if directives == [] then []
    else
      (match directives[0]
       case Include(d) => [d]
       case Redirect(d) => [d]
       case _ => []) + LinksIn(directives[1..])
  }

  function AllDirectives(records: seq<string>): seq<Directive> {
    if records == [] then [] else Parsed(records[0]) + AllDirectives(records[1..])
  }

  /** The domains a domain's records point to, and whether they name the client. */
  function Links(txt: Resolver, domain: string): seq<string> {
    match txt(domain)
    case None => []
    case Some(records) => LinksIn(AllDirectives(records))
  }

  predicate Names(txt: Resolver, parseIp: string -> Option<IpAddr>, ip: IpAddr, domain: string) {
    match txt(domain)
    case None => false
    case Some(records) => exists d :: d in AllDirectives(records) && Authorized(d, ip, parseIp)
  }

  /** Both as functions of the domain. */
  function LinksOf(txt: Resolver): string -> seq<string> {
    d => Links(txt, d)
  }

  function NamesOf(txt: Resolver, parseIp: string -> Option<IpAddr>, ip: IpAddr): string -> bool {
    d => Names(txt, parseIp, ip, d)
  }

  // ---------- the search ----------

  const BUDGET: nat := 10

  /** Depth-first with an explicit stack: a visited domain is skipped, the eleventh new one ends the search. */
  function Search(links: string -> seq<string>, ok: string -> bool, stack: seq<string>, visited: set<string>,
                  depth: nat): bool
    requires depth <= BUDGET
    decreases BUDGET - depth, |stack|
  {
    if stack == [] then false
    else
      var current, rest := stack[|stack| - 1], stack[..|stack| - 1];
      if current in visited then Search(links, ok, rest, visited, depth)
      else if depth + 1 > BUDGET then false
      else if ok(current) then true
      else Search(links, ok, rest + links(current), visited + {current}, depth + 1)
  }

  /** Whether the search ends because the budget is spent. */
  function Exhausts(links: string -> seq<string>, ok: string -> bool, stack: seq<string>, visited: set<string>,
                    depth: nat): bool
    requires depth <= BUDGET
    decreases BUDGET - depth, |stack|
  {
    if stack == [] then false
    else
      var current, rest := stack[|stack| - 1], stack[..|stack| - 1];
      if current in visited then Exhausts(links, ok, rest, visited, depth)
      else if depth + 1 > BUDGET then true
      else if ok(current) then false
      else Exhausts(links, ok, rest + links(current), visited + {current}, depth + 1)
  }

  /** A chain of links from one domain to another. */
  predicate IsPath(links: string -> seq<string>, path: seq<string>, from: string, to: string) {
    path != [] && path[|path| - 1] == to &&
    if |path| == 1 then from == to
    else to in links(path[|path| - 2]) && IsPath(links, path[..|path| - 1], from, path[|path| - 2])
  }

  ghost predicate Reaches(links: string -> seq<string>, from: string, to: string) {
    exists path :: IsPath(links, path, from, to)
  }

  lemma ReachesSelf(links: string -> seq<string>, d: string)
    ensures Reaches(links, d, d)
  {
    assert IsPath(links, [d], d, d);
  }

  lemma ReachesLinked(links: string -> seq<string>, from: string, mid: string, to: string)
    requires Reaches(links, from, mid) && to in links(mid)
    ensures Reaches(links, from, to)
  {
    var path :| IsPath(links, path, from, mid);
    assert (path + [to])[..|path|] == path;
    assert IsPath(links, path + [to], from, to);
  }

  /** A set that is closed under links contains everything reachable from its members. */
  lemma {:induction false} ClosedSetContains(links: string -> seq<string>, s: set<string>, path: seq<string>,
                                             from: string, to: string)
    requires from in s && (forall d, e :: d in s && e in links(d) ==> e in s)
    requires IsPath(links, path, from, to)
    ensures to in s
    decreases |path|
  {
    if |path| <= 1 {
    } else {
      ClosedSetContains(links, s, path[..|path| - 1], from, path[|path| - 2]);
    }
  }

  lemma PushReaches(links: string -> seq<string>, from: string, rest: seq<string>, current: string)
    requires Reaches(links, from, current) && forall d :: d in rest ==> Reaches(links, from, d)
    ensures forall d :: d in rest + links(current) ==> Reaches(links, from, d)
  {
    hide Reaches;
    forall d | d in rest + links(current)
      ensures Reaches(links, from, d)
    {
      if d in links(current) {
        ReachesLinked(links, from, current, d);
      }
    }
  }

  /** A positive verdict has a reachable witness. */
  lemma {:induction false} SearchSound(links: string -> seq<string>, ok: string -> bool, stack: seq<string>,
                                       visited: set<string>, depth: nat, from: string)
    requires depth <= BUDGET && forall d :: d in stack ==> Reaches(links, from, d)
    ensures Search(links, ok, stack, visited, depth) ==> exists d :: Reaches(links, from, d) && ok(d)
    decreases BUDGET - depth, |stack|
  {
    hide Reaches;
    if stack == [] {
    } else {
      var current, rest := stack[|stack| - 1], stack[..|stack| - 1];
      assert current in stack;
      if current in visited {
        SearchSound(links, ok, rest, visited, depth, from);
      } else if depth + 1 <= BUDGET && !ok(current) {
        PushReaches(links, from, rest, current);
        SearchSound(links, ok, rest + links(current), visited + {current}, depth + 1, from);
      }
    }
  }

  /** What has been visited is not authorized, and its links are visited or still to come. */
  ghost predicate Frontier(links: string -> seq<string>, ok: string -> bool, stack: seq<string>, visited: set<string>) {
    forall v :: v in visited ==> !ok(v) && forall e :: e in links(v) ==> e in visited || e in stack
  }

  /** A negative verdict within the budget has seen a closed set without any authorized domain. */
  lemma {:induction false} SearchComplete(links: string -> seq<string>, ok: string -> bool, stack: seq<string>,
                                          visited: set<string>, depth: nat) returns (seen: set<string>)
    requires depth <= BUDGET && Frontier(links, ok, stack, visited)
    requires !Search(links, ok, stack, visited, depth) && !Exhausts(links, ok, stack, visited, depth)
    ensures visited <= seen && (forall d :: d in stack ==> d in seen)
    ensures forall d, e :: d in seen && e in links(d) ==> e in seen
    ensures forall d :: d in seen ==> !ok(d)
    decreases BUDGET - depth, |stack|
  {
    if stack == [] {
      seen := visited;
    } else {
      var current, rest := stack[|stack| - 1], stack[..|stack| - 1];
      assert stack == rest + [current];
      if current in visited {
        seen := SearchComplete(links, ok, rest, visited, depth);
      } else {
        FrontierMoves(links, ok, rest, current, visited);
        seen := SearchComplete(links, ok, rest + links(current), visited + {current}, depth + 1);
      }
    }
  }

  lemma FrontierMoves(links: string -> seq<string>, ok: string -> bool, rest: seq<string>, current: string,
                      visited: set<string>)
    requires Frontier(links, ok, rest + [current], visited) && !ok(current)
    ensures Frontier(links, ok, rest + links(current), visited + {current})
  {
    forall v, e | v in visited + {current} && e in links(v)
      ensures e in visited + {current} || e in rest + links(current)
    {
      if v != current {
        assert e in visited || e in rest + [current];
      }
    }
  }

  /** A spent budget means eleven distinct reachable domains. */
  lemma {:induction false} ExhaustedSearch(links: string -> seq<string>, ok: string -> bool, stack: seq<string>,
                                           visited: set<string>, depth: nat, from: string) returns (found: set<string>)
    requires depth <= 10 && |visited| == depth && Exhausts(links, ok, stack, visited, depth)
    requires forall d :: d in stack || d in visited ==> Reaches(links, from, d)
    ensures |found| == 11 && forall d :: d in found ==> Reaches(links, from, d)
    decreases BUDGET - depth, |stack|
  {
    hide Reaches;
    var current, rest := stack[|stack| - 1], stack[..|stack| - 1];
    assert current in stack;
    if current in visited {
      found := ExhaustedSearch(links, ok, rest, visited, depth, from);
    } else if depth == BUDGET {
      found := visited + {current};
    } else {
      PushReaches(links, from, rest, current);
      found := ExhaustedSearch(links, ok, rest + links(current), visited + {current}, depth + 1, from);
    }
  }

  /**
    The verdict: positive only with a reachable authorized domain; and if it is negative although
    there is one, then at least eleven distinct domains are reachable.
   */
  lemma VerdictMeaning(links: string -> seq<string>, ok: string -> bool, domain: string) returns (found: set<string>)
    ensures Search(links, ok, [domain], {}, 0) ==> exists d :: Reaches(links, domain, d) && ok(d)
    ensures !Search(links, ok, [domain], {}, 0) && (exists d :: Reaches(links, domain, d) && ok(d)) ==>
              |found| == 11 && forall d :: d in found ==> Reaches(links, domain, d)
  {
    hide Search, Exhausts;
    found := {};
    ReachesSelf(links, domain);
    assert forall d :: d in [domain] ==> d == domain;
    SearchSound(links, ok, [domain], {}, 0, domain);
    if !Search(links, ok, [domain], {}, 0) {
      if Exhausts(links, ok, [domain], {}, 0) {
        found := ExhaustedSearch(links, ok, [domain], {}, 0, domain);
      } else {
        var seen := SearchComplete(links, ok, [domain], {}, 0);
        assert domain in [domain];
        forall d | Reaches(links, domain, d)
          ensures !ok(d)
        {
          var path :| IsPath(links, path, domain, d);
          ClosedSetContains(links, seen, path, domain, d);
        }
      }
    }
  }

  /** With at most ten reachable domains the verdict is exact. */
  lemma VerdictExactWithinBudget(links: string -> seq<string>, ok: string -> bool, domain: string,
                                 universe: set<string>)
    requires |universe| <= 10 && forall d :: Reaches(links, domain, d) ==> d in universe
    ensures Search(links, ok, [domain], {}, 0) <==> exists d :: Reaches(links, domain, d) && ok(d)
  {
    hide Search, Reaches;
    var found := VerdictMeaning(links, ok, domain);
    if found <= universe {
      SubsetSize(found, universe);
    }
  }

  lemma {:induction false} SubsetSize<T>(a: set<T>, b: set<T>)
    requires a <= b
    ensures |a| <= |b|
    decreases a
  {
    if a == {} {
    } else {
      var x :| x in a;
      SubsetSize(a - {x}, b - {x});
    }
  }

  /** The domains the search looks up if none of them authorizes the client: at most ten, by the records alone. */
  function Order(links: string -> seq<string>, stack: seq<string>, visited: set<string>, depth: nat): seq<string>
    requires depth <= BUDGET
    decreases BUDGET - depth, |stack|
  {
    if stack == [] then []
    else
      var current, rest := stack[|stack| - 1], stack[..|stack| - 1];
      if current in visited then Order(links, rest, visited, depth)
      else if depth + 1 > BUDGET then []
      else [current] + Order(links, rest + links(current), visited + {current}, depth + 1)
  }

  lemma {:induction false} OrderWithinBudget(links: string -> seq<string>, stack: seq<string>, visited: set<string>,
                                             depth: nat)
    requires depth <= BUDGET
    ensures |Order(links, stack, visited, depth)| <= BUDGET - depth
    decreases BUDGET - depth, |stack|
  {
    if stack == [] {
    } else {
      var current, rest := stack[|stack| - 1], stack[..|stack| - 1];
      if current in visited {
        OrderWithinBudget(links, rest, visited, depth);
      } else if depth + 1 <= BUDGET {
        OrderWithinBudget(links, rest + links(current), visited + {current}, depth + 1);
      }
    }
  }

  lemma OrderHead(ok: string -> bool, current: string, more: seq<string>)
    ensures (exists d :: d in [current] + more && ok(d)) <==> ok(current) || exists d :: d in more && ok(d)
  {
    assert current in [current] + more;
  }

  /** The verdict is positive exactly when one of those domains authorizes the client. */
  lemma {:induction false} SearchIsOrder(links: string -> seq<string>, ok: string -> bool, stack: seq<string>,
                                         visited: set<string>, depth: nat)
    requires depth <= BUDGET
    ensures Search(links, ok, stack, visited, depth) <==> exists d :: d in Order(links, stack, visited, depth) && ok(d)
    decreases BUDGET - depth, |stack|
  {
    if stack == [] {
    } else {
      var current, rest := stack[|stack| - 1], stack[..|stack| - 1];
      if current in visited {
        SearchIsOrder(links, ok, rest, visited, depth);
      } else if depth + 1 <= BUDGET {
        var more := Order(links, rest + links(current), visited + {current}, depth + 1);
        SearchIsOrder(links, ok, rest + links(current), visited + {current}, depth + 1);
        OrderHead(ok, current, more);
        assert Order(links, stack, visited, depth) == [current] + more;
      }
    }
  }

  /**
    The verdict is right exactly when no reachable domain authorizes the client, or one of the
    domains the budget allows to look up does.
   */
  lemma VerdictRightIff(links: string -> seq<string>, ok: string -> bool, domain: string)
    ensures |Order(links, [domain], {}, 0)| <= 10
    ensures (Search(links, ok, [domain], {}, 0) <==> exists d :: Reaches(links, domain, d) && ok(d))
            <==> || (forall d :: Reaches(links, domain, d) ==> !ok(d))
                 || (exists d :: d in Order(links, [domain], {}, 0) && ok(d))
  {
    hide Search, Reaches, Order;
    OrderWithinBudget(links, [domain], {}, 0);
    SearchIsOrder(links, ok, [domain], {}, 0);
    var _ := VerdictMeaning(links, ok, domain);
  }

  function Between(names: seq<string>, from: nat, to: nat): set<string>
    requires to <= |names|
  {
    set j | from <= j < to :: names[j]
  }

  /** Beyond ten domains it can be wrong: a chain whose eleventh domain authorizes the client is refused. */
  lemma {:induction false} ChainBeyondBudget(links: string -> seq<string>, ok: string -> bool, names: seq<string>,
                                             i: nat)
    requires |names| == BUDGET + 1 && i <= BUDGET
    requires Distinct(names)
    requires forall j :: 0 <= j < BUDGET ==> links(names[j]) == [names[j + 1]] && !ok(names[j])
    requires ok(names[BUDGET])
    ensures !Search(links, ok, [names[i]], Between(names, 0, i), i)
    ensures Reaches(links, names[0], names[i])
    decreases BUDGET - i
  {
    assert names[i] !in Between(names, 0, i);
    if i >= BUDGET {
    } else {
      ChainBeyondBudget(links, ok, names, i + 1);
      assert Between(names, 0, i) + {names[i]} == Between(names, 0, i + 1);
      assert [names[i]][..0] + links(names[i]) == [names[i + 1]];
    }
    ChainReaches(links, names, i);
  }

  /** The refused client is one that a reachable domain authorizes. */
  lemma EleventhDomainRefused(links: string -> seq<string>, ok: string -> bool, names: seq<string>)
    requires |names| == 11
    requires Distinct(names)
    requires forall j :: 0 <= j < 10 ==> links(names[j]) == [names[j + 1]] && !ok(names[j])
    requires ok(names[10])
    ensures !Search(links, ok, [names[0]], {}, 0)
    ensures Reaches(links, names[0], names[10]) && ok(names[10])
  {
    hide Search, Reaches;
    ChainBeyondBudget(links, ok, names, 0);
    assert Between(names, 0, 0) == {};
    ChainReaches(links, names, BUDGET);
  }

  lemma {:induction false} ChainReaches(links: string -> seq<string>, names: seq<string>, i: nat)
    requires i < |names| && forall j :: 0 <= j < |names| - 1 ==> links(names[j]) == [names[j + 1]]
    ensures Reaches(links, names[0], names[i])
  {
    hide Reaches;
    if i == 0 {
      ReachesSelf(links, names[0]);
    } else {
      ChainReaches(links, names, i - 1);
      ReachesLinked(links, names[0], names[i - 1], names[i]);
    }
  }

  // ---------- what qualifiers would change ----------

  /** A term that can let a client pass: no qualifier, or `+` (section 4.6.2 of RFC 7208). */
  predicate Passes(term: string) {
    term != "" && (IsQualifier(term[0]) ==> term[0] == '+')
  }

  function PassingTerms(terms: seq<string>): (passing: seq<string>)
    ensures "" !in passing
  {
    if terms == [] then []
    else if Passes(terms[0]) then [terms[0]] + PassingTerms(terms[1..])
    else PassingTerms(terms[1..])
  }

  function TermsOf(record: string): (terms: seq<string>)
    ensures "" !in terms
  {
    if "v=spf1" <= record then Words(record) else []
  }

  function AllTerms(records: seq<string>): (terms: seq<string>)
    ensures "" !in terms
  {
    if records == [] then [] else TermsOf(records[0]) + AllTerms(records[1..])
  }

  /** The records read with their qualifiers: only passing terms count. */
  function Honoured(records: seq<string>): seq<Directive> {
    DirectivesOf(PassingTerms(AllTerms(records)))
  }

  function HonouredLinks(txt: Resolver, domain: string): seq<string> {
    match txt(domain)
    case None => []
    case Some(records) => LinksIn(Honoured(records))
  }

  predicate HonouredNames(txt: Resolver, parseIp: string -> Option<IpAddr>, ip: IpAddr, domain: string) {
    match txt(domain)
    case None => false
    case Some(records) => exists d :: d in Honoured(records) && Authorized(d, ip, parseIp)
  }

  /** An address term that matches the client, whatever its qualifier. */
  predicate Matches(term: string, ip: IpAddr, parseIp: string -> Option<IpAddr>)
    requires term != ""
  {
    DirectiveOf(term).Some? && Authorized(DirectiveOf(term).value, ip, parseIp)
  }

  lemma {:induction false} AllDirectivesByTerms(records: seq<string>)
    ensures AllDirectives(records) == DirectivesOf(AllTerms(records))
  {
    if records == [] {
    } else {
      AllDirectivesByTerms(records[1..]);
      DirectivesConcat(TermsOf(records[0]), AllTerms(records[1..]));
    }
  }

  lemma {:induction false} PassingMembers(terms: seq<string>)
    ensures forall t :: t in PassingTerms(terms) <==> t in terms && Passes(t)
    ensures (forall t :: t in terms ==> Passes(t)) ==> PassingTerms(terms) == terms
  {
    hide Passes;
    if terms == [] {
    } else {
      PassingMembers(terms[1..]);
      assert terms == [terms[0]] + terms[1..];
    }
  }

  lemma {:induction false} SomeMatches(terms: seq<string>, ip: IpAddr, parseIp: string -> Option<IpAddr>)
    requires "" !in terms
    ensures (exists d :: d in DirectivesOf(terms) && Authorized(d, ip, parseIp))
            <==> exists t :: t in terms && Matches(t, ip, parseIp)
  {
    hide DirectiveOf, Authorized;
    if terms == [] {
    } else {
      SomeMatches(terms[1..], ip, parseIp);
      assert terms == [terms[0]] + terms[1..];
      if Matches(terms[0], ip, parseIp) {
        assert DirectiveOf(terms[0]).value in DirectivesOf(terms);
      }
      forall t | t in terms && t != terms[0]
        ensures t in terms[1..]
      {
      }
    }
  }

  /**
    A domain's verdict respects the qualifiers exactly when every address term that matches the
    client is a passing one, or some passing one matches as well.
   */
  lemma QualifiersHonouredIff(txt: Resolver, parseIp: string -> Option<IpAddr>, ip: IpAddr, domain: string)
    ensures var terms := AllTerms(txt(domain).GetOr([]));
            (Names(txt, parseIp, ip, domain) <==> HonouredNames(txt, parseIp, ip, domain))
            <==> || (forall t :: t in terms && Matches(t, ip, parseIp) ==> Passes(t))
                 || (exists t :: t in terms && Matches(t, ip, parseIp) && Passes(t))
    ensures HonouredNames(txt, parseIp, ip, domain) ==> Names(txt, parseIp, ip, domain)
  {
    hide Matches, Passes, AllTerms, DirectivesOf, Authorized;
    var terms := AllTerms(txt(domain).GetOr([]));
    AllDirectivesByTerms(txt(domain).GetOr([]));
    PassingMembers(terms);
    NoTerms();
    SomeMatches(terms, ip, parseIp);
    SomeMatches(PassingTerms(terms), ip, parseIp);
  }

  lemma NoTerms()
    ensures AllTerms([]) == [] && AllDirectives([]) == [] && Honoured([]) == []
  {
  }

  function HonouredLinksOf(txt: Resolver): string -> seq<string> {
    d => HonouredLinks(txt, d)
  }

  function HonouredNamesOf(txt: Resolver, parseIp: string -> Option<IpAddr>, ip: IpAddr): string -> bool {
    d => HonouredNames(txt, parseIp, ip, d)
  }

  /** No term of a domain carries `-`, `~` or `?`. */
  predicate OnlyPassing(txt: Resolver, domain: string) {
    txt(domain).Some? ==> forall t :: t in AllTerms(txt(domain).value) ==> Passes(t)
  }

  lemma OnlyPassingSame(txt: Resolver, parseIp: string -> Option<IpAddr>, ip: IpAddr, domain: string)
    requires OnlyPassing(txt, domain)
    ensures LinksOf(txt)(domain) == HonouredLinksOf(txt)(domain)
    ensures NamesOf(txt, parseIp, ip)(domain) == HonouredNamesOf(txt, parseIp, ip)(domain)
  {
    hide Passes, AllTerms, DirectivesOf, Authorized, LinksIn;
    if txt(domain).Some? {
      AllDirectivesByTerms(txt(domain).value);
      PassingMembers(AllTerms(txt(domain).value));
    }
  }

  /** The search depends on the reachable domains alone. */
  lemma {:induction false} SameSearch(links: string -> seq<string>, ok: string -> bool, links': string -> seq<string>,
                                      ok': string -> bool, stack: seq<string>, visited: set<string>, depth: nat,
                                      from: string)
    requires depth <= BUDGET && forall d :: d in stack ==> Reaches(links, from, d)
    requires forall d :: Reaches(links, from, d) ==> links(d) == links'(d) && ok(d) == ok'(d)
    ensures Search(links, ok, stack, visited, depth) == Search(links', ok', stack, visited, depth)
    decreases BUDGET - depth, |stack|
  {
    hide Reaches;
    if stack == [] {
    } else {
      var current, rest := stack[|stack| - 1], stack[..|stack| - 1];
      assert current in stack;
      if current in visited {
        SameSearch(links, ok, links', ok', rest, visited, depth, from);
      } else if depth + 1 <= BUDGET && !ok(current) {
        PushReaches(links, from, rest, current);
        SameSearch(links, ok, links', ok', rest + links(current), visited + {current}, depth + 1, from);
      }
    }
  }

  /** If no reachable domain uses `-`, `~` or `?`, the verdict is the one that honours qualifiers. */
  lemma QualifierFreeVerdict(txt: Resolver, parseIp: string -> Option<IpAddr>, ip: IpAddr, domain: string)
    requires forall d :: Reaches(LinksOf(txt), domain, d) ==> OnlyPassing(txt, d)
    ensures Search(LinksOf(txt), NamesOf(txt, parseIp, ip), [domain], {}, 0)
            == Search(HonouredLinksOf(txt), HonouredNamesOf(txt, parseIp, ip), [domain], {}, 0)
  {
    hide Search, Reaches, OnlyPassing, LinksOf, NamesOf, HonouredLinksOf, HonouredNamesOf;
    var links, ok := LinksOf(txt), NamesOf(txt, parseIp, ip);
    var links', ok' := HonouredLinksOf(txt), HonouredNamesOf(txt, parseIp, ip);
    forall d | Reaches(links, domain, d)
      ensures links(d) == links'(d) && ok(d) == ok'(d)
    {
      OnlyPassingSame(txt, parseIp, ip, d);
    }
    ReachesSelf(links, domain);
    assert forall d :: d in [domain] ==> d == domain;
    SameSearch(links, ok, links', ok', [domain], {}, 0, domain);
  }

  predicate NoSpace(s: string) {
    forall i :: 0 <= i < |s| ==> !IsSpace(s[i])
  }

  lemma {:induction false} WordEndOf(word: string, rest: string)
    requires NoSpace(word) && (rest == "" || IsSpace(rest[0]))
    ensures WordEnd(word + rest) == |word|
  {
    if word == "" {
      assert word + rest == rest;
    } else {
      assert (word + rest)[1..] == word[1..] + rest;
      WordEndOf(word[1..], rest);
    }
  }

  lemma WordsOfTwo(a: string, b: string)
    requires a != "" && b != "" && NoSpace(a) && NoSpace(b)
    ensures Words(a + " " + b) == [a, b]
  {
    var s := a + (" " + b);
    assert a + " " + b == s;
    WordEndOf(a, " " + b);
    assert s[..|a|] == a && s[|a|..] == " " + b && (" " + b)[1..] == b;
    WordEndOf(b, "");
    assert b + "" == b && b[..|b|] == b && b[|b|..] == "";
    assert Words(b) == [b];
    assert Words(" " + b) == Words(b);
    assert !IsSpace(s[0]);
    assert Words(s) == [a] + Words(" " + b);
  }

  /** A resolver that knows one record of one domain. */
  function OneRecord(domain: string, record: string): Resolver {
    d => if d == domain then Some([record]) else None
  }

  lemma OneRecordTerms(record: string)
    ensures AllTerms([record]) == TermsOf(record)
    ensures AllDirectives([record]) == DirectivesOf(TermsOf(record))
  {
    AllDirectivesByTerms([record]);
  }

  /** A record that refuses exactly one block: the check authorizes every address of the block. */
  lemma RefusedBlockAuthorized(domain: string, text: string, prefix: nat, network: nat, address: nat,
                               parseIp: string -> Option<IpAddr>)
    requires '/' !in text && NoSpace(text) && parseIp(text) == Some(V4(network)) && prefix < 0x1_0000_0000
    requires network < Pow2(32) && address < Pow2(32) && SamePrefix(address, network, Min(prefix, 32), 32)
    ensures var txt := OneRecord(domain, "v=spf1 -ip4:" + text + "/" + Decimal(prefix));
            && Search(LinksOf(txt), NamesOf(txt, parseIp, V4(address)), [domain], {}, 0)
            && !Search(HonouredLinksOf(txt), HonouredNamesOf(txt, parseIp, V4(address)), [domain], {}, 0)
  {
    hide Pow2, SamePrefix, MatchIpCidr;
    var block := text + "/" + Decimal(prefix);
    var record := "v=spf1 -ip4:" + text + "/" + Decimal(prefix);
    var txt := OneRecord(domain, record);
    BlockMeaning(V4(address), text, V4(network), prefix, parseIp);
    assert NoSpace(block) by { BlockHasNoSpace(text, prefix); }
    assert record == "v=spf1 -ip4:" + block;
    RefusedTerm(block);
    assert Authorized(Ip4(block), V4(address), parseIp);
    assert Names(txt, parseIp, V4(address), domain);
    assert [domain][..0] + HonouredLinks(txt, domain) == [];
  }

  lemma BlockHasNoSpace(text: string, prefix: nat)
    requires NoSpace(text)
    ensures NoSpace(text + "/" + Decimal(prefix))
  {
    var s := Decimal(prefix);
    assert forall i :: 0 <= i < |s| ==> IsDigit(s[i]);
  }

  lemma OneDirective(term: string)
    requires term != ""
    ensures DirectivesOf([term]) == match DirectiveOf(term) case None => [] case Some(d) => [d]
    ensures PassingTerms([term]) == if Passes(term) then [term] else []
  {
    hide DirectiveOf, Passes;
  }

  lemma OneTerm(term: string)
    requires term != "" && NoSpace(term)
    ensures TermsOf("v=spf1 " + term) == ["v=spf1", term]
    ensures AllDirectives(["v=spf1 " + term]) == match DirectiveOf(term) case None => [] case Some(d) => [d]
  {
    var record := "v=spf1 " + term;
    assert record == "v=spf1" + " " + term;
    WordsOfTwo("v=spf1", term);
    assert record[..6] == "v=spf1";
    OneRecordTerms(record);
    hide DirectiveOf, Words;
    assert TermsOf(record) == ["v=spf1"] + [term];
    DirectivesConcat(["v=spf1"], [term]);
    OneDirective("v=spf1");
    OneDirective(term);
    assert DirectiveOf("v=spf1") == None by { VersionIsNoDirective(); }
  }

  lemma VersionIsNoDirective()
    ensures DirectiveOf("v=spf1") == None
  {
  }

  lemma RefusedTerm(block: string)
    requires NoSpace(block)
    ensures AllDirectives(["v=spf1 -ip4:" + block]) == [Ip4(block)]
    ensures Honoured(["v=spf1 -ip4:" + block]) == []
  {
    var term := "-ip4:" + block;
    assert "v=spf1 -ip4:" + block == "v=spf1 " + term;
    assert term[1..] == "ip4:" + block && term[1..][4..] == block;
    assert DirectiveOf(term) == Some(Ip4(block));
    OneTerm(term);
    OneRecordTerms("v=spf1 " + term);
    hide DirectiveOf, TermsOf;
    OneDirective(term);
    assert ["v=spf1", term][1..] == [term];
    assert PassingTerms(["v=spf1", term]) == ["v=spf1"];
    OneDirective("v=spf1");
    VersionIsNoDirective();
  }

  // ---------- the verdict with and without qualifiers ----------

  lemma {:induction false} LinkMembers(directives: seq<Directive>, domain: string)
    ensures domain in LinksIn(directives) <==> Include(domain) in directives || Redirect(domain) in directives
  {
    if directives == [] {
    } else {
      LinkMembers(directives[1..], domain);
      assert directives == [directives[0]] + directives[1..];
    }
  }

  lemma {:induction false} DirectiveMembers(terms: seq<string>, d: Directive)
    requires "" !in terms
    ensures d in DirectivesOf(terms) <==> exists t :: t in terms && t != "" && DirectiveOf(t) == Some(d)
  {
    hide DirectiveOf;
    if terms == [] {
    } else {
      DirectiveMembers(terms[1..], d);
      assert terms == [terms[0]] + terms[1..];
      forall t | t in terms && t != terms[0]
        ensures t in terms[1..]
      {
      }
    }
  }

  lemma HonouredSubset(records: seq<string>, d: Directive)
    ensures d in Honoured(records) ==> d in AllDirectives(records)
  {
    hide DirectiveOf, Passes, AllTerms;
    AllDirectivesByTerms(records);
    PassingMembers(AllTerms(records));
    DirectiveMembers(AllTerms(records), d);
    DirectiveMembers(PassingTerms(AllTerms(records)), d);
  }

  /** Honouring qualifiers never adds a link. */
  lemma HonouredLinksSubset(txt: Resolver, from: string, to: string)
    ensures to in HonouredLinksOf(txt)(from) ==> to in LinksOf(txt)(from)
  {
    hide Honoured, AllDirectives, LinksIn;
    if txt(from).Some? {
      LinkMembers(Honoured(txt(from).value), to);
      LinkMembers(AllDirectives(txt(from).value), to);
      HonouredSubset(txt(from).value, Include(to));
      HonouredSubset(txt(from).value, Redirect(to));
    }
  }

  lemma {:induction false} HonouredPath(txt: Resolver, path: seq<string>, from: string, to: string)
    requires IsPath(HonouredLinksOf(txt), path, from, to)
    ensures Reaches(LinksOf(txt), from, to)
    decreases |path|
  {
    hide Reaches, HonouredLinksOf, LinksOf;
    if |path| == 1 {
      ReachesSelf(LinksOf(txt), from);
    } else {
      HonouredPath(txt, path[..|path| - 1], from, path[|path| - 2]);
      HonouredLinksSubset(txt, path[|path| - 2], to);
      ReachesLinked(LinksOf(txt), from, path[|path| - 2], to);
    }
  }

  lemma HonouredNamesSubset(txt: Resolver, parseIp: string -> Option<IpAddr>, ip: IpAddr, domain: string)
    ensures HonouredNamesOf(txt, parseIp, ip)(domain) ==> NamesOf(txt, parseIp, ip)(domain)
  {
    QualifiersHonouredIff(txt, parseIp, ip, domain);
  }

  /** What honouring qualifiers reaches and authorizes is reached and authorized without. */
  lemma HonouredWitness(txt: Resolver, parseIp: string -> Option<IpAddr>, ip: IpAddr, domain: string, d: string)
    requires Reaches(HonouredLinksOf(txt), domain, d)
    ensures Reaches(LinksOf(txt), domain, d)
    ensures HonouredNamesOf(txt, parseIp, ip)(d) ==> NamesOf(txt, parseIp, ip)(d)
  {
    var path :| IsPath(HonouredLinksOf(txt), path, domain, d);
    HonouredPath(txt, path, domain, d);
    HonouredNamesSubset(txt, parseIp, ip, d);
  }

  /**
    Within the budget, dropping the qualifiers leaves the verdict as it is exactly when no reachable
    domain has a term for the client, or some domain reachable by passing links has a passing one.
   */
  lemma QualifiedVerdictIff(txt: Resolver, parseIp: string -> Option<IpAddr>, ip: IpAddr, domain: string,
                            universe: set<string>)
    requires |universe| <= 10 && forall d :: Reaches(LinksOf(txt), domain, d) ==> d in universe
    ensures var links, ok := LinksOf(txt), NamesOf(txt, parseIp, ip);
            var links', ok' := HonouredLinksOf(txt), HonouredNamesOf(txt, parseIp, ip);
            Search(links, ok, [domain], {}, 0) == Search(links', ok', [domain], {}, 0)
            <==> || (forall d :: Reaches(links, domain, d) ==> !ok(d))
                 || (exists d :: Reaches(links', domain, d) && ok'(d))
  {
    hide Search, Reaches, LinksOf, NamesOf, HonouredLinksOf, HonouredNamesOf;
    var links, ok := LinksOf(txt), NamesOf(txt, parseIp, ip);
    var links', ok' := HonouredLinksOf(txt), HonouredNamesOf(txt, parseIp, ip);
    forall d | Reaches(links', domain, d)
      ensures Reaches(links, domain, d) && (ok'(d) ==> ok(d))
    {
      HonouredWitness(txt, parseIp, ip, domain, d);
    }
    VerdictExactWithinBudget(links, ok, domain, universe);
    VerdictExactWithinBudget(links', ok', domain, universe);
  }

  /** For any number of domains the two verdicts agree exactly when the two lists of looked-up domains do. */
  lemma QualifiedVerdictByOrder(txt: Resolver, parseIp: string -> Option<IpAddr>, ip: IpAddr, domain: string)
    ensures var links, ok := LinksOf(txt), NamesOf(txt, parseIp, ip);
            var links', ok' := HonouredLinksOf(txt), HonouredNamesOf(txt, parseIp, ip);
            Search(links, ok, [domain], {}, 0) == Search(links', ok', [domain], {}, 0)
            <==> ((exists d :: d in Order(links, [domain], {}, 0) && ok(d))
                  <==> (exists d :: d in Order(links', [domain], {}, 0) && ok'(d)))
  {
    hide Search, Order, LinksOf, NamesOf, HonouredLinksOf, HonouredNamesOf;
    SearchIsOrder(LinksOf(txt), NamesOf(txt, parseIp, ip), [domain], {}, 0);
    SearchIsOrder(HonouredLinksOf(txt), HonouredNamesOf(txt, parseIp, ip), [domain], {}, 0);
  }

  // ---------- records as they are written ----------

  /** A record of these terms, separated by single spaces. */
  function Record(terms: seq<string>): string {
    "v=spf1" + Spaced(terms)
  }

  function Spaced(terms: seq<string>): string {
    if terms == [] then "" else " " + terms[0] + Spaced(terms[1..])
  }

  predicate AreWords(terms: seq<string>) {
    forall t :: t in terms ==> t != "" && NoSpace(t)
  }

  lemma WordAfterSpace(word: string, rest: string)
    requires word != "" && NoSpace(word) && (rest == "" || IsSpace(rest[0]))
    ensures Words(" " + word + rest) == [word] + Words(rest)
  {
    var s := word + rest;
    WordEndOf(word, rest);
    assert " " + word + rest == " " + s && (" " + s)[1..] == s;
    assert s[0] == word[0] && s[..|word|] == word && s[|word|..] == rest;
    assert Words(s) == [word] + Words(rest);
    assert Words(" " + s) == Words(s);
  }

  lemma {:induction false} WordsOfSpaced(terms: seq<string>)
    requires AreWords(terms)
    ensures Words(Spaced(terms)) == terms
    ensures Spaced(terms) == "" || IsSpace(Spaced(terms)[0])
  {
    hide NoSpace, Words;
    if terms == [] {
      NoWords();
    } else {
      WordsOfSpaced(terms[1..]);
      var word := terms[0];
      assert word in terms;
      WordAfterSpace(word, Spaced(terms[1..]));
    }
  }

  lemma NoWords()
    ensures Words("") == []
  {
  }

  /** A record is read term by term, whatever its terms. */
  lemma RecordReads(terms: seq<string>)
    requires AreWords(terms) && "" !in terms
    ensures AllDirectives([Record(terms)]) == DirectivesOf(terms)
  {
    hide DirectiveOf;
    var record := Record(terms);
    assert record[..6] == "v=spf1";
    WordsOfSpaced(terms);
    WordEndOf("v=spf1", Spaced(terms));
    assert record[..6] == "v=spf1" && record[6..] == Spaced(terms);
    assert Words(record) == ["v=spf1"] + terms;
    OneRecordTerms(record);
    DirectivesConcat(["v=spf1"], terms);
    OneDirective("v=spf1");
    VersionIsNoDirective();
  }

  /** A text that does not start like an SPF record has no say. */
  lemma OtherTextIgnored(record: string)
    requires !("v=spf1" <= record)
    ensures AllDirectives([record]) == [] && TermsOf(record) == []
  {
  }

  /** The four kinds of terms, and two the parser does not know. */
  lemma TermsRead(value: string)
    ensures DirectiveOf("ip4:" + value) == Some(Ip4(value))
    ensures DirectiveOf("ip6:" + value) == Some(Ip6(value))
    ensures DirectiveOf("include:" + value) == Some(Include(value))
    ensures DirectiveOf("redirect=" + value) == Some(Redirect(value))
    ensures DirectiveOf("all") == None && DirectiveOf("-all") == None
    ensures DirectiveOf("mx:" + value) == None
  {
    var ip4, ip6, inc, red := "ip4:" + value, "ip6:" + value, "include:" + value, "redirect=" + value;
    var mx := "mx:" + value;
    assert ip4[4..] == value && ip6[4..] == value && inc[8..] == value && red[9..] == value;
    assert ip4[..4] == "ip4:" && ip6[..4] == "ip6:" && inc[..8] == "include:" && red[..9] == "redirect=";
    assert ip6[2] == '6' && inc[1] == 'n' && red[0] == 'r' && mx[0] == 'm';
    assert "-all"[1..] == "all" && "all"[0] == 'a';
  }

  /** The verdict for a domain whose only record has only these terms, none of them a link. */
  lemma SingleRecordVerdict(domain: string, terms: seq<string>, parseIp: string -> Option<IpAddr>, ip: IpAddr)
    requires AreWords(terms) && "" !in terms && LinksIn(DirectivesOf(terms)) == []
    ensures var txt := OneRecord(domain, Record(terms));
            Search(LinksOf(txt), NamesOf(txt, parseIp, ip), [domain], {}, 0)
            <==> exists d :: d in DirectivesOf(terms) && Authorized(d, ip, parseIp)
  {
    hide Authorized, DirectivesOf, Record;
    RecordReads(terms);
    var txt := OneRecord(domain, Record(terms));
    assert [domain][..0] + Links(txt, domain) == [];
  }

  /** A record that names one address and refuses all others authorizes exactly that address. */
  lemma OneAddressAuthorized(domain: string, text: string, network: IpAddr, parseIp: string -> Option<IpAddr>,
                             ip: IpAddr)
    requires '/' !in text && NoSpace(text) && parseIp(text) == Some(network)
    ensures var txt := OneRecord(domain, Record(["ip4:" + text, "-all"]));
            Search(LinksOf(txt), NamesOf(txt, parseIp, ip), [domain], {}, 0) <==> ip == network && ip.V4?
    ensures var txt := OneRecord(domain, Record(["ip6:" + text, "-all"]));
            Search(LinksOf(txt), NamesOf(txt, parseIp, ip), [domain], {}, 0) <==> ip == network && ip.V6?
  {
    hide Search, MatchIpCidr, Record;
    UnreadablePrefix("");
    BareAddressMeaning(ip, text, "", network, parseIp);
    TwoTerms("ip4:" + text, Ip4(text), text);
    TwoTerms("ip6:" + text, Ip6(text), text);
    SingleRecordVerdict(domain, ["ip4:" + text, "-all"], parseIp, ip);
    SingleRecordVerdict(domain, ["ip6:" + text, "-all"], parseIp, ip);
    hide Authorized;
    OneNamed(Ip4(text), ip, parseIp);
    OneNamed(Ip6(text), ip, parseIp);
    assert Authorized(Ip4(text), ip, parseIp) <==> ip == network && ip.V4? by { AddressTerms(text, ip, parseIp); }
    assert Authorized(Ip6(text), ip, parseIp) <==> ip == network && ip.V6? by { AddressTerms(text, ip, parseIp); }
  }

  /** One record among any number of answers is enough: an address in it is authorized whatever stands around it. */
  lemma AnyRecordAuthorizes(txt: Resolver, domain: string, before: seq<string>, text: string, after: seq<string>,
                            parseIp: string -> Option<IpAddr>, ip: IpAddr)
    requires txt(domain) == Some(before + [Record(["ip4:" + text, "-all"])] + after)
    requires '/' !in text && NoSpace(text) && parseIp(text) == Some(ip) && ip.V4?
    ensures Search(LinksOf(txt), NamesOf(txt, parseIp, ip), [domain], {}, 0)
  {
    hide MatchIpCidr, Record, Parsed;
    UnreadablePrefix("");
    BareAddressMeaning(ip, text, "", ip, parseIp);
    TwoTerms("ip4:" + text, Ip4(text), text);
    var record := Record(["ip4:" + text, "-all"]);
    RecordReads(["ip4:" + text, "-all"]);
    assert AllDirectives([record]) == Parsed(record);
    RecordsGrow(before + [record] + after, |before|);
    assert (before + [record] + after)[|before|] == record;
    assert Ip4(text) in Parsed(record);
  }

  lemma OneNamed(d: Directive, ip: IpAddr, parseIp: string -> Option<IpAddr>)
    ensures (exists e :: e in [d] && Authorized(e, ip, parseIp)) <==> Authorized(d, ip, parseIp)
  {
    hide Authorized;
    assert d in [d];
  }

  lemma AddressTerms(text: string, ip: IpAddr, parseIp: string -> Option<IpAddr>)
    ensures Authorized(Ip4(text), ip, parseIp) <==> ip.V4? && MatchIpCidr(ip, text, parseIp)
    ensures Authorized(Ip6(text), ip, parseIp) <==> ip.V6? && MatchIpCidr(ip, text, parseIp)
  {
    hide MatchIpCidr;
  }

  lemma TwoTerms(term: string, d: Directive, text: string)
    requires NoSpace(text)
    requires (term == "ip4:" + text && d == Ip4(text)) || (term == "ip6:" + text && d == Ip6(text))
    ensures AreWords([term, "-all"]) && "" !in [term, "-all"]
    ensures DirectivesOf([term, "-all"]) == [d] && LinksIn([d]) == []
  {
    TermsRead(text);
    hide DirectiveOf;
    assert [term, "-all"] == [term] + ["-all"];
    DirectivesConcat([term], ["-all"]);
    OneDirective(term);
    OneDirective("-all");
  }

  /** A resolver that knows one record of each of two domains. */
  function TwoRecords(from: string, first: string, to: string, second: string): Resolver {
    d => if d == from then Some([first]) else if d == to then Some([second]) else None
  }

  /** A redirect hands the question on: the verdict is the one for the other domain's address. */
  lemma RedirectFollowed(from: string, to: string, text: string, network: IpAddr, parseIp: string -> Option<IpAddr>,
                         ip: IpAddr)
    requires from != to && NoSpace(to) && '/' !in text && NoSpace(text) && parseIp(text) == Some(network)
    ensures var txt := TwoRecords(from, Record(["redirect=" + to]), to, Record(["ip6:" + text, "-all"]));
            Search(LinksOf(txt), NamesOf(txt, parseIp, ip), [from], {}, 0) <==> ip == network && ip.V6?
  {
    hide MatchIpCidr, Record, DirectivesOf;
    var txt := TwoRecords(from, Record(["redirect=" + to]), to, Record(["ip6:" + text, "-all"]));
    UnreadablePrefix("");
    BareAddressMeaning(ip, text, "", network, parseIp);
    TwoTerms("ip6:" + text, Ip6(text), text);
    RecordReads(["ip6:" + text, "-all"]);
    OneRedirect(to);
    RecordReads(["redirect=" + to]);
    OneNamed(Ip6(text), ip, parseIp);
    TwoDomains(LinksOf(txt), NamesOf(txt, parseIp, ip), from, to);
  }

  lemma OneRedirect(to: string)
    requires NoSpace(to)
    ensures AreWords(["redirect=" + to]) && DirectivesOf(["redirect=" + to]) == [Redirect(to)]
    ensures LinksIn([Redirect(to)]) == [to]
  {
    TermsRead(to);
    hide DirectiveOf;
    OneDirective("redirect=" + to);
    LinksSnoc([], Redirect(to));
    assert [] + [Redirect(to)] == [Redirect(to)];
    NoLinks();
  }

  lemma TwoDomains(links: string -> seq<string>, ok: string -> bool, from: string, to: string)
    requires from != to && links(from) == [to] && links(to) == [] && !ok(from)
    ensures Search(links, ok, [from], {}, 0) <==> ok(to)
  {
    hide Search;
    SearchTurn(links, ok, [from], {}, 0);
    assert [from][..0] + links(from) == [to];
    SearchTurn(links, ok, [to], {} + {from}, 1);
    assert [to][..0] + links(to) == [];
    NothingToSearch(links, ok, {} + {from} + {to}, 2);
  }

  /** Of the domains a record names, the last one is looked up first. */
  lemma LastLinkFirst(links: string -> seq<string>, domain: string, front: seq<string>, last: string)
    requires links(domain) == front + [last] && last != domain
    ensures [domain, last] <= Order(links, [domain], {}, 0)
  {
    assert [domain][..0] + links(domain) == front + [last];
    var stack := front + [last];
    assert stack[|stack| - 1] == last;
  }

  /** A positive verdict rests on a term of a record of a reachable domain that matches the client. */
  lemma VerdictRestsOnTerm(txt: Resolver, parseIp: string -> Option<IpAddr>, ip: IpAddr, domain: string)
    returns (d: string, term: string)
    requires Search(LinksOf(txt), NamesOf(txt, parseIp, ip), [domain], {}, 0)
    ensures Reaches(LinksOf(txt), domain, d) && txt(d).Some?
    ensures term in AllTerms(txt(d).value) && term != "" && Matches(term, ip, parseIp)
  {
    hide Search, Reaches, Matches, AllTerms, Authorized;
    var _ := VerdictMeaning(LinksOf(txt), NamesOf(txt, parseIp, ip), domain);
    d :| Reaches(LinksOf(txt), domain, d) && NamesOf(txt, parseIp, ip)(d);
    var terms := AllTerms(txt(d).value);
    AllDirectivesByTerms(txt(d).value);
    SomeMatches(terms, ip, parseIp);
    term :| term in terms && Matches(term, ip, parseIp);
  }

  // ---------- a chain of records ----------

  /** Each domain includes the next one; the last one authorizes a block. */
  function ChainRecord(names: seq<string>, block: string, domain: string): Option<seq<string>> {
    if names == [] then None
    else if names[0] == domain then
      Some([if |names| == 1 then "v=spf1 ip4:" + block else "v=spf1 include:" + names[1]])
    else ChainRecord(names[1..], block, domain)
  }

  function ChainResolver(names: seq<string>, block: string): Resolver {
    d => ChainRecord(names, block, d)
  }

  lemma {:induction false} ChainRecordAt(names: seq<string>, block: string, j: nat)
    requires j < |names| && Distinct(names)
    ensures ChainRecord(names, block, names[j]) ==
            Some([if j == |names| - 1 then "v=spf1 ip4:" + block else "v=spf1 include:" + names[j + 1]])
  {
    if j == 0 {
    } else {
      assert names[0] != names[j] && names[1..][j - 1] == names[j];
      assert forall i, k :: 0 <= i < k < |names[1..]| ==> names[1..][i] != names[1..][k] by {
        assert forall i :: 0 <= i < |names[1..]| ==> names[1..][i] == names[i + 1];
      }
      ChainRecordAt(names[1..], block, j - 1);
    }
  }

  lemma IncludeTerm(name: string)
    requires NoSpace(name)
    ensures AllDirectives(["v=spf1 include:" + name]) == [Include(name)]
  {
    var term := "include:" + name;
    assert "v=spf1 include:" + name == "v=spf1 " + term;
    assert term[..8] == "include:" && term[8..] == name;
    assert term[0] == 'i' && term[1] == 'n';
    assert DirectiveOf(term) == Some(Include(name));
    OneTerm(term);
  }

  lemma AddressTerm(block: string)
    requires NoSpace(block)
    ensures AllDirectives(["v=spf1 ip4:" + block]) == [Ip4(block)]
  {
    var term := "ip4:" + block;
    assert "v=spf1 ip4:" + block == "v=spf1 " + term;
    assert term[4..] == block;
    assert DirectiveOf(term) == Some(Ip4(block));
    OneTerm(term);
  }

  lemma ChainStep(names: seq<string>, block: string, parseIp: string -> Option<IpAddr>, ip: IpAddr, j: nat)
    requires Distinct(names) && j < |names| - 1 && NoSpace(names[j + 1])
    ensures LinksOf(ChainResolver(names, block))(names[j]) == [names[j + 1]]
    ensures !NamesOf(ChainResolver(names, block), parseIp, ip)(names[j])
  {
    hide AllDirectives;
    ChainRecordAt(names, block, j);
    IncludeTerm(names[j + 1]);
    LinksSnoc([], Include(names[j + 1]));
    assert [] + [Include(names[j + 1])] == [Include(names[j + 1])];
    NoLinks();
  }

  lemma ChainEnd(names: seq<string>, block: string, parseIp: string -> Option<IpAddr>, ip: IpAddr)
    requires Distinct(names) && names != [] && NoSpace(block) && Authorized(Ip4(block), ip, parseIp)
    ensures NamesOf(ChainResolver(names, block), parseIp, ip)(names[|names| - 1])
  {
    hide AllDirectives, Authorized;
    ChainRecordAt(names, block, |names| - 1);
    AddressTerm(block);
    assert Ip4(block) in AllDirectives(["v=spf1 ip4:" + block]);
  }

  /**
    Ten records that include the next domain each and an eleventh that authorizes a block: the check
    refuses every address of the block, and one record less it would not.
   */
  lemma EleventhRecordUnread(names: seq<string>, text: string, prefix: nat, network: nat, address: nat,
                             parseIp: string -> Option<IpAddr>)
    requires |names| == 11 && Distinct(names) && forall n :: n in names ==> NoSpace(n)
    requires '/' !in text && NoSpace(text) && parseIp(text) == Some(V4(network)) && prefix < 0x1_0000_0000
    requires network < Pow2(32) && address < Pow2(32) && SamePrefix(address, network, Min(prefix, 32), 32)
    ensures var txt := ChainResolver(names, text + "/" + Decimal(prefix));
            var links, ok := LinksOf(txt), NamesOf(txt, parseIp, V4(address));
            && Reaches(links, names[0], names[10]) && ok(names[10])
            && !Search(links, ok, [names[0]], {}, 0)
            && Search(links, ok, [names[1]], {}, 0)
  {
    hide Pow2, SamePrefix, MatchIpCidr, Search, Reaches, ChainResolver, LinksOf, NamesOf;
    var block := text + "/" + Decimal(prefix);
    var txt := ChainResolver(names, block);
    var links, ok := LinksOf(txt), NamesOf(txt, parseIp, V4(address));
    BlockMeaning(V4(address), text, V4(network), prefix, parseIp);
    BlockHasNoSpace(text, prefix);
    assert Authorized(Ip4(block), V4(address), parseIp);
    ChainEnd(names, block, parseIp, V4(address));
    forall j | 0 <= j < BUDGET
      ensures links(names[j]) == [names[j + 1]] && !ok(names[j])
    {
      assert names[j + 1] in names;
      ChainStep(names, block, parseIp, V4(address), j);
    }
    EleventhDomainRefused(links, ok, names);
    ShorterChainAccepted(links, ok, names, 1);
    assert Between(names, 1, 1) == {};
  }

  /** From any later domain of the chain on, the end is within the budget. */
  lemma {:induction false} ShorterChainAccepted(links: string -> seq<string>, ok: string -> bool, names: seq<string>,
                                                i: nat)
    requires |names| == BUDGET + 1 && 1 <= i <= BUDGET && Distinct(names)
    requires forall j :: 0 <= j < BUDGET ==> links(names[j]) == [names[j + 1]]
    requires ok(names[BUDGET])
    ensures Search(links, ok, [names[i]], Between(names, 1, i), i - 1)
    decreases BUDGET - i
  {
    assert names[i] !in Between(names, 1, i);
    if i == BUDGET {
    } else {
      ShorterChainAccepted(links, ok, names, i + 1);
      assert Between(names, 1, i) + {names[i]} == Between(names, 1, i + 1);
      assert [names[i]][..0] + links(names[i]) == [names[i + 1]];
    }
  }

  /** Eleven such names. */
  function Letters(): seq<string> {
    seq(BUDGET + 1, i requires 0 <= i <= BUDGET => [('a' as int + i) as char])
  }

  lemma LettersChain()
    ensures |Letters()| == BUDGET + 1 && Distinct(Letters()) && forall n :: n in Letters() ==> NoSpace(n)
  {
    assert forall i :: 0 <= i <= BUDGET ==> Letters()[i][0] == ('a' as int + i) as char;
  }

  /** A chain without any parameters: the domains a to k, and an address named by the record of k. */
  lemma OneAddressUnread()
    ensures var parseIp := (s: string) => if s == "192.0.2.1" then Some(V4(3_221_225_985)) else None;
            var txt := ChainResolver(Letters(), "192.0.2.1/" + Decimal(32));
            var links, ok := LinksOf(txt), NamesOf(txt, parseIp, V4(3_221_225_985));
            && !Search(links, ok, ["a"], {}, 0)
            && Reaches(links, "a", "k") && ok("k")
  {
    hide Search, Reaches, ChainResolver, LinksOf, NamesOf;
    var parseIp := (s: string) => if s == "192.0.2.1" then Some(V4(3_221_225_985)) else None;
    LettersChain();
    assert Letters()[0] == "a" && Letters()[BUDGET] == "k";
    WordFits();
    assert "192.0.2.1" + "/" + Decimal(32) == "192.0.2.1/" + Decimal(32);
    EleventhRecordUnread(Letters(), "192.0.2.1", 32, 3_221_225_985, 3_221_225_985, parseIp);
  }

  lemma WordFits()
    ensures 3_221_225_985 < Pow2(32)
  {
    assert Pow2(8) == 256;
    assert Pow2(12) == 4096;
    assert Pow2(16) == 65_536;
    assert Pow2(20) == 1_048_576;
    assert Pow2(24) == 16_777_216;
    assert Pow2(28) == 268_435_456;
    assert Pow2(32) == 4_294_967_296;
  }

  // ---------- the check as the program runs it ----------

  lemma {:induction false} DirectivesSnoc(records: seq<string>, record: string)
    ensures AllDirectives(records + [record]) == AllDirectives(records) + Parsed(record)
  {
    if records == [] {
      assert records + [record] == [record];
    } else {
      assert (records + [record])[1..] == records[1..] + [record];
      DirectivesSnoc(records[1..], record);
    }
  }

  lemma {:induction false} LinksConcat(a: seq<Directive>, b: seq<Directive>)
    ensures LinksIn(a + b) == LinksIn(a) + LinksIn(b)
  {
    if a == [] {
      assert a + b == b;
    } else {
      assert (a + b)[1..] == a[1..] + b;
      LinksConcat(a[1..], b);
    }
  }

  lemma LinksSnoc(a: seq<Directive>, d: Directive)
    ensures LinksIn(a + [d]) == LinksIn(a) + (match d case Include(e) => [e] case Redirect(e) => [e] case _ => [])
  {
    LinksConcat(a, [d]);
    assert [d][1..] == [];
  }

  lemma NoLinks()
    ensures LinksIn([]) == []
  {
  }

  /** The directives of one record: a match ends the check, links go on the stack. */
  method ExamineRecord(record: string, ip: IpAddr, parseIp: string -> Option<IpAddr>)
    returns (matched: bool, pushed: seq<string>)
    ensures matched <==> exists d :: d in Parsed(record) && Authorized(d, ip, parseIp)
    ensures !matched ==> pushed == LinksIn(Parsed(record))
  {
    hide Parsed, MatchIpCidr, LinksIn;
    NoLinks();
    var directives := ParseSpfRecord(record);
    matched, pushed := false, [];
    var i := 0;
    while i < |directives|
      invariant 0 <= i <= |directives|
      invariant !matched && forall d :: d in directives[..i] ==> !Authorized(d, ip, parseIp)
      invariant pushed == LinksIn(directives[..i])
    {
      var directive := directives[i];
      assert directives[..i + 1] == directives[..i] + [directive];
      LinksSnoc(directives[..i], directive);
      match directive {
        case Ip4(cidr) =>
          if ip.V4? && MatchIpCidr(ip, cidr, parseIp) {
            assert Authorized(directive, ip, parseIp);
            return true, pushed;
          }
        case Ip6(cidr) =>
          if ip.V6? && MatchIpCidr(ip, cidr, parseIp) {
            assert Authorized(directive, ip, parseIp);
            return true, pushed;
          }
        case Include(d) =>
          pushed := pushed + [d];
        case Redirect(d) =>
          pushed := pushed + [d];
      }
      i := i + 1;
    }
    assert directives[..i] == directives;
  }

  /** All TXT answers of one domain. */
  method ExamineDomain(records: seq<string>, ip: IpAddr, parseIp: string -> Option<IpAddr>)
    returns (matched: bool, pushed: seq<string>)
    ensures matched <==> exists d :: d in AllDirectives(records) && Authorized(d, ip, parseIp)
    ensures !matched ==> pushed == LinksIn(AllDirectives(records))
  {
    hide Parsed, Authorized;
    matched, pushed := false, [];
    var i := 0;
    while i < |records|
      invariant 0 <= i <= |records|
      invariant !matched && forall d :: d in AllDirectives(records[..i]) ==> !Authorized(d, ip, parseIp)
      invariant pushed == LinksIn(AllDirectives(records[..i]))
    {
      assert records[..i + 1] == records[..i] + [records[i]];
      DirectivesSnoc(records[..i], records[i]);
      LinksConcat(AllDirectives(records[..i]), Parsed(records[i]));
      var hit, more := ExamineRecord(records[i], ip, parseIp);
      if hit {
        RecordsGrow(records, i);
        return true, pushed;
      }
      pushed := pushed + more;
      i := i + 1;
    }
    assert records[..i] == records;
  }

  lemma {:induction false} RecordsGrow(records: seq<string>, i: nat)
    requires i < |records|
    ensures forall d :: d in Parsed(records[i]) ==> d in AllDirectives(records)
  {
    if i <= 0 {
    } else {
      RecordsGrow(records[1..], i - 1);
    }
  }

  lemma NothingToSearch(links: string -> seq<string>, ok: string -> bool, visited: set<string>, depth: nat)
    requires depth <= BUDGET
    ensures !Search(links, ok, [], visited, depth)
  {
  }

  /** One turn of the search, for a non-empty stack. */
  lemma SearchTurn(links: string -> seq<string>, ok: string -> bool, stack: seq<string>, visited: set<string>,
                   depth: nat)
    requires depth <= BUDGET && stack != []
    ensures var current, rest := stack[|stack| - 1], stack[..|stack| - 1];
            Search(links, ok, stack, visited, depth) ==
            if current in visited then Search(links, ok, rest, visited, depth)
            else if depth + 1 > BUDGET then false
            else if ok(current) then true
            else Search(links, ok, rest + links(current), visited + {current}, depth + 1)
  {
  }

  /** The worklist loop: it performs the budgeted search, with at most ten lookups. */
  method CheckSpfForDomain(txt: Resolver, parseIp: string -> Option<IpAddr>, domain: string, ip: IpAddr)
    returns (authorized: bool, lookups: nat)
    ensures authorized == Search(LinksOf(txt), NamesOf(txt, parseIp, ip), [domain], {}, 0)
    ensures lookups <= 10
  {
    hide Parsed, Authorized, LinksIn, AllDirectives, Search;
    ghost var links, ok := LinksOf(txt), NamesOf(txt, parseIp, ip);
    var stack := [domain];
    var visited: set<string> := {};
    var depth := 0;
    lookups := 0;
    while stack != []
      invariant depth <= BUDGET && lookups == depth
      invariant Search(links, ok, stack, visited, depth) == Search(links, ok, [domain], {}, 0)
      decreases BUDGET - depth, |stack|
    {
      SearchTurn(links, ok, stack, visited, depth);
      var current := stack[|stack| - 1];
      stack := stack[..|stack| - 1];
      if current in visited {
        continue;
      }
      visited := visited + {current};
      if depth + 1 > BUDGET {
        return false, lookups;
      }
      depth := depth + 1;
      lookups := lookups + 1;
      var lookup := txt(current);
      if lookup.None? {
        assert stack + links(current) == stack;
        continue;
      }
      var matched, pushed := ExamineDomain(lookup.value, ip, parseIp);
      if matched {
        return true, lookups;
      }
      stack := stack + pushed;
    }
    NothingToSearch(links, ok, visited, depth);
    authorized := false;
  }
}
