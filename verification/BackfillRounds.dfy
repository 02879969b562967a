/**
  The backfill scan among other activity: between two rounds new mail may arrive at the front of
  the list, and the label inserts of a round may stop part-way.
 */
module BackfillRounds {
  import opened Text
  import opened BackfillScan

  /** A scan between two rounds. `read` is everything read so far, in order. */
  datatype Scan = Scan(mail: seq<Id>, labelled: set<Id>, offset: nat, read: seq<Id>, finished: bool, aborted: bool)

  datatype Step =
    | Round(inserted: nat)                        // matched rows inserted before the database failed, if it did
    | QueryFails                                  // the page cannot be fetched: the scan gives up
    | Arrive(newMail: seq<Id>, tagged: set<Id>)     // new mail at the front, some of it labelled on arrival

  function PageOf(s: Scan): seq<Id> {
    Page(s.mail, s.labelled, BATCH, s.offset)
  }

  function MatchesOf(s: Scan, hits: set<Id>): seq<Id> {
    Only(PageOf(s), hits)
  }

  /** One turn of the loop: read a page, label its matches, move the offset by the unmatched count. */
  function DoRound(s: Scan, hits: set<Id>, inserted: nat): Scan {
    var page := PageOf(s);
    if page == [] then s.(finished := true)
    else
      var matched := MatchesOf(s, hits);
      var s' := s.(labelled := s.labelled + ElementsOf(Take(matched, inserted)), read := s.read + page);
      if |page| < BATCH then s'.(finished := true)
      else s'.(offset := s.offset + |Without(page, hits)|)
  }

  predicate Enabled(s: Scan, step: Step) {
    match step
    case Round(_) => !s.finished && !s.aborted
    case QueryFails => !s.finished && !s.aborted
    case Arrive(newMail, _) =>
      Distinct(newMail) && forall id :: id in newMail ==> id !in s.mail && id !in s.labelled
  }

  function Next(s: Scan, hits: set<Id>, step: Step): Scan {
    match step
    case Round(inserted) => DoRound(s, hits, inserted)
    case QueryFails => s.(aborted := true)
    case Arrive(newMail, tagged) =>
      s.(mail := newMail + s.mail, labelled := s.labelled + (tagged * ElementsOf(newMail)))
  }

  function After(s: Scan, hits: set<Id>, run: seq<Step>): Scan
    decreases |run|
  {
    if run == [] then s else Next(After(s, hits, run[..|run| - 1]), hits, run[|run| - 1])
  }

  predicate Possible(s: Scan, hits: set<Id>, run: seq<Step>)
    decreases |run|
  {
    run == [] ||
    (Possible(s, hits, run[..|run| - 1]) && Enabled(After(s, hits, run[..|run| - 1]), run[|run| - 1]))
  }

  /** Every insert of every round went through. */
  predicate AllInserted(s: Scan, hits: set<Id>, run: seq<Step>)
    decreases |run|
  {
    run == [] ||
    (AllInserted(s, hits, run[..|run| - 1]) &&
     (run[|run| - 1].Round? ==> run[|run| - 1].inserted >= |MatchesOf(After(s, hits, run[..|run| - 1]), hits)|))
  }

  function Begin(mail: seq<Id>, labelled: set<Id>): Scan {
    Scan(mail, labelled, 0, [], false, false)
  }

  // ---------- no original mail is skipped ----------

  /** The mail that was there and unlabelled when the scan began. */
  function Original(mail: seq<Id>, labelled: set<Id>): set<Id> {
    ElementsOf(Without(mail, labelled))
  }

  /** Every original mail that stands before the offset, or is labelled by now, has been read. */
  ghost predicate NoneSkipped(s: Scan, original: set<Id>, hits: set<Id>) {
    var u := Without(s.mail, s.labelled);
    && Distinct(s.mail)
    && (forall id :: id in original ==> id in s.mail)
    && (forall id :: id in original && id in s.labelled ==> id in s.read && id in hits)
    && (forall i :: 0 <= i < |u| && i < s.offset && u[i] in original ==> u[i] in s.read)
    && (s.finished ==> !s.aborted && forall id :: id in original ==> id in s.read)
  }

  lemma {:induction false} FewerRemoved(page: seq<Id>, done: set<Id>, hits: set<Id>)
    requires done <= hits
    ensures |Without(page, done)| >= |Without(page, hits)|
  {
    if page == [] {
    } else {
      FewerRemoved(page[1..], done, hits);
    }
  }

  /** The rows before the new offset come from the rows before the old one and the page. */
  lemma OffsetCovers(front: seq<Id>, page: seq<Id>, later: seq<Id>, done: set<Id>, hits: set<Id>, i: nat)
    requires done <= hits && forall id :: id in front ==> id !in done
    requires i < |front| + |Without(page, hits)|
    ensures var u := Without(front + page + later, done);
            i < |u| && (u[i] in front || u[i] in page)
  {
    WithoutConcat(front + page, later, done);
    WithoutConcat(front, page, done);
    WithoutNothing(front, done);
    FewerRemoved(page, done, hits);
    FilterMembers(page, done);
    var w := Without(page, done);
    var u := Without(front + page + later, done);
    assert u == front + w + Without(later, done);
    if i >= |front| {
      assert u[i] == w[i - |front|];
    }
  }

  lemma FullRoundSkipsNone(s: Scan, original: set<Id>, hits: set<Id>, inserted: nat)
    requires NoneSkipped(s, original, hits) && !s.finished && !s.aborted && |PageOf(s)| == BATCH
    ensures NoneSkipped(DoRound(s, hits, inserted), original, hits)
  {
    hide Without, Only;
    var u := Without(s.mail, s.labelled);
    var page, matched := PageOf(s), MatchesOf(s, hits);
    FilterMembers(page, hits);
    FilterMembers(s.mail, s.labelled);
    var done := ElementsOf(Take(matched, inserted));
    var front, later := u[..s.offset], u[s.offset + BATCH..];
    var s' := DoRound(s, hits, inserted);
    assert u == front + page + later;
    WithoutDistinct(s.mail, s.labelled);
    WithoutTwice(s.mail, s.labelled, done);
    DistinctParts(front + page, later);
    DistinctParts(front, page);
    var u' := Without(s'.mail, s'.labelled);
    assert forall id :: id in Take(matched, inserted) ==> id in matched;
    forall i | 0 <= i < |u'| && i < s'.offset && u'[i] in original
      ensures u'[i] in s'.read
    {
      OffsetCovers(front, page, later, done, done + hits, i) by { HitsCover(page, done, hits); }
      if u'[i] in front {
        var k :| 0 <= k < |front| && front[k] == u'[i];
        assert u[k] == u'[i];
      }
    }
  }

  lemma HitsCover(page: seq<Id>, done: set<Id>, hits: set<Id>)
    requires forall id :: id in done ==> id in hits
    ensures Without(page, done + hits) == Without(page, hits)
  {
    WithoutSame(page, done + hits, hits);
  }

  lemma LastRoundSkipsNone(s: Scan, original: set<Id>, hits: set<Id>, inserted: nat)
    requires NoneSkipped(s, original, hits) && !s.finished && !s.aborted && |PageOf(s)| < BATCH
    ensures NoneSkipped(DoRound(s, hits, inserted), original, hits)
  {
    hide Only, Without;
    var u := Without(s.mail, s.labelled);
    var page := PageOf(s);
    var s' := DoRound(s, hits, inserted);
    FilterMembers(s.mail, s.labelled);
    FilterMembers(page, hits);
    forall id | id in original
      ensures id in s'.read
    {
      if id !in s.labelled {
        assert id in u;
        var i :| 0 <= i < |u| && u[i] == id;
        if i >= s.offset {
          assert page == u[s.offset..];
          assert page[i - s.offset] == id;
        }
      }
    }
  }

  lemma ArrivalSkipsNone(s: Scan, original: set<Id>, hits: set<Id>, newMail: seq<Id>, tagged: set<Id>)
    requires NoneSkipped(s, original, hits) && Enabled(s, Arrive(newMail, tagged))
    ensures NoneSkipped(Next(s, hits, Arrive(newMail, tagged)), original, hits)
  {
    hide Without;
    var s' := Next(s, hits, Arrive(newMail, tagged));
    var u := Without(s.mail, s.labelled);
    var new' := Without(newMail, s'.labelled);
    WithoutConcat(newMail, s.mail, s'.labelled);
    WithoutSame(s.mail, s.labelled, s'.labelled);
    FilterMembers(newMail, s'.labelled);
    var u' := Without(s'.mail, s'.labelled);
    assert u' == new' + u;
    assert Distinct(newMail + s.mail) by { DistinctConcat(newMail, s.mail); }
    assert forall i :: 0 <= i < |new'| ==> u'[i] == new'[i] && new'[i] in newMail;
    assert forall i :: |new'| <= i < |u'| ==> u'[i] == u[i - |new'|];
  }

  lemma DistinctConcat(a: seq<Id>, b: seq<Id>)
    requires Distinct(a) && Distinct(b) && forall id :: id in a ==> id !in b
    ensures Distinct(a + b)
  {
    var ab := a + b;
    assert forall i :: 0 <= i < |a| ==> ab[i] == a[i] && a[i] in a;
    assert forall j :: |a| <= j < |ab| ==> ab[j] == b[j - |a|] && b[j - |a|] in b;
  }

  lemma StepSkipsNone(s: Scan, original: set<Id>, hits: set<Id>, step: Step)
    requires NoneSkipped(s, original, hits) && Enabled(s, step)
    ensures NoneSkipped(Next(s, hits, step), original, hits)
  {
    hide NoneSkipped, Enabled, DoRound, PageOf;
    match step
    case Round(inserted) =>
      assert !s.finished && !s.aborted by { RoundEnabled(s, inserted, step); }
      assert |PageOf(s)| <= BATCH by { PageBound(s); }
      if |PageOf(s)| == BATCH {
        FullRoundSkipsNone(s, original, hits, inserted);
      } else {
        LastRoundSkipsNone(s, original, hits, inserted);
      }
    case QueryFails => AbortSkipsNone(s, original, hits);
    case Arrive(newMail, tagged) => ArrivalSkipsNone(s, original, hits, newMail, tagged);
  }

  lemma RoundEnabled(s: Scan, inserted: nat, step: Step)
    requires step == Round(inserted) && Enabled(s, step)
    ensures !s.finished && !s.aborted
  {
  }

  lemma AbortSkipsNone(s: Scan, original: set<Id>, hits: set<Id>)
    requires NoneSkipped(s, original, hits) && Enabled(s, QueryFails)
    ensures NoneSkipped(Next(s, hits, QueryFails), original, hits)
  {
  }

  lemma PageBound(s: Scan)
    ensures |PageOf(s)| <= BATCH
  {
  }

  /**
    With mail arriving at the front, inserts failing at will and queries failing at any time, no
    original mail is ever skipped: a scan that comes to its end has read every mail that was
    unlabelled when it began, and at all times it has labelled only matching ones.
   */
  lemma {:induction false} NeverSkips(mail: seq<Id>, labelled: set<Id>, hits: set<Id>, run: seq<Step>)
    requires Distinct(mail) && Possible(Begin(mail, labelled), hits, run)
    ensures var s := After(Begin(mail, labelled), hits, run);
            var original := Original(mail, labelled);
            && NoneSkipped(s, original, hits)
            && (s.finished ==> forall id :: id in original ==> id in s.read)
            && (forall id :: id in original && id in s.labelled ==> id in hits)
    decreases |run|
  {
    hide Enabled, Next;
    FilterMembers(mail, labelled);
    if run == [] {
    } else {
      NeverSkips(mail, labelled, hits, run[..|run| - 1]);
      var s := After(Begin(mail, labelled), hits, run[..|run| - 1]);
      StepSkipsNone(s, Original(mail, labelled), hits, run[|run| - 1]);
    }
  }

  // ---------- all inserts succeed ----------

  lemma StepLabelsHits(s: Scan, hits: set<Id>, step: Step)
    requires Enabled(s, step) && (step.Round? ==> step.inserted >= |MatchesOf(s, hits)|)
    requires forall id :: id in s.read && id in hits ==> id in s.labelled
    ensures var s' := Next(s, hits, step); forall id :: id in s'.read && id in hits ==> id in s'.labelled
  {
    if step.Round? {
      FilterMembers(PageOf(s), hits);
      assert Take(MatchesOf(s, hits), step.inserted) == MatchesOf(s, hits);
    }
  }

  lemma {:induction false} ReadHitsAreLabelled(s: Scan, hits: set<Id>, run: seq<Step>)
    requires s.read == [] && Possible(s, hits, run) && AllInserted(s, hits, run)
    ensures var e := After(s, hits, run); forall id :: id in e.read && id in hits ==> id in e.labelled
    decreases |run|
  {
    hide Enabled, Next, MatchesOf;
    if run == [] {
    } else {
      ReadHitsAreLabelled(s, hits, run[..|run| - 1]);
      StepLabelsHits(After(s, hits, run[..|run| - 1]), hits, run[|run| - 1]);
    }
  }

  /** If every insert goes through, a finished scan has labelled exactly the matching original mail. */
  lemma FinishedScanIsExact(mail: seq<Id>, labelled: set<Id>, hits: set<Id>, run: seq<Step>)
    requires Distinct(mail) && Possible(Begin(mail, labelled), hits, run)
    requires AllInserted(Begin(mail, labelled), hits, run) && After(Begin(mail, labelled), hits, run).finished
    ensures var s := After(Begin(mail, labelled), hits, run);
            forall id :: id in Without(mail, labelled) ==> (id in s.labelled <==> id in hits)
  {
    hide After, Possible, AllInserted, NoneSkipped, Without;
    NeverSkips(mail, labelled, hits, run);
    ReadHitsAreLabelled(Begin(mail, labelled), hits, run);
    var original := Original(mail, labelled);
    forall id | id in Without(mail, labelled)
      ensures id in After(Begin(mail, labelled), hits, run).labelled <==> id in hits
    {
      assert id in original;
    }
  }

  // ---------- progress ----------

  /**
    A round on a full page brings the end nearer by the unmatched mail of the page and the matched
    mail that was inserted; if every insert goes through, that is the whole page.
   */
  lemma RoundProgress(s: Scan, hits: set<Id>, inserted: nat)
    requires Distinct(s.mail) && |PageOf(s)| == 50
    ensures var s' := DoRound(s, hits, inserted);
            var matched := MatchesOf(s, hits);
            && |Without(s'.mail, s'.labelled)| - s'.offset
               == |Without(s.mail, s.labelled)| - s.offset - |Without(PageOf(s), hits)| - |Take(matched, inserted)|
            && |Without(PageOf(s), hits)| + |matched| == 50
            && s'.offset <= |Without(s'.mail, s'.labelled)|
  {
    hide Without, Only;
    var u := Without(s.mail, s.labelled);
    var page, matched := PageOf(s), MatchesOf(s, hits);
    var some := Take(matched, inserted);
    var front, later := u[..s.offset], u[s.offset + BATCH..];
    assert u == front + page + later;
    WithoutDistinct(s.mail, s.labelled);
    WithoutTwice(s.mail, s.labelled, ElementsOf(some));
    DistinctParts(front + page, later);
    DistinctParts(front, page);
    FilterMembers(page, hits);
    OnlyDistinct(page, hits);
    assert forall id :: id in some ==> id in matched;
    PageOnlyShrinks(front, page, later, some);
  }

  /** Labelling some of the middle part of a list without repetitions shortens it by their number. */
  lemma PageOnlyShrinks(front: seq<Id>, page: seq<Id>, later: seq<Id>, some: seq<Id>)
    requires Distinct(front + page + later) && Distinct(some) && forall id :: id in some ==> id in page
    ensures |Without(front + page + later, ElementsOf(some))| == |front| + |page| + |later| - |some|
  {
    hide Without;
    var done := ElementsOf(some);
    DistinctParts(front + page, later);
    DistinctParts(front, page);
    WithoutConcat(front + page, later, done);
    WithoutConcat(front, page, done);
    assert forall id :: id in page ==> id in front + page;
    WithoutNothing(front, done);
    WithoutNothing(later, done);
    DropSome(page, some);
  }

  /**
    A round stands still, neither finishing nor moving the offset nor labelling anything, exactly
    when a full page matches completely and none of its inserts goes through. The scan then reads
    the same page again.
   */
  lemma StandstillIff(s: Scan, hits: set<Id>, inserted: nat)
    requires !s.finished
    ensures var s' := DoRound(s, hits, inserted);
            (!s'.finished && s'.offset == s.offset && s'.labelled == s.labelled)
            <==> |PageOf(s)| == 50 && (forall id :: id in PageOf(s) ==> id in hits) && inserted == 0
  {
    hide Only, Without;
    var page, matched := PageOf(s), MatchesOf(s, hits);
    var u := Without(s.mail, s.labelled);
    FilterMembers(page, hits);
    FilterMembers(s.mail, s.labelled);
    if |page| == BATCH {
      if forall id :: id in page ==> id in hits {
        WithoutAll(page, hits);
      } else {
        var id :| id in page && id !in hits;
        assert id in Without(page, hits);
      }
      if matched != [] && inserted > 0 {
        assert Take(matched, inserted)[0] == matched[0] && matched[0] in matched;
        assert matched[0] in page && matched[0] in Take(matched, inserted);
        assert matched[0] in u;
      }
    }
  }

  lemma {:induction false} WithoutAll(ids: seq<Id>, out: set<Id>)
    requires forall id :: id in ids ==> id in out
    ensures Without(ids, out) == []
  {
    if ids == [] {
    } else {
      var head := ids[0];
      assert head in ids;
      WithoutAll(ids[1..], out);
    }
  }

  // ---------- how long a scan can take ----------

  /** A round that reads a full page and gets somewhere. */
  predicate Moves(s: Scan, hits: set<Id>, step: Step) {
    step.Round? && Enabled(s, step) && |PageOf(s)| == BATCH &&
    (s.offset != DoRound(s, hits, step.inserted).offset || s.labelled != DoRound(s, hits, step.inserted).labelled)
  }

  function MovingRounds(s: Scan, hits: set<Id>, run: seq<Step>): nat
    decreases |run|
  {
    if run == [] then 0
    else
      var front, last := run[..|run| - 1], run[|run| - 1];
      MovingRounds(s, hits, front) + (if Moves(After(s, hits, front), hits, last) then 1 else 0)
  }

  function Arrivals(run: seq<Step>): nat {
    if run == [] then 0
    else Arrivals(run[..|run| - 1]) + (if run[|run| - 1].Arrive? then |run[|run| - 1].newMail| else 0)
  }

  /** The unlabelled mail at and behind the offset. */
  function Remaining(s: Scan): int {
    |Without(s.mail, s.labelled)| - s.offset
  }

  lemma MoveShortens(s: Scan, hits: set<Id>, step: Step)
    requires Distinct(s.mail) && Remaining(s) >= 0 && Moves(s, hits, step)
    ensures 0 <= Remaining(Next(s, hits, step)) < Remaining(s)
  {
    hide Without, Only, Enabled;
    RoundProgress(s, hits, step.inserted);
    var taken := Take(MatchesOf(s, hits), step.inserted);
    if taken == [] {
      assert s.labelled + ElementsOf(taken) == s.labelled;
    }
  }

  /** A round that stands still, or ends the scan, leaves at least the mail before the offset in place. */
  lemma RoundKeepsOffset(s: Scan, hits: set<Id>, inserted: nat)
    requires Distinct(s.mail) && Remaining(s) >= 0
    ensures 0 <= Remaining(DoRound(s, hits, inserted)) <= Remaining(s)
  {
    hide Without, Only;
    if |PageOf(s)| == BATCH {
      RoundProgress(s, hits, inserted);
    } else {
      ShortRound(s, hits, inserted);
    }
  }

  lemma ShortRound(s: Scan, hits: set<Id>, inserted: nat)
    requires Distinct(s.mail) && Remaining(s) >= 0 && |PageOf(s)| < BATCH
    ensures 0 <= Remaining(DoRound(s, hits, inserted)) <= Remaining(s)
  {
    hide Without, Only;
    var u := Without(s.mail, s.labelled);
    var page, matched := PageOf(s), MatchesOf(s, hits);
    var some := Take(matched, inserted);
    var front, later: seq<Id> := u[..s.offset], [];
    assert u == front + page + later;
    WithoutDistinct(s.mail, s.labelled);
    WithoutTwice(s.mail, s.labelled, ElementsOf(some));
    DistinctParts(front + page, later);
    DistinctParts(front, page);
    FilterMembers(page, hits);
    OnlyDistinct(page, hits);
    assert forall id :: id in some ==> id in matched;
    PageOnlyShrinks(front, page, later, some);
  }

  lemma ArrivalAdds(s: Scan, hits: set<Id>, newMail: seq<Id>, tagged: set<Id>)
    requires Enabled(s, Arrive(newMail, tagged))
    ensures Remaining(s) <= Remaining(Next(s, hits, Arrive(newMail, tagged))) <= Remaining(s) + |newMail|
  {
    hide Without;
    var s' := Next(s, hits, Arrive(newMail, tagged));
    WithoutConcat(newMail, s.mail, s'.labelled);
    WithoutSame(s.mail, s.labelled, s'.labelled);
    FilterMembers(newMail, s'.labelled);
  }

  /**
    However the inserts fail, a scan makes at most as many rounds that get somewhere as there was
    unlabelled mail at its beginning or has arrived since.
   */
  lemma {:induction false} MovingRoundsBounded(mail: seq<Id>, labelled: set<Id>, hits: set<Id>, run: seq<Step>)
    requires Distinct(mail) && Possible(Begin(mail, labelled), hits, run)
    ensures var s := After(Begin(mail, labelled), hits, run);
            0 <= Remaining(s) && MovingRounds(Begin(mail, labelled), hits, run) + Remaining(s)
                                 <= |Without(mail, labelled)| + Arrivals(run)
    decreases |run|
  {
    hide Remaining, DoRound, PageOf, Moves, NoneSkipped, Without;
    if run == [] {
      assert Remaining(Begin(mail, labelled)) == |Without(mail, labelled)| by { NothingRemoved(mail, labelled); }
    } else {
      var front, last := run[..|run| - 1], run[|run| - 1];
      var s := After(Begin(mail, labelled), hits, front);
      MovingRoundsBounded(mail, labelled, hits, front);
      assert Distinct(s.mail) by { MailStaysDistinct(mail, labelled, hits, front); }
      match last {
        case Round(inserted) =>
          RoundKeepsOffset(s, hits, inserted);
          if Moves(s, hits, last) {
            MoveShortens(s, hits, last);
          }
        case QueryFails => AbortKeeps(s, hits);
        case Arrive(newMail, tagged) => ArrivalAdds(s, hits, newMail, tagged);
      }
      assert !last.Round? ==> !Moves(s, hits, last) by { OnlyRoundsMove(s, hits, last); }
    }
  }

  lemma NothingRemoved(mail: seq<Id>, labelled: set<Id>)
    ensures Remaining(Begin(mail, labelled)) == |Without(mail, labelled)|
  {
  }

  lemma AbortKeeps(s: Scan, hits: set<Id>)
    ensures Remaining(Next(s, hits, QueryFails)) == Remaining(s)
  {
  }

  lemma OnlyRoundsMove(s: Scan, hits: set<Id>, step: Step)
    ensures Moves(s, hits, step) ==> step.Round?
  {
  }

  lemma MailStaysDistinct(mail: seq<Id>, labelled: set<Id>, hits: set<Id>, run: seq<Step>)
    requires Distinct(mail) && Possible(Begin(mail, labelled), hits, run)
    ensures Distinct(After(Begin(mail, labelled), hits, run).mail)
  {
    hide After, Possible, Original;
    NeverSkips(mail, labelled, hits, run);
  }

  // ---------- has everything been read? ----------

  /** At some round at most one page of mail was left at and behind the offset. */
  predicate HadLastPage(s: Scan, hits: set<Id>, run: seq<Step>)
    decreases |run|
  {
    run != [] &&
    (HadLastPage(s, hits, run[..|run| - 1])
     || (run[|run| - 1].Round? && Remaining(After(s, hits, run[..|run| - 1])) <= 50))
  }

  predicate EndsWith(ids: seq<Id>, last: Id) {
    ids != [] && ids[|ids| - 1] == last
  }

  lemma WithoutLast(ids: seq<Id>, out: set<Id>, last: Id)
    requires EndsWith(ids, last) && last !in out
    ensures EndsWith(Without(ids, out), last)
  {
    var front := ids[..|ids| - 1];
    assert ids == front + [last];
    WithoutConcat(front, [last], out);
    assert [last][1..] == [];
  }

  /** The last original mail stays last as long as it is unlabelled: arrivals go to the front. */
  lemma StepKeepsLast(s: Scan, hits: set<Id>, step: Step, last: Id)
    requires Enabled(s, step) && last in s.mail
    requires last !in s.labelled ==> EndsWith(Without(s.mail, s.labelled), last)
    ensures var s' := Next(s, hits, step); last !in s'.labelled ==> EndsWith(Without(s'.mail, s'.labelled), last)
  {
    hide Without, Only, Page;
    var s' := Next(s, hits, step);
    if last !in s'.labelled {
      match step {
        case Round(inserted) =>
          if PageOf(s) != [] {
            var done := ElementsOf(Take(MatchesOf(s, hits), inserted));
            WithoutTwice(s.mail, s.labelled, done);
            WithoutLast(Without(s.mail, s.labelled), done, last);
          }
        case QueryFails =>
        case Arrive(newMail, tagged) =>
          WithoutConcat(newMail, s.mail, s'.labelled);
          WithoutSame(s.mail, s.labelled, s'.labelled);
      }
    }
  }

  lemma {:induction false} LastStaysLast(mail: seq<Id>, labelled: set<Id>, hits: set<Id>, run: seq<Step>, last: Id)
    requires Distinct(mail) && Possible(Begin(mail, labelled), hits, run)
    requires EndsWith(Without(mail, labelled), last)
    ensures var s := After(Begin(mail, labelled), hits, run);
            last !in s.labelled ==> EndsWith(Without(s.mail, s.labelled), last)
    decreases |run|
  {
    hide Enabled, Next, Without, NoneSkipped;
    FilterMembers(mail, labelled);
    if run == [] {
    } else {
      var front := run[..|run| - 1];
      LastStaysLast(mail, labelled, hits, front, last);
      OriginalStays(mail, labelled, hits, front, last);
      StepKeepsLast(After(Begin(mail, labelled), hits, front), hits, run[|run| - 1], last);
    }
  }

  lemma OriginalStays(mail: seq<Id>, labelled: set<Id>, hits: set<Id>, run: seq<Step>, id: Id)
    requires Distinct(mail) && Possible(Begin(mail, labelled), hits, run) && id in Without(mail, labelled)
    ensures var s := After(Begin(mail, labelled), hits, run); id in s.mail && (id in s.labelled ==> id in s.read)
  {
    hide After, Possible, Without;
    NeverSkips(mail, labelled, hits, run);
    assert id in Original(mail, labelled);
  }

  lemma ReadGrows(s: Scan, hits: set<Id>, step: Step)
    ensures forall id :: id in s.read ==> id in Next(s, hits, step).read
  {
  }

  /** With at most one page left, a round reads everything that is left. */
  lemma LastPageReadsAll(s: Scan, original: set<Id>, hits: set<Id>, inserted: nat)
    requires NoneSkipped(s, original, hits) && Remaining(s) <= BATCH
    ensures forall id :: id in original ==> id in DoRound(s, hits, inserted).read
  {
    hide Without, Only;
    var u := Without(s.mail, s.labelled);
    var s' := DoRound(s, hits, inserted);
    FilterMembers(s.mail, s.labelled);
    forall id | id in original
      ensures id in s'.read
    {
      if id !in s.labelled {
        assert id in u;
        var i :| 0 <= i < |u| && u[i] == id;
        if i >= s.offset {
          assert PageOf(s) == u[s.offset..];
          assert PageOf(s)[i - s.offset] == id;
        }
      }
    }
  }

  /** The last mail is read only by a round with at most one page left. */
  lemma LastReadAtEnd(s: Scan, hits: set<Id>, inserted: nat, last: Id)
    requires Distinct(s.mail) && (last !in s.labelled ==> EndsWith(Without(s.mail, s.labelled), last))
    requires (last in s.labelled ==> last in s.read) && last !in s.read && last in DoRound(s, hits, inserted).read
    ensures Remaining(s) <= BATCH
  {
    hide Without, Only;
    var u, page := Without(s.mail, s.labelled), PageOf(s);
    WithoutDistinct(s.mail, s.labelled);
    assert last in page;
    var i :| 0 <= i < |page| && page[i] == last;
    assert u[s.offset + i] == last;
  }

  lemma {:induction false} LastReadAtLastPage(mail: seq<Id>, labelled: set<Id>, hits: set<Id>, run: seq<Step>, last: Id)
    requires Distinct(mail) && Possible(Begin(mail, labelled), hits, run)
    requires EndsWith(Without(mail, labelled), last)
    ensures last in After(Begin(mail, labelled), hits, run).read ==> HadLastPage(Begin(mail, labelled), hits, run)
    decreases |run|
  {
    hide Enabled, DoRound, Without, Remaining, NoneSkipped;
    if run == [] {
    } else {
      var front, step := run[..|run| - 1], run[|run| - 1];
      var s := After(Begin(mail, labelled), hits, front);
      LastReadAtLastPage(mail, labelled, hits, front, last);
      LastStaysLast(mail, labelled, hits, front, last);
      OriginalStays(mail, labelled, hits, front, last);
      MailStaysDistinct(mail, labelled, hits, front);
      if step.Round? && last !in s.read && last in Next(s, hits, step).read {
        LastReadAtEnd(s, hits, step.inserted, last);
      }
    }
  }

  lemma {:induction false} LastPageSuffices(mail: seq<Id>, labelled: set<Id>, hits: set<Id>, run: seq<Step>)
    requires Distinct(mail) && Possible(Begin(mail, labelled), hits, run)
    requires HadLastPage(Begin(mail, labelled), hits, run)
    ensures forall id :: id in Original(mail, labelled) ==> id in After(Begin(mail, labelled), hits, run).read
    decreases |run|
  {
    hide Enabled, DoRound, Without, Remaining, NoneSkipped, Original;
    var front, step := run[..|run| - 1], run[|run| - 1];
    var s := After(Begin(mail, labelled), hits, front);
    ReadGrows(s, hits, step);
    if HadLastPage(Begin(mail, labelled), hits, front) {
      LastPageSuffices(mail, labelled, hits, front);
    } else {
      NeverSkips(mail, labelled, hits, front);
      LastPageReadsAll(s, Original(mail, labelled), hits, step.inserted);
    }
  }

  /**
    At any moment of any run, ended or not, with any arrivals and failures: all original mail has
    been read exactly if there was none, or some round found at most one page of unlabelled mail
    at and behind its offset. A failed query before that loses mail, one after it does not.
   */
  lemma EverythingReadIff(mail: seq<Id>, labelled: set<Id>, hits: set<Id>, run: seq<Step>)
    requires Distinct(mail) && Possible(Begin(mail, labelled), hits, run)
    ensures (forall id :: id in Original(mail, labelled) ==> id in After(Begin(mail, labelled), hits, run).read)
            <==> Without(mail, labelled) == [] || HadLastPage(Begin(mail, labelled), hits, run)
  {
    hide After, Possible, HadLastPage, Without;
    var all := Without(mail, labelled);
    if HadLastPage(Begin(mail, labelled), hits, run) {
      LastPageSuffices(mail, labelled, hits, run);
    } else if all != [] {
      var last := all[|all| - 1];
      assert last in Original(mail, labelled);
      LastReadAtLastPage(mail, labelled, hits, run, last);
    }
  }

  // ---------- a scan that never ends ----------

  /** A mailbox with exactly one page of mail. */
  function OnePage(): seq<Id> {
    seq(BATCH, i => i)
  }

  function FailingRounds(n: nat): seq<Step> {
    if n == 0 then [] else FailingRounds(n - 1) + [Round(0)]
  }

  lemma OnePageRound(read: seq<Id>)
    ensures DoRound(Scan(OnePage(), {}, 0, read, false, false), ElementsOf(OnePage()), 0)
            == Scan(OnePage(), {}, 0, read + OnePage(), false, false)
    ensures |OnePage()| == BATCH
  {
    hide Only;
    var s := Scan(OnePage(), {}, 0, read, false, false);
    WithoutNothing(OnePage(), {});
    assert PageOf(s) == OnePage();
    WithoutAll(OnePage(), ElementsOf(OnePage()));
    assert s.labelled + ElementsOf(Take(MatchesOf(s, ElementsOf(OnePage())), 0)) == {};
  }

  /** If all of its mail matches and no insert goes through, the scan reads the page over and over. */
  lemma {:induction false} NeverEnds(n: nat)
    ensures var start := Begin(OnePage(), {});
            var hits := ElementsOf(OnePage());
            && Possible(start, hits, FailingRounds(n))
            && var s := After(start, hits, FailingRounds(n));
               s == Scan(OnePage(), {}, 0, s.read, false, false) && |s.read| == n * 50
  {
    hide DoRound, OnePage;
    if n == 0 {
    } else {
      NeverEnds(n - 1);
      var s := After(Begin(OnePage(), {}), ElementsOf(OnePage()), FailingRounds(n - 1));
      var run := FailingRounds(n);
      assert run[..|run| - 1] == FailingRounds(n - 1) && run[|run| - 1] == Round(0);
      OnePageRound(s.read);
    }
  }

  // ---------- a scan nothing interferes with ----------

  /** No mail arrives. */
  predicate Undisturbed(run: seq<Step>) {
    forall i :: 0 <= i < |run| ==> !run[i].Arrive?
  }

  /** Where an undisturbed scan is: it has read the first part of the unlabelled mail and labelled its matches. */
  ghost predicate InOrder(s: Scan, mail: seq<Id>, labelled: set<Id>, hits: set<Id>) {
    var all := Without(mail, labelled);
    && s.mail == mail && s.read <= all
    && s.labelled == labelled + ElementsOf(Only(s.read, hits))
    && (!s.finished ==> s.offset == |Without(s.read, hits)|)
    && (s.finished ==> s.read == all)
  }

  lemma RoundInOrder(s: Scan, mail: seq<Id>, labelled: set<Id>, hits: set<Id>, inserted: nat)
    requires Distinct(mail) && InOrder(s, mail, labelled, hits) && !s.finished
    requires inserted >= |MatchesOf(s, hits)|
    ensures InOrder(DoRound(s, hits, inserted), mail, labelled, hits)
  {
    hide Without, Only, Page;
    var all := Without(mail, labelled);
    var rest := all[|s.read|..];
    var page := PageOf(s);
    assert all == s.read + rest;
    WithoutDistinct(mail, labelled);
    UnlabelledNow(mail, labelled, s.read, rest, hits);
    PageIsNext(mail, s.labelled, Without(s.read, hits), rest);
    FilterMembers(page, hits);
    PageRead(s.read, page, hits, labelled);
    assert rest == page + rest[|page|..];
    assert s.read + page == all[..|s.read| + |page|];
    assert Take(MatchesOf(s, hits), inserted) == Only(page, hits);
    if page == [] {
      assert s.read == all;
    }
  }

  /**
    With all inserts going through and no mail arriving, the scan reads the initially unlabelled
    mail exactly once and in order, and labels exactly the matches of what it has read; once it has
    finished, that is everything. If a query fails, it has read everything exactly if nothing is
    left behind the offset.
   */
  lemma {:induction false} ReadsInOrder(mail: seq<Id>, labelled: set<Id>, hits: set<Id>, run: seq<Step>)
    requires Distinct(mail) && Possible(Begin(mail, labelled), hits, run)
    requires Undisturbed(run) && AllInserted(Begin(mail, labelled), hits, run)
    ensures var s := After(Begin(mail, labelled), hits, run);
            && InOrder(s, mail, labelled, hits)
            && (!s.finished ==> (s.read == Without(mail, labelled) <==> Remaining(s) == 0))
    decreases |run|
  {
    hide DoRound, MatchesOf, Without, Only, Remaining;
    if run == [] {
      assert InOrder(Begin(mail, labelled), mail, labelled, hits) by { BeginInOrder(mail, labelled, hits); }
    } else {
      var front, last := run[..|run| - 1], run[|run| - 1];
      assert !last.Arrive?;
      ReadsInOrder(mail, labelled, hits, front);
      var s := After(Begin(mail, labelled), hits, front);
      if last.Round? {
        RoundInOrder(s, mail, labelled, hits, last.inserted);
      }
    }
    var e := After(Begin(mail, labelled), hits, run);
    if !e.finished {
      UnreadRemains(e, mail, labelled, hits);
    }
  }

  lemma BeginInOrder(mail: seq<Id>, labelled: set<Id>, hits: set<Id>)
    ensures InOrder(Begin(mail, labelled), mail, labelled, hits)
  {
    NothingRead(labelled, hits);
  }

  lemma UnreadRemains(s: Scan, mail: seq<Id>, labelled: set<Id>, hits: set<Id>)
    requires Distinct(mail) && InOrder(s, mail, labelled, hits) && !s.finished
    ensures Remaining(s) == |Without(mail, labelled)| - |s.read|
    ensures s.read == Without(mail, labelled) <==> Remaining(s) == 0
  {
    hide Without, Only;
    var all := Without(mail, labelled);
    var rest := all[|s.read|..];
    assert all == s.read + rest;
    WithoutDistinct(mail, labelled);
    UnlabelledNow(mail, labelled, s.read, rest, hits);
  }
}
