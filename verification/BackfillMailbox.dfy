/**
  The scan as the program runs it, on one user's mailbox: each turn of the loop is a round of the
  reference, whatever the database does.
 */
module BackfillMailbox {
  import opened Text
  import opened BackfillScan
  import opened BackfillRounds

  /** What the database does in one turn of the loop. */
  datatype RoundFate = RoundFate(queryOk: bool, inserted: nat)

  function StepOf(fate: RoundFate): Step {
    if fate.queryOk then Round(fate.inserted) else QueryFails
  }

  /** Neither the query nor any insert of a page fails. */
  predicate Good(fate: RoundFate) {
    fate.queryOk && fate.inserted >= BATCH
  }

  /** The labels of one user's mail, and the mail in query order (newest first, no ties). */
  class Mailbox {
    const mail: seq<Id>
    var labelled: set<Id>

    constructor (mail: seq<Id>, labelled: set<Id>)
      ensures this.mail == mail && this.labelled == labelled
    {
      this.mail, this.labelled := mail, labelled;
    }

    /** A page of the mail without the label: consecutive rows of the ordered answer, none of them labelled. */
    method GetUnlabeled(limit: nat, offset: nat) returns (page: seq<Id>)
      ensures page == Page(mail, labelled, limit, offset)
      ensures forall id :: id in page ==> id in mail && id !in labelled
      ensures |page| <= limit
      ensures forall i :: 0 <= i < |page| ==>
                offset + i < |Without(mail, labelled)| && page[i] == Without(mail, labelled)[offset + i]
      ensures |page| < limit ==> offset + |page| >= |Without(mail, labelled)|
    {
      FilterMembers(mail, labelled);
      page := Page(mail, labelled, limit, offset);
    }

    /** One insert per mail until the database fails; a mail that has the label already is left alone. */
    method BatchAssign(ids: seq<Id>, inserted: nat)
      modifies this`labelled
      ensures labelled == old(labelled) + ElementsOf(Take(ids, inserted))
    {
      var i := 0;
      while i < |ids|
        invariant 0 <= i <= |ids| && i <= inserted
        invariant labelled == old(labelled) + ElementsOf(ids[..i])
      {
        if i == inserted {
          return;
        }
        assert ids[..i + 1] == ids[..i] + [ids[i]];
        labelled := labelled + {ids[i]};
        i := i + 1;
      }
      assert ids[..i] == ids;
    }

    /** Reads a page mail by mail and collects the identifiers that match. */
    method CollectMatches(keyword: string, corpus: Corpus, candidates: seq<Id>, ghost hits: set<Id>)
      returns (matchedIds: seq<Id>)
      requires forall id :: id in candidates ==> (id in hits <==> Matching(keyword, corpus, id))
      ensures matchedIds == Only(candidates, hits)
    {
      matchedIds := [];
      var i := 0;
      while i < |candidates|
        invariant 0 <= i <= |candidates|
        invariant matchedIds == Only(candidates[..i], hits)
      {
        hide KeywordMatches;
        assert candidates[..i + 1] == candidates[..i] + [candidates[i]];
        OnlySnoc(candidates[..i], candidates[i], hits);
        var file := corpus.files(candidates[i]);
        if file.Some? {
          var buffer := Take(file.value, MAX_SCAN_BYTES);
          var text := Take(corpus.extract(buffer), MAX_SCAN_BYTES);
          if KeywordMatches(keyword, text) {
            matchedIds := matchedIds + [candidates[i]];
          }
        }
        i := i + 1;
      }
      assert candidates[..i] == candidates;
    }

    /** The scan so far, as the reference has it. */
    ghost function Abs(offset: nat, read: seq<Id>, finished: bool, aborted: bool): Scan
      reads this
    {
      Scan(mail, labelled, offset, read, finished, aborted)
    }

    /**
      The scan, for as many turns as the database's behaviour is given: it does exactly the rounds of
      the reference, one per turn, and stops when a page is short or a query fails.
     */
    method ProcessJob(keyword: string, corpus: Corpus, fates: seq<RoundFate>)
      returns (ended: bool, ghost run: seq<Step>, ghost read: seq<Id>)
      requires Distinct(mail)
      modifies this
      ensures var start, hits := Begin(mail, old(labelled)), HitsOf(mail, keyword, corpus);
              && Possible(start, hits, run) && |run| <= |fates|
              && (forall i :: 0 <= i < |run| ==> run[i] == StepOf(fates[i]))
              && var s := After(start, hits, run);
                 && s.labelled == labelled && s.read == read
                 && (ended <==> s.finished || s.aborted)
                 && (!ended ==> |run| == |fates|)
    {
      hide Without, Only, HitsOf, Matching, Take;
      ghost var start, hits := Begin(mail, labelled), HitsOf(mail, keyword, corpus);
      var offset: nat, i := 0, 0;
      ended, run, read := false, [], [];
      ghost var finished, aborted := false, false;
      while i < |fates|
        invariant 0 <= i == |run| <= |fates| && !ended && !finished && !aborted
        invariant forall j :: 0 <= j < |run| ==> run[j] == StepOf(fates[j])
        invariant Possible(start, hits, run)
        invariant After(start, hits, run) == Abs(offset, read, false, false)
      {
        hide Possible, After, DoRound, PageOf, MatchesOf, Page;
        var fate := fates[i];
        ghost var before := Abs(offset, read, false, false);
        OneMoreStep(start, hits, run, StepOf(fate));
        run := run + [StepOf(fate)];
        i := i + 1;
        if !fate.queryOk {
          ended := true;
          break;
        }
        var candidates := GetUnlabeled(BATCH, offset);
        RoundParts(before, hits, fate.inserted);
        if candidates == [] {
          ended := true;
          break;
        }
        PageHits(mail, keyword, corpus, candidates);
        var matchedIds := CollectMatches(keyword, corpus, candidates, hits);
        if matchedIds != [] {
          BatchAssign(matchedIds, fate.inserted);
        } else {
          NoneTaken(labelled, fate.inserted);
        }
        read := read + candidates;
        if |candidates| < BATCH {
          ended := true;
          break;
        }
        offset := offset + (|candidates| - |matchedIds|);
      }
    }
  }

  lemma OneMoreStep(start: Scan, hits: set<Id>, run: seq<Step>, step: Step)
    requires Possible(start, hits, run) && Enabled(After(start, hits, run), step)
    ensures Possible(start, hits, run + [step])
    ensures After(start, hits, run + [step]) == Next(After(start, hits, run), hits, step)
  {
    hide Enabled, Next;
    assert (run + [step])[..|run|] == run;
  }

  /** A round, read off the page. */
  lemma RoundParts(s: Scan, hits: set<Id>, inserted: nat)
    ensures var page := Page(s.mail, s.labelled, BATCH, s.offset);
            var matched := Only(page, hits);
            && |page| <= BATCH && |Without(page, hits)| == |page| - |matched|
            && DoRound(s, hits, inserted) ==
               if page == [] then s.(finished := true)
               else
                 var s' := s.(labelled := s.labelled + ElementsOf(Take(matched, inserted)), read := s.read + page);
                 if |page| < BATCH then s'.(finished := true) else s'.(offset := s.offset + |Without(page, hits)|)
  {
    hide Without, Only;
    FilterMembers(Page(s.mail, s.labelled, BATCH, s.offset), hits);
  }

  lemma PageHits(mail: seq<Id>, keyword: string, corpus: Corpus, page: seq<Id>)
    requires forall id :: id in page ==> id in mail
    ensures forall id :: id in page ==> (id in HitsOf(mail, keyword, corpus) <==> Matching(keyword, corpus, id))
  {
    hide Matching;
  }

  lemma NoneTaken(labelled: set<Id>, inserted: nat)
    ensures labelled + ElementsOf(Take([], inserted)) == labelled
  {
  }

  // ---------- a database that works ----------

  lemma {:induction false} GoodRunInserts(start: Scan, hits: set<Id>, run: seq<Step>, fates: seq<RoundFate>)
    requires |run| <= |fates| && forall i :: 0 <= i < |run| ==> run[i] == StepOf(fates[i])
    requires forall i :: 0 <= i < |run| ==> Good(fates[i])
    ensures AllInserted(start, hits, run) && Undisturbed(run)
    decreases |run|
  {
    hide MatchesOf;
    if run == [] {
    } else {
      GoodRunInserts(start, hits, run[..|run| - 1], fates);
      assert Good(fates[|run| - 1]);
      MatchesFit(After(start, hits, run[..|run| - 1]), hits);
    }
  }

  lemma MatchesFit(s: Scan, hits: set<Id>)
    ensures |MatchesOf(s, hits)| <= |PageOf(s)| <= BATCH
  {
    FilterMembers(PageOf(s), hits);
  }

  /** A good round on a full page gets somewhere; any other one ends the scan. */
  lemma GoodRoundMoves(s: Scan, hits: set<Id>, inserted: nat)
    requires Distinct(s.mail) && Enabled(s, Round(inserted)) && inserted >= BATCH
    ensures Moves(s, hits, Round(inserted)) || DoRound(s, hits, inserted).finished
  {
    hide Without, Only;
    MatchesFit(s, hits);
    if |PageOf(s)| == BATCH {
      RoundProgress(s, hits, inserted);
      assert Take(MatchesOf(s, hits), inserted) == MatchesOf(s, hits);
    }
  }

  lemma {:induction false} GoodRunMoves(mail: seq<Id>, labelled: set<Id>, hits: set<Id>, run: seq<Step>,
                                        fates: seq<RoundFate>)
    requires Distinct(mail) && Possible(Begin(mail, labelled), hits, run)
    requires |run| <= |fates| && forall i :: 0 <= i < |run| ==> run[i] == StepOf(fates[i]) && Good(fates[i])
    requires !After(Begin(mail, labelled), hits, run).finished
    ensures MovingRounds(Begin(mail, labelled), hits, run) == |run| && Arrivals(run) == 0
    decreases |run|
  {
    hide Moves, DoRound, Enabled;
    if run == [] {
    } else {
      var front := run[..|run| - 1];
      var s := After(Begin(mail, labelled), hits, front);
      assert Good(fates[|run| - 1]);
      assert !s.finished by { StaysFinished(s, hits, run[|run| - 1]); }
      GoodRunMoves(mail, labelled, hits, front, fates);
      MailStaysDistinct(mail, labelled, hits, front);
      GoodRoundMoves(s, hits, run[|run| - 1].inserted);
    }
  }

  lemma StaysFinished(s: Scan, hits: set<Id>, step: Step)
    ensures s.finished ==> Next(s, hits, step).finished
  {
  }

  lemma LabelsSelected(mail: seq<Id>, labelled: set<Id>, keyword: string, corpus: Corpus)
    ensures forall id :: id in labelled + HitsOf(Without(mail, labelled), keyword, corpus)
                         <==> id in labelled || (id in mail && Selected(keyword, corpus, id))
  {
    hide Matching, Selected, Without;
    FilterMembers(mail, labelled);
    forall id: Id
      ensures Matching(keyword, corpus, id) <==> Selected(keyword, corpus, id)
    {
      MatchingIsSelected(keyword, corpus, id);
    }
  }

  /**
    With a database that works, the scan of a job reads every initially unlabelled mail exactly once
    and in order, labels exactly the matching ones, and ends within as many turns as there is such mail.
   */
  lemma GoodScanIsExact(mail: seq<Id>, labelled: set<Id>, keyword: string, corpus: Corpus, run: seq<Step>,
                        fates: seq<RoundFate>)
    requires Distinct(mail) && Possible(Begin(mail, labelled), HitsOf(mail, keyword, corpus), run)
    requires |run| <= |fates| && forall i :: 0 <= i < |run| ==> run[i] == StepOf(fates[i]) && Good(fates[i])
    ensures var s := After(Begin(mail, labelled), HitsOf(mail, keyword, corpus), run);
            && s.read <= Without(mail, labelled) && Distinct(s.read)
            && (s.finished ==>
                  && s.read == Without(mail, labelled)
                  && forall id :: id in s.labelled <==> id in labelled || (id in mail && Selected(keyword, corpus, id)))
            && (!s.finished ==> |run| <= |Without(mail, labelled)|)
  {
    hide HitsOf, Without, After, Possible, Only, MovingRounds, AllInserted, Undisturbed, Selected;
    var hits := HitsOf(mail, keyword, corpus);
    var s := After(Begin(mail, labelled), hits, run);
    GoodRunInserts(Begin(mail, labelled), hits, run, fates);
    ReadsInOrder(mail, labelled, hits, run);
    WithoutDistinct(mail, labelled);
    if s.finished {
      HitsAmongRead(mail, labelled, s.read, keyword, corpus);
      FilterMembers(mail, labelled);
      LabelsSelected(mail, labelled, keyword, corpus);
    } else {
      GoodRunMoves(mail, labelled, hits, run, fates);
      MovingRoundsBounded(mail, labelled, hits, run);
    }
  }
}
