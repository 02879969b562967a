/**
  The backfill scan: paging with LIMIT and OFFSET through the unlabelled mail of a user, newest
  first, while the scan itself labels rows and so shrinks what it pages through.
 */
module BackfillScan {
  import opened Text

  type Id = int

  const BATCH: nat := 50

  // ---------- which mail matches ----------

  /** A single rule: the trimmed keyword occurs in the text, in any letter case; an empty keyword never matches. */
  predicate KeywordMatches(keyword: string, text: string) {
    var trimmed := Trim(keyword);
    trimmed != "" && Contains(Lower(text), Lower(trimmed))
  }

  /** No more than this much of a file, and of the text extracted from it, is looked at. */
  const MAX_SCAN_BYTES: nat := 64 * 1024

  /** The stored files that can be read, and the searchable text of a message. */
  datatype Corpus = Corpus(files: Id -> Option<string>, extract: string -> string)

  /** A stored mail matches if its file can be read and the beginning of its searchable text matches. */
  predicate Matching(keyword: string, corpus: Corpus, id: Id) {
    corpus.files(id).Some? &&
    KeywordMatches(keyword, Take(corpus.extract(Take(corpus.files(id).value, MAX_SCAN_BYTES)), MAX_SCAN_BYTES))
  }

  /** A word stands in a text at a position, in any letter case. */
  predicate StandsAt(text: string, word: string, i: nat) {
    i + |word| <= |text| && forall k :: 0 <= k < |word| ==> LowerChar(text[i + k]) == LowerChar(word[k])
  }

  lemma OccursInAnyCase(text: string, word: string, i: nat)
    ensures OccursAt(Lower(text), Lower(word), i) <==> StandsAt(text, word, i)
  {
    if i + |word| <= |text| {
      var part := Lower(text)[i..i + |word|];
      assert forall k :: 0 <= k < |word| ==> part[k] == LowerChar(text[i + k]) && Lower(word)[k] == LowerChar(word[k]);
      if part == Lower(word) {
        assert forall k :: 0 <= k < |word| ==> part[k] == Lower(word)[k];
      }
    }
  }

  /** What the filter decides: the trimmed keyword is not empty and stands somewhere in the text. */
  lemma KeywordMatchesMeaning(keyword: string, text: string)
    ensures KeywordMatches(keyword, text) <==> Trim(keyword) != "" && exists i: nat :: StandsAt(text, Trim(keyword), i)
  {
    hide Lower, StandsAt, Contains, OccursAt;
    var word := Trim(keyword);
    if Contains(Lower(text), Lower(word)) {
      var i := FoundAt(Lower(text), Lower(word));
      OccursInAnyCase(text, word, i);
    }
    if i: nat :| StandsAt(text, word, i) {
      OccursInAnyCase(text, word, i);
      ContainedAt(Lower(text), Lower(word), i);
    }
  }

  /** The keyword stands in the first 65,536 bytes of the text of the file's first 65,536 bytes. */
  ghost predicate Selected(keyword: string, corpus: Corpus, id: Id) {
    corpus.files(id).Some? && Trim(keyword) != "" &&
    exists i: nat ::
      StandsAt(Take(corpus.extract(Take(corpus.files(id).value, 65_536)), 65_536), Trim(keyword), i)
  }

  lemma MatchingIsSelected(keyword: string, corpus: Corpus, id: Id)
    ensures Matching(keyword, corpus, id) <==> Selected(keyword, corpus, id)
  {
    hide KeywordMatches, StandsAt, Trim, Take;
    if corpus.files(id).Some? {
      KeywordMatchesMeaning(keyword, Take(corpus.extract(Take(corpus.files(id).value, 65_536)), 65_536));
    }
  }

  /** The matching mail of a list. */
  function HitsOf(ids: seq<Id>, keyword: string, corpus: Corpus): set<Id> {
    set id | id in ids && Matching(keyword, corpus, id)
  }

  // ---------- the query ----------

  /** The mail outside a set, in order. */
  function Without(ids: seq<Id>, out: set<Id>): seq<Id> {
    if ids == [] then []
    else if ids[0] in out then Without(ids[1..], out)
    else [ids[0]] + Without(ids[1..], out)
  }

  /** The mail inside a set, in order. */
  function Only(ids: seq<Id>, wanted: set<Id>): seq<Id> {
    if ids == [] then []
    else if ids[0] in wanted then [ids[0]] + Only(ids[1..], wanted)
    else Only(ids[1..], wanted)
  }

  lemma {:induction false} FilterMembers(ids: seq<Id>, s: set<Id>)
    ensures forall id :: id in Without(ids, s) <==> id in ids && id !in s
    ensures forall id :: id in Only(ids, s) <==> id in ids && id in s
    ensures |Only(ids, s)| + |Without(ids, s)| == |ids|
  {
    if ids == [] {
    } else {
      FilterMembers(ids[1..], s);
      assert ids == [ids[0]] + ids[1..];
    }
  }

  function ElementsOf(ids: seq<Id>): set<Id> {
    set id | id in ids
  }

  /** The page a query with LIMIT and OFFSET returns from the unlabelled mail. */
  function Page(mail: seq<Id>, labelled: set<Id>, limit: nat, offset: nat): (page: seq<Id>)
    ensures |page| <= limit
  {
    var u := Without(mail, labelled);
    if offset >= |u| then []
    else if offset + limit <= |u| then u[offset..offset + limit]
    else u[offset..]
  }

  lemma {:induction false} WithoutConcat(a: seq<Id>, b: seq<Id>, out: set<Id>)
    ensures Without(a + b, out) == Without(a, out) + Without(b, out)
  {
    if a == [] {
      assert a + b == b;
    } else {
      assert (a + b)[1..] == a[1..] + b;
      WithoutConcat(a[1..], b, out);
    }
  }

  lemma {:induction false} OnlySnoc(ids: seq<Id>, id: Id, wanted: set<Id>)
    ensures Only(ids + [id], wanted) == Only(ids, wanted) + (if id in wanted then [id] else [])
  {
    if ids == [] {
      assert [id][1..] == [] && ids + [id] == [id];
    } else {
      assert (ids + [id])[0] == ids[0] && (ids + [id])[1..] == ids[1..] + [id];
      OnlySnoc(ids[1..], id, wanted);
    }
  }

  /** Only membership in the list matters. */
  lemma {:induction false} WithoutSame(ids: seq<Id>, a: set<Id>, b: set<Id>)
    requires forall id :: id in ids ==> (id in a <==> id in b)
    ensures Without(ids, a) == Without(ids, b)
  {
    if ids == [] {
    } else {
      var head := ids[0];
      assert head in ids;
      WithoutSame(ids[1..], a, b);
    }
  }

  lemma {:induction false} WithoutNothing(ids: seq<Id>, out: set<Id>)
    requires forall id :: id in ids ==> id !in out
    ensures Without(ids, out) == ids
  {
    if ids == [] {
    } else {
      var head := ids[0];
      assert head in ids;
      WithoutNothing(ids[1..], out);
    }
  }

  lemma {:induction false} WithoutTwice(ids: seq<Id>, a: set<Id>, b: set<Id>)
    ensures Without(ids, a + b) == Without(Without(ids, a), b)
  {
    if ids == [] {
    } else {
      WithoutTwice(ids[1..], a, b);
      assert ids[0] !in a ==> Without(ids, a)[1..] == Without(ids[1..], a);
    }
  }

  lemma {:induction false} WithoutDistinct(ids: seq<Id>, out: set<Id>)
    requires Distinct(ids)
    ensures Distinct(Without(ids, out))
  {
    if ids == [] {
    } else {
      WithoutDistinct(ids[1..], out);
      FilterMembers(ids[1..], out);
      assert forall i :: 0 <= i < |ids[1..]| ==> ids[1..][i] == ids[i + 1];
    }
  }

  lemma {:induction false} OnlyDistinct(ids: seq<Id>, wanted: set<Id>)
    requires Distinct(ids)
    ensures Distinct(Only(ids, wanted))
  {
    if ids == [] {
    } else {
      OnlyDistinct(ids[1..], wanted);
      FilterMembers(ids[1..], wanted);
      assert forall i :: 0 <= i < |ids[1..]| ==> ids[1..][i] == ids[i + 1];
    }
  }

  lemma {:induction false} DistinctSize(ids: seq<Id>)
    requires Distinct(ids)
    ensures |ElementsOf(ids)| == |ids|
  {
    if ids == [] {
      assert ElementsOf(ids) == {};
    } else {
      var rest := ids[1..];
      DistinctSize(rest);
      assert forall i :: 0 <= i < |rest| ==> rest[i] == ids[i + 1];
      assert ElementsOf(ids) == {ids[0]} + ElementsOf(rest);
    }
  }

  /** Taking some elements out of a list without repetitions shortens it by their number. */
  lemma DropSome(ids: seq<Id>, some: seq<Id>)
    requires Distinct(ids) && Distinct(some) && forall id :: id in some ==> id in ids
    ensures |Without(ids, ElementsOf(some))| == |ids| - |some|
  {
    var out := ElementsOf(some);
    FilterMembers(ids, out);
    OnlyDistinct(ids, out);
    DistinctSize(Only(ids, out));
    DistinctSize(some);
    assert ElementsOf(Only(ids, out)) == out;
  }

  lemma DistinctParts(a: seq<Id>, b: seq<Id>)
    requires Distinct(a + b)
    ensures Distinct(a) && Distinct(b) && forall id :: id in a ==> id !in b
  {
    var ab := a + b;
    assert forall i :: 0 <= i < |a| ==> ab[i] == a[i];
    assert forall j :: 0 <= j < |b| ==> ab[|a| + j] == b[j];
  }

  // ---------- the scan on a fixed mailbox ----------

  /** Once the matching mail among the first part of the list is labelled, the rest has moved up by that much. */
  lemma UnlabelledNow(mail: seq<Id>, start: set<Id>, read: seq<Id>, rest: seq<Id>, hits: set<Id>)
    requires Without(mail, start) == read + rest && Distinct(read + rest)
    ensures Without(mail, start + ElementsOf(Only(read, hits))) == Without(read, hits) + rest
  {
    var done := ElementsOf(Only(read, hits));
    WithoutTwice(mail, start, done);
    WithoutConcat(read, rest, done);
    FilterMembers(read, hits);
    WithoutSame(read, done, hits);
    DistinctParts(read, rest);
    WithoutNothing(rest, done);
  }

  /** One page further: what is read and labelled grows by the page and its matches. */
  lemma PageRead(read: seq<Id>, page: seq<Id>, hits: set<Id>, start: set<Id>)
    ensures start + ElementsOf(Only(read, hits)) + ElementsOf(Only(page, hits))
            == start + ElementsOf(Only(read + page, hits))
    ensures |Without(read + page, hits)| == |Without(read, hits)| + |page| - |Only(page, hits)|
  {
    WithoutConcat(read, page, hits);
    FilterMembers(read, hits);
    FilterMembers(page, hits);
    var grown := read + page;
    FilterMembers(grown, hits);
    forall id: Id
      ensures id in ElementsOf(Only(grown, hits)) <==> id in ElementsOf(Only(read, hits)) + ElementsOf(Only(page, hits))
    {
      assert id in grown <==> id in read || id in page;
    }
  }

  /** The page at the offset of a front part is the beginning of the rest. */
  lemma PageIsNext(mail: seq<Id>, labelled: set<Id>, front: seq<Id>, rest: seq<Id>)
    requires Without(mail, labelled) == front + rest
    ensures |Page(mail, labelled, BATCH, |front|)| <= |rest|
    ensures Page(mail, labelled, BATCH, |front|) == rest[..|Page(mail, labelled, BATCH, |front|)|]
    ensures Page(mail, labelled, BATCH, |front|) == [] <==> rest == []
    ensures |Page(mail, labelled, BATCH, |front|)| < BATCH ==> Page(mail, labelled, BATCH, |front|) == rest
  {
  }

  lemma HitsAmongRead(mail: seq<Id>, start: set<Id>, read: seq<Id>, keyword: string, corpus: Corpus)
    requires read == Without(mail, start)
    ensures ElementsOf(Only(read, HitsOf(mail, keyword, corpus))) == HitsOf(read, keyword, corpus)
  {
    hide Matching, Only, Without;
    var hits := HitsOf(mail, keyword, corpus);
    FilterMembers(mail, start);
    FilterMembers(read, hits);
    var a, b := ElementsOf(Only(read, hits)), HitsOf(read, keyword, corpus);
    forall id: Id
      ensures id in a <==> id in b
    {
      assert id in Only(read, hits) <==> id in read && id in hits;
      assert id in read <==> id in Without(mail, start);
    }
  }

  lemma NothingRead(start: set<Id>, hits: set<Id>)
    ensures start + ElementsOf(Only([], hits)) == start && Without([], hits) == []
  {
  }
}
