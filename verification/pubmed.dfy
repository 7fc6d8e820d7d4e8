/** `PubMedProvider._parse_summaries` (medkit/providers/pubmed.py): the
    esummary payload, read in the order of the requested PubMed ids.

    Record construction is a validity check: pydantic refuses a
    `ResearchPaper` whose `title`, `journal` or `abstract` is not a
    string, and the parser then skips the entry.  The parser as written
    passes `abstract=None`, which the declared model refuses, so every
    entry is skipped; `fixed` selects the corrected model in which the
    abstract may be `None`.  Exceptions raised outside the `try`
    (`.get` on a non-object, iterating a non-list) propagate.
 */
module PubMed {
  import opened Wrappers
  import opened Text
  import opened Json
  import opened Models

  const UntitledTitle := "Untitled Publication"

  /** `s.split(" ")[0]`. */
  function FirstToken(s: string): (r: string)
    ensures |r| <= |s| && r == s[..|r|]
    ensures ' ' !in r
    ensures |r| < |s| ==> s[|r|] == ' '
  {
    if |s| == 0 || s[0] == ' ' then "" else [s[0]] + FirstToken(s[1..])
  }

  /** The year of a `pubdate`: the first space-separated token when it is
      all digits.  An empty or missing date gives no year; a truthy
      non-string has no `.split`. */
  function YearOf(pubdate: Json): (r: Result<Option<int>>)
    ensures !Truthy(pubdate) ==> r == Ok(None)
    ensures Truthy(pubdate) && !pubdate.JStr? ==> r == Err(AttributeError)
    ensures pubdate.JStr? && r.Ok? && r.value.Some? ==>
              IsDigitString(FirstToken(pubdate.s)) && r.value.value == ParseNat(FirstToken(pubdate.s))
    ensures pubdate.JStr? && IsDigitString(FirstToken(pubdate.s)) ==> r.Ok? && r.value.Some?
  {
    if !Truthy(pubdate) then Ok(None)
    else if !pubdate.JStr? then Err(AttributeError)
    else
      var token := FirstToken(pubdate.s);
      if IsDigitString(token) then Ok(Some(ParseNat(token))) else Ok(None)
  }

  /** A date that starts with a rendered year, alone or followed by a
      space and anything, gives that year back. */
  lemma YearRoundTrip(y: nat, rest: string)
    ensures YearOf(JStr(NatToString(y))) == Ok(Some(y))
    ensures YearOf(JStr(NatToString(y) + " " + rest)) == Ok(Some(y))
  {
    var d := NatToString(y);
    TokenOfPrefix(d, "");
    TokenOfPrefix(d, " " + rest);
    assert d + "" == d;
    assert d + (" " + rest) == d + " " + rest;
    ParseRendered(y);
  }

  lemma {:induction false} TokenOfPrefix(d: string, tail: string)
    requires ' ' !in d
    requires |tail| == 0 || tail[0] == ' '
    ensures FirstToken(d + tail) == d
  {
    if |d| > 0 {
      assert (d + tail)[1..] == d[1..] + tail;
      TokenOfPrefix(d[1..], tail);
    } else {
      assert d + tail == tail;
    }
  }

  /** "2023 May 1" was published in 2023. */
  lemma YearOfFullDate()
    ensures YearOf(JStr("2023 May 1")) == Ok(Some(2023))
  {
    assert NatToString(2023) == "2023" by {
      assert NatToString(2) == "2";
      assert NatToString(20) == "20";
      assert NatToString(202) == "202";
    }
    YearRoundTrip(2023, "May 1");
    assert "2023" + " " + "May 1" == "2023 May 1";
  }

  /** A date led by a space or by a word has no year. */
  lemma NoYearWithoutLeadingDigits(rest: string)
    ensures YearOf(JStr(" " + rest)) == Ok(None)
    ensures YearOf(JStr("May " + rest)) == Ok(None)
  {
    var s := "May " + rest;
    assert s[0] == 'M';
    assert FirstToken(s)[0] == 'M';
  }

  /** `[str(a.get("name")) for a in authors if a.get("name")]` over the
      elements of the authors list. */
  function AuthorNames(authors: seq<Json>): (r: Result<seq<string>>)
    ensures r.Ok? <==> forall k :: 0 <= k < |authors| ==> authors[k].JObj?
    ensures r.Err? ==> r.error == AttributeError
    ensures r.Ok? ==> |r.value| <= |authors| && forall k :: 0 <= k < |r.value| ==> r.value[k] != ""
  {
    if |authors| == 0 then Ok([])
    else
      var name :- Get(authors[0], "name", JNull);
      var rest :- AuthorNames(authors[1..]);
      assert Truthy(name) ==> PyStr(name) != "" by {
        if name.JNum? {
          assert name.n < 0 ==> IntToString(name.n)[0] == '-';
        }
      }
      Ok((if Truthy(name) then [PyStr(name)] else []) + rest)
  }

  /** Author objects with string names yield exactly their non-empty names,
      in the order given. */
  lemma {:induction false} AuthorNamesKeepNonEmpty(names: seq<string>)
    ensures AuthorNames(KeyedObjects("name", names)) == Ok(NonEmptyStrings(names))
  {
    if |names| > 0 {
      assert KeyedObjects("name", names)[1..] == KeyedObjects("name", names[1..]);
      AuthorNamesKeepNonEmpty(names[1..]);
      var m := map["name" := JStr(names[0])];
      assert Get(JObj(m), "name", JNull) == Ok(JStr(names[0]));
    }
  }

  /** `ResearchPaper(...)` construction: `None` when validation fails. */
  function MakePaper(pmid: string, title: Json, authors: seq<string>, journal: Json, year: Option<int>, fixed: bool)
    : (r: Option<ResearchPaper>)
    ensures r.Some? <==> fixed && title.JStr? && journal.JStr?
    ensures r.Some? ==> r.value == ResearchPaper(pmid, title.s, authors, journal.s, year, None)
  {
    // the abstract passed is always `None`
    if fixed && title.JStr? && journal.JStr? then Some(ResearchPaper(pmid, title.s, authors, journal.s, year, None))
    else None
  }

  /** One id's entry: `Ok(None)` when it is skipped. */
  function ParseEntry(pmid: string, entry: Json, fixed: bool): (r: Result<Option<ResearchPaper>>)
    ensures !Truthy(entry) ==> r == Ok(None)
    ensures entry.JObj? && "error" in entry.fields ==> r == Ok(None)
    ensures r.Ok? && r.value.Some? ==> fixed && entry.JObj? && "error" !in entry.fields && r.value.value.pmid == pmid
    // the title defaults when absent
    ensures r.Ok? && r.value.Some? && "title" !in entry.fields ==> r.value.value.title == UntitledTitle
    // a truthy non-object without "error" in it has no `.get`
    ensures Truthy(entry) && (entry.JArr? || entry.JStr?) && HasMember(entry, "error") == Ok(false) ==>
              r == Err(AttributeError)
  {
    if !Truthy(entry) then Ok(None)
    else
      var hasError :- HasMember(entry, "error");
      if hasError then Ok(None)
      else
        match entry
        case JObj(m) =>
          var title := Field(m, "title", JStr(UntitledTitle));
          var authorItems :- Records(Field(m, "authors", JArr([])));
          var authors :- AuthorNames(authorItems);
          var journal := Field(m, "fulljournalname", JNull);
          var year :- YearOf(Field(m, "pubdate", JStr("")));
          Ok(MakePaper(pmid, title, authors, journal, year, fixed))
        case _ => Err(AttributeError)
  }

  function PmidsOf(papers: seq<ResearchPaper>): (r: seq<string>)
    ensures |r| == |papers| && forall k :: 0 <= k < |papers| ==> r[k] == papers[k].pmid
  {
    if |papers| == 0 then [] else [papers[0].pmid] + PmidsOf(papers[1..])
  }

  /** `xs` is `ys` with some elements left out. */
  predicate SubsequenceOf(xs: seq<string>, ys: seq<string>)
    decreases |ys|
  {
    |xs| == 0 || (|ys| > 0 && ((xs[0] == ys[0] && SubsequenceOf(xs[1..], ys[1..])) || SubsequenceOf(xs, ys[1..])))
  }

  /** The entries for `pmids` in order. */
  function ParseEach(results: Json, pmids: seq<string>, fixed: bool): (r: Result<seq<ResearchPaper>>)
    ensures r.Ok? ==> |r.value| <= |pmids| && SubsequenceOf(PmidsOf(r.value), pmids)
    ensures !fixed && r.Ok? ==> r.value == []
    ensures |pmids| > 0 && !results.JObj? ==> r == Err(AttributeError)
    decreases |pmids|
  {
    if |pmids| == 0 then Ok([])
    else
      var entry :- Get(results, pmids[0], JObj(map[]));
      var paper :- ParseEntry(pmids[0], entry, fixed);
      var rest :- ParseEach(results, pmids[1..], fixed);
      match paper
      case Some(p) =>
        assert PmidsOf([p] + rest)[1..] == PmidsOf(rest);
        Ok([p] + rest)
      case None =>
        Ok(rest)
  }

  /** `_parse_summaries(data, pmids)`. */
  function ParseSummaries(data: Json, pmids: seq<string>, fixed: bool): (r: Result<seq<ResearchPaper>>)
    ensures !data.JObj? ==> r == Err(AttributeError)
    ensures r.Ok? ==> |r.value| <= |pmids| && SubsequenceOf(PmidsOf(r.value), pmids)
  {
    var results :- Get(data, "result", JObj(map[]));
    ParseEach(results, pmids, fixed)
  }

  /** The parser as written never returns a paper. */
  lemma AsWrittenFindsNothing(data: Json, pmids: seq<string>)
    ensures ParseSummaries(data, pmids, false).Ok? ==> ParseSummaries(data, pmids, false).value == []
  {
  }

  /** A well-formed entry is dropped by the parser as written and kept by
      the corrected one: the title defaults, the year is read from the
      date and the abstract is `None`. */
  lemma WellFormedEntry(pmid: string, m: map<string, Json>, journal: string, y: nat)
    requires "error" !in m && "title" !in m && "authors" !in m
    requires "fulljournalname" in m && m["fulljournalname"] == JStr(journal)
    requires "pubdate" in m && m["pubdate"] == JStr(NatToString(y))
    ensures ParseEntry(pmid, JObj(m), false) == Ok(None)
    ensures ParseEntry(pmid, JObj(m), true)
            == Ok(Some(ResearchPaper(pmid, UntitledTitle, [], journal, Some(y), None)))
  {
    YearRoundTrip(y, "");
  }

  /** A missing entry, or one that reports an error, is skipped without
      disturbing the others. */
  lemma MissingEntrySkipped(m: map<string, Json>, p: string, pmids: seq<string>, fixed: bool)
    requires p !in m || !Truthy(m[p]) || (m[p].JObj? && "error" in m[p].fields)
    ensures ParseEach(JObj(m), [p] + pmids, fixed) == ParseEach(JObj(m), pmids, fixed)
  {
    assert ([p] + pmids)[1..] == pmids;
  }
}
