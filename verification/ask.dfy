/** `AskEngine` (medkit/ask_engine.py): keyword routing of a question,
    cleaning of the question into search terms, and the choice of answer
    once the search results are in.
 */
module Ask {
  import opened Wrappers
  import opened Text
  import opened Models
  import Synthesis

  datatype Intent = ExplainDrug | SummarizeCondition | Synthesize

  const DrugKeywords: seq<string> := ["what is", "mechanism", "dose", "dosage", "side effect", "rx"]
  const ConditionKeywords: seq<string> := ["summary", "overview", "treatments for", "status of"]

  // ---------------------------------------------------------------------
  // Routing

  /** `_determine_intent`: plain substring tests on the lower-cased query,
      drug keywords first. */
  function DetermineIntent(query: string): (r: Intent)
    ensures r == ExplainDrug <==> ContainsAny(LowerStr(query), DrugKeywords)
    ensures r == SummarizeCondition <==>
              !ContainsAny(LowerStr(query), DrugKeywords) && ContainsAny(LowerStr(query), ConditionKeywords)
    ensures r == Synthesize <==>
              !ContainsAny(LowerStr(query), DrugKeywords) && !ContainsAny(LowerStr(query), ConditionKeywords)
  {
    var q := LowerStr(query);
    if ContainsAny(q, DrugKeywords) then ExplainDrug
    else if ContainsAny(q, ConditionKeywords) then SummarizeCondition
    else Synthesize
  }

  /** Routing ignores case. */
  lemma IntentIgnoresCase(query: string)
    ensures DetermineIntent(UpperStr(query)) == DetermineIntent(query)
    ensures DetermineIntent(LowerStr(query)) == DetermineIntent(query)
  {
    LowerOfUpper(query);
    LowerIdempotent(query);
  }

  /** Keywords are matched anywhere, not as words: the "rx" inside
      "herxheimer" routes to a drug explanation. */
  lemma EmbeddedRxExplainsDrug()
    ensures DetermineIntent("herxheimer") == ExplainDrug
  {
    var q := "herxheimer";
    HerxheimerIsLower();
    RxInHerxheimer();
    ContainsWitness(q, DrugKeywords[5], 2);
    assert ContainsAny(LowerStr(q), DrugKeywords);
  }

  lemma RxInHerxheimer()
    ensures OccursAt("herxheimer", DrugKeywords[5], 2)
  {
    assert "herxheimer"[2..4] == "rx";
  }

  lemma HerxheimerIsLower()
    ensures LowerStr("herxheimer") == "herxheimer"
  {
    var q := "herxheimer";
    assert forall i :: 0 <= i < |q| ==> 'a' <= q[i] <= 'z';
    LowerOfNoUpper(q);
  }

  /** A condition keyword routes to a summary when no drug keyword occurs. */
  lemma OverviewSummarizes()
    ensures DetermineIntent("overview") == SummarizeCondition
  {
    var q := "overview";
    OverviewIsLower();
    OverviewLacksDrugKeywords();
    assert q[0..8] == ConditionKeywords[1];
    ContainsWitness(q, ConditionKeywords[1], 0);
  }

  lemma OverviewIsLower()
    ensures LowerStr("overview") == "overview"
  {
    var q := "overview";
    assert forall i :: 0 <= i < |q| ==> 'a' <= q[i] <= 'z';
    LowerOfNoUpper(q);
  }

  lemma OverviewLacksDrugKeywords()
    ensures forall k :: 0 <= k < |DrugKeywords| ==> !Contains("overview", DrugKeywords[k])
  {
    var q := "overview";
    forall k | 0 <= k < |DrugKeywords| ensures !Contains(q, DrugKeywords[k]) {
      NotContainsByEnds(q, DrugKeywords[k]);
    }
  }

  // ---------------------------------------------------------------------
  // Cleaning the query into search terms

  /** The stop patterns in order, each as its literal alternatives in
      the order the regular expression tries them. */
  const StopPatterns: seq<seq<string>> := [
    ["what is the clinical status of", "what are the clinical status of"],
    ["what is the status of", "what are the status of"],
    ["what is clinical trials for", "what are clinical trials for"],
    ["what is", "what are", "what is are"],
    ["clinical status of"],
    ["clinical trials for"],
    ["overview of"],
    ["summary of"],
    ["information on"],
    ["tell me about"],
    ["research for"],
    ["papers on"],
    ["trials for"]
  ]

  const Separators: seq<string> := [" for ", " in ", " with ", " as "]
  /** A first part containing one of these is dropped. */
  const StatusWords: seq<string> := ["status", "overview", "summary"]
  /** A first part shorter than this, once stripped, is dropped. */
  const MinFirstPart: nat := 3
  const Articles: seq<string> := ["the", "of", "a", "an"]
  const TrailingMarks: set<char> := {'?', ' '}

  predicate AllPatternsNonEmpty(pats: seq<seq<string>>) {
    forall k :: 0 <= k < |pats| ==> AllNonEmpty(pats[k])
  }

  /** No alternative of any pattern occurs in `s`. */
  predicate NoStopPhrase(s: string, pats: seq<seq<string>>) {
    forall k, m :: 0 <= k < |pats| && 0 <= m < |pats[k]| ==> !Contains(s, pats[k][m])
  }

  /** Each pattern removed in turn, stripping after each. */
  function RemoveStopPatterns(q: string, pats: seq<seq<string>>): (r: string)
    requires AllPatternsNonEmpty(pats)
    ensures NoUpper(q) ==> NoUpper(r)
    ensures |pats| > 0 && |r| > 0 ==> !IsSpace(r[0]) && !IsSpace(r[|r| - 1])
    decreases |pats|
  {
    if |pats| == 0 then q
    else
      var next := Strip(RemoveAlternatives(q, pats[0]));
      StopPatternStep(q, pats);
      if |pats| == 1 then next else RemoveStopPatterns(next, pats[1..])
  }

  lemma StopPatternStep(q: string, pats: seq<seq<string>>)
    requires AllPatternsNonEmpty(pats) && |pats| > 0
    ensures AllPatternsNonEmpty(pats[1..])
    ensures NoUpper(q) ==> NoUpper(Strip(RemoveAlternatives(q, pats[0])))
  {
    if NoUpper(q) {
      StripKeepsNoUpper(RemoveAlternatives(q, pats[0]));
    }
    forall k | 0 <= k < |pats| - 1 ensures AllNonEmpty(pats[1..][k]) {
      assert pats[1..][k] == pats[k + 1];
    }
  }

  /** With no stop phrase present, removing them only strips. */
  lemma {:induction false} RemoveStopPatternsAbsent(q: string, pats: seq<seq<string>>)
    requires AllPatternsNonEmpty(pats) && NoStopPhrase(q, pats) && |pats| > 0
    ensures RemoveStopPatterns(q, pats) == Strip(q)
    decreases |pats|
  {
    assert forall m :: 0 <= m < |pats[0]| ==> !Contains(q, pats[0][m]);
    var next := Strip(q);
    if |pats| > 1 {
      forall k, m | 0 <= k < |pats[1..]| && 0 <= m < |pats[1..][k]| ensures !Contains(next, pats[1..][k][m]) {
        assert pats[1..][k] == pats[k + 1];
        NotContainedAfterStrip(q, Whitespace, pats[k + 1][m]);
      }
      RemoveStopPatternsAbsent(next, pats[1..]);
      StripIdempotent(q);
    }
  }

  /** One preposition of the heuristic split: when `sep` occurs, the text
      before its first occurrence (`head`) and the text up to its second
      occurrence (`tail`) remain, joined by a space, except that `head`
      is dropped when it mentions a status word or is shorter than three
      non-blank characters. */
  function SplitOnSeparator(q: string, sep: string): (r: string)
    requires |sep| > 0
    ensures !Contains(q, sep) ==> r == q
    ensures Contains(q, sep) ==> SplitBy(q, sep, r)
    ensures NoUpper(q) ==> NoUpper(r)
  {
    if Contains(q, sep) then
      var i := Find(q, sep).value;
      var e := SecondOccurrence(q, sep, i);
      var r := JoinFields(q[..i], q[i + |sep|..e]);
      assert NoUpper(q) ==> NoUpper(r) by {
        if NoUpper(q) {
          JoinKeepsNoUpper(q, i, i + |sep|, e);
        }
      }
      SplitByWitness(q, sep, i, e);
      r
    else
      q
  }

  /** `r` is the fields of `q` around the first and second occurrences
      of `sep`, joined. */
  ghost predicate SplitBy(q: string, sep: string, r: string) {
    exists i, e :: SeparatorFields(q, sep, i, e) && r == JoinFields(q[..i], q[i + |sep|..e])
  }

  lemma SplitByWitness(q: string, sep: string, i: int, e: int)
    requires SeparatorFields(q, sep, i, e)
    ensures SplitBy(q, sep, JoinFields(q[..i], q[i + |sep|..e]))
  {
  }

  lemma JoinKeepsNoUpper(q: string, a: int, b: int, c: int)
    requires NoUpper(q) && 0 <= a <= b <= c <= |q|
    ensures NoUpper(JoinFields(q[..a], q[b..c]))
  {
    NoUpperSlice(q, 0, a);
    NoUpperSlice(q, b, c);
    NoUpperConcat(q[..a], " ");
    NoUpperConcat(q[..a] + " ", q[b..c]);
  }

  /** `sep` first occurs at `i`, and `e` is where it next occurs after
      that, or the end of `q`. */
  predicate SeparatorFields(q: string, sep: string, i: int, e: int) {
    OccursAt(q, sep, i) && (forall k :: 0 <= k < i ==> !OccursAt(q, sep, k))
    && i + |sep| <= e <= |q| && !Contains(q[i + |sep|..e], sep)
    && (e < |q| ==> OccursAt(q, sep, e))
  }

  /** The two kept fields, the first dropped when it mentions a status
      word or has fewer than three non-blank characters. */
  function JoinFields(head: string, tail: string): string {
    if ContainsAny(head, StatusWords) || |Strip(head)| < MinFirstPart then tail else head + " " + tail
  }

  /** The end of the second field after the first occurrence at `i`. */
  function SecondOccurrence(q: string, sep: string, i: nat): (e: nat)
    requires |sep| > 0 && OccursAt(q, sep, i) && forall k :: 0 <= k < i ==> !OccursAt(q, sep, k)
    ensures SeparatorFields(q, sep, i, e)
  {
    var rest := q[i + |sep|..];
    match Find(rest, sep)
    case Some(j) =>
      NextOccurrence(q, sep, i + |sep|, j);
      i + |sep| + j
    case None =>
      NoLaterOccurrence(q, sep, i + |sep|);
      |q|
  }

  /** The first occurrence in the text from `from` on, seen in the whole
      text. */
  lemma NextOccurrence(q: string, sep: string, from: nat, j: nat)
    requires |sep| > 0 && from <= |q|
    requires Find(q[from..], sep) == Some(j)
    ensures OccursAt(q, sep, from + j) && !Contains(q[from..from + j], sep)
  {
    var rest := q[from..];
    FirstOccurrencePrefix(rest, sep, j);
    assert rest[..j] == q[from..from + j];
    assert rest[j..j + |sep|] == q[from + j..from + j + |sep|];
  }

  lemma NoLaterOccurrence(q: string, sep: string, from: nat)
    requires |sep| > 0 && from <= |q|
    requires Find(q[from..], sep).None?
    ensures !Contains(q[from..|q|], sep)
  {
    var rest := q[from..];
    FirstOccurrencePrefix(rest, sep, |rest|);
    assert rest[..|rest|] == q[from..|q|];
  }

  /** The separators applied in turn. */
  function SplitOnSeparators(q: string, seps: seq<string>): (r: string)
    requires AllNonEmpty(seps)
    ensures NoUpper(q) ==> NoUpper(r)
    ensures (forall k :: 0 <= k < |seps| ==> !Contains(q, seps[k])) ==> r == q
    decreases |seps|
  {
    if |seps| == 0 then q
    else SplitOnSeparators(SplitOnSeparator(q, seps[0]), seps[1..])
  }

  /** `q` starts with the article `w` followed by whitespace. */
  predicate ArticleAt(q: string, w: string) {
    |w| < |q| && StartsWith(q, w) && IsSpace(q[|w|])
  }

  /** `articles[k]` is the first of `articles` that starts `q` followed
      by whitespace. */
  predicate FirstArticle(q: string, articles: seq<string>, k: int) {
    0 <= k < |articles| && ArticleAt(q, articles[k])
    && forall m :: 0 <= m < k ==> !ArticleAt(q, articles[m])
  }

  /** `q[from..j]` is a maximal non-empty run of whitespace. */
  predicate BlankRun(q: string, from: int, j: int) {
    0 <= from < j <= |q| && (forall x :: from <= x < j ==> IsSpace(q[x])) && (j < |q| ==> !IsSpace(q[j]))
  }

  /** `re.sub(r"^(?:the|of|a|an)\s+", "", q)`: the first article that
      starts `q` and is followed by whitespace goes, with all the
      whitespace after it; the alternatives are tried in order, so "an"
      is still found after "a" fails for want of a following blank. */
  function StripLeadingArticle(q: string, articles: seq<string>): (r: string)
    ensures (forall k :: 0 <= k < |articles| ==> !ArticleAt(q, articles[k])) ==> r == q
    ensures (exists k :: 0 <= k < |articles| && ArticleAt(q, articles[k])) ==>
              exists k, j :: FirstArticle(q, articles, k) && BlankRun(q, |articles[k]|, j) && r == q[j..]
    ensures NoUpper(q) ==> NoUpper(r)
  {
    if |articles| == 0 then q
    else if ArticleAt(q, articles[0]) then
      WhitespaceIsSpaceAll();
      var j := StripLeftIndex(q, Whitespace, |articles[0]|);
      assert FirstArticle(q, articles, 0) && BlankRun(q, |articles[0]|, j);
      q[j..]
    else
      var r := StripLeadingArticle(q, articles[1..]);
      LaterArticle(q, articles, r);
      r
  }

  /** When the first article does not start `q`, what the others strip is
      what all of them strip. */
  lemma LaterArticle(q: string, articles: seq<string>, r: string)
    requires |articles| > 0 && !ArticleAt(q, articles[0])
    requires (forall k :: 0 <= k < |articles[1..]| ==> !ArticleAt(q, articles[1..][k])) ==> r == q
    requires (exists k :: 0 <= k < |articles[1..]| && ArticleAt(q, articles[1..][k])) ==>
               exists k, j :: FirstArticle(q, articles[1..], k) && BlankRun(q, |articles[1..][k]|, j) && r == q[j..]
    ensures (forall k :: 0 <= k < |articles| ==> !ArticleAt(q, articles[k])) ==> r == q
    ensures (exists k :: 0 <= k < |articles| && ArticleAt(q, articles[k])) ==>
              exists k, j :: FirstArticle(q, articles, k) && BlankRun(q, |articles[k]|, j) && r == q[j..]
  {
    assert forall k :: 1 <= k < |articles| ==> articles[k] == articles[1..][k - 1];
    if exists k :: 0 <= k < |articles| && ArticleAt(q, articles[k]) {
      var k0 :| 0 <= k0 < |articles| && ArticleAt(q, articles[k0]);
      assert ArticleAt(q, articles[1..][k0 - 1]);
      var k, j :| FirstArticle(q, articles[1..], k) && BlankRun(q, |articles[1..][k]|, j) && r == q[j..];
      assert FirstArticle(q, articles, k + 1);
    }
  }

  predicate StopPatternsWellFormed() { AllPatternsNonEmpty(StopPatterns) && AllNonEmpty(Separators) }

  lemma StopPatternsAreWellFormed()
    ensures StopPatternsWellFormed()
  {
  }

  /** The final clean-up: question marks and blanks, then whitespace,
      trimmed from both ends. */
  function TrimEnds(q: string): (r: string)
    ensures NoUpper(q) ==> NoUpper(r)
    ensures |r| > 0 ==> !IsSpace(r[0]) && !IsSpace(r[|r| - 1])
  {
    TrimKeepsNoUpper(q);
    Strip(StripSet(q, TrailingMarks))
  }

  lemma TrimKeepsNoUpper(q: string)
    ensures NoUpper(q) ==> NoUpper(Strip(StripSet(q, TrailingMarks)))
  {
    if NoUpper(q) {
      StripSetKeepsNoUpper(q, TrailingMarks);
      StripKeepsNoUpper(StripSet(q, TrailingMarks));
    }
  }

  /** The typo fix. */
  function FixTypo(lower: string): (r: string)
    ensures NoUpper(lower) ==> NoUpper(r)
    ensures !Contains(lower, "clinial") ==> r == lower
  {
    assert NoUpper("clinical");
    Replace(lower, "clinial", "clinical")
  }

  /** The cleaning pipeline over given stop patterns, separators and
      articles. */
  function Clean(query: string, pats: seq<seq<string>>, seps: seq<string>, articles: seq<string>): (r: string)
    requires AllPatternsNonEmpty(pats) && AllNonEmpty(seps)
    ensures NoUpper(r)
    ensures |r| > 0 ==> !IsSpace(r[0]) && !IsSpace(r[|r| - 1])
  {
    var q := FixTypo(LowerStr(query));
    var q1 := RemoveStopPatterns(q, pats);
    var q2 := SplitOnSeparators(q1, seps);
    var q3 := StripLeadingArticle(q2, articles);
    TrimEnds(q3)
  }

  /** `_extract_search_terms`: the result is lower-case and has no
      surrounding whitespace. */
  function ExtractSearchTerms(query: string): (r: string)
    ensures NoUpper(r)
    ensures |r| > 0 ==> !IsSpace(r[0]) && !IsSpace(r[|r| - 1])
  {
    StopPatternsAreWellFormed();
    Clean(query, StopPatterns, Separators, Articles)
  }

  /** A query with no typo, no stop phrase, no preposition and no leading
      article comes back lower-cased and trimmed of blanks and question
      marks. */
  lemma PlainQueryIsTrimmed(query: string)
    requires !Contains(LowerStr(query), "clinial")
    requires NoStopPhrase(LowerStr(query), StopPatterns)
    requires forall k :: 0 <= k < |Separators| ==> !Contains(LowerStr(query), Separators[k])
    requires forall k :: 0 <= k < |Articles| ==> !ArticleAt(Strip(LowerStr(query)), Articles[k])
    ensures ExtractSearchTerms(query) == TrimEnds(Strip(LowerStr(query)))
  {
    StopPatternsAreWellFormed();
    PlainQueryIsTrimmedWith(query, StopPatterns, Separators, Articles);
  }

  lemma PlainQueryIsTrimmedWith(query: string, pats: seq<seq<string>>, seps: seq<string>, articles: seq<string>)
    requires AllPatternsNonEmpty(pats) && AllNonEmpty(seps) && |pats| > 0
    requires !Contains(LowerStr(query), "clinial")
    requires NoStopPhrase(LowerStr(query), pats)
    requires forall k :: 0 <= k < |seps| ==> !Contains(LowerStr(query), seps[k])
    requires forall k :: 0 <= k < |articles| ==> !ArticleAt(Strip(LowerStr(query)), articles[k])
    ensures Clean(query, pats, seps, articles) == TrimEnds(Strip(LowerStr(query)))
  {
    var lower := LowerStr(query);
    assert FixTypo(lower) == lower;
    var q1 := RemoveStopPatterns(lower, pats);
    RemoveStopPatternsAbsent(lower, pats);
    assert q1 == Strip(lower);
    forall k | 0 <= k < |seps| ensures !Contains(q1, seps[k]) {
      NotContainedAfterStrip(lower, Whitespace, seps[k]);
    }
    assert SplitOnSeparators(q1, seps) == q1;
    assert StripLeadingArticle(q1, articles) == q1;
  }

  /** A question that opens with the first alternative of the first stop
      pattern loses that phrase; what follows, free of stop phrases,
      prepositions and leading articles, is all that is searched for. */
  lemma LeadingStopPhraseRemoved(query: string, rest: string)
    requires LowerStr(query) == StopPatterns[0][0] + rest
    requires !Contains(LowerStr(query), "clinial")
    requires NoStopPhrase(rest, StopPatterns)
    requires forall k :: 0 <= k < |Separators| ==> !Contains(rest, Separators[k])
    requires forall k :: 0 <= k < |Articles| ==> !ArticleAt(Strip(rest), Articles[k])
    ensures RemoveStopPatterns(LowerStr(query), StopPatterns) == Strip(rest)
    ensures ExtractSearchTerms(query) == TrimEnds(Strip(rest))
  {
    StopPatternsAreWellFormed();
    LeadingStopPhraseRemovedWith(query, StopPatterns, Separators, Articles, rest);
  }

  lemma LeadingStopPhraseRemovedWith(query: string, pats: seq<seq<string>>, seps: seq<string>,
                                     articles: seq<string>, rest: string)
    requires AllPatternsNonEmpty(pats) && AllNonEmpty(seps) && |pats| > 0 && |pats[0]| > 0
    requires LowerStr(query) == pats[0][0] + rest
    requires !Contains(LowerStr(query), "clinial")
    requires NoStopPhrase(rest, pats)
    requires forall k :: 0 <= k < |seps| ==> !Contains(rest, seps[k])
    requires forall k :: 0 <= k < |articles| ==> !ArticleAt(Strip(rest), articles[k])
    ensures RemoveStopPatterns(LowerStr(query), pats) == Strip(rest)
    ensures Clean(query, pats, seps, articles) == TrimEnds(Strip(rest))
  {
    var lower := LowerStr(query);
    assert FixTypo(lower) == lower;
    LeadingPhraseThenNothing(pats, rest);
    var next := Strip(rest);
    forall k | 0 <= k < |seps| ensures !Contains(next, seps[k]) {
      NotContainedAfterStrip(rest, Whitespace, seps[k]);
    }
    assert SplitOnSeparators(next, seps) == next;
    assert StripLeadingArticle(next, articles) == next;
  }

  /** Only the leading phrase goes when nothing after it matches. */
  lemma LeadingPhraseThenNothing(pats: seq<seq<string>>, rest: string)
    requires AllPatternsNonEmpty(pats) && |pats| > 0 && |pats[0]| > 0
    requires NoStopPhrase(rest, pats)
    ensures RemoveStopPatterns(pats[0][0] + rest, pats) == Strip(rest)
  {
    LeadingPhraseDropped(pats[0], rest);
    assert forall m :: 0 <= m < |pats[0]| ==> !Contains(rest, pats[0][m]);
    assert RemoveAlternatives(rest, pats[0]) == rest;
    var next := Strip(rest);
    if |pats| > 1 {
      StopPatternStep(rest, pats);
      forall k, m | 0 <= k < |pats[1..]| && 0 <= m < |pats[1..][k]| ensures !Contains(next, pats[1..][k][m]) {
        assert pats[1..][k] == pats[k + 1];
        NotContainedAfterStrip(rest, Whitespace, pats[k + 1][m]);
      }
      RemoveStopPatternsAbsent(next, pats[1..]);
      StripIdempotent(rest);
    }
  }

  /** The first alternative, when it opens the text, is the one removed. */
  lemma LeadingPhraseDropped(alts: seq<string>, rest: string)
    requires AllNonEmpty(alts) && |alts| > 0
    ensures RemoveAlternatives(alts[0] + rest, alts) == RemoveAlternatives(rest, alts)
  {
    assert (alts[0] + rest)[..|alts[0]|] == alts[0];
    assert FirstPrefix(alts[0] + rest, alts) == Some(alts[0]);
    RemoveAlternativesDropsMatch(alts[0], rest, alts);
  }

  // ---------------------------------------------------------------------
  // Answering

  datatype Answer =
    | Explanation(explanation: DrugExplanation)
    | Summary(summary: ConditionSummary)
    | Conclusion(conclusion: ClinicalConclusion)

  /** Items shown in an explanation or a summary. */
  const ShownItems: nat := 5

  function Take<T>(xs: seq<T>, n: nat): (r: seq<T>)
    ensures |r| == Synthesis.Min(n, |xs|) && r == xs[..|r|]
  {
    if |xs| <= n then xs else xs[..n]
  }

  function BrandNames(drugs: seq<DrugInfo>): (r: seq<string>)
    ensures |r| == |drugs| && forall i :: 0 <= i < |drugs| ==> r[i] == drugs[i].brandName
  {
    if |drugs| == 0 then [] else [drugs[0].brandName] + BrandNames(drugs[1..])
  }

  /** The answer for `query` once its search has returned `results`. */
  function Dispatch(query: string, results: SearchResults): (a: Answer)
    ensures a.Explanation? <==> DetermineIntent(query) == ExplainDrug && |results.drugs| > 0
    ensures a.Summary? <==> DetermineIntent(query) == SummarizeCondition
    // an explanation of the first drug, with at most five papers and trials
    ensures a.Explanation? ==>
              a.explanation.drugInfo == Some(results.drugs[0])
              && |a.explanation.papers| == Synthesis.Min(ShownItems, |results.papers|)
              && a.explanation.papers == results.papers[..|a.explanation.papers|]
              && |a.explanation.trials| == Synthesis.Min(ShownItems, |results.trials|)
              && a.explanation.trials == results.trials[..|a.explanation.trials|]
    // a summary of the original question, with at most five of each
    ensures a.Summary? ==>
              a.summary.condition == query
              && |a.summary.drugs| == Synthesis.Min(ShownItems, |results.drugs|)
              && (forall i :: 0 <= i < |a.summary.drugs| ==> a.summary.drugs[i] == results.drugs[i].brandName)
              && |a.summary.papers| == Synthesis.Min(ShownItems, |results.papers|)
              && a.summary.papers == results.papers[..|a.summary.papers|]
              && |a.summary.trials| == Synthesis.Min(ShownItems, |results.trials|)
              && a.summary.trials == results.trials[..|a.summary.trials|]
    // otherwise, including a drug question that found no drug, a synthesis
    // of everything found, for the original question
    ensures a.Conclusion? ==>
              a.conclusion == Synthesis.Synthesize(query, results.drugs, results.papers, results.trials)
  {
    var intent := DetermineIntent(query);
    if intent == ExplainDrug && |results.drugs| > 0 then
      Explanation(DrugExplanation(Some(results.drugs[0]), Take(results.papers, ShownItems), Take(results.trials, ShownItems)))
    else if intent == SummarizeCondition then
      Summary(ConditionSummary(query, BrandNames(Take(results.drugs, ShownItems)),
                               Take(results.papers, ShownItems), Take(results.trials, ShownItems)))
    else
      Conclusion(Synthesis.Synthesize(query, results.drugs, results.papers, results.trials))
  }

  lemma DispatchKeepsQuestion(query: string, results: SearchResults)
    ensures Dispatch(query, results).Summary? ==> Dispatch(query, results).summary.condition == query
    ensures Dispatch(query, results).Conclusion? ==> Dispatch(query, results).conclusion.query == query
  {
  }

  /** `ask_sync` with the client's search as `search`: the search sees the
      cleaned terms, the answer keeps the question as asked. */
  function AskSync(query: string, search: string -> SearchResults): (r: (Answer, string))
    ensures r.1 == ExtractSearchTerms(query) && NoUpper(r.1)
    ensures r.0 == Dispatch(query, search(r.1))
    ensures r.0.Summary? ==> r.0.summary.condition == query
    ensures r.0.Conclusion? ==> r.0.conclusion.query == query
  {
    var terms := ExtractSearchTerms(query);
    var results := search(terms);
    DispatchKeepsQuestion(query, results);
    (Dispatch(query, results), terms)
  }

  /** A drug question whose search finds no drug is answered by a
      synthesis. */
  lemma DrugQuestionWithoutDrugsSynthesizes(query: string, results: SearchResults)
    requires DetermineIntent(query) == ExplainDrug && |results.drugs| == 0
    ensures Dispatch(query, results).Conclusion?
    ensures Dispatch(query, results).conclusion.evidenceCount.drugs == 0
  {
  }
}
