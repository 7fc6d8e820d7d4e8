/** `IntelligenceEngine.synthesize` and `correlate_entities`
    (medkit/intelligence.py).
 */
module Synthesis {
  import opened Wrappers
  import opened Text
  import opened Models
  import Evidence

  /** Every drug adds this much to its generic and to its brand name. */
  const DrugMentionWeight: nat := 5
  /** Names at least this long are taken for procedure descriptions. */
  const NameLengthLimit: nat := 100
  const TopInterventionCount: nat := 5
  const SuggestedTrialCount: nat := 3
  /** Confidence thresholds, in hundredths (exclusive). */
  const HighConfidence: int := 70
  const EmergingConfidence: int := 40

  // ---------------------------------------------------------------------
  // The intervention tally (the `Counter`)

  function Occurrences(name: string, xs: seq<string>): nat {
    if |xs| == 0 then 0 else (if xs[0] == name then 1 else 0) + Occurrences(name, xs[1..])
  }

  function TrialMentions(name: string, trials: seq<ClinicalTrial>): nat {
    if |trials| == 0 then 0 else Occurrences(name, trials[0].interventions) + TrialMentions(name, trials[1..])
  }

  function DrugMentions(name: string, drugs: seq<DrugInfo>): nat {
    if |drugs| == 0 then 0
    else
      (if drugs[0].genericName == name then 1 else 0)
      + (if drugs[0].brandName == name then 1 else 0)
      + DrugMentions(name, drugs[1..])
  }

  /** The count the engine keeps for `name`. */
  function Tally(name: string, drugs: seq<DrugInfo>, trials: seq<ClinicalTrial>): nat {
    TrialMentions(name, trials) + DrugMentionWeight * DrugMentions(name, drugs)
  }

  /** Every name fed to the counter, with repetitions. */
  function Mentioned(drugs: seq<DrugInfo>, trials: seq<ClinicalTrial>): seq<string> {
    TrialNames(trials) + DrugNames(drugs)
  }

  function TrialNames(trials: seq<ClinicalTrial>): seq<string> {
    if |trials| == 0 then [] else trials[0].interventions + TrialNames(trials[1..])
  }

  function DrugNames(drugs: seq<DrugInfo>): seq<string> {
    if |drugs| == 0 then [] else [drugs[0].genericName, drugs[0].brandName] + DrugNames(drugs[1..])
  }

  lemma {:induction false} OccurrencesPositive(name: string, xs: seq<string>)
    ensures Occurrences(name, xs) > 0 <==> name in xs
  {
    if |xs| > 0 {
      OccurrencesPositive(name, xs[1..]);
      assert xs == [xs[0]] + xs[1..];
    }
  }

  lemma {:induction false} TrialMentionsPositive(name: string, trials: seq<ClinicalTrial>)
    ensures TrialMentions(name, trials) > 0 <==> name in TrialNames(trials)
  {
    if |trials| > 0 {
      OccurrencesPositive(name, trials[0].interventions);
      TrialMentionsPositive(name, trials[1..]);
    }
  }

  lemma {:induction false} DrugMentionsPositive(name: string, drugs: seq<DrugInfo>)
    ensures DrugMentions(name, drugs) > 0 <==> name in DrugNames(drugs)
  {
    if |drugs| > 0 {
      DrugMentionsPositive(name, drugs[1..]);
    }
  }

  /** A name has a positive count exactly when something mentions it. */
  lemma TallyPositive(name: string, drugs: seq<DrugInfo>, trials: seq<ClinicalTrial>)
    ensures Tally(name, drugs, trials) > 0 <==> name in Mentioned(drugs, trials)
  {
    TrialMentionsPositive(name, trials);
    DrugMentionsPositive(name, drugs);
  }

  /** A drug's brand and generic names each count at least 5, so a drug
      on the regulator's list outranks any name only a few trials mention. */
  lemma DrugNamesWeighFive(drugs: seq<DrugInfo>, i: int, trials: seq<ClinicalTrial>)
    requires 0 <= i < |drugs|
    ensures Tally(drugs[i].brandName, drugs, trials) >= DrugMentionWeight
    ensures Tally(drugs[i].genericName, drugs, trials) >= DrugMentionWeight
  {
    DrugMentionsPositive(drugs[i].brandName, drugs);
    DrugMentionsPositive(drugs[i].genericName, drugs);
    DrugNamesContain(drugs, i);
  }

  lemma {:induction false} DrugNamesContain(drugs: seq<DrugInfo>, i: int)
    requires 0 <= i < |drugs|
    ensures drugs[i].brandName in DrugNames(drugs) && drugs[i].genericName in DrugNames(drugs)
  {
    if i > 0 {
      DrugNamesContain(drugs[1..], i - 1);
    }
  }

  lemma {:induction false} TrialMentionsConcat(name: string, a: seq<ClinicalTrial>, b: seq<ClinicalTrial>)
    ensures TrialMentions(name, a + b) == TrialMentions(name, a) + TrialMentions(name, b)
  {
    if |a| == 0 {
      assert a + b == b;
    } else {
      assert (a + b)[1..] == a[1..] + b;
      TrialMentionsConcat(name, a[1..], b);
    }
  }

  lemma {:induction false} DrugMentionsConcat(name: string, a: seq<DrugInfo>, b: seq<DrugInfo>)
    ensures DrugMentions(name, a + b) == DrugMentions(name, a) + DrugMentions(name, b)
  {
    if |a| == 0 {
      assert a + b == b;
    } else {
      assert (a + b)[1..] == a[1..] + b;
      DrugMentionsConcat(name, a[1..], b);
    }
  }

  /** Another trial adds one per occurrence of the name among its
      interventions, and nothing else. */
  lemma TallyAddTrial(name: string, drugs: seq<DrugInfo>, trials: seq<ClinicalTrial>, t: ClinicalTrial)
    ensures Tally(name, drugs, trials + [t]) == Tally(name, drugs, trials) + Occurrences(name, t.interventions)
  {
    TrialMentionsConcat(name, trials, [t]);
  }

  /** Another drug adds 5 to its generic name and 5 to its brand name
      (10 when the two are the same), and nothing else. */
  lemma TallyAddDrug(name: string, drugs: seq<DrugInfo>, d: DrugInfo, trials: seq<ClinicalTrial>)
    ensures Tally(name, drugs + [d], trials)
         == Tally(name, drugs, trials)
            + (if d.genericName == name then DrugMentionWeight else 0)
            + (if d.brandName == name then DrugMentionWeight else 0)
  {
    DrugMentionsConcat(name, drugs, [d]);
  }

  // ---------------------------------------------------------------------
  // Candidate names: the distinct names shorter than the limit

  predicate Distinct(xs: seq<string>) {
    forall i, j :: 0 <= i < j < |xs| ==> xs[i] != xs[j]
  }

  /** The distinct short names of `xs`, each kept where it first appears. */
  function ShortDistinct(xs: seq<string>, seen: seq<string>): (r: seq<string>)
    requires Distinct(seen)
    ensures Distinct(seen + r)
    ensures forall n :: n in r <==> n in xs && |n| < NameLengthLimit && n !in seen
  {
    if |xs| == 0 then []
    else if |xs[0]| < NameLengthLimit && xs[0] !in seen then
      DistinctAppend(seen, xs[0]);
      var rest := ShortDistinct(xs[1..], seen + [xs[0]]);
      ShortKept(xs, seen, rest);
      [xs[0]] + rest
    else
      var rest := ShortDistinct(xs[1..], seen);
      ShortSkipped(xs, seen, rest);
      rest
  }

  lemma ShortKept(xs: seq<string>, seen: seq<string>, rest: seq<string>)
    requires |xs| > 0 && |xs[0]| < NameLengthLimit && xs[0] !in seen
    requires Distinct(seen + [xs[0]] + rest)
    requires forall n :: n in rest <==> n in xs[1..] && |n| < NameLengthLimit && n !in seen + [xs[0]]
    ensures Distinct(seen + ([xs[0]] + rest))
    ensures forall n :: n in [xs[0]] + rest <==> n in xs && |n| < NameLengthLimit && n !in seen
  {
    assert seen + [xs[0]] + rest == seen + ([xs[0]] + rest);
    assert xs == [xs[0]] + xs[1..];
  }

  lemma ShortSkipped(xs: seq<string>, seen: seq<string>, rest: seq<string>)
    requires |xs| > 0 && !(|xs[0]| < NameLengthLimit && xs[0] !in seen)
    requires forall n :: n in rest <==> n in xs[1..] && |n| < NameLengthLimit && n !in seen
    ensures forall n :: n in rest <==> n in xs && |n| < NameLengthLimit && n !in seen
  {
    assert xs == [xs[0]] + xs[1..];
  }

  lemma DistinctAppend(xs: seq<string>, x: string)
    requires Distinct(xs) && x !in xs
    ensures Distinct(xs + [x])
  {
  }

  function Candidates(drugs: seq<DrugInfo>, trials: seq<ClinicalTrial>): (r: seq<string>)
    ensures Distinct(r)
    ensures forall n :: n in r <==> |n| < NameLengthLimit && Tally(n, drugs, trials) > 0
  {
    var r := ShortDistinct(Mentioned(drugs, trials), []);
    assert [] + r == r;
    forall n ensures n in r <==> |n| < NameLengthLimit && Tally(n, drugs, trials) > 0 {
      TallyPositive(n, drugs, trials);
    }
    r
  }

  // ---------------------------------------------------------------------
  // Ranking: higher count first, then the smaller name

  predicate Outranks(a: string, b: string, drugs: seq<DrugInfo>, trials: seq<ClinicalTrial>) {
    Tally(a, drugs, trials) > Tally(b, drugs, trials)
    || (Tally(a, drugs, trials) == Tally(b, drugs, trials) && StrLess(a, b))
  }

  lemma OutranksTransitive(a: string, b: string, c: string, drugs: seq<DrugInfo>, trials: seq<ClinicalTrial>)
    requires Outranks(a, b, drugs, trials) && Outranks(b, c, drugs, trials)
    ensures Outranks(a, c, drugs, trials)
  {
    if Tally(a, drugs, trials) == Tally(b, drugs, trials) == Tally(c, drugs, trials) {
      StrLessTransitive(a, b, c);
    }
  }

  lemma OutranksTotal(a: string, b: string, drugs: seq<DrugInfo>, trials: seq<ClinicalTrial>)
    requires a != b
    ensures Outranks(a, b, drugs, trials) || Outranks(b, a, drugs, trials)
  {
    StrLessTotal(a, b);
  }

  lemma OutranksIrreflexive(a: string, drugs: seq<DrugInfo>, trials: seq<ClinicalTrial>)
    ensures !Outranks(a, a, drugs, trials)
  {
    StrLessIrreflexive(a);
  }

  /** The position of the best-ranked name. */
  function BestIndex(cands: seq<string>, drugs: seq<DrugInfo>, trials: seq<ClinicalTrial>): (b: nat)
    requires |cands| > 0 && Distinct(cands)
    ensures b < |cands|
    ensures forall j :: 0 <= j < |cands| && j != b ==> Outranks(cands[b], cands[j], drugs, trials)
  {
    if |cands| == 1 then 0
    else
      var b' := BestIndex(cands[1..], drugs, trials) + 1;
      if Outranks(cands[0], cands[b'], drugs, trials) then
        forall j | 1 <= j < |cands| && j != b' ensures Outranks(cands[0], cands[j], drugs, trials) {
          assert cands[1..][j - 1] == cands[j];
          OutranksTransitive(cands[0], cands[b'], cands[j], drugs, trials);
        }
        0
      else
        OutranksTotal(cands[0], cands[b'], drugs, trials);
        assert forall j :: 1 <= j < |cands| && j != b' ==> cands[1..][j - 1] == cands[j];
        b'
  }

  /** `xs` without its `i`-th element; of distinct names, that is every
      other name. */
  function RemoveAt(xs: seq<string>, i: nat): (r: seq<string>)
    requires i < |xs| && Distinct(xs)
    ensures |r| == |xs| - 1 && Distinct(r)
    ensures forall n :: n in r <==> n in xs && n != xs[i]
  {
    var r := xs[..i] + xs[i + 1..];
    RemoveAtIndices(xs, i);
    r
  }

  lemma RemoveAtIndices(xs: seq<string>, i: nat)
    requires i < |xs| && Distinct(xs)
    ensures var r := xs[..i] + xs[i + 1..];
            Distinct(r) && forall n :: n in r <==> n in xs && n != xs[i]
  {
    var r := xs[..i] + xs[i + 1..];
    assert forall k :: 0 <= k < |r| ==> r[k] == xs[if k < i then k else k + 1];
    forall n | n in xs && n != xs[i] ensures n in r {
      var k :| 0 <= k < |xs| && xs[k] == n;
      if k < i { assert r[k] == n; } else { assert r[k - 1] == n; }
    }
  }

  function Min(a: nat, b: nat): nat { if a < b then a else b }

  /** The `k` best-ranked candidates, best first: what sorting by
      `(-count, name)` and keeping the first `k` gives. */
  function TopK(cands: seq<string>, k: nat, drugs: seq<DrugInfo>, trials: seq<ClinicalTrial>): (r: seq<string>)
    requires Distinct(cands)
    ensures |r| == Min(k, |cands|)
    ensures forall i :: 0 <= i < |r| ==> r[i] in cands
    ensures forall i, j :: 0 <= i < j < |r| ==> Outranks(r[i], r[j], drugs, trials)
    ensures forall x :: x in cands && x !in r ==> forall i :: 0 <= i < |r| ==> Outranks(r[i], x, drugs, trials)
    ensures |cands| <= k ==> forall x :: x in cands ==> x in r
    decreases k
  {
    if k == 0 || |cands| == 0 then []
    else
      var b := BestIndex(cands, drugs, trials);
      var rest := RemoveAt(cands, b);
      var tail := TopK(rest, k - 1, drugs, trials);
      TopKConsMembers(cands, b, rest, k, tail);
      TopKConsOrder(cands, b, rest, tail, drugs, trials);
      [cands[b]] + tail
  }

  /** The best candidate followed by the best `k - 1` of the others are
      the best `k`: the length and the members. */
  lemma TopKConsMembers(cands: seq<string>, b: nat, rest: seq<string>, k: nat, tail: seq<string>)
    requires b < |cands| && k > 0
    requires |rest| == |cands| - 1 && forall n :: n in rest <==> n in cands && n != cands[b]
    requires |tail| == Min(k - 1, |rest|) && forall i :: 0 <= i < |tail| ==> tail[i] in rest
    requires |rest| <= k - 1 ==> forall x :: x in rest ==> x in tail
    ensures var r := [cands[b]] + tail;
            |r| == Min(k, |cands|)
            && (forall i :: 0 <= i < |r| ==> r[i] in cands)
            && (|cands| <= k ==> forall x :: x in cands ==> x in r)
  {
  }

  /** ... and the order. */
  lemma TopKConsOrder(cands: seq<string>, b: nat, rest: seq<string>, tail: seq<string>,
                      drugs: seq<DrugInfo>, trials: seq<ClinicalTrial>)
    requires b < |cands|
    requires forall j :: 0 <= j < |cands| && j != b ==> Outranks(cands[b], cands[j], drugs, trials)
    requires forall n :: n in rest <==> n in cands && n != cands[b]
    requires forall i :: 0 <= i < |tail| ==> tail[i] in rest
    requires forall i, j :: 0 <= i < j < |tail| ==> Outranks(tail[i], tail[j], drugs, trials)
    requires forall x :: x in rest && x !in tail ==> forall i :: 0 <= i < |tail| ==> Outranks(tail[i], x, drugs, trials)
    ensures var r := [cands[b]] + tail;
            (forall i, j :: 0 <= i < j < |r| ==> Outranks(r[i], r[j], drugs, trials))
            && (forall x :: x in cands && x !in r ==> forall i :: 0 <= i < |r| ==> Outranks(r[i], x, drugs, trials))
  {
    var r := [cands[b]] + tail;
    forall x | x in cands && x != cands[b]
      ensures Outranks(cands[b], x, drugs, trials)
    {
      var j :| 0 <= j < |cands| && cands[j] == x;
    }
    assert forall i :: 1 <= i < |r| ==> r[i] == tail[i - 1];
  }

  // ---------------------------------------------------------------------
  // The conclusion

  /** The nct ids of the trials `keep` selects, in trial order. */
  function IdsWhere(trials: seq<ClinicalTrial>, keep: ClinicalTrial -> bool): seq<string> {
    if |trials| == 0 then []
    else (if keep(trials[0]) then [trials[0].nctId] else []) + IdsWhere(trials[1..], keep)
  }

  lemma {:induction false} IdsWhereAppend(keep: ClinicalTrial -> bool, a: seq<ClinicalTrial>, b: seq<ClinicalTrial>)
    ensures IdsWhere(a + b, keep) == IdsWhere(a, keep) + IdsWhere(b, keep)
  {
    if |a| == 0 {
      assert a + b == b;
    } else {
      assert (a + b)[1..] == a[1..] + b;
      IdsWhereAppend(keep, a[1..], b);
    }
  }

  /** An id is selected exactly when some trial `keep` selects has it. */
  lemma {:induction false} IdsWhereMembers(trials: seq<ClinicalTrial>, keep: ClinicalTrial -> bool, id: string)
    ensures id in IdsWhere(trials, keep) <==> exists i :: 0 <= i < |trials| && keep(trials[i]) && trials[i].nctId == id
  {
    if |trials| > 0 {
      IdsWhereMembers(trials[1..], keep, id);
      assert forall i :: 1 <= i < |trials| ==> trials[1..][i - 1] == trials[i];
      if id in IdsWhere(trials[1..], keep) {
        var i :| 0 <= i < |trials[1..]| && keep(trials[1..][i]) && trials[1..][i].nctId == id;
        assert trials[i + 1] == trials[1..][i];
      }
    }
  }

  /** The nct ids of the recruiting trials, in input order. */
  function RecruitingIds(trials: seq<ClinicalTrial>): seq<string> {
    IdsWhere(trials, (t: ClinicalTrial) => t.recruiting)
  }

  function HighSummary(query: string, drugCount: nat, trialCount: nat): string {
    "High-confidence clinical consensus exists for target '" + query + "'. "
    + "Analysis identifies " + NatToString(drugCount) + " FDA agents and " + NatToString(trialCount) + " trials."
  }

  function EmergingSummary(query: string, paperCount: nat): string {
    "Emerging evidence for '" + query + "' identified (" + NatToString(paperCount) + " papers). "
    + "Preliminary Phase II data suggests therapeutic potential."
  }

  function LimitedSummary(query: string, paperCount: nat, trialCount: nat): string {
    "Limited primary clinical evidence available for '" + query + "'. "
    + "Synthesis based on " + NatToString(paperCount) + " papers and " + NatToString(trialCount) + " early studies."
  }

  /** At most five distinct short names that something mentions, best
      first, and no other such name ranks above any of them. */
  function TopInterventions(drugs: seq<DrugInfo>, trials: seq<ClinicalTrial>): (top: seq<string>)
    ensures |top| <= TopInterventionCount
    ensures forall i :: 0 <= i < |top| ==> |top[i]| < NameLengthLimit && Tally(top[i], drugs, trials) > 0
    ensures forall i, j :: 0 <= i < j < |top| ==> Outranks(top[i], top[j], drugs, trials)
    ensures forall n :: |n| < NameLengthLimit && Tally(n, drugs, trials) > 0 && n !in top ==>
              |top| == TopInterventionCount
              && forall i :: 0 <= i < |top| ==> Outranks(top[i], n, drugs, trials)
  {
    TopK(Candidates(drugs, trials), TopInterventionCount, drugs, trials)
  }

  /** The summary sentence of a confidence tier. */
  function Summary(confidence: int, query: string, drugCount: nat, paperCount: nat, trialCount: nat): (s: string)
    ensures confidence > HighConfidence ==> s == HighSummary(query, drugCount, trialCount)
    ensures EmergingConfidence < confidence <= HighConfidence ==> s == EmergingSummary(query, paperCount)
    ensures confidence <= EmergingConfidence ==> s == LimitedSummary(query, paperCount, trialCount)
  {
    if confidence > HighConfidence then HighSummary(query, drugCount, trialCount)
    else if confidence > EmergingConfidence then EmergingSummary(query, paperCount)
    else LimitedSummary(query, paperCount, trialCount)
  }

  /** The tiers are the thresholds 0.7 and 0.4 applied to the confidence
      as a fraction: hundredths lose nothing at either boundary. */
  lemma SummaryThresholds(confidence: int, query: string, drugCount: nat, paperCount: nat, trialCount: nat)
    ensures (confidence as real) / 100.0 > 0.7 ==>
              Summary(confidence, query, drugCount, paperCount, trialCount) == HighSummary(query, drugCount, trialCount)
    ensures 0.4 < (confidence as real) / 100.0 <= 0.7 ==>
              Summary(confidence, query, drugCount, paperCount, trialCount) == EmergingSummary(query, paperCount)
    ensures (confidence as real) / 100.0 <= 0.4 ==>
              Summary(confidence, query, drugCount, paperCount, trialCount) == LimitedSummary(query, paperCount, trialCount)
  {
  }

  /** The first three recruiting trials, by nct id. */
  function SuggestedTrials(trials: seq<ClinicalTrial>): (s: seq<string>)
    ensures |s| == Min(SuggestedTrialCount, |RecruitingIds(trials)|)
    ensures s == RecruitingIds(trials)[..|s|]
  {
    var recruiting := RecruitingIds(trials);
    if |recruiting| <= SuggestedTrialCount then recruiting else recruiting[..SuggestedTrialCount]
  }

  function Synthesize(query: string, drugs: seq<DrugInfo>, papers: seq<ResearchPaper>, trials: seq<ClinicalTrial>)
    : (c: ClinicalConclusion)
    ensures c.query == query
    ensures 10 <= c.confidenceScore <= 100
    ensures c.confidenceScore == Evidence.Score(trials, papers, drugs)
    ensures c.evidenceCount == EvidenceCount(|trials|, |papers|, |drugs|)
    ensures c.summary == Summary(c.confidenceScore, query, |drugs|, |papers|, |trials|)
    ensures c.topInterventions == TopInterventions(drugs, trials)
    ensures c.suggestedTrials == SuggestedTrials(trials)
  {
    var confidence := Evidence.Score(trials, papers, drugs);
    ClinicalConclusion(query, Summary(confidence, query, |drugs|, |papers|, |trials|), confidence,
                       EvidenceCount(|trials|, |papers|, |drugs|), TopInterventions(drugs, trials),
                       SuggestedTrials(trials))
  }

  /** With nothing found the confidence is the floor 0.1 and the summary
      is the "limited" one, counting no papers and no trials. */
  lemma NothingFoundIsLimited(query: string)
    ensures Synthesize(query, [], [], []).confidenceScore == 10
    ensures Synthesize(query, [], [], []).summary == LimitedSummary(query, 0, 0)
    ensures Synthesize(query, [], [], []).topInterventions == []
    ensures Synthesize(query, [], [], []).suggestedTrials == []
  {
  }

  /** The recruiting ids are exactly those of the recruiting trials, and
      they keep the trials' order. */
  lemma RecruitingIdsFollowOrder(a: seq<ClinicalTrial>, b: seq<ClinicalTrial>)
    ensures RecruitingIds(a + b) == RecruitingIds(a) + RecruitingIds(b)
  {
    IdsWhereAppend((t: ClinicalTrial) => t.recruiting, a, b);
  }

  lemma RecruitingIdsMembers(trials: seq<ClinicalTrial>, id: string)
    ensures id in RecruitingIds(trials) <==> exists i :: 0 <= i < |trials| && trials[i].recruiting && trials[i].nctId == id
  {
    IdsWhereMembers(trials, (t: ClinicalTrial) => t.recruiting, id);
  }

  // ---------------------------------------------------------------------
  // Entity correlation

  /** The lower-cased text a trial is searched in: title, interventions
      and description, separated by single spaces. */
  function TrialText(t: ClinicalTrial): string {
    LowerStr(t.title + " " + Join(t.interventions, " ") + " " + t.description.GetOr(""))
  }

  /** The brand or the generic name, lower-cased, occurs as a whole word. */
  predicate Mentions(d: DrugInfo, t: ClinicalTrial) {
    ContainsWord(TrialText(t), LowerStr(d.brandName)) || ContainsWord(TrialText(t), LowerStr(d.genericName))
  }

  /** The trials that mention `d`, by nct id, in trial order. */
  function RelatedIds(d: DrugInfo, trials: seq<ClinicalTrial>): seq<string> {
    IdsWhere(trials, t => Mentions(d, t))
  }

  lemma RelatedIdsFollowOrder(d: DrugInfo, a: seq<ClinicalTrial>, b: seq<ClinicalTrial>)
    ensures RelatedIds(d, a + b) == RelatedIds(d, a) + RelatedIds(d, b)
  {
    IdsWhereAppend(t => Mentions(d, t), a, b);
  }

  lemma {:induction false} RelatedIdsEmpty(d: DrugInfo, trials: seq<ClinicalTrial>)
    ensures |RelatedIds(d, trials)| == 0 <==> forall i :: 0 <= i < |trials| ==> !Mentions(d, trials[i])
  {
    if |trials| > 0 {
      RelatedIdsEmpty(d, trials[1..]);
      assert forall i :: 1 <= i < |trials| ==> trials[1..][i - 1] == trials[i];
    }
  }

  predicate Correlated(d: DrugInfo, trials: seq<ClinicalTrial>) { |RelatedIds(d, trials)| > 0 }

  /** `correlate_entities`: each drug that some trial mentions, keyed by its
      lower-cased brand name; a later drug with the same key replaces an
      earlier one. */
  function Correlate(drugs: seq<DrugInfo>, trials: seq<ClinicalTrial>): (m: map<string, seq<string>>)
    ensures forall k :: k in m ==> exists i :: LastCorrelated(drugs, trials, k, i) && m[k] == RelatedIds(drugs[i], trials)
    ensures forall i :: 0 <= i < |drugs| && Correlated(drugs[i], trials) ==> LowerStr(drugs[i].brandName) in m
  {
    if |drugs| == 0 then map[]
    else
      var init := drugs[..|drugs| - 1];
      var d := drugs[|drugs| - 1];
      var m := Correlate(init, trials);
      var r := CorrelateStep(m, d, trials);
      assert drugs == init + [d];
      forall k | k in r ensures exists i :: LastCorrelated(drugs, trials, k, i) && r[k] == RelatedIds(drugs[i], trials) {
        CorrelateStepKey(init, d, trials, m, k);
      }
      forall i | 0 <= i < |drugs| && Correlated(drugs[i], trials) ensures LowerStr(drugs[i].brandName) in r {
        if i < |init| {
          assert init[i] == drugs[i];
        }
      }
      r
  }

  /** One drug of the fold. */
  function CorrelateStep(m: map<string, seq<string>>, d: DrugInfo, trials: seq<ClinicalTrial>): map<string, seq<string>> {
    var related := RelatedIds(d, trials);
    if |related| > 0 then m[LowerStr(d.brandName) := related] else m
  }

  /** Drug `i` is the last one keyed `k` that some trial mentions. */
  predicate LastCorrelated(drugs: seq<DrugInfo>, trials: seq<ClinicalTrial>, k: string, i: int) {
    0 <= i < |drugs| && LowerStr(drugs[i].brandName) == k && Correlated(drugs[i], trials)
    && forall j :: i < j < |drugs| && LowerStr(drugs[j].brandName) == k ==> !Correlated(drugs[j], trials)
  }

  lemma CorrelateStepKey(init: seq<DrugInfo>, d: DrugInfo, trials: seq<ClinicalTrial>, m: map<string, seq<string>>, k: string)
    requires forall k :: k in m ==> exists i :: LastCorrelated(init, trials, k, i) && m[k] == RelatedIds(init[i], trials)
    requires k in CorrelateStep(m, d, trials)
    ensures exists i :: LastCorrelated(init + [d], trials, k, i)
                        && CorrelateStep(m, d, trials)[k] == RelatedIds((init + [d])[i], trials)
  {
    var drugs := init + [d];
    if Correlated(d, trials) && k == LowerStr(d.brandName) {
      assert drugs[|init|] == d;
      assert LastCorrelated(drugs, trials, k, |init|);
    } else {
      var i :| LastCorrelated(init, trials, k, i) && m[k] == RelatedIds(init[i], trials);
      assert CorrelateStep(m, d, trials)[k] == m[k];
      LastCorrelatedKept(init, d, trials, k, i);
    }
  }

  /** A later drug that no trial mentions, or that has another key, leaves
      the last correlated drug for `k` in place. */
  lemma LastCorrelatedKept(init: seq<DrugInfo>, d: DrugInfo, trials: seq<ClinicalTrial>, k: string, i: int)
    requires LastCorrelated(init, trials, k, i)
    requires !Correlated(d, trials) || k != LowerStr(d.brandName)
    ensures LastCorrelated(init + [d], trials, k, i) && (init + [d])[i] == init[i]
  {
    var drugs := init + [d];
    assert drugs[i] == init[i];
    forall j | i < j < |drugs| && LowerStr(drugs[j].brandName) == k ensures !Correlated(drugs[j], trials) {
      if j < |init| {
        assert drugs[j] == init[j];
      }
    }
  }

  /** Matching is by whole word: "trial" does not occur in "industrial",
      where it follows a letter. */
  lemma WordInsideWordIsNoMatch()
    ensures !ContainsWord("industrial", "trial")
  {
    var s, p := "industrial", "trial";
    assert s[0] == 'i' && s[1] == 'n' && s[2] == 'd' && s[3] == 'u' && s[4] == 's';
    forall i | 0 <= i ensures !WordAt(s, p, i) {
      if i == 5 {
        assert IsWordChar(s[4]) && IsWordChar(s[5]);
      } else if i + |p| <= |s| {
        assert s[i..i + |p|][0] == s[i] != p[0];
      }
    }
  }

  /** A name after a space and at the end of the text is a whole word. */
  lemma WordAfterSpaceMatches()
    ensures ContainsWord("a trial", "trial")
  {
    var s, p := "a trial", "trial";
    assert s[2..7] == p;
    assert WordAt(s, p, 2);
  }
}
