/** `ClinicalEvidenceMatrix.score` (medkit/intelligence.py).

    Every coefficient is kept in integer tenths, so the additive raw score
    is a natural number of tenths and the confidence, `raw / 5` clamped to
    [0.1, 1.0], is an exact whole number of hundredths:
    `clamp(2 * raw, 10, 100)`.
 */
module Evidence {
  import opened Text
  import opened Models

  /** Phase labels, upper-cased, that mark a late-phase trial. */
  const LatePhaseMarkers: seq<string> := ["PHASE 3", "PHASE 4", "PHASE III", "PHASE IV"]
  /** Phase labels, upper-cased, that mark a mid-phase trial. */
  const MidPhaseMarkers: seq<string> := ["PHASE 2", "PHASE II"]

  // Coefficients, in tenths.
  const LatePhaseWeight: nat := 4
  const MidPhaseWeight: nat := 2
  const EarlyPhaseWeight: nat := 1
  const FdaWeight: nat := 3
  const PaperWeight: nat := 1
  /** The paper contribution never exceeds 0.5. */
  const PaperCap: nat := 5

  /** Some upper-cased phase label contains one of `markers`. */
  predicate MentionsAny(phases: seq<string>, markers: seq<string>) {
    exists i, k :: 0 <= i < |phases| && 0 <= k < |markers| && Contains(UpperStr(phases[i]), markers[k])
  }

  /** The weight one trial adds, in tenths. */
  function TrialWeight(t: ClinicalTrial): nat {
    if MentionsAny(t.phase, LatePhaseMarkers) then LatePhaseWeight
    else if MentionsAny(t.phase, MidPhaseMarkers) then MidPhaseWeight
    else EarlyPhaseWeight
  }

  /** The summed trial weights: at least 0.1 and at most 0.4 per trial. */
  function TrialTenths(trials: seq<ClinicalTrial>): (r: nat)
    ensures EarlyPhaseWeight * |trials| <= r <= LatePhaseWeight * |trials|
  {
    if |trials| == 0 then 0 else TrialWeight(trials[0]) + TrialTenths(trials[1..])
  }

  function PaperTenths(papers: seq<ResearchPaper>): nat {
    if |papers| * PaperWeight < PaperCap then |papers| * PaperWeight else PaperCap
  }

  function DrugTenths(drugs: seq<DrugInfo>): nat {
    if |drugs| > 0 then FdaWeight else 0
  }

  function RawTenths(trials: seq<ClinicalTrial>, papers: seq<ResearchPaper>, drugs: seq<DrugInfo>): nat {
    TrialTenths(trials) + PaperTenths(papers) + DrugTenths(drugs)
  }

  function Clamp(x: int, lo: int, hi: int): int {
    if x < lo then lo else if x > hi then hi else x
  }

  /** The confidence score in hundredths. */
  function Score(trials: seq<ClinicalTrial>, papers: seq<ResearchPaper>, drugs: seq<DrugInfo>): (r: int)
    ensures 10 <= r <= 100
    ensures |trials| == 0 && |papers| == 0 && |drugs| == 0 ==> r == 10
  {
    Clamp(2 * RawTenths(trials, papers, drugs), 10, 100)
  }

  // ---------------------------------------------------------------------
  // The integer model is the source's formula over exact reals

  function RealClamp(x: real, lo: real, hi: real): real {
    if x < lo then lo else if x > hi then hi else x
  }

  /** `min(max(score / 5.0, 0.1), 1.0)` with the score as exact tenths
      equals the hundredths the model computes, so `round(…, 2)` loses
      nothing. */
  lemma ScoreMatchesRealFormula(trials: seq<ClinicalTrial>, papers: seq<ResearchPaper>, drugs: seq<DrugInfo>)
    ensures (Score(trials, papers, drugs) as real) / 100.0
         == RealClamp(((RawTenths(trials, papers, drugs) as real) / 10.0) / 5.0, 0.1, 1.0)
  {
    var raw := RawTenths(trials, papers, drugs);
    assert ((raw as real) / 10.0) / 5.0 == ((2 * raw) as real) / 100.0;
  }

  // ---------------------------------------------------------------------
  // Trial contribution

  lemma {:induction false} TrialTenthsConcat(a: seq<ClinicalTrial>, b: seq<ClinicalTrial>)
    ensures TrialTenths(a + b) == TrialTenths(a) + TrialTenths(b)
  {
    if |a| > 0 {
      assert (a + b)[1..] == a[1..] + b;
      TrialTenthsConcat(a[1..], b);
    } else {
      assert a + b == b;
    }
  }

  /** The score does not depend on where in the list a trial sits. */
  lemma TrialOrderIrrelevant(a: seq<ClinicalTrial>, b: seq<ClinicalTrial>, papers: seq<ResearchPaper>, drugs: seq<DrugInfo>)
    ensures Score(a + b, papers, drugs) == Score(b + a, papers, drugs)
  {
    TrialTenthsConcat(a, b);
    TrialTenthsConcat(b, a);
  }

  /** Adding a trial anywhere never lowers the score. */
  lemma ScoreMonotoneInTrials(a: seq<ClinicalTrial>, t: ClinicalTrial, b: seq<ClinicalTrial>,
                              papers: seq<ResearchPaper>, drugs: seq<DrugInfo>)
    ensures Score(a + [t] + b, papers, drugs) >= Score(a + b, papers, drugs)
  {
    TrialTenthsConcat(a + [t], b);
    TrialTenthsConcat(a, [t]);
    TrialTenthsConcat(a, b);
  }

  /** Trial volume is not capped before the final clamp: `n` late-phase
      trials alone score `0.08 * n`, clamped to [0.1, 1.0]. */
  lemma {:induction false} LatePhaseTrialsAlone(trials: seq<ClinicalTrial>)
    requires forall i :: 0 <= i < |trials| ==> MentionsAny(trials[i].phase, LatePhaseMarkers)
    ensures TrialTenths(trials) == LatePhaseWeight * |trials|
    ensures Score(trials, [], []) == Clamp(8 * |trials|, 10, 100)
  {
    if |trials| > 0 {
      LatePhaseTrialsAlone(trials[1..]);
    }
  }

  /** Phase matching ignores the case of the phase labels. */
  lemma TrialWeightIgnoresCase(t: ClinicalTrial)
    ensures TrialWeight(t) == TrialWeight(t.(phase := LowerAll(t.phase)))
  {
    var u := t.(phase := LowerAll(t.phase));
    forall i | 0 <= i < |t.phase| ensures UpperStr(u.phase[i]) == UpperStr(t.phase[i]) {
      UpperOfLower(t.phase[i]);
    }
  }

  function LowerAll(xs: seq<string>): (r: seq<string>)
    ensures |r| == |xs| && forall i :: 0 <= i < |xs| ==> r[i] == LowerStr(xs[i])
  {
    if |xs| == 0 then [] else [LowerStr(xs[0])] + LowerAll(xs[1..])
  }

  lemma UpperOfLower(s: string)
    ensures UpperStr(LowerStr(s)) == UpperStr(s)
  {
    var l := LowerStr(s);
    assert forall i :: 0 <= i < |s| ==> Upper(l[i]) == Upper(s[i]);
  }

  // ---------------------------------------------------------------------
  // Paper and drug contributions

  /** Papers beyond the fifth never change the score. */
  lemma PapersBeyondFifthIgnored(trials: seq<ClinicalTrial>, papers: seq<ResearchPaper>, p: ResearchPaper, drugs: seq<DrugInfo>)
    requires |papers| >= PaperCap
    ensures Score(trials, papers + [p], drugs) == Score(trials, papers, drugs)
  {
  }

  /** Another paper never lowers the score. */
  lemma ScoreMonotoneInPapers(trials: seq<ClinicalTrial>, papers: seq<ResearchPaper>, p: ResearchPaper, drugs: seq<DrugInfo>)
    ensures Score(trials, papers + [p], drugs) >= Score(trials, papers, drugs)
  {
  }

  /** The drug bonus is 0.3 for any non-empty list, whatever its length,
      and another drug never lowers the score. */
  lemma DrugPresenceOnly(trials: seq<ClinicalTrial>, papers: seq<ResearchPaper>, d1: seq<DrugInfo>, d2: seq<DrugInfo>)
    requires |d1| > 0
    ensures Score(trials, papers, d1) == Score(trials, papers, d1 + d2)
    ensures Score(trials, papers, d2) <= Score(trials, papers, d1)
  {
  }

  // ---------------------------------------------------------------------
  // Worked phase classifications

  lemma UpperOfNoLower(s: string)
    requires forall i :: 0 <= i < |s| ==> !IsLowerLetter(s[i])
    ensures UpperStr(s) == s
  {
  }

  /** A single phase label mentions a marker exactly when its upper-cased
      form contains one. */
  lemma OneLabel(lbl: string, markers: seq<string>)
    ensures MentionsAny([lbl], markers) <==> exists k :: 0 <= k < |markers| && Contains(UpperStr(lbl), markers[k])
  {
    if exists k :: 0 <= k < |markers| && Contains(UpperStr(lbl), markers[k]) {
      var k :| 0 <= k < |markers| && Contains(UpperStr(lbl), markers[k]);
      assert [lbl][0] == lbl;
    }
  }

  /** "PHASE II" is mid phase: none of the late markers occurs in it. */
  lemma RomanTwoIsMid()
    ensures TrialWeight(NewTrial("NCT2", "", "", ["PHASE II"], [], "")) == MidPhaseWeight
  {
    var lbl := "PHASE II";
    RomanTwoIsUpper();
    RomanTwoMarker();
    ContainsWitness(lbl, MidPhaseMarkers[1], 0);
    OneLabel(lbl, MidPhaseMarkers);
    forall k | 0 <= k < |LatePhaseMarkers| ensures !Contains(lbl, LatePhaseMarkers[k]) {
      NoLateMarkerInRomanTwo(LatePhaseMarkers[k]);
    }
    OneLabel(lbl, LatePhaseMarkers);
  }

  lemma RomanTwoIsUpper()
    ensures UpperStr("PHASE II") == "PHASE II"
  {
    var lbl := "PHASE II";
    assert forall i :: 0 <= i < |lbl| ==> !IsLowerLetter(lbl[i]);
    UpperOfNoLower(lbl);
  }

  lemma RomanTwoMarker()
    ensures OccursAt("PHASE II", MidPhaseMarkers[1], 0)
  {
    assert "PHASE II"[0..8] == "PHASE II";
  }

  lemma NoLateMarkerInRomanTwo(m: string)
    requires m in LatePhaseMarkers
    ensures !Contains("PHASE II", m)
  {
    var lbl := "PHASE II";
    forall i | 0 <= i ensures !OccursAt(lbl, m, i) {
      if i + |m| <= |lbl| {
        assert lbl[i..i + |m|][0] != m[0] || lbl[i..i + |m|][|m| - 1] != m[|m| - 1];
      }
    }
  }

  /** The registry's own spelling "PHASE3" has no space and so weighs
      only 0.1. */
  lemma UnspacedPhaseIsEarly()
    ensures TrialWeight(NewTrial("NCT3", "", "", ["PHASE3"], [], "")) == EarlyPhaseWeight
  {
    var lbl := "PHASE3";
    UnspacedIsUpper();
    forall k | 0 <= k < |LatePhaseMarkers| ensures !Contains(lbl, LatePhaseMarkers[k]) {
      assert |LatePhaseMarkers[k]| > |lbl|;
    }
    forall k | 0 <= k < |MidPhaseMarkers| ensures !Contains(lbl, MidPhaseMarkers[k]) {
      assert |MidPhaseMarkers[k]| > |lbl|;
    }
    OneLabel(lbl, LatePhaseMarkers);
    OneLabel(lbl, MidPhaseMarkers);
  }

  lemma UnspacedIsUpper()
    ensures UpperStr("PHASE3") == "PHASE3"
  {
    var lbl := "PHASE3";
    assert forall i :: 0 <= i < |lbl| ==> !IsLowerLetter(lbl[i]);
    UpperOfNoLower(lbl);
  }
}
