/** `InteractionEngine` (medkit/interactions.py): a fixed table of
    drug-drug interaction rules, looked up in either direction for every
    pair of the caller's drugs.
 */
module Interactions {
  import opened Wrappers
  import opened Text

  datatype Warning = Warning(severity: string, risk: string, evidence: string)

  /** One reported interaction: the two drugs as the caller spelled them,
      in the caller's order, and the rule's warning. */
  datatype Report = Report(drugs: seq<string>, warning: Warning)

  const AspirinIbuprofen := Warning("Moderate", "Increased bleeding risk and decreased aspirin effectiveness.",
                                    "Multiple clinical studies (e.g., FDA labels, PubMed meta-analysis).")
  const AspirinWarfarin := Warning("High", "Significantly increased risk of severe bleeding.",
                                   "Major clinical contraindication.")
  const IbuprofenNaproxen := Warning("Moderate", "Increased risk of gastrointestinal side effects.",
                                     "Pharmacological data.")
  const MetforminContrast := Warning("High", "Risk of lactic acidosis if iodine contrast is used.",
                                     "Standard hospital protocol and FDA warning.")

  /** `RULES`, keyed by lower-case drug names. */
  function Rules(): map<string, map<string, Warning>> {
    map["aspirin" := map["ibuprofen" := AspirinIbuprofen, "warfarin" := AspirinWarfarin],
        "ibuprofen" := map["naproxen" := IbuprofenNaproxen],
        "metformin" := map["contrast" := MetforminContrast]]
  }

  /** `RULES.get(d1, {}).get(d2)`. */
  function Rule(rules: map<string, map<string, Warning>>, d1: string, d2: string): (r: Option<Warning>)
    ensures r.Some? <==> d1 in rules && d2 in rules[d1]
    ensures r.Some? ==> r.value == rules[d1][d2]
  {
    if d1 in rules && d2 in rules[d1] then Some(rules[d1][d2]) else None
  }

  /** `RULES.get(d1, {}).get(d2) or RULES.get(d2, {}).get(d1)`: a rule
      stored under either drug, the one under `d1` first. */
  function Lookup(rules: map<string, map<string, Warning>>, d1: string, d2: string): (r: Option<Warning>)
    ensures r.Some? <==> Rule(rules, d1, d2).Some? || Rule(rules, d2, d1).Some?
    ensures Rule(rules, d1, d2).Some? ==> r == Rule(rules, d1, d2)
    ensures Rule(rules, d1, d2).None? ==> r == Rule(rules, d2, d1)
  {
    match Rule(rules, d1, d2)
    case Some(w) => Some(w)
    case None => Rule(rules, d2, d1)
  }

  /** Whether a rule fires does not depend on the order of the pair; when
      only one direction is stored, both orders give its warning. */
  lemma LookupSymmetric(rules: map<string, map<string, Warning>>, d1: string, d2: string)
    ensures Lookup(rules, d1, d2).Some? <==> Lookup(rules, d2, d1).Some?
    ensures Rule(rules, d2, d1).None? ==> Lookup(rules, d1, d2) == Lookup(rules, d2, d1)
  {
  }

  predicate Fires(rules: map<string, map<string, Warning>>, drugs: seq<string>, i: int, j: int)
    requires 0 <= i < |drugs| && 0 <= j < |drugs|
  {
    Lookup(rules, LowerStr(drugs[i]), LowerStr(drugs[j])).Some?
  }

  /** A firing pair of positions and the warning it reports. */
  datatype Hit = Hit(i: int, j: int, warning: Warning)

  /** Lexicographic order on the positions of hits. */
  predicate Before(p: Hit, q: Hit) {
    p.i < q.i || (p.i == q.i && p.j < q.j)
  }

  /** The hits `(i, k)`, `j <= k < |drugs|`. */
  function Row(rules: map<string, map<string, Warning>>, drugs: seq<string>, i: nat, j: nat): (r: seq<Hit>)
    requires i < |drugs| && j <= |drugs|
    ensures |r| <= |drugs| - j
    ensures forall h :: h in r <==>
              h.i == i && j <= h.j < |drugs| && Lookup(rules, LowerStr(drugs[i]), LowerStr(drugs[h.j])) == Some(h.warning)
    ensures forall a, b :: 0 <= a < b < |r| ==> r[a].j < r[b].j
    decreases |drugs| - j
  {
    if j == |drugs| then []
    else
      var rest := Row(rules, drugs, i, j + 1);
      assert forall b :: 0 <= b < |rest| ==> rest[b] in rest;
      match Lookup(rules, LowerStr(drugs[i]), LowerStr(drugs[j]))
      case Some(w) => [Hit(i, j, w)] + rest
      case None => rest
  }

  /** The hits `(i, j)` with `from <= i < j < |drugs|`, in lexicographic
      order. */
  function Pairs(rules: map<string, map<string, Warning>>, drugs: seq<string>, from: nat): (r: seq<Hit>)
    requires from <= |drugs|
    ensures forall h :: h in r <==>
              from <= h.i < h.j < |drugs| && Lookup(rules, LowerStr(drugs[h.i]), LowerStr(drugs[h.j])) == Some(h.warning)
    ensures forall a, b :: 0 <= a < b < |r| ==> Before(r[a], r[b])
    // never more than one warning per unordered pair
    ensures 2 * |r| <= (|drugs| - from) * (|drugs| - from - 1)
    decreases |drugs| - from
  {
    if from == |drugs| then []
    else
      var row := Row(rules, drugs, from, from + 1);
      var rest := Pairs(rules, drugs, from + 1);
      PairCount(|drugs| - from, |row|, |rest|);
      RowThenRest(row, rest, from);
      row + rest
  }

  /** A row of hits at position `from` followed by hits at later positions
      is in lexicographic order. */
  lemma RowThenRest(row: seq<Hit>, rest: seq<Hit>, from: int)
    requires forall h :: h in row ==> h.i == from
    requires forall a, b :: 0 <= a < b < |row| ==> row[a].j < row[b].j
    requires forall h :: h in rest ==> h.i > from
    requires forall a, b :: 0 <= a < b < |rest| ==> Before(rest[a], rest[b])
    ensures forall a, b :: 0 <= a < b < |row + rest| ==> Before((row + rest)[a], (row + rest)[b])
  {
    var r := row + rest;
    forall a, b | 0 <= a < b < |r| ensures Before(r[a], r[b]) {
      if b < |row| {
        assert r[a] == row[a] && r[b] == row[b];
        assert row[a] in row && row[b] in row;
      } else if a < |row| {
        assert r[a] == row[a] && r[b] == rest[b - |row|];
        assert row[a] in row && rest[b - |row|] in rest;
      } else {
        assert r[a] == rest[a - |row|] && r[b] == rest[b - |row|];
      }
    }
  }

  /** At most `m - 1` hits in the first row and one per unordered pair of
      the remaining `m - 1` positions after it. */
  lemma PairCount(m: int, rowHits: int, restHits: int)
    requires 1 <= m && rowHits <= m - 1 && 2 * restHits <= (m - 1) * (m - 2)
    ensures 2 * (rowHits + restHits) <= m * (m - 1)
  {
    assert (m - 1) * (m - 2) + 2 * (m - 1) == m * (m - 1);
  }

  function Reports(drugs: seq<string>, hs: seq<Hit>): (r: seq<Report>)
    requires forall k :: 0 <= k < |hs| ==> 0 <= hs[k].i < |drugs| && 0 <= hs[k].j < |drugs|
    ensures |r| == |hs|
    ensures forall k :: 0 <= k < |hs| ==> r[k] == Report([drugs[hs[k].i], drugs[hs[k].j]], hs[k].warning)
  {
    if |hs| == 0 then []
    else [Report([drugs[hs[0].i], drugs[hs[0].j]], hs[0].warning)] + Reports(drugs, hs[1..])
  }

  /** `InteractionEngine.check(drugs)` against a rule table. */
  function CheckWith(rules: map<string, map<string, Warning>>, drugs: seq<string>): (r: seq<Report>)
    // one report per firing pair i < j, in (i, j) order, spelled as given
    ensures var hs := Pairs(rules, drugs, 0);
            |r| == |hs|
            && forall k :: 0 <= k < |hs| ==>
                 0 <= hs[k].i < hs[k].j < |drugs|
                 && r[k].drugs == [drugs[hs[k].i], drugs[hs[k].j]]
                 && Some(r[k].warning) == Lookup(rules, LowerStr(drugs[hs[k].i]), LowerStr(drugs[hs[k].j]))
    ensures 2 * |r| <= |drugs| * (|drugs| - 1)
  {
    var hs := Pairs(rules, drugs, 0);
    assert forall k :: 0 <= k < |hs| ==> hs[k] in hs;
    Reports(drugs, hs)
  }

  function Check(drugs: seq<string>): (r: seq<Report>)
    ensures 2 * |r| <= |drugs| * (|drugs| - 1)
  {
    CheckWith(Rules(), drugs)
  }

  /** Fewer than two drugs give no warnings. */
  lemma FewerThanTwoDrugs(rules: map<string, map<string, Warning>>, drugs: seq<string>)
    requires |drugs| < 2
    ensures CheckWith(rules, drugs) == []
  {
  }

  /** The lookup sees only the lower-cased names: renaming drugs to other
      spellings of the same names finds the same pairs. */
  lemma {:induction false} PairsIgnoreCase(rules: map<string, map<string, Warning>>, drugs: seq<string>, other: seq<string>)
    requires |drugs| == |other|
    requires forall k :: 0 <= k < |drugs| ==> LowerStr(drugs[k]) == LowerStr(other[k])
    ensures Pairs(rules, drugs, 0) == Pairs(rules, other, 0)
  {
    PairsIgnoreCaseFrom(rules, drugs, other, 0);
  }

  lemma {:induction false} PairsIgnoreCaseFrom(rules: map<string, map<string, Warning>>, drugs: seq<string>, other: seq<string>, from: nat)
    requires |drugs| == |other| && from <= |drugs|
    requires forall k :: 0 <= k < |drugs| ==> LowerStr(drugs[k]) == LowerStr(other[k])
    ensures Pairs(rules, drugs, from) == Pairs(rules, other, from)
    decreases |drugs| - from
  {
    if from < |drugs| {
      RowIgnoresCase(rules, drugs, other, from, from + 1);
      PairsIgnoreCaseFrom(rules, drugs, other, from + 1);
    }
  }

  lemma {:induction false} RowIgnoresCase(rules: map<string, map<string, Warning>>, drugs: seq<string>, other: seq<string>, i: nat, j: nat)
    requires |drugs| == |other| && i < |drugs| && j <= |drugs|
    requires forall k :: 0 <= k < |drugs| ==> LowerStr(drugs[k]) == LowerStr(other[k])
    ensures Row(rules, drugs, i, j) == Row(rules, other, i, j)
    decreases |drugs| - j
  {
    if j < |drugs| {
      RowIgnoresCase(rules, drugs, other, i, j + 1);
    }
  }

  lemma LowerAspirin()
    ensures LowerStr("Aspirin") == "aspirin" && LowerStr("aspirin") == "aspirin"
  {
    var rest := "spirin";
    assert forall i :: 0 <= i < |rest| ==> IsLowerLetter(rest[i]);
    LowerCapitalised('A', rest);
    AspirinSpelling();
  }

  lemma AspirinSpelling()
    ensures ['A'] + "spirin" == "Aspirin" && [Lower('A')] + "spirin" == "aspirin"
  {
  }

  lemma LowerIbuprofen()
    ensures LowerStr("ibuprofen") == "ibuprofen"
  {
    var s := "ibuprofen";
    assert forall i :: 0 <= i < |s| ==> IsLowerLetter(s[i]);
    LowerOfNoUpper(s);
  }

  lemma LowerWarfarin()
    ensures LowerStr("Warfarin") == "warfarin" && LowerStr("warfarin") == "warfarin"
  {
    var rest := "arfarin";
    assert forall i :: 0 <= i < |rest| ==> IsLowerLetter(rest[i]);
    LowerCapitalised('W', rest);
    WarfarinSpelling();
  }

  lemma WarfarinSpelling()
    ensures ['W'] + "arfarin" == "Warfarin" && [Lower('W')] + "arfarin" == "warfarin"
  {
  }

  /** A two-drug check reports the one pair when a rule fires. */
  lemma TwoDrugs(rules: map<string, map<string, Warning>>, a: string, b: string, w: Warning)
    requires Lookup(rules, LowerStr(a), LowerStr(b)) == Some(w)
    ensures CheckWith(rules, [a, b]) == [Report([a, b], w)]
  {
    var drugs := [a, b];
    assert Row(rules, drugs, 1, 2) == [];
    assert Pairs(rules, drugs, 1) == [];
    assert Row(rules, drugs, 0, 2) == [];
    assert Row(rules, drugs, 0, 1) == [Hit(0, 1, w)];
    assert Pairs(rules, drugs, 0) == [Hit(0, 1, w)];
  }

  /** `Check` on two drugs whose lower-cased names the table pairs. */
  lemma CheckTwo(a: string, b: string, w: Warning)
    requires Lookup(Rules(), LowerStr(a), LowerStr(b)) == Some(w)
    ensures Check([a, b]) == [Report([a, b], w)]
  {
    TwoDrugs(Rules(), a, b, w);
  }

  lemma RuleAspirinWarfarin()
    ensures Lookup(Rules(), "aspirin", "warfarin") == Some(AspirinWarfarin)
    ensures Lookup(Rules(), "warfarin", "aspirin") == Some(AspirinWarfarin)
  {
    assert "warfarin" !in Rules();
  }

  lemma RuleAspirinIbuprofen()
    ensures Lookup(Rules(), "aspirin", "ibuprofen") == Some(AspirinIbuprofen)
  {
  }

  /** Aspirin with warfarin is a high-severity interaction whichever comes
      first and however it is capitalised, and the report keeps the
      caller's spelling. */
  lemma AspirinWarfarinIsHigh()
    ensures Check(["Aspirin", "Warfarin"]) == [Report(["Aspirin", "Warfarin"], AspirinWarfarin)]
    ensures AspirinWarfarin.severity == "High"
  {
    LowerAspirin();
    LowerWarfarin();
    RuleAspirinWarfarin();
    CheckTwo("Aspirin", "Warfarin", AspirinWarfarin);
  }

  lemma WarfarinAspirinIsHigh()
    ensures Check(["warfarin", "aspirin"]) == [Report(["warfarin", "aspirin"], AspirinWarfarin)]
  {
    LowerAspirin();
    LowerWarfarin();
    RuleAspirinWarfarin();
    CheckTwo("warfarin", "aspirin", AspirinWarfarin);
  }

  lemma AspirinIbuprofenIsModerate()
    ensures Check(["aspirin", "ibuprofen"]) == [Report(["aspirin", "ibuprofen"], AspirinIbuprofen)]
    ensures AspirinIbuprofen.severity == "Moderate"
  {
    LowerAspirin();
    LowerIbuprofen();
    RuleAspirinIbuprofen();
    CheckTwo("aspirin", "ibuprofen", AspirinIbuprofen);
  }

  /** No rule pairs a drug with itself. */
  lemma NoSelfInteraction(d: string)
    ensures Check([d, d]) == []
  {
    var l := LowerStr(d);
    assert Lookup(Rules(), l, l).None? by {
      if l == "aspirin" {
        assert "aspirin" !in Rules()["aspirin"];
      }
    }
    assert Row(Rules(), [d, d], 0, 1) == [];
    assert Pairs(Rules(), [d, d], 0) == [];
  }
}
