/** The record types of medkit (medkit/models.py), as immutable values.

    `ClinicalTrial` also carries `interventions`, `recruiting` and
    `description`, and `ClinicalConclusion` is declared here, because the
    evidence engine reads and builds them although medkit/models.py does
    not declare them.  Their defaults are the ones a parser that does not
    set them leaves: no interventions, not recruiting, no description.
 */
module Models {
  import opened Wrappers
  import opened Text

  datatype SearchMetadata = SearchMetadata(
    queryTime: nat,          // elapsed clock ticks
    sources: seq<string>,
    cached: bool)

  datatype DrugInfo = DrugInfo(
    brandName: string,
    genericName: string,
    warnings: seq<string>,
    manufacturer: Option<string>)

  /** `paperAbstract` is the paper's `abstract`.  It is optional here;
      the declared model insists on a string, which is checked where
      records are validated. */
  datatype ResearchPaper = ResearchPaper(
    pmid: string,
    title: string,
    authors: seq<string>,
    journal: string,
    year: Option<int>,
    paperAbstract: Option<string>)

  datatype ClinicalTrial = ClinicalTrial(
    nctId: string,
    title: string,
    status: string,
    phase: seq<string>,
    location: seq<string>,
    eligibility: string,
    interventions: seq<string>,
    recruiting: bool,
    description: Option<string>)

  datatype DrugExplanation = DrugExplanation(
    drugInfo: Option<DrugInfo>,
    papers: seq<ResearchPaper>,
    trials: seq<ClinicalTrial>)

  datatype SearchResults = SearchResults(
    drugs: seq<DrugInfo>,
    papers: seq<ResearchPaper>,
    trials: seq<ClinicalTrial>,
    metadata: Option<SearchMetadata>)

  datatype ConditionSummary = ConditionSummary(
    condition: string,
    drugs: seq<string>,
    papers: seq<ResearchPaper>,
    trials: seq<ClinicalTrial>)

  datatype EvidenceCount = EvidenceCount(trials: nat, papers: nat, drugs: nat)

  datatype ClinicalConclusion = ClinicalConclusion(
    query: string,
    summary: string,
    confidenceScore: int,    // hundredths
    evidenceCount: EvidenceCount,
    topInterventions: seq<string>,
    suggestedTrials: seq<string>)

  // ---------------------------------------------------------------------
  // Defaults of the optional fields

  function NewSearchResults(): SearchResults {
    SearchResults([], [], [], None)
  }

  function NewSearchMetadata(queryTime: nat): SearchMetadata {
    SearchMetadata(queryTime, [], false)
  }

  function NewDrugExplanation(): DrugExplanation {
    DrugExplanation(None, [], [])
  }

  /** A trial as the registry parser builds it: the engine-only fields
      keep their defaults. */
  function NewTrial(nctId: string, title: string, status: string, phase: seq<string>,
                    location: seq<string>, eligibility: string): ClinicalTrial {
    ClinicalTrial(nctId, title, status, phase, location, eligibility, [], false, None)
  }

  // ---------------------------------------------------------------------
  // Record URLs

  const PubMedBase := "https://pubmed.ncbi.nlm.nih.gov/"
  const TrialBase := "https://clinicaltrials.gov/study/"

  /** `ResearchPaper.url`. */
  function PaperUrl(p: ResearchPaper): (r: string)
    ensures StartsWith(r, PubMedBase) && |r| == |PubMedBase| + |p.pmid| + 1 && r[|r| - 1] == '/'
  {
    PubMedBase + p.pmid + "/"
  }

  /** The PubMed id a paper URL names, if it is one. */
  function PmidOfUrl(url: string): (r: Option<string>)
    ensures r.Some? ==> url == PubMedBase + r.value + "/"
  {
    if |url| >= |PubMedBase| + 1 && StartsWith(url, PubMedBase) && url[|url| - 1] == '/' then
      assert url == url[..|PubMedBase|] + url[|PubMedBase|..|url| - 1] + [url[|url| - 1]];
      Some(url[|PubMedBase|..|url| - 1])
    else None
  }

  /** A paper URL gives back the paper's id, so distinct ids give distinct URLs. */
  lemma PaperUrlRoundTrip(p: ResearchPaper)
    ensures PmidOfUrl(PaperUrl(p)) == Some(p.pmid)
  {
    var u := PaperUrl(p);
    assert u[|PubMedBase|..|u| - 1] == p.pmid;
  }

  /** `ClinicalTrial.url`. */
  function TrialUrl(t: ClinicalTrial): (r: string)
    ensures StartsWith(r, TrialBase) && |r| == |TrialBase| + |t.nctId|
  {
    TrialBase + t.nctId
  }

  function NctIdOfUrl(url: string): (r: Option<string>)
    ensures r.Some? ==> url == TrialBase + r.value
  {
    if StartsWith(url, TrialBase) then
      assert url == url[..|TrialBase|] + url[|TrialBase|..];
      Some(url[|TrialBase|..])
    else None
  }

  lemma TrialUrlRoundTrip(t: ClinicalTrial)
    ensures NctIdOfUrl(TrialUrl(t)) == Some(t.nctId)
  {
    var u := TrialUrl(t);
    assert u[|TrialBase|..] == t.nctId;
  }
}
