/** The synchronous `MedKit` client (medkit/client.py): the provider
    registry, classification of provider failures, the sequential search
    across the three built-in sources with per-source failure isolation,
    the relationship graph of a search, and `conclude`.

    A provider's network behaviour is abstract: its health probe has an
    outcome, and its search is a function from the query to an outcome.
 */
module Client {
  import opened Wrappers
  import opened Text
  import opened Models
  import Graph
  import Synthesis

  /** A record a provider hands back. */
  datatype Record = DrugRec(drug: DrugInfo) | PaperRec(paper: ResearchPaper) | TrialRec(trial: ClinicalTrial)

  /** A value returned by a provider's `search_sync`: `None`, a list, a
      single record (truthy), or some other falsy value. */
  datatype Payload = PyNone | PyList(items: seq<Record>) | PyRecord(item: Record) | PyFalsy

  datatype Answer = Raises(error: PyError) | Returns(payload: Payload)

  /** The outcome of `health_check()`. */
  datatype Probe = Healthy | Unhealthy | ProbeRaises(error: PyError)

  /** `name` is `None` when the attribute is missing or `None`. */
  datatype Provider = Provider(name: Option<string>, probe: Probe, search: string -> Answer)

  /** Registered providers in registration order; a name occurs once. */
  type Registry = seq<(string, Provider)>

  function Keys(reg: Registry): (ks: seq<string>)
    ensures |ks| == |reg| && forall i :: 0 <= i < |reg| ==> ks[i] == reg[i].0
  {
    if |reg| == 0 then [] else [reg[0].0] + Keys(reg[1..])
  }

  predicate DistinctKeys(reg: Registry) {
    forall i, j :: 0 <= i < j < |reg| ==> reg[i].0 != reg[j].0
  }

  /** `self._providers.get(name)`. */
  function Lookup(reg: Registry, name: string): (r: Option<Provider>)
    ensures r.None? <==> name !in Keys(reg)
    ensures r.Some? ==> exists i :: 0 <= i < |reg| && reg[i] == (name, r.value)
  {
    if |reg| == 0 then None
    else if reg[0].0 == name then Some(reg[0].1)
    else
      var r := Lookup(reg[1..], name);
      assert r.Some? ==> exists i :: 1 <= i < |reg| && reg[i] == (name, r.value) by {
        if r.Some? {
          var i :| 0 <= i < |reg[1..]| && reg[1..][i] == (name, r.value);
          assert reg[i + 1] == reg[1..][i];
        }
      }
      r
  }

  /** Dictionary assignment: an existing name keeps its place. */
  function Put(reg: Registry, name: string, p: Provider): (r: Registry)
    ensures Keys(r) == if name in Keys(reg) then Keys(reg) else Keys(reg) + [name]
  {
    if |reg| == 0 then [(name, p)]
    else if reg[0].0 == name then [(name, p)] + reg[1..]
    else
      var rest := Put(reg[1..], name, p);
      assert Keys(reg) == [reg[0].0] + Keys(reg[1..]);
      [reg[0]] + rest
  }

  lemma {:induction false} PutDistinct(reg: Registry, name: string, p: Provider)
    requires DistinctKeys(reg)
    ensures DistinctKeys(Put(reg, name, p))
  {
    if |reg| > 0 && reg[0].0 != name {
      PutDistinct(reg[1..], name, p);
      var rest := Put(reg[1..], name, p);
      var r := Put(reg, name, p);
      assert r == [reg[0]] + rest;
      assert reg[0].0 !in Keys(reg[1..]) by {
        forall k | 0 <= k < |reg[1..]| ensures Keys(reg[1..])[k] != reg[0].0 {
          assert reg[1..][k] == reg[k + 1];
        }
      }
      assert reg[0].0 !in Keys(rest);
      forall i, j | 0 <= i < j < |r| ensures r[i].0 != r[j].0 {
        assert r[j] == rest[j - 1];
        if i == 0 {
          assert r[j].0 == Keys(rest)[j - 1];
        } else {
          assert r[i] == rest[i - 1];
        }
      }
    } else if |reg| > 0 {
      var r := Put(reg, name, p);
      assert r[1..] == reg[1..];
    }
  }

  lemma {:induction false} PutLookup(reg: Registry, name: string, p: Provider, other: string)
    ensures Lookup(Put(reg, name, p), name) == Some(p)
    ensures other != name ==> Lookup(Put(reg, name, p), other) == Lookup(reg, other)
  {
    if |reg| > 0 && reg[0].0 != name {
      PutLookup(reg[1..], name, p, other);
      assert Put(reg, name, p)[1..] == Put(reg[1..], name, p);
    } else if |reg| > 0 {
      assert Put(reg, name, p)[1..] == reg[1..];
    }
  }

  /** `register_provider`: a provider without a non-empty name is refused
      with `PluginError`; otherwise it is stored under its name, replacing
      any earlier provider of that name in place. */
  function RegisterProvider(reg: Registry, p: Provider): (r: Result<Registry>)
    requires DistinctKeys(reg)
    ensures r.Err? <==> p.name.None? || p.name.value == ""
    ensures r.Err? ==> r.error.PluginError?
    ensures r.Ok? ==> DistinctKeys(r.value)
    ensures r.Ok? ==> Lookup(r.value, p.name.value) == Some(p)
    ensures r.Ok? ==> forall n :: n != p.name.value ==> Lookup(r.value, n) == Lookup(reg, n)
    ensures r.Ok? ==> Keys(r.value) == if p.name.value in Keys(reg) then Keys(reg) else Keys(reg) + [p.name.value]
  {
    if p.name.None? || p.name.value == "" then
      Err(PluginError("Provider must have a non-empty 'name' attribute."))
    else
      var name := p.name.value;
      PutDistinct(reg, name, p);
      PutLookup(reg, name, p, name);
      forall n | n != name ensures Lookup(Put(reg, name, p), n) == Lookup(reg, n) {
        PutLookup(reg, name, p, n);
      }
      Ok(Put(reg, name, p))
  }

  /** `_get_provider`. */
  function GetProvider(reg: Registry, name: string): (r: Result<Provider>)
    ensures r.Ok? <==> name in Keys(reg)
    ensures r.Ok? ==> Lookup(reg, name) == Some(r.value)
    ensures r.Err? ==> r.error == PluginError("Provider '" + name + "' not registered.")
  {
    match Lookup(reg, name)
    case Some(p) => Ok(p)
    case None => Err(PluginError("Provider '" + name + "' not registered."))
  }

  /** A registered provider is found under its name. */
  lemma RegisterThenGet(reg: Registry, p: Provider)
    requires DistinctKeys(reg) && p.name.Some? && p.name.value != ""
    ensures GetProvider(RegisterProvider(reg, p).value, p.name.value) == Ok(p)
  {
  }

  // ---------------------------------------------------------------------
  // Error classification

  predicate IsMedKitError(e: PyError) {
    e.PluginError? || e.ApiError? || e.RateLimitError? || e.NotFoundError?
  }

  /** `_handle_provider_error`: the error it raises for `e`.  `detail` is
      the text of the original error. */
  function HandleProviderError(providerName: string, e: PyError, detail: string): (r: PyError)
    ensures IsMedKitError(e) ==> r == e
    ensures r.RateLimitError? <==> e.RateLimitError? || e == TransportError(HttpStatus(429))
    ensures e == TransportError(ConnectFailure) || e == TransportError(Timeout) ==>
              r == ApiError("Connection failure from " + providerName + ": " + detail)
    ensures e.TransportError? && e.kind.HttpStatus? && e.kind.code != 429 ==>
              r == ApiError(providerName + " API returned " + IntToString(e.kind.code))
    // anything not recognised passes through untouched
    ensures !IsMedKitError(e) && !(e.TransportError? && !e.kind.OtherTransport?) ==> r == e
    ensures IsMedKitError(r) || r == e
  {
    match e
    case TransportError(ConnectFailure) => ApiError("Connection failure from " + providerName + ": " + detail)
    case TransportError(Timeout) => ApiError("Connection failure from " + providerName + ": " + detail)
    case TransportError(HttpStatus(code)) =>
      if code == 429 then RateLimitError("Rate limit exceeded for " + providerName)
      else ApiError(providerName + " API returned " + IntToString(code))
    case _ => e
  }

  /** Classifying an already classified error changes nothing. */
  lemma HandleProviderErrorIdempotent(providerName: string, e: PyError, detail: string, detail2: string)
    ensures HandleProviderError(providerName, HandleProviderError(providerName, e, detail), detail2)
         == HandleProviderError(providerName, e, detail)
  {
  }

  // ---------------------------------------------------------------------
  // Search

  /** The built-in sources, in the order `search` calls them. */
  const CallOrder: seq<string> := ["openfda", "pubmed", "clinicaltrials"]

  /** What `_safe_call(name)` returns, whether it marked the source
      offline, and whether it invoked the provider's search. */
  datatype Call = Call(payload: Payload, offline: bool, invoked: bool)

  /** The source is missing, unhealthy, its probe raised, or its search
      raised. */
  predicate SourceDown(reg: Registry, name: string, query: string) {
    match Lookup(reg, name)
    case None => true
    case Some(p) => !p.probe.Healthy? || p.search(query).Raises?
  }

  /** `_safe_call`: failures of any kind are absorbed. */
  function SafeCall(reg: Registry, name: string, query: string): (c: Call)
    ensures c.offline <==> SourceDown(reg, name, query)
    ensures c.invoked <==> Lookup(reg, name).Some? && Lookup(reg, name).value.probe.Healthy?
    ensures c.offline ==> c.payload == PyList([])
    ensures !c.offline ==> c.payload == match Lookup(reg, name).value.search(query).payload
                                        case PyNone => PyList([])
                                        case other => other
  {
    match GetProvider(reg, name)
    case Err(_) => Call(PyList([]), true, false)
    case Ok(p) =>
      if !p.probe.Healthy? then Call(PyList([]), true, false)
      else
        match p.search(query)
        case Raises(_) => Call(PyList([]), true, true)
        case Returns(res) => Call(if res.PyNone? then PyList([]) else res, false, true)
  }

  /** A list stays as it is, one truthy record becomes a one-element list,
      and a falsy value becomes the empty list. */
  function Items(p: Payload): (r: seq<Record>)
    ensures p.PyList? ==> r == p.items
    ensures p.PyRecord? ==> r == [p.item]
    ensures p.PyNone? || p.PyFalsy? ==> r == []
  {
    match p
    case PyList(xs) => xs
    case PyRecord(x) => [x]
    case _ => []
  }

  predicate AllDrugs(rs: seq<Record>) { forall i :: 0 <= i < |rs| ==> rs[i].DrugRec? }
  predicate AllPapers(rs: seq<Record>) { forall i :: 0 <= i < |rs| ==> rs[i].PaperRec? }
  predicate AllTrials(rs: seq<Record>) { forall i :: 0 <= i < |rs| ==> rs[i].TrialRec? }

  function DrugsOf(rs: seq<Record>): (r: seq<DrugInfo>)
    requires AllDrugs(rs)
    ensures |r| == |rs| && forall i :: 0 <= i < |rs| ==> rs[i] == DrugRec(r[i])
  {
    if |rs| == 0 then [] else [rs[0].drug] + DrugsOf(rs[1..])
  }

  function PapersOf(rs: seq<Record>): (r: seq<ResearchPaper>)
    requires AllPapers(rs)
    ensures |r| == |rs| && forall i :: 0 <= i < |rs| ==> rs[i] == PaperRec(r[i])
  {
    if |rs| == 0 then [] else [rs[0].paper] + PapersOf(rs[1..])
  }

  function TrialsOf(rs: seq<Record>): (r: seq<ClinicalTrial>)
    requires AllTrials(rs)
    ensures |r| == |rs| && forall i :: 0 <= i < |rs| ==> rs[i] == TrialRec(r[i])
  {
    if |rs| == 0 then [] else [rs[0].trial] + TrialsOf(rs[1..])
  }

  /** The search's results, the sources marked offline in the order they
      were called, and the sources whose search was invoked. */
  datatype SearchOutcome = SearchOutcome(results: SearchResults, offline: seq<string>, invoked: seq<string>)

  function Flag(name: string, b: bool): seq<string> { if b then [name] else [] }

  /** The built-in sources whose flag is set, in call order. */
  function Flagged(fda: bool, pubmed: bool, trials: bool): (s: seq<string>)
    ensures forall n :: n in s <==> (n == CallOrder[0] && fda) || (n == CallOrder[1] && pubmed) || (n == CallOrder[2] && trials)
    ensures forall i, j :: 0 <= i < j < |s| ==> Rank(s[i]) < Rank(s[j])
  {
    Flag(CallOrder[0], fda) + Flag(CallOrder[1], pubmed) + Flag(CallOrder[2], trials)
  }

  /** Each source's records are of the kind its slot holds; otherwise
      building `SearchResults` fails validation. */
  predicate WellTyped(reg: Registry, query: string) {
    AllDrugs(Items(SafeCall(reg, "openfda", query).payload))
    && AllPapers(Items(SafeCall(reg, "pubmed", query).payload))
    && AllTrials(Items(SafeCall(reg, "clinicaltrials", query).payload))
  }

  /** Position of a built-in source in the call order. */
  function Rank(name: string): int {
    if name == "openfda" then 0 else if name == "pubmed" then 1 else if name == "clinicaltrials" then 2 else 3
  }

  /** The built-in sources `_safe_call` marked offline, in call order. */
  function OfflineSources(reg: Registry, query: string): (s: seq<string>)
    ensures forall n :: n in s <==> n in CallOrder && SourceDown(reg, n, query)
    ensures forall i, j :: 0 <= i < j < |s| ==> Rank(s[i]) < Rank(s[j])
  {
    Flagged(SafeCall(reg, "openfda", query).offline, SafeCall(reg, "pubmed", query).offline,
            SafeCall(reg, "clinicaltrials", query).offline)
  }

  /** The built-in sources whose search was invoked, in call order. */
  function InvokedSources(reg: Registry, query: string): (s: seq<string>)
    ensures forall n :: n in s <==> n in CallOrder && Lookup(reg, n).Some? && Lookup(reg, n).value.probe.Healthy?
  {
    Flagged(SafeCall(reg, "openfda", query).invoked, SafeCall(reg, "pubmed", query).invoked,
            SafeCall(reg, "clinicaltrials", query).invoked)
  }

  /** `MedKit.search(query)`, `elapsed` being the measured query time. */
  function Search(reg: Registry, query: string, elapsed: nat): (r: Result<SearchOutcome>)
    // provider failures never escape; only mis-typed records do
    ensures r.Ok? <==> WellTyped(reg, query)
    ensures r.Err? ==> r.error == ValidationError
    ensures r.Ok? ==> r.value.results.metadata == Some(SearchMetadata(elapsed, Keys(reg), false))
    ensures r.Ok? ==> r.value.offline == OfflineSources(reg, query) && r.value.invoked == InvokedSources(reg, query)
    // an offline source contributes nothing
    ensures r.Ok? && SourceDown(reg, "openfda", query) ==> r.value.results.drugs == []
    ensures r.Ok? && SourceDown(reg, "pubmed", query) ==> r.value.results.papers == []
    ensures r.Ok? && SourceDown(reg, "clinicaltrials", query) ==> r.value.results.trials == []
  {
    var fda := Items(SafeCall(reg, "openfda", query).payload);
    var pub := Items(SafeCall(reg, "pubmed", query).payload);
    var ct := Items(SafeCall(reg, "clinicaltrials", query).payload);
    var metadata := SearchMetadata(elapsed, Keys(reg), false);
    if AllDrugs(fda) && AllPapers(pub) && AllTrials(ct) then
      Ok(SearchOutcome(SearchResults(DrugsOf(fda), PapersOf(pub), TrialsOf(ct), Some(metadata)),
                       OfflineSources(reg, query), InvokedSources(reg, query)))
    else
      Err(ValidationError)
  }

  function DrugRecords(ds: seq<DrugInfo>): (rs: seq<Record>)
    ensures |rs| == |ds| && forall i :: 0 <= i < |ds| ==> rs[i] == DrugRec(ds[i])
  {
    if |ds| == 0 then [] else [DrugRec(ds[0])] + DrugRecords(ds[1..])
  }

  /** Unwrapping wrapped drugs gives them back. */
  lemma DrugsOfRecords(ds: seq<DrugInfo>)
    ensures AllDrugs(DrugRecords(ds)) && DrugsOf(DrugRecords(ds)) == ds
  {
    var got := DrugsOf(DrugRecords(ds));
    forall i | 0 <= i < |ds| ensures got[i] == ds[i] {
      assert DrugRecords(ds)[i] == DrugRec(got[i]);
    }
  }

  function PaperRecords(ps: seq<ResearchPaper>): (rs: seq<Record>)
    ensures |rs| == |ps| && forall i :: 0 <= i < |ps| ==> rs[i] == PaperRec(ps[i])
  {
    if |ps| == 0 then [] else [PaperRec(ps[0])] + PaperRecords(ps[1..])
  }

  lemma PapersOfRecords(ps: seq<ResearchPaper>)
    ensures AllPapers(PaperRecords(ps)) && PapersOf(PaperRecords(ps)) == ps
  {
    var got := PapersOf(PaperRecords(ps));
    forall i | 0 <= i < |ps| ensures got[i] == ps[i] {
      assert PaperRecords(ps)[i] == PaperRec(got[i]);
    }
  }

  function TrialRecords(ts: seq<ClinicalTrial>): (rs: seq<Record>)
    ensures |rs| == |ts| && forall i :: 0 <= i < |ts| ==> rs[i] == TrialRec(ts[i])
  {
    if |ts| == 0 then [] else [TrialRec(ts[0])] + TrialRecords(ts[1..])
  }

  lemma TrialsOfRecords(ts: seq<ClinicalTrial>)
    ensures AllTrials(TrialRecords(ts)) && TrialsOf(TrialRecords(ts)) == ts
  {
    var got := TrialsOf(TrialRecords(ts));
    forall i | 0 <= i < |ts| ensures got[i] == ts[i] {
      assert TrialRecords(ts)[i] == TrialRec(got[i]);
    }
  }

  /** Every source's records, whatever it returned, reach the results
      unchanged and in order: re-wrapping each slot gives back exactly the
      records its source's call produced. */
  lemma SearchKeepsRecords(reg: Registry, query: string, elapsed: nat)
    requires WellTyped(reg, query)
    ensures Search(reg, query, elapsed).Ok?
    ensures DrugRecords(Search(reg, query, elapsed).value.results.drugs) == Items(SafeCall(reg, "openfda", query).payload)
    ensures PaperRecords(Search(reg, query, elapsed).value.results.papers) == Items(SafeCall(reg, "pubmed", query).payload)
    ensures TrialRecords(Search(reg, query, elapsed).value.results.trials) == Items(SafeCall(reg, "clinicaltrials", query).payload)
  {
    var results := Search(reg, query, elapsed).value.results;
    var fda := Items(SafeCall(reg, "openfda", query).payload);
    var pub := Items(SafeCall(reg, "pubmed", query).payload);
    var ct := Items(SafeCall(reg, "clinicaltrials", query).payload);
    assert DrugRecords(results.drugs) == fda;
    assert PaperRecords(results.papers) == pub;
    assert TrialRecords(results.trials) == ct;
  }

  /** A healthy source's records arrive unchanged and in order. */
  lemma HealthyDrugsPassThrough(reg: Registry, query: string, elapsed: nat, ds: seq<DrugInfo>)
    requires Lookup(reg, "openfda").Some? && Lookup(reg, "openfda").value.probe.Healthy?
    requires Lookup(reg, "openfda").value.search(query) == Returns(PyList(DrugRecords(ds)))
    requires WellTyped(reg, query)
    ensures Search(reg, query, elapsed).Ok?
    ensures Search(reg, query, elapsed).value.results.drugs == ds
    ensures "openfda" !in Search(reg, query, elapsed).value.offline
  {
    var c := SafeCall(reg, "openfda", query);
    assert !c.offline && c.payload == PyList(DrugRecords(ds));
    assert Items(c.payload) == DrugRecords(ds);
    DrugsOfRecords(ds);
  }

  lemma HealthyPapersPassThrough(reg: Registry, query: string, elapsed: nat, ps: seq<ResearchPaper>)
    requires Lookup(reg, "pubmed").Some? && Lookup(reg, "pubmed").value.probe.Healthy?
    requires Lookup(reg, "pubmed").value.search(query) == Returns(PyList(PaperRecords(ps)))
    requires WellTyped(reg, query)
    ensures Search(reg, query, elapsed).Ok?
    ensures Search(reg, query, elapsed).value.results.papers == ps
    ensures "pubmed" !in Search(reg, query, elapsed).value.offline
  {
    var c := SafeCall(reg, "pubmed", query);
    assert !c.offline && c.payload == PyList(PaperRecords(ps));
    assert Items(c.payload) == PaperRecords(ps);
    PapersOfRecords(ps);
  }

  lemma HealthyTrialsPassThrough(reg: Registry, query: string, elapsed: nat, ts: seq<ClinicalTrial>)
    requires Lookup(reg, "clinicaltrials").Some? && Lookup(reg, "clinicaltrials").value.probe.Healthy?
    requires Lookup(reg, "clinicaltrials").value.search(query) == Returns(PyList(TrialRecords(ts)))
    requires WellTyped(reg, query)
    ensures Search(reg, query, elapsed).Ok?
    ensures Search(reg, query, elapsed).value.results.trials == ts
    ensures "clinicaltrials" !in Search(reg, query, elapsed).value.offline
  {
    var c := SafeCall(reg, "clinicaltrials", query);
    assert !c.offline && c.payload == PyList(TrialRecords(ts));
    assert Items(c.payload) == TrialRecords(ts);
    TrialsOfRecords(ts);
  }

  /** One drug returned on its own, not in a list, arrives as a one-drug
      list; `None` arrives as an empty list without marking the source
      offline. */
  lemma SingleRecordAndNone(reg: Registry, query: string, elapsed: nat, d: DrugInfo)
    requires Lookup(reg, "openfda").Some? && Lookup(reg, "openfda").value.probe.Healthy?
    requires WellTyped(reg, query)
    ensures Lookup(reg, "openfda").value.search(query) == Returns(PyRecord(DrugRec(d))) ==>
              Search(reg, query, elapsed).value.results.drugs == [d]
    ensures Lookup(reg, "openfda").value.search(query) == Returns(PyNone) ==>
              Search(reg, query, elapsed).value.results.drugs == []
              && "openfda" !in Search(reg, query, elapsed).value.offline
  {
  }

  // A worked outage: the drug source is down, the paper source raises,
  // the trial source was never registered and a plug-in answers.

  function DownProvider(name: string): Provider {
    Provider(Some(name), Unhealthy, _ => Returns(PyNone))
  }

  function FailingProvider(name: string): Provider {
    Provider(Some(name), Healthy, _ => Raises(TransportError(Timeout)))
  }

  function AnsweringProvider(name: string): Provider {
    Provider(Some(name), Healthy, _ => Returns(PyFalsy))
  }

  function OutageRegistry(): Registry {
    [("openfda", DownProvider("openfda")), ("pubmed", FailingProvider("pubmed")),
     ("plugin", AnsweringProvider("plugin"))]
  }

  lemma OutageLookups()
    ensures Keys(OutageRegistry()) == ["openfda", "pubmed", "plugin"]
    ensures Lookup(OutageRegistry(), "openfda") == Some(DownProvider("openfda"))
    ensures Lookup(OutageRegistry(), "pubmed") == Some(FailingProvider("pubmed"))
    ensures Lookup(OutageRegistry(), "clinicaltrials").None?
  {
    assert "clinicaltrials" !in Keys(OutageRegistry());
  }

  lemma OutageCalls(query: string)
    ensures SafeCall(OutageRegistry(), "openfda", query) == Call(PyList([]), true, false)
    ensures SafeCall(OutageRegistry(), "pubmed", query) == Call(PyList([]), true, true)
    ensures SafeCall(OutageRegistry(), "clinicaltrials", query) == Call(PyList([]), true, false)
  {
    OutageLookups();
  }

  lemma OutageScenario(query: string, elapsed: nat)
    ensures var r := Search(OutageRegistry(), query, elapsed);
            r.Ok?
            && r.value.offline == ["openfda", "pubmed", "clinicaltrials"]
            && r.value.invoked == ["pubmed"]
            && r.value.results.drugs == [] && r.value.results.papers == [] && r.value.results.trials == []
            && r.value.results.metadata == Some(SearchMetadata(elapsed, ["openfda", "pubmed", "plugin"], false))
  {
    OutageLookups();
    OutageSources(query);
  }

  lemma OutageSources(query: string)
    ensures WellTyped(OutageRegistry(), query)
    ensures SourceDown(OutageRegistry(), "openfda", query) && SourceDown(OutageRegistry(), "pubmed", query)
            && SourceDown(OutageRegistry(), "clinicaltrials", query)
    ensures OfflineSources(OutageRegistry(), query) == ["openfda", "pubmed", "clinicaltrials"]
    ensures InvokedSources(OutageRegistry(), query) == ["pubmed"]
  {
    OutageCalls(query);
    assert Flagged(true, true, true) == ["openfda", "pubmed", "clinicaltrials"];
    assert Flagged(false, true, false) == ["pubmed"];
  }

  // ---------------------------------------------------------------------
  // The relationship graph of a search

  /** A drug intervenes in a trial when its lower-cased brand name occurs
      in one of the trial's lower-cased interventions. */
  predicate Intervenes(d: DrugInfo, t: ClinicalTrial) {
    exists i :: 0 <= i < |t.interventions| && Contains(LowerStr(t.interventions[i]), LowerStr(d.brandName))
  }

  function TrialLabel(t: ClinicalTrial): string { if t.title == "" then t.nctId else t.title }

  const Relationship := "intervenes"

  function DrugRequests(drugs: seq<DrugInfo>): (r: seq<Graph.NodeRequest>)
    ensures |r| == |drugs|
    ensures forall i :: 0 <= i < |drugs| ==> r[i] == Graph.NodeRequest(drugs[i].brandName, drugs[i].brandName, "drug")
  {
    if |drugs| == 0 then [] else [Graph.NodeRequest(drugs[0].brandName, drugs[0].brandName, "drug")] + DrugRequests(drugs[1..])
  }

  function PaperRequests(papers: seq<ResearchPaper>): (r: seq<Graph.NodeRequest>)
    ensures |r| == |papers|
    ensures forall i :: 0 <= i < |papers| ==> r[i] == Graph.NodeRequest(papers[i].pmid, papers[i].title, "paper")
  {
    if |papers| == 0 then [] else [Graph.NodeRequest(papers[0].pmid, papers[0].title, "paper")] + PaperRequests(papers[1..])
  }

  function TrialRequests(trials: seq<ClinicalTrial>): (r: seq<Graph.NodeRequest>)
    ensures |r| == |trials|
    ensures forall i :: 0 <= i < |trials| ==> r[i] == Graph.NodeRequest(trials[i].nctId, TrialLabel(trials[i]), "trial")
  {
    if |trials| == 0 then [] else [Graph.NodeRequest(trials[0].nctId, TrialLabel(trials[0]), "trial")] + TrialRequests(trials[1..])
  }

  /** Every node the graph of `results` asks for, in the order asked. */
  function NodeRequests(results: SearchResults): seq<Graph.NodeRequest> {
    DrugRequests(results.drugs) + PaperRequests(results.papers) + TrialRequests(results.trials)
  }

  predicate AllIntervenes(edges: seq<Graph.Edge>) {
    forall i :: 0 <= i < |edges| ==> edges[i].relationship == Relationship
  }

  /** Some drug of `drugs` with brand name `s` intervenes in `t`. */
  predicate Intervener(drugs: seq<DrugInfo>, t: ClinicalTrial, s: string) {
    exists i :: 0 <= i < |drugs| && drugs[i].brandName == s && Intervenes(drugs[i], t)
  }

  /** Some trial of `trials` with id `x` has an intervener named `s`. */
  predicate Linked(trials: seq<ClinicalTrial>, drugs: seq<DrugInfo>, s: string, x: string) {
    exists j :: 0 <= j < |trials| && trials[j].nctId == x && Intervener(drugs, trials[j], s)
  }

  lemma IntervenerSplit(drugs: seq<DrugInfo>, t: ClinicalTrial, s: string)
    requires |drugs| > 0
    ensures Intervener(drugs, t, s) <==>
              (drugs[0].brandName == s && Intervenes(drugs[0], t)) || Intervener(drugs[1..], t, s)
  {
    if Intervener(drugs, t, s) {
      var i :| 0 <= i < |drugs| && drugs[i].brandName == s && Intervenes(drugs[i], t);
      if i > 0 {
        assert drugs[1..][i - 1] == drugs[i];
      }
    }
    if Intervener(drugs[1..], t, s) {
      var i :| 0 <= i < |drugs[1..]| && drugs[1..][i].brandName == s && Intervenes(drugs[1..][i], t);
      assert drugs[i + 1] == drugs[1..][i];
    }
  }

  lemma LinkedSplit(trials: seq<ClinicalTrial>, drugs: seq<DrugInfo>, s: string, x: string)
    requires |trials| > 0
    ensures Linked(trials, drugs, s, x) <==>
              (trials[0].nctId == x && Intervener(drugs, trials[0], s)) || Linked(trials[1..], drugs, s, x)
  {
    if Linked(trials, drugs, s, x) {
      var j :| 0 <= j < |trials| && trials[j].nctId == x && Intervener(drugs, trials[j], s);
      if j > 0 {
        assert trials[1..][j - 1] == trials[j];
      }
    }
    if Linked(trials[1..], drugs, s, x) {
      var j :| 0 <= j < |trials[1..]| && trials[1..][j].nctId == x && Intervener(drugs, trials[1..][j], s);
      assert trials[j + 1] == trials[1..][j];
    }
  }

  /** The edges from the drugs that intervene in trial `t`. */
  function AddDrugEdges(g: Graph.MedicalGraph, t: ClinicalTrial, drugs: seq<DrugInfo>): (r: Graph.MedicalGraph)
    ensures r.nodes == g.nodes
    ensures Graph.UniqueEndpoints(g.edges) ==> Graph.UniqueEndpoints(r.edges)
    ensures AllIntervenes(g.edges) ==> AllIntervenes(r.edges)
    ensures forall s, x :: Graph.HasEdge(r, s, x) <==> Graph.HasEdge(g, s, x) || (x == t.nctId && Intervener(drugs, t, s))
    decreases |drugs|
  {
    if |drugs| == 0 then g
    else
      var d := drugs[0];
      var g1 := if Intervenes(d, t) then Graph.AddEdge(g, d.brandName, t.nctId, Relationship) else g;
      var r := AddDrugEdges(g1, t, drugs[1..]);
      assert AllIntervenes(g.edges) ==> AllIntervenes(g1.edges);
      assert forall s, x :: Graph.HasEdge(r, s, x) <==> Graph.HasEdge(g, s, x) || (x == t.nctId && Intervener(drugs, t, s)) by {
        forall s, x
          ensures Graph.HasEdge(r, s, x) <==> Graph.HasEdge(g, s, x) || (x == t.nctId && Intervener(drugs, t, s))
        {
          IntervenerSplit(drugs, t, s);
          Graph.EdgesAfterAddEdge(g, d.brandName, t.nctId, Relationship, s, x);
        }
      }
      r
  }

  /** Each trial's node, then its edges. */
  function AddTrials(g: Graph.MedicalGraph, trials: seq<ClinicalTrial>, drugs: seq<DrugInfo>): (r: Graph.MedicalGraph)
    ensures r.nodes == Graph.AddNodes(g, TrialRequests(trials)).nodes
    ensures Graph.UniqueEndpoints(g.edges) ==> Graph.UniqueEndpoints(r.edges)
    ensures AllIntervenes(g.edges) ==> AllIntervenes(r.edges)
    ensures forall s, x :: Graph.HasEdge(r, s, x) <==> Graph.HasEdge(g, s, x) || Linked(trials, drugs, s, x)
    decreases |trials|
  {
    if |trials| == 0 then g
    else
      var t := trials[0];
      var g1 := Graph.AddNode(g, t.nctId, TrialLabel(t), "trial");
      var g2 := AddDrugEdges(g1, t, drugs);
      var r := AddTrials(g2, trials[1..], drugs);
      assert TrialRequests(trials) == [TrialRequests(trials)[0]] + TrialRequests(trials[1..]);
      Graph.AddNodesOnlyNodes(g2, g1, TrialRequests(trials[1..]));
      assert forall s, x :: Graph.HasEdge(r, s, x) <==> Graph.HasEdge(g, s, x) || Linked(trials, drugs, s, x) by {
        forall s, x
          ensures Graph.HasEdge(r, s, x) <==> Graph.HasEdge(g, s, x) || Linked(trials, drugs, s, x)
        {
          LinkedSplit(trials, drugs, s, x);
        }
      }
      r
  }

  /** The graph of a search's results: one node per distinct brand name,
      pmid and nct id, the first request for an id fixing its label and
      type, and one "intervenes" edge from a brand to a trial exactly when
      that drug intervenes in a trial with that id. */
  function BuildGraph(results: SearchResults): (g: Graph.MedicalGraph)
    ensures g.nodes == Graph.AddNodes(Graph.EmptyGraph(), NodeRequests(results)).nodes
    ensures Graph.UniqueIds(g.nodes) && Graph.UniqueEndpoints(g.edges) && AllIntervenes(g.edges)
    ensures forall s, x :: Graph.HasEdge(g, s, x) <==> Linked(results.trials, results.drugs, s, x)
  {
    var g0 := Graph.AddNodes(Graph.EmptyGraph(), DrugRequests(results.drugs) + PaperRequests(results.papers));
    Graph.AddNodesKeepsIdsUnique(Graph.EmptyGraph(), DrugRequests(results.drugs) + PaperRequests(results.papers));
    var g := AddTrials(g0, results.trials, results.drugs);
    Graph.AddNodesConcat(Graph.EmptyGraph(), DrugRequests(results.drugs) + PaperRequests(results.papers), TrialRequests(results.trials));
    Graph.AddNodesKeepsIdsUnique(Graph.EmptyGraph(), NodeRequests(results));
    g
  }

  /** Node ids of the graph are exactly the requested ids, and each node
      carries the earliest request for its id. */
  lemma GraphNodesFirstWins(results: SearchResults)
    ensures forall x :: Graph.HasNode(BuildGraph(results), x) <==> Graph.FirstRequestFor(NodeRequests(results), x).Some?
    ensures forall i :: 0 <= i < |BuildGraph(results).nodes| ==>
              Graph.FirstRequestFor(NodeRequests(results), BuildGraph(results).nodes[i].id)
              == Some(Graph.AsRequest(BuildGraph(results).nodes[i]))
  {
    Graph.AddNodesFirstWins(NodeRequests(results));
  }

  /** `conclude`: the synthesis of a search for the query. */
  function Conclude(reg: Registry, query: string, elapsed: nat): (r: Result<ClinicalConclusion>)
    ensures r.Ok? <==> WellTyped(reg, query)
    ensures r.Ok? ==> r.value.query == query
    ensures r.Ok? ==> var res := Search(reg, query, elapsed).value.results;
              r.value == Synthesis.Synthesize(query, res.drugs, res.papers, res.trials)
  {
    var out :- Search(reg, query, elapsed);
    Ok(Synthesis.Synthesize(query, out.results.drugs, out.results.papers, out.results.trials))
  }
}
