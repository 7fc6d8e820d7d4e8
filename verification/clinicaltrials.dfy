/** `ClinicalTrialsProvider._parse_response`
    (medkit/providers/clinicaltrials.py): ClinicalTrials.gov v2 studies
    read into trials, with the optional recruiting filter.

    Nothing here is guarded by a `try`: a `.get` on a non-object raises
    `AttributeError`, and a field of the wrong type makes the
    `ClinicalTrial` construction raise `ValidationError`.
 */
module ClinicalTrials {
  import opened Wrappers
  import opened Text
  import opened Json
  import opened Models

  const UnknownId := "Unknown"
  const UnknownTitle := "Unknown Trial"
  const UnknownStatus := "Unknown"
  const NotSpecified := "Not specified"
  const RecruitingStatus := "RECRUITING"

  const Empty: Json := JObj(map[])

  /** A study counts as recruiting when its status, upper-cased, is
      exactly "RECRUITING". */
  predicate IsRecruiting(status: string) { UpperStr(status) == RecruitingStatus }

  /** `[loc.get("facility", ...) for loc in locations if loc.get("facility")]`,
      before validation. */
  function Facilities(locs: seq<Json>): (r: Result<seq<Json>>)
    ensures r.Ok? <==> forall k :: 0 <= k < |locs| ==> locs[k].JObj?
    ensures r.Ok? ==> |r.value| <= |locs| && forall k :: 0 <= k < |r.value| ==> Truthy(r.value[k])
  {
    if |locs| == 0 then Ok([])
    else
      var m :- AsObject(locs[0]);
      var rest :- Facilities(locs[1..]);
      var f := Field(m, "facility", JNull);
      Ok((if Truthy(f) then [f] else []) + rest)
  }

  function Strs(ss: seq<string>): (r: seq<Json>)
    ensures |r| == |ss| && forall k :: 0 <= k < |ss| ==> r[k] == JStr(ss[k])
  {
    if |ss| == 0 then [] else [JStr(ss[0])] + Strs(ss[1..])
  }

  /** Locations with string facilities give exactly the non-empty
      facility names, in order. */
  lemma {:induction false} FacilitiesKeepNonEmpty(names: seq<string>)
    ensures Facilities(KeyedObjects("facility", names)) == Ok(Strs(NonEmptyStrings(names)))
  {
    if |names| > 0 {
      assert KeyedObjects("facility", names)[1..] == KeyedObjects("facility", names[1..]);
      FacilitiesKeepNonEmpty(names[1..]);
      var f := JStr(names[0]);
      assert Field(map["facility" := f], "facility", JNull) == f;
      assert Strs(NonEmptyStrings(names)) == (if names[0] != "" then [f] else []) + Strs(NonEmptyStrings(names[1..]));
    }
  }

  /** `ClinicalTrial(...)` validation of the raw field values. */
  function MakeTrial(nctId: Json, title: Json, status: Json, phases: Json, locations: seq<Json>, eligibility: Json)
    : (r: Result<ClinicalTrial>)
    ensures r.Ok? <==> nctId.JStr? && title.JStr? && status.JStr? && phases.JArr? && AllStr(phases.items)
                       && AllStr(locations) && eligibility.JStr?
    ensures r.Err? ==> r.error == ValidationError
    ensures r.Ok? ==> r.value == NewTrial(nctId.s, title.s, status.s, StrValues(phases.items), StrValues(locations), eligibility.s)
  {
    var n :- AsStr(nctId);
    var t :- AsStr(title);
    var s :- AsStr(status);
    var ph :- AsStrList(phases);
    var loc :- AsStrList(JArr(locations));
    var e :- AsStr(eligibility);
    Ok(NewTrial(n, t, s, ph, loc, e))
  }

  /** The status of a study, its defaults applied. */
  function StatusOf(protocol: map<string, Json>): Result<Json> {
    var statusModule :- AsObject(Field(protocol, "statusModule", Empty));
    Ok(Field(statusModule, "overallStatus", JStr(UnknownStatus)))
  }

  /** Whether the filter lets a study with this status through: always
      without a filter, otherwise exactly when recruiting matches. */
  function Admit(status: Json, recruiting: Option<bool>): (r: Result<bool>)
    ensures recruiting.None? ==> r == Ok(true)
    ensures recruiting.Some? && !status.JStr? ==> r == Err(AttributeError)
    ensures recruiting.Some? && status.JStr? ==> r == Ok(recruiting.value == IsRecruiting(status.s))
  {
    match recruiting
    case None => Ok(true)
    case Some(want) =>
      if !status.JStr? then Err(AttributeError)
      else
        var isRecruiting := IsRecruiting(status.s);
        if want && !isRecruiting then Ok(false)
        else if !want && isRecruiting then Ok(false)
        else Ok(true)
  }

  /** One study: `Ok(None)` when the filter skips it. */
  function ParseStudy(study: Json, recruiting: Option<bool>): (r: Result<Option<ClinicalTrial>>)
    ensures r.Ok? && r.value.Some? && recruiting.Some? ==> recruiting.value == IsRecruiting(r.value.value.status)
    ensures r.Ok? && r.value.None? ==> recruiting.Some?
  {
    var s :- AsObject(study);
    var protocol :- AsObject(Field(s, "protocolSection", Empty));
    var identification :- AsObject(Field(protocol, "identificationModule", Empty));
    var nctId := Field(identification, "nctId", JStr(UnknownId));
    var title := Field(identification, "briefTitle", JStr(UnknownTitle));
    var status :- StatusOf(protocol);
    var admitted :- Admit(status, recruiting);
    if !admitted then Ok(None)
    else
      var trial :- StudyTrial(protocol, nctId, title, status);
      Ok(Some(trial))
  }

  /** The rest of an admitted study: phases, facilities and eligibility
      read, then the trial validated. */
  function StudyTrial(protocol: map<string, Json>, nctId: Json, title: Json, status: Json): (r: Result<ClinicalTrial>)
    ensures r.Ok? ==> status.JStr? && r.value.status == status.s
  {
    var design :- AsObject(Field(protocol, "designModule", Empty));
    var phases := Field(design, "phases", JArr([]));
    var contacts :- AsObject(Field(protocol, "contactsLocationsModule", Empty));
    var locationItems :- Records(Field(contacts, "locations", JArr([])));
    var locations :- Facilities(locationItems);
    var eligibilityModule :- AsObject(Field(protocol, "eligibilityModule", Empty));
    var eligibility := Field(eligibilityModule, "eligibilityCriteria", JStr(NotSpecified));
    MakeTrial(nctId, title, status, phases, locations, eligibility)
  }

  /** The studies in order: any study that fails to parse fails the whole
      response, and without a filter trial `k` is the parse of study `k`. */
  function ParseStudies(studies: seq<Json>, recruiting: Option<bool>): (r: Result<seq<ClinicalTrial>>)
    ensures r.Ok? <==> forall k :: 0 <= k < |studies| ==> ParseStudy(studies[k], recruiting).Ok?
    ensures r.Ok? ==> |r.value| <= |studies|
    ensures r.Ok? && recruiting.None? ==> |r.value| == |studies|
    ensures r.Ok? && recruiting.None? ==> forall k :: 0 <= k < |studies| ==> ParseStudy(studies[k], None) == Ok(Some(r.value[k]))
    ensures r.Ok? && recruiting.Some? ==> forall k :: 0 <= k < |r.value| ==> recruiting.value == IsRecruiting(r.value[k].status)
  {
    if |studies| == 0 then Ok([])
    else
      var first := ParseStudy(studies[0], recruiting);
      var later := ParseStudies(studies[1..], recruiting);
      StudiesCons(studies, recruiting);
      if first.Err? then Err(first.error)
      else if later.Err? then Err(later.error)
      else
        var t, rest := first.value, later.value;
        AdmittedCons(t, rest, recruiting);
        ParsedCons(studies, t, rest, recruiting);
        Ok((if t.Some? then [t.value] else []) + rest)
  }

  /** Every study parses exactly when the first does and all later ones do. */
  lemma StudiesCons(studies: seq<Json>, recruiting: Option<bool>)
    requires |studies| > 0
    ensures (forall k :: 0 <= k < |studies| ==> ParseStudy(studies[k], recruiting).Ok?) <==>
              ParseStudy(studies[0], recruiting).Ok?
              && forall k :: 0 <= k < |studies[1..]| ==> ParseStudy(studies[1..][k], recruiting).Ok?
  {
    assert forall k :: 1 <= k < |studies| ==> studies[k] == studies[1..][k - 1];
  }

  /** Without a filter, the first study's trial in front of the later
      studies' trials lines up with the studies. */
  lemma ParsedCons(studies: seq<Json>, t: Option<ClinicalTrial>, rest: seq<ClinicalTrial>, recruiting: Option<bool>)
    requires |studies| > 0 && ParseStudy(studies[0], recruiting) == Ok(t)
    requires recruiting.None? ==> t.Some? && |rest| == |studies| - 1
    requires recruiting.None? ==>
               forall k :: 0 <= k < |studies[1..]| ==> ParseStudy(studies[1..][k], None) == Ok(Some(rest[k]))
    ensures var r := (if t.Some? then [t.value] else []) + rest;
            recruiting.None? ==> forall k :: 0 <= k < |studies| ==> ParseStudy(studies[k], None) == Ok(Some(r[k]))
  {
    if recruiting.None? {
      var r := [t.value] + rest;
      forall k | 0 <= k < |studies| ensures ParseStudy(studies[k], None) == Ok(Some(r[k])) {
        if k > 0 {
          assert studies[k] == studies[1..][k - 1] && r[k] == rest[k - 1];
        }
      }
    }
  }

  /** Putting one parsed study in front of the rest keeps the filter's
      promise. */
  lemma AdmittedCons(t: Option<ClinicalTrial>, rest: seq<ClinicalTrial>, recruiting: Option<bool>)
    requires t.None? ==> recruiting.Some?
    requires t.Some? && recruiting.Some? ==> recruiting.value == IsRecruiting(t.value.status)
    requires recruiting.Some? ==> forall k :: 0 <= k < |rest| ==> recruiting.value == IsRecruiting(rest[k].status)
    ensures var r := (if t.Some? then [t.value] else []) + rest;
            (recruiting.None? ==> |r| == |rest| + 1)
            && (recruiting.Some? ==> forall k :: 0 <= k < |r| ==> recruiting.value == IsRecruiting(r[k].status))
  {
    var r := (if t.Some? then [t.value] else []) + rest;
    if recruiting.Some? && t.Some? {
      assert forall k :: 1 <= k < |r| ==> r[k] == rest[k - 1];
    }
  }

  /** `_parse_response(data, recruiting)`. */
  function ParseResponse(data: Json, recruiting: Option<bool>): (r: Result<seq<ClinicalTrial>>)
    ensures !data.JObj? ==> r == Err(AttributeError)
    ensures r.Ok? ==> data.JObj?
    // the trials are those of the studies listed under "studies"; a
    // missing list is an empty one
    ensures data.JObj? && "studies" !in data.fields ==> r == Ok([])
    ensures data.JObj? && "studies" in data.fields && data.fields["studies"].JArr? ==>
              r == ParseStudies(data.fields["studies"].items, recruiting)
  {
    var studies :- Get(data, "studies", JArr([]));
    var items :- Records(studies);
    ParseStudies(items, recruiting)
  }

  /** The trials of `ts` whose recruiting state is `want`. */
  function WithRecruiting(ts: seq<ClinicalTrial>, want: bool): (r: seq<ClinicalTrial>)
    ensures |r| <= |ts|
  {
    if |ts| == 0 then []
    else (if IsRecruiting(ts[0].status) == want then [ts[0]] else []) + WithRecruiting(ts[1..], want)
  }

  /** When every study parses, a filtered parse is the unfiltered one
      restricted to matching statuses, so every trial lands in exactly one
      of the recruiting and non-recruiting outputs. */
  lemma {:induction false} FilterPartitions(studies: seq<Json>, want: bool)
    requires ParseStudies(studies, None).Ok?
    ensures ParseStudies(studies, Some(want)) == Ok(WithRecruiting(ParseStudies(studies, None).value, want))
  {
    if |studies| > 0 {
      FilterPartitions(studies[1..], want);
      StudyFilter(studies[0], want);
    }
  }

  lemma StudyFilter(study: Json, want: bool)
    requires ParseStudy(study, None).Ok?
    ensures ParseStudy(study, None).value.Some?
    ensures var t := ParseStudy(study, None).value.value;
            ParseStudy(study, Some(want)) == if IsRecruiting(t.status) == want then Ok(Some(t)) else Ok(None)
  {
    var protocol := Field(study.fields, "protocolSection", Empty).fields;
    var status := StatusOf(protocol).value;
    assert status.JStr?;
    assert ParseStudy(study, None).value.value.status == status.s;
    assert Admit(status, Some(want)) == Ok(want == IsRecruiting(status.s));
  }

  lemma {:induction false} PartitionSizes(ts: seq<ClinicalTrial>)
    ensures |WithRecruiting(ts, true)| + |WithRecruiting(ts, false)| == |ts|
  {
    if |ts| > 0 {
      PartitionSizes(ts[1..]);
    }
  }

  /** A study with nothing in it gets every default. */
  lemma EmptyStudyDefaults()
    ensures ParseStudy(Empty, None) == Ok(Some(NewTrial(UnknownId, UnknownTitle, UnknownStatus, [], [], NotSpecified)))
  {
    assert StrValues([]) == [];
  }

  /** Lower-case "recruiting" passes the recruiting filter. */
  lemma StatusCaseIgnored()
    ensures IsRecruiting("recruiting") && IsRecruiting("Recruiting")
    ensures !IsRecruiting(UnknownStatus)
  {
    LowerRecruiting();
    TitleRecruiting();
    assert |UpperStr(UnknownStatus)| == 7;
  }

  lemma LowerRecruiting()
    ensures UpperStr("recruiting") == RecruitingStatus
  {
    UpperRecru();
    UpperIting();
    UpperStrConcat("recru", "iting");
    RecruitingHalves();
  }

  lemma TitleRecruiting()
    ensures UpperStr("Recruiting") == RecruitingStatus
  {
    UpperTitleRecru();
    UpperIting();
    UpperStrConcat("Recru", "iting");
    RecruitingHalves();
  }

  lemma RecruitingHalves()
    ensures "recru" + "iting" == "recruiting" && "Recru" + "iting" == "Recruiting"
    ensures "RECRU" + "ITING" == RecruitingStatus
  {
  }

  lemma UpperRecru()
    ensures UpperStr("recru") == "RECRU"
  {
    var h := UpperStr("recru");
    assert h[0] == 'R' && h[1] == 'E' && h[2] == 'C' && h[3] == 'R' && h[4] == 'U';
  }

  lemma UpperTitleRecru()
    ensures UpperStr("Recru") == "RECRU"
  {
    var h := UpperStr("Recru");
    assert h[0] == 'R' && h[1] == 'E' && h[2] == 'C' && h[3] == 'R' && h[4] == 'U';
  }

  lemma UpperIting()
    ensures UpperStr("iting") == "ITING"
  {
    var t := UpperStr("iting");
    assert t[0] == 'I' && t[1] == 'T' && t[2] == 'I' && t[3] == 'N' && t[4] == 'G';
  }
}
