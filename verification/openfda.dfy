/** `OpenFDAProvider` (medkit/providers/openfda.py): the drug-label search
    term, the classification of HTTP failures, and `_parse_response`, which
    reads the first label of the payload into a `DrugInfo`.
 */
module OpenFda {
  import opened Wrappers
  import opened Text
  import opened Json
  import opened Models

  const BrandClause := "openfda.brand_name:\""
  const GenericClause := "\" openfda.generic_name:\""
  const Closing := "\""

  /** The `search` parameter: the query inside a brand-name clause and
      inside a generic-name clause. */
  function SearchTerm(query: string): (r: string)
    ensures |r| == |BrandClause| + |GenericClause| + |Closing| + 2 * |query|
    ensures r[|BrandClause|..|BrandClause| + |query|] == query
    ensures r[|BrandClause| + |query| + |GenericClause|..|r| - 1] == query
  {
    var r := BrandClause + query + GenericClause + query + Closing;
    assert r[|BrandClause|..|BrandClause| + |query|] == query;
    assert r[|BrandClause| + |query| + |GenericClause|..|r| - 1] == query;
    r
  }

  /** Reading the query back out of a search term. */
  function QueryOf(term: string): (q: Option<string>)
  {
    var fixed := |BrandClause| + |GenericClause| + |Closing|;
    if |term| < fixed || (|term| - fixed) % 2 != 0 then None
    else Some(term[|BrandClause|..|BrandClause| + (|term| - fixed) / 2])
  }

  /** The term names its query, so different queries give different terms. */
  lemma SearchTermRoundTrip(query: string)
    ensures QueryOf(SearchTerm(query)) == Some(query)
  {
  }

  lemma SearchTermInjective(a: string, b: string)
    requires SearchTerm(a) == SearchTerm(b)
    ensures a == b
  {
    SearchTermRoundTrip(a);
    SearchTermRoundTrip(b);
  }

  /** What the HTTP layer gave back. */
  datatype Fetch = Failed(kind: TransportKind, detail: string) | Received(data: Json)

  /** The exception a failed request becomes. */
  function RequestError(query: string, kind: TransportKind, detail: string): (e: PyError)
    ensures kind == HttpStatus(404) ==> e == NotFoundError("Drug '" + query + "' not found on OpenFDA.")
    ensures kind.HttpStatus? && kind.code != 404 ==> e == ApiError("OpenFDA API error: " + detail)
    ensures !kind.HttpStatus? ==> e == ApiError("Network error while connecting to OpenFDA: " + detail)
    ensures e.NotFoundError? || e.ApiError?
  {
    match kind
    case HttpStatus(code) =>
      if code == 404 then NotFoundError("Drug '" + query + "' not found on OpenFDA.")
      else ApiError("OpenFDA API error: " + detail)
    case _ => ApiError("Network error while connecting to OpenFDA: " + detail)
  }

  /** `openfda.get(key, [default])[0]`. */
  function FirstOf(openfda: Json, key: string, default: Json): (r: Result<Json>)
    ensures openfda.JObj? && key !in openfda.fields ==> r == Ok(default)
    ensures openfda.JObj? && key in openfda.fields && openfda.fields[key].JArr? && |openfda.fields[key].items| > 0
            ==> r == Ok(openfda.fields[key].items[0])
    ensures !openfda.JObj? ==> r == Err(AttributeError)
  {
    var xs :- Get(openfda, key, JArr([default]));
    First(xs)
  }

  /** `DrugInfo(...)` validation. */
  function MakeDrug(brand: Json, generic: Json, warnings: Json, manufacturer: Json): (r: Result<DrugInfo>)
    ensures r.Ok? <==> brand.JStr? && generic.JStr? && warnings.JArr? && AllStr(warnings.items)
                       && (manufacturer.JNull? || manufacturer.JStr?)
    ensures r.Err? ==> r.error == ValidationError
  {
    var b :- AsStr(brand);
    var g :- AsStr(generic);
    var w :- AsStrList(warnings);
    var m :- AsOptStr(manufacturer);
    Ok(DrugInfo(b, g, w, m))
  }

  /** `_parse_response(data, name)`. */
  function ParseResponse(data: Json, name: string): (r: Result<DrugInfo>)
    ensures !data.JObj? ==> r == Err(AttributeError)
    ensures data.JObj? && !Truthy(if "results" in data.fields then data.fields["results"] else JNull) ==>
              r == Err(NotFoundError("Drug '" + name + "' not found."))
  {
    var results :- Get(data, "results", JNull);
    if !Truthy(results) then Err(NotFoundError("Drug '" + name + "' not found."))
    else
      var result :- First(results);
      var fields :- AsObject(result);
      var openfda := Field(fields, "openfda", JObj(map[]));
      var brand :- FirstOf(openfda, "brand_name", JStr("Unknown"));
      var generic :- FirstOf(openfda, "generic_name", JStr("Unknown"));
      var manufacturer :- FirstOf(openfda, "manufacturer_name", JNull);
      var warnings := Field(fields, "warnings", JArr([]));
      MakeDrug(brand, generic, warnings, manufacturer)
  }

  /** A label object with string lists. */
  function Label(brands: seq<string>, generics: seq<string>, makers: seq<string>, warnings: seq<string>): Json {
    JObj(map["openfda" := LabelNames(brands, generics, makers), "warnings" := JArr(StrList(warnings))])
  }

  /** The `openfda` section of a label. */
  function LabelNames(brands: seq<string>, generics: seq<string>, makers: seq<string>): Json {
    JObj(map["brand_name" := JArr(StrList(brands)),
             "generic_name" := JArr(StrList(generics)),
             "manufacturer_name" := JArr(StrList(makers))])
  }

  function StrList(ss: seq<string>): (r: seq<Json>)
    ensures |r| == |ss| && AllStr(r) && StrValues(r) == ss
  {
    if |ss| == 0 then []
    else
      var r := [JStr(ss[0])] + StrList(ss[1..]);
      assert StrValues(r)[1..] == StrValues(r[1..]);
      r
  }

  /** Only the first label counts, and from it the first brand name, the
      first generic name and the first manufacturer, with its warnings
      whole. */
  lemma FirstLabelFirstNames(b: string, bs: seq<string>, g: string, gs: seq<string>, m: string, ms: seq<string>,
                             ws: seq<string>, others: seq<Json>, name: string)
    ensures var lbl := Label([b] + bs, [g] + gs, [m] + ms, ws);
            ParseResponse(JObj(map["results" := JArr([lbl] + others)]), name) == Ok(DrugInfo(b, g, ws, Some(m)))
  {
    var lbl := Label([b] + bs, [g] + gs, [m] + ms, ws);
    var data := JObj(map["results" := JArr([lbl] + others)]);
    assert Get(data, "results", JNull) == Ok(JArr([lbl] + others));
    assert First(JArr([lbl] + others)) == Ok(lbl);
    LabelSections([b] + bs, [g] + gs, [m] + ms, ws);
    FirstBrand([b] + bs, [g] + gs, [m] + ms);
    FirstGeneric([b] + bs, [g] + gs, [m] + ms);
    FirstMaker([b] + bs, [g] + gs, [m] + ms);
    assert MakeDrug(JStr(b), JStr(g), JArr(StrList(ws)), JStr(m)) == Ok(DrugInfo(b, g, ws, Some(m)));
  }

  lemma LabelSections(brands: seq<string>, generics: seq<string>, makers: seq<string>, warnings: seq<string>)
    ensures var fields := Label(brands, generics, makers, warnings).fields;
            Field(fields, "openfda", JObj(map[])) == LabelNames(brands, generics, makers)
            && Field(fields, "warnings", JArr([])) == JArr(StrList(warnings))
  {
  }

  lemma FirstBrand(brands: seq<string>, generics: seq<string>, makers: seq<string>)
    requires |brands| > 0
    ensures FirstOf(LabelNames(brands, generics, makers), "brand_name", JStr("Unknown")) == Ok(JStr(brands[0]))
  {
    assert StrList(brands)[0] == JStr(brands[0]);
  }

  lemma FirstGeneric(brands: seq<string>, generics: seq<string>, makers: seq<string>)
    requires |generics| > 0
    ensures FirstOf(LabelNames(brands, generics, makers), "generic_name", JStr("Unknown")) == Ok(JStr(generics[0]))
  {
    assert StrList(generics)[0] == JStr(generics[0]);
  }

  lemma FirstMaker(brands: seq<string>, generics: seq<string>, makers: seq<string>)
    requires |makers| > 0
    ensures FirstOf(LabelNames(brands, generics, makers), "manufacturer_name", JNull) == Ok(JStr(makers[0]))
  {
    assert StrList(makers)[0] == JStr(makers[0]);
  }

  /** A label without an `openfda` section is "Unknown" under both names
      and has no manufacturer. */
  lemma MissingNamesDefault(others: seq<Json>, name: string)
    ensures ParseResponse(JObj(map["results" := JArr([JObj(map[])] + others)]), name)
            == Ok(DrugInfo("Unknown", "Unknown", [], None))
  {
    assert StrValues([]) == [];
  }

  /** No results, or an empty result list, is "not found". */
  lemma NoResultsNotFound(name: string)
    ensures ParseResponse(JObj(map[]), name) == Err(NotFoundError("Drug '" + name + "' not found."))
    ensures ParseResponse(JObj(map["results" := JArr([])]), name) == Err(NotFoundError("Drug '" + name + "' not found."))
  {
  }

  /** `search_sync(query)` once the request has been made. */
  function SearchSync(query: string, fetch: Fetch): (r: Result<DrugInfo>)
    ensures fetch.Failed? ==> r == Err(RequestError(query, fetch.kind, fetch.detail))
    ensures fetch.Received? ==> r == ParseResponse(fetch.data, query)
  {
    match fetch
    case Failed(kind, detail) => Err(RequestError(query, kind, detail))
    case Received(data) => ParseResponse(data, query)
  }
}
