/** `Exporter.to_csv` (medkit/exporter.py): the flattening of results into
    records and the shape of the CSV that `csv.DictWriter` would write.

    A record is a dict, kept here as its (key, value) pairs in insertion
    order.  The CSV is the header and one row of cell values per record;
    the quoting of the cells and the file itself are not modelled.
 */
module Exporter {
  import opened Wrappers
  import opened Json
  import opened Models

  type Record = seq<(string, Json)>

  /** A list element: a pydantic model, seen through its `model_dump()`,
      or any other value, which is exported through `str()`. */
  datatype Item = Dumped(dump: Record) | Plain(value: Json)

  /** What `to_csv` can be handed.  `ConditionSummary` is the other model
      with a `drugs` attribute, so it takes the `SearchResults` branch. */
  datatype Input =
    | Results(results: SearchResults)
    | Summary(summary: ConditionSummary)
    | Items(items: seq<Item>)
    | Other

  datatype Csv = Csv(header: seq<string>, rows: seq<seq<Json>>)

  const DictWriterError := ValueError("dict contains fields not in fieldnames")

  // ---------------------------------------------------------------------
  // Flattening

  /** The record of one result row: its kind, then the name and detail
      cells. */
  function KindRecord(kind: string, cells: (Json, Json)): Record {
    [("type", JStr(kind)), ("name", cells.0), ("detail", cells.1)]
  }

  function KindRecords(kind: string, cells: seq<(Json, Json)>): (r: seq<Record>)
    ensures |r| == |cells| && forall k :: 0 <= k < |cells| ==> r[k] == KindRecord(kind, cells[k])
  {
    if |cells| == 0 then [] else [KindRecord(kind, cells[0])] + KindRecords(kind, cells[1..])
  }

  /** The name and detail of each drug: brand and generic name. */
  function DrugNames(ds: seq<DrugInfo>): (r: seq<(Json, Json)>)
    ensures |r| == |ds| && forall k :: 0 <= k < |ds| ==> r[k] == (JStr(ds[k].brandName), JStr(ds[k].genericName))
  {
    if |ds| == 0 then [] else [(JStr(ds[0].brandName), JStr(ds[0].genericName))] + DrugNames(ds[1..])
  }

  /** The name and detail of each paper: title and PubMed id. */
  function PaperNames(ps: seq<ResearchPaper>): (r: seq<(Json, Json)>)
    ensures |r| == |ps| && forall k :: 0 <= k < |ps| ==> r[k] == (JStr(ps[k].title), JStr(ps[k].pmid))
  {
    if |ps| == 0 then [] else [(JStr(ps[0].title), JStr(ps[0].pmid))] + PaperNames(ps[1..])
  }

  /** The name and detail of each trial: NCT id and status. */
  function TrialNames(ts: seq<ClinicalTrial>): (r: seq<(Json, Json)>)
    ensures |r| == |ts| && forall k :: 0 <= k < |ts| ==> r[k] == (JStr(ts[k].nctId), JStr(ts[k].status))
  {
    if |ts| == 0 then [] else [(JStr(ts[0].nctId), JStr(ts[0].status))] + TrialNames(ts[1..])
  }

  /** The record of one list element. */
  function ItemRecord(item: Item): Record {
    match item
    case Dumped(dump) => dump
    case Plain(v) => [("data", JStr(PyStr(v)))]
  }

  function ItemRecords(items: seq<Item>): (r: seq<Record>)
    ensures |r| == |items| && forall k :: 0 <= k < |items| ==> r[k] == ItemRecord(items[k])
  {
    if |items| == 0 then [] else [ItemRecord(items[0])] + ItemRecords(items[1..])
  }

  /** The records `to_csv` collects.  The drugs of a `ConditionSummary`
      are plain strings, which have no `brand_name`. */
  function Flatten(data: Input): (r: Result<seq<Record>>)
    ensures data.Results? ==> r.Ok? && |r.value| == |data.results.drugs| + |data.results.papers| + |data.results.trials|
    ensures data.Summary? ==> (r.Ok? <==> |data.summary.drugs| == 0)
    ensures data.Summary? && r.Ok? ==> |r.value| == |data.summary.papers| + |data.summary.trials|
    ensures r.Err? ==> r.error == AttributeError
    ensures data.Items? ==> r == Ok(ItemRecords(data.items))
    ensures data.Other? ==> r == Ok([])
  {
    match data
    case Results(res) =>
      Ok(KindRecords("drug", DrugNames(res.drugs)) + KindRecords("paper", PaperNames(res.papers))
         + KindRecords("trial", TrialNames(res.trials)))
    case Summary(s) =>
      if |s.drugs| > 0 then Err(AttributeError)
      else Ok(KindRecords("paper", PaperNames(s.papers)) + KindRecords("trial", TrialNames(s.trials)))
    case Items(items) => Ok(ItemRecords(items))
    case Other => Ok([])
  }

  // ---------------------------------------------------------------------
  // DictWriter

  function KeysOf(rec: Record): (r: seq<string>)
    ensures |r| == |rec| && forall k :: 0 <= k < |rec| ==> r[k] == rec[k].0
  {
    if |rec| == 0 then [] else [rec[0].0] + KeysOf(rec[1..])
  }

  /** `rec.get(key, restval)` with the empty `restval`. */
  function Cell(rec: Record, key: string): (r: Json)
    ensures key !in KeysOf(rec) ==> r == JStr("")
    ensures |rec| > 0 && rec[0].0 == key ==> r == rec[0].1
  {
    if |rec| == 0 then JStr("")
    else if rec[0].0 == key then rec[0].1
    else Cell(rec[1..], key)
  }

  /** A record fits the header when it has no key the header lacks. */
  predicate Fits(header: seq<string>, rec: Record) {
    forall k :: 0 <= k < |rec| ==> rec[k].0 in header
  }

  function Row(header: seq<string>, rec: Record): (r: seq<Json>)
    ensures |r| == |header| && forall k :: 0 <= k < |header| ==> r[k] == Cell(rec, header[k])
  {
    if |header| == 0 then [] else [Cell(rec, header[0])] + Row(header[1..], rec)
  }

  /** `writer.writerows(records)`: a record with a key outside the header
      raises. */
  function WriteRows(header: seq<string>, recs: seq<Record>): (r: Result<seq<seq<Json>>>)
    ensures r.Ok? <==> forall k :: 0 <= k < |recs| ==> Fits(header, recs[k])
    ensures r.Err? ==> r.error == DictWriterError
    ensures r.Ok? ==> |r.value| == |recs| && forall k :: 0 <= k < |recs| ==> r.value[k] == Row(header, recs[k])
  {
    if |recs| == 0 then Ok([])
    else if !Fits(header, recs[0]) then Err(DictWriterError)
    else
      var rest :- WriteRows(header, recs[1..]);
      Ok([Row(header, recs[0])] + rest)
  }

  /** `to_csv(data, path)`: `None` when nothing is written, otherwise the
      header, taken from the first record, and the rows. */
  function ToCsv(data: Input): (r: Result<Option<Csv>>)
    ensures r == Ok(None) <==> Flatten(data) == Ok([])
    ensures r.Ok? && r.value.Some? ==>
              Flatten(data).Ok? &&
              var recs := Flatten(data).value;
              |recs| > 0 && r.value.value.header == KeysOf(recs[0]) && |r.value.value.rows| == |recs|
              && forall k :: 0 <= k < |recs| ==> r.value.value.rows[k] == Row(KeysOf(recs[0]), recs[k])
    ensures r.Err? ==> r.error == AttributeError || r.error == DictWriterError
  {
    var recs :- Flatten(data);
    if |recs| == 0 then Ok(None)
    else
      var header := KeysOf(recs[0]);
      var rows :- WriteRows(header, recs);
      Ok(Some(Csv(header, rows)))
  }

  // ---------------------------------------------------------------------
  // Properties

  const ResultsHeader := ["type", "name", "detail"]

  /** The rows of one kind as written under `ResultsHeader`. */
  function KindRows(kind: string, cells: seq<(Json, Json)>): (r: seq<seq<Json>>)
    ensures |r| == |cells| && forall k :: 0 <= k < |cells| ==> r[k] == [JStr(kind), cells[k].0, cells[k].1]
  {
    if |cells| == 0 then [] else [[JStr(kind), cells[0].0, cells[0].1]] + KindRows(kind, cells[1..])
  }

  /** The name and detail cells of the rows of one kind, in order: the
      reader's view of an exported file. */
  function Column(rows: seq<seq<Json>>, kind: string): (r: seq<(Json, Json)>)
    ensures |r| <= |rows|
  {
    if |rows| == 0 then []
    else
      var rest := Column(rows[1..], kind);
      if |rows[0]| == 3 && rows[0][0] == JStr(kind) then [(rows[0][1], rows[0][2])] + rest else rest
  }

  lemma KindRecordRow(kind: string, cells: (Json, Json))
    ensures KeysOf(KindRecord(kind, cells)) == ResultsHeader
    ensures Fits(ResultsHeader, KindRecord(kind, cells))
    ensures Row(ResultsHeader, KindRecord(kind, cells)) == [JStr(kind), cells.0, cells.1]
  {
    var rec := KindRecord(kind, cells);
    var row := Row(ResultsHeader, rec);
    assert row[0] == Cell(rec, "type");
    assert row[1] == Cell(rec, "name") == Cell(rec[1..], "name");
    assert row[2] == Cell(rec, "detail") == Cell(rec[1..], "detail") == Cell(rec[2..], "detail");
  }

  /** Records of one kind are written as that kind's rows. */
  lemma KindRowsWritten(kind: string, cells: seq<(Json, Json)>)
    ensures WriteRows(ResultsHeader, KindRecords(kind, cells)) == Ok(KindRows(kind, cells))
  {
    var recs := KindRecords(kind, cells);
    forall k | 0 <= k < |recs|
      ensures Fits(ResultsHeader, recs[k]) && Row(ResultsHeader, recs[k]) == KindRows(kind, cells)[k]
    {
      KindRecordRow(kind, cells[k]);
    }
    WriteRowsExactly(ResultsHeader, recs, KindRows(kind, cells));
  }

  /** The writer's output is fixed by the records: all fit, and the rows
      are theirs in order. */
  lemma WriteRowsExactly(header: seq<string>, recs: seq<Record>, rows: seq<seq<Json>>)
    requires |rows| == |recs|
    requires forall k :: 0 <= k < |recs| ==> Fits(header, recs[k]) && rows[k] == Row(header, recs[k])
    ensures WriteRows(header, recs) == Ok(rows)
  {
    var r := WriteRows(header, recs);
    assert r.Ok?;
    assert r.value == rows;
  }

  lemma WriteRowsAppend(header: seq<string>, a: seq<Record>, b: seq<Record>)
    requires WriteRows(header, a).Ok? && WriteRows(header, b).Ok?
    ensures WriteRows(header, a + b) == Ok(WriteRows(header, a).value + WriteRows(header, b).value)
  {
    var ab, va, vb := a + b, WriteRows(header, a).value, WriteRows(header, b).value;
    forall k | 0 <= k < |ab| ensures Fits(header, ab[k]) && (va + vb)[k] == Row(header, ab[k]) {
      if k < |a| {
        assert ab[k] == a[k] && (va + vb)[k] == va[k];
      } else {
        assert ab[k] == b[k - |a|] && (va + vb)[k] == vb[k - |a|];
      }
    }
    WriteRowsExactly(header, ab, va + vb);
  }

  /** The rows of one kind give back exactly their cells, and nothing for
      any other kind. */
  lemma {:induction false} ColumnOfKind(kind: string, other: string, cells: seq<(Json, Json)>)
    ensures Column(KindRows(kind, cells), kind) == cells
    ensures other != kind ==> Column(KindRows(kind, cells), other) == []
  {
    if |cells| > 0 {
      assert KindRows(kind, cells)[1..] == KindRows(kind, cells[1..]);
      ColumnOfKind(kind, other, cells[1..]);
      assert JStr(kind) != JStr(other) <== other != kind;
    }
  }

  lemma {:induction false} ColumnAppend(a: seq<seq<Json>>, b: seq<seq<Json>>, kind: string)
    ensures Column(a + b, kind) == Column(a, kind) + Column(b, kind)
  {
    if |a| == 0 {
      assert a + b == b;
    } else {
      assert (a + b)[1..] == a[1..] + b;
      ColumnAppend(a[1..], b, kind);
    }
  }

  /** The rows of a `SearchResults` value. */
  function ResultRows(res: SearchResults): seq<seq<Json>> {
    KindRows("drug", DrugNames(res.drugs)) + KindRows("paper", PaperNames(res.papers))
    + KindRows("trial", TrialNames(res.trials))
  }

  lemma ResultsWritten(res: SearchResults)
    ensures WriteRows(ResultsHeader, Flatten(Results(res)).value) == Ok(ResultRows(res))
  {
    var d, p, t := DrugNames(res.drugs), PaperNames(res.papers), TrialNames(res.trials);
    KindRowsWritten("drug", d);
    KindRowsWritten("paper", p);
    KindRowsWritten("trial", t);
    WriteRowsAppend(ResultsHeader, KindRecords("drug", d), KindRecords("paper", p));
    WriteRowsAppend(ResultsHeader, KindRecords("drug", d) + KindRecords("paper", p), KindRecords("trial", t));
  }

  lemma ResultColumns(res: SearchResults)
    ensures Column(ResultRows(res), "drug") == DrugNames(res.drugs)
    ensures Column(ResultRows(res), "paper") == PaperNames(res.papers)
    ensures Column(ResultRows(res), "trial") == TrialNames(res.trials)
  {
    var dr := KindRows("drug", DrugNames(res.drugs));
    var pr := KindRows("paper", PaperNames(res.papers));
    var tr := KindRows("trial", TrialNames(res.trials));
    ColumnOfKind("drug", "paper", DrugNames(res.drugs));
    ColumnOfKind("drug", "trial", DrugNames(res.drugs));
    ColumnOfKind("paper", "drug", PaperNames(res.papers));
    ColumnOfKind("paper", "trial", PaperNames(res.papers));
    ColumnOfKind("trial", "drug", TrialNames(res.trials));
    ColumnOfKind("trial", "paper", TrialNames(res.trials));
    ColumnAppend(dr + pr, tr, "drug");
    ColumnAppend(dr, pr, "drug");
    ColumnAppend(dr + pr, tr, "paper");
    ColumnAppend(dr, pr, "paper");
    ColumnAppend(dr + pr, tr, "trial");
    ColumnAppend(dr, pr, "trial");
  }

  /** A non-empty `SearchResults` value is written under the fixed header,
      and its drug, paper and trial rows give back, in order, the brand and
      generic names, the titles and ids, and the ids and statuses. */
  lemma ResultsRoundTrip(res: SearchResults)
    requires |res.drugs| + |res.papers| + |res.trials| > 0
    ensures ToCsv(Results(res)) == Ok(Some(Csv(ResultsHeader, ResultRows(res))))
    ensures Column(ResultRows(res), "drug") == DrugNames(res.drugs)
    ensures Column(ResultRows(res), "paper") == PaperNames(res.papers)
    ensures Column(ResultRows(res), "trial") == TrialNames(res.trials)
  {
    var recs: seq<Record> := Flatten(Results(res)).value;
    var nd, np := |res.drugs|, |res.papers|;
    if nd > 0 {
      KindRecordRow("drug", DrugNames(res.drugs)[0]);
    } else if np > 0 {
      KindRecordRow("paper", PaperNames(res.papers)[0]);
    } else {
      KindRecordRow("trial", TrialNames(res.trials)[0]);
    }
    assert KeysOf(recs[0]) == ResultsHeader;
    ResultsWritten(res);
    ResultColumns(res);
  }

  /** Empty results write no file. */
  lemma EmptyResultsWriteNothing(meta: Option<SearchMetadata>)
    ensures ToCsv(Results(SearchResults([], [], [], meta))) == Ok(None)
    ensures ToCsv(Items([])) == Ok(None)
    ensures ToCsv(Other) == Ok(None)
  {
  }

  function PlainRows(vs: seq<Json>): (r: seq<seq<Json>>)
    ensures |r| == |vs| && forall k :: 0 <= k < |vs| ==> r[k] == [JStr(PyStr(vs[k]))]
  {
    if |vs| == 0 then [] else [[JStr(PyStr(vs[0]))]] + PlainRows(vs[1..])
  }

  /** A list of plain values is written under the single header "data",
      one row per element holding its `str()`. */
  lemma PlainItems(vs: seq<Json>, items: seq<Item>)
    requires |vs| > 0 && |items| == |vs|
    requires forall k :: 0 <= k < |vs| ==> items[k] == Plain(vs[k])
    ensures ToCsv(Items(items)) == Ok(Some(Csv(["data"], PlainRows(vs))))
  {
    var recs := ItemRecords(items);
    PlainRecords(vs, items);
    assert KeysOf(recs[0]) == ["data"];
    WriteRowsExactly(["data"], recs, PlainRows(vs));
  }

  lemma PlainRecords(vs: seq<Json>, items: seq<Item>)
    requires |items| == |vs|
    requires forall k :: 0 <= k < |vs| ==> items[k] == Plain(vs[k])
    ensures forall k :: 0 <= k < |items| ==> ItemRecords(items)[k] == [("data", JStr(PyStr(vs[k])))]
    ensures forall k :: 0 <= k < |items| ==>
              Fits(["data"], ItemRecords(items)[k]) && Row(["data"], ItemRecords(items)[k]) == PlainRows(vs)[k]
  {
    var recs := ItemRecords(items);
    forall k | 0 <= k < |recs|
      ensures Fits(["data"], recs[k]) && Row(["data"], recs[k]) == PlainRows(vs)[k]
    {
      assert recs[k] == [("data", JStr(PyStr(vs[k])))];
    }
  }

  /** A list element with a key the first element lacks makes the writer
      raise. */
  lemma UnfitItemRaises(items: seq<Item>, k: int, m: int)
    requires 0 < k < |items| && 0 <= m < |ItemRecord(items[k])|
    requires ItemRecord(items[k])[m].0 !in KeysOf(ItemRecord(items[0]))
    ensures ToCsv(Items(items)) == Err(DictWriterError)
  {
    var recs := ItemRecords(items);
    assert recs[0] == ItemRecord(items[0]) && recs[k] == ItemRecord(items[k]);
    assert !Fits(KeysOf(recs[0]), recs[k]);
    assert WriteRows(KeysOf(recs[0]), recs).Err?;
  }

  /** A list that starts with a model and also holds a plain value: the
      plain value's "data" key is not among the model's fields, and the
      writer raises. */
  lemma MixedListRaises(items: seq<Item>, i: int)
    requires 0 < i < |items| && items[0].Dumped? && items[i].Plain?
    requires "data" !in KeysOf(items[0].dump)
    ensures ToCsv(Items(items)) == Err(DictWriterError)
  {
    UnfitItemRaises(items, i, 0);
  }

  /** A later model with fewer fields than the first gets empty cells for
      the missing ones. */
  lemma MissingFieldsEmpty(first: Record, later: Record, key: string)
    requires |first| > 0 && Fits(KeysOf(first), later)
    requires key in KeysOf(first) && key !in KeysOf(later)
    ensures ToCsv(Items([Dumped(first), Dumped(later)])).Ok?
    ensures var csv := ToCsv(Items([Dumped(first), Dumped(later)])).value.value;
            forall k :: 0 <= k < |csv.header| && csv.header[k] == key ==> csv.rows[1][k] == JStr("")
  {
    var recs: seq<Record> := ItemRecords([Dumped(first), Dumped(later)]);
    assert recs[0] == first && recs[1] == later;
    assert Fits(KeysOf(first), first);
  }

  /** A `ConditionSummary` without drugs is written exactly like search
      results holding its papers and trials: under the fixed header, its
      paper and trial rows give back the titles and ids and the ids and
      statuses, in order, and there are no drug rows. */
  lemma SummaryRoundTrip(s: ConditionSummary)
    requires |s.drugs| == 0 && |s.papers| + |s.trials| > 0
    ensures ToCsv(Summary(s)) == Ok(Some(Csv(ResultsHeader, ResultRows(SearchResults([], s.papers, s.trials, None)))))
    ensures Column(ResultRows(SearchResults([], s.papers, s.trials, None)), "drug") == []
    ensures Column(ResultRows(SearchResults([], s.papers, s.trials, None)), "paper") == PaperNames(s.papers)
    ensures Column(ResultRows(SearchResults([], s.papers, s.trials, None)), "trial") == TrialNames(s.trials)
  {
    var res := SearchResults([], s.papers, s.trials, None);
    SummaryFlattensAsResults(s);
    assert ToCsv(Summary(s)) == ToCsv(Results(res));
    ResultsRoundTrip(res);
  }

  lemma SummaryFlattensAsResults(s: ConditionSummary)
    requires |s.drugs| == 0
    ensures Flatten(Summary(s)) == Flatten(Results(SearchResults([], s.papers, s.trials, None)))
  {
    var pr, tr := KindRecords("paper", PaperNames(s.papers)), KindRecords("trial", TrialNames(s.trials));
    assert KindRecords("drug", DrugNames([])) == [];
    assert [] + pr + tr == pr + tr;
    assert Flatten(Summary(s)) == Ok(pr + tr);
  }

  /** A `ConditionSummary` naming any drug raises before anything is
      written. */
  lemma SummaryWithDrugsRaises(s: ConditionSummary)
    requires |s.drugs| > 0
    ensures ToCsv(Summary(s)) == Err(AttributeError)
  {
  }
}
