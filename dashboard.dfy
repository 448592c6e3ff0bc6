/** The data-preparation layer of the dashboard script, run in the
    script's order: the five metric lookups, the selection of each daily
    table's "Date" column, the detection of the three measure columns, then
    the profit card text and the pie rows. Any failure stops the run before
    any metric card or chart is shown. */
module Dashboard {
  import opened Wrappers
  import opened Errors
  import opened KpiIndex
  import opened ColumnDetection
  import opened ProfitDisplay
  import opened PieSlice

  /** The header every daily table is expected to have. */
  const DateHeader: string := "Date"

  /** Everything the page needs from the sheets. */
  datatype Prepared = Prepared(
    kpis: Kpis,
    columns: MeasureColumns,
    profitText: string,
    pieRows: seq<KpiRow>)

  /** The three `df["Date"]` selections of the date fix, in the script's
      order (customer counts, retention, profit): each fails with a
      `KeyError` for "Date" when its table has no header "Date". */
  function RequireDateColumns(countHeaders: seq<string>, retentionHeaders: seq<string>,
                              profitHeaders: seq<string>): (r: Result<(), Error>)
    ensures r.Ok? <==> DateHeader in countHeaders && DateHeader in retentionHeaders && DateHeader in profitHeaders
    ensures r.Err? ==> r.error == MissingColumn(DateHeader)
  {
    if DateHeader !in countHeaders then Err(MissingColumn(DateHeader))
    else if DateHeader !in retentionHeaders then Err(MissingColumn(DateHeader))
    else if DateHeader !in profitHeaders then Err(MissingColumn(DateHeader))
    else Ok(())
  }

  /** The whole layer. It succeeds exactly when all five metrics occur, every
      daily table has a "Date" header and a matching measure header; the
      first failing step, in script order, decides the error; on success the
      cards, the profit text, the pie rows and the columns are those the
      steps compute. */
  function Prepare(kpiRows: seq<KpiRow>, countHeaders: seq<string>,
                   retentionHeaders: seq<string>, profitHeaders: seq<string>): (r: Result<Prepared, Error>)
    ensures r.Ok? <==>
      && (forall k :: k in RequiredNames ==> k in Names(kpiRows))
      && DateHeader in countHeaders && DateHeader in retentionHeaders && DateHeader in profitHeaders
      && HasMatch(countHeaders, CountKeyword)
      && HasMatch(retentionHeaders, RetentionKeyword)
      && HasMatch(profitHeaders, ProfitKeyword)
    ensures ReadKpis(kpiRows).Err? ==> r == Err(ReadKpis(kpiRows).error)
    ensures ReadKpis(kpiRows).Ok? && RequireDateColumns(countHeaders, retentionHeaders, profitHeaders).Err? ==>
      r == Err(MissingColumn(DateHeader))
    ensures (&& ReadKpis(kpiRows).Ok?
             && RequireDateColumns(countHeaders, retentionHeaders, profitHeaders).Ok?
             && DetectColumns(countHeaders, retentionHeaders, profitHeaders).Err?) ==>
      r == Err(DetectColumns(countHeaders, retentionHeaders, profitHeaders).error)
    ensures r.Ok? ==>
      && Ok(r.value.kpis) == ReadKpis(kpiRows)
      && Ok(r.value.columns) == DetectColumns(countHeaders, retentionHeaders, profitHeaders)
      && r.value.profitText == FormatProfit(r.value.kpis.grossProfit)
      && r.value.pieRows == PieRows(kpiRows)
    ensures r.Ok? ==> forall i :: IsLastRowFor(kpiRows, GrossProfit, i) ==>
      r.value.profitText == FormatProfit(kpiRows[i].value)
  {
    var kpis :- ReadKpis(kpiRows);
    var _ :- RequireDateColumns(countHeaders, retentionHeaders, profitHeaders);
    var columns :- DetectColumns(countHeaders, retentionHeaders, profitHeaders);
    Ok(Prepared(kpis, columns, FormatProfit(kpis.grossProfit), PieRows(kpiRows)))
  }

  /** A daily customer table without a "Date" header stops the run even when
      every metric and every measure column is present. */
  lemma MissingDateStopsRun(kpiRows: seq<KpiRow>)
    requires forall k :: k in RequiredNames ==> k in Names(kpiRows)
    ensures Prepare(kpiRows, ["Day", "Count"], ["Date", "Retention"], ["Date", "Profit"])
         == Err(MissingColumn(DateHeader))
  {
  }
}
