/** The KPI summary sheet: its (Metric, Value) rows become a dictionary
    keyed by metric name, and the five metrics the dashboard shows are
    looked up in it by name. */
module KpiIndex {
  import opened Wrappers
  import opened Errors

  /** One row of the KPI sheet. Values are whole numbers in this model. */
  datatype KpiRow = KpiRow(metric: string, value: int)

  const TotalCustomers: string := "Total Customers"
  const NewCustomers: string := "New Customers"
  const OldCustomers: string := "Old Customers"
  const GrossProfit: string := "Gross Profit"
  const AverageRetention: string := "Average Retention (%)"

  /** The metric names the dashboard requires, in the order it reads them. */
  const RequiredNames: seq<string> :=
    [TotalCustomers, NewCustomers, OldCustomers, GrossProfit, AverageRetention]

  /** The five values shown on the metric cards. */
  datatype Kpis = Kpis(
    totalCustomers: int,
    newCustomers: int,
    oldCustomers: int,
    grossProfit: int,
    avgRetention: int)

  /** The metric names that occur in the rows. */
  ghost function Names(rows: seq<KpiRow>): set<string> {
    set i | 0 <= i < |rows| :: rows[i].metric
  }

  /** Row `i` is the last row of `rows` named `name`. */
  ghost predicate IsLastRowFor(rows: seq<KpiRow>, name: string, i: int) {
    && 0 <= i < |rows|
    && rows[i].metric == name
    && forall j :: i < j < |rows| ==> rows[j].metric != name
  }

  lemma NamesOfSnoc(rows: seq<KpiRow>)
    requires rows != []
    ensures Names(rows) == Names(rows[..|rows| - 1]) + {rows[|rows| - 1].metric}
  {
    var front := rows[..|rows| - 1];
    forall name | name in Names(rows) ensures name in Names(front) + {rows[|rows| - 1].metric} {
      var i :| 0 <= i < |rows| && rows[i].metric == name;
      if i < |rows| - 1 {
        assert front[i] == rows[i];
      }
    }
    forall name | name in Names(front) ensures name in Names(rows) {
      var i :| 0 <= i < |front| && front[i].metric == name;
      assert rows[i] == front[i];
    }
  }

  /** `dict(zip(Metric, Value))`: the rows are inserted in order, so a later
      row overwrites an earlier one with the same name. Its keys are exactly
      the metric names of the rows. */
  function Index(rows: seq<KpiRow>): (m: map<string, int>)
    ensures m.Keys == Names(rows)
    decreases |rows|
  {
    if rows == [] then map[]
    else
      NamesOfSnoc(rows);
      var last := rows[|rows| - 1];
      Index(rows[..|rows| - 1])[last.metric := last.value]
  }

  /** Subscripting the dictionary (`kpi[name]`): a present key yields its
      stored value; a missing key is a `KeyError` naming the key, never a
      default value. */
  function Lookup(m: map<string, int>, name: string): (r: Result<int, Error>)
    ensures r.Ok? <==> name in m
    ensures r.Ok? ==> r.value == m[name]
    ensures r.Err? ==> r.error == MissingMetric(name)
  {
    if name in m then Ok(m[name]) else Err(MissingMetric(name))
  }

  /** Last write wins: the indexed value of a name is that of its last row. */
  lemma {:induction false} LastRowWins(rows: seq<KpiRow>, name: string, i: int)
    requires IsLastRowFor(rows, name, i)
    ensures name in Index(rows) && Index(rows)[name] == rows[i].value
    decreases |rows|
  {
    var front := rows[..|rows| - 1];
    if i < |rows| - 1 {
      assert IsLastRowFor(front, name, i);
      LastRowWins(front, name, i);
    }
  }

  lemma IndexAgreesWithLastRows(rows: seq<KpiRow>)
    ensures forall name, i :: IsLastRowFor(rows, name, i) ==>
      name in Index(rows) && Index(rows)[name] == rows[i].value
  {
    forall name, i | IsLastRowFor(rows, name, i)
      ensures name in Index(rows) && Index(rows)[name] == rows[i].value
    {
      LastRowWins(rows, name, i);
    }
  }

  /** Every name that occurs has a last row. */
  lemma {:induction false} LastRowExists(rows: seq<KpiRow>, name: string)
    requires name in Names(rows)
    ensures exists i :: IsLastRowFor(rows, name, i)
    decreases |rows|
  {
    var n := |rows|;
    if rows[n - 1].metric == name {
      assert IsLastRowFor(rows, name, n - 1);
    } else {
      var front := rows[..n - 1];
      NamesOfSnoc(rows);
      LastRowExists(front, name);
      var i :| IsLastRowFor(front, name, i);
      assert IsLastRowFor(rows, name, i);
    }
  }

  /** Looking a name up in the dictionary built from the rows fails exactly
      when no row has that name, and otherwise yields the value of the last
      row with that name. */
  lemma LookupGivesLastValue(rows: seq<KpiRow>, name: string)
    ensures Lookup(Index(rows), name) == Err(MissingMetric(name)) <==> name !in Names(rows)
    ensures name in Names(rows) ==>
      exists i :: IsLastRowFor(rows, name, i) && Lookup(Index(rows), name) == Ok(rows[i].value)
  {
    if name in Names(rows) {
      LastRowExists(rows, name);
      var i :| IsLastRowFor(rows, name, i);
      LastRowWins(rows, name, i);
    }
  }

  /** A name carried by a single row maps to exactly that row's value. */
  lemma SingleRowGivesItsValue(rows: seq<KpiRow>, i: int)
    requires 0 <= i < |rows|
    requires forall j :: 0 <= j < |rows| && j != i ==> rows[j].metric != rows[i].metric
    ensures Lookup(Index(rows), rows[i].metric) == Ok(rows[i].value)
  {
    LastRowWins(rows, rows[i].metric, i);
  }

  /** `RequiredNames[j]` is the first required name with no row. */
  ghost predicate FirstMissingAt(rows: seq<KpiRow>, j: int) {
    && 0 <= j < |RequiredNames|
    && RequiredNames[j] !in Names(rows)
    && forall j' :: 0 <= j' < j ==> RequiredNames[j'] in Names(rows)
  }

  /** The five lookups of the metric cards, in the script's order; the first
      missing name stops the run. On success every card shows the value of
      the last row carrying its name. */
  function ReadKpis(rows: seq<KpiRow>): (r: Result<Kpis, Error>)
    ensures r.Ok? <==> forall k :: k in RequiredNames ==> k in Names(rows)
    ensures r.Err? ==> exists j :: FirstMissingAt(rows, j) && r.error == MissingMetric(RequiredNames[j])
    ensures r.Ok? ==> forall i ::
      && (IsLastRowFor(rows, TotalCustomers, i) ==> r.value.totalCustomers == rows[i].value)
      && (IsLastRowFor(rows, NewCustomers, i) ==> r.value.newCustomers == rows[i].value)
      && (IsLastRowFor(rows, OldCustomers, i) ==> r.value.oldCustomers == rows[i].value)
      && (IsLastRowFor(rows, GrossProfit, i) ==> r.value.grossProfit == rows[i].value)
      && (IsLastRowFor(rows, AverageRetention, i) ==> r.value.avgRetention == rows[i].value)
  {
    IndexAgreesWithLastRows(rows);
    var present := Names(rows);
    assert TotalCustomers !in present ==> FirstMissingAt(rows, 0);
    assert TotalCustomers in present && NewCustomers !in present ==> FirstMissingAt(rows, 1);
    assert (TotalCustomers in present && NewCustomers in present && OldCustomers !in present)
      ==> FirstMissingAt(rows, 2);
    assert (TotalCustomers in present && NewCustomers in present && OldCustomers in present
            && GrossProfit !in present)
      ==> FirstMissingAt(rows, 3);
    assert (TotalCustomers in present && NewCustomers in present && OldCustomers in present
            && GrossProfit in present && AverageRetention !in present)
      ==> FirstMissingAt(rows, 4);
    var m := Index(rows);
    var total :- Lookup(m, TotalCustomers);
    var newCustomers :- Lookup(m, NewCustomers);
    var oldCustomers :- Lookup(m, OldCustomers);
    var profit :- Lookup(m, GrossProfit);
    var retention :- Lookup(m, AverageRetention);
    Ok(Kpis(total, newCustomers, oldCustomers, profit, retention))
  }
}
