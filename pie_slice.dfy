/** The rows behind the new-versus-old customers pie chart: the KPI rows
    whose metric is one of two names, in sheet order. */
module PieSlice {
  import opened KpiIndex

  /** The metric names the pie chart shows. */
  const PieNames: set<string> := {NewCustomers, OldCustomers}

  /** `df[df["Metric"].isin(names)]`: the rows whose metric is in `names`,
      in their original order. */
  function SelectRows(rows: seq<KpiRow>, names: set<string>): (r: seq<KpiRow>)
    ensures |r| <= |rows|
    ensures forall k :: 0 <= k < |r| ==> r[k].metric in names
    decreases |rows|
  {
    if rows == [] then []
    else
      var last := rows[|rows| - 1];
      SelectRows(rows[..|rows| - 1], names) + (if last.metric in names then [last] else [])
  }

  /** The positions of the rows that are kept, in increasing order. */
  ghost function KeptPositions(rows: seq<KpiRow>, names: set<string>): seq<int>
    decreases |rows|
  {
    if rows == [] then []
    else
      KeptPositions(rows[..|rows| - 1], names)
      + (if rows[|rows| - 1].metric in names then [|rows| - 1] else [])
  }

  /** `pos` lists positions below `bound` in strictly increasing order. */
  ghost predicate IncreasingBelow(pos: seq<int>, bound: int) {
    && (forall k :: 0 <= k < |pos| ==> 0 <= pos[k] < bound)
    && (forall k, l :: 0 <= k < l < |pos| ==> pos[k] < pos[l])
  }

  /** Kept positions are positions of the sheet, in increasing order. */
  lemma {:induction false} KeptPositionsIncrease(rows: seq<KpiRow>, names: set<string>)
    ensures IncreasingBelow(KeptPositions(rows, names), |rows|)
    decreases |rows|
  {
    if rows != [] {
      var n := |rows|;
      var frontPos := KeptPositions(rows[..n - 1], names);
      KeptPositionsIncrease(rows[..n - 1], names);
      var pos := KeptPositions(rows, names);
      assert pos == frontPos + (if rows[n - 1].metric in names then [n - 1] else []);
      assert forall k :: 0 <= k < |frontPos| ==> pos[k] == frontPos[k] < n - 1;
    }
  }

  /** A position is kept exactly when its row's metric is selected. */
  lemma {:induction false} KeptPositionsAreSelected(rows: seq<KpiRow>, names: set<string>)
    ensures forall i :: 0 <= i < |rows| ==> (rows[i].metric in names <==> i in KeptPositions(rows, names))
    decreases |rows|
  {
    if rows != [] {
      var front := rows[..|rows| - 1];
      KeptPositionsAreSelected(front, names);
      KeptPositionsIncrease(front, names);
      assert forall i :: 0 <= i < |front| ==> rows[i] == front[i];
    }
  }

  /** The k-th selected row is the row at the k-th kept position. */
  lemma {:induction false} SelectRowsAtKeptPositions(rows: seq<KpiRow>, names: set<string>)
    ensures var r, pos := SelectRows(rows, names), KeptPositions(rows, names);
      && |pos| == |r|
      && (forall k :: 0 <= k < |pos| ==> 0 <= pos[k] < |rows| && r[k] == rows[pos[k]])
    decreases |rows|
  {
    KeptPositionsIncrease(rows, names);
    if rows != [] {
      var front := rows[..|rows| - 1];
      SelectRowsAtKeptPositions(front, names);
      KeptPositionsIncrease(front, names);
      var frontPos := KeptPositions(front, names);
      assert forall k :: 0 <= k < |frontPos| ==> rows[frontPos[k]] == front[frontPos[k]];
    }
  }

  /** The selection is an order-preserving subsequence of the rows: its
      k-th row is the row at the k-th kept position, the positions increase,
      and a position is kept exactly when its row's metric is in `names`. */
  lemma SelectRowsIsOrderedSubsequence(rows: seq<KpiRow>, names: set<string>)
    ensures var r, pos := SelectRows(rows, names), KeptPositions(rows, names);
      && |pos| == |r|
      && (forall k :: 0 <= k < |pos| ==> 0 <= pos[k] < |rows| && r[k] == rows[pos[k]])
      && (forall k, l :: 0 <= k < l < |pos| ==> pos[k] < pos[l])
      && (forall i :: 0 <= i < |rows| ==> (rows[i].metric in names <==> i in pos))
  {
    KeptPositionsIncrease(rows, names);
    KeptPositionsAreSelected(rows, names);
    SelectRowsAtKeptPositions(rows, names);
  }

  /** No row is duplicated or dropped: each row occurs in the selection as
      often as in the sheet if its metric is selected, and never otherwise. */
  lemma {:induction false} SelectRowsCounts(rows: seq<KpiRow>, names: set<string>, x: KpiRow)
    ensures multiset(SelectRows(rows, names))[x] == if x.metric in names then multiset(rows)[x] else 0
    decreases |rows|
  {
    if rows != [] {
      var n := |rows|;
      var front := rows[..n - 1];
      SelectRowsCounts(front, names, x);
      assert rows == front + [rows[n - 1]];
    }
  }

  /** Selecting every metric name of the sheet keeps all rows. */
  lemma {:induction false} SelectAllNamesKeepsAll(rows: seq<KpiRow>, names: set<string>)
    requires Names(rows) <= names
    ensures SelectRows(rows, names) == rows
    decreases |rows|
  {
    if rows != [] {
      var n := |rows|;
      var front := rows[..n - 1];
      NamesOfSnoc(rows);
      SelectAllNamesKeepsAll(front, names);
      assert rows == front + [rows[n - 1]];
    }
  }

  /** Selecting no names yields no rows. */
  lemma SelectNoNamesIsEmpty(rows: seq<KpiRow>)
    ensures SelectRows(rows, {}) == []
  {
  }

  /** The pie chart's rows: every "New Customers" and "Old Customers" row of
      the sheet, and nothing else, in sheet order. */
  function PieRows(rows: seq<KpiRow>): (r: seq<KpiRow>)
    ensures |r| <= |rows|
    ensures forall k :: 0 <= k < |r| ==> r[k].metric == NewCustomers || r[k].metric == OldCustomers
    ensures forall x :: multiset(r)[x] ==
                        (if x.metric == NewCustomers || x.metric == OldCustomers then multiset(rows)[x] else 0)
    ensures var pos := KeptPositions(rows, PieNames);
      && |pos| == |r|
      && (forall k :: 0 <= k < |pos| ==> 0 <= pos[k] < |rows| && r[k] == rows[pos[k]])
      && (forall k, l :: 0 <= k < l < |pos| ==> pos[k] < pos[l])
      && (forall i :: 0 <= i < |rows| ==> (rows[i].metric in PieNames <==> i in pos))
  {
    SelectRowsIsOrderedSubsequence(rows, PieNames);
    forall x ensures multiset(SelectRows(rows, PieNames))[x] ==
      if x.metric in PieNames then multiset(rows)[x] else 0
    {
      SelectRowsCounts(rows, PieNames, x);
    }
    SelectRows(rows, PieNames)
  }
}
