/** The fatal errors of the data-preparation layer of the dashboard. */
module Errors {

  datatype Error =
      /** A required KPI name is not a key of the metric dictionary
          (Python raises `KeyError` carrying the name). */
    | MissingMetric(name: string)
      /** A table has no column with exactly this header, so selecting it
          with `df[name]` raises `KeyError` carrying the name. */
    | MissingColumn(name: string)
      /** No column header contains the keyword, so indexing the empty list
          of matches with `[0]` raises `IndexError`. */
    | NoMatchingColumn(keyword: string)
}
