/**
 The boundary to the relational store. Reads are an uninterpreted function
 of the query; writes are not performed but returned as `Op` values in the
 order the pipeline issues them.
 */
module Store {
  import opened Values
  import opened Text

  /** One filter of a select: `.eq(field, value)` or
      `.filter(field, "ilike", "%value%")`. */
  datatype Filter =
    | Eq(field: string, value: Json)
    | ILike(field: string, value: Json)

  datatype Query = Select(table: string, filters: seq<Filter>)

  /** `table.insert(rows)` or `table.update(payload).eq(k1, v1).eq(k2, v2)...`. */
  datatype Op =
    | Insert(table: string, rows: seq<Record>)
    | Update(table: string, where: seq<(string, Json)>, payload: Record)

  /** The rows the store answers `q` with once the writes in `issued` (the
      ones this unit of work already made) have been applied. */
  type Store = (seq<Op>, Query) -> seq<Record>

  /** What a filter means for a row: equality, or case-insensitive substring
      containment for `ilike '%v%'` on text (wildcards inside `v` are not
      modelled). A value that is not a string is sent as its Python `str`,
      which is not modelled: such a filter constrains nothing here, so a
      faithful store may answer it with any row. */
  predicate Holds(row: Record, f: Filter) {
    match f
    case Eq(k, v) => k in row && row[k] == v
    case ILike(k, v) =>
      v.JStr? ==> k in row && row[k].JStr? && ContainsIgnoringCase(row[k].s, v.s)
  }

  /** A store that only returns rows satisfying every filter of the query. */
  ghost predicate Faithful(store: Store) {
    forall issued, q, i :: 0 <= i < |store(issued, q)| ==>
      forall j :: 0 <= j < |q.filters| ==> Holds(store(issued, q)[i], q.filters[j])
  }

  /** Every row the store returns for any query, under any history, holds
      text or nothing in the named columns (they are text columns). */
  ghost predicate TextColumns(store: Store, cols: seq<string>) {
    forall issued, q, i, j :: 0 <= i < |store(issued, q)| && 0 <= j < |cols| ==>
      TextLike(Get(store(issued, q)[i], cols[j]))
  }

  /** How a node that can raise ends: it returns its result after its
      writes, or it raises after the writes issued before the exception. */
  datatype Run = Returned(result: Record, ops: seq<Op>) | Raised(ops: seq<Op>)
}
