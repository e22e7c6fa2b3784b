/**
 * The generic single-result executor: run a statement on the request's
 * connection, map every row with a caller-supplied mapper, and return the last
 * mapped item.
 */
module Neo {
  import opened Cypher
  import opened Rows

  /** `new_from_row`: hands the row to the mapper; `Call` applies it to every row. */
  function NewFromRow<T>(mapper: Row -> Option<T>, row: Row): Option<T>
  {
    mapper(row)
  }

  /**
   * `call`: `exec` stands for the connection's `exec`. The driver error is
   * handed back through `?` before any row is looked at; otherwise every row
   * is mapped in store order into `objects`, and the last one is popped.
   * `mapped` counts the rows the mapper was applied to.
   */
  method Call<T>(exec: string -> ExecResult, statement: string, mapper: Row -> Option<T>)
    returns (out: Outcome<T>, ghost mapped: nat)
    ensures out == OneOutcome(exec(statement), mapper)
    ensures exec(statement).DriverErr? ==> mapped == 0
    ensures out.MappingFailed? ==> mapped == out.row + 1
    ensures exec(statement).Rows? && !out.MappingFailed? ==> mapped == |exec(statement).rows|
  {
    mapped := 0;
    var result := exec(statement);
    if result.DriverErr? {
      return QueryFailed(result.err), mapped;
    }
    var rows := result.rows;
    var objects: seq<T> := [];
    for i := 0 to |rows|
      invariant |objects| == i
      invariant mapped == i
      invariant forall k :: 0 <= k < i ==> mapper(rows[k]) == Some(objects[k])
    {
      var item := NewFromRow(mapper, rows[i]);
      mapped := mapped + 1;
      if item.None? {
        MapRowsFailedAtIff(rows, mapper, i);
        return MappingFailed(i), mapped;
      }
      objects := objects + [item.value];
    }
    MapRowsMappedIff(rows, mapper, objects);
    if |objects| == 0 {
      return NotFound, mapped;
    }
    var item := objects[|objects| - 1];
    objects := objects[..|objects| - 1];
    out := Ok(item);
  }
}
