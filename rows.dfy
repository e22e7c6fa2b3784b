/**
 * The shared row-walking contract of every resolver: execute a statement, apply
 * the mapper to every row in store order, pushing each mapped object, and then
 * return either the whole vector (list cardinality) or its last element through
 * `pop().unwrap()` (single cardinality).
 *
 * A mapper is `Row -> Option<T>`: None stands for a panic inside it, which in
 * the source is an `unwrap()` on a missing or mistyped column.
 */
module Rows {
  import opened Cypher

  /**
   * What a resolver call ends in. Only `Ok` and `QueryFailed` are values the
   * resolver returns; the other three are panics of the request.
   */
  datatype Outcome<+T> =
    | Ok(value: T)
    | QueryFailed(err: DriverError)   // `exec(..)?` hands the driver error back
    | QueryPanicked(err: DriverError) // `result.unwrap()` panics on the driver error
    | MappingFailed(row: nat)         // the mapper panics on this row
    | NotFound                        // `pop().unwrap()` panics on an empty vector
  {
    predicate Panicked()
    {
      QueryPanicked? || MappingFailed? || NotFound?
    }
  }

  /** The vector after the loop, or the first row on which the mapper panicked. */
  datatype Mapped<+T> = Mapped(objects: seq<T>) | FailedAt(index: nat)

  /** The `for row in result.rows() { objects.push(mapper(&row)) }` loop, one push at a time. */
  function MapRows<T>(rows: seq<Row>, mapper: Row -> Option<T>): (r: Mapped<T>)
    ensures r.Mapped? ==> |r.objects| == |rows|
    ensures r.FailedAt? ==> r.index < |rows|
    decreases |rows|
  {
    if rows == [] then Mapped([])
    else
      match MapRows(rows[..|rows| - 1], mapper)
      case FailedAt(i) => FailedAt(i)
      case Mapped(objects) =>
        match mapper(rows[|rows| - 1])
        case None => FailedAt(|rows| - 1)
        case Some(x) => Mapped(objects + [x])
  }

  /** List cardinality: every mapped row, in store order. */
  function ManyOutcome<T>(result: ExecResult, mapper: Row -> Option<T>): Outcome<seq<T>>
  {
    match result
    case DriverErr(e) => QueryFailed(e)
    case Rows(rows) =>
      match MapRows(rows, mapper)
      case FailedAt(i) => MappingFailed(i)
      case Mapped(objects) => Ok(objects)
  }

  /** Single cardinality: the last element of the mapped vector, popped and unwrapped. */
  function OneOutcome<T>(result: ExecResult, mapper: Row -> Option<T>): Outcome<T>
  {
    match result
    case DriverErr(e) => QueryFailed(e)
    case Rows(rows) =>
      match MapRows(rows, mapper)
      case FailedAt(i) => MappingFailed(i)
      case Mapped(objects) => if objects == [] then NotFound else Ok(objects[|objects| - 1])
  }

  /** What `result.unwrap()` in place of `?` makes of an outcome: a `QueryFailed` becomes `QueryPanicked`. */
  function UnwrapExec<T>(o: Outcome<T>): (r: Outcome<T>)
    ensures !r.QueryFailed?
    ensures r.Ok? <==> o.Ok?
    ensures r.Ok? ==> r.value == o.value
    ensures o.Panicked() ==> r == o
    ensures o.QueryFailed? ==> r == QueryPanicked(o.err)
  {
    if o.QueryFailed? then QueryPanicked(o.err) else o
  }

  /** The mapper succeeds on every row. */
  ghost predicate AllMap<T>(rows: seq<Row>, mapper: Row -> Option<T>)
  {
    forall k :: 0 <= k < |rows| ==> mapper(rows[k]).Some?
  }

  /** Row `i` is the first row the mapper fails on. */
  ghost predicate FirstFailure<T>(rows: seq<Row>, mapper: Row -> Option<T>, i: nat)
  {
    i < |rows| && mapper(rows[i]).None? && forall k :: 0 <= k < i ==> mapper(rows[k]).Some?
  }

  lemma MapRowsMappedIff<T>(rows: seq<Row>, mapper: Row -> Option<T>, objects: seq<T>)
    ensures MapRows(rows, mapper) == Mapped(objects) <==>
              |objects| == |rows| && forall k :: 0 <= k < |rows| ==> mapper(rows[k]) == Some(objects[k])
  {
    if MapRows(rows, mapper) == Mapped(objects) {
      MappedOnlyByRows(rows, mapper, objects);
    }
    if |objects| == |rows| && forall k :: 0 <= k < |rows| ==> mapper(rows[k]) == Some(objects[k]) {
      MappedByRows(rows, mapper, objects);
    }
  }

  /** A completed loop holds the mapper's value on every row, in store order. */
  lemma {:induction false} MappedOnlyByRows<T>(rows: seq<Row>, mapper: Row -> Option<T>, objects: seq<T>)
    requires MapRows(rows, mapper) == Mapped(objects)
    ensures |objects| == |rows| && forall k :: 0 <= k < |rows| ==> mapper(rows[k]) == Some(objects[k])
    decreases |rows|
  {
    if rows != [] {
      var n := |rows| - 1;
      var init := rows[..n];
      var front := MapRows(init, mapper).objects;
      assert objects == front + [objects[n]];
      MappedOnlyByRows(init, mapper, front);
      assert forall k :: 0 <= k < n ==> init[k] == rows[k] && front[k] == objects[k];
    }
  }

  /** When every row maps to the object at its position, the loop completes with those objects. */
  lemma {:induction false} MappedByRows<T>(rows: seq<Row>, mapper: Row -> Option<T>, objects: seq<T>)
    requires |objects| == |rows| && forall k :: 0 <= k < |rows| ==> mapper(rows[k]) == Some(objects[k])
    ensures MapRows(rows, mapper) == Mapped(objects)
    decreases |rows|
  {
    if rows != [] {
      var n := |rows| - 1;
      var init, front := rows[..n], objects[..n];
      assert forall k :: 0 <= k < n ==> init[k] == rows[k] && front[k] == objects[k];
      MappedByRows(init, mapper, front);
      assert mapper(rows[n]) == Some(objects[n]);
      assert objects == front + [objects[n]];
    }
  }

  lemma {:induction false} MapRowsFailedAtIff<T>(rows: seq<Row>, mapper: Row -> Option<T>, i: nat)
    ensures MapRows(rows, mapper) == FailedAt(i) <==> FirstFailure(rows, mapper, i)
    decreases |rows|
  {
    if rows != [] {
      var n := |rows| - 1;
      var init := rows[..n];
      assert forall k :: 0 <= k < n ==> init[k] == rows[k];
      MapRowsFailedAtIff(init, mapper, i);
      if MapRows(init, mapper).Mapped? {
        MapRowsMappedIff(init, mapper, MapRows(init, mapper).objects);
      } else {
        MapRowsFailedAtIff(init, mapper, MapRows(init, mapper).index);
      }
    }
  }

  lemma MapRowsAllOrFirstFailure<T>(rows: seq<Row>, mapper: Row -> Option<T>)
    ensures MapRows(rows, mapper).Mapped? <==> AllMap(rows, mapper)
    ensures MapRows(rows, mapper).FailedAt? ==> FirstFailure(rows, mapper, MapRows(rows, mapper).index)
  {
    match MapRows(rows, mapper)
    case Mapped(objects) => MapRowsMappedIff(rows, mapper, objects);
    case FailedAt(i) => MapRowsFailedAtIff(rows, mapper, i);
  }

  /** A driver error is handed back unchanged, whatever the mapper. */
  lemma DriverErrorBeforeMapping<T>(e: DriverError, m1: Row -> Option<T>, m2: Row -> Option<T>)
    ensures ManyOutcome(DriverErr(e), m1) == ManyOutcome(DriverErr(e), m2) == QueryFailed(e)
    ensures OneOutcome(DriverErr(e), m1) == OneOutcome(DriverErr(e), m2) == QueryFailed(e)
  {
  }

  /**
   * List cardinality succeeds exactly when every row maps, and then holds one
   * object per row, in store order; zero rows gives the empty list.
   */
  lemma ManyOk<T>(rows: seq<Row>, mapper: Row -> Option<T>, objects: seq<T>)
    ensures ManyOutcome(Rows(rows), mapper) == Ok(objects) <==>
              |objects| == |rows| && forall k :: 0 <= k < |rows| ==> mapper(rows[k]) == Some(objects[k])
  {
    MapRowsMappedIff(rows, mapper, objects);
  }

  /** List cardinality fails on the first row the mapper fails on, and never reports NotFound. */
  lemma ManyFails<T>(result: ExecResult, mapper: Row -> Option<T>, i: nat)
    ensures ManyOutcome(result, mapper) == MappingFailed(i) <==>
              result.Rows? && FirstFailure(result.rows, mapper, i)
    ensures !ManyOutcome(result, mapper).NotFound?
    ensures !ManyOutcome(result, mapper).QueryPanicked?
  {
    if result.Rows? {
      MapRowsFailedAtIff(result.rows, mapper, i);
    }
  }

  /**
   * Single cardinality succeeds exactly when there is at least one row and
   * every row maps, and then returns the last row's object.
   */
  lemma OneOk<T>(rows: seq<Row>, mapper: Row -> Option<T>, v: T)
    ensures OneOutcome(Rows(rows), mapper) == Ok(v) <==>
              |rows| > 0 && AllMap(rows, mapper) && mapper(rows[|rows| - 1]) == Some(v)
  {
    MapRowsAllOrFirstFailure(rows, mapper);
    if MapRows(rows, mapper).Mapped? {
      MapRowsMappedIff(rows, mapper, MapRows(rows, mapper).objects);
    }
  }

  /** Single cardinality reports NotFound exactly when the store returned no rows. */
  lemma OneNotFound<T>(result: ExecResult, mapper: Row -> Option<T>)
    ensures OneOutcome(result, mapper) == NotFound <==> result == Rows([])
  {
  }

  /** Single cardinality fails on the first failing row, exactly as list cardinality does. */
  lemma OneFails<T>(result: ExecResult, mapper: Row -> Option<T>, i: nat)
    ensures OneOutcome(result, mapper) == MappingFailed(i) <==>
              result.Rows? && FirstFailure(result.rows, mapper, i)
    ensures !OneOutcome(result, mapper).QueryPanicked?
  {
    if result.Rows? {
      MapRowsFailedAtIff(result.rows, mapper, i);
    }
  }

  /**
   * The mapper runs on every row, not only the last: a failure on any row, the
   * last one mapping or not, fails the call at that row or an earlier one.
   */
  lemma AnyFailureFailsOne<T>(rows: seq<Row>, mapper: Row -> Option<T>, i: nat)
    requires i < |rows| && mapper(rows[i]).None?
    ensures OneOutcome(Rows(rows), mapper).MappingFailed?
    ensures OneOutcome(Rows(rows), mapper).row <= i
  {
    MapRowsAllOrFirstFailure(rows, mapper);
  }

  /** When every row maps, the single result depends only on the last row. */
  lemma OneDependsOnlyOnLast<T>(rows1: seq<Row>, rows2: seq<Row>, mapper: Row -> Option<T>)
    requires |rows1| > 0 && |rows2| > 0
    requires AllMap(rows1, mapper) && AllMap(rows2, mapper)
    requires rows1[|rows1| - 1] == rows2[|rows2| - 1]
    ensures OneOutcome(Rows(rows1), mapper) == OneOutcome(Rows(rows2), mapper)
    ensures OneOutcome(Rows(rows1), mapper).Ok?
  {
    var v := mapper(rows1[|rows1| - 1]).value;
    OneOk(rows1, mapper, v);
    OneOk(rows2, mapper, v);
  }

  /** Single cardinality is list cardinality followed by taking the last element. */
  lemma OneIsLastOfMany<T>(result: ExecResult, mapper: Row -> Option<T>)
    ensures ManyOutcome(result, mapper) == Ok([]) ==> OneOutcome(result, mapper) == NotFound
    ensures ManyOutcome(result, mapper).Ok? && ManyOutcome(result, mapper).value != [] ==>
              OneOutcome(result, mapper) == Ok(ManyOutcome(result, mapper).value[|ManyOutcome(result, mapper).value| - 1])
    ensures !ManyOutcome(result, mapper).Ok? ==> OneOutcome(result, mapper) == match ManyOutcome(result, mapper)
      case QueryFailed(e) => QueryFailed(e)
      case MappingFailed(i) => MappingFailed(i)
      case _ => NotFound
  {
  }
}
