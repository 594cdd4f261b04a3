/**
 * `sql_queries_generator.py` at the top of the repository: the older copy
 * of the query generator, with the bounds held as the class attributes
 * `LOWER_BOUND` and `UPPER_BOUND`. It runs the same loop and templates as
 * the copy under `src/`.
 */
module RootSqlQueriesGenerator {
  import opened Wrappers
  import opened Text
  import opened Templates
  import opened DetectionRanges
  import SqlQueriesGenerator

  /** `SqlQueriesGenerator.LOWER_BOUND`. */
  const LowerBound := 1
  /** `SqlQueriesGenerator.UPPER_BOUND`. */
  const UpperBound := 100

  /** `_validate_detection_range_value`: an int within the class bounds. */
  function ValidateDetectionRangeValue(arg: BlockSizeArg): (ok: bool)
    ensures ok <==> arg.IntVal? && LowerBound <= arg.n <= UpperBound
  {
    if !arg.IntVal? then false
    else if arg.n < LowerBound || arg.n > UpperBound then false
    else true
  }

  /** What `create_query_by_range` returns for `arg`. */
  function QueryFor(arg: BlockSizeArg): Option<string> {
    if !ValidateDetectionRangeValue(arg) then None
    else Some(ReplaceAll(Show(QueryTemplate), Marker(PlaceHolder), Render(Blocks(LowerBound, UpperBound, arg.n))))
  }

  /**
   * `create_query_by_range`: `None` when validation fails; otherwise the
   * lines of the range loop substituted for `###PLACE_HOLDER###`.
   */
  method CreateQueryByRange(arg: BlockSizeArg) returns (query: Option<string>)
    ensures query.None? <==> !ValidateDetectionRangeValue(arg)
    ensures query == QueryFor(arg)
  {
    if ValidateDetectionRangeValue(arg) == false {
      return None;
    }
    var lines := RangeLines(LowerBound, UpperBound, arg.n);
    query := Some(ReplaceAll(Show(QueryTemplate), Marker(PlaceHolder), lines));
  }

  /**
   * The two copies accept the same sizes and build the same query, so every
   * property proved of the `src/` copy holds of this one: for a valid size
   * the result is the outer query with its one placeholder replaced and no
   * marker left.
   */
  lemma CopiesAgree(arg: BlockSizeArg)
    ensures ValidateDetectionRangeValue(arg) == SqlQueriesGenerator.ValidateDetectionRangeValue(arg)
    ensures QueryFor(arg) == SqlQueriesGenerator.QueryFor(arg)
    ensures QueryFor(arg).Some? ==>
      QueryFor(arg).value == Head + (Render(Blocks(LowerBound, UpperBound, arg.n)) + Tail) &&
      forall slot: Slot :: !Contains(QueryFor(arg).value, Marker(slot))
  {
    if QueryFor(arg).Some? {
      SqlQueriesGenerator.QueryComplete(arg.n);
    }
  }
}
