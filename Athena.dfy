/**
 * The outside world of `generate_true_detection_data`: the Athena client
 * (`run_sql_query`, `get_query_result`) and `time.sleep`. Each call is
 * recorded in order; the replies of the service are fixed in advance, and a
 * call that raises is a `Failure` carrying the exception's message.
 */
module Athena {
  import opened Wrappers
  import opened ResultShaper

  /** One effect on the outside world. */
  datatype Call =
    | RunSqlQuery(query: string, database: string, outputLocation: string)
    | Sleep(seconds: int)
    | GetQueryResult(executionId: string)

  /** How a run ends: the process exits with a status, or the method returns a table or `None`. */
  datatype Outcome = Exit(status: int) | Returned(table: Option<Table>)

  class World {
    /** The calls made so far, oldest first. */
    var calls: seq<Call>
    /** What `run_sql_query` returns (the execution id) or raises. */
    const submitReply: Result<string, string>
    /** What `get_query_result` returns (the result rows) or raises, for each execution id. */
    const fetchReply: string -> Result<seq<seq<Cell>>, string>
    /** The `SLEEP_TIME` environment variable, when it is set. */
    const sleepSetting: Option<string>

    constructor (submitReply: Result<string, string>, fetchReply: string -> Result<seq<seq<Cell>>, string>,
                 sleepSetting: Option<string>)
      ensures calls == []
      ensures this.submitReply == submitReply && this.fetchReply == fetchReply
      ensures this.sleepSetting == sleepSetting
    {
      calls := [];
      this.submitReply := submitReply;
      this.fetchReply := fetchReply;
      this.sleepSetting := sleepSetting;
    }

    /** `QueryAthena.run_sql_query`: starts the query and returns its execution id. */
    method RunSqlQuery(query: string, database: string, outputLocation: string) returns (id: Result<string, string>)
      modifies this
      ensures calls == old(calls) + [Call.RunSqlQuery(query, database, outputLocation)]
      ensures id == submitReply
    {
      calls := calls + [Call.RunSqlQuery(query, database, outputLocation)];
      id := submitReply;
    }

    /** `time.sleep`: waits `seconds`; only the duration is recorded. */
    method Sleep(seconds: int)
      modifies this
      ensures calls == old(calls) + [Call.Sleep(seconds)]
    {
      calls := calls + [Call.Sleep(seconds)];
    }

    /** `QueryAthena.get_query_result`: the result rows of execution `id`. */
    method GetQueryResult(id: string) returns (rows: Result<seq<seq<Cell>>, string>)
      modifies this
      ensures calls == old(calls) + [Call.GetQueryResult(id)]
      ensures rows == fetchReply(id)
    {
      calls := calls + [Call.GetQueryResult(id)];
      rows := fetchReply(id);
    }
  }

  /**
   * The calls a run makes and how it ends, for the generated `query`, a
   * wait of `wait` seconds and the service's replies: no query ends the
   * process with status 1 before anything is submitted; otherwise the query
   * is submitted, and when that succeeds the run waits, fetches the result
   * of the returned execution id and shapes it. Any exception on the way
   * ends in `None`.
   */
  function Pipeline(query: Option<string>, database: string, outputLocation: string, wait: int,
                    submitReply: Result<string, string>, fetchReply: string -> Result<seq<seq<Cell>>, string>)
    : (seq<Call>, Outcome)
  {
    if query.None? then ([], Exit(1))
    else
      var submitted := [Call.RunSqlQuery(query.value, database, outputLocation)];
      match submitReply
      case Failure(_) => (submitted, Returned(None))
      case Success(id) =>
        var calls := submitted + [Call.Sleep(wait), Call.GetQueryResult(id)];
        match fetchReply(id)
        case Failure(_) => (calls, Returned(None))
        case Success(rows) => (calls, Returned(FormatOutputData(rows).ToOption()))
  }

  /** A run exits, always with status 1, exactly when there is no query, and then it has called nothing. */
  lemma PipelineExit(query: Option<string>, database: string, outputLocation: string, wait: int,
                     submitReply: Result<string, string>, fetchReply: string -> Result<seq<seq<Cell>>, string>)
    ensures var (calls, outcome) := Pipeline(query, database, outputLocation, wait, submitReply, fetchReply);
      (outcome.Exit? <==> query.None?) && (outcome.Exit? ==> outcome.status == 1 && calls == [])
  {
  }

  /**
   * The calls come in the order submit, wait, fetch, the fetch asks for the
   * execution id the submit returned, and the run waits only after a
   * successful submit and only for `wait` seconds.
   */
  lemma PipelineOrder(query: Option<string>, database: string, outputLocation: string, wait: int,
                      submitReply: Result<string, string>, fetchReply: string -> Result<seq<seq<Cell>>, string>)
    requires query.Some?
    ensures var calls := Pipeline(query, database, outputLocation, wait, submitReply, fetchReply).0;
      calls[..1] == [Call.RunSqlQuery(query.value, database, outputLocation)] &&
      (submitReply.Failure? ==> |calls| == 1) &&
      (submitReply.Success? ==> calls[1..] == [Call.Sleep(wait), Call.GetQueryResult(submitReply.value)])
  {
  }

  /**
   * A run returns a table exactly when submit, fetch and shaping all
   * succeed, and the table is the shaped result; every failure on the way
   * returns `None`.
   */
  lemma PipelineResult(query: Option<string>, database: string, outputLocation: string, wait: int,
                       submitReply: Result<string, string>, fetchReply: string -> Result<seq<seq<Cell>>, string>,
                       t: Table)
    ensures var outcome := Pipeline(query, database, outputLocation, wait, submitReply, fetchReply).1;
      outcome == Returned(Some(t)) <==>
        query.Some? && submitReply.Success? && fetchReply(submitReply.value).Success? &&
        FormatOutputData(fetchReply(submitReply.value).value) == Success(t)
    ensures var outcome := Pipeline(query, database, outputLocation, wait, submitReply, fetchReply).1;
      var failed := submitReply.Failure? || fetchReply(submitReply.value).Failure? ||
        FormatOutputData(fetchReply(submitReply.value).value).Failure?;
      query.Some? && failed ==> outcome == Returned(None)
  {
  }
}
