/**
 * `src/main.py`: the pipeline that builds the range query with the `src/`
 * generator, submits it, waits for the clamped `SLEEP_TIME`, fetches the
 * result and shapes it into a table.
 */
module DetectionPercentage {
  import opened Wrappers
  import Text
  import opened DetectionRanges
  import opened ResultShaper
  import opened Athena
  import SqlQueriesGenerator

  class VehicleDetectionPercentage {
    const blockSize: BlockSizeArg
    /** The Athena database name. */
    const database: string
    const bucketName: string
    /** The S3 location Athena writes the result to. */
    const outputLocation: string

    /** Remembers the block size, 10 by default, and fixes the database and bucket names. */
    constructor (blockSize: BlockSizeArg := IntVal(10))
      ensures this.blockSize == blockSize
      ensures database == "mobileye_detect_vehicle_db"
      ensures bucketName == "vehicledetectionbucket"
      ensures outputLocation == "s3://vehicledetectionbucket/athena_result/"
    {
      this.blockSize := blockSize;
      database := "mobileye_detect_vehicle_db";
      bucketName := "vehicledetectionbucket";
      outputLocation := "s3://vehicledetectionbucket/athena_result/";
    }

    /**
     * `get_sleep_time`: the `SLEEP_TIME` text, "30" when unset, read by
     * `parse` (Python's `int`); unreadable or negative gives 30, above 120
     * gives 120.
     */
    static function GetSleepTime(setting: Option<string>, parse: string -> Option<int>): (t: int)
      ensures 0 <= t <= 120
    {
      var v := parse(setting.GetOr("30")).GetOr(30);
      if v < 0 then 30 else if v > 120 then 120 else v
    }

    /** This copy of the sleep-time rule agrees with `QueryAthena._get_sleep_time` on every setting. */
    static lemma SleepTimesAgree(setting: Option<string>, parse: string -> Option<int>)
      ensures GetSleepTime(setting, parse) == SqlQueriesGenerator.GetSleepTime(setting, parse)
    {
      assert Text.IntToString(SqlQueriesGenerator.DefaultSleepTime) == "30";
    }

    /**
     * `generate_true_detection_data`: no query for the block size exits
     * with status 1 before Athena is called; otherwise submit, sleep for the
     * resolved duration, fetch by the returned id and shape, any exception
     * giving `None`.
     */
    method GenerateTrueDetectionData(world: World, parse: string -> Option<int>) returns (outcome: Outcome)
      modifies world
      ensures var p := Pipeline(SqlQueriesGenerator.QueryFor(blockSize), database, outputLocation,
        GetSleepTime(world.sleepSetting, parse), world.submitReply, world.fetchReply);
        world.calls == old(world.calls) + p.0 && outcome == p.1
    {
      var sqlQuery := SqlQueriesGenerator.CreateQueryByRange(blockSize);
      if sqlQuery.None? {
        return Exit(1);
      }
      var queryExecutionId := world.RunSqlQuery(sqlQuery.value, database, outputLocation);
      if queryExecutionId.Failure? {
        return Returned(None);
      }
      world.Sleep(GetSleepTime(world.sleepSetting, parse));
      var jsonData := world.GetQueryResult(queryExecutionId.value);
      if jsonData.Failure? {
        return Returned(None);
      }
      var df := FormatOutputData(jsonData.value);
      if df.Failure? {
        return Returned(None);
      }
      return Returned(Some(df.value));
    }
  }

  /**
   * Whatever the setting and the replies, every wait of a run lies in
   * [0, 120] seconds, and an invalid block size never reaches Athena.
   */
  lemma RunIsSafe(blockSize: BlockSizeArg, setting: Option<string>, parse: string -> Option<int>,
                  submitReply: Result<string, string>, fetchReply: string -> Result<seq<seq<Cell>>, string>)
    ensures var calls := Pipeline(SqlQueriesGenerator.QueryFor(blockSize), "mobileye_detect_vehicle_db",
        "s3://vehicledetectionbucket/athena_result/",
        VehicleDetectionPercentage.GetSleepTime(setting, parse), submitReply, fetchReply).0;
      (forall i :: 0 <= i < |calls| && calls[i].Sleep? ==> 0 <= calls[i].seconds <= 120) &&
      (!SqlQueriesGenerator.ValidateDetectionRangeValue(blockSize) ==> calls == [])
  {
  }

  /** A pipeline made without a block size works on blocks of 10. */
  method DefaultBlockSize() returns (bs: BlockSizeArg)
    ensures bs == IntVal(10)
  {
    var job := new VehicleDetectionPercentage();
    bs := job.blockSize;
  }
}
