/**
 * `vehicle_detection_by_size.py`: the older pipeline, built on the root
 * generator, that always waits 30 seconds between submit and fetch.
 */
module DetectionBySize {
  import opened Wrappers
  import opened DetectionRanges
  import opened ResultShaper
  import opened Athena
  import RootSqlQueriesGenerator

  /** The fixed wait, in seconds. */
  const FixedWait := 30

  /** The class the source spells `VehicleDetetionPrecentage`. */
  class VehicleDetectionPercentage {
    const blockSize: BlockSizeArg
    const database: string
    const bucketName: string
    const outputLocation: string

    constructor (blockSize: BlockSizeArg := IntVal(10))
      ensures this.blockSize == blockSize
      ensures database == "mobileye_detect_vehicle_db"
      ensures bucketName == "vehicledetectionbucket"
      ensures outputLocation == "s3://vehicledetectionbucket/athena_result/"
    {
      this.blockSize := blockSize;
      database := "mobileye_detect_vehicle_db";
      bucketName := "vehicledetectionbucket";
      outputLocation := "s3://vehicledetectionbucket/athena_result/";
    }

    /**
     * `generate_true_detection_data`: as in `src/main.py`, but with the root
     * generator and a fixed 30-second wait that reads no setting.
     */
    method GenerateTrueDetectionData(world: World) returns (outcome: Outcome)
      modifies world
      ensures var p := Pipeline(RootSqlQueriesGenerator.QueryFor(blockSize), database, outputLocation,
        FixedWait, world.submitReply, world.fetchReply);
        world.calls == old(world.calls) + p.0 && outcome == p.1
    {
      var sqlQuery := RootSqlQueriesGenerator.CreateQueryByRange(blockSize);
      if sqlQuery == None {
        return Exit(1);
      }
      var queryExecutionId := world.RunSqlQuery(sqlQuery.value, database, outputLocation);
      if queryExecutionId.Failure? {
        return Returned(None);
      }
      world.Sleep(30);
      var jsonData := world.GetQueryResult(queryExecutionId.value);
      if jsonData.Failure? {
        return Returned(None);
      }
      var df := FormatOutputData(jsonData.value);
      if df.Failure? {
        return Returned(None);
      }
      return Returned(Some(df.value));
    }
  }

  /**
   * Every wait of a run is exactly 30 seconds, whatever the replies, and an
   * invalid block size never reaches Athena.
   */
  lemma WaitIsFixed(blockSize: BlockSizeArg, submitReply: Result<string, string>,
                    fetchReply: string -> Result<seq<seq<Cell>>, string>)
    ensures var calls := Pipeline(RootSqlQueriesGenerator.QueryFor(blockSize), "mobileye_detect_vehicle_db",
        "s3://vehicledetectionbucket/athena_result/", FixedWait, submitReply, fetchReply).0;
      (forall i :: 0 <= i < |calls| && calls[i].Sleep? ==> calls[i].seconds == 30) &&
      (!RootSqlQueriesGenerator.ValidateDetectionRangeValue(blockSize) ==> calls == [])
  {
  }

  /** A pipeline made without a block size works on blocks of 10. */
  method DefaultBlockSize() returns (bs: BlockSizeArg)
    ensures bs == IntVal(10)
  {
    var job := new VehicleDetectionPercentage();
    bs := job.blockSize;
  }
}
