/**
 * `FactoryWorkerMonitor`: the state the monitor updates frame by frame and
 * the report it builds from it. Clock readings and the contours of a frame
 * are parameters.
 */
module Monitor {
  import opened Wrappers
  import opened Rounding
  import opened Detector
  import opened Aggregator
  import opened PerformanceMetrics
  import opened ReportAssembly

  class FactoryWorkerMonitor {
    /** `workers_data`, and the order in which its keys were first inserted. */
    var workersData: map<string, WorkerData>
    var workerOrder: seq<string>
    /** The `last_activity_time` dictionary of the running analysis session. */
    var lastActivityTime: map<string, real>
    /** Percentage of foreground above which a blob is active. */
    var motionThreshold: real
    /** Seconds without activity before idle time accrues. */
    var idleThreshold: real
    var startTime: Option<real>
    var frameCount: nat

    /** The dictionaries as one value. */
    function Snapshot(): Ledger
      reads this
    {
      Ledger(workerOrder, workersData, lastActivityTime)
    }

    ghost predicate Valid()
      reads this
    {
      Aggregator.Valid(Snapshot())
    }

    /** A monitor with the default thresholds and no data. */
    constructor ()
      ensures Valid()
      ensures workersData == map[] && workerOrder == [] && lastActivityTime == map[]
      ensures motionThreshold == 25.0 && idleThreshold == 5.0
      ensures startTime == None && frameCount == 0
    {
      workersData := map[];
      workerOrder := [];
      lastActivityTime := map[];
      motionThreshold := 25.0;
      idleThreshold := 5.0;
      startTime := None;
      frameCount := 0;
    }

    /**
     * The start of `analyze_video_stream`: record the start time and begin
     * with an empty `last_activity_time`; the totals of earlier sessions stay.
     */
    method StartSession(now: real)
      requires Valid()
      modifies this
      ensures Valid()
      ensures startTime == Some(now) && lastActivityTime == map[]
      ensures workersData == old(workersData) && workerOrder == old(workerOrder)
      ensures frameCount == old(frameCount)
      ensures motionThreshold == old(motionThreshold) && idleThreshold == old(idleThreshold)
    {
      startTime := Some(now);
      lastActivityTime := map[];
    }

    /** A `workers_data[id]` lookup, which creates the default entry when id is new. */
    method TouchWorker(id: string)
      modifies this`workersData, this`workerOrder
      ensures workersData == if id in old(workersData) then old(workersData) else old(workersData)[id := NEW_WORKER]
      ensures workerOrder == if id in old(workersData) then old(workerOrder) else old(workerOrder) + [id]
    {
      if id !in workersData {
        workersData := workersData[id := NEW_WORKER];
        workerOrder := workerOrder + [id];
      }
    }

    /**
     * The body of the per-worker loop for one blob of the frame taken at
     * `now`; `lookupTime` is the clock reading a first
     * `last_activity_time` lookup stores.
     */
    method UpdateWorker(b: Blob, now: real, lookupTime: real)
      requires startTime.Some?
      modifies this`workersData, this`workerOrder, this`lastActivityTime
      ensures Snapshot() == ObserveBlob(old(Snapshot()), b, now, lookupTime, startTime.value, idleThreshold)
    {
      ghost var l := Snapshot();
      ghost var e := EntryOf(l, b.id);
      if b.isActive {
        TouchWorker(b.id);
        var d := workersData[b.id];
        workersData := workersData[b.id := d.(productiveTime := d.productiveTime + FRAME_INTERVAL)];
        lastActivityTime := lastActivityTime[b.id := now];
      } else {
        if b.id !in lastActivityTime {
          lastActivityTime := lastActivityTime[b.id := lookupTime];
        }
        var idleDuration := now - lastActivityTime[b.id];
        if idleDuration > idleThreshold {
          TouchWorker(b.id);
          var d := workersData[b.id];
          workersData := workersData[b.id := d.(idleTime := d.idleTime + FRAME_INTERVAL)];
        }
      }
      TouchWorker(b.id);
      var d := workersData[b.id];
      workersData := workersData[b.id := d.(totalWorkTime := now - startTime.value)];
    }

    /**
     * One pass of the analysis loop over a frame taken at `now`: count the
     * frame, detect its workers, and update each worker's totals.
     */
    method ProcessFrame(contours: seq<Contour>, now: real, lookupTime: real)
      requires Valid() && startTime.Some?
      modifies this
      ensures Valid()
      ensures frameCount == old(frameCount) + 1
      ensures startTime == old(startTime)
      ensures Snapshot() == ObserveAll(old(Snapshot()), Detected(contours, motionThreshold, |contours|),
                                       now, lookupTime, startTime.value, idleThreshold)
      ensures motionThreshold == old(motionThreshold) && idleThreshold == old(idleThreshold)
    {
      frameCount := frameCount + 1;
      var workers := DetectWorkers(contours, motionThreshold);
      ghost var before := Snapshot();
      var i := 0;
      while i < |workers|
        invariant 0 <= i <= |workers|
        invariant startTime == old(startTime) && frameCount == old(frameCount) + 1
        invariant motionThreshold == old(motionThreshold) && idleThreshold == old(idleThreshold)
        invariant Snapshot() == ObserveAll(before, workers[..i], now, lookupTime, startTime.value, idleThreshold)
      {
        UpdateWorker(workers[i], now, lookupTime);
        assert workers[..i + 1][..i] == workers[..i];
        i := i + 1;
      }
      assert workers[..|workers|] == workers;
      ObserveAllValid(before, workers, now, lookupTime, startTime.value, idleThreshold);
    }

    /** `total_elapsed`: zero when the start time is unset (or zero). */
    function Elapsed(now: real): (e: real)
      reads this
      ensures startTime.None? || startTime.value == 0.0 ==> e == 0.0
      ensures startTime.Some? && startTime.value != 0.0 ==> startTime.value + e == now
      ensures startTime.Some? && startTime.value <= now ==> e >= 0.0
    {
      if startTime.Some? && startTime.value != 0.0 then now - startTime.value else 0.0
    }

    /** `session_info` at time `now`. */
    function SessionInfoAt(now: real): (info: SessionInfo)
      reads this
      ensures info.durationSeconds == Round2(Elapsed(now))
      ensures info.totalWorkers == |workersData| && info.totalFramesProcessed == frameCount
    {
      SessionInfo(Round2(Elapsed(now)), |workersData|, frameCount)
    }

    /** The loop of `generate_report` that computes one metrics entry per worker. */
    method CollectMetrics() returns (entries: seq<Option<Metrics>>)
      requires Valid()
      ensures forall k :: 0 <= k < |workerOrder| ==> workerOrder[k] in workersData
      ensures entries == MetricsEntries(workerOrder, workersData)
    {
      entries := [];
      var i := 0;
      while i < |workerOrder|
        invariant 0 <= i <= |workerOrder|
        invariant entries == MetricsEntries(workerOrder[..i], workersData)
      {
        var id := workerOrder[i];
        var d := workersData[id];
        entries := entries + [CalculatePerformanceMetrics(id, d.productiveTime, d.idleTime, d.totalWorkTime)];
        assert workerOrder[..i + 1][..i] == workerOrder[..i];
        i := i + 1;
      }
      assert workerOrder[..|workerOrder|] == workerOrder;
    }

    /**
     * `generate_report` at time `now`, as written: it fails with a KeyError
     * exactly when some worker has zero total time; otherwise it reports
     * every worker, as many as `total_workers` says, and has aggregate
     * statistics exactly when there is a worker.
     */
    method GenerateReport(now: real) returns (r: Result<Report, ReportError>)
      requires Valid()
      ensures forall k :: 0 <= k < |workerOrder| ==> workerOrder[k] in workersData
      ensures r == AssembleAsWritten(SessionInfoAt(now), MetricsEntries(workerOrder, workersData))
      ensures r.Failure? <==> exists id :: id in workersData && workersData[id].totalWorkTime == 0.0
      ensures r.Success? ==>
        && r.value.sessionInfo.totalWorkers == |r.value.workers|
        && r.value.sessionInfo.totalFramesProcessed == frameCount
        && (r.value.aggregateStatistics.Some? <==> r.value.workers != [])
    {
      var entries := CollectMetrics();
      r := AssembleAsWritten(SessionInfoAt(now), entries);
      ReportOfLedger(Snapshot(), SessionInfoAt(now));
      if r.Success? {
        ReportListsLedger(Snapshot(), SessionInfoAt(now));
      }
    }

    /**
     * `generate_report` with workers whose metrics are empty left out of the
     * list; `total_workers` still counts every worker.
     */
    method GenerateReportSkippingEmpty(now: real) returns (r: Report)
      requires Valid()
      ensures forall k :: 0 <= k < |workerOrder| ==> workerOrder[k] in workersData
      ensures r == AssembleSkippingEmpty(SessionInfoAt(now), MetricsEntries(workerOrder, workersData))
      ensures r.sessionInfo.totalWorkers == |workersData| && r.sessionInfo.totalFramesProcessed == frameCount
      ensures r.aggregateStatistics.Some? <==> r.workers != []
    {
      var entries := CollectMetrics();
      r := AssembleSkippingEmpty(SessionInfoAt(now), entries);
    }
  }
}
