/** `FactoryWorkerMonitor.generate_report`, from the metrics entries on. */
module ReportAssembly {
  import opened Wrappers
  import opened Rounding
  import opened Aggregator
  import opened PerformanceMetrics

  /** `session_info`, without the formatted start-time string. */
  datatype SessionInfo = SessionInfo(durationSeconds: real, totalWorkers: nat, totalFramesProcessed: nat)

  /** `aggregate_statistics`. */
  datatype AggregateStatistics = AggregateStatistics(
    averagePerformanceScore: real,
    averageProductivityRate: real,
    totalEffectiveWorkingHours: real)

  /** A finished report; the aggregate section is absent when no worker is listed. */
  datatype Report = Report(sessionInfo: SessionInfo, workers: seq<Metrics>, aggregateStatistics: Option<AggregateStatistics>)

  /** The exception the aggregation raises on an empty metrics entry. */
  datatype ReportError = KeyError(key: string)

  /** The metrics entry of one `workers_data` item (none for `{}`). */
  function EntryMetrics(id: string, d: WorkerData): Option<Metrics>
  {
    CalculatePerformanceMetrics(id, d.productiveTime, d.idleTime, d.totalWorkTime)
  }

  /** The entries the report loop appends, one per key in insertion order. */
  function MetricsEntries(order: seq<string>, workers: map<string, WorkerData>): seq<Option<Metrics>>
    requires forall k :: 0 <= k < |order| ==> order[k] in workers
  {
    if order == [] then []
    else
      var last := order[|order| - 1];
      MetricsEntries(order[..|order| - 1], workers) + [EntryMetrics(last, workers[last])]
  }

  /** One entry per key, in order, each the metrics of that key's totals. */
  lemma {:induction false} MetricsEntriesAt(order: seq<string>, workers: map<string, WorkerData>)
    requires forall k :: 0 <= k < |order| ==> order[k] in workers
    ensures var es := MetricsEntries(order, workers);
      && |es| == |order|
      && forall k :: 0 <= k < |order| ==> es[k] == EntryMetrics(order[k], workers[order[k]])
  {
    if order != [] {
      MetricsEntriesAt(order[..|order| - 1], workers);
    }
  }

  function Scores(ws: seq<Metrics>): seq<real>
  {
    seq(|ws|, k requires 0 <= k < |ws| => ws[k].performanceScore)
  }

  function ProductivityRates(ws: seq<Metrics>): seq<real>
  {
    seq(|ws|, k requires 0 <= k < |ws| => ws[k].productivityRate)
  }

  function WorkingHours(ws: seq<Metrics>): seq<real>
  {
    seq(|ws|, k requires 0 <= k < |ws| => ws[k].effectiveWorkingHours)
  }

  /** Means of the reported scores and rates and the total of the reported hours, rounded. */
  function AggregateOf(ws: seq<Metrics>): (r: Option<AggregateStatistics>)
    ensures r.Some? <==> ws != []
  {
    if ws == [] then None
    else Some(AggregateStatistics(
      Round2(Mean(Scores(ws))),
      Round2(Mean(ProductivityRates(ws))),
      Round2(Sum(WorkingHours(ws)))))
  }

  /** The report over a list of metrics. */
  function Assemble(info: SessionInfo, ws: seq<Metrics>): Report
  {
    Report(info, ws, AggregateOf(ws))
  }

  /** No entry is the empty result. */
  predicate AllPresent(entries: seq<Option<Metrics>>)
  {
    forall k :: 0 <= k < |entries| ==> entries[k].Some?
  }

  /** The non-empty entries, in order. */
  function Present(entries: seq<Option<Metrics>>): seq<Metrics>
  {
    if entries == [] then []
    else
      var last := entries[|entries| - 1];
      Present(entries[..|entries| - 1]) + (if last.Some? then [last.value] else [])
  }

  /** Present keeps exactly the metrics that occur in the entries. */
  lemma {:induction false} PresentMembership(entries: seq<Option<Metrics>>, m: Metrics)
    ensures m in Present(entries) <==> Some(m) in entries
  {
    if entries != [] {
      var init := entries[..|entries| - 1];
      PresentMembership(init, m);
      assert entries == init + [entries[|entries| - 1]];
    }
  }

  /** The positions of the non-empty entries, in order. */
  function PresentIndices(entries: seq<Option<Metrics>>): seq<nat>
  {
    if entries == [] then []
    else
      var n := |entries| - 1;
      PresentIndices(entries[..n]) + (if entries[n].Some? then [n] else [])
  }

  /**
   * Present takes the entries at strictly increasing positions, a position
   * exactly when its entry is not empty, and lists their metrics in that order.
   */
  lemma {:induction false} PresentSpec(entries: seq<Option<Metrics>>)
    ensures var ps, ws := PresentIndices(entries), Present(entries);
      && |ws| == |ps|
      && (forall k :: 0 <= k < |ps| ==> ps[k] < |entries| && entries[ps[k]] == Some(ws[k]))
      && (forall j, k :: 0 <= j < k < |ps| ==> ps[j] < ps[k])
      && (forall i :: 0 <= i < |entries| ==> (i in ps <==> entries[i].Some?))
  {
    if entries != [] {
      var n := |entries| - 1;
      PresentSpec(entries[..n]);
      assert n !in PresentIndices(entries[..n]);
    }
  }

  /** When no entry is empty, Present lists every entry's metrics, in order. */
  lemma {:induction false} PresentOfFull(entries: seq<Option<Metrics>>)
    requires AllPresent(entries)
    ensures var ws := Present(entries);
      |ws| == |entries| && forall k :: 0 <= k < |entries| ==> entries[k] == Some(ws[k])
  {
    if entries != [] {
      PresentOfFull(entries[..|entries| - 1]);
    }
  }

  /**
   * The report as lines 251-270 build it: every entry is listed, empty or
   * not, and a non-empty list whose entries include an empty one makes the
   * aggregate computation raise a KeyError.
   */
  function AssembleAsWritten(info: SessionInfo, entries: seq<Option<Metrics>>): (r: Result<Report, ReportError>)
    ensures r.Failure? <==> !AllPresent(entries)
    ensures r.Success? ==> r.value.sessionInfo == info && (r.value.aggregateStatistics.Some? <==> entries != [])
  {
    if AllPresent(entries) then Success(Assemble(info, Present(entries)))
    else Failure(KeyError("performance_score"))
  }

  /** The report with empty entries left out, so that it can always be assembled. */
  function AssembleSkippingEmpty(info: SessionInfo, entries: seq<Option<Metrics>>): (r: Report)
    ensures r.sessionInfo == info
    ensures r.aggregateStatistics == AggregateOf(r.workers)
    ensures r.aggregateStatistics.Some? <==> r.workers != []
    ensures forall m :: m in r.workers <==> Some(m) in entries
    ensures var ps := PresentIndices(entries);
      && |r.workers| == |ps|
      && (forall k :: 0 <= k < |ps| ==> ps[k] < |entries| && entries[ps[k]] == Some(r.workers[k]))
  {
    forall m ensures m in Present(entries) <==> Some(m) in entries {
      PresentMembership(entries, m);
    }
    PresentSpec(entries);
    Assemble(info, Present(entries))
  }

  /** Wherever the report as written succeeds, it is the report that skips empty entries. */
  lemma AsWrittenAgreesWhenFull(info: SessionInfo, entries: seq<Option<Metrics>>)
    requires AllPresent(entries)
    ensures AssembleAsWritten(info, entries) == Success(AssembleSkippingEmpty(info, entries))
    ensures var ws := AssembleSkippingEmpty(info, entries).workers;
      |ws| == |entries| && forall k :: 0 <= k < |entries| ==> entries[k] == Some(ws[k])
  {
    PresentOfFull(entries);
  }

  /** Worker entries whose total time is zero leave the report as written without a result. */
  lemma EmptyEntryBreaksAggregates()
    ensures var entries := MetricsEntries(["worker_0"], map["worker_0" := WorkerData(0.0, 0.0, FRAME_INTERVAL)]);
      && AssembleAsWritten(SessionInfo(0.0, 1, 1), entries) == Failure(KeyError("performance_score"))
      && AssembleSkippingEmpty(SessionInfo(0.0, 1, 1), entries).workers == []
      && AssembleSkippingEmpty(SessionInfo(0.0, 1, 1), entries).aggregateStatistics == None
  {
    var order, workers := ["worker_0"], map["worker_0" := WorkerData(0.0, 0.0, FRAME_INTERVAL)];
    assert order[..0] == [];
    assert EntryMetrics("worker_0", workers["worker_0"]) == None;
    var entries := MetricsEntries(order, workers);
    assert entries == MetricsEntries(order[..0], workers) + [EntryMetrics(order[0], workers[order[0]])];
    assert entries == [None];
    assert Present([]) == [];
  }

  /** The reported total of hours is the exact sum of the listed (rounded) hours. */
  lemma TotalHoursIsSum(ws: seq<Metrics>)
    requires ws != []
    requires forall k :: 0 <= k < |ws| ==> IsHundredths(ws[k].effectiveWorkingHours)
    ensures AggregateOf(ws).value.totalEffectiveWorkingHours == Sum(WorkingHours(ws))
  {
    SumOfHundredths(WorkingHours(ws));
    Round2Fixes(Sum(WorkingHours(ws)));
  }

  /** With every listed score in [0, 100], the average score is too. */
  lemma AverageScoreInRange(ws: seq<Metrics>)
    requires ws != []
    requires forall k :: 0 <= k < |ws| ==> 0.0 <= ws[k].performanceScore <= 100.0
    ensures 0.0 <= AggregateOf(ws).value.averagePerformanceScore <= 100.0
  {
    MeanBounds(Scores(ws), 0.0, 100.0);
    assert IsHundredths(0.0) && IsHundredths(100.0);
    Round2Within(Mean(Scores(ws)), 0.0, 100.0);
  }

  /** Every entry of a valid ledger is present exactly when no worker has zero total time. */
  lemma LedgerEntriesPresent(l: Ledger)
    requires Valid(l)
    ensures forall k :: 0 <= k < |l.order| ==> l.order[k] in l.workers
    ensures AllPresent(MetricsEntries(l.order, l.workers))
      <==> forall id :: id in l.workers ==> l.workers[id].totalWorkTime != 0.0
  {
    var entries := MetricsEntries(l.order, l.workers);
    MetricsEntriesAt(l.order, l.workers);
    if !AllPresent(entries) {
      var k :| 0 <= k < |entries| && entries[k].None?;
      assert l.workers[l.order[k]].totalWorkTime == 0.0;
    } else {
      forall id | id in l.workers
        ensures l.workers[id].totalWorkTime != 0.0
      {
        var k :| 0 <= k < |l.order| && l.order[k] == id;
        assert entries[k].Some?;
      }
    }
  }

  /**
   * When no worker has zero total time, the report over a valid ledger
   * lists one entry per `workers_data` item in insertion order, as many as
   * the map has, each the metrics of that item.
   */
  lemma ReportListsLedger(l: Ledger, info: SessionInfo)
    requires Valid(l)
    requires forall id :: id in l.workers ==> l.workers[id].totalWorkTime != 0.0
    ensures forall k :: 0 <= k < |l.order| ==> l.order[k] in l.workers
    ensures var r := AssembleAsWritten(info, MetricsEntries(l.order, l.workers));
      && r.Success?
      && |r.value.workers| == |l.order| == |l.workers|
      && (forall k :: 0 <= k < |l.order| ==>
            && r.value.workers[k].workerId == l.order[k]
            && Some(r.value.workers[k]) == EntryMetrics(l.order[k], l.workers[l.order[k]]))
  {
    LedgerEntriesPresent(l);
    var entries := MetricsEntries(l.order, l.workers);
    assert AllPresent(entries);
    MetricsEntriesAt(l.order, l.workers);
    OrderLength(l);
    PresentOfFull(entries);
    var ws := Present(entries);
    var r := AssembleAsWritten(info, entries);
    assert r == Success(Assemble(info, ws));
    assert r.value.workers == ws && |ws| == |l.order|;
    forall k | 0 <= k < |l.order|
      ensures ws[k].workerId == l.order[k]
      ensures Some(ws[k]) == EntryMetrics(l.order[k], l.workers[l.order[k]])
    {
      assert entries[k] == Some(ws[k]);
    }
  }

  /**
   * The report over a valid ledger fails exactly when some worker has zero
   * total time, and otherwise has aggregate statistics exactly when the map
   * is not empty.
   */
  lemma ReportOfLedger(l: Ledger, info: SessionInfo)
    requires Valid(l)
    ensures forall k :: 0 <= k < |l.order| ==> l.order[k] in l.workers
    ensures var r := AssembleAsWritten(info, MetricsEntries(l.order, l.workers));
      && (r.Failure? <==> exists id :: id in l.workers && l.workers[id].totalWorkTime == 0.0)
      && (r.Success? ==> (r.value.aggregateStatistics.Some? <==> |l.workers| > 0))
  {
    LedgerEntriesPresent(l);
    MetricsEntriesAt(l.order, l.workers);
    OrderLength(l);
  }
}
