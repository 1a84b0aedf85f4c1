/**
 * What the usage examples derive from a report: the three alert lists of
 * `example_performance_alerts` and the top performer of
 * `example_video_file_analysis`.
 */
module Alerts {
  import opened Wrappers
  import opened PerformanceMetrics
  import opened ReportAssembly
  import Aggregator

  /** The three alert lists. */
  datatype AlertKind = LowProductivity | ExcessiveIdle | ExcellentPerformance

  /** The alerts dictionary: worker identifiers per list, in report order. */
  datatype Alerts = Alerts(lowProductivity: seq<string>, excessiveIdle: seq<string>, excellentPerformance: seq<string>)

  /** Whether a worker's reported metrics put it on a list. */
  predicate Triggers(kind: AlertKind, m: Metrics)
  {
    match kind
    case LowProductivity => m.performanceScore < 60.0
    case ExcessiveIdle => m.idleRate > 30.0
    case ExcellentPerformance => m.performanceScore >= 90.0
  }

  /** The identifiers a list holds after the loop has seen the first n workers. */
  function Flagged(ws: seq<Metrics>, kind: AlertKind, n: nat): seq<string>
    requires n <= |ws|
  {
    if n == 0 then []
    else Flagged(ws, kind, n - 1) + (if Triggers(kind, ws[n - 1]) then [ws[n - 1].workerId] else [])
  }

  /** The positions, in increasing order, of the workers among the first n that a list takes. */
  function FlaggedIndices(ws: seq<Metrics>, kind: AlertKind, n: nat): seq<nat>
    requires n <= |ws|
  {
    if n == 0 then []
    else FlaggedIndices(ws, kind, n - 1) + (if Triggers(kind, ws[n - 1]) then [n - 1] else [])
  }

  /**
   * `example_performance_alerts`: nothing for a missing report; otherwise
   * one pass over the workers appending each identifier to every list
   * whose condition it meets.
   */
  method PerformanceAlerts(report: Option<Report>) returns (alerts: Option<Alerts>)
    ensures alerts.None? <==> report.None?
    ensures report.Some? ==>
      var ws := report.value.workers;
      alerts == Some(Alerts(Flagged(ws, LowProductivity, |ws|),
                            Flagged(ws, ExcessiveIdle, |ws|),
                            Flagged(ws, ExcellentPerformance, |ws|)))
  {
    if report.None? {
      return None;
    }
    var ws := report.value.workers;
    var low, idle, excellent := [], [], [];
    var i := 0;
    while i < |ws|
      invariant 0 <= i <= |ws|
      invariant low == Flagged(ws, LowProductivity, i)
      invariant idle == Flagged(ws, ExcessiveIdle, i)
      invariant excellent == Flagged(ws, ExcellentPerformance, i)
    {
      var w := ws[i];
      if w.performanceScore < 60.0 {
        low := low + [w.workerId];
      }
      if w.idleRate > 30.0 {
        idle := idle + [w.workerId];
      }
      if w.performanceScore >= 90.0 {
        excellent := excellent + [w.workerId];
      }
      i := i + 1;
    }
    alerts := Some(Alerts(low, idle, excellent));
  }

  /**
   * A list is the identifiers of the workers meeting its condition, in
   * report order: its positions increase strictly and are exactly those
   * of the workers that meet the condition.
   */
  lemma {:induction false} FlaggedSpec(ws: seq<Metrics>, kind: AlertKind, n: nat)
    requires n <= |ws|
    ensures var ids, ks := Flagged(ws, kind, n), FlaggedIndices(ws, kind, n);
      && |ids| == |ks|
      && (forall k :: 0 <= k < |ks| ==> ks[k] < n && ids[k] == ws[ks[k]].workerId)
      && (forall j, k :: 0 <= j < k < |ks| ==> ks[j] < ks[k])
      && (forall i :: 0 <= i < n ==> (i in ks <==> Triggers(kind, ws[i])))
  {
    if n > 0 {
      FlaggedSpec(ws, kind, n - 1);
      assert n - 1 !in FlaggedIndices(ws, kind, n - 1);
    }
  }

  /** An identifier is on a list exactly when some worker with it meets the list's condition. */
  lemma FlaggedMembership(ws: seq<Metrics>, kind: AlertKind, id: string)
    ensures id in Flagged(ws, kind, |ws|) <==> exists i :: 0 <= i < |ws| && ws[i].workerId == id && Triggers(kind, ws[i])
  {
    FlaggedSpec(ws, kind, |ws|);
    var ids, ks := Flagged(ws, kind, |ws|), FlaggedIndices(ws, kind, |ws|);
    if id in ids {
      var k :| 0 <= k < |ids| && ids[k] == id;
      assert ks[k] in ks;
    }
    if exists i :: 0 <= i < |ws| && ws[i].workerId == id && Triggers(kind, ws[i]) {
      var i :| 0 <= i < |ws| && ws[i].workerId == id && Triggers(kind, ws[i]);
      var k :| 0 <= k < |ks| && ks[k] == i;
      assert ids[k] == id;
    }
  }

  /** The identifiers of a report's workers are pairwise different. */
  ghost predicate DistinctWorkers(ws: seq<Metrics>)
  {
    forall j, k :: 0 <= j < k < |ws| ==> ws[j].workerId != ws[k].workerId
  }

  /**
   * No worker is both low-productivity and excellent; and the
   * excessive-idle list depends on the idle rate alone, whatever the score.
   */
  lemma LowAndExcellentDisjoint(ws: seq<Metrics>, id: string)
    requires DistinctWorkers(ws)
    ensures !(id in Flagged(ws, LowProductivity, |ws|) && id in Flagged(ws, ExcellentPerformance, |ws|))
    ensures id in Flagged(ws, ExcessiveIdle, |ws|) <==> exists i :: 0 <= i < |ws| && ws[i].workerId == id && ws[i].idleRate > 30.0
  {
    FlaggedMembership(ws, LowProductivity, id);
    FlaggedMembership(ws, ExcellentPerformance, id);
    FlaggedMembership(ws, ExcessiveIdle, id);
  }

  /**
   * A report generated from a valid ledger names each worker once, so on
   * it no identifier is both low-productivity and excellent.
   */
  lemma GeneratedReportAlertsDisjoint(l: Aggregator.Ledger, info: SessionInfo, id: string)
    requires Aggregator.Valid(l)
    requires forall k :: 0 <= k < |l.order| ==> l.order[k] in l.workers
    requires AssembleAsWritten(info, MetricsEntries(l.order, l.workers)).Success?
    ensures var ws := AssembleAsWritten(info, MetricsEntries(l.order, l.workers)).value.workers;
      && DistinctWorkers(ws)
      && !(id in Flagged(ws, LowProductivity, |ws|) && id in Flagged(ws, ExcellentPerformance, |ws|))
  {
    ReportOfLedger(l, info);
    ReportListsLedger(l, info);
    var ws := AssembleAsWritten(info, MetricsEntries(l.order, l.workers)).value.workers;
    assert DistinctWorkers(ws);
    LowAndExcellentDisjoint(ws, id);
  }

  /** Insert a worker before the first one that does not score higher. */
  function InsertByScore(m: Metrics, sorted: seq<Metrics>): (r: seq<Metrics>)
    ensures multiset(r) == multiset(sorted) + multiset{m}
    ensures |r| > 0
  {
    if sorted == [] || sorted[0].performanceScore <= m.performanceScore then [m] + sorted
    else
      assert sorted == [sorted[0]] + sorted[1..];
      [sorted[0]] + InsertByScore(m, sorted[1..])
  }

  /**
   * `sorted(workers, key=performance_score, reverse=True)`: a stable sort
   * from highest to lowest score, where equal scores keep report order.
   */
  function SortByScoreDescending(ws: seq<Metrics>): (r: seq<Metrics>)
    ensures multiset(r) == multiset(ws)
  {
    if ws == [] then []
    else
      assert ws == [ws[0]] + ws[1..];
      InsertByScore(ws[0], SortByScoreDescending(ws[1..]))
  }

  ghost predicate DescendingByScore(s: seq<Metrics>)
  {
    forall i, j :: 0 <= i < j < |s| ==> s[i].performanceScore >= s[j].performanceScore
  }

  /** Inserting into a descending list keeps it descending. */
  lemma {:induction false} InsertKeepsDescending(m: Metrics, sorted: seq<Metrics>)
    requires DescendingByScore(sorted)
    ensures DescendingByScore(InsertByScore(m, sorted))
  {
    if !(sorted == [] || sorted[0].performanceScore <= m.performanceScore) {
      InsertKeepsDescending(m, sorted[1..]);
      var r := InsertByScore(m, sorted[1..]);
      assert r[0] == m || r[0] == sorted[1];
    }
  }

  /** The sorted list runs from highest to lowest score. */
  lemma {:induction false} SortIsDescending(ws: seq<Metrics>)
    ensures DescendingByScore(SortByScoreDescending(ws))
  {
    if ws != [] {
      SortIsDescending(ws[1..]);
      InsertKeepsDescending(ws[0], SortByScoreDescending(ws[1..]));
    }
  }

  /** The top performer: the head of the sorted list. */
  function TopPerformer(ws: seq<Metrics>): (top: Metrics)
    requires ws != []
    ensures top in ws
  {
    var sorted := SortByScoreDescending(ws);
    assert sorted[0] in multiset(sorted);
    sorted[0]
  }

  /** The top performer is one of the workers and scores at least as high as every worker. */
  lemma TopPerformerIsMaximal(ws: seq<Metrics>)
    requires ws != []
    ensures TopPerformer(ws) in ws
    ensures forall k :: 0 <= k < |ws| ==> ws[k].performanceScore <= TopPerformer(ws).performanceScore
  {
    var s := SortByScoreDescending(ws);
    SortIsDescending(ws);
    assert s[0] in multiset(s);
    forall k | 0 <= k < |ws|
      ensures ws[k].performanceScore <= s[0].performanceScore
    {
      assert ws[k] in multiset(ws);
      var j :| 0 <= j < |s| && s[j] == ws[k];
    }
  }

  /** Among workers tied for the best score, the top performer is the first in report order. */
  lemma {:induction false} TopPerformerIsFirstMaximal(ws: seq<Metrics>)
    requires ws != []
    ensures exists i :: 0 <= i < |ws| && ws[i] == TopPerformer(ws) && ScoresBelow(ws, i, TopPerformer(ws).performanceScore)
  {
    var rest := SortByScoreDescending(ws[1..]);
    assert SortByScoreDescending(ws) == InsertByScore(ws[0], rest);
    if rest == [] || rest[0].performanceScore <= ws[0].performanceScore {
      assert TopPerformer(ws) == ws[0];
      assert ScoresBelow(ws, 0, ws[0].performanceScore);
    } else {
      var top := rest[0];
      assert TopPerformer(ws) == top;
      assert TopPerformer(ws[1..]) == top;
      TopPerformerIsFirstMaximal(ws[1..]);
      var i :| 0 <= i < |ws[1..]| && ws[1..][i] == top && ScoresBelow(ws[1..], i, top.performanceScore);
      assert ws[i + 1] == top;
      assert ScoresBelow(ws, i + 1, top.performanceScore) by {
        forall j | 0 <= j < i + 1
          ensures ws[j].performanceScore < top.performanceScore
        {
          if j > 0 {
            assert ws[j] == ws[1..][j - 1];
          }
        }
      }
    }
  }

  /** Every worker before position i scores strictly below bound. */
  ghost predicate ScoresBelow(ws: seq<Metrics>, i: nat, bound: real)
    requires i <= |ws|
  {
    forall j :: 0 <= j < i ==> ws[j].performanceScore < bound
  }
}
