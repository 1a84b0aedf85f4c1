/** `FactoryWorkerMonitor.calculate_performance_metrics`. */
module PerformanceMetrics {
  import opened Wrappers
  import opened Rounding

  /** The four rating bands. */
  datatype Rating = Excellent | Good | Average | NeedsImprovement

  /** Position of a rating from worst (0) to best (3). */
  function Rank(r: Rating): nat
  {
    match r
    case NeedsImprovement => 0
    case Average => 1
    case Good => 2
    case Excellent => 3
  }

  /** One worker's metrics, as the report lists them. */
  datatype Metrics = Metrics(
    workerId: string,
    totalTimeMinutes: real,
    activeTimeMinutes: real,
    idleTimeMinutes: real,
    productivityRate: real,
    idleRate: real,
    performanceScore: real,
    rating: Rating,
    effectiveWorkingHours: real)

  /** Percentage of the monitored time spent in the given bucket. */
  function Rate(part: real, total: real): real
    requires total != 0.0
  {
    (part / total) * 100.0
  }

  /** The productivity rate boosted by 1.2 and capped at 100. */
  function PerformanceScore(productivityRate: real): (score: real)
    ensures score <= 100.0
    ensures score <= productivityRate * 1.2
    ensures score == 100.0 || score == productivityRate * 1.2
    ensures productivityRate >= 0.0 ==> score >= 0.0
  {
    if 100.0 <= productivityRate * 1.2 then 100.0 else productivityRate * 1.2
  }

  /** The band a score falls in; each lower bound belongs to its band. */
  function RatingOf(score: real): (r: Rating)
    ensures r == Excellent <==> 85.0 <= score
    ensures r == Good <==> 70.0 <= score < 85.0
    ensures r == Average <==> 50.0 <= score < 70.0
    ensures r == NeedsImprovement <==> score < 50.0
  {
    if score >= 85.0 then Excellent
    else if score >= 70.0 then Good
    else if score >= 50.0 then Average
    else NeedsImprovement
  }

  /** A higher score never gets a worse rating. */
  lemma RatingMonotone(s: real, t: real)
    requires s <= t
    ensures Rank(RatingOf(s)) <= Rank(RatingOf(t))
  {
  }

  /**
   * The metrics of one worker; none (the source's `{}`) when the monitored
   * time is zero. Times are reported in minutes and hours, every figure
   * rounded to two decimals; the rating is taken from the unrounded score.
   */
  function CalculatePerformanceMetrics(workerId: string, activeTime: real, idleTime: real, totalTime: real): (r: Option<Metrics>)
    ensures r.None? <==> totalTime == 0.0
    ensures r.Some? ==>
      && r.value.workerId == workerId
      && r.value.totalTimeMinutes == Round2(totalTime / 60.0)
      && r.value.activeTimeMinutes == Round2(activeTime / 60.0)
      && r.value.idleTimeMinutes == Round2(idleTime / 60.0)
      && r.value.productivityRate == Round2(Rate(activeTime, totalTime))
      && r.value.idleRate == Round2(Rate(idleTime, totalTime))
      && r.value.performanceScore == Round2(PerformanceScore(Rate(activeTime, totalTime)))
      && r.value.rating == RatingOf(PerformanceScore(Rate(activeTime, totalTime)))
      && r.value.effectiveWorkingHours == Round2(activeTime / 3600.0)
  {
    if totalTime == 0.0 then None
    else
      var productivityRate := Rate(activeTime, totalTime);
      var idleRate := Rate(idleTime, totalTime);
      var score := PerformanceScore(productivityRate);
      Some(Metrics(
        workerId,
        Round2(totalTime / 60.0),
        Round2(activeTime / 60.0),
        Round2(idleTime / 60.0),
        Round2(productivityRate),
        Round2(idleRate),
        Round2(score),
        RatingOf(score),
        Round2(activeTime / 3600.0)))
  }

  /**
   * For positive monitored time and non-negative active time the score is
   * `min(100, 1.2 * active / total * 100)`, lies in [0, 100], and so does the
   * reported, rounded score.
   */
  lemma ScoreInRange(workerId: string, activeTime: real, idleTime: real, totalTime: real)
    requires totalTime > 0.0 && activeTime >= 0.0
    ensures var score := PerformanceScore(Rate(activeTime, totalTime));
      && score == (if 1.2 * (activeTime / totalTime * 100.0) >= 100.0 then 100.0 else 1.2 * (activeTime / totalTime * 100.0))
      && 0.0 <= score <= 100.0
    ensures var m := CalculatePerformanceMetrics(workerId, activeTime, idleTime, totalTime).value;
      0.0 <= m.performanceScore <= 100.0
  {
  }

  /** A worker active for the whole monitored time scores 100 and rates Excellent. */
  lemma FullyActiveIsExcellent(workerId: string, totalTime: real)
    requires totalTime > 0.0
    ensures var m := CalculatePerformanceMetrics(workerId, totalTime, 0.0, totalTime).value;
      m.productivityRate == 100.0 && m.performanceScore == 100.0 && m.rating == Excellent
  {
    assert Rate(totalTime, totalTime) == 100.0;
    assert IsHundredths(100.0);
    Round2Fixes(100.0);
  }
}
