# Factory worker monitor: decision and accounting core

This project models how the factory worker monitor turns motion into a report.

- **Detection.** It filters the contours found in each frame into worker blobs and classifies each blob as active or idle by motion density.
- **Accumulation.** It adds up each worker's productive and idle time frame by frame, using a fixed 1/30 s per frame and an idle debounce.
- **Metrics.** It turns the totals into a productivity rate, an idle rate, a capped performance score and a rating.
- **Report.** It assembles the per-worker metrics and the aggregate statistics into a report.
- **Usage examples.** It derives the three alert lists and the top performer from a report.

The OpenCV pipeline is not modelled. Each contour arrives as its area, its bounding rectangle and its count of foreground pixels. Clock readings are parameters.

Modules:

- `Wrappers`: `Option` and `Result`.
- `Rounding`: Python's `round(x, 2)`, `sum` and `numpy.mean` on exact reals.
  - `Round2` rounds to the nearest hundredth, with ties going to the even hundredth.
- `Detector`: the contour filter and classifier of `detect_workers`.
  - `DetectWorkers` is the loop; the function `Detected` specifies it.
  - Lemmas state which contours are kept and how each is classified.
  - Identifiers are `worker_<i>`, where i is the index in the full contour list. Ids therefore have gaps where contours are filtered out.
  - Ids are pairwise distinct, which is proved through the injectivity of the decimal rendering.
- `Aggregator`: the per-frame update as functions on a `Ledger`.
  - A `Ledger` holds `workers_data`, the insertion order of its keys, and `last_activity_time`.
  - `ObserveBlob` handles one blob; `ObserveAll` handles a whole frame.
  - Lemmas give each worker's exact change, state that other workers are untouched and that the totals never decrease, and that a worker seen idle for the first time accrues nothing.
- `PerformanceMetrics`: `calculate_performance_metrics`. The rating is taken from the unrounded score, while the report lists the rounded score.
- `ReportAssembly`: `generate_report` from the metrics entries on.
  - `AssembleAsWritten` follows the code: an empty entry (total time 0) makes the aggregation raise a `KeyError`.
  - `AssembleSkippingEmpty` is the corrected form (see Findings).
- `Monitor`: the class `FactoryWorkerMonitor`. Its fields are the dictionaries it updates in place, the thresholds, the start time and the frame counter.
  - `ProcessFrame` is one pass of the analysis loop. Its contract ties the new state to `ObserveAll` over `Detected`.
  - `GenerateReport` builds the report the way the code does.
  - The `last_activity_time` dictionary is local to one run of `analyze_video_stream`, so `StartSession` resets it. The totals of an earlier run are kept.
- `Alerts`: `example_performance_alerts`, plus the descending stable sort and the top-performer pick of `example_video_file_analysis`.

The code appends an empty metrics dict for a worker whose total time is 0 (factory_ai_monitor.py:258), and the model follows the code; the aggregation at lines 262-264 then reads every entry (see Findings). Identifiers use the index in the full contour list (lines 73 and 88), not a rank among the kept blobs.

## Model

| member | source | states |
|---|---|---|
| `Rounding.Round2` | factory_ai_monitor.py:132-139 | `round(x, 2)` gives a value on the hundredths grid within 0.005 of x |
| `Rounding.Round2TiesToEven` | factory_ai_monitor.py:132-139 | a value exactly halfway between two hundredths rounds to the one with an even number of hundredths, at distance 0.005 |
| `Detector.NatToStringInjective` | factory_ai_monitor.py:88 | two different contour indices never print as the same decimal text |
| `Detector.WorkerIdInjective` | factory_ai_monitor.py:88 | `worker_<i>` and `worker_<j>` differ whenever i and j differ |
| `Detector.MotionIntensity` | factory_ai_monitor.py:81-82 | intensity is non-negative, is 0 when `w*h` is not positive, and is at most 1 when the foreground count fits in the rectangle |
| `Detector.Classify` | factory_ai_monitor.py:84-93 | the blob carries `worker_<i>`, the contour's bbox and area and the intensity `MotionIntensity` computes from the contour's foreground count, and is active iff its intensity is strictly above `motion_threshold/100` |
| `Detector.DetectWorkers` | factory_ai_monitor.py:72-95 | the loop returns exactly `Detected`: the kept contours, classified, in contour order |
| `Detector.KeptIndicesSpec` | factory_ai_monitor.py:73-77 | kept indices increase strictly, and an index is kept iff its contour's area is strictly above 1000 |
| `Detector.DetectedAreKeptContours` | factory_ai_monitor.py:72-95 | the k-th blob is the classification of the contour at the k-th kept index, under that index's id |
| `Detector.DetectedBlobsAreClassified` | factory_ai_monitor.py:77-93 | every returned blob has area > 1000, is active iff intensity > threshold/100, and has intensity 0 for an empty rectangle |
| `Detector.DetectedIdsDistinct` | factory_ai_monitor.py:73-88 | no two blobs of a frame share an id |
| `Aggregator.ObserveBlob` | factory_ai_monitor.py:184-198 | after one blob, its worker has an entry with `total_work_time == current_time - start_time`, productive time grown by 1/30 iff active, idle time grown by 1/30 iff idle for strictly more than the threshold, and last activity `current_time` when active, else the stored or newly looked-up time; the key is appended to the order iff it is new |
| `Aggregator.ObserveAll` | factory_ai_monitor.py:183-198 | a frame only appends to the key order, at most one key per blob, never loses a key of either dictionary, and gives every blob's worker an entry |
| `Aggregator.OrderLength` | factory_ai_monitor.py:245 | the insertion order has as many entries as `workers_data` |
| `Aggregator.ObserveAllValid` | factory_ai_monitor.py:183-198 | a frame keeps every key listed once in insertion order, and only appends new keys after the old ones |
| `Aggregator.ObserveAllLeavesOthers` | factory_ai_monitor.py:183-198 | a worker not in the frame keeps its totals and its last activity time, and gains no entry |
| `Aggregator.ObserveAllMonotone` | factory_ai_monitor.py:187-194 | productive time and idle time never decrease, whatever the frame holds |
| `Aggregator.ObserveAllStampsTotal` | factory_ai_monitor.py:196-198 | every worker seen in the frame ends with `total_work_time == current_time - start_time` |
| `Aggregator.ObserveAllPerWorker` | factory_ai_monitor.py:183-198 | when ids are distinct, an active blob adds exactly 1/30 to productive time, keeps idle time and sets the last activity to `current_time`; an idle blob keeps productive time and adds 1/30 to idle time iff `current_time - last_activity > idle_threshold`, strictly |
| `Aggregator.FirstSeenIdleAccruesNothing` | factory_ai_monitor.py:166-194 | an idle worker with no last-activity entry gets the lookup time stored; when that is not before `current_time` and the threshold is non-negative, its idle time does not grow |
| `PerformanceMetrics.PerformanceScore` | factory_ai_monitor.py:118 | the score is at most 100 and at most 1.2 times the rate, and is one of the two, so it is `min(100, 1.2*rate)`; it is non-negative for a non-negative rate |
| `PerformanceMetrics.RatingOf` | factory_ai_monitor.py:121-128 | Excellent iff score >= 85, Good iff 70 <= score < 85, Average iff 50 <= score < 70, Needs Improvement iff score < 50; each lower bound is inclusive |
| `PerformanceMetrics.RatingMonotone` | factory_ai_monitor.py:121-128 | a higher score never gets a worse rating |
| `PerformanceMetrics.CalculatePerformanceMetrics` | factory_ai_monitor.py:111-140 | empty iff `total_time == 0`; otherwise it carries the given worker id, the total, active and idle times in minutes rounded to two decimals, the rounded rates, the rounded capped score, the rating of the unrounded score and the rounded hours |
| `PerformanceMetrics.ScoreInRange` | factory_ai_monitor.py:114-118 | for `total_time > 0` and `active_time >= 0`, the score is `min(100, 1.2*active/total*100)` and lies in [0, 100], and so does the reported rounded score |
| `PerformanceMetrics.FullyActiveIsExcellent` | factory_ai_monitor.py:114-128 | a worker active for the whole monitored time has rate 100, score 100 (capped) and rating Excellent |
| `ReportAssembly.MetricsEntriesAt` | factory_ai_monitor.py:251-258 | the loop yields one entry per key, in insertion order, each the metrics of that key's totals |
| `ReportAssembly.AggregateOf` | factory_ai_monitor.py:261-270 | aggregate statistics are present iff the worker list is non-empty |
| `ReportAssembly.AssembleAsWritten` | factory_ai_monitor.py:258-270 | as written, the report fails (KeyError) iff some entry is empty; otherwise it carries the session info and has aggregates iff there are entries |
| `ReportAssembly.AssembleSkippingEmpty` | factory_ai_monitor.py:251-270 | the corrected report never fails; its k-th worker is the metrics of the k-th non-empty entry (positions as `PresentIndices` gives them), so the non-empty entries are listed in order and once each; an id is listed iff its entry is present; the aggregates are those of the listed workers and are present iff that list is non-empty |
| `ReportAssembly.PresentSpec` | factory_ai_monitor.py:251-258 | the non-empty entries are taken at strictly increasing positions, a position exactly when its entry is not empty, and listed in that order |
| `ReportAssembly.AsWrittenAgreesWhenFull` | factory_ai_monitor.py:251-270 | when no entry is empty, the report as written is the corrected one and lists every entry in order |
| `ReportAssembly.EmptyEntryBreaksAggregates` | factory_ai_monitor.py:258-264 | one worker with total time 0 makes the report as written fail, while the corrected one reports no workers and no aggregates |
| `ReportAssembly.TotalHoursIsSum` | factory_ai_monitor.py:264-269 | the rounded total hours equal the exact sum of the listed rounded per-worker hours |
| `ReportAssembly.AverageScoreInRange` | factory_ai_monitor.py:262-267 | when every listed score lies in [0, 100], so does the average score |
| `ReportAssembly.LedgerEntriesPresent` | factory_ai_monitor.py:251-258 | every entry is non-empty iff no worker has zero total time |
| `ReportAssembly.ReportListsLedger` | factory_ai_monitor.py:245-258 | with no zero totals, the report lists one entry per `workers_data` item, in insertion order, as many as the map has, each carrying its key |
| `ReportAssembly.ReportOfLedger` | factory_ai_monitor.py:245-270 | the report fails iff some worker has zero total time, and otherwise has aggregates iff the map is non-empty |
| `Monitor.FactoryWorkerMonitor.constructor` | factory_ai_monitor.py:15-44 | a new monitor has empty dictionaries, motion threshold 25, idle threshold 5 s, no start time and no frames |
| `Monitor.FactoryWorkerMonitor.StartSession` | factory_ai_monitor.py:159-166 | starting an analysis records the start time, empties `last_activity_time` and keeps the earlier totals |
| `Monitor.FactoryWorkerMonitor.TouchWorker` | factory_ai_monitor.py:23-29 | a `workers_data` lookup creates a zero entry at the end of the insertion order only when the key is new |
| `Monitor.FactoryWorkerMonitor.UpdateWorker` | factory_ai_monitor.py:183-198 | the loop body for one blob leaves exactly the `ObserveBlob` state |
| `Monitor.FactoryWorkerMonitor.ProcessFrame` | factory_ai_monitor.py:176-198 | a frame raises `frame_count` by exactly 1, keeps the key order valid, and leaves exactly the state `ObserveAll` gives for the detected blobs |
| `Monitor.FactoryWorkerMonitor.Elapsed` | factory_ai_monitor.py:239 | elapsed time is 0 when the start time is unset or 0, otherwise `start_time + elapsed == now`, and is non-negative when `now` is not before the start |
| `Monitor.FactoryWorkerMonitor.SessionInfoAt` | factory_ai_monitor.py:239-247 | `duration_seconds` is the elapsed time since the start rounded to two decimals (`Round2(Elapsed(now))`), `total_workers` is the number of `workers_data` entries and `total_frames_processed` is `frame_count` |
| `Monitor.FactoryWorkerMonitor.CollectMetrics` | factory_ai_monitor.py:251-258 | the loop returns one metrics entry per worker, in insertion order |
| `Monitor.FactoryWorkerMonitor.GenerateReport` | factory_ai_monitor.py:232-272 | the report as written fails iff some worker has zero total time; otherwise `total_workers` equals the number of listed workers and aggregates are present iff that list is non-empty |
| `Monitor.FactoryWorkerMonitor.GenerateReportSkippingEmpty` | factory_ai_monitor.py:251-270 | the corrected report counts every worker in `total_workers` and has aggregates iff it lists a worker |
| `Alerts.PerformanceAlerts` | usage_examples.py:83-120 | no report gives no alerts; otherwise each list is the `Flagged` list of its condition |
| `Alerts.FlaggedSpec` | usage_examples.py:97-108 | each list is the ids of the workers at strictly increasing positions, and a position is taken iff that worker meets the list's condition |
| `Alerts.FlaggedMembership` | usage_examples.py:97-108 | an id is on a list iff some worker with that id meets the list's condition |
| `Alerts.LowAndExcellentDisjoint` | usage_examples.py:103-108 | with distinct ids, no id is both low-productivity (score < 60) and excellent (score >= 90); an id is on the excessive-idle list iff a worker with it has idle rate > 30, strictly, whatever its score |
| `Alerts.GeneratedReportAlertsDisjoint` | usage_examples.py:97-108 | a report generated from the monitor names each worker once, so its low-productivity and excellent lists are disjoint |
| `Alerts.InsertByScore` | usage_examples.py:46-48 | insertion adds exactly the one worker |
| `Alerts.SortByScoreDescending` | usage_examples.py:46-48 | the sorted list is a permutation of the workers |
| `Alerts.SortIsDescending` | usage_examples.py:46-48 | the sorted list runs from highest to lowest score |
| `Alerts.TopPerformer` | usage_examples.py:46-50 | the top performer, `workers[0]` after the sort, is one of the report's workers |
| `Alerts.TopPerformerIsMaximal` | usage_examples.py:46-50 | the first worker after the descending sort is a worker of the report, and it scores at least as high as every worker |
| `Alerts.TopPerformerIsFirstMaximal` | usage_examples.py:46-50 | among workers tied for the best score, the sort picks the first in report order, since the sort is stable |

## Findings

| source | as written | input that shows it | evidently intended | confidence | as-written member | corrected member |
|---|---|---|---|---|---|---|
| factory_ai_monitor.py:258-264 | appends the empty metrics `{}` of a worker with total time 0, then reads `performance_score` from every entry | one worker whose only frame was stamped at the start-time clock reading, so its total time is 0 | leave workers with empty metrics out of the list, so that the aggregation can read every entry | medium, not executed | `ReportAssembly.EmptyEntryBreaksAggregates` | `ReportAssembly.AssembleSkippingEmpty` |

`Monitor.FactoryWorkerMonitor.GenerateReportSkippingEmpty` builds the corrected report. The alert and top-performer members accept a report from either assembler.

## Left out

- The OpenCV pipeline is not modelled: background subtraction, shadow zeroing, morphology, `findContours`, `contourArea`, `boundingRect` and `np.sum`. They are foreign library calls. Their results for each contour are inputs to the model.
- Video capture, the replay of a file at its end, the wall-clock `while` loop and the `q` key are not modelled. They are I/O and real-time control. `ProcessFrame` is one pass of that loop, and the clock readings are its parameters.
- Drawing and display are not modelled: rectangles, labels, `imshow`, `waitKey` and `destroyAllWindows`. They are UI.
- `save_report`, `print_report`, the JSON and CSV output, and the printing of alerts and of the top performer are not modelled. They are file and console I/O.
- The `start_time` string of `session_info` is not modelled. It is a formatted wall-clock reading.
- `simulate_factory_monitoring`, the `__main__` prompts and the webcam, custom-configuration and batch examples are not modelled. They are fixtures and I/O drivers.
- Floating point is not modelled. Times and rates are exact reals.
  - `Rounding.Round2` rounds exact reals to the nearest hundredth, with ties to even.
  - Binary representation effects of `round` are not captured; for example, Python rounds 2.675 to 2.67.
  - `numpy.mean` is the exact mean.
- The `rating` string is modelled as the four-valued `Rating` band. Its text labels ("Excellent", "Good", "Average", "Needs Improvement") are not modelled, since nothing in the core compares them.
- Unused state is not modelled: `productivity_threshold`, `activity_log`, the `performance_score` field of `workers_data`, `activity_states` and `frame_times`. The source never reads them.
- `Monitor.FactoryWorkerMonitor.ProcessFrame`: uses one clock reading per frame for every first `last_activity_time` lookup. The source reads the clock at each such lookup. `FirstSeenIdleAccruesNothing` assumes such a reading is at or after `current_time`, which holds unless the system clock is set back.
- `Monitor.FactoryWorkerMonitor.ProcessFrame`: requires a start time. The source sets it before the loop, and without it would raise a `TypeError`.
- `Alerts.PerformanceAlerts`: takes an optional report. Any report of the model has a worker list, so the source's "falsy report, or one without `workers`" case is the absent report.
- `Alerts.TopPerformerIsMaximal`: requires a non-empty worker list. The source picks the top performer only when aggregate statistics are present, which happens only when the list is non-empty.
