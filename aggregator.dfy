/**
 * The per-frame update of `analyze_video_stream`, as functions on a value
 * holding the two dictionaries: `workers_data` (with its insertion order)
 * and the session's `last_activity_time`.
 */
module Aggregator {
  import opened Detector

  /** Each blob stands for one frame of a 30-frames-per-second stream. */
  const FRAME_INTERVAL: real := 1.0 / 30.0

  /** A worker's running totals, in seconds. */
  datatype WorkerData = WorkerData(totalWorkTime: real, idleTime: real, productiveTime: real)

  /** The default a `workers_data` lookup creates. */
  const NEW_WORKER := WorkerData(0.0, 0.0, 0.0)

  /**
   * `workers_data` as a map plus the order its keys were inserted in,
   * and `last_activity_time`.
   */
  datatype Ledger = Ledger(order: seq<string>, workers: map<string, WorkerData>, lastActivity: map<string, real>)

  /** The insertion order lists each key of `workers_data` exactly once. */
  ghost predicate Valid(l: Ledger)
  {
    && (forall i, j :: 0 <= i < j < |l.order| ==> l.order[i] != l.order[j])
    && (forall id :: id in l.workers <==> id in l.order)
  }

  /** A duplicate-free list is as long as the set of its elements. */
  lemma {:induction false} DistinctCardinality(xs: seq<string>)
    requires forall i, j :: 0 <= i < j < |xs| ==> xs[i] != xs[j]
    ensures |set x | x in xs| == |xs|
  {
    if xs != [] {
      var init, last := xs[..|xs| - 1], xs[|xs| - 1];
      DistinctCardinality(init);
      assert (set x | x in xs) == (set x | x in init) + {last};
      assert last !in (set x | x in init);
    }
  }

  /** The insertion order is as long as `workers_data` has entries. */
  lemma OrderLength(l: Ledger)
    requires Valid(l)
    ensures |l.order| == |l.workers|
  {
    DistinctCardinality(l.order);
    assert (set x | x in l.order) == l.workers.Keys;
  }

  /** The totals a `workers_data` lookup of id sees. */
  function EntryOf(l: Ledger, id: string): WorkerData
  {
    if id in l.workers then l.workers[id] else NEW_WORKER
  }

  /** The time a `last_activity_time` lookup of id sees; lookupTime when it creates the entry. */
  function LastActivityOf(l: Ledger, id: string, lookupTime: real): real
  {
    if id in l.lastActivity then l.lastActivity[id] else lookupTime
  }

  /** The state after handling one blob of the frame taken at `now`. */
  function ObserveBlob(l: Ledger, b: Blob, now: real, lookupTime: real, startTime: real, idleThreshold: real): (r: Ledger)
    ensures b.id in r.workers && b.id in r.lastActivity
    ensures r.workers[b.id].totalWorkTime == now - startTime
    ensures r.workers[b.id].productiveTime
      == EntryOf(l, b.id).productiveTime + (if b.isActive then FRAME_INTERVAL else 0.0)
    ensures r.workers[b.id].idleTime == EntryOf(l, b.id).idleTime
      + (if !b.isActive && now - LastActivityOf(l, b.id, lookupTime) > idleThreshold then FRAME_INTERVAL else 0.0)
    ensures r.lastActivity[b.id] == if b.isActive then now else LastActivityOf(l, b.id, lookupTime)
    ensures r.order == if b.id in l.workers then l.order else l.order + [b.id]
  {
    var before := EntryOf(l, b.id);
    var order := if b.id in l.workers then l.order else l.order + [b.id];
    if b.isActive then
      Ledger(order,
             l.workers[b.id := WorkerData(now - startTime, before.idleTime, before.productiveTime + FRAME_INTERVAL)],
             l.lastActivity[b.id := now])
    else
      var last := LastActivityOf(l, b.id, lookupTime);
      var idle := if now - last > idleThreshold then before.idleTime + FRAME_INTERVAL else before.idleTime;
      Ledger(order,
             l.workers[b.id := WorkerData(now - startTime, idle, before.productiveTime)],
             l.lastActivity[b.id := last])
  }

  /** The state after handling the blobs of one frame in order. */
  function ObserveAll(l: Ledger, blobs: seq<Blob>, now: real, lookupTime: real, startTime: real, idleThreshold: real): (r: Ledger)
    ensures l.order <= r.order && |r.order| <= |l.order| + |blobs|
    ensures l.workers.Keys <= r.workers.Keys && l.lastActivity.Keys <= r.lastActivity.Keys
    ensures forall k :: 0 <= k < |blobs| ==> blobs[k].id in r.workers
  {
    if blobs == [] then l
    else
      var init := blobs[..|blobs| - 1];
      ObserveBlob(ObserveAll(l, init, now, lookupTime, startTime, idleThreshold), blobs[|blobs| - 1],
                  now, lookupTime, startTime, idleThreshold)
  }

  /** The identifiers of a frame's blobs are pairwise different. */
  ghost predicate DistinctIds(blobs: seq<Blob>)
  {
    forall j, k :: 0 <= j < k < |blobs| ==> blobs[j].id != blobs[k].id
  }

  /** The identifier is one of the frame's blobs. */
  ghost predicate Observed(blobs: seq<Blob>, id: string)
  {
    exists k :: 0 <= k < |blobs| && blobs[k].id == id
  }

  /**
   * A frame keeps the order valid and only appends to it: existing workers
   * keep their place, new ones come last.
   */
  lemma {:induction false} ObserveAllValid(l: Ledger, blobs: seq<Blob>, now: real, lookupTime: real, startTime: real, idleThreshold: real)
    requires Valid(l)
    ensures var r := ObserveAll(l, blobs, now, lookupTime, startTime, idleThreshold);
      Valid(r) && l.order <= r.order
  {
    if blobs != [] {
      var init := blobs[..|blobs| - 1];
      ObserveAllValid(l, init, now, lookupTime, startTime, idleThreshold);
      var m := ObserveAll(l, init, now, lookupTime, startTime, idleThreshold);
      var b := blobs[|blobs| - 1];
      if b.id !in m.workers {
        assert b.id !in m.order;
      }
    }
  }

  /** Workers that are not in the frame keep their totals and their last activity time. */
  lemma {:induction false} ObserveAllLeavesOthers(l: Ledger, blobs: seq<Blob>, now: real, lookupTime: real, startTime: real, idleThreshold: real, id: string)
    requires !Observed(blobs, id)
    ensures var r := ObserveAll(l, blobs, now, lookupTime, startTime, idleThreshold);
      && (id in r.workers <==> id in l.workers)
      && (id in l.workers ==> r.workers[id] == l.workers[id])
      && (id in r.lastActivity <==> id in l.lastActivity)
      && (id in l.lastActivity ==> r.lastActivity[id] == l.lastActivity[id])
  {
    if blobs != [] {
      var init := blobs[..|blobs| - 1];
      ObserveAllLeavesOthers(l, init, now, lookupTime, startTime, idleThreshold, id);
    }
  }

  /** Productive and idle time never decrease, whatever the frame holds. */
  lemma {:induction false} ObserveAllMonotone(l: Ledger, blobs: seq<Blob>, now: real, lookupTime: real, startTime: real, idleThreshold: real, id: string)
    requires id in l.workers
    ensures var r := ObserveAll(l, blobs, now, lookupTime, startTime, idleThreshold);
      && id in r.workers
      && r.workers[id].productiveTime >= l.workers[id].productiveTime
      && r.workers[id].idleTime >= l.workers[id].idleTime
  {
    if blobs != [] {
      ObserveAllMonotone(l, blobs[..|blobs| - 1], now, lookupTime, startTime, idleThreshold, id);
    }
  }

  /** Every worker seen in the frame ends with total work time `now - startTime`. */
  lemma {:induction false} ObserveAllStampsTotal(l: Ledger, blobs: seq<Blob>, now: real, lookupTime: real, startTime: real, idleThreshold: real, k: nat)
    requires k < |blobs|
    ensures var r := ObserveAll(l, blobs, now, lookupTime, startTime, idleThreshold);
      blobs[k].id in r.workers && r.workers[blobs[k].id].totalWorkTime == now - startTime
  {
    var init := blobs[..|blobs| - 1];
    if k < |blobs| - 1 {
      ObserveAllStampsTotal(l, init, now, lookupTime, startTime, idleThreshold, k);
    }
  }

  /**
   * In a frame whose identifiers are distinct, each observed worker ends
   * as one blob update of its state before the frame: an active blob adds
   * one frame to productive time, keeps idle time and stamps the last
   * activity with `now`; an idle blob adds one frame to idle time exactly
   * when more than idleThreshold seconds have passed since the last
   * activity, and keeps productive time.
   */
  lemma {:induction false} ObserveAllPerWorker(l: Ledger, blobs: seq<Blob>, now: real, lookupTime: real, startTime: real, idleThreshold: real, k: nat)
    requires DistinctIds(blobs) && k < |blobs|
    ensures var r := ObserveAll(l, blobs, now, lookupTime, startTime, idleThreshold);
      var b, before := blobs[k], EntryOf(l, blobs[k].id);
      && b.id in r.workers && b.id in r.lastActivity
      && r.workers[b.id].totalWorkTime == now - startTime
      && (b.isActive ==>
            && r.workers[b.id].productiveTime == before.productiveTime + FRAME_INTERVAL
            && r.workers[b.id].idleTime == before.idleTime
            && r.lastActivity[b.id] == now)
      && (!b.isActive ==>
            && r.workers[b.id].productiveTime == before.productiveTime
            && r.workers[b.id].idleTime ==
                 (if now - LastActivityOf(l, b.id, lookupTime) > idleThreshold
                  then before.idleTime + FRAME_INTERVAL else before.idleTime)
            && r.lastActivity[b.id] == LastActivityOf(l, b.id, lookupTime))
  {
    var init := blobs[..|blobs| - 1];
    if k < |blobs| - 1 {
      assert DistinctIds(init);
      ObserveAllPerWorker(l, init, now, lookupTime, startTime, idleThreshold, k);
    } else {
      assert !Observed(init, blobs[k].id);
      ObserveAllLeavesOthers(l, init, now, lookupTime, startTime, idleThreshold, blobs[k].id);
    }
  }

  /**
   * A worker with no last-activity entry that shows up idle gets the entry
   * set to the lookup time; since that is not before `now`, nothing accrues.
   */
  lemma FirstSeenIdleAccruesNothing(l: Ledger, blobs: seq<Blob>, now: real, lookupTime: real, startTime: real, idleThreshold: real, k: nat)
    requires DistinctIds(blobs) && k < |blobs|
    requires !blobs[k].isActive && blobs[k].id !in l.lastActivity
    requires now <= lookupTime && 0.0 <= idleThreshold
    ensures var r := ObserveAll(l, blobs, now, lookupTime, startTime, idleThreshold);
      && blobs[k].id in r.workers && blobs[k].id in r.lastActivity
      && r.workers[blobs[k].id].idleTime == EntryOf(l, blobs[k].id).idleTime
      && r.lastActivity[blobs[k].id] == lookupTime
  {
    ObserveAllPerWorker(l, blobs, now, lookupTime, startTime, idleThreshold, k);
  }
}
