/**
 * The blob filter and classifier of `FactoryWorkerMonitor.detect_workers`.
 * The foreground extraction (background subtraction, shadow removal,
 * morphology, contour finding) is not modelled: each contour arrives as its
 * area, its bounding rectangle and the number of foreground pixels inside
 * that rectangle.
 */
module Detector {

  /** A bounding rectangle `(x, y, w, h)`. */
  datatype BBox = BBox(x: int, y: int, w: int, h: int)

  /** What the contour finder reports about one contour. */
  datatype Contour = Contour(area: real, bbox: BBox, foreground: nat)

  /** One detected worker in one frame. */
  datatype Blob = Blob(id: string, bbox: BBox, area: real, motionIntensity: real, isActive: bool)

  /** Contours of this area or less are not workers. */
  const MIN_WORKER_AREA: real := 1000.0

  /** The decimal digit for d. */
  function DigitChar(d: nat): (c: char)
    requires d < 10
    ensures '0' <= c <= '9'
  {
    ('0' as int + d) as char
  }

  /** The decimal rendering of n, as an f-string prints it. */
  function NatToString(n: nat): (s: string)
    ensures |s| >= 1
    ensures n >= 10 ==> |s| >= 2
    decreases n
  {
    if n < 10 then [DigitChar(n)] else NatToString(n / 10) + [DigitChar(n % 10)]
  }

  /** Different numbers print differently. */
  lemma {:induction false} NatToStringInjective(a: nat, b: nat)
    requires NatToString(a) == NatToString(b)
    ensures a == b
    decreases a
  {
    if a >= 10 && b >= 10 {
      var sa, sb := NatToString(a), NatToString(b);
      assert sa[|sa| - 1] == DigitChar(a % 10);
      assert sb[|sb| - 1] == DigitChar(b % 10);
      assert sa[..|sa| - 1] == NatToString(a / 10);
      assert sb[..|sb| - 1] == NatToString(b / 10);
      NatToStringInjective(a / 10, b / 10);
    }
  }

  /** The identifier `worker_<i>` given to the contour at index i. */
  function WorkerId(i: nat): string
  {
    "worker_" + NatToString(i)
  }

  /** Contours at different indices get different identifiers. */
  lemma WorkerIdInjective(i: nat, j: nat)
    requires i != j
    ensures WorkerId(i) != WorkerId(j)
  {
    if WorkerId(i) == WorkerId(j) {
      assert NatToString(i) == WorkerId(i)[7..];
      assert NatToString(j) == WorkerId(j)[7..];
      NatToStringInjective(i, j);
    }
  }

  /** Fraction of the bounding rectangle that is foreground; 0 for an empty rectangle. */
  function MotionIntensity(foreground: nat, w: int, h: int): (r: real)
    ensures 0.0 <= r
    ensures w * h <= 0 ==> r == 0.0
    ensures foreground <= w * h ==> r <= 1.0
  {
    if w * h > 0 then foreground as real / (w * h) as real else 0.0
  }

  /** A blob is active when its intensity strictly exceeds motionThreshold percent. */
  predicate IsActive(intensity: real, motionThreshold: real)
  {
    intensity > motionThreshold / 100.0
  }

  /** The blob built for the contour at index i. */
  function Classify(c: Contour, i: nat, motionThreshold: real): (b: Blob)
    ensures b.id == WorkerId(i) && b.bbox == c.bbox && b.area == c.area
    ensures b.motionIntensity == MotionIntensity(c.foreground, c.bbox.w, c.bbox.h)
    ensures b.isActive <==> b.motionIntensity > motionThreshold / 100.0
  {
    var intensity := MotionIntensity(c.foreground, c.bbox.w, c.bbox.h);
    Blob(WorkerId(i), c.bbox, c.area, intensity, IsActive(intensity, motionThreshold))
  }

  /** The blobs the detector has produced after looking at the first n contours. */
  function Detected(contours: seq<Contour>, motionThreshold: real, n: nat): seq<Blob>
    requires n <= |contours|
  {
    if n == 0 then []
    else
      var c := contours[n - 1];
      Detected(contours, motionThreshold, n - 1)
        + (if c.area > MIN_WORKER_AREA then [Classify(c, n - 1, motionThreshold)] else [])
  }

  /** The indices, in increasing order, of the contours among the first n that are kept. */
  function KeptIndices(contours: seq<Contour>, n: nat): seq<nat>
    requires n <= |contours|
  {
    if n == 0 then []
    else KeptIndices(contours, n - 1) + (if contours[n - 1].area > MIN_WORKER_AREA then [n - 1] else [])
  }

  /**
   * `detect_workers` after contour finding: walk the contours in order and
   * keep a classified blob for each one whose area exceeds the minimum.
   */
  method DetectWorkers(contours: seq<Contour>, motionThreshold: real) returns (workers: seq<Blob>)
    ensures workers == Detected(contours, motionThreshold, |contours|)
  {
    workers := [];
    var i := 0;
    while i < |contours|
      invariant 0 <= i <= |contours|
      invariant workers == Detected(contours, motionThreshold, i)
    {
      var c := contours[i];
      if c.area > MIN_WORKER_AREA {
        var intensity := if c.bbox.w * c.bbox.h > 0
                         then c.foreground as real / (c.bbox.w * c.bbox.h) as real
                         else 0.0;
        var active := intensity > motionThreshold / 100.0;
        workers := workers + [Blob(WorkerId(i), c.bbox, c.area, intensity, active)];
      }
      i := i + 1;
    }
  }

  /** Kept indices lie below n, increase strictly, and are exactly the large contours. */
  lemma {:induction false} KeptIndicesSpec(contours: seq<Contour>, n: nat)
    requires n <= |contours|
    ensures var ks := KeptIndices(contours, n);
      && (forall k :: 0 <= k < |ks| ==> ks[k] < n)
      && (forall j, k :: 0 <= j < k < |ks| ==> ks[j] < ks[k])
      && (forall i :: 0 <= i < n ==> (i in ks <==> contours[i].area > MIN_WORKER_AREA))
  {
    if n > 0 {
      KeptIndicesSpec(contours, n - 1);
      var prev := KeptIndices(contours, n - 1);
      assert n - 1 !in prev;
    }
  }

  /**
   * The detected blobs are exactly the kept contours, classified, in
   * contour order.
   */
  lemma {:induction false} DetectedAreKeptContours(contours: seq<Contour>, motionThreshold: real, n: nat)
    requires n <= |contours|
    ensures var ws, ks := Detected(contours, motionThreshold, n), KeptIndices(contours, n);
      && |ws| == |ks|
      && (forall k :: 0 <= k < |ks| ==> ks[k] < n && ws[k] == Classify(contours[ks[k]], ks[k], motionThreshold))
  {
    if n > 0 {
      DetectedAreKeptContours(contours, motionThreshold, n - 1);
    }
  }

  /**
   * Every returned blob is a large contour, classified strictly against the
   * threshold, with intensity 0 for an empty rectangle.
   */
  lemma DetectedBlobsAreClassified(contours: seq<Contour>, motionThreshold: real)
    ensures forall b :: b in Detected(contours, motionThreshold, |contours|) ==>
      && b.area > MIN_WORKER_AREA
      && (b.isActive <==> b.motionIntensity > motionThreshold / 100.0)
      && (b.bbox.w * b.bbox.h <= 0 ==> b.motionIntensity == 0.0)
  {
    var ws := Detected(contours, motionThreshold, |contours|);
    var ks := KeptIndices(contours, |contours|);
    DetectedAreKeptContours(contours, motionThreshold, |contours|);
    KeptIndicesSpec(contours, |contours|);
    forall b | b in ws
      ensures b.area > MIN_WORKER_AREA
    {
      var k :| 0 <= k < |ws| && ws[k] == b;
      assert ks[k] in ks;
    }
  }

  /** No two blobs of one frame share an identifier. */
  lemma DetectedIdsDistinct(contours: seq<Contour>, motionThreshold: real)
    ensures var ws := Detected(contours, motionThreshold, |contours|);
      forall j, k :: 0 <= j < k < |ws| ==> ws[j].id != ws[k].id
  {
    var ws := Detected(contours, motionThreshold, |contours|);
    var ks := KeptIndices(contours, |contours|);
    DetectedAreKeptContours(contours, motionThreshold, |contours|);
    KeptIndicesSpec(contours, |contours|);
    forall j, k | 0 <= j < k < |ws|
      ensures ws[j].id != ws[k].id
    {
      WorkerIdInjective(ks[j], ks[k]);
    }
  }
}
