/** Per-frame rendering counters (managers/metrics_manager.cpp).  The
    steady clock is a parameter, counted in milliseconds; the console report
    is modelled as a list of the averages printed.  The two unsigned
    draw-call counters wrap at 2^32; the signed counters are unbounded. */
module MetricsManager {
  import opened Common

  const U32: int := 0x1_0000_0000

  /** The figures one report prints. */
  datatype Report = Report(avgFrameTime: real, avgPortalTime: real, avgDrawCalls: real, maxRecursionDepth: int)

  /** The frame depth after `updateRecursionDepth(d)`. */
  function RaiseDepth(current: int, d: int): (r: int)
    ensures r >= current && r >= d
    ensures r == current || r == d
  {
    if d > current then d else current
  }

  /** The frame depth after reporting `ds` in order, starting from `start`. */
  function RaisedBy(start: int, ds: seq<int>): int
  {
    if ds == [] then start else RaiseDepth(RaisedBy(start, ds[..|ds| - 1]), ds[|ds| - 1])
  }

  /** Starting from a reset frame, the depth is the largest of 0 and every
      depth reported during the frame. */
  lemma {:induction false} RaisedByIsMax(ds: seq<int>)
    ensures RaisedBy(0, ds) >= 0
    ensures forall i :: 0 <= i < |ds| ==> RaisedBy(0, ds) >= ds[i]
    ensures RaisedBy(0, ds) == 0 || exists i :: 0 <= i < |ds| && RaisedBy(0, ds) == ds[i]
  {
    if ds != [] {
      var init := ds[..|ds| - 1];
      RaisedByIsMax(init);
      if RaisedBy(0, ds) != 0 && RaisedBy(0, ds) != ds[|ds| - 1] {
        var i :| 0 <= i < |init| && RaisedBy(0, init) == init[i];
        assert ds[i] == init[i];
      }
    }
  }

  /** One second on the steady clock. */
  const MillisPerSecond: int := 1000

  class MetricsManager {
    var frameCount: int
    var totalFrames: int
    var totalFrameTime: real
    var totalPortalPassTime: real
    var totalDrawCalls: int
    var maxRecursionDepth: int
    var frameDrawCalls: int
    var frameRecursionDepth: int
    var lastPrintTime: int
    /** What has been printed so far. */
    var reports: seq<Report>

    /** The unsigned counters stay within 32 bits and the depths are never
        negative. */
    predicate Valid()
      reads this
    {
      && 0 <= frameDrawCalls < U32 && 0 <= totalDrawCalls < U32
      && frameRecursionDepth >= 0 && maxRecursionDepth >= 0
      && frameCount >= 0
    }

    /** `totalFrames` is never initialised by the constructor; its first
        value is a parameter. */
    constructor (now: int, initialTotalFrames: int)
      ensures Valid()
      ensures frameCount == 0 && totalFrameTime == 0.0 && totalPortalPassTime == 0.0
      ensures totalDrawCalls == 0 && maxRecursionDepth == 0 && frameDrawCalls == 0 && frameRecursionDepth == 0
      ensures totalFrames == initialTotalFrames && lastPrintTime == now && reports == []
    {
      frameCount := 0;
      totalFrameTime := 0.0;
      totalPortalPassTime := 0.0;
      totalDrawCalls := 0;
      maxRecursionDepth := 0;
      frameDrawCalls := 0;
      frameRecursionDepth := 0;
      totalFrames := initialTotalFrames;
      lastPrintTime := now;
      reports := [];
    }

    method AddFrameTime(time: real)
      modifies `totalFrameTime
      ensures totalFrameTime == old(totalFrameTime) + time
    {
      totalFrameTime := totalFrameTime + time;
    }

    method AddPortalPassTime(time: real)
      modifies `totalPortalPassTime
      ensures totalPortalPassTime == old(totalPortalPassTime) + time
    {
      totalPortalPassTime := totalPortalPassTime + time;
    }

    method IncrementDrawCalls()
      requires Valid()
      modifies `frameDrawCalls
      ensures Valid()
      ensures frameDrawCalls == (old(frameDrawCalls) + 1) % U32
    {
      frameDrawCalls := (frameDrawCalls + 1) % U32;
    }

    method UpdateRecursionDepth(depth: int)
      requires Valid()
      modifies `frameRecursionDepth
      ensures Valid()
      ensures frameRecursionDepth == RaiseDepth(old(frameRecursionDepth), depth)
    {
      if depth > frameRecursionDepth {
        frameRecursionDepth := depth;
      }
    }

    /** The averages, or nothing when no frame was counted. */
    function Averages(): (r: Option<Report>)
      reads this
      ensures r.Some? <==> frameCount != 0
      ensures r.Some? ==> r.value.maxRecursionDepth == maxRecursionDepth
    {
      if frameCount == 0 then None
      else Some(Report(totalFrameTime / frameCount as real, totalPortalPassTime / frameCount as real,
                       totalDrawCalls as real / frameCount as real, maxRecursionDepth))
    }

    method PrintMetrics()
      modifies `reports
      ensures reports == old(reports) + (if frameCount == 0 then [] else [Averages().value])
    {
      if frameCount == 0 {
        return;
      }
      reports := reports + [Averages().value];
    }

    /** Every counter back to zero except `totalFrames` and the print time. */
    method ResetMetrics()
      modifies this
      ensures Valid()
      ensures frameCount == 0 && totalFrameTime == 0.0 && totalPortalPassTime == 0.0
      ensures totalDrawCalls == 0 && maxRecursionDepth == 0 && frameDrawCalls == 0 && frameRecursionDepth == 0
      ensures totalFrames == old(totalFrames) && lastPrintTime == old(lastPrintTime) && reports == old(reports)
    {
      frameCount := 0;
      totalFrameTime := 0.0;
      totalPortalPassTime := 0.0;
      totalDrawCalls := 0;
      maxRecursionDepth := 0;
      frameDrawCalls := 0;
      frameRecursionDepth := 0;
    }

    /** Closes a frame: the frame's draw calls go into the total, the
        frame's depth raises the maximum, the frame counters restart and
        both frame counts advance.  Once a whole second has passed since the
        last report, the averages are printed and every counter but
        `totalFrames` is reset. */
    method EndFrame(now: int)
      requires Valid() && now >= lastPrintTime
      modifies this
      ensures Valid()
      ensures totalFrames == old(totalFrames) + 1
      ensures frameDrawCalls == 0 && frameRecursionDepth == 0
      ensures (now - old(lastPrintTime)) / MillisPerSecond < 1 ==>
        && totalDrawCalls == (old(totalDrawCalls) + old(frameDrawCalls)) % U32
        && maxRecursionDepth == RaiseDepth(old(maxRecursionDepth), old(frameRecursionDepth))
        && frameCount == old(frameCount) + 1
        && totalFrameTime == old(totalFrameTime) && totalPortalPassTime == old(totalPortalPassTime)
        && lastPrintTime == old(lastPrintTime) && reports == old(reports)
      ensures (now - old(lastPrintTime)) / MillisPerSecond >= 1 ==>
        && reports == old(reports) + [Report(
             old(totalFrameTime) / (old(frameCount) + 1) as real,
             old(totalPortalPassTime) / (old(frameCount) + 1) as real,
             ((old(totalDrawCalls) + old(frameDrawCalls)) % U32) as real / (old(frameCount) + 1) as real,
             RaiseDepth(old(maxRecursionDepth), old(frameRecursionDepth)))]
        && frameCount == 0 && totalDrawCalls == 0 && maxRecursionDepth == 0
        && totalFrameTime == 0.0 && totalPortalPassTime == 0.0
        && lastPrintTime == now
    {
      totalDrawCalls := (totalDrawCalls + frameDrawCalls) % U32;
      if frameRecursionDepth > maxRecursionDepth {
        maxRecursionDepth := frameRecursionDepth;
      }
      frameDrawCalls := 0;
      frameRecursionDepth := 0;
      frameCount := frameCount + 1;
      totalFrames := totalFrames + 1;

      var elapsed := (now - lastPrintTime) / MillisPerSecond;
      if elapsed >= 1 {
        PrintMetrics();
        ResetMetrics();
        lastPrintTime := now;
      }
    }
  }
}
