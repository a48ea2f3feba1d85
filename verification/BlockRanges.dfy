/** Splitting a block range into capped chunks (scan.ts) and watching a head that may lag (head-monitor.ts). */
module BlockRanges {
  import opened Binary

  datatype Range = Range(from: int, to: int)

  /** The chunks are consecutive, start at `from` and reach `end`. */
  ghost predicate Consecutive(ranges: seq<Range>, from: int, end: int) {
    if ranges == [] then end == from - 1
    else ranges[|ranges| - 1].to == end && ranges[|ranges| - 1].from <= end
         && Consecutive(ranges[..|ranges| - 1], from, ranges[|ranges| - 1].from - 1)
  }

  /** A capped split stopped short of the head. */
  predicate IsScanTruncated(ranges: seq<Range>, to: int) {
    ranges != [] && ranges[|ranges| - 1].to < to
  }

  datatype SplitResult = Ranges(list: seq<Range>) | BadArgument

  /**
   * Chunks of at most `chunkSize` blocks from `from`, at most `maxChunks` of them: together exactly the blocks from
   * `from` to the last chunk's end, which is `to` unless the cap stopped short.
   */
  method SplitBlockRange(from: int, to: int, chunkSize: int, maxChunks: Option<int>) returns (r: SplitResult)
    ensures r.BadArgument? <==> chunkSize <= 0 || (maxChunks.Some? && maxChunks.value <= 0)
    ensures r.Ranges? ==> forall i :: 0 <= i < |r.list| ==> r.list[i].to - r.list[i].from < chunkSize
    ensures r.Ranges? && maxChunks.Some? ==> |r.list| <= maxChunks.value
    ensures r.Ranges? && to < from ==> r.list == []
    ensures r.Ranges? && to >= from ==>
      (r.list != [] && Consecutive(r.list, from, r.list[|r.list| - 1].to) && r.list[|r.list| - 1].to <= to)
    ensures r.Ranges? && IsScanTruncated(r.list, to) ==>
      (maxChunks == Some(|r.list|) && forall i :: 0 <= i < |r.list| ==> r.list[i].to - r.list[i].from == chunkSize - 1)
  {
    if chunkSize <= 0 || (maxChunks.Some? && maxChunks.value <= 0) {
      return BadArgument;
    }
    if to < from {
      return Ranges([]);
    }
    var ranges: seq<Range> := [];
    var cursor := from;
    while cursor <= to && !(maxChunks.Some? && |ranges| >= maxChunks.value)
      invariant from <= cursor <= to + 1 && Consecutive(ranges, from, cursor - 1)
      invariant ranges == [] ==> cursor == from
      invariant forall i :: 0 <= i < |ranges| ==> ranges[i].to - ranges[i].from < chunkSize
      invariant cursor <= to ==> forall i :: 0 <= i < |ranges| ==> ranges[i].to - ranges[i].from == chunkSize - 1
      invariant maxChunks.Some? ==> |ranges| <= maxChunks.value
      decreases 1 + to - cursor
    {
      var end := Min(cursor + chunkSize - 1, to);
      ghost var before := ranges;
      ranges := ranges + [Range(cursor, end)];
      assert ranges[..|ranges| - 1] == before;
      cursor := end + 1;
    }
    r := Ranges(ranges);
  }

  /** What a read reports; `highest` may be above it, when the answering node lags. */
  datatype Observation = Observation(target: int, highest: int, behindBy: Option<int>, stalledSince: Option<int>)

  function Raised(highest: Option<int>, block: int): (r: Option<int>)
    ensures r.Some? && r.value >= block && (highest.Some? ==> r.value >= highest.value)
    ensures r == Some(block) || r == highest
  {
    if highest.None? || block > highest.value then Some(block) else highest
  }

  /** The highest block any read, or a persisted cursor, has shown, and when a read last raised it. */
  class HeadMonitor {
    var highest: Option<int>
    var advancedAt: Option<int>
    var behindSince: Option<int>
    const stallMs: int

    constructor (stallMs: int)
      ensures highest == None && advancedAt == None && behindSince == None && this.stallMs == stallMs
    {
      highest, advancedAt, behindSince := None, None, None;
      this.stallMs := stallMs;
    }

    method Seed(block: int)
      modifies this`highest
      ensures highest == Raised(old(highest), block)
    {
      if highest.None? || block > highest.value {
        highest := Some(block);
      }
    }

    /** A scan goes no further than this read reports, however high an earlier one was. */
    method Observe(reported: int, now: int) returns (o: Observation)
      modifies this
      ensures highest == Raised(old(highest), reported)
      ensures o.target == reported && o.highest == highest.value
      ensures o.behindBy == if reported < o.highest then Some(o.highest - reported) else None
      ensures advancedAt == if highest != old(highest) || old(advancedAt).None? then Some(now) else old(advancedAt)
      ensures o.stalledSince == if stallMs > 0 && now - advancedAt.value >= stallMs then advancedAt else None
      ensures behindSince.Some? <==> o.behindBy.Some?
      ensures o.behindBy.Some? && old(behindSince).Some? ==> behindSince == old(behindSince)
    {
      if highest.None? || reported > highest.value {
        highest, advancedAt := Some(reported), Some(now);
      }
      if advancedAt.None? {
        advancedAt := Some(now);
      }
      var stalled := if stallMs > 0 && now - advancedAt.value >= stallMs then advancedAt else None;
      if reported >= highest.value {
        behindSince := None;
        return Observation(reported, highest.value, None, stalled);
      }
      if behindSince.None? {
        behindSince := Some(now);
      }
      o := Observation(reported, highest.value, Some(highest.value - reported), stalled);
    }
  }
}
