/** Floor levels from the peaks of the height histogram: valleys bound the floors, and
    the floor nearest to height zero is the default. */
module Floors {
  import opened Histogram
  import opened Wrappers

  /** Floors are named by their position, from 1. */
  datatype FloorConfig = FloorConfig(number: nat, yMin: real, yMax: real, isDefault: bool)

  const I64_MAX: nat := 0x7FFF_FFFF_FFFF_FFFF

  /** The distance of the middle from zero in thousandths, cut to a 64-bit integer. */
  function GroundKey(floor: FloorConfig): nat {
    var mid := (floor.yMin + floor.yMax) / 2.0;
    var scaled := (if mid < 0.0 then -mid else mid) * 1000.0;
    if scaled.Floor > I64_MAX then I64_MAX else AtLeastZero(scaled.Floor)
  }

  /** Where floor `i` begins: the first edge, then the edge at each valley, then the last edge. */
  function Boundary(edges: seq<real>, valleys: seq<Valley>, i: nat): real
    requires edges != [] && i <= |valleys| + 1
  {
    if i == 0 then edges[0]
    else if i == |valleys| + 1 then edges[|edges| - 1]
    else if valleys[i - 1].index < |edges| then edges[valleys[i - 1].index]
    else 0.0
  }

  predicate Spans(edges: seq<real>, valleys: seq<Valley>, floor: FloorConfig, i: nat)
    requires edges != [] && i <= |valleys|
  {
    && floor.number == i + 1
    && floor.yMin == Boundary(edges, valleys, i)
    && floor.yMax == Boundary(edges, valleys, i + 1)
  }

  /** The first floor with the least key. */
  ghost predicate IsGround(floors: seq<FloorConfig>, ground: int) {
    && 0 <= ground < |floors|
    && (forall i :: 0 <= i < |floors| ==> GroundKey(floors[ground]) <= GroundKey(floors[i]))
    && (forall i :: 0 <= i < ground ==> GroundKey(floors[ground]) < GroundKey(floors[i]))
  }

  /** What the detection makes of the edges, the smoothed signal and its peaks. */
  ghost predicate AreFloors(edges: seq<real>, signal: seq<real>, peaks: seq<nat>, valleys: seq<Valley>, floors: seq<FloorConfig>) {
    && |edges| == |signal| + 1 && ArePeaks(signal, peaks) && peaks != []
    && AreValleys(signal, peaks, valleys)
    && |floors| == |peaks|
    && (forall i :: 0 <= i < |floors| ==> Spans(edges, valleys, floors[i], i))
    && exists ground :: IsGround(floors, ground) && forall i :: 0 <= i < |floors| ==> (floors[i].isDefault <==> i == ground)
  }

  datatype DetectError = NoWalkableSurfaces | NoPeaks

  datatype Detection = Detection(floors: seq<FloorConfig>, edges: seq<real>, signal: seq<real>, peaks: seq<nat>)

  /** From the samples to the floors. What smooths the histogram, and what finds the peaks, are given. */
  method DetectFloors(samples: seq<Sample>, binWidth: real, smooth: seq<real> -> seq<real>, findPeaks: seq<real> -> seq<nat>)
    returns (result: Result<Detection, DetectError>, ghost counts: seq<real>, ghost valleys: seq<Valley>)
    requires binWidth > 0.0
    requires forall signal :: |smooth(signal)| == |signal|
    requires forall signal :: ArePeaks(signal, findPeaks(signal))
    ensures result == Err(NoWalkableSurfaces) <==> samples == []
    ensures samples != [] ==> exists edges :: IsHistogram(samples, binWidth, edges, counts)
    ensures samples != [] ==> (result == Err(NoPeaks) <==> findPeaks(smooth(counts)) == [])
    ensures result.Ok? ==>
      var found := result.value;
      && IsHistogram(samples, binWidth, found.edges, counts)
      && found.signal == smooth(counts) && found.peaks == findPeaks(found.signal)
      && AreFloors(found.edges, found.signal, found.peaks, valleys, found.floors)
  {
    counts, valleys := [], [];
    if samples == [] {
      return Err(NoWalkableSurfaces), counts, valleys;
    }
    var edges, weights := BuildHistogram(samples, binWidth);
    counts := weights;
    var signal := smooth(weights);
    var peaks := findPeaks(signal);
    if peaks == [] {
      return Err(NoPeaks), counts, valleys;
    }
    var floors;
    floors, valleys := BuildFloors(edges, signal, peaks);
    result := Ok(Detection(floors, edges, signal, peaks));
  }

  /** The last part of the detection: there is a peak. */
  method BuildFloors(edges: seq<real>, signal: seq<real>, peaks: seq<nat>) returns (floors: seq<FloorConfig>, ghost valleys: seq<Valley>)
    requires |edges| == |signal| + 1 && ArePeaks(signal, peaks) && peaks != []
    ensures AreFloors(edges, signal, peaks, valleys, floors)
  {
    var found := FindValleys(signal, peaks);
    valleys := found;
    floors := [];
    for i := 0 to |peaks|
      invariant |floors| == i
      invariant forall k :: 0 <= k < i ==> Spans(edges, valleys, floors[k], k)
    {
      var yMin := edges[0];
      if i > 0 {
        assert IsValley(signal, peaks[i - 1], peaks[i - 1 + 1], valleys[i - 1]);
        yMin := edges[found[i - 1].index];
      }
      var yMax := edges[|edges| - 1];
      if i != |peaks| - 1 {
        assert IsValley(signal, peaks[i], peaks[i + 1], valleys[i]);
        yMax := edges[found[i].index];
      }
      floors := floors + [FloorConfig(i + 1, yMin, yMax, i == 0)];
    }
    var ground := FindGround(floors);
    ghost var built := floors;
    for i := 0 to |floors|
      invariant |floors| == |built|
      invariant forall k :: 0 <= k < |floors| ==> floors[k] == built[k].(isDefault := floors[k].isDefault)
      invariant forall k :: 0 <= k < i ==> (floors[k].isDefault <==> k == ground)
    {
      floors := floors[i := floors[i].(isDefault := i == ground)];
    }
    GroundStays(built, floors, ground);
    forall k | 0 <= k < |floors|
      ensures Spans(edges, valleys, floors[k], k)
    {
      assert Spans(edges, valleys, built[k], k);
    }
  }

  method FindGround(floors: seq<FloorConfig>) returns (ground: nat)
    requires floors != []
    ensures IsGround(floors, ground)
  {
    ground := 0;
    for i := 1 to |floors|
      invariant ground < i
      invariant forall k :: 0 <= k < i ==> GroundKey(floors[ground]) <= GroundKey(floors[k])
      invariant forall k :: 0 <= k < ground ==> GroundKey(floors[ground]) < GroundKey(floors[k])
    {
      if GroundKey(floors[i]) < GroundKey(floors[ground]) {
        ground := i;
      }
    }
  }

  /** The default mark does not count in the choice. */
  lemma {:induction false} GroundStays(built: seq<FloorConfig>, floors: seq<FloorConfig>, ground: nat)
    requires |floors| == |built| && IsGround(built, ground)
    requires forall k :: 0 <= k < |floors| ==> floors[k] == built[k].(isDefault := floors[k].isDefault)
    ensures IsGround(floors, ground)
  {
    assert forall k :: 0 <= k < |floors| ==> GroundKey(floors[k]) == GroundKey(built[k]);
  }

  // ------------------------------------------------------------- Main theorems

  /** The edges rise. */
  ghost predicate Rising(edges: seq<real>) {
    forall i, j :: 0 <= i <= j < |edges| ==> edges[i] <= edges[j]
  }

  lemma {:induction false} HistogramEdgesRise(samples: seq<Sample>, binWidth: real, edges: seq<real>, counts: seq<real>)
    requires binWidth > 0.0 && IsHistogram(samples, binWidth, edges, counts)
    ensures Rising(edges)
  {
    forall i, j | 0 <= i <= j < |edges|
      ensures edges[i] <= edges[j]
    {
      EdgesRise(edges[0], binWidth, i, j);
    }
  }

  /** Floors chain with no gap and no overlap from the first edge to the last. */
  lemma {:induction false} FloorsChain(edges: seq<real>, signal: seq<real>, peaks: seq<nat>, valleys: seq<Valley>, floors: seq<FloorConfig>)
    requires AreFloors(edges, signal, peaks, valleys, floors) && Rising(edges)
    ensures |floors| == |peaks|
    ensures floors[0].yMin == edges[0] && floors[|floors| - 1].yMax == edges[|edges| - 1]
    ensures forall i :: 0 < i < |floors| ==> floors[i].yMin == floors[i - 1].yMax
    ensures forall i :: 0 <= i < |floors| ==> floors[i].yMin <= floors[i].yMax
  {
    forall i | 0 < i < |floors|
      ensures floors[i].yMin == floors[i - 1].yMax
    {
      assert Spans(edges, valleys, floors[i - 1], i - 1) && Spans(edges, valleys, floors[i], i);
    }
    assert Spans(edges, valleys, floors[0], 0) && Spans(edges, valleys, floors[|floors| - 1], |floors| - 1);
    forall i | 0 <= i < |floors|
      ensures floors[i].yMin <= floors[i].yMax
    {
      PeakIsInside(edges, signal, peaks, valleys, floors, i);
    }
  }

  /** Each floor contains the edge of its own peak. */
  lemma {:induction false} PeakIsInside(edges: seq<real>, signal: seq<real>, peaks: seq<nat>, valleys: seq<Valley>, floors: seq<FloorConfig>, i: nat)
    requires AreFloors(edges, signal, peaks, valleys, floors) && Rising(edges) && i < |floors|
    ensures floors[i].yMin <= edges[peaks[i]] <= floors[i].yMax
  {
    assert Spans(edges, valleys, floors[i], i);
    if i > 0 {
      var k := i - 1;
      assert IsValley(signal, peaks[k], peaks[k + 1], valleys[k]);
      assert valleys[k].index <= peaks[i];
    }
    if i < |peaks| - 1 {
      assert IsValley(signal, peaks[i], peaks[i + 1], valleys[i]);
      assert peaks[i] <= valleys[i].index;
    }
  }

  /** Exactly one floor is the default: the first of those whose middle is nearest to zero. */
  lemma {:induction false} OneDefault(edges: seq<real>, signal: seq<real>, peaks: seq<nat>, valleys: seq<Valley>, floors: seq<FloorConfig>)
    requires AreFloors(edges, signal, peaks, valleys, floors)
    ensures exists i :: 0 <= i < |floors| && floors[i].isDefault
    ensures forall i :: 0 <= i < |floors| && floors[i].isDefault ==> IsGround(floors, i)
    ensures forall i, j :: 0 <= i < |floors| && 0 <= j < |floors| && floors[i].isDefault && floors[j].isDefault ==> i == j
  {
    var ground :| IsGround(floors, ground) && forall i :: 0 <= i < |floors| ==> (floors[i].isDefault <==> i == ground);
    assert floors[ground].isDefault;
  }

  predicate On(floor: FloorConfig, y: real) {
    floor.yMin <= y < floor.yMax
  }

  /** Some floor among the first `n` reaches above `y`. */
  lemma {:induction false} SomeFloor(floors: seq<FloorConfig>, y: real, n: nat)
    requires 0 < n <= |floors| && floors[0].yMin <= y < floors[n - 1].yMax
    requires forall i :: 0 < i < |floors| ==> floors[i].yMin == floors[i - 1].yMax
    ensures exists i :: 0 <= i < n && On(floors[i], y)
  {
    if floors[n - 1].yMin <= y {
      assert On(floors[n - 1], y);
    } else {
      SomeFloor(floors, y, n - 1);
    }
  }

  lemma {:induction false} FloorsRise(floors: seq<FloorConfig>, i: nat, j: nat)
    requires i <= j < |floors|
    requires forall i :: 0 < i < |floors| ==> floors[i].yMin == floors[i - 1].yMax
    requires forall i :: 0 <= i < |floors| ==> floors[i].yMin <= floors[i].yMax
    ensures i < j ==> floors[i].yMax <= floors[j].yMin
    decreases j - i
  {
    if i < j {
      FloorsRise(floors, i, j - 1);
    }
  }

  /** Every sample that went into the histogram is on exactly one floor. */
  lemma {:induction false} EverySampleHasAFloor(samples: seq<Sample>, binWidth: real, edges: seq<real>, counts: seq<real>,
      signal: seq<real>, peaks: seq<nat>, valleys: seq<Valley>, floors: seq<FloorConfig>, k: nat)
    requires binWidth > 0.0 && IsHistogram(samples, binWidth, edges, counts) && |signal| == |counts|
    requires AreFloors(edges, signal, peaks, valleys, floors) && k < |samples|
    ensures exists i :: 0 <= i < |floors| && On(floors[i], samples[k].value)
    ensures forall i, j | 0 <= i < |floors| && 0 <= j < |floors| ::
      On(floors[i], samples[k].value) && On(floors[j], samples[k].value) ==> i == j
  {
    HistogramEdgesRise(samples, binWidth, edges, counts);
    FloorsChain(edges, signal, peaks, valleys, floors);
    SomeFloor(floors, samples[k].value, |floors|);
    forall i, j | 0 <= i < j < |floors|
      ensures !(On(floors[i], samples[k].value) && On(floors[j], samples[k].value))
    {
      FloorsRise(floors, i, j);
    }
  }

  // ------------------------------------------------------------- In plain figures

  /** How far the middle of a floor is from height zero. */
  function FromZero(floor: FloorConfig): real {
    if floor.yMin + floor.yMax < 0.0 then -(floor.yMin + floor.yMax) / 2.0 else (floor.yMin + floor.yMax) / 2.0
  }

  lemma {:induction false} KeyBounds(floor: FloorConfig)
    ensures FromZero(floor) >= 0.0
    ensures GroundKey(floor) < I64_MAX ==>
      GroundKey(floor) as real <= FromZero(floor) * 1000.0 < GroundKey(floor) as real + 1.0
    ensures FromZero(floor) * 1000.0 < I64_MAX as real ==> GroundKey(floor) < I64_MAX
  {
  }

  /** No floor is nearer to zero than the default by a thousandth or more, and none below it is as near,
      while heights are within what 64 bits hold in thousandths. */
  lemma {:induction false} DefaultIsNearest(edges: seq<real>, signal: seq<real>, peaks: seq<nat>, valleys: seq<Valley>,
      floors: seq<FloorConfig>, d: nat, i: nat)
    requires AreFloors(edges, signal, peaks, valleys, floors) && d < |floors| && i < |floors|
    requires floors[d].isDefault && FromZero(floors[i]) * 1000.0 < 9_223_372_036_854_775_807.0
    ensures FromZero(floors[d]) < FromZero(floors[i]) + 0.001
    ensures i < d ==> FromZero(floors[d]) < FromZero(floors[i])
  {
    OneDefault(edges, signal, peaks, valleys, floors);
    assert IsGround(floors, d);
    KeyBounds(floors[d]);
    KeyBounds(floors[i]);
  }

  /** Two floors meet at the edge of the first bin of least signal from the one's peak to the other's. */
  lemma {:induction false} FloorsMeetAtValleys(edges: seq<real>, signal: seq<real>, peaks: seq<nat>, valleys: seq<Valley>,
      floors: seq<FloorConfig>, i: nat)
    requires AreFloors(edges, signal, peaks, valleys, floors) && i + 1 < |floors|
    ensures exists v :: && peaks[i] <= v <= peaks[i + 1] && floors[i].yMax == floors[i + 1].yMin == edges[v]
                        && (forall k :: peaks[i] <= k <= peaks[i + 1] ==> signal[v] <= signal[k])
                        && (forall k :: peaks[i] <= k < v ==> signal[v] < signal[k])
  {
    assert IsValley(signal, peaks[i], peaks[i + 1], valleys[i]);
    assert Spans(edges, valleys, floors[i], i) && Spans(edges, valleys, floors[i + 1], i + 1);
    var v := valleys[i].index;
    assert floors[i].yMax == floors[i + 1].yMin == edges[v];
  }
}
