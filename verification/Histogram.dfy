/** The height histogram and the valleys between its peaks, over exact reals. */
module Histogram {

  datatype Sample = Sample(value: real, weight: real)

  function Floor(x: real): int {
    x.Floor
  }

  function Ceil(x: real): int {
    if x == x.Floor as real then x.Floor else x.Floor + 1
  }

  function AtLeastZero(n: int): nat {
    if n >= 0 then n else 0
  }

  ghost predicate IsLeast(samples: seq<Sample>, least: real) {
    && (exists i :: 0 <= i < |samples| && samples[i].value == least)
    && (forall i :: 0 <= i < |samples| ==> least <= samples[i].value)
  }

  ghost predicate IsGreatest(samples: seq<Sample>, greatest: real) {
    && (exists i :: 0 <= i < |samples| && samples[i].value == greatest)
    && (forall i :: 0 <= i < |samples| ==> samples[i].value <= greatest)
  }

  /** The lower edge of bin `i`. */
  function EdgeAt(low: real, binWidth: real, i: nat): real {
    low + i as real * binWidth
  }

  /** The weight of the samples from `from` up to, not including, `to`. */
  function WeightBetween(samples: seq<Sample>, from: real, to: real): real {
    if samples == [] then 0.0
    else
      var last := samples[|samples| - 1];
      WeightBetween(samples[..|samples| - 1], from, to) + (if from <= last.value < to then last.weight else 0.0)
  }

  function TotalWeight(samples: seq<Sample>): real {
    if samples == [] then 0.0 else TotalWeight(samples[..|samples| - 1]) + samples[|samples| - 1].weight
  }

  function Sum(xs: seq<real>): real {
    if xs == [] then 0.0 else Sum(xs[..|xs| - 1]) + xs[|xs| - 1]
  }

  method Extremes(samples: seq<Sample>) returns (least: real, greatest: real)
    requires samples != []
    ensures IsLeast(samples, least) && IsGreatest(samples, greatest)
  {
    least, greatest := samples[0].value, samples[0].value;
    for i := 1 to |samples|
      invariant exists j :: 0 <= j < i && samples[j].value == least
      invariant exists j :: 0 <= j < i && samples[j].value == greatest
      invariant forall j :: 0 <= j < i ==> least <= samples[j].value <= greatest
    {
      if samples[i].value < least {
        least := samples[i].value;
      }
      if samples[i].value > greatest {
        greatest := samples[i].value;
      }
    }
  }

  /** The last bin starts at or above the greatest value, and is the first to do so. */
  ghost predicate EndsAtGreatest(samples: seq<Sample>, edges: seq<real>) {
    && |edges| >= 2
    && (forall i :: 0 <= i < |samples| ==> samples[i].value <= edges[|edges| - 2])
    && (|edges| > 2 ==> exists i :: 0 <= i < |samples| && edges[|edges| - 3] < samples[i].value)
  }

  ghost predicate IsHistogram(samples: seq<Sample>, binWidth: real, edges: seq<real>, counts: seq<real>) {
    && |edges| == |counts| + 1
    && IsLeast(samples, edges[0])
    && (forall i :: 0 <= i < |edges| ==> edges[i] == EdgeAt(edges[0], binWidth, i))
    && (forall i :: 0 <= i < |samples| ==> samples[i].value < edges[|counts|])
    && EndsAtGreatest(samples, edges)
    && (forall i :: 0 <= i < |counts| ==> counts[i] == WeightBetween(samples, edges[i], edges[i + 1]))
  }

  /** The counts of the first `n` samples. */
  ghost predicate CountsFirst(samples: seq<Sample>, n: nat, low: real, binWidth: real, counts: seq<real>)
    requires n <= |samples|
  {
    forall k :: 0 <= k < |counts| ==>
      counts[k] == WeightBetween(samples[..n], EdgeAt(low, binWidth, k), EdgeAt(low, binWidth, k + 1))
  }

  lemma {:induction false} CountNext(samples: seq<Sample>, i: nat, low: real, binWidth: real, counts: seq<real>, bin: nat)
    requires i < |samples| && bin < |counts| && CountsFirst(samples, i, low, binWidth, counts)
    requires forall k :: 0 <= k < |counts| ==>
      (EdgeAt(low, binWidth, k) <= samples[i].value < EdgeAt(low, binWidth, k + 1) <==> k == bin)
    ensures CountsFirst(samples, i + 1, low, binWidth, counts[bin := counts[bin] + samples[i].weight])
  {
    assert samples[..i + 1][..i] == samples[..i];
  }

  /** Each count is the weight of the samples between its edges, and the edges span all samples. */
  method BuildHistogram(samples: seq<Sample>, binWidth: real) returns (edges: seq<real>, counts: seq<real>)
    requires binWidth > 0.0
    ensures samples == [] ==> edges == [] && counts == []
    ensures samples != [] ==> IsHistogram(samples, binWidth, edges, counts)
  {
    if samples == [] {
      return [], [];
    }
    var low, high := Extremes(samples);
    var nBins := AtLeastZero(Ceil((high - low) / binWidth)) + 1;
    counts := seq(nBins, _ => 0.0);
    edges := BuildEdges(low, binWidth, nBins);
    for i := 0 to |samples|
      invariant |counts| == nBins && CountsFirst(samples, i, low, binWidth, counts)
    {
      var sample := samples[i];
      var bin := AtLeastZero(Floor((sample.value - low) / binWidth));
      bin := if bin < nBins - 1 then bin else nBins - 1;
      ChosenBin(low, high, binWidth, sample.value, nBins, bin);
      CountNext(samples, i, low, binWidth, counts, bin);
      counts := counts[bin := counts[bin] + sample.weight];
    }
    assert samples[..|samples|] == samples;
    AllBelowLastEdge(samples, low, high, binWidth);
    LastBinHoldsGreatest(samples, low, high, binWidth, edges);
  }

  method BuildEdges(low: real, binWidth: real, nBins: nat) returns (edges: seq<real>)
    ensures |edges| == nBins + 1 && forall k :: 0 <= k <= nBins ==> edges[k] == EdgeAt(low, binWidth, k)
  {
    edges := [];
    for i := 0 to nBins + 1
      invariant |edges| == i
      invariant forall k :: 0 <= k < i ==> edges[k] == EdgeAt(low, binWidth, k)
    {
      edges := edges + [low + i as real * binWidth];
    }
  }

  /** The bin that is counted up is the one between whose edges the value lies. */
  lemma {:induction false} ChosenBin(low: real, high: real, binWidth: real, value: real, nBins: nat, bin: nat)
    requires binWidth > 0.0 && low <= value <= high && nBins == AtLeastZero(Ceil((high - low) / binWidth)) + 1
    requires
      var floor := AtLeastZero(Floor((value - low) / binWidth));
      bin == if floor < nBins - 1 then floor else nBins - 1
    ensures bin < nBins
    ensures forall k :: 0 <= k < nBins ==> (EdgeAt(low, binWidth, k) <= value < EdgeAt(low, binWidth, k + 1) <==> k == bin)
  {
    BinIsInRange(low, high, binWidth, value);
    assert bin == Floor((value - low) / binWidth);
    forall k: nat | k < nBins
      ensures EdgeAt(low, binWidth, k) <= value < EdgeAt(low, binWidth, k + 1) <==> k == bin
    {
      BinHolds(low, binWidth, value, k);
    }
  }

  /** The clamp of the bin never fires. */
  lemma {:induction false} BinIsInRange(low: real, high: real, binWidth: real, value: real)
    requires binWidth > 0.0 && low <= value <= high
    ensures 0 <= Floor((value - low) / binWidth) <= Ceil((high - low) / binWidth)
  {
    var x, y := (value - low) / binWidth, (high - low) / binWidth;
    DivideMono(0.0, value - low, binWidth);
    DivideMono(value - low, high - low, binWidth);
    assert 0.0 <= x <= y;
  }

  lemma {:induction false} DivideMono(a: real, b: real, w: real)
    requires w > 0.0 && a <= b
    ensures a / w <= b / w
  {
    var p, q := a / w, b / w;
    assert p * w == a && q * w == b;
    if p > q {
      MulMono(q, p, w);
      assert false;
    }
  }

  lemma {:induction false} MulMono(a: real, b: real, w: real)
    requires w > 0.0 && a < b
    ensures a * w < b * w
  {
    assert (b - a) * w > 0.0;
    assert (b - a) * w == b * w - a * w;
  }

  /** The quotient lies between bin edges exactly where the value does. */
  lemma {:induction false} BinHolds(low: real, binWidth: real, value: real, k: nat)
    requires binWidth > 0.0
    ensures EdgeAt(low, binWidth, k) <= value < EdgeAt(low, binWidth, k + 1) <==> Floor((value - low) / binWidth) == k
  {
    EdgeBelow(low, binWidth, value, k);
    EdgeBelow(low, binWidth, value, k + 1);
    FloorBetween((value - low) / binWidth, k);
  }

  lemma {:induction false} EdgeBelow(low: real, binWidth: real, value: real, i: nat)
    requires binWidth > 0.0
    ensures EdgeAt(low, binWidth, i) <= value <==> i as real <= (value - low) / binWidth
  {
    var q := (value - low) / binWidth;
    assert q * binWidth == value - low;
    MulOrder(i as real, q, binWidth);
  }

  lemma {:induction false} MulOrder(a: real, b: real, w: real)
    requires w > 0.0
    ensures a <= b <==> a * w <= b * w
  {
    if a < b {
      MulMono(a, b, w);
    } else if b < a {
      MulMono(b, a, w);
    }
  }

  lemma {:induction false} FloorBetween(q: real, k: nat)
    ensures Floor(q) == k <==> k as real <= q && !((k + 1) as real <= q)
  {
  }

  lemma {:induction false} AllBelowLastEdge(samples: seq<Sample>, low: real, high: real, binWidth: real)
    requires binWidth > 0.0 && IsLeast(samples, low) && IsGreatest(samples, high)
    ensures forall i :: 0 <= i < |samples| ==>
      samples[i].value < EdgeAt(low, binWidth, AtLeastZero(Ceil((high - low) / binWidth)) + 1)
  {
    var n := AtLeastZero(Ceil((high - low) / binWidth)) + 1;
    EdgeBelow(low, binWidth, high, n);
    CeilBound((high - low) / binWidth, n);
  }

  lemma {:induction false} LastBinHoldsGreatest(samples: seq<Sample>, low: real, high: real, binWidth: real, edges: seq<real>)
    requires binWidth > 0.0 && IsLeast(samples, low) && IsGreatest(samples, high)
    requires |edges| == AtLeastZero(Ceil((high - low) / binWidth)) + 2
    requires forall i :: 0 <= i < |edges| ==> edges[i] == EdgeAt(low, binWidth, i)
    ensures EndsAtGreatest(samples, edges)
  {
    var y, n := (high - low) / binWidth, |edges| - 2;
    DivideMono(0.0, high - low, binWidth);
    CeilIsLeast(y, n);
    EdgeAbove(low, binWidth, high, n);
    if n > 0 {
      EdgeAbove(low, binWidth, high, n - 1);
      assert edges[n - 1] < high;
    }
  }

  lemma {:induction false} CeilIsLeast(y: real, n: nat)
    requires y >= 0.0 && n == AtLeastZero(Ceil(y))
    ensures y <= n as real && (n > 0 ==> (n - 1) as real < y)
  {
  }

  lemma {:induction false} EdgeAbove(low: real, binWidth: real, value: real, i: nat)
    requires binWidth > 0.0
    ensures value <= EdgeAt(low, binWidth, i) <==> (value - low) / binWidth <= i as real
  {
    var q := (value - low) / binWidth;
    assert q * binWidth == value - low;
    MulOrder(q, i as real, binWidth);
  }

  lemma {:induction false} CeilBound(y: real, n: nat)
    requires n == AtLeastZero(Ceil(y)) + 1
    ensures !(n as real <= y)
  {
  }

  // ------------------------------------------------------------- Conservation

  lemma {:induction false} EdgesRise(low: real, binWidth: real, i: nat, j: nat)
    requires binWidth > 0.0 && i <= j
    ensures EdgeAt(low, binWidth, i) <= EdgeAt(low, binWidth, j)
  {
    if i < j {
      MulMono(i as real, j as real, binWidth);
    }
  }

  lemma {:induction false} WeightSplits(samples: seq<Sample>, from: real, mid: real, to: real)
    requires from <= mid <= to
    ensures WeightBetween(samples, from, to) == WeightBetween(samples, from, mid) + WeightBetween(samples, mid, to)
  {
    if samples != [] {
      WeightSplits(samples[..|samples| - 1], from, mid, to);
    }
  }

  lemma {:induction false} NothingBetween(samples: seq<Sample>, x: real)
    ensures WeightBetween(samples, x, x) == 0.0
  {
    if samples != [] {
      NothingBetween(samples[..|samples| - 1], x);
    }
  }

  lemma {:induction false} EverythingBetween(samples: seq<Sample>, from: real, to: real)
    requires forall i :: 0 <= i < |samples| ==> from <= samples[i].value < to
    ensures WeightBetween(samples, from, to) == TotalWeight(samples)
  {
    if samples != [] {
      EverythingBetween(samples[..|samples| - 1], from, to);
    }
  }

  lemma {:induction false} CountsUpTo(samples: seq<Sample>, binWidth: real, edges: seq<real>, counts: seq<real>, n: nat)
    requires binWidth > 0.0 && IsHistogram(samples, binWidth, edges, counts) && n <= |counts|
    ensures Sum(counts[..n]) == WeightBetween(samples, edges[0], edges[n])
  {
    if n == 0 {
      NothingBetween(samples, edges[0]);
    } else {
      CountsUpTo(samples, binWidth, edges, counts, n - 1);
      assert counts[..n][..n - 1] == counts[..n - 1];
      EdgesRise(edges[0], binWidth, 0, n - 1);
      EdgesRise(edges[0], binWidth, n - 1, n);
      WeightSplits(samples, edges[0], edges[n - 1], edges[n]);
    }
  }

  /** The histogram conserves the total weight. */
  lemma {:induction false} WeightIsConserved(samples: seq<Sample>, binWidth: real, edges: seq<real>, counts: seq<real>)
    requires binWidth > 0.0 && IsHistogram(samples, binWidth, edges, counts)
    ensures Sum(counts) == TotalWeight(samples)
  {
    CountsUpTo(samples, binWidth, edges, counts, |counts|);
    assert counts[..|counts|] == counts;
    EverythingBetween(samples, edges[0], edges[|counts|]);
  }

  // ------------------------------------------------------------------ Valleys

  datatype Valley = Valley(index: nat, value: real)

  /** The first least value of the signal from one peak to the next, both included. */
  ghost predicate IsValley(signal: seq<real>, from: nat, to: nat, valley: Valley) {
    && from <= valley.index <= to < |signal|
    && valley.value == signal[valley.index]
    && (forall k :: from <= k <= to ==> signal[valley.index] <= signal[k])
    && (forall k :: from <= k < valley.index ==> signal[valley.index] < signal[k])
  }

  /** Peaks in rising order inside the signal. */
  ghost predicate ArePeaks(signal: seq<real>, peaks: seq<nat>) {
    && (forall i :: 0 <= i < |peaks| ==> peaks[i] < |signal|)
    && (forall i, j :: 0 <= i < j < |peaks| ==> peaks[i] < peaks[j])
  }

  ghost predicate AreValleys(signal: seq<real>, peaks: seq<nat>, valleys: seq<Valley>) {
    && |valleys| == (if |peaks| < 2 then 0 else |peaks| - 1)
    && forall i :: 0 <= i < |valleys| ==> IsValley(signal, peaks[i], peaks[i + 1], valleys[i])
  }

  method FindValleys(signal: seq<real>, peaks: seq<nat>) returns (valleys: seq<Valley>)
    requires ArePeaks(signal, peaks)
    ensures AreValleys(signal, peaks, valleys)
  {
    valleys := [];
    if |peaks| < 2 {
      return;
    }
    for i := 0 to |peaks| - 1
      invariant |valleys| == i
      invariant forall k :: 0 <= k < i ==> IsValley(signal, peaks[k], peaks[k + 1], valleys[k])
    {
      assert peaks[i] < peaks[i + 1];
      var start := if peaks[i] < |signal| - 1 then peaks[i] else |signal| - 1;
      var end := if peaks[i + 1] < |signal| - 1 then peaks[i + 1] else |signal| - 1;
      var least := start;
      for k := start + 1 to end + 1
        invariant start <= least < k
        invariant forall j :: start <= j < k ==> signal[least] <= signal[j]
        invariant forall j :: start <= j < least ==> signal[least] < signal[j]
      {
        if signal[k] < signal[least] {
          least := k;
        }
      }
      valleys := valleys + [Valley(least, signal[least])];
    }
  }
}
