/** Speed estimation over consecutive images: `calculate_speed` (main.py
    lines 164-169) and the pair filter and averaging of `main` (main.py lines
    201-237).

    The haversine distance (main.py lines 148-161) is floating-point
    trigonometry; it enters as an arbitrary function of the four coordinates,
    and only whether it returns zero affects which pairs are kept. */
module Speed {
  import opened Types

  /** `haversine_distance(lat1, lon1, lat2, lon2)` in kilometres. */
  type Distance = (real, real, real, real) -> real

  /** One captured image as the aggregator sees it: its file name and the
      result of extracting its geotag (`None` when extraction failed). */
  datatype Frame = Frame(name: string, fix: Option<Fix>)

  /** One entry of `speed_data`: distance, elapsed seconds and speed. */
  datatype Sample = Sample(distance: real, elapsed: int, speed: real)

  function Abs(x: real): (r: real)
    ensures r >= 0.0
    ensures r == x || r == -x
  {
    if x < 0.0 then -x else x
  }

  /** `calculate_speed`: the speed of covering `distance` km in `seconds`
      seconds, whatever the signs of either. A zero divisor raises
      ZeroDivisionError in the source, hence the precondition. */
  function SpeedOf(distance: real, seconds: int): (r: real)
    requires seconds != 0
    ensures r >= 0.0
    ensures r * Abs(seconds as real) == Abs(distance)
    ensures distance != 0.0 ==> r > 0.0
  {
    var q := distance / seconds as real;
    assert q * seconds as real == distance;
    Abs(q)
  }

  function DistanceBetween(a: Fix, b: Fix, dist: Distance): (r: real) {
    dist(a.lat, a.lon, b.lat, b.lon)
  }

  /** The pair (a, b) yields a sample: both extractions succeeded, the file
      names differ, the distance is non-zero and so is the elapsed time. */
  predicate Contributes(a: Frame, b: Frame, dist: Distance) {
    && a.fix.Some? && b.fix.Some?
    && a.name != b.name
    && DistanceBetween(a.fix.value, b.fix.value, dist) != 0.0
    && b.fix.value.time - a.fix.value.time != 0
  }

  /** What every collected sample satisfies. */
  predicate ValidSample(s: Sample) {
    && s.distance != 0.0
    && s.elapsed != 0
    && s.speed > 0.0
    && s.speed * Abs(s.elapsed as real) == Abs(s.distance)
  }

  /** One iteration of the loop in `main` for the images at i-1 and i. */
  function PairSample(a: Frame, b: Frame, dist: Distance): (r: Option<Sample>)
    ensures r.Some? <==> Contributes(a, b, dist)
    ensures r.Some? ==> ValidSample(r.value)
    ensures r.Some? ==> r.value.distance == DistanceBetween(a.fix.value, b.fix.value, dist)
    ensures r.Some? ==> r.value.elapsed == b.fix.value.time - a.fix.value.time
  {
    if a.fix.None? || b.fix.None? then None
    else
      var x, y := a.fix.value, b.fix.value;
      if a.name == b.name || DistanceBetween(x, y, dist) == 0.0 || y.time - x.time == 0 then None
      else
        var distance := DistanceBetween(x, y, dist);
        Some(Sample(distance, y.time - x.time, SpeedOf(distance, y.time - x.time)))
  }

  /** `speed_data` after the loop has visited every adjacent pair of `frames`,
      in capture order. */
  function Samples(frames: seq<Frame>, dist: Distance): (r: seq<Sample>)
    decreases |frames|
  {
    if |frames| < 2 then []
    else Samples(frames[..|frames| - 1], dist) + ToSeq(PairSample(frames[|frames| - 2], frames[|frames| - 1], dist))
  }

  function SumSpeeds(samples: seq<Sample>): (r: real) {
    if samples == [] then 0.0 else SumSpeeds(samples[..|samples| - 1]) + samples[|samples| - 1].speed
  }

  /** The average of `main`: the arithmetic mean of the sample speeds, or 0
      when no sample survived. */
  function Mean(samples: seq<Sample>): (r: real) {
    if |samples| == 0 then 0.0 else SumSpeeds(samples) / |samples| as real
  }

  /** Index i names the adjacent pair (i-1, i) of `frames`, and that pair
      contributes. */
  predicate ContributesAt(frames: seq<Frame>, i: int, dist: Distance) {
    1 <= i < |frames| && Contributes(frames[i - 1], frames[i], dist)
  }

  /** The indices i whose pair (i-1, i) contributes. */
  function ContributingPairs(frames: seq<Frame>, dist: Distance): (r: set<int>) {
    set i | 1 <= i < |frames| && ContributesAt(frames, i, dist)
  }

  /** The loop of `main`, lines 203-232: visits the adjacent pairs in
      capture order and appends the sample of each contributing one. */
  method CollectSamples(frames: seq<Frame>, dist: Distance) returns (samples: seq<Sample>)
    ensures samples == Samples(frames, dist)
  {
    samples := [];
    var i := 1;
    while i < |frames|
      invariant 1 <= i
      invariant i <= |frames| || |frames| == 0
      invariant samples == Samples(frames[..if |frames| == 0 then 0 else i], dist)
      decreases |frames| - i
    {
      var prefix := frames[..i + 1];
      assert prefix[..|prefix| - 1] == frames[..i];
      var sample := PairSample(frames[i - 1], frames[i], dist);
      if sample.Some? {
        samples := samples + [sample.value];
      }
      i := i + 1;
    }
    assert frames[..if |frames| == 0 then 0 else i] == frames;
  }

  /** Python's `sum(entry[2] for entry in speed_data)`. */
  method TotalSpeed(samples: seq<Sample>) returns (total: real)
    ensures total == SumSpeeds(samples)
  {
    total := 0.0;
    var k := 0;
    while k < |samples|
      invariant 0 <= k <= |samples|
      invariant total == SumSpeeds(samples[..k])
    {
      assert samples[..k + 1][..k] == samples[..k];
      total := total + samples[k].speed;
      k := k + 1;
    }
    assert samples[..k] == samples;
  }

  /** The speed estimate of `main`, lines 203-237: the mean speed over the
      contributing adjacent pairs, 0 when there are none. */
  method AverageSpeed(frames: seq<Frame>, dist: Distance) returns (avg: real, samples: seq<Sample>)
    ensures samples == Samples(frames, dist)
    ensures avg == Mean(samples)
    ensures |samples| == |ContributingPairs(frames, dist)|
    ensures forall k :: 0 <= k < |samples| ==> ValidSample(samples[k])
    ensures avg >= 0.0
    ensures avg != 0.0 <==> |samples| > 0
    ensures |frames| <= 1 ==> avg == 0.0
    ensures |samples| > 0 ==>
      (exists k :: 0 <= k < |samples| && samples[k].speed <= avg) &&
      (exists k :: 0 <= k < |samples| && avg <= samples[k].speed)
  {
    samples := CollectSamples(frames, dist);
    avg := 0.0;
    if |samples| > 0 {
      var total := TotalSpeed(samples);
      avg := total / |samples| as real;
    }
    SamplesValid(frames, dist);
    SamplesCount(frames, dist);
    SamplesBound(frames, dist);
    MeanBetween(samples);
  }

  /** Every collected sample has non-zero distance, non-zero elapsed time and
      a positive speed equal to |distance / elapsed|. */
  lemma {:induction false} SamplesValid(frames: seq<Frame>, dist: Distance)
    ensures forall k :: 0 <= k < |Samples(frames, dist)| ==> ValidSample(Samples(frames, dist)[k])
    decreases |frames|
  {
    if |frames| >= 2 {
      SamplesValid(frames[..|frames| - 1], dist);
    }
  }

  /** At most one sample per adjacent pair; none at all for 0 or 1 images. */
  lemma {:induction false} SamplesBound(frames: seq<Frame>, dist: Distance)
    ensures |frames| <= 1 ==> Samples(frames, dist) == []
    ensures |frames| >= 1 ==> |Samples(frames, dist)| <= |frames| - 1
    decreases |frames|
  {
    if |frames| >= 2 {
      SamplesBound(frames[..|frames| - 1], dist);
    }
  }

  /** `sample` is the one the contributing pair (i-1, i) of `frames` yields. */
  predicate YieldedAt(frames: seq<Frame>, i: int, sample: Sample, dist: Distance) {
    ContributesAt(frames, i, dist) && PairSample(frames[i - 1], frames[i], dist) == Some(sample)
  }

  /** Some contributing adjacent pair of `frames` yields `sample`. */
  ghost predicate Yielded(frames: seq<Frame>, sample: Sample, dist: Distance) {
    exists i :: YieldedAt(frames, i, sample, dist)
  }

  /** Soundness: every sample is the one produced by some contributing
      adjacent pair. */
  lemma {:induction false} SamplesSound(frames: seq<Frame>, dist: Distance)
    ensures forall k :: 0 <= k < |Samples(frames, dist)| ==> Yielded(frames, Samples(frames, dist)[k], dist)
    decreases |frames|
  {
    if |frames| >= 2 {
      var front := frames[..|frames| - 1];
      SamplesSound(front, dist);
      var s := Samples(frames, dist);
      var tail := ToSeq(PairSample(frames[|frames| - 2], frames[|frames| - 1], dist));
      assert s == Samples(front, dist) + tail;
      forall k | 0 <= k < |s|
        ensures Yielded(frames, s[k], dist)
      {
        if k < |Samples(front, dist)| {
          assert Yielded(front, Samples(front, dist)[k], dist);
          var i :| YieldedAt(front, i, Samples(front, dist)[k], dist);
          assert front[i - 1] == frames[i - 1] && front[i] == frames[i];
          assert YieldedAt(frames, i, s[k], dist);
        } else {
          assert s[k] == tail[0];
          assert YieldedAt(frames, |frames| - 1, s[k], dist);
        }
      }
    }
  }

  /** Completeness: every contributing adjacent pair leaves its sample. */
  lemma {:induction false} SamplesComplete(frames: seq<Frame>, dist: Distance)
    ensures forall i :: ContributesAt(frames, i, dist) ==>
      PairSample(frames[i - 1], frames[i], dist).value in Samples(frames, dist)
    decreases |frames|
  {
    if |frames| >= 2 {
      var front := frames[..|frames| - 1];
      SamplesComplete(front, dist);
      forall i | ContributesAt(frames, i, dist)
        ensures PairSample(frames[i - 1], frames[i], dist).value in Samples(frames, dist)
      {
        if i < |frames| - 1 {
          assert front[i - 1] == frames[i - 1] && front[i] == frames[i];
          assert ContributesAt(front, i, dist);
        }
      }
    }
  }

  /** `src` lists, in increasing order, every index whose pair contributes,
      and `samples[k]` is the sample of the pair at `src[k]`. */
  ghost predicate IndexedBy(frames: seq<Frame>, samples: seq<Sample>, src: seq<int>, dist: Distance) {
    && |src| == |samples|
    && (forall k :: 0 <= k < |src| ==> YieldedAt(frames, src[k], samples[k], dist))
    && (forall k, l :: 0 <= k < l < |src| ==> src[k] < src[l])
    && (forall i :: ContributesAt(frames, i, dist) ==> i in src)
  }

  /** The exact sample list: one sample per contributing pair, in the order
      of the pairs. */
  lemma {:induction false} SamplesInPairOrder(frames: seq<Frame>, dist: Distance)
    ensures exists src :: IndexedBy(frames, Samples(frames, dist), src, dist)
    decreases |frames|
  {
    if |frames| < 2 {
      assert IndexedBy(frames, Samples(frames, dist), [], dist);
    } else {
      var front := frames[..|frames| - 1];
      SamplesInPairOrder(front, dist);
      var src0 :| IndexedBy(front, Samples(front, dist), src0, dist);
      var src := IndexedByExtend(frames, dist, src0);
    }
  }

  /** One induction step of `SamplesInPairOrder`: the last pair's index, if
      it contributes, goes at the end of the index list. */
  lemma IndexedByExtend(frames: seq<Frame>, dist: Distance, src0: seq<int>) returns (src: seq<int>)
    requires |frames| >= 2
    requires IndexedBy(frames[..|frames| - 1], Samples(frames[..|frames| - 1], dist), src0, dist)
    ensures IndexedBy(frames, Samples(frames, dist), src, dist)
  {
    var n := |frames|;
    src := src0 + (if Contributes(frames[n - 2], frames[n - 1], dist) then [n - 1] else []);
    var s := Samples(frames, dist);
    assert s == Samples(frames[..n - 1], dist) + ToSeq(PairSample(frames[n - 2], frames[n - 1], dist));
    ExtendYields(frames, dist, src0, src);
    ExtendIncreasing(frames, dist, src0, src);
    ExtendCovers(frames, dist, src0, src);
    assert IndexedBy(frames, s, src, dist);
  }

  lemma ExtendYields(frames: seq<Frame>, dist: Distance, src0: seq<int>, src: seq<int>)
    requires |frames| >= 2
    requires IndexedBy(frames[..|frames| - 1], Samples(frames[..|frames| - 1], dist), src0, dist)
    requires src == src0 + (if Contributes(frames[|frames| - 2], frames[|frames| - 1], dist) then [|frames| - 1] else [])
    ensures |src| == |Samples(frames, dist)|
    ensures forall k :: 0 <= k < |src| ==> YieldedAt(frames, src[k], Samples(frames, dist)[k], dist)
  {
    var n := |frames|;
    var front := frames[..n - 1];
    var prev := Samples(front, dist);
    var s := Samples(frames, dist);
    assert s == prev + ToSeq(PairSample(frames[n - 2], frames[n - 1], dist));
    forall k | 0 <= k < |src|
      ensures YieldedAt(frames, src[k], s[k], dist)
    {
      if k < |src0| {
        var i := src0[k];
        assert YieldedAt(front, i, prev[k], dist);
        assert front[i - 1] == frames[i - 1] && front[i] == frames[i];
      } else {
        assert src[k] == n - 1;
      }
    }
  }

  lemma ExtendIncreasing(frames: seq<Frame>, dist: Distance, src0: seq<int>, src: seq<int>)
    requires |frames| >= 2
    requires IndexedBy(frames[..|frames| - 1], Samples(frames[..|frames| - 1], dist), src0, dist)
    requires src == src0 + (if Contributes(frames[|frames| - 2], frames[|frames| - 1], dist) then [|frames| - 1] else [])
    ensures forall k, l :: 0 <= k < l < |src| ==> src[k] < src[l]
  {
    var front := frames[..|frames| - 1];
    forall k | 0 <= k < |src0|
      ensures src0[k] < |frames| - 1
    {
      assert YieldedAt(front, src0[k], Samples(front, dist)[k], dist);
    }
  }

  lemma ExtendCovers(frames: seq<Frame>, dist: Distance, src0: seq<int>, src: seq<int>)
    requires |frames| >= 2
    requires IndexedBy(frames[..|frames| - 1], Samples(frames[..|frames| - 1], dist), src0, dist)
    requires src == src0 + (if Contributes(frames[|frames| - 2], frames[|frames| - 1], dist) then [|frames| - 1] else [])
    ensures forall i :: ContributesAt(frames, i, dist) ==> i in src
  {
    var n := |frames|;
    var front := frames[..n - 1];
    forall i | ContributesAt(frames, i, dist)
      ensures i in src
    {
      if i < n - 1 {
        assert front[i - 1] == frames[i - 1] && front[i] == frames[i];
        assert ContributesAt(front, i, dist);
      }
    }
  }

  /** Exactly one sample per contributing pair. */
  lemma {:induction false} SamplesCount(frames: seq<Frame>, dist: Distance)
    ensures |Samples(frames, dist)| == |ContributingPairs(frames, dist)|
    decreases |frames|
  {
    if |frames| < 2 {
      assert ContributingPairs(frames, dist) == {};
    } else {
      var n := |frames|;
      var front := frames[..n - 1];
      SamplesCount(front, dist);
      var last: set<int> := if Contributes(frames[n - 2], frames[n - 1], dist) then {n - 1} else {};
      ContributingPairsExtend(frames, dist);
      assert |ContributingPairs(frames, dist)| == |ContributingPairs(front, dist)| + |last|;
    }
  }

  /** Extending the image list by one image adds at most the new last pair. */
  lemma ContributingPairsExtend(frames: seq<Frame>, dist: Distance)
    requires |frames| >= 2
    ensures var n := |frames|;
      ContributingPairs(frames, dist) ==
        ContributingPairs(frames[..n - 1], dist) + (if Contributes(frames[n - 2], frames[n - 1], dist) then {n - 1} else {})
    ensures |frames| - 1 !in ContributingPairs(frames[..|frames| - 1], dist)
  {
    var n := |frames|;
    var front := frames[..n - 1];
    forall i | 1 <= i < n - 1
      ensures ContributesAt(frames, i, dist) == ContributesAt(front, i, dist)
    {
      assert front[i - 1] == frames[i - 1] && front[i] == frames[i];
    }
  }

  lemma {:induction false} SumBelow(samples: seq<Sample>, c: real)
    requires forall k :: 0 <= k < |samples| ==> samples[k].speed < c
    requires |samples| > 0
    ensures SumSpeeds(samples) < |samples| as real * c
    decreases |samples|
  {
    if |samples| > 1 {
      SumBelow(samples[..|samples| - 1], c);
    }
  }

  lemma {:induction false} SumAbove(samples: seq<Sample>, c: real)
    requires forall k :: 0 <= k < |samples| ==> samples[k].speed > c
    requires |samples| > 0
    ensures SumSpeeds(samples) > |samples| as real * c
    decreases |samples|
  {
    if |samples| > 1 {
      SumAbove(samples[..|samples| - 1], c);
    }
  }

  /** A non-empty mean lies between the smallest and the largest speed, so
      it is positive when every speed is. */
  lemma MeanBetween(samples: seq<Sample>)
    ensures |samples| > 0 ==>
      (exists k :: 0 <= k < |samples| && samples[k].speed <= Mean(samples)) &&
      (exists k :: 0 <= k < |samples| && Mean(samples) <= samples[k].speed)
  {
    if |samples| > 0 {
      var n := |samples| as real;
      var m := Mean(samples);
      assert SumSpeeds(samples) == n * m;
      if forall k :: 0 <= k < |samples| ==> samples[k].speed > m {
        SumAbove(samples, m);
      }
      if forall k :: 0 <= k < |samples| ==> samples[k].speed < m {
        SumBelow(samples, m);
      }
    }
  }
}
