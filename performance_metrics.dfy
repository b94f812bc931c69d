/**
 * PerformanceMetrics (Renderer.h and PerformanceMetrics.cpp): bounded
 * histories of frame and update rates and of memory use, with running
 * minimum, maximum and the average over the one-minute window. Rates are
 * modelled as exact reals.
 */
module Metrics {
  /** One sample per second: a one-minute and a five-minute window. */
  const ONE_MINUTE_SAMPLES: nat := 60
  const FIVE_MINUTE_SAMPLES: nat := 300

  /** std::numeric_limits<float>::max(), the initial minimum. */
  const FLOAT_MAX: real := 340282346638528859811704183484516925440.0

  function Min(a: real, b: real): (m: real)
    ensures m <= a && m <= b && (m == a || m == b)
  {
    if b < a then b else a
  }

  function Max(a: real, b: real): (m: real)
    ensures m >= a && m >= b && (m == a || m == b)
  {
    if a < b then b else a
  }

  /** push_back, then pop_front when the window is over its capacity. */
  function Pushed<T>(h: seq<T>, x: T, cap: nat): (r: seq<T>)
    ensures |h| <= cap && cap >= 1 ==> |r| <= cap
    ensures cap >= 1 ==> |r| > 0 && r[|r| - 1] == x
  {
    if |h + [x]| > cap then (h + [x])[1..] else h + [x]
  }

  /** The last n elements of s (all of s when it is shorter). */
  function Latest<T>(s: seq<T>, n: nat): (r: seq<T>)
    ensures |r| == if |s| <= n then |s| else n
  {
    if |s| <= n then s else s[|s| - n..]
  }

  /** The window's elements are the last elements of s, in order. */
  lemma LatestElements<T>(s: seq<T>, n: nat)
    ensures forall i :: 0 <= i < |Latest(s, n)| ==> Latest(s, n)[i] == s[|s| - |Latest(s, n)| + i]
  {
  }

  /**
   * A bounded window fed one sample at a time holds exactly the latest
   * samples: pushing onto the window of s gives the window of s + [x].
   */
  lemma PushedKeepsLatest<T>(s: seq<T>, x: T, cap: nat)
    requires cap >= 1
    ensures Pushed(Latest(s, cap), x, cap) == Latest(s + [x], cap)
  {
    var w := Latest(s, cap);
    var r := Latest(s + [x], cap);
    var p := Pushed(w, x, cap);
    LatestElements(s, cap);
    LatestElements(s + [x], cap);
    assert |p| == |r|;
    forall i | 0 <= i < |p|
      ensures p[i] == r[i]
    {
      if |w + [x]| > cap {
        assert p[i] == (w + [x])[i + 1];
      }
    }
  }

  function Sum(s: seq<real>): real {
    if |s| == 0 then 0.0 else Sum(s[..|s| - 1]) + s[|s| - 1]
  }

  /** The minimum of m and every sample. */
  function RunningMin(m: real, s: seq<real>): real {
    if |s| == 0 then m else Min(RunningMin(m, s[..|s| - 1]), s[|s| - 1])
  }

  /** The maximum of m and every sample. */
  function RunningMax(m: real, s: seq<real>): real {
    if |s| == 0 then m else Max(RunningMax(m, s[..|s| - 1]), s[|s| - 1])
  }

  /** The running extremes bound the start value and every sample. */
  lemma {:induction false} RunningBounds(lo: real, hi: real, s: seq<real>)
    ensures RunningMin(lo, s) <= lo && RunningMax(hi, s) >= hi
    ensures forall i :: 0 <= i < |s| ==> RunningMin(lo, s) <= s[i] <= RunningMax(hi, s)
  {
    if |s| > 0 {
      var t := s[..|s| - 1];
      RunningBounds(lo, hi, t);
      forall i | 0 <= i < |s|
        ensures RunningMin(lo, s) <= s[i] <= RunningMax(hi, s)
      {
        if i < |s| - 1 {
          assert s[i] == t[i];
        }
      }
    }
  }

  /** A sum of n values between lo and hi lies between n * lo and n * hi. */
  lemma {:induction false} SumBetween(s: seq<real>, lo: real, hi: real)
    requires forall i :: 0 <= i < |s| ==> lo <= s[i] <= hi
    ensures |s| as real * lo <= Sum(s) <= |s| as real * hi
  {
    if |s| > 0 {
      var t := s[..|s| - 1];
      assert forall i :: 0 <= i < |t| ==> t[i] == s[i];
      SumBetween(t, lo, hi);
    }
  }

  /**
   * One rate series (FPS or UPS): its one- and five-minute histories, the
   * running minimum and maximum, and the one-minute average.
   */
  datatype Series = Series(history1Min: seq<real>, history5Min: seq<real>, min: real, max: real, avg: real)

  /** The member initialisers: empty histories, min at the float maximum, max and average zero. */
  const EMPTY_SERIES := Series([], [], FLOAT_MAX, 0.0, 0.0)

  /** What a series holds after the given samples, as the member initialisers and updates promise. */
  ghost predicate SeriesOf(r: Series, samples: seq<real>) {
    r.history1Min == Latest(samples, ONE_MINUTE_SAMPLES) &&
    r.history5Min == Latest(samples, FIVE_MINUTE_SAMPLES) &&
    r.min == RunningMin(FLOAT_MAX, samples) &&
    r.max == RunningMax(0.0, samples) &&
    r.avg == (if |samples| == 0 then 0.0 else Mean(r.history1Min))
  }

  /** The arithmetic mean of a non-empty window. */
  function Mean(h: seq<real>): real
    requires |h| > 0
  {
    Sum(h) / |h| as real
  }

  /** The mean, summed front to back as the source's loop does. */
  method Average(h: seq<real>) returns (avg: real)
    requires |h| > 0
    ensures avg == Mean(h)
  {
    var total := 0.0;
    var i := 0;
    while i < |h|
      invariant 0 <= i <= |h|
      invariant total == Sum(h[..i])
    {
      assert h[..i + 1][..i] == h[..i];
      total := total + h[i];
      i := i + 1;
    }
    assert h[..i] == h;
    avg := total / |h| as real;
  }

  /**
   * `updateFPS` / `updateUPS`: push onto both windows, update the running
   * extremes and recompute the one-minute average.
   */
  method Sample(r: Series, x: real, ghost samples: seq<real>) returns (t: Series)
    requires SeriesOf(r, samples)
    ensures SeriesOf(t, samples + [x])
    ensures t.min <= t.avg <= t.max
  {
    var h1 := Pushed(r.history1Min, x, ONE_MINUTE_SAMPLES);
    var h5 := Pushed(r.history5Min, x, FIVE_MINUTE_SAMPLES);
    PushedKeepsLatest(samples, x, ONE_MINUTE_SAMPLES);
    PushedKeepsLatest(samples, x, FIVE_MINUTE_SAMPLES);
    var avg := Average(h1);
    assert (samples + [x])[..|samples|] == samples;
    t := Series(h1, h5, Min(r.min, x), Max(r.max, x), avg);
    AverageWithinExtremes(samples + [x]);
  }

  /** The one-minute average never leaves the all-time minimum and maximum. */
  lemma AverageWithinExtremes(samples: seq<real>)
    requires |samples| > 0
    ensures RunningMin(FLOAT_MAX, samples) <= Mean(Latest(samples, ONE_MINUTE_SAMPLES)) <= RunningMax(0.0, samples)
  {
    var w := Latest(samples, ONE_MINUTE_SAMPLES);
    var lo := RunningMin(FLOAT_MAX, samples);
    var hi := RunningMax(0.0, samples);
    RunningBounds(FLOAT_MAX, 0.0, samples);
    LatestElements(samples, ONE_MINUTE_SAMPLES);
    forall i | 0 <= i < |w|
      ensures lo <= w[i] <= hi
    {
      assert w[i] == samples[|samples| - |w| + i];
    }
    MeanBetween(w, lo, hi);
  }

  /** The mean of values between lo and hi lies between lo and hi. */
  lemma MeanBetween(w: seq<real>, lo: real, hi: real)
    requires |w| > 0 && forall i :: 0 <= i < |w| ==> lo <= w[i] <= hi
    ensures lo <= Mean(w) <= hi
  {
    SumBetween(w, lo, hi);
    QuotientBetween(Sum(w), |w| as real, lo, hi);
  }

  /** Dividing by a positive n keeps n * lo <= t <= n * hi between lo and hi. */
  lemma QuotientBetween(t: real, n: real, lo: real, hi: real)
    requires n > 0.0 && n * lo <= t <= n * hi
    ensures lo <= t / n <= hi
  {
  }

  /** The largest of 0 and every sample: a peak. */
  function Peak(s: seq<nat>): nat {
    if |s| == 0 then 0
    else
      var q := Peak(s[..|s| - 1]);
      if q < s[|s| - 1] then s[|s| - 1] else q
  }

  /** The peak is at least every sample, and it is one of them unless it is 0. */
  lemma {:induction false} PeakBounds(s: seq<nat>)
    ensures forall i :: 0 <= i < |s| ==> s[i] <= Peak(s)
    ensures Peak(s) == 0 || Peak(s) in s
  {
    if |s| > 0 {
      var t := s[..|s| - 1];
      PeakBounds(t);
      assert forall i :: 0 <= i < |t| ==> s[i] == t[i];
      if Peak(s) != s[|s| - 1] && Peak(s) != 0 {
        var j :| 0 <= j < |t| && t[j] == Peak(t);
        assert s[j] == Peak(s);
      }
    }
  }

  /** One memory figure (RAM or VRAM): the current usage, its one-minute history and its peak. */
  datatype MemorySeries = MemorySeries(usageMB: nat, history1Min: seq<nat>, peak: nat)

  const EMPTY_MEMORY := MemorySeries(0, [], 0)

  /** What a memory figure holds after the given samples. */
  ghost predicate MemoryOf(m: MemorySeries, samples: seq<nat>) {
    m.usageMB == (if |samples| == 0 then 0 else samples[|samples| - 1]) &&
    m.history1Min == Latest(samples, ONE_MINUTE_SAMPLES) &&
    m.peak == Peak(samples)
  }

  /** `updateMemoryUsage` for one figure: store it, push it onto the window, raise the peak. */
  function Recorded(m: MemorySeries, x: nat): (r: MemorySeries)
    ensures r.usageMB == x && r.peak >= x && r.peak >= m.peak
    ensures |m.history1Min| <= ONE_MINUTE_SAMPLES ==> |r.history1Min| <= ONE_MINUTE_SAMPLES
  {
    MemorySeries(x, Pushed(m.history1Min, x, ONE_MINUTE_SAMPLES), if m.peak < x then x else m.peak)
  }

  /** Recording a sample keeps the figure equal to what its samples determine. */
  lemma RecordedKeepsMemoryOf(m: MemorySeries, samples: seq<nat>, x: nat)
    requires MemoryOf(m, samples)
    ensures MemoryOf(Recorded(m, x), samples + [x])
  {
    PushedKeepsLatest(samples, x, ONE_MINUTE_SAMPLES);
    assert (samples + [x])[..|samples|] == samples;
  }

  /** `PerformanceMetrics`: the two rate series, the world counters and the memory figures. */
  class PerformanceMetrics {
    var fps: Series
    var ups: Series
    var totalFaces: nat
    var totalVoxels: nat
    var ram: MemorySeries
    var vram: MemorySeries
    /** Every sample ever recorded, oldest first. */
    ghost var fpsSamples: seq<real>
    ghost var upsSamples: seq<real>
    ghost var ramSamples: seq<nat>
    ghost var vramSamples: seq<nat>

    ghost predicate Valid()
      reads this
    {
      SeriesOf(fps, fpsSamples) && SeriesOf(ups, upsSamples) &&
      MemoryOf(ram, ramSamples) && MemoryOf(vram, vramSamples)
    }

    constructor ()
      ensures Valid() && fpsSamples == [] && upsSamples == [] && ramSamples == [] && vramSamples == []
      ensures fps == EMPTY_SERIES && ups == EMPTY_SERIES && totalFaces == 0 && totalVoxels == 0
      ensures ram == EMPTY_MEMORY && vram == EMPTY_MEMORY
    {
      fps := EMPTY_SERIES;
      ups := EMPTY_SERIES;
      totalFaces := 0;
      totalVoxels := 0;
      ram := EMPTY_MEMORY;
      vram := EMPTY_MEMORY;
      fpsSamples := [];
      upsSamples := [];
      ramSamples := [];
      vramSamples := [];
    }

    /** `updateMemoryUsage`: the current figures, the one-minute histories and the peaks. */
    method UpdateMemoryUsage(ramMB: nat, vramMB: nat)
      requires Valid()
      modifies this`ram, this`vram, this`ramSamples, this`vramSamples
      ensures Valid()
      ensures ramSamples == old(ramSamples) + [ramMB] && vramSamples == old(vramSamples) + [vramMB]
      ensures ram == Recorded(old(ram), ramMB) && vram == Recorded(old(vram), vramMB)
    {
      RecordedKeepsMemoryOf(ram, ramSamples, ramMB);
      RecordedKeepsMemoryOf(vram, vramSamples, vramMB);
      ram := Recorded(ram, ramMB);
      vram := Recorded(vram, vramMB);
      ramSamples := ramSamples + [ramMB];
      vramSamples := vramSamples + [vramMB];
    }

    /** `updateFPS`. */
    method UpdateFPS(x: real)
      requires Valid()
      modifies this`fps, this`fpsSamples
      ensures Valid() && fpsSamples == old(fpsSamples) + [x]
      ensures fps.min <= fps.avg <= fps.max
    {
      fps := Sample(fps, x, fpsSamples);
      fpsSamples := fpsSamples + [x];
    }

    /** `updateUPS`. */
    method UpdateUPS(x: real)
      requires Valid()
      modifies this`ups, this`upsSamples
      ensures Valid() && upsSamples == old(upsSamples) + [x]
      ensures ups.min <= ups.avg <= ups.max
    {
      ups := Sample(ups, x, upsSamples);
      upsSamples := upsSamples + [x];
    }

    /** `getFPSHistory1MinVector`: the latest minute of frame rates, oldest first. */
    function FPSHistory1MinVector(): (h: seq<real>)
      requires Valid()
      reads this
      ensures h == Latest(fpsSamples, ONE_MINUTE_SAMPLES)
    {
      fps.history1Min
    }

    /** `getUPSHistory1MinVector`. */
    function UPSHistory1MinVector(): (h: seq<real>)
      requires Valid()
      reads this
      ensures h == Latest(upsSamples, ONE_MINUTE_SAMPLES)
    {
      ups.history1Min
    }

    /** `getFPSHistory5MinVector`. */
    function FPSHistory5MinVector(): (h: seq<real>)
      requires Valid()
      reads this
      ensures h == Latest(fpsSamples, FIVE_MINUTE_SAMPLES)
    {
      fps.history5Min
    }

    /** `getUPSHistory5MinVector`. */
    function UPSHistory5MinVector(): (h: seq<real>)
      requires Valid()
      reads this
      ensures h == Latest(upsSamples, FIVE_MINUTE_SAMPLES)
    {
      ups.history5Min
    }
  }
}
