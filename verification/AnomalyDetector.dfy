/** The behaviour detector's measurements: each user's ring buffer of samples, the interval statistics computed
    from it, and the moving averages of all users. Floating-point numbers are reals, and times are nanoseconds. */
module AnomalyDetector {

  import opened Prelude
  import opened Bits

  type Time = int

  const ZERO_TIME: Time := 0
  const SECOND: real := 1000000000.0
  const DEFAULT_WINDOW := 20
  const DEFAULT_MIN_SAMPLES := 5
  const MAX_INTERVAL: real := 300.0
  const ALPHA: real := 0.01

  datatype Request = Request(time: Time, ip: string, success: bool)
  datatype Sample = Sample(timestamp: Time, interval: real, success: bool, ipChanged: bool)
  datatype Seen = Blocked | TooFew | Window(samples: seq<Sample>)

  function Seconds(from: Time, to: Time): real {
    (to - from) as real / SECOND
  }

  function Before(origin: Request, requests: seq<Request>, k: nat): Request
    requires k <= |requests|
  {
    if k == 0 then origin else requests[k - 1]
  }

  /** What the k-th accepted request of a user looks like. The first is compared with the request that created the
      profile: itself, unless two first requests arrive together. */
  function SampleAt(origin: Request, requests: seq<Request>, k: nat): Sample
    requires k < |requests|
  {
    var before, now := Before(origin, requests, k), requests[k];
    Sample(now.time, if before.time == ZERO_TIME then 0.0 else Seconds(before.time, now.time), now.success,
           before.ip != "" && before.ip != now.ip)
  }

  function History(origin: Request, requests: seq<Request>): (h: seq<Sample>)
    ensures |h| == |requests|
  {
    seq(|requests|, (k: nat) requires k < |requests| => SampleAt(origin, requests, k))
  }

  function Positive(size: int, default: nat): nat {
    if size <= 0 then default else size
  }

  // ---------------------------------------------------------------------------------------------
  // The ring buffer
  // ---------------------------------------------------------------------------------------------

  lemma ModShift(a: nat, w: nat)
    requires w > 0
    ensures (a + w) % w == a % w
  {
    var q := a / w;
    assert (q + 1) * w == q * w + w;
    Remainder(a + w, w, q + 1, a % w);
  }

  /** Two positions less than a window apart never share a slot. */
  lemma SlotsDiffer(k: nat, n: nat, w: nat)
    requires k < n < k + w
    ensures k % w != n % w
  {
    var p, q := k / w, n / w;
    if k % w == n % w {
      assert k == p * w + k % w && n == q * w + n % w;
      assert (q - p) * w == q * w - p * w;
      MulAtLeast(q - p, w);
    }
  }

  /** `Idx` counts every accepted request; only its remainder is used as a position. */
  class Profile {
    const samples: array<Sample>
    var idx: nat
    var lastIP: string
    var lastTime: Time
    var blockedUntil: Time
    ghost const origin: Request
    ghost var requests: seq<Request>

    ghost predicate Valid()
      reads this, samples
    {
      && samples.Length > 0
      && idx == |requests|
      && lastIP == Before(origin, requests, idx).ip && lastTime == Before(origin, requests, idx).time
      && (forall k :: 0 <= k < idx < k + samples.Length + 1 ==> samples[k % samples.Length] == SampleAt(origin, requests, k))
    }

    /** A profile is created by the first request of its user and remembers that request's address and time. */
    constructor (windowSize: int, first: Request)
      ensures Valid() && fresh(samples) && requests == [] && origin == first
      ensures windowSize > 0 ==> samples.Length == windowSize
      ensures windowSize <= 0 ==> samples.Length == DEFAULT_WINDOW
      ensures lastIP == first.ip && lastTime == first.time && blockedUntil == ZERO_TIME
    {
      samples := new Sample[Positive(windowSize, DEFAULT_WINDOW)](_ => Sample(ZERO_TIME, 0.0, false, false));
      idx, requests, origin := 0, [], first;
      lastIP, lastTime := first.ip, first.time;
      blockedUntil := ZERO_TIME;
    }

    /** A blocked user's request leaves no trace; any other is remembered, and once there are enough samples the
        window handed to the scoring is the last `samples.Length` of everything the user ever did, in order. */
    method Record(now: Time, request: Request, minSamples: int) returns (seen: Seen)
      requires Valid()
      modifies this`idx, this`lastIP, this`lastTime, this`requests, samples
      ensures Valid()
      ensures seen == Blocked <==> now < blockedUntil
      ensures seen == Blocked ==> unchanged(this) && unchanged(samples)
      ensures seen != Blocked ==> requests == old(requests) + [request]
      ensures seen != Blocked ==>
        seen == if |requests| < Positive(minSamples, DEFAULT_MIN_SAMPLES) then TooFew
                else Window(Last(History(origin, requests), samples.Length))
    {
      if now < blockedUntil {
        return Blocked;
      }
      var interval, ipChanged := 0.0, false;
      if lastTime != ZERO_TIME {
        interval := Seconds(lastTime, request.time);
      }
      if lastIP != "" && lastIP != request.ip {
        ipChanged := true;
      }
      Store(Sample(request.time, interval, request.success, ipChanged), request);
      if idx < Positive(minSamples, DEFAULT_MIN_SAMPLES) {
        return TooFew;
      }
      var window := Extract();
      return Window(window);
    }

    method Store(sample: Sample, request: Request)
      requires Valid()
      requires sample == SampleAt(origin, requests + [request], idx)
      modifies this`idx, this`lastIP, this`lastTime, this`requests, samples
      ensures Valid()
      ensures requests == old(requests) + [request]
    {
      ghost var w := samples.Length;
      samples[idx % samples.Length] := sample;
      forall k | 0 <= k < idx < k + w ensures samples[k % w] == SampleAt(origin, requests + [request], k) {
        SlotsDiffer(k, idx, w);
        assert samples[k % w] == old(samples[k % w]);
        assert SampleAt(origin, requests + [request], k) == SampleAt(origin, requests, k);
      }
      requests := requests + [request];
      idx := idx + 1;
      lastIP, lastTime := request.ip, request.time;
    }

    /** Where the sample recorded i requests before the newest one is. */
    function Slot(i: nat): (pos: nat)
      requires i < idx && samples.Length > 0
      reads this
      ensures pos < samples.Length
    {
      (idx - 1 - i + samples.Length) % samples.Length
    }

    lemma SlotHolds(i: nat)
      requires Valid() && i < idx && i < samples.Length
      ensures var window := Last(History(origin, requests), samples.Length);
        i < |window| && samples[Slot(i)] == window[|window| - 1 - i]
    {
      ModShift(idx - 1 - i, samples.Length);
      assert Slot(i) == (idx - 1 - i) % samples.Length;
      assert samples[Slot(i)] == SampleAt(origin, requests, idx - 1 - i) == History(origin, requests)[idx - 1 - i];
    }

    method Extract() returns (window: seq<Sample>)
      requires Valid()
      ensures window == Last(History(origin, requests), samples.Length)
    {
      var size := if idx < samples.Length then idx else samples.Length;
      ghost var wanted := Last(History(origin, requests), samples.Length);
      forall i: nat | i < size ensures samples[Slot(i)] == wanted[size - 1 - i] {
        SlotHolds(i);
      }
      window := CopyBack(size, wanted);
    }

    /** Walks backwards from the newest sample, filling the window from its end. */
    method CopyBack(size: nat, ghost wanted: seq<Sample>) returns (window: seq<Sample>)
      requires samples.Length > 0 && size <= idx && |wanted| == size
      requires forall i: nat :: i < size ==> samples[Slot(i)] == wanted[size - 1 - i]
      ensures window == wanted
    {
      var valid := new Sample[size](_ => Sample(ZERO_TIME, 0.0, false, false));
      var i := 0;
      while i < size
        invariant 0 <= i <= size
        invariant forall j :: size - i <= j < size ==> valid[j] == wanted[j]
      {
        var pos := Slot(i);
        valid[size - 1 - i] := samples[pos];
        i := i + 1;
      }
      window := valid[..];
    }

    /** Set when the score reaches the blocking threshold. */
    method Block(until: Time)
      requires Valid()
      modifies this`blockedUntil
      ensures Valid() && blockedUntil == until
    {
      blockedUntil := until;
    }
  }

  function Total(xs: seq<real>): real {
    if xs == [] then 0.0 else Total(xs[..|xs| - 1]) + xs[|xs| - 1]
  }

  function Intervals(samples: seq<Sample>): (r: seq<real>)
    ensures |r| == |samples|
  {
    seq(|samples|, (k: nat) requires k < |samples| => samples[k].interval)
  }

  /** The frequency and the interval statistics read the same window: its intervals, the first left out, add up
      to the time between its first and its last sample. */
  lemma {:induction false} IntervalsSpanWindow(origin: Request, requests: seq<Request>, from: nat, to: nat)
    requires from <= to < |requests|
    requires forall k :: from <= k < to ==> requests[k].time != ZERO_TIME
    ensures var h := History(origin, requests);
      Total(Intervals(h[from + 1..to + 1])) == Seconds(h[from].timestamp, h[to].timestamp)
  {
    if from < to {
      var h := History(origin, requests);
      IntervalsSpanWindow(origin, requests, from, to - 1);
      var xs := Intervals(h[from + 1..to + 1]);
      assert xs[..|xs| - 1] == Intervals(h[from + 1..to]);
    }
  }

  /** What a sample remembers of its request and of the one before. */
  lemma SampleMeans(origin: Request, requests: seq<Request>, k: nat)
    requires k < |requests|
    ensures var sample := History(origin, requests)[k]; var before := Before(origin, requests, k);
      && sample.timestamp == requests[k].time && (sample.success <==> requests[k].success)
      && (sample.ipChanged <==> before.ip != "" && before.ip != requests[k].ip)
      && (before.time != ZERO_TIME ==> sample.interval * SECOND == (requests[k].time - before.time) as real)
      && (before.time == ZERO_TIME ==> sample.interval == 0.0)
      && (k > 0 ==> before == requests[k - 1])
  {
  }

  /** A stretch of the history carries no flag exactly if all its requests came from one address. */
  lemma {:induction false} NoFlagExactly(origin: Request, requests: seq<Request>, from: nat, to: nat)
    requires from <= to < |requests|
    requires forall k :: from <= k <= to ==> requests[k].ip != ""
    ensures (forall k :: from < k <= to ==> !History(origin, requests)[k].ipChanged)
      <==> (forall k :: from <= k <= to ==> requests[k].ip == requests[from].ip)
  {
    if from < to {
      NoFlagExactly(origin, requests, from, to - 1);
      SampleMeans(origin, requests, to);
      if forall k :: from < k <= to ==> !History(origin, requests)[k].ipChanged {
        assert requests[to - 1].ip == requests[from].ip;
      }
      if forall k :: from <= k <= to ==> requests[k].ip == requests[from].ip {
        assert requests[to].ip == requests[to - 1].ip;
      }
    }
  }

  // ---------------------------------------------------------------------------------------------
  // Interval statistics
  // ---------------------------------------------------------------------------------------------

  predicate Usable(interval: real) {
    0.0 < interval < MAX_INTERVAL
  }

  function Usables(xs: seq<real>): (kept: seq<real>)
    ensures forall i :: 0 <= i < |kept| ==> Usable(kept[i])
  {
    if xs == [] then []
    else
      var x := xs[|xs| - 1];
      Usables(xs[..|xs| - 1]) + if Usable(x) then [x] else []
  }

  /** Every usable interval is kept as often as it occurs, and no other is. */
  lemma {:induction false} UsablesExactly(xs: seq<real>, x: real)
    ensures multiset(Usables(xs))[x] == if Usable(x) then multiset(xs)[x] else 0
  {
    if xs != [] {
      var init, last := xs[..|xs| - 1], xs[|xs| - 1];
      UsablesExactly(init, x);
      assert xs == init + [last];
    }
  }

  /** The intervals the statistics are about: all but the first sample's, if there are at least two samples. */
  function Kept(samples: seq<Sample>): seq<real> {
    if |samples| < 2 then [] else Usables(Intervals(samples[1..]))
  }

  /** The first sample is left out, and of the others every usable interval is kept as often as it occurs. */
  lemma KeptExactly(samples: seq<Sample>, x: real)
    ensures |samples| < 2 || !Usable(x) ==> multiset(Kept(samples))[x] == 0
    ensures |samples| >= 2 && Usable(x) ==>
      multiset(Kept(samples))[x] + (if samples[0].interval == x then 1 else 0) == multiset(Intervals(samples))[x]
  {
    if |samples| >= 2 {
      UsablesExactly(Intervals(samples[1..]), x);
      assert Intervals(samples) == [samples[0].interval] + Intervals(samples[1..]);
    }
  }

  function Squared(x: real): real {
    x * x
  }

  function Squares(xs: seq<real>): real {
    if xs == [] then 0.0 else Squares(xs[..|xs| - 1]) + Squared(xs[|xs| - 1])
  }

  function Deviation(xs: seq<real>, mean: real): real {
    if xs == [] then 0.0 else Deviation(xs[..|xs| - 1], mean) + Squared(xs[|xs| - 1] - mean)
  }

  function Mean(xs: seq<real>): real {
    if xs == [] then 0.0 else Total(xs) / |xs| as real
  }

  function Variance(xs: seq<real>): real {
    if xs == [] then 0.0 else Deviation(xs, Mean(xs)) / |xs| as real
  }

  method CollectIntervals(samples: seq<Sample>) returns (intervals: seq<real>)
    requires |samples| >= 2
    ensures intervals == Kept(samples)
  {
    ghost var all := Intervals(samples[1..]);
    intervals := [];
    var i := 1;
    while i < |samples|
      invariant 1 <= i <= |samples|
      invariant intervals == Usables(all[..i - 1])
    {
      assert all[..i][..i - 1] == all[..i - 1];
      if samples[i].interval > 0.0 && samples[i].interval < MAX_INTERVAL {
        intervals := intervals + [samples[i].interval];
      }
      i := i + 1;
    }
    assert all[..i - 1] == all;
  }

  /** The mean and the square of the standard deviation. */
  method CalcIntervalStats(samples: seq<Sample>) returns (mean: real, variance: real)
    ensures mean == Mean(Kept(samples)) && variance == Variance(Kept(samples))
  {
    if |samples| < 2 {
      return 0.0, 0.0;
    }
    var intervals := CollectIntervals(samples);
    if |intervals| == 0 {
      return 0.0, 0.0;
    }
    var sum := 0.0;
    var j := 0;
    while j < |intervals|
      invariant 0 <= j <= |intervals|
      invariant sum == Total(intervals[..j])
    {
      assert intervals[..j + 1][..j] == intervals[..j];
      sum := sum + intervals[j];
      j := j + 1;
    }
    assert intervals[..j] == intervals;
    mean := sum / |intervals| as real;
    variance, j := 0.0, 0;
    while j < |intervals|
      invariant 0 <= j <= |intervals|
      invariant variance == Deviation(intervals[..j], mean)
    {
      assert intervals[..j + 1][..j] == intervals[..j];
      variance := variance + Squared(intervals[j] - mean);
      j := j + 1;
    }
    assert intervals[..j] == intervals;
    variance := variance / |intervals| as real;
  }

  function Expansion(s: real, t: real, n: real, m: real): real {
    s - 2.0 * (m * t) + n * Squared(m)
  }

  lemma {:induction false} DeviationExpands(xs: seq<real>, m: real)
    ensures Deviation(xs, m) == Expansion(Squares(xs), Total(xs), |xs| as real, m)
  {
    if xs != [] {
      var rest, x := xs[..|xs| - 1], xs[|xs| - 1];
      DeviationExpands(rest, m);
      ExpandStep(Deviation(rest, m), Squares(rest), Total(rest), |rest| as real, x, m);
    }
  }

  lemma ExpandStep(d: real, s: real, t: real, n: real, x: real, m: real)
    requires d == Expansion(s, t, n, m)
    ensures d + Squared(x - m) == Expansion(s + Squared(x), t + x, n + 1.0, m)
  {
  }

  lemma {:induction false} DeviationZero(xs: seq<real>, m: real)
    ensures Deviation(xs, m) >= 0.0
    ensures Deviation(xs, m) == 0.0 <==> forall i :: 0 <= i < |xs| ==> xs[i] == m
  {
    if xs != [] {
      var rest, x := xs[..|xs| - 1], xs[|xs| - 1];
      DeviationZero(rest, m);
      SquareZero(x - m);
      assert (forall i :: 0 <= i < |xs| ==> xs[i] == m) <==> (x == m && forall i :: 0 <= i < |rest| ==> rest[i] == m);
      if x == m {
        assert Squared(x - m) == 0.0;
      }
    }
  }

  lemma SquareZero(d: real)
    ensures Squared(d) >= 0.0
    ensures Squared(d) <= 0.0 ==> d == 0.0
  {
    if d > 0.0 {
      PositiveSquare(d);
    } else if d < 0.0 {
      PositiveSquare(-d);
      assert Squared(-d) == Squared(d);
    }
  }

  lemma PositiveSquare(d: real)
    requires d > 0.0
    ensures Squared(d) > 0.0
  {
    assert Squared(d) / d == d;
  }

  lemma {:induction false} TotalWithin(xs: seq<real>, lo: real, hi: real)
    requires forall i :: 0 <= i < |xs| ==> lo <= xs[i] <= hi
    ensures lo * |xs| as real <= Total(xs) <= hi * |xs| as real
  {
    if xs != [] {
      var rest := xs[..|xs| - 1];
      TotalWithin(rest, lo, hi);
      assert |xs| as real == |rest| as real + 1.0;
    }
  }

  lemma {:induction false} MeanWithin(xs: seq<real>, lo: real, hi: real)
    requires xs != []
    requires forall i :: 0 <= i < |xs| ==> lo <= xs[i] <= hi
    ensures lo <= Mean(xs) <= hi
  {
    TotalWithin(xs, lo, hi);
    DivideBounds(Total(xs), lo, hi, |xs| as real);
  }

  lemma DivideBounds(t: real, lo: real, hi: real, n: real)
    requires n > 0.0 && lo * n <= t <= hi * n
    ensures lo <= t / n <= hi
  {
  }

  /** The textbook formula from the sum and the sum of squares. */
  lemma {:induction false} VarianceFormula(xs: seq<real>)
    requires xs != []
    ensures Variance(xs) == BySums(|xs| as real, Squares(xs), Total(xs))
  {
    DeviationExpands(xs, Mean(xs));
    MeanTimes(Total(xs), Mean(xs), |xs| as real);
    MeanTimes(Deviation(xs, Mean(xs)), Variance(xs), |xs| as real);
    CompleteSquare(|xs| as real, Squares(xs), Total(xs), Mean(xs), Deviation(xs, Mean(xs)), Variance(xs));
  }

  function BySums(n: real, squares: real, total: real): real
    requires n > 0.0
  {
    PositiveSquare(n);
    (n * squares - Squared(total)) / Squared(n)
  }

  predicate Times(n: real, q: real, x: real) {
    q * n == x
  }

  lemma MeanTimes(x: real, q: real, n: real)
    requires n > 0.0 && q == x / n
    ensures Times(n, q, x)
  {
  }

  lemma CompleteSquare(n: real, s: real, t: real, m: real, d: real, v: real)
    requires n > 0.0 && Times(n, m, t) && d == Expansion(s, t, n, m) && Times(n, v, d)
    ensures v == BySums(n, s, t)
  {
    MeanCancels(n, s, t, m, d);
    Scaled(n, s, t, m, d);
    ScaledTwice(n, v, d);
    PositiveSquare(n);
    QuotientIs(v, Squared(n), n * d, n * s - Squared(t));
  }

  lemma MeanCancels(n: real, s: real, t: real, m: real, d: real)
    requires Times(n, m, t) && d == Expansion(s, t, n, m)
    ensures d == s - m * t
  {
  }

  lemma Scaled(n: real, s: real, t: real, m: real, d: real)
    requires Times(n, m, t) && d == s - m * t
    ensures n * d == n * s - Squared(t)
  {
  }

  lemma ScaledTwice(n: real, v: real, d: real)
    requires Times(n, v, d)
    ensures Times(Squared(n), v, n * d)
  {
  }

  lemma QuotientIs(q: real, n: real, x: real, y: real)
    requires n > 0.0 && Times(n, q, x) && x == y
    ensures q == y / n
  {
  }

  /** The variance is never negative and vanishes exactly when all intervals that count are equal, which is
      how a script's regular requests show; the mean stays below five minutes. */
  lemma VarianceZeroExactly(samples: seq<Sample>)
    ensures var xs := Kept(samples);
      && Variance(xs) >= 0.0
      && (Variance(xs) == 0.0 <==> forall i, j :: 0 <= i < j < |xs| ==> xs[i] == xs[j])
      && 0.0 <= Mean(xs) < MAX_INTERVAL
      && (Mean(xs) == 0.0 <==> xs == [])
  {
    var xs := Kept(samples);
    if xs != [] {
      DeviationZero(xs, Mean(xs));
      if forall i, j :: 0 <= i < j < |xs| ==> xs[i] == xs[j] {
        MeanWithin(xs, xs[0], xs[0]);
      }
      if forall i :: 0 <= i < |xs| ==> xs[i] == Mean(xs) {
        assert forall i, j :: 0 <= i < j < |xs| ==> xs[i] == xs[j];
      }
      UsableMean(xs);
      ZeroQuotient(Deviation(xs, Mean(xs)), |xs| as real);
    }
  }

  lemma ZeroQuotient(d: real, n: real)
    requires n > 0.0 && d >= 0.0
    ensures d / n >= 0.0 && (d / n == 0.0 <==> d == 0.0)
  {
  }

  lemma {:induction false} UsableMean(xs: seq<real>)
    requires xs != [] && forall i :: 0 <= i < |xs| ==> Usable(xs[i])
    ensures Usable(Mean(xs))
  {
    var lo, hi := Least(xs);
    MeanWithin(xs, lo, hi);
  }

  lemma {:induction false} Least(xs: seq<real>) returns (lo: real, hi: real)
    requires xs != [] && forall i :: 0 <= i < |xs| ==> Usable(xs[i])
    ensures Usable(lo) && Usable(hi) && forall i :: 0 <= i < |xs| ==> lo <= xs[i] <= hi
  {
    lo, hi := xs[0], xs[0];
    if |xs| > 1 {
      var rest := xs[1..];
      lo, hi := Least(rest);
      assert forall i :: 1 <= i < |xs| ==> xs[i] == rest[i - 1];
      lo := if xs[0] < lo then xs[0] else lo;
      hi := if xs[0] > hi then xs[0] else hi;
    }
  }

  // ---------------------------------------------------------------------------------------------
  // Moving averages of all users
  // ---------------------------------------------------------------------------------------------

  /** One smoothed series: its mean and its mean absolute deviation. */
  datatype Channel = Channel(mean: real, std: real)
  datatype Baseline = Baseline(freq: Channel, interval: Channel, count: nat)

  function Abs(x: real): real {
    if x < 0.0 then -x else x
  }

  /** The deviation is taken from the mean already moved. */
  function Smooth(c: Channel, x: real): Channel {
    var mean := ALPHA * x + (1.0 - ALPHA) * c.mean;
    Channel(mean, ALPHA * Abs(x - mean) + (1.0 - ALPHA) * c.std)
  }

  function Smoothed(xs: seq<real>): Channel {
    if xs == [] then Channel(0.0, 0.0)
    else if |xs| == 1 then Channel(xs[0], 0.0)
    else Smooth(Smoothed(xs[..|xs| - 1]), xs[|xs| - 1])
  }

  class GlobalStats {
    var freqMean: real
    var freqStd: real
    var intervalMean: real
    var intervalStd: real
    var count: nat
    ghost var freqs: seq<real>
    ghost var intervals: seq<real>

    ghost predicate Valid()
      reads this
    {
      && count == |freqs| == |intervals|
      && Channel(freqMean, freqStd) == Smoothed(freqs)
      && Channel(intervalMean, intervalStd) == Smoothed(intervals)
    }

    constructor ()
      ensures Valid() && freqs == [] && intervals == []
    {
      freqMean, freqStd, intervalMean, intervalStd, count := 0.0, 0.0, 0.0, 0.0, 0;
      freqs, intervals := [], [];
    }

    method UpdateGlobalStats(freq: real, interval: real)
      requires Valid()
      modifies this
      ensures Valid()
      ensures freqs == old(freqs) + [freq] && intervals == old(intervals) + [interval]
    {
      freqs, intervals := freqs + [freq], intervals + [interval];
      assert freqs[..|freqs| - 1] == old(freqs) && intervals[..|intervals| - 1] == old(intervals);
      count := count + 1;
      if count == 1 {
        freqMean, freqStd, intervalMean, intervalStd := freq, 0.0, interval, 0.0;
        return;
      }
      freqMean := ALPHA * freq + (1.0 - ALPHA) * freqMean;
      freqStd := ALPHA * Abs(freq - freqMean) + (1.0 - ALPHA) * freqStd;
      intervalMean := ALPHA * interval + (1.0 - ALPHA) * intervalMean;
      intervalStd := ALPHA * Abs(interval - intervalMean) + (1.0 - ALPHA) * intervalStd;
    }
  }

  /** However long the run, the mean stays among the values seen, and the deviation below their range. */
  lemma {:induction false} SmoothedWithin(xs: seq<real>, lo: real, hi: real)
    requires xs != []
    requires forall i :: 0 <= i < |xs| ==> lo <= xs[i] <= hi
    ensures var c := Smoothed(xs); lo <= c.mean <= hi && 0.0 <= c.std <= (1.0 - ALPHA) * (hi - lo)
  {
    if |xs| > 1 {
      var rest := xs[..|xs| - 1];
      SmoothedWithin(rest, lo, hi);
      assert lo <= xs[|xs| - 1] <= hi;
    }
  }

  function Powers(n: nat): real {
    if n == 0 then 1.0 else 0.99 * Powers(n - 1)
  }

  function Repeated(x: real, n: nat): seq<real> {
    if n == 0 then [] else Repeated(x, n - 1) + [x]
  }

  function Distance(xs: seq<real>, x: real): real {
    Smoothed(xs).mean - x
  }

  predicate Shrunk(n: nat, before: real, after: real) {
    after == Powers(n) * before
  }

  /** While the same value keeps coming, the distance of the mean from it shrinks by one hundredth each time. */
  lemma {:induction false} MeanApproaches(xs: seq<real>, x: real, n: nat)
    requires xs != []
    ensures Shrunk(n, Distance(xs, x), Distance(xs + Repeated(x, n), x))
  {
    if n == 0 {
      assert xs + [] == xs;
      NothingShrunk(Distance(xs, x));
    } else {
      var shorter := xs + Repeated(x, n - 1);
      MeanApproaches(xs, x, n - 1);
      assert xs + Repeated(x, n) == shorter + [x];
      OneMoreValue(shorter, x);
      OneMorePower(n, Distance(xs, x), Distance(shorter, x), Distance(shorter + [x], x));
    }
  }

  lemma OneMoreValue(xs: seq<real>, x: real)
    requires xs != []
    ensures Distance(xs + [x], x) == 0.99 * Distance(xs, x)
  {
    assert (xs + [x])[..|xs|] == xs;
  }

  lemma NothingShrunk(d: real)
    ensures Shrunk(0, d, d)
  {
  }

  lemma OneMorePower(n: nat, before: real, middle: real, after: real)
    requires n > 0 && Shrunk(n - 1, before, middle) && after == 0.99 * middle
    ensures Shrunk(n, before, after)
  {
    var p := Powers(n - 1);
    assert 0.99 * (p * before) == (0.99 * p) * before;
  }

  /** A deviation above zero, which is what switches a Z-score on, means exactly that two values differed. */
  lemma {:induction false} SmoothedConstantExactly(xs: seq<real>)
    requires xs != []
    ensures Smoothed(xs).std == 0.0 <==> forall i :: 0 <= i < |xs| ==> xs[i] == xs[0]
    ensures Smoothed(xs).std == 0.0 ==> Smoothed(xs).mean == xs[0]
  {
    if |xs| > 1 {
      var rest, x := xs[..|xs| - 1], xs[|xs| - 1];
      SmoothedConstantExactly(rest);
      StdNonNegative(rest);
      var c, d := Smoothed(rest), Smoothed(xs);
      assert forall i :: 0 <= i < |rest| ==> rest[i] == xs[i];
      assert d.std == ALPHA * Abs(x - d.mean) + (1.0 - ALPHA) * c.std;
      assert d.mean - x == (1.0 - ALPHA) * (c.mean - x);
      assert (forall i :: 0 <= i < |xs| ==> xs[i] == xs[0])
        <==> (x == xs[0] && forall i :: 0 <= i < |rest| ==> rest[i] == rest[0]);
    }
  }

  lemma {:induction false} StdNonNegative(xs: seq<real>)
    ensures Smoothed(xs).std >= 0.0
  {
    if |xs| > 1 {
      StdNonNegative(xs[..|xs| - 1]);
    }
  }
}
