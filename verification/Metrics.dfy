/** Latency percentiles and throughput (metrics/metrics.go). Floating-point values are exact
    rationals here: percentages and milliseconds are computed on integers, rates on reals. */
module Metrics {

  // ---------------------------------------------------------------- the ring buffer

  class LatencyTracker {
    const samples: array<int>
    var head: nat
    var full: bool
    ghost var history: seq<int>   // every sample ever recorded

    /** The part behind `head` is the newest, the part from `head` on the oldest. */
    ghost predicate Valid()
      reads this, samples
    {
      && samples.Length >= 1
      && head < samples.Length
      && Holds(samples[..], head, full, history)
    }

    constructor (n: nat)
      requires n >= 1
      ensures Valid() && history == [] && samples.Length == n && fresh(samples)
    {
      samples := new int[n];
      head, full, history := 0, false, [];
    }

    method Record(ns: int)
      requires Valid()
      modifies this, samples
      ensures Valid() && history == old(history) + [ns]
    {
      NextHead(head, samples.Length);
      Recorded(samples[..], head, full, history, ns, (head + 1) % samples.Length);
      ghost var b := samples[..][head := ns];
      samples[head] := ns;
      assert samples[..] == b;
      head := (head + 1) % samples.Length;
      if head == 0 {
        full := true;
      }
      history := history + [ns];
    }

    /** p50, p95 and p99 in hundredths of a millisecond, (0, 0, 0) before the first sample. */
    method Percentiles() returns (p50: int, p95: int, p99: int)
      requires Valid()
      ensures history == [] ==> p50 == 0 && p95 == 0 && p99 == 0
      ensures history != [] ==>
                && IsPercentile(Last(history, samples.Length), 50, p50)
                && IsPercentile(Last(history, samples.Length), 95, p95)
                && IsPercentile(Last(history, samples.Length), 99, p99)
      ensures p50 <= p95 <= p99
    {
      var n := samples.Length;
      if !full {
        n := head;
      }
      if n == 0 {
        return 0, 0, 0;
      }
      var snap := samples[..n];
      WindowIsLast(history, samples[..], head, full);
      assert snap == if full then samples[..] else samples[..][..head];
      var sorted := Sort(snap);
      ghost var window := Last(history, samples.Length);
      RankReported(sorted, window, 50);
      RankReported(sorted, window, 95);
      RankReported(sorted, window, 99);
      RanksOrdered(sorted, 50, 95);
      RanksOrdered(sorted, 95, 99);
      p50, p95, p99 := ToCentiMs(sorted[Rank(n, 50)]), ToCentiMs(sorted[Rank(n, 95)]), ToCentiMs(sorted[Rank(n, 99)]);
    }
  }

  /** The last `n` recorded samples, or all of them if there are fewer. */
  function Last(history: seq<int>, n: nat): seq<int> {
    if |history| <= n then history else history[|history| - n..]
  }

  /** The buffer contents `b` with write position `head` against the history `h`. */
  ghost predicate Holds(b: seq<int>, head: nat, full: bool, h: seq<int>)
    requires head < |b|
  {
    if full then
      |b| <= |h| && b[..head] == h[|h| - head..] && b[head..] == h[|h| - |b|..|h| - head]
    else head == |h| && b[..head] == h
  }

  /** One write at `head` keeps the buffer in step with the history, short of the end ... */
  lemma Advance(b: seq<int>, head: nat, full: bool, h: seq<int>, ns: int)
    requires head + 1 < |b| && Holds(b, head, full, h)
    ensures Holds(b[head := ns], head + 1, full, h + [ns])
  {
    var b', h' := b[head := ns], h + [ns];
    assert b'[..head + 1] == b[..head] + [ns];
    if full {
      assert b'[head + 1..] == b[head..][1..];
    }
  }

  /** ... and at the end, where the position wraps around. */
  lemma WrapAround(b: seq<int>, head: nat, full: bool, h: seq<int>, ns: int)
    requires head + 1 == |b| && Holds(b, head, full, h)
    ensures Holds(b[head := ns], 0, true, h + [ns])
  {
    var b', h' := b[head := ns], h + [ns];
    assert b' == b[..head] + [ns];
    assert b'[0..] == b' && b'[..0] == [];
  }

  lemma NextHead(head: nat, n: nat)
    requires head < n
    ensures (head + 1) % n == if head + 1 < n then head + 1 else 0
  {
  }

  lemma Recorded(b: seq<int>, head: nat, full: bool, h: seq<int>, ns: int, next: nat)
    requires head < |b| && Holds(b, head, full, h)
    requires next == if head + 1 < |b| then head + 1 else 0
    ensures Holds(b[head := ns], next, full || next == 0, h + [ns])
  {
    if head + 1 < |b| {
      Advance(b, head, full, h, ns);
    } else {
      WrapAround(b, head, full, h, ns);
    }
  }

  /** Whatever the wrap-arounds, the slice that Percentiles copies holds exactly the last samples. */
  lemma {:induction false} WindowIsLast(h: seq<int>, buffer: seq<int>, head: nat, full: bool)
    requires head < |buffer|
    requires Holds(buffer, head, full, h)
    ensures multiset(if full then buffer else buffer[..head]) == multiset(Last(h, |buffer|))
  {
    if full {
      var oldest, newest := buffer[head..], buffer[..head];
      assert buffer == newest + oldest;
      assert h[|h| - |buffer|..] == oldest + newest;
      assert Last(h, |buffer|) == oldest + newest by {
        if |h| == |buffer| { assert h[|h| - |buffer|..] == h; }
      }
    }
  }

  // ---------------------------------------------------------------- nearest ranks

  ghost predicate Sorted(s: seq<int>) {
    forall i, j :: 0 <= i < j < |s| ==> s[i] <= s[j]
  }

  /** sort.Slice, by its contract. */
  method Sort(s: seq<int>) returns (r: seq<int>)
    ensures Sorted(r) && multiset(r) == multiset(s) && |r| == |s|
  {
    r := [];
    var i := 0;
    while i < |s|
      invariant i == |r| <= |s| && Sorted(r)
      invariant multiset(r) == multiset(s[..i])
    {
      var k := |r|;
      while k > 0 && r[k - 1] > s[i]
        invariant 0 <= k <= |r|
        invariant forall j :: k <= j < |r| ==> s[i] < r[j]
      {
        k := k - 1;
      }
      Inserted(r, k, s[i]);
      OneMoreElement(r, k, s[i]);
      assert s[..i + 1] == s[..i] + [s[i]];
      r := r[..k] + [s[i]] + r[k..];
      i := i + 1;
    }
    assert s[..i] == s;
  }

  lemma Inserted(r: seq<int>, k: nat, x: int)
    requires Sorted(r) && k <= |r|
    requires k > 0 ==> r[k - 1] <= x
    requires forall j :: k <= j < |r| ==> x < r[j]
    ensures Sorted(r[..k] + [x] + r[k..])
  {
    var low, high := r[..k], r[k..];
    assert forall i :: 0 <= i < |low| ==> low[i] <= x;
    assert forall i :: 0 <= i < |high| ==> x <= high[i];
    SortedConcat(low, [x]);
    SortedConcat(low + [x], high);
  }

  lemma OneMoreElement(r: seq<int>, k: nat, x: int)
    requires k <= |r|
    ensures multiset(r[..k] + [x] + r[k..]) == multiset(r) + multiset{x}
  {
    assert r == r[..k] + r[k..];
  }

  lemma SortedConcat(a: seq<int>, b: seq<int>)
    requires Sorted(a) && Sorted(b)
    requires forall i, j :: 0 <= i < |a| && 0 <= j < |b| ==> a[i] <= b[j]
    ensures Sorted(a + b)
  {
  }

  function CountLe(s: seq<int>, v: int): nat {
    if s == [] then 0 else CountLe(s[..|s| - 1], v) + if s[|s| - 1] <= v then 1 else 0
  }

  function CountLt(s: seq<int>, v: int): nat {
    if s == [] then 0 else CountLt(s[..|s| - 1], v) + if s[|s| - 1] < v then 1 else 0
  }

  /** `v` is a nearest-rank percentile of `s`: a sample such that at least pct% of the samples are
      at most `v` and fewer than pct% are below it. */
  ghost predicate NearestRank(s: seq<int>, pct: nat, v: int) {
    v in s && 100 * CountLe(s, v) >= pct * |s| && 100 * CountLt(s, v) < pct * |s|
  }

  /** The reported figure is a nearest-rank percentile rounded to hundredths of a millisecond, so off
      by at most half of one. */
  ghost predicate IsPercentile(s: seq<int>, pct: nat, centiMs: int) {
    exists v :: NearestRank(s, pct, v) && IsRounded(v, centiMs)
  }

  /** `centiMs` is the hundredth of a millisecond nearest to `ns`; a half goes away from zero. */
  predicate IsRounded(ns: int, centiMs: int) {
    if ns >= 0 then 10000 * centiMs - 5000 <= ns < 10000 * centiMs + 5000
    else 10000 * centiMs - 5000 < ns <= 10000 * centiMs + 5000
  }

  /** ceil(pct/100 * n) - 1, not below 0. */
  function Rank(n: nat, pct: nat): nat {
    var i := (pct * n + 99) / 100 - 1;
    if i < 0 then 0 else i
  }

  lemma RankMonotone(n: nat, a: nat, b: nat)
    requires a <= b
    ensures Rank(n, a) <= Rank(n, b)
  {
    assert a * n <= b * n;
  }

  /** In a sorted sequence the count of smaller samples is read off the position. */
  lemma {:induction false} CountsSorted(s: seq<int>, i: nat)
    requires Sorted(s) && i < |s|
    ensures CountLe(s, s[i]) >= i + 1 && CountLt(s, s[i]) <= i
    decreases |s|
  {
    var front := s[..|s| - 1];
    if i < |front| {
      CountsSorted(front, i);
    } else {
      AllLe(front, s[i]);
      CountBounded(front, s[i]);
    }
  }

  lemma {:induction false} AllLe(s: seq<int>, v: int)
    requires forall i :: 0 <= i < |s| ==> s[i] <= v
    ensures CountLe(s, v) == |s|
    decreases |s|
  {
    if s != [] { AllLe(s[..|s| - 1], v); }
  }

  lemma {:induction false} CountBounded(s: seq<int>, v: int)
    ensures CountLt(s, v) <= |s|
    decreases |s|
  {
    if s != [] { CountBounded(s[..|s| - 1], v); }
  }

  /** The rank is in range and picks a nearest-rank percentile. */
  lemma {:induction false} RankOf(s: seq<int>, pct: nat)
    requires Sorted(s) && s != [] && 1 <= pct <= 100
    ensures Rank(|s|, pct) < |s| && NearestRank(s, pct, s[Rank(|s|, pct)])
  {
    var n := |s|;
    assert 1 <= pct * n <= 100 * n;
    var r := Rank(n, pct);
    assert 100 * r < pct * n <= 100 * (r + 1);
    CountsSorted(s, r);
  }

  /** So its rounded value is what is to be reported for any arrangement of the same samples. */
  lemma RankReported(sorted: seq<int>, window: seq<int>, pct: nat)
    requires Sorted(sorted) && sorted != [] && 1 <= pct <= 100 && multiset(sorted) == multiset(window)
    ensures Rank(|sorted|, pct) < |sorted| && IsPercentile(window, pct, ToCentiMs(sorted[Rank(|sorted|, pct)]))
  {
    RankOf(sorted, pct);
    var v := sorted[Rank(|sorted|, pct)];
    SameCounts(sorted, window, v);
    assert NearestRank(window, pct, v);
  }

  lemma RanksOrdered(sorted: seq<int>, a: nat, b: nat)
    requires Sorted(sorted) && sorted != [] && 1 <= a <= b <= 100
    ensures Rank(|sorted|, a) < |sorted| && Rank(|sorted|, b) < |sorted|
    ensures ToCentiMs(sorted[Rank(|sorted|, a)]) <= ToCentiMs(sorted[Rank(|sorted|, b)])
  {
    RankOf(sorted, a);
    RankOf(sorted, b);
    RankMonotone(|sorted|, a, b);
    RoundingMonotone(sorted[Rank(|sorted|, a)], sorted[Rank(|sorted|, b)]);
  }

  /** Counting does not depend on order. */
  lemma SameCounts(a: seq<int>, b: seq<int>, v: int)
    requires multiset(a) == multiset(b)
    ensures |a| == |b| && (v in a <==> v in b) && CountLe(a, v) == CountLe(b, v) && CountLt(a, v) == CountLt(b, v)
  {
    assert |multiset(a)| == |multiset(b)|;
    assert v in a <==> v in multiset(a);
    assert v in b <==> v in multiset(b);
    CountPermuted(a, b, v);
  }

  lemma {:induction false} CountPermuted(a: seq<int>, b: seq<int>, v: int)
    requires multiset(a) == multiset(b)
    ensures CountLe(a, v) == CountLe(b, v) && CountLt(a, v) == CountLt(b, v)
    decreases |a|
  {
    if a == [] {
      assert |multiset(b)| == 0;
    } else {
      var x, front := a[|a| - 1], a[..|a| - 1];
      var i := Matched(a, b);
      CountPermuted(front, b[..i] + b[i + 1..], v);
      CountMoved(b[..i], x, b[i + 1..], v);
    }
  }

  /** A place of the last element of `a` in `b`; without it the two are still permutations. */
  lemma Matched(a: seq<int>, b: seq<int>) returns (i: nat)
    requires multiset(a) == multiset(b) && a != []
    ensures i < |b| && b == b[..i] + [a[|a| - 1]] + b[i + 1..]
    ensures multiset(a[..|a| - 1]) == multiset(b[..i] + b[i + 1..])
  {
    var x, front := a[|a| - 1], a[..|a| - 1];
    assert a == front + [x];
    assert x in multiset(b);
    i :| 0 <= i < |b| && b[i] == x;
    WithoutOne(b, i);
  }

  lemma WithoutOne(b: seq<int>, i: nat)
    requires i < |b|
    ensures b == b[..i] + [b[i]] + b[i + 1..]
    ensures multiset(b[..i] + b[i + 1..]) == multiset(b) - multiset{b[i]}
  {
    assert b == b[..i] + [b[i]] + b[i + 1..];
    assert multiset(b) == multiset(b[..i] + b[i + 1..]) + multiset{b[i]};
  }

  lemma {:induction false} CountMoved(l: seq<int>, x: int, r: seq<int>, v: int)
    ensures CountLe(l + [x] + r, v) == CountLe(l + r, v) + if x <= v then 1 else 0
    ensures CountLt(l + [x] + r, v) == CountLt(l + r, v) + if x < v then 1 else 0
    decreases |r|
  {
    if r == [] {
      assert l + r == l && l + [x] + r == l + [x];
      assert (l + [x])[..|l|] == l;
    } else {
      var front := r[..|r| - 1];
      CountMoved(l, x, front, v);
      assert (l + [x] + r)[..|l| + |r|] == l + [x] + front;
      assert (l + r)[..|l| + |r| - 1] == l + front;
    }
  }

  // ---------------------------------------------------------------- rounding

  /** math.Round(ns / 1e6 * 100), half away from zero. */
  function ToCentiMs(ns: int): int {
    if ns >= 0 then (ns + 5000) / 10000 else -((5000 - ns) / 10000)
  }

  lemma RoundingMonotone(a: int, b: int)
    requires a <= b
    ensures ToCentiMs(a) <= ToCentiMs(b)
  {
  }

  // ---------------------------------------------------------------- throughput

  /** A window of WritesPerSecond that has closed: its rate and its length in seconds. */
  datatype Closed = Closed(rate: real, seconds: real)

  class ThroughputTracker {
    var started: bool
    var windowStart: real
    var startCount: int
    var lastWps: real
    ghost var first: int            // the counter at the first call
    ghost var firstTime: real       // the clock then
    ghost var windows: seq<Closed>  // all windows closed so far

    /** The closed windows partition the time from the first call to the start of the current window,
        and every write counted in that time is in exactly one of them. */
    ghost predicate Valid()
      reads this
    {
      && (!started ==> windows == [])
      && (started ==> (startCount - first) as real == Total(windows) && windowStart - firstTime == Length(windows))
      && lastWps == (if windows == [] then 0.0 else windows[|windows| - 1].rate)
      && forall i :: 0 <= i < |windows| ==> windows[i].seconds >= 1.0
    }

    constructor ()
      ensures Valid() && windows == []
    {
      started, windowStart, startCount, lastWps := false, 0.0, 0, 0.0;
      first, firstTime, windows := 0, 0.0, [];
    }

    /** `now` is the clock in seconds, `current` the write counter. */
    method WritesPerSecond(now: real, current: int) returns (wps: real)
      requires Valid()
      modifies this
      ensures Valid()
      ensures windows != [] ==> wps == windows[|windows| - 1].rate
      ensures windows == [] ==> wps == 0.0
      ensures !old(started) ==> windowStart == firstTime == now && startCount == first == current && windows == []
      ensures old(started) ==> first == old(first) && firstTime == old(firstTime)
      ensures old(started) && now - old(windowStart) >= 1.0 ==>
                && windows == old(windows) + [Closed(wps, now - old(windowStart))]
                && wps == (current - old(startCount)) as real / (now - old(windowStart))
                && startCount == current && windowStart == now
      ensures old(started) && now - old(windowStart) < 1.0 ==>
                windows == old(windows) && startCount == old(startCount) && windowStart == old(windowStart)
      ensures started
    {
      if !started {
        started, windowStart, startCount, first, firstTime := true, now, current, current, now;
        return 0.0;
      }
      var elapsed := now - windowStart;
      if elapsed >= 1.0 {
        lastWps := (current - startCount) as real / elapsed;
        OneMoreWindow(windows, (current - startCount) as real, elapsed);
        windows := windows + [Closed(lastWps, elapsed)];
        windowStart, startCount := now, current;
      }
      wps := lastWps;
    }
  }

  /** The writes that the reported rates add up to. */
  function Total(windows: seq<Closed>): real {
    if windows == [] then 0.0
    else Total(windows[..|windows| - 1]) + windows[|windows| - 1].rate * windows[|windows| - 1].seconds
  }

  /** The time that the windows cover. */
  function Length(windows: seq<Closed>): real {
    if windows == [] then 0.0 else Length(windows[..|windows| - 1]) + windows[|windows| - 1].seconds
  }

  /** A window that closes adds its writes and its length. */
  lemma OneMoreWindow(windows: seq<Closed>, writes: real, elapsed: real)
    requires elapsed >= 1.0
    ensures Total(windows + [Closed(writes / elapsed, elapsed)]) == Total(windows) + writes
    ensures Length(windows + [Closed(writes / elapsed, elapsed)]) == Length(windows) + elapsed
  {
    var w := Closed(writes / elapsed, elapsed);
    assert (windows + [w])[..|windows|] == windows;
    RateTimesLength(writes, elapsed);
  }

  lemma RateTimesLength(writes: real, elapsed: real)
    requires elapsed >= 1.0
    ensures writes / elapsed * elapsed == writes
  {
  }
}
