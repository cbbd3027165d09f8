/** The sliding-window rate estimate of `lib/guest-file-transfer.ts`. */
module RateTracker {
  import opened Text

  /** Milliseconds, and the bytes sent by then. */
  datatype Sample = Sample(t: int, n: int)

  datatype RateSample = RateSample(bytesPerSec: real, etaSeconds: Option<real>)

  // ---------- what the tracker means: an estimate over the whole history ----------

  /** Time does not run backwards. */
  predicate Sorted(h: seq<Sample>) {
    |h| < 2 || (h[|h| - 2].t <= h[|h| - 1].t && Sorted(h[..|h| - 1]))
  }

  lemma {:induction false} SortedPair(h: seq<Sample>, i: nat, j: nat)
    requires Sorted(h) && i <= j < |h|
    ensures h[i].t <= h[j].t
  {
    if i < j {
      if j == |h| - 1 {
        SortedPair(h[..|h| - 1], i, j - 1);
      } else {
        SortedPair(h[..|h| - 1], i, j);
      }
    }
  }

  function AnchorUpTo(h: seq<Sample>, cutoff: int, k: nat): (a: nat)
    requires k < |h|
    ensures a <= k && (a > 0 ==> h[a].t <= cutoff)
  {
    if k == 0 || h[k].t <= cutoff then k else AnchorUpTo(h, cutoff, k - 1)
  }

  /** The latest sample at or before the cutoff, or the oldest one if there is none. */
  function Anchor(h: seq<Sample>, cutoff: int): (k: nat)
    requires h != []
    ensures k < |h| && (k > 0 ==> h[k].t <= cutoff)
  {
    AnchorUpTo(h, cutoff, |h| - 1)
  }

  lemma {:induction false} AnchorIsLatest(h: seq<Sample>, cutoff: int, k: nat, i: nat)
    requires k < |h| && AnchorUpTo(h, cutoff, k) < i <= k
    ensures h[i].t > cutoff
  {
    if i < k {
      AnchorIsLatest(h, cutoff, k - 1, i);
    }
  }

  function Estimate(first: Sample, last: Sample, sent: int, total: int): RateSample {
    if last.t <= first.t + 250 then RateSample(0.0, None)
    else
      var raw := (last.n - first.n) as real / ((last.t - first.t) as real / 1000.0);
      var rate := if raw > 0.0 then raw else 0.0;
      var remain := if total - sent > 0 then total - sent else 0;
      RateSample(rate,
        if rate >= 1.0 && remain > 0 then Some(remain as real / rate)
        else if sent >= total && total > 0 then Some(0.0)
        else None)
  }

  function RateOver(h: seq<Sample>, windowMs: int, total: int): RateSample
    requires h != []
  {
    var last := h[|h| - 1];
    Estimate(h[Anchor(h, last.t - windowMs)], last, last.n, total)
  }

  // ---------- the tracker ----------

  class Tracker {
    const windowMs: int
    var samples: seq<Sample>
    ghost var history: seq<Sample>

    /** The samples kept are the history from some point on, and that point has left the window. */
    ghost predicate Valid()
      reads this
    {
      if history == [] then samples == []
      else TailOf(samples, history, history[|history| - 1].t - windowMs)
    }

    constructor (windowMs: int)
      ensures Valid() && history == [] && this.windowMs == windowMs
    {
      this.windowMs := windowMs;
      samples, history := [], [];
    }

    /** Drops samples from the front while the next one is old enough. */
    method Prune(cutoff: int)
      requires samples != []
      modifies this`samples
      ensures TailOf(samples, old(samples), cutoff)
      ensures |samples| > 1 ==> samples[1].t > cutoff
    {
      while |samples| > 1 && samples[1].t <= cutoff
        invariant TailOf(samples, old(samples), cutoff)
        decreases |samples|
      {
        samples := samples[1..];
      }
    }

    /** The deque part of an update: the ends of what is left are the anchor and the new sample. */
    method Slide(s: Sample)
      requires Valid() && Sorted(history + [s])
      modifies this`samples, this`history
      ensures Valid() && history == old(history) + [s]
      ensures Ends(samples, history, s, s.t - windowMs)
    {
      LastPair(history, s);
      Pushed(history, samples, s, windowMs);
      ghost var pushed := samples + [s];
      history := history + [s];
      samples := samples + [s];
      Prune(s.t - windowMs);
      Slid(history, pushed, samples, s, s.t - windowMs);
    }

    method Update(sent: int, total: int, now: int) returns (r: RateSample)
      requires Valid() && Sorted(history + [Sample(now, sent)])
      modifies this
      ensures Valid() && history == old(history) + [Sample(now, sent)]
      ensures r == RateOver(history, windowMs, total)
      ensures forall i :: 0 < i < |samples| ==> samples[i].t > now - windowMs
    {
      Slide(Sample(now, sent));
      assert Ends(samples, history, Sample(now, sent), now - windowMs);
      EndsAnswer(history, samples[0], samples[|samples| - 1], windowMs, total);
      r := Estimate(samples[0], samples[|samples| - 1], sent, total);
    }
  }

  /** b is what is left of h after dropping from the front; what was dropped lies before the cutoff. */
  ghost predicate TailOf(b: seq<Sample>, h: seq<Sample>, cutoff: int) {
    && 0 < |b| <= |h|
    && (forall i :: 0 <= i < |b| ==> b[i] == h[|h| - |b| + i])
    && (|b| < |h| ==> b[0].t <= cutoff)
  }

  /** The anchor and the latest sample answer for the whole history. */
  lemma EndsAnswer(h: seq<Sample>, first: Sample, last: Sample, windowMs: int, total: int)
    requires h != [] && last == h[|h| - 1] && first == h[Anchor(h, last.t - windowMs)]
    ensures Estimate(first, last, last.n, total) == RateOver(h, windowMs, total)
  {
  }

  lemma LastPair(h: seq<Sample>, s: Sample)
    requires Sorted(h + [s])
    ensures h != [] ==> h[|h| - 1].t <= s.t
  {
    assert h != [] ==> (h + [s])[|h| - 1] == h[|h| - 1];
  }

  lemma TailSnoc(h: seq<Sample>, b: seq<Sample>, s: Sample, cutoff: int, i: nat)
    requires TailOf(b, h, cutoff) && i <= |b|
    ensures (b + [s])[i] == (h + [s])[|h| - |b| + i]
  {
  }

  lemma Pushed(h: seq<Sample>, b: seq<Sample>, s: Sample, windowMs: int)
    requires h != [] ==> h[|h| - 1].t <= s.t && TailOf(b, h, h[|h| - 1].t - windowMs)
    requires h == [] ==> b == []
    ensures TailOf(b + [s], h + [s], s.t - windowMs)
  {
    if h != [] {
      forall i | 0 <= i < |b| + 1
        ensures (b + [s])[i] == (h + [s])[|h| - |b| + i]
      {
        TailSnoc(h, b, s, h[|h| - 1].t - windowMs, i);
      }
    }
  }

  lemma TailIsTail(h: seq<Sample>, pushed: seq<Sample>, kept: seq<Sample>, cutoff: int)
    requires TailOf(pushed, h, cutoff) && TailOf(kept, pushed, cutoff)
    ensures TailOf(kept, h, cutoff)
  {
    forall i | 0 <= i < |kept|
      ensures kept[i] == h[|h| - |kept| + i]
    {
      assert kept[i] == pushed[|pushed| - |kept| + i];
    }
  }

  /** Behind the first sample kept the history lies beyond the cutoff. */
  lemma NextIsBeyond(h: seq<Sample>, kept: seq<Sample>, cutoff: int)
    requires TailOf(kept, h, cutoff) && (|kept| > 1 ==> kept[1].t > cutoff)
    ensures var k := |h| - |kept|; kept[0] == h[k] && (k + 1 < |h| ==> h[k + 1].t > cutoff)
  {
    assert |kept| > 1 ==> kept[1] == h[|h| - |kept| + 1];
  }

  lemma Pruned(h: seq<Sample>, pushed: seq<Sample>, kept: seq<Sample>, cutoff: int)
    requires Sorted(h) && TailOf(pushed, h, cutoff) && TailOf(kept, pushed, cutoff)
    requires |kept| > 1 ==> kept[1].t > cutoff
    ensures TailOf(kept, h, cutoff)
    ensures kept[0] == h[Anchor(h, cutoff)] && kept[|kept| - 1] == h[|h| - 1]
  {
    TailIsTail(h, pushed, kept, cutoff);
    NextIsBeyond(h, kept, cutoff);
    AnchorIs(h, cutoff, |h| - |kept|);
  }

  lemma AllInWindow(h: seq<Sample>, kept: seq<Sample>, cutoff: int)
    requires Sorted(h) && TailOf(kept, h, cutoff) && (|kept| > 1 ==> kept[1].t > cutoff)
    ensures forall i :: 0 < i < |kept| ==> kept[i].t > cutoff
  {
    forall i | 0 < i < |kept|
      ensures kept[i].t > cutoff
    {
      KeptInWindow(h, kept, cutoff, i);
    }
  }

  /** What is kept starts at the anchor, ends with the latest sample and otherwise lies in the window. */
  ghost predicate Ends(kept: seq<Sample>, h: seq<Sample>, s: Sample, cutoff: int) {
    && kept != [] && h != [] && h[|h| - 1] == s
    && kept[0] == h[Anchor(h, cutoff)] && kept[|kept| - 1] == s
    && forall i :: 0 < i < |kept| ==> kept[i].t > cutoff
  }

  lemma Slid(h: seq<Sample>, pushed: seq<Sample>, kept: seq<Sample>, s: Sample, cutoff: int)
    requires Sorted(h) && h != [] && h[|h| - 1] == s
    requires TailOf(pushed, h, cutoff) && TailOf(kept, pushed, cutoff) && (|kept| > 1 ==> kept[1].t > cutoff)
    ensures TailOf(kept, h, cutoff) && Ends(kept, h, s, cutoff)
  {
    Pruned(h, pushed, kept, cutoff);
    AllInWindow(h, kept, cutoff);
  }

  lemma KeptInWindow(h: seq<Sample>, kept: seq<Sample>, cutoff: int, i: nat)
    requires Sorted(h) && TailOf(kept, h, cutoff)
    requires 0 < i < |kept| && kept[1].t > cutoff
    ensures kept[i].t > cutoff
  {
    var k := |h| - |kept|;
    SortedPair(h, k + 1, k + i);
    assert kept[i] == h[k + i] && kept[1] == h[k + 1];
  }

  /** In a sorted history the anchor is where the next sample lies beyond the cutoff. */
  lemma AnchorIs(h: seq<Sample>, cutoff: int, k: nat)
    requires Sorted(h) && k < |h|
    requires k > 0 ==> h[k].t <= cutoff
    requires k + 1 < |h| ==> h[k + 1].t > cutoff
    ensures Anchor(h, cutoff) == k
  {
    var a := Anchor(h, cutoff);
    if a > k {
      SortedPair(h, k + 1, a);
    } else if a < k {
      AnchorIsLatest(h, cutoff, |h| - 1, k);
    }
  }

  // ---------- what the estimate tells ----------

  /** Samples before the anchor do not matter. */
  lemma OldSamplesDoNotMatter(past: seq<Sample>, h: seq<Sample>, windowMs: int, total: int)
    requires h != [] && Sorted(past + h)
    requires past != [] ==> h[0].t <= h[|h| - 1].t - windowMs
    ensures RateOver(past + h, windowMs, total) == RateOver(h, windowMs, total)
  {
    var all, cutoff := past + h, h[|h| - 1].t - windowMs;
    var k := Anchor(h, cutoff);
    assert all[|past| + k] == h[k];
    if k + 1 < |h| {
      AnchorIsLatest(h, cutoff, |h| - 1, k + 1);
      assert all[|past| + (k + 1)] == h[k + 1];
    }
    AnchorIs(all, cutoff, |past| + k);
  }

  /** A transfer at a steady speed of v bytes per millisecond is estimated exactly. */
  lemma SteadySpeedIsExact(h: seq<Sample>, windowMs: int, total: int, v: int, base: int)
    requires h != [] && v >= 0
    requires forall i :: 0 <= i < |h| ==> h[i].n == base + v * h[i].t
    ensures var last, first := h[|h| - 1], h[Anchor(h, h[|h| - 1].t - windowMs)];
            last.t > first.t + 250 ==> RateOver(h, windowMs, total).bytesPerSec == (1000 * v) as real
  {
    var last, first := h[|h| - 1], h[Anchor(h, h[|h| - 1].t - windowMs)];
    if last.t > first.t + 250 {
      var dt := last.t - first.t;
      assert last.n - first.n == v * dt;
      SpeedOf(v, dt);
    }
  }

  lemma SpeedOf(v: int, dt: int)
    requires v >= 0 && dt > 0
    ensures (v * dt) as real / (dt as real / 1000.0) == (1000 * v) as real
  {
    var x := dt as real / 1000.0;
    assert dt as real == x * 1000.0;
    assert (v * dt) as real == v as real * dt as real;
    assert (v * dt) as real == (v as real * 1000.0) * x;
    assert (1000 * v) as real == v as real * 1000.0;
    Cancel(v as real * 1000.0, x);
  }

  lemma Cancel(a: real, x: real)
    requires x > 0.0
    ensures (a * x) / x == a
  {
  }

  lemma QuotientOf(a: real, x: real)
    requires x > 0.0
    ensures (a / x) * x == a
  {
  }

  lemma QuotientPositive(a: real, x: real)
    requires x > 0.0 && a > 0.0
    ensures a / x > 0.0
  {
  }

  /**
    With 250 milliseconds between the samples or fewer there is no estimate. Otherwise the speed is what was
    sent over the time it took, and never negative; the time to go is what remains over that speed while
    bytes remain at one per second or more, zero once all of something is sent, and else unknown.
  */
  lemma EtaShape(first: Sample, last: Sample, sent: int, total: int)
    ensures var r := Estimate(first, last, sent, total);
            if last.t - first.t <= 250 then r == RateSample(0.0, None)
            else
              && r.bytesPerSec * (last.t - first.t) as real == (1000 * Max(0, last.n - first.n)) as real
              && (if r.bytesPerSec >= 1.0 && total > sent
                  then r.etaSeconds.Some? && r.etaSeconds.value * r.bytesPerSec == (total - sent) as real
                  else r.etaSeconds == if sent >= total && total > 0 then Some(0.0) else None)
  {
    var r := Estimate(first, last, sent, total);
    if last.t - first.t > 250 {
      SpeedIs(last.n - first.n, last.t - first.t);
      if r.bytesPerSec >= 1.0 && total > sent {
        QuotientOf((total - sent) as real, r.bytesPerSec);
      }
    }
  }

  lemma SpeedIs(n: int, dt: int)
    requires dt > 0
    ensures var raw := n as real / (dt as real / 1000.0);
            (raw > 0.0 <==> n > 0) && raw * dt as real == (1000 * n) as real
  {
    var x := dt as real / 1000.0;
    var raw := n as real / x;
    QuotientOf(n as real, x);
    assert dt as real == x * 1000.0;
    assert raw * dt as real == (raw * x) * 1000.0;
    if n > 0 {
      QuotientPositive(n as real, x);
    } else if n < 0 {
      QuotientPositive(-n as real, x);
      assert raw == -((-n) as real / x);
    }
  }
}
