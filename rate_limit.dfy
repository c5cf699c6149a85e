/** The client-side pacer that spaces outgoing HTTP requests evenly: at most
    `maxPerMinute` releases per minute, one every `60 / maxPerMinute` seconds. */
module RateLimit {

  /** `max(1, m)`: a non-positive rate still lets one request through per minute. */
  function ClampRate(m: int): (r: int)
    ensures r >= 1 && r >= m
    ensures r == m || r == 1
  {
    if m < 1 then 1 else m
  }

  /** The time at which a caller arriving at `now` is let through when the next free
      slot is `next`: `max(now, next)`. */
  function Release(next: real, now: real): (r: real)
    ensures r >= now && r >= next
    ensures r == now || r == next
  {
    if now < next then next else now
  }

  class RateLimiter {
    const maxPerMinute: int
    const interval: real
    var nextTime: real

    ghost predicate Valid()
      reads this
    {
      maxPerMinute >= 1 && interval * maxPerMinute as real == 60.0 && 0.0 < interval <= 60.0
    }

    /** Clamps the rate to at least one per minute; the first slot is free at `now`. */
    constructor (maxPerMinute: int, now: real)
      ensures Valid()
      ensures this.maxPerMinute == ClampRate(maxPerMinute)
      ensures interval == 60.0 / this.maxPerMinute as real
      ensures nextTime == now
    {
      var m := ClampRate(maxPerMinute);
      this.maxPerMinute := m;
      this.interval := 60.0 / m as real;
      nextTime := now;
    }

    /** One `wait()` by a caller arriving at `now`: the caller sleeps for `delay`
        (zero when the slot is already free), then the next slot moves one interval
        past the moment it is let through. */
    method Wait(now: real) returns (delay: real)
      requires Valid()
      modifies this
      ensures Valid()
      ensures delay >= 0.0
      ensures delay == (if now < old(nextTime) then old(nextTime) - now else 0.0)
      ensures now + delay == Release(old(nextTime), now)
      ensures nextTime == Release(old(nextTime), now) + interval
      ensures nextTime > old(nextTime)
    {
      delay := 0.0;
      if now < nextTime {
        delay := nextTime - now;
      }
      nextTime := Release(nextTime, now) + interval;
    }
  }

  /** The release times of successive `wait()` calls arriving at the times `calls`,
      starting from the free slot `next`. */
  function Releases(next: real, interval: real, calls: seq<real>): (r: seq<real>)
    ensures |r| == |calls|
    decreases |calls|
  {
    if calls == [] then []
    else
      var first := Release(next, calls[0]);
      [first] + Releases(first + interval, interval, calls[1..])
  }

  /** The free slot after successive `wait()` calls arriving at the times `calls`. */
  function NextAfter(next: real, interval: real, calls: seq<real>): real
    decreases |calls|
  {
    if calls == [] then next else NextAfter(Release(next, calls[0]) + interval, interval, calls[1..])
  }

  /** After `n` calls the free slot is at least `n` intervals past where it started. */
  lemma {:induction false} NextAfterBound(next: real, interval: real, calls: seq<real>)
    ensures NextAfter(next, interval, calls) >= next + |calls| as real * interval
    decreases |calls|
  {
    if calls != [] {
      var after := Release(next, calls[0]) + interval;
      NextAfterBound(after, interval, calls[1..]);
      Distribute(|calls| - 1, interval);
    }
  }

  /** No caller is let through before it arrives, and each release comes at least
      one interval after the one before. */
  lemma {:induction false} ReleasesSpaced(next: real, interval: real, calls: seq<real>)
    ensures var r := Releases(next, interval, calls);
      && (forall i :: 0 <= i < |r| ==> r[i] >= calls[i])
      && (|r| > 0 ==> r[0] >= next)
      && (forall i :: 0 <= i < |r| - 1 ==> r[i + 1] >= r[i] + interval)
    decreases |calls|
  {
    if calls != [] {
      var first := Release(next, calls[0]);
      var rest := Releases(first + interval, interval, calls[1..]);
      ReleasesSpaced(first + interval, interval, calls[1..]);
      assert Releases(next, interval, calls) == [first] + rest;
    }
  }

  lemma Distribute(k: int, x: real)
    ensures (k + 1) as real * x == k as real * x + x
  {
  }

  /** Releases `j - i` calls apart are at least `j - i` intervals apart. */
  lemma {:induction false} ReleasesApart(r: seq<real>, interval: real, i: int, j: int)
    requires forall k :: 0 <= k < |r| - 1 ==> r[k + 1] >= r[k] + interval
    requires 0 <= i <= j < |r|
    ensures r[j] - r[i] >= (j - i) as real * interval
    decreases j - i
  {
    if i < j {
      ReleasesApart(r, interval, i, j - 1);
      Distribute(j - 1 - i, interval);
      assert r[j] >= r[j - 1] + interval;
    }
  }

  /** Within any span shorter than a minute, fewer than `maxPerMinute + 1` callers are
      released: the per-minute rate the limiter promises. */
  lemma RateWithinLimit(maxPerMinute: int, next: real, calls: seq<real>)
    ensures var m := ClampRate(maxPerMinute);
      var r := Releases(next, 60.0 / m as real, calls);
      forall i, j :: 0 <= i < j < |r| && r[j] - r[i] < 60.0 ==> j - i < m
  {
    var m := ClampRate(maxPerMinute);
    var interval := 60.0 / m as real;
    ReleasesSpaced(next, interval, calls);
    SpacedWithinLimit(Releases(next, interval, calls), m, interval);
  }

  /** Times spaced at least `60 / m` seconds apart: fewer than `m + 1` of them fall in
      any span shorter than a minute. */
  lemma SpacedWithinLimit(r: seq<real>, m: int, interval: real)
    requires 1 <= m && interval == 60.0 / m as real
    requires forall k :: 0 <= k < |r| - 1 ==> r[k + 1] >= r[k] + interval
    ensures forall i, j :: 0 <= i < j < |r| && r[j] - r[i] < 60.0 ==> j - i < m
  {
    forall i, j | 0 <= i < j < |r| && r[j] - r[i] < 60.0
      ensures j - i < m
    {
      ReleasesApart(r, interval, i, j);
      AtLeastAMinute(j - i, m, interval);
    }
  }


  /** `m` or more intervals of `60 / m` seconds span at least a minute. */
  lemma AtLeastAMinute(k: int, m: int, interval: real)
    requires 1 <= m && interval == 60.0 / m as real
    ensures k >= m ==> k as real * interval >= 60.0
  {
    if k >= m {
      assert m as real * interval == 60.0;
      assert (k - m) as real * interval >= 0.0;
      assert k as real * interval == m as real * interval + (k - m) as real * interval;
    }
  }
}
