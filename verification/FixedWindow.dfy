/** Fixed-window counting: an expiring counter that starts at its first event. */
module FixedWindow {
  import opened Basics

  /** A counter in the cache, and the instant at which it stops existing. */
  datatype Entry = Entry(count: nat, expires: int)

  predicate Live(e: Option<Entry>, now: int) {
    e.Some? && now < e.value.expires
  }

  /** Count one event at `now`: open a window if none is running. */
  function Bump(e: Option<Entry>, now: int, period: int): Entry {
    if Live(e, now) then Entry(e.value.count + 1, e.value.expires) else Entry(1, now + period)
  }

  /** How many of `times` fall in [lo, hi). */
  function CountIn(times: seq<int>, lo: int, hi: int): nat {
    if times == [] then 0
    else CountIn(times[..|times| - 1], lo, hi) + (if lo <= times[|times| - 1] < hi then 1 else 0)
  }

  /** How many fall in the period that starts at `lo`. */
  function CountPeriod(times: seq<int>, lo: int, period: int): nat {
    CountIn(times, lo, lo + period)
  }

  lemma CountSnoc(times: seq<int>, t: int, lo: int, hi: int)
    ensures CountIn(times + [t], lo, hi) == CountIn(times, lo, hi) + (if lo <= t < hi then 1 else 0)
  {
    assert (times + [t])[..|times|] == times;
  }

  lemma {:induction false} CountSplits(times: seq<int>, lo: int, mid: int, hi: int)
    requires lo <= mid <= hi
    ensures CountIn(times, lo, hi) == CountIn(times, lo, mid) + CountIn(times, mid, hi)
  {
    if times != [] {
      CountSplits(times[..|times| - 1], lo, mid, hi);
    }
  }

  lemma {:induction false} CountWidens(times: seq<int>, lo: int, hi: int, lo': int, hi': int)
    requires lo' <= lo && hi <= hi'
    ensures CountIn(times, lo, hi) <= CountIn(times, lo', hi')
  {
    if times != [] {
      CountWidens(times[..|times| - 1], lo, hi, lo', hi');
    }
  }

  /** What an entry knows about the granted events behind it, when at most
      `quota` are granted in one window:
      the running window has granted at most `quota`, its first event among them;
      any stretch of one period ending where it began holds fewer than `quota`;
      and no stretch of one period anywhere holds 2 x quota. */
  ghost predicate Tracks(e: Option<Entry>, times: seq<int>, quota: nat, period: int) {
    match e
    case None => times == []
    case Some(w) =>
      var start := w.expires - period;
      && w.count >= 1
      && (forall i :: 0 <= i < |times| ==> times[i] < w.expires)
      && CountIn(times, start, start + 1) >= 1
      && CountIn(times, start, w.expires) <= quota
      && CountIn(times, start, w.expires) <= w.count
      && (forall x :: start - period < x ==> CountIn(times, x, start) < quota)
      && (forall x :: CountPeriod(times, x, period) < 2 * quota)
  }

  lemma {:induction false} CountNone(times: seq<int>, lo: int, hi: int)
    requires forall i :: 0 <= i < |times| ==> times[i] < lo
    ensures CountIn(times, lo, hi) == 0
  {
    if times != [] {
      CountNone(times[..|times| - 1], lo, hi);
    }
  }

  lemma {:induction false} CountUpTo(times: seq<int>, lo: int, hi: int, hi': int)
    requires hi <= hi' && forall i :: 0 <= i < |times| ==> times[i] < hi
    ensures CountIn(times, lo, hi') == CountIn(times, lo, hi)
  {
    if times != [] {
      CountUpTo(times[..|times| - 1], lo, hi, hi');
    }
  }

  /** Counting an event keeps track, provided a grant is only given within quota
      and the event that opens a window is always granted. */
  lemma BumpTracks(e: Option<Entry>, times: seq<int>, quota: nat, period: int, now: int, granted: bool)
    requires period >= 1 && quota >= 1
    requires Tracks(e, times, quota, period)
    requires forall i :: 0 <= i < |times| ==> times[i] <= now
    requires e.Some? ==> e.value.expires - period <= now
    requires granted ==> Bump(e, now, period).count <= quota
    requires !Live(e, now) ==> granted
    ensures Tracks(Some(Bump(e, now, period)), if granted then times + [now] else times, quota, period)
  {
    if !Live(e, now) {
      OpenTracks(e, times, quota, period, now);
    } else if granted {
      GrantTracks(e.value, times, quota, period, now);
    }
  }

  lemma OpenTracks(e: Option<Entry>, times: seq<int>, quota: nat, period: int, now: int)
    requires period >= 1 && quota >= 1
    requires Tracks(e, times, quota, period) && !Live(e, now)
    requires forall i :: 0 <= i < |times| ==> times[i] <= now
    ensures Tracks(Some(Entry(1, now + period)), times + [now], quota, period)
  {
    var all := times + [now];
    CountSnoc(times, now, now, now + 1);
    CountSnoc(times, now, now, now + period);
    assert forall i :: 0 <= i < |times| ==> times[i] < now;
    CountNone(times, now, now + period);
    CountNone(times, now, now + 1);
    forall x | now - period < x
      ensures CountIn(times, x, now) < quota
    {
      BeforeTheWindow(e, times, quota, period, now, x);
    }
    forall x
      ensures (now - period < x ==> CountIn(all, x, now) < quota) && CountPeriod(all, x, period) < 2 * quota
    {
      CountSnoc(times, now, x, now);
      CountSnoc(times, now, x, x + period);
      assert e.Some? ==> CountPeriod(times, x, period) < 2 * quota;
      if x <= now < x + period {
        CountUpTo(times, x, now, x + period);
      } else if e.None? {
        CountNone(times, x, x + period);
      }
    }
  }

  /** The granted events of the last period before a new window: all but the first
      event of the window before it. */
  lemma BeforeTheWindow(e: Option<Entry>, times: seq<int>, quota: nat, period: int, now: int, x: int)
    requires period >= 1 && quota >= 1
    requires Tracks(e, times, quota, period) && !Live(e, now)
    requires now - period < x
    ensures CountIn(times, x, now) < quota
  {
    match e
    case None => CountNone(times, x, now);
    case Some(w) =>
      var start := w.expires - period;
      CountWidens(times, x, now, start + 1, if now < w.expires then w.expires else now);
      CountUpTo(times, start + 1, w.expires, if now < w.expires then w.expires else now);
      CountSplits(times, start, start + 1, w.expires);
  }

  lemma GrantTracks(w: Entry, times: seq<int>, quota: nat, period: int, now: int)
    requires period >= 1 && quota >= 1
    requires Tracks(Some(w), times, quota, period)
    requires w.expires - period <= now < w.expires
    requires forall i :: 0 <= i < |times| ==> times[i] <= now
    requires w.count + 1 <= quota
    ensures Tracks(Some(Entry(w.count + 1, w.expires)), times + [now], quota, period)
  {
    var start, all := w.expires - period, times + [now];
    CountSnoc(times, now, start, start + 1);
    CountSnoc(times, now, start, w.expires);
    forall x
      ensures (start - period < x ==> CountIn(all, x, start) < quota) && CountPeriod(all, x, period) < 2 * quota
    {
      CountSnoc(times, now, x, start);
      CountSnoc(times, now, x, x + period);
      assert CountPeriod(times, x, period) < 2 * quota;
      if x <= now < x + period {
        var to := if x + period < w.expires then w.expires else x + period;
        CountWidens(times, x, x + period, x, to);
        CountUpTo(times, x, w.expires, to);
        if x < start {
          CountSplits(times, x, start, w.expires);
        } else {
          CountWidens(times, x, w.expires, start, w.expires);
        }
      }
    }
  }
}
