/** The portal's fixed-window limiter. */
module RateLimit {
  import opened Basics
  import opened FixedWindow
  import opened CacheStore

  /** So many calls in so many seconds. */
  datatype Rate = Rate(limit: nat, seconds: nat)

  function Period(rate: Rate): nat {
    rate.seconds * SECOND
  }

  /** One call: `add` reads the clock at `addAt`, `incr` at `incrAt`. */
  datatype Call = Call(key: string, rate: Rate, addAt: int, incrAt: int)

  /** The instant at which a call is counted. */
  function CountedAt(entries: map<string, Entry>, c: Call): int {
    if Live(Lookup(entries, c.key), c.addAt) then c.incrAt else c.addAt
  }

  function After(entries: map<string, Entry>, c: Call): map<string, Entry> {
    entries[c.key := Bump(Lookup(entries, c.key), CountedAt(entries, c), Period(c.rate))]
  }

  predicate Allowed(entries: map<string, Entry>, c: Call) {
    !Live(Lookup(entries, c.key), CountedAt(entries, c)) || After(entries, c)[c.key].count <= c.rate.limit
  }

  /** `allow`.  No parseable rate means no limit; an entry that expires between
      `add` and `incr` is opened again and lets the caller through. */
  method Allow(cache: Cache, key: string, rate: Option<Rate>, addAt: int, incrAt: int) returns (ok: bool)
    requires addAt <= incrAt
    modifies cache
    ensures rate.None? ==> ok && cache.entries == old(cache.entries)
    ensures rate.Some? ==>
              var c := Call(key, rate.value, addAt, incrAt);
              cache.entries == After(old(cache.entries), c) && ok == Allowed(old(cache.entries), c)
  {
    if rate.None? {
      return true;
    }
    var limit, period := rate.value.limit, Period(rate.value);
    var added := cache.Add(key, period, addAt);
    if added {
      return true;
    }
    var count := cache.Incr(key, incrAt);
    match count
    case None =>
      added := cache.Add(key, period, incrAt);
      return true;
    case Some(n) =>
      return n <= limit;
  }

  // --------------------------------------------------------------- traces --

  predicate Sequential(calls: seq<Call>) {
    && (forall i :: 0 <= i < |calls| ==> calls[i].addAt <= calls[i].incrAt)
    && (forall i, j :: 0 <= i < j < |calls| ==> calls[i].incrAt <= calls[j].addAt)
  }

  /** The cache after a trace that starts with an empty one. */
  function Run(calls: seq<Call>): map<string, Entry> {
    if calls == [] then map[] else After(Run(calls[..|calls| - 1]), calls[|calls| - 1])
  }

  /** When `key` was let through, in order. */
  function Granted(calls: seq<Call>, key: string): seq<int> {
    if calls == [] then []
    else
      var init, c := calls[..|calls| - 1], calls[|calls| - 1];
      if c.key == key && Allowed(Run(init), c) then Granted(init, key) + [CountedAt(Run(init), c)]
      else Granted(init, key)
  }

  predicate OneRate(calls: seq<Call>, key: string, rate: Rate) {
    forall i :: 0 <= i < |calls| && calls[i].key == key ==> calls[i].rate == rate
  }

  function Quota(rate: Rate): nat {
    if rate.limit < 1 then 1 else rate.limit
  }

  lemma {:induction false} RunTracks(calls: seq<Call>, key: string, rate: Rate)
    requires Sequential(calls) && OneRate(calls, key, rate) && rate.seconds >= 1
    ensures Tracks(Lookup(Run(calls), key), Granted(calls, key), Quota(rate), Period(rate))
    ensures forall i :: 0 <= i < |Granted(calls, key)| ==>
          calls != [] && Granted(calls, key)[i] <= calls[|calls| - 1].incrAt
    ensures Lookup(Run(calls), key).Some? ==>
          calls != [] && Run(calls)[key].expires - Period(rate) <= calls[|calls| - 1].incrAt
  {
    if calls != [] {
      var init, c := calls[..|calls| - 1], calls[|calls| - 1];
      RunTracks(init, key, rate);
      if c.key == key {
        BumpTracks(Lookup(Run(init), key), Granted(init, key), Quota(rate), Period(rate),
                   CountedAt(Run(init), c), Allowed(Run(init), c));
      }
    }
  }

  /** However calls arrive and whoever else is calling, no caller is let through
      2 x max(1, limit) times within one period. */
  lemma AllowedPerPeriod(calls: seq<Call>, key: string, rate: Rate, lo: int)
    requires Sequential(calls) && OneRate(calls, key, rate) && rate.seconds >= 1
    ensures CountIn(Granted(calls, key), lo, lo + Period(rate)) <= 2 * Quota(rate) - 1
  {
    RunTracks(calls, key, rate);
    assert CountPeriod(Granted(calls, key), lo, Period(rate)) <= 2 * Quota(rate) - 1
      || Granted(calls, key) == [];
  }

  // ------------------------------------------------------ the bound is met --

  function Burst(key: string, rate: Rate, at: int, n: nat): seq<Call> {
    if n == 0 then [] else Burst(key, rate, at, n - 1) + [Call(key, rate, at, at)]
  }

  function Repeated(at: int, n: nat): seq<int> {
    if n == 0 then [] else Repeated(at, n - 1) + [at]
  }

  lemma RunSnoc(before: seq<Call>, c: Call)
    ensures Run(before + [c]) == After(Run(before), c)
    ensures Granted(before + [c], c.key)
      == if Allowed(Run(before), c) then Granted(before, c.key) + [CountedAt(Run(before), c)]
            else Granted(before, c.key)
  {
    assert (before + [c])[..|before|] == before;
  }

  /** After `calls`, `key` has entry `e` and was let through at `granted`. */
  ghost predicate Reaches(calls: seq<Call>, key: string, e: Entry, granted: seq<int>) {
    Lookup(Run(calls), key) == Some(e) && Granted(calls, key) == granted
  }

  /** A call that finds room in a live window takes it. */
  lemma RoomForOne(before: seq<Call>, key: string, rate: Rate, at: int, e: Entry, granted: seq<int>)
    requires Reaches(before, key, e, granted) && at < e.expires && e.count < rate.limit
    ensures Reaches(before + [Call(key, rate, at, at)], key, Entry(e.count + 1, e.expires), granted + [at])
  {
    RunSnoc(before, Call(key, rate, at, at));
  }

  /** Calls that arrive together while the window has room are all let through. */
  lemma {:induction false} BurstIsGranted(before: seq<Call>, key: string, rate: Rate, at: int, n: nat, e: Entry,
                                          granted: seq<int>)
    requires Reaches(before, key, e, granted) && at < e.expires && (n == 0 || e.count + n <= rate.limit)
    ensures Reaches(before + Burst(key, rate, at, n), key, Entry(e.count + n, e.expires), granted + Repeated(at, n))
  {
    hide *;
    BurstSnoc(before, granted, key, rate, at, n);
    if n > 0 {
      BurstIsGranted(before, key, rate, at, n - 1, e, granted);
      RoomForOne(before + Burst(key, rate, at, n - 1), key, rate, at, Entry(e.count + n - 1, e.expires), granted
                 + Repeated(at, n - 1));
    }
  }

  lemma BurstSnoc(before: seq<Call>, granted: seq<int>, key: string, rate: Rate, at: int, n: nat)
    ensures n == 0 ==> before + Burst(key, rate, at, n) == before && granted + Repeated(at, n) == granted
    ensures n > 0 ==>
              && before + Burst(key, rate, at, n) == (before + Burst(key, rate, at, n - 1)) + [Call(key, rate, at, at)]
              && granted + Repeated(at, n) == (granted + Repeated(at, n - 1)) + [at]
  {
  }

  lemma {:induction false} BurstIsSteady(key: string, rate: Rate, at: int, n: nat)
    ensures |Burst(key, rate, at, n)| == n
    ensures forall i :: 0 <= i < n ==> Burst(key, rate, at, n)[i] == Call(key, rate, at, at)
  {
    if n > 0 {
      BurstIsSteady(key, rate, at, n - 1);
    }
  }

  lemma {:induction false} CountRepeated(times: seq<int>, at: int, n: nat, lo: int, hi: int)
    ensures CountIn(times + Repeated(at, n), lo, hi) == CountIn(times, lo, hi) + (if lo <= at < hi then n else 0)
  {
    if n == 0 {
      assert times + Repeated(at, 0) == times;
    } else {
      CountRepeated(times, at, n - 1, lo, hi);
      assert times + Repeated(at, n) == (times + Repeated(at, n - 1)) + [at];
      CountSnoc(times + Repeated(at, n - 1), at, lo, hi);
    }
  }

  /** A call that finds no live window opens one. */
  lemma OpeningCall(before: seq<Call>, key: string, rate: Rate, at: int)
    requires !Live(Lookup(Run(before), key), at)
    ensures Reaches(before + [Call(key, rate, at, at)], key, Entry(1, at + Period(rate)), Granted(before, key) + [at])
  {
    RunSnoc(before, Call(key, rate, at, at));
  }

  /** One call at 0, the rest of the window's budget at its last instant, and the
      whole of the next window's budget as that one opens. */
  function Straddle(key: string, rate: Rate): seq<Call> {
    var turn := [Call(key, rate, 0, 0)] + Burst(key, rate, Period(rate) - 1, Quota(rate) - 1)
          + [Call(key, rate, Period(rate), Period(rate))];
    turn + Burst(key, rate, Period(rate), Quota(rate) - 1)
  }

  lemma StraddleIsSequential(key: string, rate: Rate)
    requires rate.seconds >= 1
    ensures Sequential(Straddle(key, rate)) && OneRate(Straddle(key, rate), key, rate)
  {
    BurstIsSteady(key, rate, Period(rate) - 1, Quota(rate) - 1);
    BurstIsSteady(key, rate, Period(rate), Quota(rate) - 1);
  }

  lemma FirstCall(key: string, rate: Rate)
    requires rate.seconds >= 1
    ensures Reaches([Call(key, rate, 0, 0)], key, Entry(1, Period(rate)), [0])
  {
    OpeningCall([], key, rate, 0);
    assert [] + [Call(key, rate, 0, 0)] == [Call(key, rate, 0, 0)];
  }

  /** Every call of the straddle that can be let through is. */
  lemma StraddleIsGranted(key: string, rate: Rate)
    requires rate.seconds >= 1
    ensures var p, n := Period(rate), Quota(rate) - 1;
      Reaches(Straddle(key, rate), key, Entry(n + 1, p + p), ([0] + Repeated(p - 1, n)) + [p] + Repeated(p, n))
  {
    assert Period(rate) >= 2;
    hide Period, Run, Granted, Burst, Repeated;
    var p, n := Period(rate), Quota(rate) - 1;
    var first := [Call(key, rate, 0, 0)];
    FirstCall(key, rate);
    BurstIsGranted(first, key, rate, p - 1, n, Entry(1, p), [0]);
    var late := first + Burst(key, rate, p - 1, n);
    OpeningCall(late, key, rate, p);
    BurstIsGranted(late + [Call(key, rate, p, p)], key, rate, p, n, Entry(1, p + p), ([0] + Repeated(p - 1, n)) + [p]);
  }

  lemma GrantedIs(calls: seq<Call>, key: string)
    ensures forall e, granted :: Reaches(calls, key, e, granted) ==> Granted(calls, key) == granted
  {
  }

  lemma PeriodIsLong(rate: Rate)
    requires rate.seconds >= 1
    ensures Period(rate) >= 2 && Quota(rate) >= 1
  {
  }

  /** No smaller bound holds, for any rate: a caller who waits for the window to turn
      gets 2 x max(1, limit) - 1 calls through in one period. */
  lemma BoundIsMet(key: string, rate: Rate)
    requires rate.seconds >= 1
    ensures Sequential(Straddle(key, rate)) && OneRate(Straddle(key, rate), key, rate)
    ensures CountIn(Granted(Straddle(key, rate), key), 1, 1 + Period(rate)) == 2 * Quota(rate) - 1
  {
    hide *;
    StraddleIsSequential(key, rate);
    StraddleIsGranted(key, rate);
    GrantedIs(Straddle(key, rate), key);
    PeriodIsLong(rate);
    CountStraddle(Period(rate), Quota(rate) - 1);
  }

  lemma CountStraddle(p: nat, n: nat)
    requires p >= 2
    ensures CountIn(([0] + Repeated(p - 1, n)) + [p] + Repeated(p, n), 1, 1 + p) == 2 * n + 1
  {
    assert CountIn([0], 1, 1 + p) == CountIn([0][..0], 1, 1 + p);
    CountRepeated([0], p - 1, n, 1, 1 + p);
    CountSnoc([0] + Repeated(p - 1, n), p, 1, 1 + p);
    CountRepeated(([0] + Repeated(p - 1, n)) + [p], p, n, 1, 1 + p);
  }
}
