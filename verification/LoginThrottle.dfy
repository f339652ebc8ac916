/** The lockout in front of the internal login's password check. */
module LoginThrottle {
  import opened Basics
  import opened FixedWindow
  import opened CacheStore

  /** What the password check would find, were it reached. */
  datatype Password = Wrong | Right | RightButMerchantRefused

  datatype Verdict = LockedOut | Checked(password: Password)

  datatype Policy = Policy(limit: int, window: nat)

  /** One attempt for a (username, address) pair: the lockout is read at `at`, and a
      failed hash check is recorded by an `add` at `addAt` and an `incr` at `incrAt`. */
  datatype Attempt = Attempt(key: string, at: int, addAt: int, incrAt: int, password: Password)

  function Failures(entries: map<string, Entry>, key: string, now: int): nat {
    if Live(Lookup(entries, key), now) then entries[key].count else 0
  }

  predicate IsLockedOut(p: Policy, entries: map<string, Entry>, key: string, now: int) {
    Failures(entries, key, now) >= p.limit
  }

  /** The window ran out between the two calls: the failure is not counted. */
  predicate SlipsThrough(e: Option<Entry>, addAt: int, incrAt: int) {
    Live(e, addAt) && !Live(e, incrAt)
  }

  function RecordedAt(e: Option<Entry>, addAt: int, incrAt: int): int {
    if Live(e, incrAt) then incrAt else addAt
  }

  function Recorded(p: Policy, entries: map<string, Entry>, key: string, addAt: int, incrAt: int): map<string, Entry> {
    var e := Lookup(entries, key);
    if SlipsThrough(e, addAt, incrAt) then entries
    else entries[key := Bump(e, RecordedAt(e, addAt, incrAt), p.window)]
  }

  function After(p: Policy, entries: map<string, Entry>, a: Attempt): map<string, Entry> {
    if IsLockedOut(p, entries, a.key, a.at) then entries
    else if a.password.Wrong? then Recorded(p, entries, a.key, a.addAt, a.incrAt)
    else entries - {a.key}
  }

  /** `record_failure`, which answers zero when `incr` finds the entry gone. */
  method RecordFailure(cache: Cache, p: Policy, key: string, addAt: int, incrAt: int) returns (total: nat)
    requires addAt <= incrAt
    modifies cache
    ensures cache.entries == Recorded(p, old(cache.entries), key, addAt, incrAt)
    ensures total == if SlipsThrough(Lookup(old(cache.entries), key), addAt, incrAt) then 0
                     else cache.entries[key].count
  {
    var added := cache.Add(key, p.window, addAt);
    if added {
      return 1;
    }
    var count := cache.Incr(key, incrAt);
    total := if count.Some? then count.value else 0;
  }

  /** `authenticate`, given what the hash check will say. */
  method Authenticate(cache: Cache, p: Policy, a: Attempt) returns (verdict: Verdict)
    requires a.addAt <= a.incrAt
    modifies cache
    ensures cache.entries == After(p, old(cache.entries), a)
    ensures verdict == if IsLockedOut(p, old(cache.entries), a.key, a.at) then LockedOut else Checked(a.password)
  {
    var failed := cache.Get(a.key, a.at);
    if failed >= p.limit {
      return LockedOut;
    }
    match a.password {
      case RightButMerchantRefused =>
        cache.Delete(a.key);
      case Wrong =>
        var _ := RecordFailure(cache, p, a.key, a.addAt, a.incrAt);
      case Right =>
        cache.Delete(a.key);
    }
    verdict := Checked(a.password);
  }

  // --------------------------------------------------------------- traces --

  predicate Sequential(attempts: seq<Attempt>) {
    && (forall i :: 0 <= i < |attempts| ==> attempts[i].at <= attempts[i].addAt <= attempts[i].incrAt)
    && (forall i, j :: 0 <= i < j < |attempts| ==> attempts[i].incrAt <= attempts[j].at)
  }

  function Run(p: Policy, entries: map<string, Entry>, attempts: seq<Attempt>): map<string, Entry> {
    if attempts == [] then entries
    else After(p, Run(p, entries, attempts[..|attempts| - 1]), attempts[|attempts| - 1])
  }

  /** When `key` failed the password check since it last passed one, in order. */
  function FailedChecks(p: Policy, attempts: seq<Attempt>, key: string): seq<int> {
    if attempts == [] then []
    else
      var init, a := attempts[..|attempts| - 1], attempts[|attempts| - 1];
      var before := FailedChecks(p, init, key);
      if a.key != key || IsLockedOut(p, Run(p, map[], init), key, a.at) then before
      else if a.password.Wrong? then before + [RecordedAt(Lookup(Run(p, map[], init), key), a.addAt, a.incrAt)]
      else []
  }

  /** An entry tracks its failures; one that has run out may be short of the failure
      that slipped through as it did. */
  ghost predicate Follows(e: Option<Entry>, times: seq<int>, p: Policy, now: int)
    requires p.limit >= 1
  {
    && (forall i :: 0 <= i < |times| ==> times[i] <= now)
    && match e
       case None => times == []
       case Some(w) =>
         && w.expires - p.window <= now
         && exists n: nat ::
               Tracks(Some(Entry(n, w.expires)), times, p.limit, p.window) && (n == w.count || w.expires <= now)
  }

  /** One more failed check, counted or not. */
  lemma FailureFollows(p: Policy, entries: map<string, Entry>, times: seq<int>, a: Attempt, now: int)
    requires p.limit >= 1 && p.window >= 1 && now <= a.at <= a.addAt <= a.incrAt
    requires Follows(Lookup(entries, a.key), times, p, now)
    requires !IsLockedOut(p, entries, a.key, a.at)
    ensures var e := Lookup(entries, a.key);
      Follows(Lookup(Recorded(p, entries, a.key, a.addAt, a.incrAt), a.key), times
              + [RecordedAt(e, a.addAt, a.incrAt)], p, a.incrAt)
  {
    var e := Lookup(entries, a.key);
    var longer := times + [RecordedAt(e, a.addAt, a.incrAt)];
    hide Tracks;
    if Live(e, a.addAt) {
      GrantTracks(e.value, times, p.limit, p.window, RecordedAt(e, a.addAt, a.incrAt));
      assert Tracks(Some(Entry(e.value.count + 1, e.value.expires)), longer, p.limit, p.window);
    } else {
      var tracked := None;
      if e.Some? {
        var n: nat :| Tracks(Some(Entry(n, e.value.expires)), times, p.limit, p.window);
        tracked := Some(Entry(n, e.value.expires));
      } else {
        NothingTracked(p);
      }
      OpenTracks(tracked, times, p.limit, p.window, a.addAt);
      assert Tracks(Some(Entry(1, a.addAt + p.window)), longer, p.limit, p.window);
    }
  }

  lemma NothingTracked(p: Policy)
    requires p.limit >= 1
    ensures Tracks(None, [], p.limit, p.window)
  {
  }

  lemma {:induction false} RunFollows(p: Policy, attempts: seq<Attempt>, key: string)
    requires Sequential(attempts) && p.limit >= 1 && p.window >= 1
    ensures attempts == [] ==> FailedChecks(p, attempts, key) == [] && Lookup(Run(p, map[], attempts), key) == None
    ensures attempts != [] ==>
              Follows(Lookup(Run(p, map[], attempts), key), FailedChecks(p, attempts, key), p,
                      attempts[|attempts| - 1].incrAt)
  {
    if attempts != [] {
      hide Tracks, Follows, Recorded;
      var init, a := attempts[..|attempts| - 1], attempts[|attempts| - 1];
      RunFollows(p, init, key);
      var entries, times := Run(p, map[], init), FailedChecks(p, init, key);
      NothingFollows(p, a.incrAt);
      if init == [] {
        NothingFollows(p, a.at);
      } else {
        FollowsLater(Lookup(entries, key), times, p, init[|init| - 1].incrAt, a.at);
      }
      if a.key != key || IsLockedOut(p, entries, key, a.at) {
        OthersLeaveItAlone(p, entries, a, key);
        FollowsLater(Lookup(entries, key), times, p, a.at, a.incrAt);
      } else if a.password.Wrong? {
        FailureFollows(p, entries, times, a, a.at);
      }
    }
  }

  lemma NothingFollows(p: Policy, now: int)
    requires p.limit >= 1
    ensures Follows(None, [], p, now)
  {
  }

  lemma FollowsLater(e: Option<Entry>, times: seq<int>, p: Policy, now: int, later: int)
    requires p.limit >= 1 && Follows(e, times, p, now) && now <= later
    ensures Follows(e, times, p, later)
  {
    hide Tracks;
    if e.Some? {
      var w := e.value;
      var n: nat :| Tracks(Some(Entry(n, w.expires)), times, p.limit, p.window) && (n == w.count || w.expires <= now);
    }
  }

  /** Between two successes, at most `limit` password checks fail in one window
      and fewer than 2 x limit in any stretch as long as a window. */
  lemma FailedChecksAreBounded(p: Policy, attempts: seq<Attempt>, key: string, lo: int)
    requires Sequential(attempts) && p.limit >= 1 && p.window >= 1
    ensures CountIn(FailedChecks(p, attempts, key), lo, lo + p.window) <= 2 * p.limit - 1
    ensures Lookup(Run(p, map[], attempts), key).Some? ==>
              var end := Run(p, map[], attempts)[key].expires;
              CountIn(FailedChecks(p, attempts, key), end - p.window, end) <= p.limit
  {
    var times, e := FailedChecks(p, attempts, key), Lookup(Run(p, map[], attempts), key);
    RunFollows(p, attempts, key);
    hide Run, FailedChecks;
    if e.Some? {
      var n: nat :| Tracks(Some(Entry(n, e.value.expires)), times, p.limit, p.window);
      assert CountPeriod(times, lo, p.window) < 2 * p.limit;
    }
  }

  lemma {:induction false} CountedIsPresent(times: seq<int>, at: int)
    requires CountIn(times, at, at + 1) >= 1
    ensures at in times
  {
    if times[|times| - 1] != at {
      CountedIsPresent(times[..|times| - 1], at);
    }
  }

  /** While a lockout lasts, attempts neither reach the password nor extend it. */
  lemma {:induction false} LockoutIsInert(p: Policy, entries: map<string, Entry>, key: string, more: seq<Attempt>)
    requires Lookup(entries, key).Some? && entries[key].count >= p.limit
    requires forall i :: 0 <= i < |more| && more[i].key == key ==> more[i].at < entries[key].expires
    ensures Lookup(Run(p, entries, more), key) == Lookup(entries, key)
    ensures forall i :: 0 <= i < |more| && more[i].key == key ==>
              IsLockedOut(p, Run(p, entries, more[..i]), key, more[i].at)
  {
    if more != [] {
      var init, a := more[..|more| - 1], more[|more| - 1];
      LockoutIsInert(p, entries, key, init);
      forall i | 0 <= i < |more| && more[i].key == key
        ensures IsLockedOut(p, Run(p, entries, more[..i]), key, more[i].at)
      {
        if i < |init| {
          assert more[..i] == init[..i] && init[i] == more[i];
        }
      }
    }
  }

  /** A lockout ends at its entry's expiry, however many attempts are made meanwhile. */
  lemma LockoutEnds(p: Policy, entries: map<string, Entry>, key: string, now: int, more: seq<Attempt>)
    requires p.limit >= 1 && IsLockedOut(p, entries, key, now)
    requires forall i :: 0 <= i < |more| && more[i].key == key ==> more[i].at < entries[key].expires
    ensures forall i :: 0 <= i < |more| && more[i].key == key ==>
              IsLockedOut(p, Run(p, entries, more[..i]), key, more[i].at)
    ensures forall t :: IsLockedOut(p, Run(p, entries, more), key, t) <==> t < entries[key].expires
  {
    LockoutIsInert(p, entries, key, more);
  }

  /** ... and that expiry is exactly one window after a failed check: the first of its window. */
  lemma LockoutIsOneWindow(p: Policy, history: seq<Attempt>, key: string, now: int)
    requires Sequential(history) && p.limit >= 1 && p.window >= 1
    requires IsLockedOut(p, Run(p, map[], history), key, now)
    ensures key in Run(p, map[], history)
    ensures now < Run(p, map[], history)[key].expires
    ensures Run(p, map[], history)[key].expires - p.window in FailedChecks(p, history, key)
  {
    hide Run, FailedChecks, Tracks, Sequential;
    var times, e := FailedChecks(p, history, key), Lookup(Run(p, map[], history), key);
    RunFollows(p, history, key);
    var n: nat :| Tracks(Some(Entry(n, e.value.expires)), times, p.limit, p.window);
    StartIsCounted(Entry(n, e.value.expires), times, p);
  }

  lemma StartIsCounted(e: Entry, times: seq<int>, p: Policy)
    requires p.limit >= 0 && Tracks(Some(e), times, p.limit, p.window)
    ensures e.expires - p.window in times
  {
    CountedIsPresent(times, e.expires - p.window);
  }

  /** A counter says no more than the failures in its window. */
  predicate Earned(p: Policy, e: Option<Entry>, times: seq<int>) {
    e.Some? ==> e.value.count <= CountIn(times, e.value.expires - p.window, e.value.expires)
  }

  lemma FailureIsEarned(p: Policy, entries: map<string, Entry>, times: seq<int>, a: Attempt)
    requires p.window >= 1 && a.at <= a.addAt <= a.incrAt
    requires Earned(p, Lookup(entries, a.key), times)
    requires a.key in entries ==> entries[a.key].expires - p.window <= a.at
    ensures var e := Lookup(entries, a.key);
      Earned(p, Lookup(Recorded(p, entries, a.key, a.addAt, a.incrAt), a.key), times
             + [RecordedAt(e, a.addAt, a.incrAt)])
  {
    var e := Lookup(entries, a.key);
    var at := RecordedAt(e, a.addAt, a.incrAt);
    if e.Some? {
      CountSnoc(times, at, e.value.expires - p.window, e.value.expires);
    }
    CountSnoc(times, at, at, at + p.window);
    hide CountIn;
  }

  lemma {:induction false} CountIsEarned(p: Policy, attempts: seq<Attempt>, key: string)
    requires Sequential(attempts) && p.limit >= 1 && p.window >= 1
    ensures Earned(p, Lookup(Run(p, map[], attempts), key), FailedChecks(p, attempts, key))
  {
    hide CountIn, Tracks, Recorded, Earned;
    if attempts == [] {
      NothingEarned(p);
    } else {
      var init, a := attempts[..|attempts| - 1], attempts[|attempts| - 1];
      var entries := Run(p, map[], init);
      CountIsEarned(p, init, key);
      RunFollows(p, init, key);
      if a.key == key && !IsLockedOut(p, entries, key, a.at) {
        if a.password.Wrong? {
          FailureIsEarned(p, entries, FailedChecks(p, init, key), a);
        } else {
          NothingEarned(p);
        }
      } else {
        OthersLeaveItAlone(p, entries, a, key);
      }
    }
  }

  lemma OthersLeaveItAlone(p: Policy, entries: map<string, Entry>, a: Attempt, key: string)
    requires a.key != key || IsLockedOut(p, entries, key, a.at)
    ensures Lookup(After(p, entries, a), key) == Lookup(entries, key)
  {
  }

  lemma NothingEarned(p: Policy)
    ensures Earned(p, None, [])
  {
  }

  /** A pair is locked out exactly while a window runs in which `limit` checks failed. */
  lemma LockedOutIff(p: Policy, attempts: seq<Attempt>, key: string, now: int)
    requires Sequential(attempts) && p.limit >= 1 && p.window >= 1
    requires attempts != [] ==> attempts[|attempts| - 1].incrAt <= now
    ensures var e := Lookup(Run(p, map[], attempts), key);
      IsLockedOut(p, Run(p, map[], attempts), key, now) <==>
        e.Some? && now < e.value.expires
        && CountIn(FailedChecks(p, attempts, key), e.value.expires - p.window, e.value.expires) >= p.limit
  {
    hide Run, FailedChecks, CountIn, Tracks, Follows, Sequential;
    CountIsEarned(p, attempts, key);
    RunFollows(p, attempts, key);
    var e := Lookup(Run(p, map[], attempts), key);
    if e.Some? && now < e.value.expires {
      EarnedIsCounted(p, e.value, FailedChecks(p, attempts, key), attempts[|attempts| - 1].incrAt, now);
    }
  }

  lemma EarnedIsCounted(p: Policy, e: Entry, times: seq<int>, at: int, now: int)
    requires p.limit >= 1 && Follows(Some(e), times, p, at) && at <= now < e.expires
    ensures CountIn(times, e.expires - p.window, e.expires) <= e.count
  {
  }

  /** So whoever failed fewer than `limit` checks in the last window is let through. */
  lemma FewFailuresAreLetThrough(p: Policy, attempts: seq<Attempt>, key: string, now: int)
    requires Sequential(attempts) && p.limit >= 1 && p.window >= 1
    requires attempts != [] ==> attempts[|attempts| - 1].incrAt <= now
    requires CountIn(FailedChecks(p, attempts, key), now - p.window + 1, now + 1) < p.limit
    ensures !IsLockedOut(p, Run(p, map[], attempts), key, now)
  {
    hide *;
    LockedOutIff(p, attempts, key, now);
    var e, times := Lookup(Run(p, map[], attempts), key), FailedChecks(p, attempts, key);
    if e.Some? && now < e.value.expires {
      NothingLater(p, attempts, key, now);
      CountUpTo(times, e.value.expires - p.window, now + 1, e.value.expires);
      CountWidens(times, e.value.expires - p.window, now + 1, now - p.window + 1, now + 1);
    }
  }

  lemma NothingLater(p: Policy, attempts: seq<Attempt>, key: string, now: int)
    requires Sequential(attempts) && p.limit >= 1 && p.window >= 1
    requires attempts != [] ==> attempts[|attempts| - 1].incrAt <= now
    ensures forall i :: 0 <= i < |FailedChecks(p, attempts, key)| ==> FailedChecks(p, attempts, key)[i] < now + 1
  {
    RunFollows(p, attempts, key);
    hide Run, FailedChecks, Tracks;
  }
}
