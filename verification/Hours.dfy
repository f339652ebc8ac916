/** Whether the desk is open, and when that next changes.  Instants are counted in
    microseconds; the business zone is a fixed offset from them. */
module Hours {
  import opened Basics

  type TimeOfDay = t: int | 0 <= t < DAY

  datatype Settings = Settings(
    openTime: TimeOfDay,
    closeTime: TimeOfDay,
    isOpenOverride: Option<bool>,
    offset: int)

  datatype Reason = OverrideOpen | OverrideClosed | AlwaysOpen | Schedule

  datatype Hours = Hours(isOpen: bool, reason: Reason, now: int, opensAt: Option<int>, closesAt: Option<int>) {
    function ChangesAt(): Option<int> {
      if isOpen then closesAt else opensAt
    }

    function SecondsUntilChange(): Option<nat> {
      match ChangesAt()
      case None => None
      case Some(moment) => Some(if moment <= now then 0 else (moment - now) / SECOND)
    }
  }

  function LocalDay(offset: int, now: int): int {
    (now + offset) / DAY
  }

  function Clock(offset: int, now: int): TimeOfDay {
    (now + offset) % DAY
  }

  /** A local wall-clock time on a given day, as an instant. */
  function At(offset: int, day: int, moment: TimeOfDay): int {
    day * DAY + moment - offset
  }

  function Guard(moment: int, now: int): int {
    if moment > now then moment else moment + DAY
  }

  /** The closing time the code aims at, before `_guard` looks at it. */
  function EndOfWindow(s: Settings, now: int): int {
    var today, clock := LocalDay(s.offset, now), Clock(s.offset, now);
    var overnight := s.openTime > s.closeTime;
    var day := if !overnight || clock < s.closeTime then today else today + 1;
    At(s.offset, day, s.closeTime)
  }

  /** The opening time the code aims at, before `_guard` looks at it. */
  function StartOfWindow(s: Settings, now: int): int {
    var today, clock := LocalDay(s.offset, now), Clock(s.offset, now);
    var overnight := s.openTime > s.closeTime;
    var day := if overnight || clock < s.openTime then today else today + 1;
    At(s.offset, day, s.openTime)
  }

  function Evaluate(s: Settings, now: int): Hours {
    if s.isOpenOverride == Some(true) then Hours(true, OverrideOpen, now, None, None)
    else if s.isOpenOverride == Some(false) then Hours(false, OverrideClosed, now, None, None)
    else if s.openTime == s.closeTime then Hours(true, AlwaysOpen, now, None, None)
    else
      var clock := Clock(s.offset, now);
      var isOpen :=
        if s.openTime > s.closeTime then clock >= s.openTime || clock < s.closeTime
        else s.openTime <= clock < s.closeTime;
      if isOpen then Hours(true, Schedule, now, None, Some(Guard(EndOfWindow(s, now), now)))
      else Hours(false, Schedule, now, Some(Guard(StartOfWindow(s, now), now)), None)
  }

  // --------------------------------------------- what being open means --

  /** The window that opens on local day `day`: it closes the same day, or, when
      the closing time is the earlier of the two, the day after. */
  predicate InWindow(s: Settings, day: int, t: int) {
    var closingDay := if s.openTime > s.closeTime then day + 1 else day;
    At(s.offset, day, s.openTime) <= t < At(s.offset, closingDay, s.closeTime)
  }

  ghost predicate OpenAt(s: Settings, t: int) {
    match s.isOpenOverride
    case Some(forced) => forced
    case None => s.openTime == s.closeTime || exists day :: InWindow(s, day, t)
  }

  /** The code's clock comparison answers "are we inside some day's window?". */
  lemma OpenMeansInsideAWindow(s: Settings, t: int)
    ensures Evaluate(s, t).isOpen <==> OpenAt(s, t)
  {
    if s.isOpenOverride.None? && s.openTime != s.closeTime {
      var today := LocalDay(s.offset, t);
      if Evaluate(s, t).isOpen {
        var day := if s.openTime > s.closeTime && Clock(s.offset, t) < s.closeTime then today - 1 else today;
        assert InWindow(s, day, t);
      }
      if OpenAt(s, t) {
        var day :| InWindow(s, day, t);
        assert day == today || (day == today - 1 && s.openTime > s.closeTime);
      }
    }
  }

  predicate Scheduled(s: Settings) {
    s.isOpenOverride.None? && s.openTime != s.closeTime
  }

  /** In a fixed-offset zone the correction for a moment in the past never applies. */
  lemma GuardNeverFires(s: Settings, now: int)
    requires Scheduled(s)
    ensures Evaluate(s, now).ChangesAt()
      == Some(if Evaluate(s, now).isOpen then EndOfWindow(s, now) else StartOfWindow(s, now))
  {
  }

  /** The moment reported is the next change exactly: it lies ahead, less than a day
      away; nothing changes before it, every earlier instant reports the same moment,
      and at it the door does change. */
  lemma NextChangeIsExact(s: Settings, now: int)
    requires Scheduled(s)
    ensures Evaluate(s, now).ChangesAt().Some?
    ensures var change := Evaluate(s, now).ChangesAt().value;
      && now < change < now + DAY
      && (forall t :: now <= t < change ==>
            (OpenAt(s, t) <==> OpenAt(s, now)) && Evaluate(s, t).ChangesAt() == Some(change))
      && (OpenAt(s, change) <==> !OpenAt(s, now))
  {
    var change := Evaluate(s, now).ChangesAt().value;
    OpenMeansInsideAWindow(s, now);
    OpenMeansInsideAWindow(s, change);
    forall t | now <= t < change
      ensures (OpenAt(s, t) <==> OpenAt(s, now)) && Evaluate(s, t).ChangesAt() == Some(change)
    {
      OpenMeansInsideAWindow(s, t);
      SameUntilChange(s, now, t);
    }
  }

  lemma SameUntilChange(s: Settings, now: int, t: int)
    requires Scheduled(s) && Evaluate(s, now).ChangesAt().Some?
    requires now <= t < Evaluate(s, now).ChangesAt().value
    ensures Evaluate(s, t).isOpen == Evaluate(s, now).isOpen
    ensures Evaluate(s, t).ChangesAt() == Evaluate(s, now).ChangesAt()
  {
    var d, c := LocalDay(s.offset, now), Clock(s.offset, now);
    var d', c' := LocalDay(s.offset, t), Clock(s.offset, t);
    assert now + s.offset == d * DAY + c && t + s.offset == d' * DAY + c';
    assert d' == d || d' == d + 1;
  }

  lemma WallClock(offset: int, day: int, moment: TimeOfDay)
    ensures LocalDay(offset, At(offset, day, moment)) == day
    ensures Clock(offset, At(offset, day, moment)) == moment
  {
  }

  lemma AtTheClose(s: Settings, day: int)
    requires Scheduled(s)
    ensures Evaluate(s, At(s.offset, day, s.closeTime)).ChangesAt()
      == Some(At(s.offset, if s.openTime > s.closeTime then day else day + 1, s.openTime))
  {
    WallClock(s.offset, day, s.closeTime);
  }

  lemma AtTheOpen(s: Settings, day: int)
    requires Scheduled(s)
    ensures Evaluate(s, At(s.offset, day, s.openTime)).ChangesAt()
      == Some(At(s.offset, if s.openTime > s.closeTime then day + 1 else day, s.closeTime))
  {
    WallClock(s.offset, day, s.openTime);
  }

  lemma ADayFromClose(s: Settings, day: int)
    requires Scheduled(s)
    ensures var first := At(s.offset, day, s.closeTime);
      && Evaluate(s, first).ChangesAt().Some?
      && Evaluate(s, Evaluate(s, first).ChangesAt().value).ChangesAt() == Some(first + DAY)
  {
    AtTheClose(s, day);
    AtTheOpen(s, if s.openTime > s.closeTime then day else day + 1);
    hide Evaluate;
  }

  lemma ADayFromOpen(s: Settings, day: int)
    requires Scheduled(s)
    ensures var first := At(s.offset, day, s.openTime);
      && Evaluate(s, first).ChangesAt().Some?
      && Evaluate(s, Evaluate(s, first).ChangesAt().value).ChangesAt() == Some(first + DAY)
  {
    AtTheOpen(s, day);
    AtTheClose(s, if s.openTime > s.closeTime then day + 1 else day);
    hide Evaluate;
  }

  /** The schedule repeats daily: two changes later it is exactly one day later. */
  lemma TwoChangesMakeADay(s: Settings, now: int)
    requires Scheduled(s)
    ensures var first := Evaluate(s, now).ChangesAt();
      && first.Some?
      && var second := Evaluate(s, first.value).ChangesAt();
      && second.Some?
      && Evaluate(s, second.value).ChangesAt() == Some(first.value + DAY)
  {
    GuardNeverFires(s, now);
    hide Evaluate;
    var today, overnight := LocalDay(s.offset, now), s.openTime > s.closeTime;
    if Evaluate(s, now).isOpen {
      ADayFromClose(s, if !overnight || Clock(s.offset, now) < s.closeTime then today else today + 1);
    } else {
      ADayFromOpen(s, if overnight || Clock(s.offset, now) < s.openTime then today else today + 1);
    }
  }

  /** Without a schedule the answer never changes and no moment is promised. */
  lemma UnscheduledNeverChanges(s: Settings, now: int, t: int)
    requires !Scheduled(s)
    ensures Evaluate(s, now).ChangesAt().None?
    ensures OpenAt(s, t) <==> Evaluate(s, now).isOpen
  {
    OpenMeansInsideAWindow(s, t);
  }

  /** The countdown is the whole seconds left, never negative and never a day or more. */
  lemma CountdownIsWholeSeconds(s: Settings, now: int)
    requires Scheduled(s)
    ensures var h := Evaluate(s, now);
      && h.SecondsUntilChange().Some?
      && var left := h.SecondsUntilChange().value;
      && left * SECOND <= h.ChangesAt().value - now < (left + 1) * SECOND
      && left < 86_400
  {
    NextChangeIsExact(s, now);
  }
}
