/** No local day, past or present, ever carries more than a wallet's cap. */
module Caps {
  import opened Basics
  import opened Pricing
  import opened Desk
  import opened Submissions
  import opened Operations
  import opened Runs
  import opened Slots
  import opened References

  /** The day containing `at` stays within a peak, counted in hundredths. */
  predicate Within(c: Config, d: Tables, id: nat, peak: Option<nat>, at: int)
    requires Live(d.wallets, id)
  {
    d.wallets[id].value.link < |d.links| && peak.Some? ==>
          100 * ConsumedIqd(d, d.wallets[id].value, c.capOffset, at) <= peak.value
  }

  ghost predicate Capped(c: Config, s: Portal) {
    && |s.peaks| == |s.desk.wallets|
    && (forall id: nat :: Live(s.desk.wallets, id) ==> AtMost(s.desk.wallets[id].value.dailyCap, s.peaks[id]))
    && (forall id: nat, at: int :: Live(s.desk.wallets, id) ==> Within(c, s.desk, id, s.peaks[id], at))
    && (forall i :: 0 <= i < |s.held| ==> HeldUnder(s, s.held[i].draft))
    && (forall r :: 0 <= r < |s.desk.requests| ==> s.desk.requests[r].amountIqd >= 0)
  }

  /** The cap a draft remembers was the wallet's own, once. */
  predicate HeldUnder(s: Portal, draft: Draft) {
    draft.wallet.Some? && draft.wallet.value.id < |s.peaks| ==>
          AtMost(draft.wallet.value.row.dailyCap, s.peaks[draft.wallet.value.id])
  }

  // -------------------------------------------------------------- counting --

  /** Moving statuses about can only release what a day has taken. */
  lemma {:induction false} ConsumedOnlyFalls(rs: seq<Request>, later: seq<Request>, m: nat, p: nat, n: string,
                                             start: int, end: int)
    requires |later| == |rs|
    requires forall i :: 0 <= i < |rs| ==> SameRequest(rs[i], later[i]) && rs[i].amountIqd >= 0
    ensures Consumed(later, m, p, n, start, end) <= Consumed(rs, m, p, n, start, end)
  {
    if rs != [] {
      var last := |rs| - 1;
      ConsumedOnlyFalls(rs[..last], later[..last], m, p, n, start, end);
      assert SameRequest(rs[last], later[last]);
    }
  }

  lemma {:induction false} NothingConsumed(rs: seq<Request>, m: nat, p: nat, n: string, start: int, end: int)
    requires forall i :: 0 <= i < |rs| ==> !Counts(rs[i], m, p, n, start, end)
    ensures Consumed(rs, m, p, n, start, end) == 0
  {
    if rs != [] {
      NothingConsumed(rs[..|rs| - 1], m, p, n, start, end);
    }
  }

  /** Two wallets in one place with one number are one wallet. */
  lemma PlaceIsUnique(d: Tables, i: nat, j: nat, r: Request)
    requires Structure(d) && PaysInto(d, i, r) && PaysInto(d, j, r)
    ensures i == j
  {
    var k, l := d.wallets[i].value.link, d.wallets[j].value.link;
    assert k == l;
    assert i == j || Apart(d.wallets[i].value, d.wallets[j].value);
  }

  /** Nothing was filed under a new wallet's number before it existed. */
  lemma NewWalletIsEmpty(d: Tables, e: Tables, id: nat, offset: int, at: int)
    requires Extends(d, e) && DeletesOnlyUnused(d, e) && |e.requests| == |d.requests| && Structure(e)
    requires forall k :: 0 <= k < |d.requests| ==> Filed(d, d.requests[k])
    requires |d.wallets| <= id && Live(e.wallets, id)
    ensures ConsumedIqd(e, e.wallets[id].value, offset, at) == 0
  {
    var w := e.wallets[id].value;
    var (start, end) := DayBounds(offset, at);
    var m, p := e.links[w.link].merchant, e.links[w.link].rail;
    forall k | 0 <= k < |e.requests|
      ensures !Counts(e.requests[k], m, p, w.number, start, end)
    {
      if Counts(e.requests[k], m, p, w.number, start, end) {
        assert SameRequest(d.requests[k], e.requests[k]) && Filed(d, d.requests[k]);
        var home: nat :| FiledAgainst(d, home, d.requests[k]);
        StaysFiledAgainst(d, e, k, home);
        PlaceIsUnique(e, home, id, e.requests[k]);
      }
    }
    NothingConsumed(e.requests, m, p, w.number, start, end);
  }

  // ----------------------------------------------------------------- deeds --

  lemma DeedStaysWithin(c: Config, d: Tables, e: Tables, id: nat, peak: Option<nat>, higher: Option<nat>, at: int)
    requires Extends(d, e) && |e.requests| == |d.requests| && AtMost(peak, higher)
    requires forall r :: 0 <= r < |d.requests| ==> d.requests[r].amountIqd >= 0
    requires Live(d.wallets, id) && d.wallets[id].value.link < |d.links| && Live(e.wallets, id)
    requires Within(c, d, id, peak, at)
    ensures Within(c, e, id, higher, at)
  {
    var w := d.wallets[id].value;
    var (start, end) := DayBounds(c.capOffset, at);
    assert SameWallet(d.wallets[id], e.wallets[id]);
    assert e.links[w.link].merchant == d.links[w.link].merchant && e.links[w.link].rail == d.links[w.link].rail;
    ConsumedOnlyFalls(d.requests, e.requests, d.links[w.link].merchant, d.links[w.link].rail, w.number, start, end);
  }

  lemma EmptyIsWithin(c: Config, d: Tables, id: nat, peak: Option<nat>, at: int)
    requires Live(d.wallets, id) && d.wallets[id].value.link < |d.links|
    requires ConsumedIqd(d, d.wallets[id].value, c.capOffset, at) == 0
    ensures Within(c, d, id, peak, at)
  {
  }

  lemma HeldStaysUnder(s: Portal, t: Portal, draft: Draft)
    requires HeldOk(s.desk, draft) && HeldUnder(s, draft)
    requires |s.peaks| == |s.desk.wallets| <= |t.peaks|
    requires forall i :: 0 <= i < |s.peaks| ==> AtMost(s.peaks[i], t.peaks[i])
    ensures HeldUnder(t, draft)
  {
  }

  lemma CapsCarry(c: Config, s: Portal, t: Portal)
    requires Structure(s.desk) && Resolves(s) && Capped(c, s) && Structure(t.desk)
    requires Extends(s.desk, t.desk) && DeletesOnlyUnused(s.desk, t.desk) && |t.desk.requests| == |s.desk.requests|
    requires t.held == s.held && t.peaks == Raised(s.peaks, t.desk.wallets)
    ensures Capped(c, t)
  {
    hide Within, Filed, HeldUnder;
    var d, e := s.desk, t.desk;
    forall id: nat, at: int | Live(e.wallets, id)
      ensures Within(c, e, id, t.peaks[id], at)
    {
      if id < |d.wallets| {
        assert SameWallet(d.wallets[id], e.wallets[id]);
        assert Live(d.wallets, id);
        DeedStaysWithin(c, d, e, id, s.peaks[id], t.peaks[id], at);
      } else {
        NewWalletIsEmpty(d, e, id, c.capOffset, at);
        EmptyIsWithin(c, e, id, t.peaks[id], at);
      }
    }
    forall i | 0 <= i < |t.held|
      ensures HeldUnder(t, t.held[i].draft)
    {
      HeldStaysUnder(s, t, s.held[i].draft);
    }
    forall r | 0 <= r < |e.requests|
      ensures e.requests[r].amountIqd >= 0
    {
      assert SameRequest(d.requests[r], e.requests[r]);
    }
  }

  lemma DeedKeepsCaps(c: Config, s: Portal, deed: Deed)
    requires Structure(s.desk) && Resolves(s) && Capped(c, s)
    ensures Capped(c, Apply(c, s, Operate(deed)))
  {
    DeedExtends(s.desk, deed);
    DeedDeletesOnlyUnused(s.desk, deed);
    DeedKeepsRequestCount(s.desk, deed);
    StepKeepsStructure(c, s, Operate(deed));
    hide Perform, Extends, DeletesOnlyUnused, Structure, Resolves, Capped;
    CapsCarry(c, s, Apply(c, s, Operate(deed)));
  }

  // --------------------------------------------------------------- commits --

  /** The re-check inside the commit: with the draft's amount added, the day stays
      under the cap the draft remembers. */
  lemma CommitFits(c: Config, d: Tables, draft: Draft, now: int)
    requires CreateRequest(c, d, draft, now).Ok? && draft.wallet.Some? && draft.wallet.value.row.link < |d.links|
    ensures draft.quote.figures.total > 0
    ensures var row := draft.wallet.value.row;
      row.dailyCap.Some? ==>
            100 * (ConsumedIqd(d, row, c.capOffset, now) + draft.quote.figures.total) <= row.dailyCap.value
  {
    hide ConsumedIqd;
  }

  lemma CommitStaysWithin(c: Config, s: Portal, i: nat, now: int, id: nat, at: int)
    requires Structure(s.desk) && Resolves(s) && Capped(c, s)
    requires i < |s.held| && CreateRequest(c, s.desk, s.held[i].draft, now).Ok?
    requires Live(s.desk.wallets, id)
    ensures Within(c, Apply(c, s, Commit(i, now)).desk, id, s.peaks[id], at)
  {
    var d, e, draft := s.desk, Apply(c, s, Commit(i, now)).desk, s.held[i].draft;
    var q, w := RequestOf(draft, now), d.wallets[id].value;
    var m, p := d.links[w.link].merchant, d.links[w.link].rail;
    var (start, end) := DayBounds(c.capOffset, at);
    assert e.links == d.links && e.wallets == d.wallets && e.requests == d.requests + [q];
    assert HeldOk(d, draft) && HeldUnder(s, draft) && Within(c, d, id, s.peaks[id], at);
    assert e.requests[..|d.requests|] == d.requests;
    assert Consumed(e.requests, m, p, w.number, start, end)
        == Consumed(d.requests, m, p, w.number, start, end)
              + (if Counts(q, m, p, w.number, start, end) then q.amountIqd else 0);
    CommitIsFiled(c, d, draft, now);
    if Counts(q, m, p, w.number, start, end) {
      CommitFits(c, d, draft, now);
      PlaceIsUnique(d, id, draft.wallet.value.id, q);
      DayBoundsAreTheDay(c.capOffset, at, now);
      assert ConsumedIqd(d, draft.wallet.value.row, c.capOffset, now)
            == Consumed(d.requests, m, p, w.number, start, end);
    }
  }

  /** A commit adds its total to its own wallet's day and to no other day or wallet. */
  lemma CommitTakesItsTotal(c: Config, d: Tables, draft: Draft, now: int, id: nat, at: int)
    requires Structure(d) && HeldOk(d, draft) && CreateRequest(c, d, draft, now).Ok? && Live(d.wallets, id)
    ensures var e := CreateRequest(c, d, draft, now).value;
      var ours := draft.wallet.Some? && draft.wallet.value.id == id
            && DayBounds(c.capOffset, at) == DayBounds(c.capOffset, now);
      && e.links == d.links && e.wallets == d.wallets
      && ConsumedIqd(e, d.wallets[id].value, c.capOffset, at)
         == ConsumedIqd(d, d.wallets[id].value, c.capOffset, at) + (if ours then draft.quote.figures.total else 0)
  {
    var e, q, w := CreateRequest(c, d, draft, now).value, RequestOf(draft, now), d.wallets[id].value;
    var m, p := d.links[w.link].merchant, d.links[w.link].rail;
    var (start, end) := DayBounds(c.capOffset, at);
    assert e.requests == d.requests + [q] && e.requests[..|d.requests|] == d.requests;
    CommitIsFiled(c, d, draft, now);
    DayBoundsAreTheDay(c.capOffset, at, now);
    if Counts(q, m, p, w.number, start, end) {
      PlaceIsUnique(d, id, draft.wallet.value.id, q);
    }
    hide Recheck, FullClean;
  }

  lemma {:induction false} ConsumedMoves(rs: seq<Request>, k: nat, status: Status, m: nat, p: nat, n: string,
                                         start: int, end: int)
    requires k < |rs|
    ensures var moved := rs[k].(status := status);
      Consumed(rs[k := moved], m, p, n, start, end)
      == Consumed(rs, m, p, n, start, end)
         - (if Counts(rs[k], m, p, n, start, end) then rs[k].amountIqd else 0)
         + (if Counts(moved, m, p, n, start, end) then rs[k].amountIqd else 0)
  {
    var last, moved := |rs| - 1, rs[k].(status := status);
    if k == last {
      assert rs[k := moved][..last] == rs[..last];
    } else {
      ConsumedMoves(rs[..last], k, status, m, p, n, start, end);
      assert rs[k := moved][..last] == rs[..last][k := moved];
    }
  }

  /** Rejecting a request gives back exactly what it had taken, once; no other move
      of a status gives or takes anything. */
  lemma RejectionReleasesItsAmount(d: Tables, r: nat, status: Status, w: Wallet, offset: int, at: int)
    requires r < |d.requests| && w.link < |d.links|
    ensures var e := Perform(d, StatusMoved(r, status));
      var (start, end) := DayBounds(offset, at);
      var counted := Counts(d.requests[r], d.links[w.link].merchant, d.links[w.link].rail, w.number, start, end);
      && e.links == d.links
      && ConsumedIqd(e, w, offset, at)
         == ConsumedIqd(d, w, offset, at) - (if counted && status.Rejected? then d.requests[r].amountIqd else 0)
  {
    var (start, end) := DayBounds(offset, at);
    ConsumedMoves(d.requests, r, status, d.links[w.link].merchant, d.links[w.link].rail, w.number, start, end);
  }

  /** Two drafts that each passed when they were built, and cannot both fit: once one
      is committed, the other is refused for the rest of that day. */
  lemma TheRaceHasOneWinner(c: Config, s: Portal, i: nat, j: nat, now: int, later: int)
    requires Resolves(s) && i < |s.held| && j < |s.held|
    requires s.held[i].draft.wallet.Some? && s.held[j].draft.wallet.Some?
    requires s.held[i].draft.wallet.value.id == s.held[j].draft.wallet.value.id
    requires DayBounds(c.capOffset, later) == DayBounds(c.capOffset, now)
    requires var row := s.held[j].draft.wallet.value.row;
      && row.link < |s.desk.links| && row.dailyCap.Some?
      && 100 * (ConsumedIqd(s.desk, row, c.capOffset, now) + s.held[i].draft.quote.figures.total
                + s.held[j].draft.quote.figures.total)
           > row.dailyCap.value
    requires s.held[j].draft.quote.figures.total > 0
    requires CreateRequest(c, s.desk, s.held[i].draft, now).Ok?
    ensures var second := CreateRequest(c, Apply(c, s, Commit(i, now)).desk, s.held[j].draft, later);
      second.Refused? && second.error.WalletCapExceeded?
  {
    var d, e, q := s.desk, Apply(c, s, Commit(i, now)).desk, RequestOf(s.held[i].draft, now);
    var mine, row := s.held[i].draft.wallet.value, s.held[j].draft.wallet.value.row;
    assert HeldOk(d, s.held[i].draft) && HeldOk(d, s.held[j].draft);
    assert row.link == mine.row.link && row.number == mine.row.number;
    assert e.links == d.links && e.requests == d.requests + [q] && e.requests[..|d.requests|] == d.requests;
    DayBoundsAreTheDay(c.capOffset, now, now);
    assert ConsumedIqd(e, row, c.capOffset, later) == ConsumedIqd(d, row, c.capOffset, now) + q.amountIqd;
    AcceptsIff(e, row, s.held[j].draft.quote.figures.total, c.capOffset, later);
  }

  lemma CommitKeepsCaps(c: Config, s: Portal, i: nat, now: int)
    requires Structure(s.desk) && Resolves(s) && Capped(c, s)
    ensures Capped(c, Apply(c, s, Commit(i, now)))
  {
    var t := Apply(c, s, Commit(i, now));
    if i < |s.held| && CreateRequest(c, s.desk, s.held[i].draft, now).Ok? {
      forall id: nat, at: int | Live(t.desk.wallets, id)
        ensures Within(c, t.desk, id, t.peaks[id], at)
      {
        CommitStaysWithin(c, s, i, now, id, at);
      }
      assert t.desk.requests == s.desk.requests + [RequestOf(s.held[i].draft, now)];
      assert forall k :: 0 <= k < |t.held| ==> HeldUnder(s, s.held[k].draft);
    }
  }

  lemma BuildKeepsCaps(c: Config, s: Portal, client: nat, form: Form, now: int)
    requires Capped(c, s)
    ensures Capped(c, Apply(c, s, Build(client, form, now)))
  {
    hide BuildDraft;
    if BuildDraft(c, s.desk, client, form, now).Ok? {
      DraftIsConsented(c, s.desk, client, form, now);
      var draft := BuildDraft(c, s.desk, client, form, now).value;
      assert HeldUnder(s, draft) by {
        if draft.wallet.Some? {
          assert Live(s.desk.wallets, draft.wallet.value.id);
        }
      }
    }
  }

  // ------------------------------------------------------------------ runs --

  ghost predicate Sound(c: Config, s: Portal) {
    Structure(s.desk) && Resolves(s) && Capped(c, s)
  }

  lemma StepKeepsSound(c: Config, s: Portal, step: Step)
    requires Sound(c, s)
    ensures Sound(c, Apply(c, s, step))
  {
    StepKeepsStructure(c, s, step);
    StepKeepsReferences(c, s, step);
    match step {
      case Build(client, form, now) => BuildKeepsCaps(c, s, client, form, now);
      case Commit(i, now) => CommitKeepsCaps(c, s, i, now);
      case Operate(deed) => DeedKeepsCaps(c, s, deed);
    }
  }

  lemma OpeningIsSound(c: Config, methods: seq<PaymentMethod>)
    ensures Sound(c, Opening(methods))
  {
  }

  /** Any number of clients, drafts held across anything, caps moved freely: what a
      wallet took on any day is never above the highest cap it has had. */
  lemma {:induction false} DayNeverExceedsPeak(c: Config, s: Portal, steps: seq<Step>)
    requires Sound(c, s)
    ensures Sound(c, Run(c, s, steps))
    ensures var t := Run(c, s, steps);
      forall id: nat, at: int :: Live(t.desk.wallets, id) ==> Within(c, t.desk, id, t.peaks[id], at)
    decreases |steps|
  {
    if steps != [] {
      StepKeepsSound(c, s, steps[0]);
      DayNeverExceedsPeak(c, Apply(c, s, steps[0]), steps[1..]);
    }
  }

  /** Finance never lowers a cap along this run. */
  ghost predicate NeverLowers(c: Config, s: Portal, steps: seq<Step>)
    decreases |steps|
  {
    steps == [] || (Raises(s.desk, steps[0]) && NeverLowers(c, Apply(c, s, steps[0]), steps[1..]))
  }

  predicate Raises(d: Tables, step: Step) {
    step.Operate? && step.deed.CapSet? && Live(d.wallets, step.deed.wallet) ==>
      AtMost(d.wallets[step.deed.wallet].value.dailyCap, step.deed.cap)
  }

  ghost predicate PeaksAreCaps(s: Portal) {
    && |s.peaks| == |s.desk.wallets|
    && forall id: nat :: Live(s.desk.wallets, id) ==> s.peaks[id] == s.desk.wallets[id].value.dailyCap
  }

  lemma SavingMovesOneCap(wallets: seq<Option<Wallet>>, pk: Option<nat>, row: Wallet, now: int, id: nat)
    requires pk.Some? ==> pk.value < |wallets|
    requires Live(wallets, id)
    ensures var saved := SavedWallet(wallets, pk, row, now);
      Live(saved, id) && saved[id].value.dailyCap == if pk == Some(id) then row.dailyCap else wallets[id].value.dailyCap
  {
  }

  /** No other deed moves a cap. */
  lemma OnlyCapSetMovesCaps(d: Tables, deed: Deed, id: nat)
    requires Live(d.wallets, id) && Live(Perform(d, deed).wallets, id)
    ensures Perform(d, deed).wallets[id].value.dailyCap ==
            if deed.CapSet? && deed.wallet == id then deed.cap else d.wallets[id].value.dailyCap
  {
    hide SavedWallet, WasUsed, NumberClashes, SlotHolder, Superseded, Assigned;
    match deed
    case WalletCreated(link, number, cap, active, now) =>
      SavingMovesOneCap(d.wallets, None, Wallet(link, number, active, cap, now, None, None), now, id);
    case WalletActivated(w, now) =>
      if Live(d.wallets, w) {
        SavingMovesOneCap(d.wallets, Some(w), d.wallets[w].value.(isActive := true), now, id);
      }
    case WalletDeactivated(w, now) =>
      if Live(d.wallets, w) {
        SavingMovesOneCap(d.wallets, Some(w), StoodDown(d.wallets[w].value, now), now, id);
      }
    case CapSet(w, cap, now) =>
      if Live(d.wallets, w) {
        SavingMovesOneCap(d.wallets, Some(w), d.wallets[w].value.(dailyCap := cap), now, id);
      }
    case WalletRemoved(w, allowed, now) =>
      if Live(d.wallets, w) {
        SavingMovesOneCap(d.wallets, Some(w), Retired(d.wallets[w].value, now), now, id);
      }
    case _ =>
  }

  lemma RaisingKeepsPeaks(c: Config, s: Portal, step: Step)
    requires PeaksAreCaps(s) && Raises(s.desk, step)
    ensures PeaksAreCaps(Apply(c, s, step))
  {
    var t := Apply(c, s, step);
    if step.Operate? {
      DeedExtends(s.desk, step.deed);
      hide Perform;
      forall id: nat | Live(t.desk.wallets, id)
        ensures t.peaks[id] == t.desk.wallets[id].value.dailyCap
      {
        if id < |s.desk.wallets| {
          assert SameWallet(s.desk.wallets[id], t.desk.wallets[id]);
          OnlyCapSetMovesCaps(s.desk, step.deed, id);
        }
      }
    } else {
      hide BuildDraft;
    }
  }

  lemma {:induction false} PeaksStayCaps(c: Config, s: Portal, steps: seq<Step>)
    requires PeaksAreCaps(s) && NeverLowers(c, s, steps)
    ensures PeaksAreCaps(Run(c, s, steps))
    decreases |steps|
  {
    if steps != [] {
      RaisingKeepsPeaks(c, s, steps[0]);
      PeaksStayCaps(c, Apply(c, s, steps[0]), steps[1..]);
    }
  }

  /** While caps are not lowered, no local day's non-rejected deposits to a wallet ever
      sum above its cap, however the drafts and commits were interleaved. */
  lemma DayNeverExceedsCap(c: Config, s: Portal, steps: seq<Step>)
    requires Sound(c, s) && PeaksAreCaps(s) && NeverLowers(c, s, steps)
    ensures var d := Run(c, s, steps).desk;
      forall id: nat, at: int :: Live(d.wallets, id) ==> Within(c, d, id, d.wallets[id].value.dailyCap, at)
  {
    DayNeverExceedsPeak(c, s, steps);
    PeaksStayCaps(c, s, steps);
    hide Run, Within, ConsumedIqd, Structure, Resolves;
  }
}
