/** Requests go on pointing at wallets that exist, through every deletion. */
module References {
  import opened Basics
  import opened Pricing
  import opened Desk
  import opened Submissions
  import opened Operations
  import opened Runs
  import opened Slots

  /** The wallet exists and is the one the request's snapshot describes. */
  predicate PaysInto(d: Tables, id: nat, r: Request) {
    && Live(d.wallets, id) && d.wallets[id].value.link < |d.links|
    && FiledUnder(d, d.wallets[id].value, r)
  }

  /** Filed against this wallet by key, or by snapshot in the days before the key. */
  predicate FiledAgainst(d: Tables, id: nat, r: Request) {
    PaysInto(d, id, r) && (r.wallet == Some(id) || r.walletNumber != "")
  }

  ghost predicate Filed(d: Tables, r: Request) {
    && (r.wallet.Some? ==> PaysInto(d, r.wallet.value, r))
    && (r.kind.Deposit? ==> exists id: nat :: FiledAgainst(d, id, r))
  }

  /** A held draft's wallet row may be stale, but not in its place or its number. */
  predicate HeldOk(d: Tables, draft: Draft) {
    && draft.merchant < |d.merchants| && draft.rail < |d.methods|
    && (draft.kind.Deposit? <==> draft.wallet.Some?)
    && (draft.wallet.Some? ==>
          var held := draft.wallet.value;
          && held.id < |d.wallets|
          && SameWallet(Some(held.row), d.wallets[held.id])
          && held.row.link < |d.links|
          && d.links[held.row.link].merchant == draft.merchant
          && d.links[held.row.link].rail == draft.rail)
  }

  ghost predicate Resolves(s: Portal) {
    && (forall r :: 0 <= r < |s.desk.requests| ==> Filed(s.desk, s.desk.requests[r]))
    && (forall i :: 0 <= i < |s.held| ==> HeldOk(s.desk, s.held[i].draft))
  }

  ghost predicate DeletesOnlyUnused(d: Tables, e: Tables) {
    forall id: nat :: Live(d.wallets, id) && !Live(e.wallets, id) ==> id < |e.wallets| && !WasUsed(d, id)
  }

  lemma DeedDeletesOnlyUnused(d: Tables, deed: Deed)
    ensures DeletesOnlyUnused(d, Perform(d, deed))
  {
    hide SavedWallet, WasUsed, NumberClashes, SlotHolder, Superseded, Assigned;
    match deed
    case WalletCreated(link, number, cap, active, now) =>
      SavingExtends(d.wallets, None, Wallet(link, number, active, cap, now, None, None), now);
    case WalletActivated(id, now) =>
      if Live(d.wallets, id) {
        SavingExtends(d.wallets, Some(id), d.wallets[id].value.(isActive := true), now);
      }
    case WalletDeactivated(id, now) =>
      if Live(d.wallets, id) {
        SavingExtends(d.wallets, Some(id), StoodDown(d.wallets[id].value, now), now);
      }
    case CapSet(id, cap, now) =>
      if Live(d.wallets, id) {
        SavingExtends(d.wallets, Some(id), d.wallets[id].value.(dailyCap := cap), now);
      }
    case WalletRemoved(id, allowed, now) =>
      if Live(d.wallets, id) {
        SavingExtends(d.wallets, Some(id), Retired(d.wallets[id].value, now), now);
      }
    case _ =>
  }

  lemma StaysFiledAgainst(d: Tables, e: Tables, k: nat, id: nat)
    requires Extends(d, e) && DeletesOnlyUnused(d, e) && k < |d.requests|
    requires FiledAgainst(d, id, d.requests[k])
    ensures FiledAgainst(e, id, e.requests[k])
  {
    var r := d.requests[k];
    assert WasUsed(d, id) by {
      assert FiledUnder(d, d.wallets[id].value, r);
    }
    assert SameRequest(r, e.requests[k]) && SameWallet(d.wallets[id], e.wallets[id]);
  }

  lemma StaysFiled(d: Tables, e: Tables, k: nat)
    requires Extends(d, e) && DeletesOnlyUnused(d, e) && k < |d.requests|
    requires Filed(d, d.requests[k])
    ensures Filed(e, e.requests[k])
  {
    var r := d.requests[k];
    if r.wallet.Some? {
      StaysFiledAgainst(d, e, k, r.wallet.value);
    }
    if r.kind.Deposit? {
      var id: nat :| FiledAgainst(d, id, r);
      StaysFiledAgainst(d, e, k, id);
    }
    assert SameRequest(r, e.requests[k]);
  }

  lemma StaysHeld(d: Tables, e: Tables, draft: Draft)
    requires Extends(d, e) && HeldOk(d, draft)
    ensures HeldOk(e, draft)
  {
    if draft.wallet.Some? {
      assert SameWallet(d.wallets[draft.wallet.value.id], e.wallets[draft.wallet.value.id]);
    }
  }

  /** A committed draft is filed against the very wallet it holds: had that wallet been
      deleted in the meantime, `full_clean` would have refused. */
  lemma CommitIsFiled(c: Config, d: Tables, draft: Draft, now: int)
    requires HeldOk(d, draft) && CreateRequest(c, d, draft, now).Ok?
    ensures Filed(d, RequestOf(draft, now))
    ensures draft.wallet.Some? ==> FiledAgainst(d, draft.wallet.value.id, RequestOf(draft, now))
  {
    hide Recheck, Headroom;
    if draft.wallet.Some? {
      assert FiledAgainst(d, draft.wallet.value.id, RequestOf(draft, now));
    }
  }

  lemma BuiltIsHeld(c: Config, d: Tables, client: nat, form: Form, now: int)
    requires BuildDraft(c, d, client, form, now).Ok?
    ensures HeldOk(d, BuildDraft(c, d, client, form, now).value)
  {
    hide BuildDraft;
    DraftIsConsented(c, d, client, form, now);
    DraftsPairStands(c, d, client, form, now);
  }

  lemma StepKeepsReferences(c: Config, s: Portal, step: Step)
    requires Resolves(s)
    ensures Resolves(Apply(c, s, step))
  {
    var t := Apply(c, s, step);
    StepExtends(c, s, step);
    match step {
      case Build(client, form, now) =>
        if BuildDraft(c, s.desk, client, form, now).Ok? {
          BuiltIsHeld(c, s.desk, client, form, now);
        }
      case Commit(i, now) =>
        if i < |s.held| && CreateRequest(c, s.desk, s.held[i].draft, now).Ok? {
          CommitIsFiled(c, s.desk, s.held[i].draft, now);
          CommitKeepsFiled(s.desk, t.desk, RequestOf(s.held[i].draft, now));
        }
      case Operate(deed) =>
        DeedDeletesOnlyUnused(s.desk, deed);
        forall k | 0 <= k < |t.desk.requests|
          ensures Filed(t.desk, t.desk.requests[k])
        {
          assert |t.desk.requests| == |s.desk.requests|;
          StaysFiled(s.desk, t.desk, k);
        }
    }
    hide Apply, Perform, CreateRequest, BuildDraft;
    forall i | 0 <= i < |s.held|
      ensures HeldOk(t.desk, s.held[i].draft)
    {
      StaysHeld(s.desk, t.desk, s.held[i].draft);
    }
  }

  lemma CommitKeepsFiled(d: Tables, e: Tables, r: Request)
    requires Extends(d, e) && e.wallets == d.wallets && e.links == d.links && e.requests == d.requests + [r]
    requires Filed(d, r)
    requires forall k :: 0 <= k < |d.requests| ==> Filed(d, d.requests[k])
    ensures forall k :: 0 <= k < |e.requests| ==> Filed(e, e.requests[k])
  {
    forall k | 0 <= k < |e.requests|
      ensures Filed(e, e.requests[k])
    {
      var q := e.requests[k];
      assert q == r || q == d.requests[k];
      assert Filed(d, q);
      if q.kind.Deposit? {
        var id: nat :| FiledAgainst(d, id, q);
        assert FiledAgainst(e, id, q);
      }
    }
  }

  /** Through every interleaving, whatever drafts are held meanwhile, a request that
      names a wallet names one that exists and is the one it was paid into. */
  lemma {:induction false} ReferencesResolve(c: Config, s: Portal, steps: seq<Step>)
    requires Resolves(s)
    ensures Resolves(Run(c, s, steps))
    ensures var d := Run(c, s, steps).desk;
      forall r :: 0 <= r < |d.requests| && d.requests[r].wallet.Some? ==>
            PaysInto(d, d.requests[r].wallet.value, d.requests[r])
    decreases |steps|
  {
    if steps != [] {
      StepKeepsReferences(c, s, steps[0]);
      ReferencesResolve(c, Apply(c, s, steps[0]), steps[1..]);
    }
  }

  /** Removal deletes exactly the wallets nothing was ever filed against and archives
      the rest; and a deleted wallet's key is never named again. */
  lemma DeletedWasNeverUsed(c: Config, s: Portal, id: nat, now: int, later: seq<Step>)
    requires Resolves(s) && Structure(s.desk)
    requires Live(s.desk.wallets, id) && s.desk.wallets[id].value.archivedAt.None?
    ensures var used := exists k :: 0 <= k < |s.desk.requests| && FiledAgainst(s.desk, id, s.desk.requests[k]);
      var t := Apply(c, s, Operate(WalletRemoved(id, true, now)));
      && (used <==> Live(t.desk.wallets, id))
      && (used ==> t.desk.wallets[id].value.archivedAt == Some(now) && !t.desk.wallets[id].value.isActive)
      && (!used ==>
            && !Live(Run(c, t, later).desk.wallets, id)
            && forall r :: 0 <= r < |Run(c, t, later).desk.requests| ==>
                  Run(c, t, later).desk.requests[r].wallet != Some(id))
  {
    var d, step := s.desk, Operate(WalletRemoved(id, true, now));
    var t := Apply(c, s, step);
    var used := exists k :: 0 <= k < |d.requests| && FiledAgainst(d, id, d.requests[k]);
    assert WasUsed(d, id) <==> used by {
      UsedIffFiledAgainst(s, id);
    }
    StepKeepsReferences(c, s, step);
    ReferencesResolve(c, t, later);
    NothingIsRewritten(c, t, later);
    hide Run, BuildDraft, WasUsed;
    if !used {
      assert t.desk.wallets[id].None?;
      assert SameWallet(t.desk.wallets[id], Run(c, t, later).desk.wallets[id]);
    }
  }

  /** `was_used`, where every key resolves. */
  lemma UsedIffFiledAgainst(s: Portal, id: nat)
    requires Resolves(s) && Structure(s.desk) && Live(s.desk.wallets, id)
    ensures WasUsed(s.desk, id)
          <==> exists k :: 0 <= k < |s.desk.requests| && FiledAgainst(s.desk, id, s.desk.requests[k])
  {
    var d := s.desk;
    if WasUsed(d, id) {
      if k :| 0 <= k < |d.requests| && d.requests[k].wallet == Some(id) {
        assert Filed(d, d.requests[k]);
        assert FiledAgainst(d, id, d.requests[k]);
      } else {
        var k :| 0 <= k < |d.requests| && FiledUnder(d, d.wallets[id].value, d.requests[k]);
        assert FiledAgainst(d, id, d.requests[k]);
      }
    }
    if k :| 0 <= k < |d.requests| && FiledAgainst(d, id, d.requests[k]) {
      assert FiledUnder(d, d.wallets[id].value, d.requests[k]);
    }
  }

  lemma OnlyStatusesMove(d: Tables, deed: Deed)
    requires !deed.StatusMoved?
    ensures Perform(d, deed).requests == d.requests
  {
  }

  /** What a held draft can be stopped by.  Between being accepted and being committed,
      a merchant may be archived, a link or a wallet switched off, a cap lowered, a new
      rate entered: none of it is looked at again.  After any run at all, with any
      number of other clients' commits in it, the draft is stored exactly when its
      figures fit their columns, the wallet it holds has not been deleted, and the
      day's total with its own stays under the cap it was built with. */
  lemma HeldDraftCommitsIff(c: Config, s: Portal, steps: seq<Step>, i: nat, now: int)
    requires Resolves(s) && i < |s.held|
    ensures var d, draft := Run(c, s, steps).desk, s.held[i].draft;
      && HeldOk(d, draft)
      && (CreateRequest(c, d, draft, now).Ok? <==>
            && FitsColumns(draft)
            && (draft.wallet.Some? ==>
                  && Live(d.wallets, draft.wallet.value.id)
                  && RoomUnder(c, d, draft.wallet.value.row, draft.quote.figures.total, now)))
  {
    hide Run, Filed;
    var d, draft := Run(c, s, steps).desk, s.held[i].draft;
    NothingIsRewritten(c, s, steps);
    StaysHeld(s.desk, d, draft);
    CommitsIff(c, d, draft, now);
  }

  /** The day's total with this one added, against a cap as it was read. */
  predicate RoomUnder(c: Config, d: Tables, row: Wallet, total: int, now: int)
    requires row.link < |d.links|
  {
    row.dailyCap.Some? ==> 100 * (ConsumedIqd(d, row, c.capOffset, now) + total) <= row.dailyCap.value
  }

  lemma CommitsIff(c: Config, d: Tables, draft: Draft, now: int)
    requires HeldOk(d, draft)
    ensures CreateRequest(c, d, draft, now).Ok? <==>
            && FitsColumns(draft)
            && (draft.wallet.Some? ==>
                  && Live(d.wallets, draft.wallet.value.id)
                  && RoomUnder(c, d, draft.wallet.value.row, draft.quote.figures.total, now))
  {
    if draft.wallet.Some? && FitsColumns(draft) {
      AcceptsIff(d, draft.wallet.value.row, draft.quote.figures.total, c.capOffset, now);
    }
    hide ConsumedIqd;
  }

  /** So of any one thing Finance may do, only deleting its wallet turns a commit that
      would have been stored into a refusal. */
  lemma OnlyDeletionStopsADraft(c: Config, d: Tables, deed: Deed, draft: Draft, now: int)
    requires HeldOk(d, draft) && !deed.StatusMoved?
    ensures CreateRequest(c, Perform(d, deed), draft, now).Ok? <==>
            && CreateRequest(c, d, draft, now).Ok?
            && (draft.wallet.Some? ==> Live(Perform(d, deed).wallets, draft.wallet.value.id))
  {
    hide Perform, FitsColumns, Consumed, CreateRequest;
    var e := Perform(d, deed);
    DeedExtends(d, deed);
    OnlyStatusesMove(d, deed);
    StaysHeld(d, e, draft);
    CommitsIff(c, d, draft, now);
    CommitsIff(c, e, draft, now);
    if draft.wallet.Some? {
      var held := draft.wallet.value;
      assert SameWallet(d.wallets[held.id], e.wallets[held.id]);
      assert e.links[held.row.link].merchant == d.links[held.row.link].merchant
          && e.links[held.row.link].rail == d.links[held.row.link].rail;
      assert ConsumedIqd(e, held.row, c.capOffset, now) == ConsumedIqd(d, held.row, c.capOffset, now);
    }
  }
}
