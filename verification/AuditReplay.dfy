/** The audit log replays to the state. */
module AuditReplay {
  import opened Basics
  import opened Desk
  import opened Submissions
  import opened Operations
  import opened Runs
  import opened Slots

  datatype RowState = RowState(isActive: bool, archivedAt: Option<int>)

  /** An entry sets the keys its `after` carries and leaves the others. */
  function Advance(state: Option<RowState>, after: Snapshot): Option<RowState> {
    var was := if state.Some? then state.value else RowState(false, None);
    if after.isActive.None? && after.archivedAt.None? then state
    else Some(RowState(if after.isActive.Some? then after.isActive.value else was.isActive,
                       if after.archivedAt.Some? then after.archivedAt.value else was.archivedAt))
  }

  /** The fold of one object's entries, in order. */
  function Replay(log: seq<AuditEntry>, target: Target): Option<RowState> {
    if log == [] then None
    else
      var before, last := Replay(log[..|log| - 1], target), log[|log| - 1];
      if last.target == target then Advance(before, last.after) else before
  }

  lemma Snoc(log: seq<AuditEntry>, e: AuditEntry, target: Target)
    ensures Replay(log + [e], target) ==
            if e.target == target then Advance(Replay(log, target), e.after) else Replay(log, target)
  {
    assert (log + [e])[..|log|] == log;
  }

  /** What the tables say of an object now. */
  function WalletState(w: Wallet): RowState {
    RowState(w.isActive, w.archivedAt)
  }

  ghost predicate WalletsReplay(log: seq<AuditEntry>, wallets: seq<Option<Wallet>>) {
    forall i: nat :: if i < |wallets| then wallets[i].Some? ==>
          Replay(log, WalletRow(i)) == Some(WalletState(wallets[i].value))
                     else Replay(log, WalletRow(i)) == None
  }

  ghost predicate MerchantsReplay(log: seq<AuditEntry>, merchants: seq<Merchant>) {
    forall i: nat :: Replay(log, MerchantRow(i)) ==
                     if i < |merchants| then Some(RowState(merchants[i].isActive, merchants[i].archivedAt)) else None
  }

  ghost predicate LinksReplay(log: seq<AuditEntry>, links: seq<MerchantMethod>) {
    forall i: nat :: Replay(log, LinkRow(i)) == if i < |links| then Some(RowState(links[i].isActive, None)) else None
  }

  // ---------------------------------------------------------------- chains --

  /** The entries a row's own actions write, wallet deletions apart: those are filed
      under the merchant and carry the wallet's figures. */
  predicate Own(e: AuditEntry) {
    match e.target
    case WalletRow(_) => e.action.WalletChange?
    case MerchantRow(_) => e.action.MerchantChange?
    case LinkRow(_) => e.action.MerchantChange?
    case _ => false
  }

  /** A `before` carries nothing the replay so far would not give. */
  predicate Meets(before: Option<Snapshot>, state: Option<RowState>) {
    && (before.None? <==> state.None?)
    && (before.Some? ==>
          && (before.value.isActive.Some? ==> before.value.isActive.value == state.value.isActive)
          && (before.value.archivedAt.Some? ==> before.value.archivedAt.value == state.value.archivedAt))
  }

  predicate Links(log: seq<AuditEntry>, k: nat)
    requires k < |log|
  {
    Own(log[k]) ==> Meets(log[k].before, Replay(log[..k], log[k].target))
  }

  ghost predicate Chained(log: seq<AuditEntry>) {
    forall k :: 0 <= k < |log| ==> Links(log, k)
  }

  lemma ChainedSnoc(log: seq<AuditEntry>, e: AuditEntry)
    requires Chained(log)
    requires Own(e) ==> Meets(e.before, Replay(log, e.target))
    ensures Chained(log + [e])
  {
    var longer := log + [e];
    forall k | 0 <= k < |longer|
      ensures Links(longer, k)
    {
      if k < |log| {
        assert Links(log, k);
        assert longer[..k] == log[..k];
      } else {
        assert longer[..k] == log;
      }
    }
  }

  ghost predicate Replays(d: Tables) {
    && WalletsReplay(d.audit, d.wallets)
    && MerchantsReplay(d.audit, d.merchants)
    && LinksReplay(d.audit, d.links)
    && Chained(d.audit)
  }

  // ----------------------------------------------------------------- deeds --

  /** An entry moves the replay of its own target and of nothing else. */
  lemma OnlyItsTarget(log: seq<AuditEntry>, e: AuditEntry)
    ensures forall t: Target :: t != e.target ==> Replay(log + [e], t) == Replay(log, t)
    ensures Replay(log + [e], e.target) == Advance(Replay(log, e.target), e.after)
  {
    Snoc(log, e, e.target);
    forall t: Target | t != e.target
      ensures Replay(log + [e], t) == Replay(log, t)
    {
      Snoc(log, e, t);
    }
  }

  /** One entry about one wallet, moving it to where the tables now have it. */
  lemma WalletEntryReplays(d: Tables, e: Tables, entry: AuditEntry, id: nat)
    requires Replays(d)
    requires e.merchants == d.merchants && e.links == d.links && e.audit == d.audit + [entry]
    requires entry.target == WalletRow(id) && Meets(entry.before, Replay(d.audit, WalletRow(id)))
    requires |e.wallets| >= |d.wallets| && id < |e.wallets| <= |d.wallets| + 1
          && (|e.wallets| == |d.wallets| + 1 ==> id == |d.wallets|)
    requires forall i :: 0 <= i < |d.wallets| && i != id && e.wallets[i].Some? ==>
               d.wallets[i].Some? && WalletState(e.wallets[i].value) == WalletState(d.wallets[i].value)
    requires e.wallets[id].Some?
          && Advance(Replay(d.audit, WalletRow(id)), entry.after) == Some(WalletState(e.wallets[id].value))
    ensures Replays(e)
  {
    OnlyItsTarget(d.audit, entry);
    ChainedSnoc(d.audit, entry);
    hide Replay, Chained;
  }

  /** The row `save` writes, and the sibling it stands down, each as its own entry. */
  lemma SavingReplays(d: Tables, e: Tables, pk: Option<nat>, row: Wallet, now: int, entry: AuditEntry)
    requires Replays(d) && WalletsOk(d.wallets, |d.links|) && Saveable(d.wallets, pk, row)
    requires e.merchants == d.merchants && e.links == d.links && e.wallets == SavedWallet(d.wallets, pk, row, now)
    requires entry.target == WalletRow(KeyOf(d.wallets, pk)) && Meets(entry.before, Replay(d.audit, entry.target))
    requires Advance(Replay(d.audit, entry.target), entry.after) == Some(WalletState(row))
    requires var previous := SlotHolder(d.wallets, row.link);
      e.audit == d.audit + [entry]
            + Superseded(if row.isActive && previous != pk then previous else None, KeyOf(d.wallets, pk))
    ensures Replays(e)
  {
    var id, previous := KeyOf(d.wallets, pk), SlotHolder(d.wallets, row.link);
    var saved := if pk.Some? then d.wallets[id := Some(Dated(row, now))] else d.wallets + [Some(Dated(row, now))];
    var between := d.(wallets := saved, audit := d.audit + [entry]);
    WalletEntryReplays(d, between, entry, id);
    forall i: nat
      ensures Holds(d.wallets, i, row.link, true) <==> previous == Some(i)
    {
      HolderIs(d.wallets, |d.links|, row.link, i);
    }
    hide SlotHolder, Replay, Replays, WalletsOk;
    if row.isActive && previous != pk && previous.Some? {
      var p := previous.value;
      var second := WalletEntry(p, Some(Activity(true)), Activity(false), SupersededBy(id));
      assert Replay(between.audit, WalletRow(p)) == Some(WalletState(saved[p].value)) by {
        assert Replays(between);
      }
      assert forall i :: 0 <= i < |saved| && i != p ==> e.wallets[i] == saved[i];
      WalletEntryReplays(between, e, second, p);
    } else {
      assert e.wallets == saved;
      assert e.audit == between.audit;
      ReplaysOnly(between, e);
    }
  }

  lemma ReplaysOnly(d: Tables, e: Tables)
    requires Replays(d) && e.merchants == d.merchants && e.links == d.links && e.wallets == d.wallets
          && e.audit == d.audit
    ensures Replays(e)
  {
  }

  lemma WalletDeedReplays(d: Tables, deed: Deed)
    requires Replays(d) && Structure(d)
    requires deed.WalletCreated? || deed.WalletActivated? || deed.WalletDeactivated? || deed.CapSet?
    ensures Replays(Perform(d, deed))
  {
    hide SavedWallet, SlotHolder, NumberClashes, Replay, Chained, LinksOk, WasUsed;
    var e := Perform(d, deed);
    match deed
    case WalletCreated(link, number, cap, active, now) =>
      if link < |d.links| && !NumberClashes(d.wallets, link, number) {
        SavingReplays(d, e, None, Wallet(link, number, active, cap, now, None, None), now,
                      WalletEntry(|d.wallets|, None, Full(active, None), Plainly));
      }
    case WalletActivated(id, now) =>
      if Live(d.wallets, id) {
        var w := d.wallets[id].value;
        HolderIs(d.wallets, |d.links|, w.link, id);
        if SlotHolder(d.wallets, w.link) != Some(id) {
          SavingReplays(d, e, Some(id), w.(isActive := true), now,
                        WalletEntry(id, Some(Activity(false)), Activity(true), Replaced));
        }
      }
    case WalletDeactivated(id, now) =>
      if Live(d.wallets, id) && d.wallets[id].value.isActive {
        SavingReplays(d, e, Some(id), StoodDown(d.wallets[id].value, now), now,
                      WalletEntry(id, Some(Activity(true)), Activity(false), Manual));
      }
    case CapSet(id, cap, now) =>
      if Live(d.wallets, id) {
        var w := d.wallets[id].value;
        HolderIs(d.wallets, |d.links|, w.link, id);
        SavingReplays(d, e, Some(id), w.(dailyCap := cap), now,
                      WalletEntry(id, Some(Full(w.isActive, w.archivedAt)), Full(w.isActive, w.archivedAt), Plainly));
      }
  }

  /** An entry that carries no state moves no replay. */
  lemma SilentEntryReplays(d: Tables, e: Tables, entry: AuditEntry)
    requires Replays(d) && !Own(entry) && entry.after == Snapshot(None, None)
    requires e.merchants == d.merchants && e.links == d.links && e.audit == d.audit + [entry]
    requires |e.wallets| == |d.wallets| && forall i :: 0 <= i < |d.wallets| ==>
          e.wallets[i].None? || e.wallets[i] == d.wallets[i]
    ensures Replays(e)
  {
    OnlyItsTarget(d.audit, entry);
    ChainedSnoc(d.audit, entry);
    hide Replay, Chained;
  }

  lemma RemovalReplays(d: Tables, id: nat, allowed: bool, now: int)
    requires Replays(d) && Structure(d)
    ensures Replays(Perform(d, WalletRemoved(id, allowed, now)))
  {
    hide SavedWallet, SlotHolder, Replay, Chained, LinksOk, WasUsed;
    var e := Perform(d, WalletRemoved(id, allowed, now));
    if allowed && Live(d.wallets, id) && d.wallets[id].value.archivedAt.None? {
      var w := d.wallets[id].value;
      var before := Some(Full(w.isActive, w.archivedAt));
      if WasUsed(d, id) {
        SavingReplays(d, e, Some(id), Retired(w, now), now,
                      WalletEntry(id, before, Full(false, Some(now)), HasRequests));
      } else {
        SilentEntryReplays(d, e,
                           AuditEntry(WalletChange, MerchantRow(d.links[w.link].merchant), before, Snapshot(None, None),
                                      NeverUsed(id)));
      }
    }
  }

  lemma MerchantEntryReplays(d: Tables, e: Tables, entry: AuditEntry, m: nat)
    requires Replays(d)
    requires e.wallets == d.wallets && e.links == d.links && e.audit == d.audit + [entry]
    requires entry.target == MerchantRow(m) && Meets(entry.before, Replay(d.audit, MerchantRow(m)))
    requires m <= |d.merchants|
    requires if m < |d.merchants| then |e.merchants| == |d.merchants| else |e.merchants| == |d.merchants| + 1
    requires forall i :: 0 <= i < |d.merchants| && i != m ==> e.merchants[i] == d.merchants[i]
    requires Advance(Replay(d.audit, MerchantRow(m)), entry.after)
          == Some(RowState(e.merchants[m].isActive, e.merchants[m].archivedAt))
    ensures Replays(e)
  {
    OnlyItsTarget(d.audit, entry);
    ChainedSnoc(d.audit, entry);
    hide Replay, Chained;
  }

  lemma LinkEntryReplays(d: Tables, e: Tables, entry: AuditEntry, l: nat)
    requires Replays(d)
    requires e.wallets == d.wallets && e.merchants == d.merchants && e.audit == d.audit + [entry]
    requires entry.target == LinkRow(l) && Meets(entry.before, Replay(d.audit, LinkRow(l)))
    requires l <= |d.links|
    requires if l < |d.links| then |e.links| == |d.links| else |e.links| == |d.links| + 1
    requires forall i :: 0 <= i < |d.links| && i != l ==> e.links[i] == d.links[i]
    requires Advance(Replay(d.audit, LinkRow(l)), entry.after) == Some(RowState(e.links[l].isActive, None))
    ensures Replays(e)
  {
    OnlyItsTarget(d.audit, entry);
    ChainedSnoc(d.audit, entry);
    hide Replay, Chained;
  }

  lemma MerchantDeedReplays(d: Tables, deed: Deed)
    requires Replays(d)
    requires deed.MerchantCreated? || deed.MerchantToggled? || deed.MerchantArchived? || deed.MerchantRestored?
    ensures Replays(Perform(d, deed))
  {
    hide Replay, Chained, WalletsReplay, LinksReplay;
    var e := Perform(d, deed);
    if e != d {
      var m := if deed.MerchantCreated? then |d.merchants| else deed.merchant;
      MerchantEntryReplays(d, e, e.audit[|d.audit|], m);
    }
  }

  lemma LinkDeedReplays(d: Tables, deed: Deed)
    requires Replays(d)
    requires deed.MethodAssigned? || deed.LinkToggled?
    ensures Replays(Perform(d, deed))
  {
    hide Replay, Chained, WalletsReplay, MerchantsReplay, Assigned;
    var e := Perform(d, deed);
    if e != d {
      LinkEntryReplays(d, e, e.audit[|d.audit|], if deed.MethodAssigned? then |d.links| else deed.link);
    }
  }

  lemma StepReplays(c: Config, s: Portal, step: Step)
    requires Structure(s.desk) && Replays(s.desk)
    ensures Replays(Apply(c, s, step).desk)
  {
    var d, e := s.desk, Apply(c, s, step).desk;
    hide BuildDraft, Replays, Recheck, FullClean, RequestOf;
    match step {
      case Build(_, _, _) =>
      case Commit(_, _) =>
        if e != d {
          SilentEntryReplays(d, e, e.audit[|d.audit|]);
        }
      case Operate(deed) =>
        match deed {
          case WalletRemoved(id, allowed, now) => RemovalReplays(d, id, allowed, now);
          case RateAdded(_, _) => SilentEntryReplays(d, e, e.audit[|d.audit|]);
          case StatusMoved(_, _) => ReplaysOnly(d, e);
          case WalletCreated(_, _, _, _, _) => WalletDeedReplays(d, deed);
          case WalletActivated(_, _) => WalletDeedReplays(d, deed);
          case WalletDeactivated(_, _) => WalletDeedReplays(d, deed);
          case CapSet(_, _, _) => WalletDeedReplays(d, deed);
          case MethodAssigned(_, _, _) => LinkDeedReplays(d, deed);
          case LinkToggled(_) => LinkDeedReplays(d, deed);
          case _ => MerchantDeedReplays(d, deed);
        }
    }
  }

  /** In every reachable state the entries about a wallet, a merchant or a link fold to
      the state it is in, and each entry's `before` is what its predecessors fold to. */
  lemma {:induction false} LogReplaysToState(c: Config, s: Portal, steps: seq<Step>)
    requires Structure(s.desk) && Replays(s.desk)
    ensures Replays(Run(c, s, steps).desk)
    decreases |steps|
  {
    if steps != [] {
      StepKeepsStructure(c, s, steps[0]);
      StepReplays(c, s, steps[0]);
      LogReplaysToState(c, Apply(c, s, steps[0]), steps[1..]);
    }
  }

  lemma OpeningReplays(methods: seq<PaymentMethod>)
    ensures Structure(Opening(methods).desk) && Replays(Opening(methods).desk)
  {
  }

  // ----------------------------------------------------------------- flips --

  /** Where the fold changes, some entry since is the one that says so. */
  lemma {:induction false} SomeEntrySaysSo(log: seq<AuditEntry>, from: nat, target: Target)
    requires from <= |log| && Replay(log[..from], target).Some?
    ensures Replay(log, target).Some?
    ensures Replay(log, target).value.isActive != Replay(log[..from], target).value.isActive ==>
              exists k :: from <= k < |log| && log[k].target == target
                    && log[k].after.isActive == Some(Replay(log, target).value.isActive)
  {
    if from == |log| {
      assert log[..from] == log;
    } else {
      var init := log[..|log| - 1];
      assert init[..from] == log[..from];
      SomeEntrySaysSo(init, from, target);
      if k :| from <= k < |init| && init[k].target == target
            && init[k].after.isActive == Some(Replay(init, target).value.isActive) {
        assert log[k] == init[k];
      }
    }
  }

  /** No wallet is switched silently: not even one stood down because another was
      activated, created active, or archived. */
  lemma EveryFlipIsLogged(c: Config, s: Portal, steps: seq<Step>, id: nat)
    requires Structure(s.desk) && Replays(s.desk)
    requires Live(s.desk.wallets, id) && Live(Run(c, s, steps).desk.wallets, id)
    requires Run(c, s, steps).desk.wallets[id].value.isActive != s.desk.wallets[id].value.isActive
    ensures var t := Run(c, s, steps).desk;
      exists k :: |s.desk.audit| <= k < |t.audit| && t.audit[k].target == WalletRow(id)
               && t.audit[k].after.isActive == Some(t.wallets[id].value.isActive)
  {
    LogReplaysToState(c, s, steps);
    NothingIsRewritten(c, s, steps);
    var t := Run(c, s, steps).desk;
    hide Run, Chained, MerchantsReplay, LinksReplay, Structure;
    assert t.audit[..|s.desk.audit|] == s.desk.audit;
    SomeEntrySaysSo(t.audit, |s.desk.audit|, WalletRow(id));
  }

  /** Why the chain is read by action: a deletion is filed under the merchant with the
      wallet's figures.  It always continues the chain of the wallet it ends, and the
      merchant's own only by coincidence. */
  lemma DeletionContinuesTheMerchantIff(d: Tables, id: nat, now: int)
    requires Structure(d) && Replays(d) && Live(d.wallets, id)
    requires d.wallets[id].value.archivedAt.None? && !WasUsed(d, id)
    ensures var w, e := d.wallets[id].value, Perform(d, WalletRemoved(id, true, now));
      var m := d.links[w.link].merchant;
      && |e.audit| == |d.audit| + 1
      && e.audit[|d.audit|].target == MerchantRow(m)
      && Meets(e.audit[|d.audit|].before, Replay(d.audit, WalletRow(id)))
      && (Meets(e.audit[|d.audit|].before, Replay(d.audit, MerchantRow(m)))
          <==> d.merchants[m].isActive == w.isActive && d.merchants[m].archivedAt.None?)
  {
    hide WasUsed, Replay, Chained, LinksReplay;
  }
}
