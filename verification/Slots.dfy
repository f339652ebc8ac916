/** One active wallet for each payment method of a merchant. */
module Slots {
  import opened Basics
  import opened Pricing
  import opened Desk
  import opened Submissions
  import opened Operations
  import opened Runs

  /** A wallet is dated exactly while it stands down. */
  predicate Dates(w: Wallet) {
    w.isActive <==> w.deactivatedAt.None?
  }

  /** Two wallets of one link are never both active, and never share a number. */
  predicate Apart(w: Wallet, v: Wallet) {
    w.link == v.link ==> !(w.isActive && v.isActive) && w.number != v.number
  }

  ghost predicate WalletsOk(wallets: seq<Option<Wallet>>, links: nat) {
    && (forall i: nat :: Live(wallets, i) ==> wallets[i].value.link < links && Dates(wallets[i].value))
    && (forall i: nat, j: nat :: i != j && Live(wallets, i) && Live(wallets, j) ==>
        Apart(wallets[i].value, wallets[j].value))
  }

  ghost predicate LinksOk(d: Tables) {
    && (forall l :: 0 <= l < |d.links| ==> d.links[l].merchant < |d.merchants| && d.links[l].rail < |d.methods|)
    && UniquePairs(d.links)
  }

  ghost predicate Structure(d: Tables) {
    LinksOk(d) && WalletsOk(d.wallets, |d.links|)
  }

  /** With one active wallet a link, whoever is active is who is found. */
  lemma NewestIs(wallets: seq<Option<Wallet>>, links: nat, link: nat, archivedToo: bool, id: nat)
    requires WalletsOk(wallets, links)
    ensures Newest(wallets, link, archivedToo) == Some(id) <==> Holds(wallets, id, link, archivedToo)
  {
    var found := Newest(wallets, link, archivedToo);
    if Holds(wallets, id, link, archivedToo) {
      assert found.value == id || Apart(wallets[id].value, wallets[found.value].value);
    }
  }

  lemma HolderIs(wallets: seq<Option<Wallet>>, links: nat, link: nat, id: nat)
    requires WalletsOk(wallets, links)
    ensures SlotHolder(wallets, link) == Some(id) <==> Holds(wallets, id, link, true)
  {
    NewestIs(wallets, links, link, true, id);
  }

  /** `Wallet.save`, of a new row or of an edited one that keeps its place. */
  predicate Saveable(wallets: seq<Option<Wallet>>, pk: Option<nat>, row: Wallet) {
    match pk
    case None => !NumberClashes(wallets, row.link, row.number)
    case Some(id) => Live(wallets, id) && wallets[id].value.link == row.link && wallets[id].value.number == row.number
  }

  function KeyOf(wallets: seq<Option<Wallet>>, pk: Option<nat>): nat {
    if pk.Some? then pk.value else |wallets|
  }

  lemma SavingKeepsWallets(wallets: seq<Option<Wallet>>, links: nat, pk: Option<nat>, row: Wallet, now: int)
    requires WalletsOk(wallets, links) && row.link < links && Saveable(wallets, pk, row)
    ensures WalletsOk(SavedWallet(wallets, pk, row, now), links)
  {
    var saved, key := SavedWallet(wallets, pk, row, now), KeyOf(wallets, pk);
    assert Live(saved, key) && saved[key].value == Dated(row, now);
    forall j: nat | j != key && Live(saved, j)
      ensures Apart(saved[key].value, saved[j].value) && Live(wallets, j)
      ensures saved[j].value.link == wallets[j].value.link && saved[j].value.number == wallets[j].value.number
      ensures saved[j].value.isActive ==> wallets[j].value.isActive
    {
      if pk.Some? {
        assert Apart(wallets[key].value, wallets[j].value);
      }
    }
    forall i: nat, j: nat | i != j && Live(saved, i) && Live(saved, j)
      ensures Apart(saved[i].value, saved[j].value)
    {
      if i != key && j != key {
        assert Apart(wallets[i].value, wallets[j].value);
      }
    }
  }

  lemma SavedHolds(wallets: seq<Option<Wallet>>, links: nat, pk: Option<nat>, row: Wallet, now: int, link: nat, id: nat)
    requires WalletsOk(wallets, links) && Saveable(wallets, pk, row)
    ensures Holds(SavedWallet(wallets, pk, row, now), id, link, true) <==>
            if id == KeyOf(wallets, pk) then row.isActive && link == row.link
            else Holds(wallets, id, link, true) && !(row.isActive && link == row.link)
  {
  }

  /** A wallet saved active is the one its link shows from then on; one saved inactive
      leaves the slot empty if it held it; no other link is touched. */
  lemma SavingMovesOneSlot(wallets: seq<Option<Wallet>>, links: nat, pk: Option<nat>, row: Wallet, now: int, link: nat)
    requires WalletsOk(wallets, links) && row.link < links && Saveable(wallets, pk, row)
    ensures var before, after := SlotHolder(wallets, link), SlotHolder(SavedWallet(wallets, pk, row, now), link);
      after == if link != row.link then before
               else if row.isActive then Some(KeyOf(wallets, pk))
               else if before == pk then None
               else before
  {
    var saved := SavedWallet(wallets, pk, row, now);
    SavingKeepsWallets(wallets, links, pk, row, now);
    forall id: nat
      ensures SlotHolder(wallets, link) == Some(id) <==> Holds(wallets, id, link, true)
      ensures SlotHolder(saved, link) == Some(id) <==> Holds(saved, id, link, true)
      ensures Holds(saved, id, link, true) <==>
              if id == KeyOf(wallets, pk) then row.isActive && link == row.link
              else Holds(wallets, id, link, true) && !(row.isActive && link == row.link)
    {
      HolderIs(wallets, links, link, id);
      HolderIs(saved, links, link, id);
      SavedHolds(wallets, links, pk, row, now, link, id);
    }
    if pk.Some? {
      assert Holds(wallets, pk.value, link, true) ==> link == row.link;
    }
    hide SlotHolder, SavedWallet, WalletsOk, Holds;
    var before, after := SlotHolder(wallets, link), SlotHolder(saved, link);
    if before.Some? {
      assert Holds(wallets, before.value, link, true);
    }
    if after.Some? {
      assert Holds(saved, after.value, link, true);
    }
  }

  lemma DeletingKeepsWallets(wallets: seq<Option<Wallet>>, links: nat, id: nat)
    requires WalletsOk(wallets, links) && Live(wallets, id)
    ensures WalletsOk(wallets[id := None], links)
  {
    var rest := wallets[id := None];
    forall i: nat, j: nat | i != j && Live(rest, i) && Live(rest, j)
      ensures Apart(rest[i].value, rest[j].value)
    {
      assert Apart(wallets[i].value, wallets[j].value);
    }
  }

  lemma DeedKeepsWallets(d: Tables, deed: Deed)
    requires Structure(d)
    ensures WalletsOk(Perform(d, deed).wallets, |Perform(d, deed).links|)
  {
    hide SavedWallet, WasUsed, NumberClashes, SlotHolder, Superseded, Assigned;
    match deed
    case WalletCreated(link, number, cap, active, now) =>
      if link < |d.links| && !NumberClashes(d.wallets, link, number) {
        SavingKeepsWallets(d.wallets, |d.links|, None, Wallet(link, number, active, cap, now, None, None), now);
      }
    case WalletActivated(id, now) =>
      if Live(d.wallets, id) {
        SavingKeepsWallets(d.wallets, |d.links|, Some(id), d.wallets[id].value.(isActive := true), now);
      }
    case WalletDeactivated(id, now) =>
      if Live(d.wallets, id) {
        SavingKeepsWallets(d.wallets, |d.links|, Some(id), StoodDown(d.wallets[id].value, now), now);
      }
    case CapSet(id, cap, now) =>
      if Live(d.wallets, id) {
        SavingKeepsWallets(d.wallets, |d.links|, Some(id), d.wallets[id].value.(dailyCap := cap), now);
      }
    case WalletRemoved(id, allowed, now) =>
      if Live(d.wallets, id) {
        SavingKeepsWallets(d.wallets, |d.links|, Some(id), Retired(d.wallets[id].value, now), now);
        DeletingKeepsWallets(d.wallets, |d.links|, id);
      }
    case _ =>
  }

  lemma StepKeepsStructure(c: Config, s: Portal, step: Step)
    requires Structure(s.desk)
    ensures Structure(Apply(c, s, step).desk)
  {
    if step.Operate? {
      DeedKeepsWallets(s.desk, step.deed);
      DeedExtends(s.desk, step.deed);
      hide SavedWallet, WasUsed, NumberClashes, SlotHolder, Superseded, WalletsOk;
    }
  }

  /** After any run at all, no merchant's method has two active wallets, two wallets of
      one link never share a number, and a wallet is dated exactly while it is down. */
  lemma {:induction false} OneActiveWalletEach(c: Config, s: Portal, steps: seq<Step>)
    requires Structure(s.desk)
    ensures Structure(Run(c, s, steps).desk)
    decreases |steps|
  {
    if steps != [] {
      StepKeepsStructure(c, s, steps[0]);
      OneActiveWalletEach(c, Apply(c, s, steps[0]), steps[1..]);
    }
  }

  lemma DeletingEmptiesSlot(wallets: seq<Option<Wallet>>, links: nat, id: nat, link: nat)
    requires WalletsOk(wallets, links) && Live(wallets, id)
    ensures var before := SlotHolder(wallets, link);
      SlotHolder(wallets[id := None], link) == if before == Some(id) then None else before
  {
    var rest := wallets[id := None];
    DeletingKeepsWallets(wallets, links, id);
    var before, after := SlotHolder(wallets, link), SlotHolder(rest, link);
    if before.Some? {
      HolderIs(wallets, links, link, before.value);
      HolderIs(rest, links, link, before.value);
    }
    if after.Some? {
      HolderIs(wallets, links, link, after.value);
    }
  }

  /** Who a link's deposits are paid into after a deed. */
  function SlotAfter(d: Tables, deed: Deed, link: nat): Option<nat> {
    var before := SlotHolder(d.wallets, link);
    match deed
    case WalletCreated(l, number, _, active, _) =>
      if active && l == link < |d.links| && !NumberClashes(d.wallets, link, number) then Some(|d.wallets|) else before
    case WalletActivated(id, _) => if Live(d.wallets, id) && d.wallets[id].value.link == link then Some(id) else before
    case WalletDeactivated(id, _) => if before == Some(id) then None else before
    case WalletRemoved(id, allowed, _) =>
      if allowed && before == Some(id) && d.wallets[id].value.archivedAt.None? then None else before
    case _ => before
  }

  /** Only these four deeds move a slot, each moves one slot, and each as described. */
  lemma DeedMovesTheSlot(d: Tables, deed: Deed, link: nat)
    requires Structure(d)
    ensures SlotHolder(Perform(d, deed).wallets, link) == SlotAfter(d, deed, link)
  {
    hide SavedWallet, WasUsed, NumberClashes, SlotHolder, Superseded, Assigned;
    var n := |d.links|;
    match deed
    case WalletCreated(l, number, cap, active, now) =>
      if l < n && !NumberClashes(d.wallets, l, number) {
        SavingMovesOneSlot(d.wallets, n, None, Wallet(l, number, active, cap, now, None, None), now, link);
      }
    case WalletActivated(id, now) =>
      if Live(d.wallets, id) {
        SavingMovesOneSlot(d.wallets, n, Some(id), d.wallets[id].value.(isActive := true), now, link);
      }
    case WalletDeactivated(id, now) =>
      HolderIs(d.wallets, n, link, id);
      if Live(d.wallets, id) {
        SavingMovesOneSlot(d.wallets, n, Some(id), StoodDown(d.wallets[id].value, now), now, link);
      }
    case CapSet(id, cap, now) =>
      if Live(d.wallets, id) {
        HolderIs(d.wallets, n, link, id);
        SavingMovesOneSlot(d.wallets, n, Some(id), d.wallets[id].value.(dailyCap := cap), now, link);
      }
    case WalletRemoved(id, allowed, now) =>
      HolderIs(d.wallets, n, link, id);
      if Live(d.wallets, id) {
        SavingMovesOneSlot(d.wallets, n, Some(id), Retired(d.wallets[id].value, now), now, link);
        DeletingEmptiesSlot(d.wallets, n, id, link);
      }
    case _ =>
  }

  // ------------------------------------------------------------- archiving --

  /** An archived merchant is closed: the switch leaves them alone, and coming back is
      not reopening. */
  ghost predicate ArchivedAreClosed(d: Tables) {
    forall m :: 0 <= m < |d.merchants| && d.merchants[m].archivedAt.Some? ==> !d.merchants[m].isActive
  }

  lemma {:induction false} ArchivedStayClosed(c: Config, s: Portal, steps: seq<Step>)
    requires ArchivedAreClosed(s.desk)
    ensures ArchivedAreClosed(Run(c, s, steps).desk)
    decreases |steps|
  {
    if steps != [] {
      StepKeepsArchivedClosed(c, s, steps[0]);
      ArchivedStayClosed(c, Apply(c, s, steps[0]), steps[1..]);
    }
  }

  lemma StepKeepsArchivedClosed(c: Config, s: Portal, step: Step)
    requires ArchivedAreClosed(s.desk)
    ensures ArchivedAreClosed(Apply(c, s, step).desk)
    ensures step.Operate? && step.deed.MerchantRestored? && step.deed.merchant < |s.desk.merchants|
            && Apply(c, s, step).desk != s.desk ==>
              Apply(c, s, step).desk.merchants[step.deed.merchant] == Merchant(false, None)
  {
    hide BuildDraft, Recheck, FullClean, SavedWallet, WasUsed, NumberClashes, SlotHolder, Assigned;
  }

  /** What each deed does to a merchant that is there: the switch turns one that is not
      archived over, whichever way it stood; archiving closes one, restoring brings one
      back as closed as it was; and nothing else touches any. */
  lemma DeedMovesTheMerchant(d: Tables, deed: Deed, m: nat)
    requires m < |d.merchants|
    ensures var before, e := d.merchants[m], Perform(d, deed);
      && m < |e.merchants|
      && (e.merchants[m].isActive != before.isActive <==>
            (deed.MerchantToggled? && deed.merchant == m && before.archivedAt == None)
            || (deed.MerchantArchived? && deed.merchant == m && deed.allowed && before.archivedAt == None
                && before.isActive))
      && e.merchants[m].archivedAt ==
           (if deed.MerchantArchived? && deed.merchant == m && deed.allowed && before.archivedAt == None
            then Some(deed.now)
            else if deed.MerchantRestored? && deed.merchant == m && deed.allowed then None
            else before.archivedAt)
  {
    hide SavedWallet, WasUsed, NumberClashes, SlotHolder, Assigned;
  }

  /** A link is switched by its own switch alone; a merchant and a link are created as
      asked, a link only for a pair that has none and a method that is active. */
  lemma DeedMovesTheLink(d: Tables, deed: Deed, l: nat)
    requires UniquePairs(d.links)
    ensures var e := Perform(d, deed);
      && (l < |d.links| ==>
            l < |e.links| && (e.links[l].isActive != d.links[l].isActive <==> deed.LinkToggled? && deed.link == l))
      && (|e.links| == |d.links| + 1 <==>
            && deed.MethodAssigned? && deed.merchant < |d.merchants| && deed.rail < |d.methods|
            && d.methods[deed.rail].isActive
            && forall k :: 0 <= k < |d.links| ==> d.links[k].merchant != deed.merchant || d.links[k].rail != deed.rail)
      && (|e.links| == |d.links| + 1 ==> e.links[|d.links|] == MerchantMethod(deed.merchant, deed.rail, deed.active))
      && |e.links| <= |d.links| + 1
      && (if deed.MerchantCreated? then e.merchants == d.merchants + [Merchant(deed.active, None)]
          else |e.merchants| == |d.merchants|)
  {
    hide SavedWallet, WasUsed, NumberClashes, SlotHolder;
  }

  /** A wallet is created exactly when the link exists and no wallet of that link has its
      number, and as asked; another link's wallets may share it. */
  lemma WalletIsCreatedIff(d: Tables, link: nat, number: string, cap: Option<nat>, active: bool, now: int)
    ensures var e := Perform(d, WalletCreated(link, number, cap, active, now));
      && (|e.wallets| == |d.wallets| + 1 <==>
            && link < |d.links|
            && forall i :: 0 <= i < |d.wallets| && d.wallets[i].Some? && d.wallets[i].value.link == link ==>
                 d.wallets[i].value.number != number)
      && (|e.wallets| != |d.wallets| + 1 ==> e == d)
      && (|e.wallets| == |d.wallets| + 1 ==>
            e.wallets[|d.wallets|] ==
            Some(Wallet(link, number, active, cap, now, if active then None else Some(now), None)))
  {
  }

  /** A wallet that is archived keeps the moment it stood down, if it already had. */
  lemma ArchivingDatesOnce(d: Tables, id: nat, now: int)
    requires Live(d.wallets, id) && d.wallets[id].value.link < |d.links|
    requires d.wallets[id].value.archivedAt == None && WasUsed(d, id)
    ensures var before, e := d.wallets[id].value, Perform(d, WalletRemoved(id, true, now));
      Live(e.wallets, id)
      && e.wallets[id].value == before.(isActive := false, archivedAt := Some(now),
                                        deactivatedAt := if before.deactivatedAt == None then Some(now)
                                                         else before.deactivatedAt)
  {
    hide WasUsed;
  }

  /** Activation does not ask whether the wallet is archived, and the catalogue does:
      the wallet activated always takes its link's slot, and is the one clients are
      offered exactly when it is not archived.  If it is, the link is left with none. */
  lemma ActivatedIsOfferedIff(d: Tables, id: nat, now: int)
    requires Structure(d) && Live(d.wallets, id)
    ensures var e, w := Perform(d, WalletActivated(id, now)), d.wallets[id].value;
      && SlotHolder(e.wallets, w.link) == Some(id)
      && ActiveWallet(e, w.link) == (if w.archivedAt.None? then Some(id) else None)
      && (w.archivedAt.Some? ==> !HasActiveWallet(e, w.link) && !Offerable(e, Deposit, w.link))
  {
    var e, w := Perform(d, WalletActivated(id, now)), d.wallets[id].value;
    HolderIs(d.wallets, |d.links|, w.link, id);
    SavingMovesOneSlot(d.wallets, |d.links|, Some(id), w.(isActive := true), now, w.link);
    DeedKeepsWallets(d, WalletActivated(id, now));
    HolderIs(e.wallets, |d.links|, w.link, id);
    NewestIs(e.wallets, |d.links|, w.link, false, id);
    var offered := ActiveWallet(e, w.link);
    if offered.Some? {
      NewestIs(e.wallets, |d.links|, w.link, false, offered.value);
      HolderIs(e.wallets, |d.links|, w.link, offered.value);
    }
  }
}
