/** What Finance does to merchants, wallets and rates, each as one atomic step with
    the audit entries it writes. */
module Operations {
  import opened Basics
  import opened Pricing
  import opened Desk

  datatype OperationError =
    | NotFound | PermissionDenied | NumberTaken | AlreadyArchived | NotArchived | AlreadyAssigned | InactiveMethod

  // ---------------------------------------------------------- Wallet.save --

  function StoodDown(w: Wallet, now: int): Wallet {
    w.(isActive := false, deactivatedAt := Some(now))
  }

  /** The siblings that hold the active slot of `link` step down. */
  function StandDown(wallets: seq<Option<Wallet>>, link: nat, except: Option<nat>, now: int): (r: seq<Option<Wallet>>)
    ensures |r| == |wallets|
    ensures forall i :: 0 <= i < |wallets| ==>
              r[i] == if except != Some(i) && Holds(wallets, i, link, true)
                      then Some(StoodDown(wallets[i].value, now))
                      else wallets[i]
  {
    seq(|wallets|, i requires 0 <= i < |wallets| =>
      if except != Some(i) && Holds(wallets, i, link, true) then Some(StoodDown(wallets[i].value, now)) else wallets[i])
  }

  /** The moment of deactivation, kept without the caller remembering to. */
  function Dated(w: Wallet, now: int): Wallet {
    if w.isActive then w.(deactivatedAt := None)
    else if w.deactivatedAt.None? then w.(deactivatedAt := Some(now))
    else w
  }

  /** `Wallet.save`: insert when there is no key yet, update otherwise. */
  function SavedWallet(wallets: seq<Option<Wallet>>, pk: Option<nat>, row: Wallet, now: int): seq<Option<Wallet>>
    requires pk.Some? ==> pk.value < |wallets|
  {
    var others := if row.isActive then StandDown(wallets, row.link, pk, now) else wallets;
    if pk.None? then others + [Some(Dated(row, now))] else others[pk.value := Some(Dated(row, now))]
  }

  // -------------------------------------------------------------- entries --

  function Activity(isActive: bool): Snapshot {
    Snapshot(Some(isActive), None)
  }

  function Full(isActive: bool, archivedAt: Option<int>): Snapshot {
    Snapshot(Some(isActive), Some(archivedAt))
  }

  function WalletEntry(id: nat, before: Option<Snapshot>, after: Snapshot, reason: Reason): AuditEntry {
    AuditEntry(WalletChange, WalletRow(id), before, after, reason)
  }

  function MerchantEntry(id: nat, before: Option<Snapshot>, after: Snapshot, reason: Reason): AuditEntry {
    AuditEntry(MerchantChange, MerchantRow(id), before, after, reason)
  }

  function LinkEntry(id: nat, before: Option<Snapshot>, after: Snapshot): AuditEntry {
    AuditEntry(MerchantChange, LinkRow(id), before, after, Plainly)
  }

  // -------------------------------------------------------------- wallets --

  predicate NumberClashes(wallets: seq<Option<Wallet>>, link: nat, number: string) {
    exists i :: 0 <= i < |wallets| && wallets[i].Some? && wallets[i].value.link == link
          && wallets[i].value.number == number
  }

  function CreateWallet(d: Tables, link: nat, number: string, cap: Option<nat>, active: bool, now: int)
    : Result<Tables, OperationError>
  {
    if link >= |d.links| then Refused(NotFound)
    else if NumberClashes(d.wallets, link, number) then Refused(NumberTaken)
    else
      var id := |d.wallets|;
      var superseded := if active then SlotHolder(d.wallets, link) else None;
      var created := [WalletEntry(id, None, Full(active, None), Plainly)];
      Ok(d.(wallets := SavedWallet(d.wallets, None, Wallet(link, number, active, cap, now, None, None), now),
            audit := d.audit + created + Superseded(superseded, id)))
  }

  function Superseded(previous: Option<nat>, successor: nat): seq<AuditEntry> {
    match previous
    case None => []
    case Some(p) => [WalletEntry(p, Some(Activity(true)), Activity(false), SupersededBy(successor))]
  }

  function ActivateWallet(d: Tables, id: nat, now: int): Result<Tables, OperationError> {
    if !Live(d.wallets, id) then Refused(NotFound)
    else
      var w := d.wallets[id].value;
      var previous := SlotHolder(d.wallets, w.link);
      if previous == Some(id) then Ok(d)
      else
        Ok(d.(wallets := SavedWallet(d.wallets, Some(id), w.(isActive := true), now),
              audit := d.audit + [WalletEntry(id, Some(Activity(false)), Activity(true), Replaced)]
                    + Superseded(previous, id)))
  }

  function DeactivateWallet(d: Tables, id: nat, now: int): Result<Tables, OperationError> {
    if !Live(d.wallets, id) then Refused(NotFound)
    else if !d.wallets[id].value.isActive then Ok(d)
    else
      Ok(d.(wallets := SavedWallet(d.wallets, Some(id), StoodDown(d.wallets[id].value, now), now),
            audit := d.audit + [WalletEntry(id, Some(Activity(true)), Activity(false), Manual)]))
  }

  /** A new cap; nothing else about the wallet moves. */
  function SetCap(d: Tables, id: nat, cap: Option<nat>, now: int): Result<Tables, OperationError> {
    if !Live(d.wallets, id) then Refused(NotFound)
    else
      var w := d.wallets[id].value;
      var row := Full(w.isActive, w.archivedAt);
      Ok(d.(wallets := SavedWallet(d.wallets, Some(id), w.(dailyCap := cap), now),
            audit := d.audit + [WalletEntry(id, Some(row), row, Plainly)]))
  }

  function Retired(w: Wallet, now: int): Wallet {
    w.(archivedAt := Some(now),
       isActive := false,
       deactivatedAt := if w.deactivatedAt.Some? then w.deactivatedAt else Some(now))
  }

  /** `remove_wallet`: archived when anything was ever filed against it, else deleted,
      the deletion being recorded against the merchant whose page survives. */
  function RemoveWallet(d: Tables, id: nat, allowed: bool, now: int): Result<Tables, OperationError> {
    if !allowed then Refused(PermissionDenied)
    else if !Live(d.wallets, id) || d.wallets[id].value.link >= |d.links| then Refused(NotFound)
    else
      var w := d.wallets[id].value;
      var before := Some(Full(w.isActive, w.archivedAt));
      if w.archivedAt.Some? then Refused(AlreadyArchived)
      else if WasUsed(d, id) then
        Ok(d.(wallets := SavedWallet(d.wallets, Some(id), Retired(w, now), now),
              audit := d.audit + [WalletEntry(id, before, Full(false, Some(now)), HasRequests)]))
      else
        Ok(d.(wallets := d.wallets[id := None],
              audit := d.audit
                    + [AuditEntry(WalletChange, MerchantRow(d.links[w.link].merchant), before, Snapshot(None, None),
                                  NeverUsed(id))]))
  }

  // ------------------------------------------------------------ merchants --

  function CreateMerchant(d: Tables, active: bool): Tables {
    d.(merchants := d.merchants + [Merchant(active, None)],
       audit := d.audit + [MerchantEntry(|d.merchants|, None, Full(active, None), Plainly)])
  }

  function ToggleMerchant(d: Tables, m: nat): Result<Tables, OperationError> {
    if m >= |d.merchants| then Refused(NotFound)
    else if d.merchants[m].archivedAt.Some? then Ok(d)
    else
      var active := !d.merchants[m].isActive;
      Ok(d.(merchants := d.merchants[m := d.merchants[m].(isActive := active)],
            audit := d.audit + [MerchantEntry(m, Some(Activity(!active)), Activity(active), Plainly)]))
  }

  function ArchiveMerchant(d: Tables, m: nat, allowed: bool, now: int): Result<Tables, OperationError> {
    if !allowed then Refused(PermissionDenied)
    else if m >= |d.merchants| then Refused(NotFound)
    else if d.merchants[m].archivedAt.Some? then Refused(AlreadyArchived)
    else
      Ok(d.(merchants := d.merchants[m := Merchant(false, Some(now))],
            audit := d.audit
                  + [MerchantEntry(m, Some(Full(d.merchants[m].isActive, None)), Full(false, Some(now)),
                                   Event("merchant_archived"))]))
  }

  function RestoreMerchant(d: Tables, m: nat, allowed: bool): Result<Tables, OperationError> {
    if !allowed then Refused(PermissionDenied)
    else if m >= |d.merchants| then Refused(NotFound)
    else if d.merchants[m].archivedAt.None? then Refused(NotArchived)
    else
      var active := d.merchants[m].isActive;
      Ok(d.(merchants := d.merchants[m := Merchant(active, None)],
            audit := d.audit
                  + [MerchantEntry(m, Some(Full(active, d.merchants[m].archivedAt)), Full(active, None),
                                   Event("merchant_restored"))]))
  }

  predicate Assigned(links: seq<MerchantMethod>, m: nat, p: nat) {
    exists l :: 0 <= l < |links| && links[l].merchant == m && links[l].rail == p
  }

  function AssignMethod(d: Tables, m: nat, p: nat, active: bool): Result<Tables, OperationError> {
    if m >= |d.merchants| || p >= |d.methods| then Refused(NotFound)
    else if !d.methods[p].isActive then Refused(InactiveMethod)
    else if Assigned(d.links, m, p) then Refused(AlreadyAssigned)
    else
      Ok(d.(links := d.links + [MerchantMethod(m, p, active)],
            audit := d.audit + [LinkEntry(|d.links|, None, Activity(active))]))
  }

  function ToggleLink(d: Tables, l: nat): Result<Tables, OperationError> {
    if l >= |d.links| then Refused(NotFound)
    else
      var active := !d.links[l].isActive;
      Ok(d.(links := d.links[l := d.links[l].(isActive := active)],
            audit := d.audit + [LinkEntry(l, Some(Activity(!active)), Activity(active))]))
  }

  // ------------------------------------------------- rates and the lifecycle --

  /** A revision is only ever added; its entry carries the one it supersedes. */
  function AddRate(d: Tables, rate: ExchangeRate, now: int): Tables {
    var superseded := CurrentRate(d.rates, rate.direction, now);
    var before := if superseded.Some? then Some(Snapshot(None, None)) else None;
    d.(rates := d.rates + [rate],
       audit := d.audit + [AuditEntry(RateChange, RateRow(|d.rates|), before, Snapshot(None, None), Plainly)])
  }

  /** The lifecycle moves a request that has not been rejected; money is not touched. */
  function SetStatus(d: Tables, r: nat, status: Status): Tables {
    if r >= |d.requests| || d.requests[r].status.Rejected? then d
    else d.(requests := d.requests[r := d.requests[r].(status := status)])
  }
}
