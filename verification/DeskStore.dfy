/** The desk's tables as the application updates them, row by row.  Every method is
    proved to make exactly the step its specification names. */
module DeskStore {
  import opened Basics
  import opened Desk
  import opened Submissions
  import Operations

  class Store {
    var methods: seq<PaymentMethod>
    var merchants: seq<Merchant>
    var links: seq<MerchantMethod>
    var wallets: seq<Option<Wallet>>
    var rates: seq<ExchangeRate>
    var requests: seq<Request>
    var attachments: seq<Attachment>
    var messages: seq<Message>
    var audit: seq<AuditEntry>

    function View(): Tables
      reads this
    {
      Tables(methods, merchants, links, wallets, rates, requests, attachments, messages, audit)
    }

    constructor (methods: seq<PaymentMethod>)
      ensures View() == Tables(methods, [], [], [], [], [], [], [], [])
    {
      this.methods, merchants, links, wallets, rates := methods, [], [], [], [];
      requests, attachments, messages, audit := [], [], [], [];
    }

    method Record(entry: AuditEntry)
      modifies this`audit
      ensures audit == old(audit) + [entry]
    {
      audit := audit + [entry];
    }

    // ------------------------------------------------------ merchants/models --

    /** `siblings.update(is_active=False, deactivated_at=now)`. */
    method StandDownSiblings(link: nat, except: Option<nat>, now: int)
      modifies this`wallets
      ensures wallets == Operations.StandDown(old(wallets), link, except, now)
    {
      for i := 0 to |wallets|
        invariant |wallets| == |old(wallets)|
        invariant wallets[..i] == Operations.StandDown(old(wallets), link, except, now)[..i]
        invariant wallets[i..] == old(wallets)[i..]
      {
        assert wallets[i] == old(wallets)[i];
        if except != Some(i) && wallets[i].Some? && wallets[i].value.link == link && wallets[i].value.isActive {
          wallets := wallets[i := Some(wallets[i].value.(isActive := false, deactivatedAt := Some(now)))];
        }
      }
    }

    /** `Wallet.save`. */
    method SaveWallet(pk: Option<nat>, row: Wallet, now: int)
      requires pk.Some? ==> pk.value < |wallets|
      modifies this`wallets
      ensures wallets == Operations.SavedWallet(old(wallets), pk, row, now)
    {
      var deactivatedAt := row.deactivatedAt;
      if !row.isActive && deactivatedAt.None? {
        deactivatedAt := Some(now);
      } else if row.isActive {
        deactivatedAt := None;
      }
      if row.isActive {
        StandDownSiblings(row.link, pk, now);
      }
      var saved := row.(deactivatedAt := deactivatedAt);
      match pk
      case None => wallets := wallets + [Some(saved)];
      case Some(id) => wallets := wallets[id := Some(saved)];
    }

    /** `Wallet.deactivate`. */
    method Deactivate(id: nat, now: int)
      requires Live(wallets, id)
      modifies this`wallets
      ensures wallets
            == Operations.SavedWallet(old(wallets), Some(id), Operations.StoodDown(old(wallets)[id].value, now), now)
    {
      SaveWallet(Some(id), wallets[id].value.(isActive := false, deactivatedAt := Some(now)), now);
    }

    // --------------------------------------------------------- finance/views --

    method CreateWallet(link: nat, number: string, cap: Option<nat>, active: bool, now: int)
      returns (r: Result<nat, Operations.OperationError>)
      modifies this`wallets, this`audit
      ensures r.Ok? ==>
            Operations.CreateWallet(old(View()), link, number, cap, active, now) == Ok(View())
                  && r.value == |old(wallets)|
      ensures r.Refused? ==>
                Operations.CreateWallet(old(View()), link, number, cap, active, now) == Refused(r.error)
                      && View() == old(View())
    {
      if link >= |links| {
        return Refused(Operations.NotFound);
      }
      if Operations.NumberClashes(wallets, link, number) {
        return Refused(Operations.NumberTaken);
      }
      var superseded := if active then SlotHolder(wallets, link) else None;
      var id := |wallets|;
      SaveWallet(None, Wallet(link, number, active, cap, now, None, None), now);
      Record(Operations.WalletEntry(id, None, Operations.Full(active, None), Plainly));
      if superseded.Some? {
        Record(Operations.WalletEntry(superseded.value, Some(Operations.Activity(true)), Operations.Activity(false),
                                      SupersededBy(id)));
      }
      assert audit == old(audit) + [Operations.WalletEntry(id, None, Operations.Full(active, None), Plainly)]
            + Operations.Superseded(superseded, id);
      return Ok(id);
    }

    method ActivateWallet(id: nat, now: int) returns (r: Result<(), Operations.OperationError>)
      modifies this`wallets, this`audit
      ensures r.Ok? ==> Operations.ActivateWallet(old(View()), id, now) == Ok(View())
      ensures r.Refused? ==>
            Operations.ActivateWallet(old(View()), id, now) == Refused(r.error) && View() == old(View())
    {
      if !Live(wallets, id) {
        return Refused(Operations.NotFound);
      }
      var wallet := wallets[id].value;
      var previous := SlotHolder(wallets, wallet.link);
      if previous == Some(id) {
        return Ok(());
      }
      SaveWallet(Some(id), wallet.(isActive := true), now);
      Record(Operations.WalletEntry(id, Some(Operations.Activity(false)), Operations.Activity(true), Replaced));
      if previous.Some? {
        Record(Operations.WalletEntry(previous.value, Some(Operations.Activity(true)), Operations.Activity(false),
                                      SupersededBy(id)));
      }
      assert audit == old(audit)
            + [Operations.WalletEntry(id, Some(Operations.Activity(false)), Operations.Activity(true), Replaced)]
                      + Operations.Superseded(previous, id);
      return Ok(());
    }

    method DeactivateWallet(id: nat, now: int) returns (r: Result<(), Operations.OperationError>)
      modifies this`wallets, this`audit
      ensures r.Ok? ==> Operations.DeactivateWallet(old(View()), id, now) == Ok(View())
      ensures r.Refused? ==>
            Operations.DeactivateWallet(old(View()), id, now) == Refused(r.error) && View() == old(View())
    {
      if !Live(wallets, id) {
        return Refused(Operations.NotFound);
      }
      if !wallets[id].value.isActive {
        return Ok(());
      }
      Deactivate(id, now);
      Record(Operations.WalletEntry(id, Some(Operations.Activity(true)), Operations.Activity(false), Manual));
      return Ok(());
    }

    method ToggleMerchant(m: nat) returns (r: Result<(), Operations.OperationError>)
      modifies this`merchants, this`audit
      ensures r.Ok? ==> Operations.ToggleMerchant(old(View()), m) == Ok(View())
      ensures r.Refused? ==> Operations.ToggleMerchant(old(View()), m) == Refused(r.error) && View() == old(View())
    {
      if m >= |merchants| {
        return Refused(Operations.NotFound);
      }
      var merchant := merchants[m];
      if merchant.archivedAt.Some? {
        return Ok(());
      }
      var before := Operations.Activity(merchant.isActive);
      merchants := merchants[m := merchant.(isActive := !merchant.isActive)];
      Record(Operations.MerchantEntry(m, Some(before), Operations.Activity(merchants[m].isActive), Plainly));
      return Ok(());
    }

    // --------------------------------------------------- merchants/lifecycle --

    method ArchiveMerchant(m: nat, allowed: bool, now: int) returns (r: Result<(), Operations.OperationError>)
      modifies this`merchants, this`audit
      ensures r.Ok? ==> Operations.ArchiveMerchant(old(View()), m, allowed, now) == Ok(View())
      ensures r.Refused? ==>
            Operations.ArchiveMerchant(old(View()), m, allowed, now) == Refused(r.error) && View() == old(View())
    {
      if !allowed {
        return Refused(Operations.PermissionDenied);
      }
      if m >= |merchants| {
        return Refused(Operations.NotFound);
      }
      var locked := merchants[m];
      if locked.archivedAt.Some? {
        return Refused(Operations.AlreadyArchived);
      }
      var before := Operations.Full(locked.isActive, locked.archivedAt);
      locked := locked.(archivedAt := Some(now));
      locked := locked.(isActive := false);
      merchants := merchants[m := locked];
      Record(Operations.MerchantEntry(m, Some(before), Operations.Full(locked.isActive, locked.archivedAt),
                                      Event("merchant_archived")));
      return Ok(());
    }

    method RestoreMerchant(m: nat, allowed: bool) returns (r: Result<(), Operations.OperationError>)
      modifies this`merchants, this`audit
      ensures r.Ok? ==> Operations.RestoreMerchant(old(View()), m, allowed) == Ok(View())
      ensures r.Refused? ==>
            Operations.RestoreMerchant(old(View()), m, allowed) == Refused(r.error) && View() == old(View())
    {
      if !allowed {
        return Refused(Operations.PermissionDenied);
      }
      if m >= |merchants| {
        return Refused(Operations.NotFound);
      }
      var locked := merchants[m];
      if locked.archivedAt.None? {
        return Refused(Operations.NotArchived);
      }
      var before := Operations.Full(locked.isActive, locked.archivedAt);
      locked := locked.(archivedAt := None);
      merchants := merchants[m := locked];
      Record(Operations.MerchantEntry(m, Some(before), Operations.Full(locked.isActive, None),
                                      Event("merchant_restored")));
      return Ok(());
    }

    /** `remove_wallet`; the result says whether the row was deleted. */
    method RemoveWallet(id: nat, allowed: bool, now: int) returns (r: Result<bool, Operations.OperationError>)
      modifies this`wallets, this`audit
      ensures r.Ok? ==>
                && Operations.RemoveWallet(old(View()), id, allowed, now) == Ok(View())
                && (r.value <==> Live(old(wallets), id) && !WasUsed(old(View()), id))
      ensures r.Refused? ==>
            Operations.RemoveWallet(old(View()), id, allowed, now) == Refused(r.error) && View() == old(View())
    {
      if !allowed {
        return Refused(Operations.PermissionDenied);
      }
      if !Live(wallets, id) || wallets[id].value.link >= |links| {
        return Refused(Operations.NotFound);
      }
      var locked := wallets[id].value;
      if locked.archivedAt.Some? {
        return Refused(Operations.AlreadyArchived);
      }
      var before := Operations.Full(locked.isActive, locked.archivedAt);
      if WasUsed(View(), id) {
        locked := locked.(archivedAt := Some(now));
        locked := locked.(isActive := false);
        if locked.deactivatedAt.None? {
          locked := locked.(deactivatedAt := Some(now));
        }
        SaveWallet(Some(id), locked, now);
        Record(Operations.WalletEntry(id, Some(before), Operations.Full(false, Some(now)), HasRequests));
        return Ok(false);
      }
      Record(AuditEntry(WalletChange, MerchantRow(links[locked.link].merchant), Some(before), Snapshot(None, None),
                        NeverUsed(id)));
      wallets := wallets[id := None];
      return Ok(true);
    }

    // ---------------------------------------------------- portal/submissions --

    /** `create_request`: request, proof, opening message and audit entry, or nothing. */
    method CreateRequest(c: Config, draft: Draft, now: int) returns (r: Result<nat, Refusal>)
      modifies this`requests, this`attachments, this`messages, this`audit
      ensures r.Ok? ==>
            Submissions.CreateRequest(c, old(View()), draft, now) == Ok(View()) && r.value == |old(requests)|
      ensures r.Refused? ==>
            Submissions.CreateRequest(c, old(View()), draft, now) == Refused(r.error) && View() == old(View())
    {
      var rechecked := Recheck(c, View(), draft, now);
      if rechecked.Refused? {
        return Refused(rechecked.error);
      }
      var created := RequestOf(draft, now);
      if !FullClean(View(), draft) {
        return Refused(NotClean);
      }
      var id := |requests|;
      requests := requests + [created];
      if draft.proof.Some? {
        attachments := attachments + [Attachment(id, draft.proof.value)];
      }
      if draft.message != "" {
        messages := messages + [Message(id, draft.client, draft.message)];
      }
      Record(AuditEntry(StatusChange, RequestRow(id), None, Snapshot(None, None), Plainly));
      assert attachments == old(attachments) + (if draft.proof.Some? then [Attachment(id, draft.proof.value)] else []);
      assert messages
            == old(messages) + (if draft.message != "" then [Message(id, draft.client, draft.message)] else []);
      return Ok(id);
    }
  }
}
