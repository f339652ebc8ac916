/** A refusal tells the client what is true now, and a client who takes it at its
    word is not refused for the same reason again. */
module Refusals {
  import opened Basics
  import opened Text
  import opened Pricing
  import opened Desk
  import opened Submissions
  import NumberEntry
  import Destinations

  /** Refused because the client's screen was out of date. */
  predicate Stale(r: Refusal) {
    r.RateChanged? || r.WalletChanged? || r.WalletCapExceeded?
  }

  /** Everything but the wallet, the quote and the cap refuses for other reasons. */
  lemma NeverStale(c: Config, d: Tables, kind: RequestType, rail: nat, merchant: nat, form: Form, now: int)
    ensures CheckBusinessHours(c, now).Refused? ==> !Stale(CheckBusinessHours(c, now).error)
    ensures ResolveType(c, form).Refused? ==> !Stale(ResolveType(c, form).error)
    ensures ResolveMethod(c, d, kind, form).Refused? ==> !Stale(ResolveMethod(c, d, kind, form).error)
    ensures ResolveMerchant(c, d, kind, rail, form).Refused? ==> !Stale(ResolveMerchant(c, d, kind, rail, form).error)
    ensures ResolveLink(d, kind, rail, merchant).Refused? ==> !Stale(ResolveLink(d, kind, rail, merchant).error)
    ensures ResolveProof(form).Refused? ==> !Stale(ResolveProof(form).error)
    ensures RefuseProof(form).Refused? ==> !Stale(RefuseProof(form).error)
    ensures ResolveDestination(c, form).Refused? ==> !Stale(ResolveDestination(c, form).error)
    ensures ResolveMessage(c, form).Refused? ==> !Stale(ResolveMessage(c, form).error)
  {
    hide Strip, ReadInteger, CodedMethod, AvailableMethods, AvailableMerchants, MerchantMethodFor,
         Destinations.Normalised;
  }

  /** ... and those three each for their own. */
  lemma StaleOneWay(c: Config, d: Tables, kind: RequestType, rail: nat, merchant: nat, form: Form, now: int)
    ensures var wallet := ResolveWallet(c, d, kind, rail, merchant, form, now);
      wallet.Refused? && Stale(wallet.error) ==> wallet.error.WalletChanged?
    ensures var quote := ResolveQuote(c, d, kind, form, now);
      quote.Refused? && Stale(quote.error) ==> quote.error.RateChanged?
    ensures forall w: Wallet, total :: w.link < |d.links| && CheckWalletCapacity(c, d, w, total, now).Refused? ==>
              && Headroom(d, w, c.capOffset, now).Some?
              && CheckWalletCapacity(c, d, w, total, now).error
                    == WalletCapExceeded(Headroom(d, w, c.capOffset, now).value)
  {
    hide Strip, NatToString, MerchantMethodFor, ActiveWallet, Headroom, CurrentRate, NumberEntry.ParseAmount, Price;
  }

  /** Past the door, a form is answered by its type alone. */
  lemma PastTheDoor(c: Config, d: Tables, client: nat, form: Form, now: int)
    ensures CheckBusinessHours(c, now).Ok? && ResolveType(c, form) == Ok(Deposit) ==>
              BuildDraft(c, d, client, form, now) == BuildDepositDraft(c, d, client, form, now)
    ensures CheckBusinessHours(c, now).Ok? && ResolveType(c, form) == Ok(Withdrawal) ==>
              BuildDraft(c, d, client, form, now) == BuildWithdrawalDraft(c, d, client, form, now)
  {
    hide CheckBusinessHours, ResolveType, BuildDepositDraft, BuildWithdrawalDraft;
  }

  lemma StaleIsPastTheDoor(c: Config, d: Tables, client: nat, form: Form, now: int)
    requires BuildDraft(c, d, client, form, now).Refused?
    requires var why := BuildDraft(c, d, client, form, now).error;
          why.RateChanged? || why.WalletChanged? || why.WalletCapExceeded?
    ensures CheckBusinessHours(c, now).Ok?
    ensures ResolveType(c, form) == Ok(Deposit) || ResolveType(c, form) == Ok(Withdrawal)
  {
    NeverStale(c, d, Deposit, 0, 0, form, now);
    hide CheckBusinessHours, ResolveType, BuildDepositDraft, BuildWithdrawalDraft;
  }

  // ------------------------------------------------------------------ rates --

  lemma OnlyTheRateDiffers(c: Config, d: Tables, kind: RequestType, rail: nat, merchant: nat, form: Form, rate: string,
                           now: int)
    ensures var form' := form.(rate := rate);
      && ResolveType(c, form') == ResolveType(c, form)
      && ResolveMethod(c, d, kind, form') == ResolveMethod(c, d, kind, form)
      && ResolveMerchant(c, d, kind, rail, form') == ResolveMerchant(c, d, kind, rail, form)
      && ResolveWallet(c, d, kind, rail, merchant, form', now) == ResolveWallet(c, d, kind, rail, merchant, form, now)
      && ResolveProof(form') == ResolveProof(form) && RefuseProof(form') == RefuseProof(form)
      && ResolveDestination(c, form') == ResolveDestination(c, form)
      && ResolveMessage(c, form') == ResolveMessage(c, form)
  {
    hide Strip, NatToString, ReadInteger, MerchantMethodFor, ActiveWallet, Headroom, CodedMethod, AvailableMethods,
         AvailableMerchants, Destinations.Normalised;
  }

  /** Echoing the revision named prices the amount at what the refusal showed. */
  lemma Requoted(c: Config, d: Tables, kind: RequestType, form: Form, now: int, k: nat, moved: Option<Figures>)
    requires Sane(c.unicode)
    requires ResolveQuote(c, d, kind, form, now) == Refused(RateChanged(k, moved))
    ensures CurrentRate(d.rates, kind, now) == Some(k)
    ensures var again := ResolveQuote(c, d, kind, form.(rate := NatToString(k)), now);
      if moved.Some?
      then again.Ok? && again.value.rateId == k && again.value.figures == moved.value
      else again == Refused(BelowCommission)
  {
    StripNat(c.unicode, k);
    hide Strip, NatToString, NumberEntry.ParseAmount, Price, CurrentRate;
  }

  lemma DepositRateRefusal(c: Config, d: Tables, client: nat, form: Form, now: int, k: nat, moved: Option<Figures>)
    requires Sane(c.unicode)
    requires BuildDepositDraft(c, d, client, form, now) == Refused(RateChanged(k, moved))
    ensures CurrentRate(d.rates, Deposit, now) == Some(k)
    ensures var again := BuildDepositDraft(c, d, client, form.(rate := NatToString(k)), now);
      && (again.Refused? ==> !again.error.RateChanged?)
      && (again.Ok? ==> moved == Some(again.value.quote.figures))
      && (moved.None? ==> again == Refused(BelowCommission))
  {
    hide ResolveMethod, ResolveMerchant, ResolveWallet, ResolveQuote, CheckWalletCapacity, ResolveProof,
         ResolveMessage;
    NeverStale(c, d, Deposit, 0, 0, form, now);
    var rail := ResolveMethod(c, d, Deposit, form).value;
    NeverStale(c, d, Deposit, rail, 0, form, now);
    var merchant := ResolveMerchant(c, d, Deposit, rail, form).value;
    OnlyTheRateDiffers(c, d, Deposit, rail, merchant, form, NatToString(k), now);
    StaleOneWay(c, d, Deposit, rail, merchant, form, now);
    Requoted(c, d, Deposit, form, now, k, moved);
  }

  lemma WithdrawalRateRefusal(c: Config, d: Tables, client: nat, form: Form, now: int, k: nat, moved: Option<Figures>)
    requires Sane(c.unicode)
    requires BuildWithdrawalDraft(c, d, client, form, now) == Refused(RateChanged(k, moved))
    ensures CurrentRate(d.rates, Withdrawal, now) == Some(k)
    ensures var again := BuildWithdrawalDraft(c, d, client, form.(rate := NatToString(k)), now);
      && (again.Refused? ==> !again.error.RateChanged?)
      && (again.Ok? ==> moved == Some(again.value.quote.figures))
      && (moved.None? ==> again == Refused(BelowCommission))
  {
    hide ResolveMethod, ResolveMerchant, ResolveLink, ResolveQuote, RefuseProof, ResolveDestination, ResolveMessage;
    NeverStale(c, d, Withdrawal, 0, 0, form, now);
    var rail := ResolveMethod(c, d, Withdrawal, form).value;
    NeverStale(c, d, Withdrawal, rail, 0, form, now);
    var merchant := ResolveMerchant(c, d, Withdrawal, rail, form).value;
    NeverStale(c, d, Withdrawal, rail, merchant, form, now);
    OnlyTheRateDiffers(c, d, Withdrawal, rail, merchant, form, NatToString(k), now);
    Requoted(c, d, Withdrawal, form, now, k, moved);
  }

  /** "The rate has changed" names the revision in force and the figures at it: a client
      who echoes that revision is never told so again at that instant, and if their form
      is then accepted it is at exactly the figures they were shown. */
  lemma RateRefusalIsCorrectable(c: Config, d: Tables, client: nat, form: Form, now: int, k: nat,
                                 moved: Option<Figures>)
    requires Sane(c.unicode)
    requires BuildDraft(c, d, client, form, now) == Refused(RateChanged(k, moved))
    ensures ResolveType(c, form).Ok? && CurrentRate(d.rates, ResolveType(c, form).value, now) == Some(k)
    ensures var again := BuildDraft(c, d, client, form.(rate := NatToString(k)), now);
      && (again.Refused? ==> !again.error.RateChanged?)
      && (again.Ok? ==> moved == Some(again.value.quote.figures))
      && (moved.None? ==> again == Refused(BelowCommission))
  {
    hide *;
    StaleIsPastTheDoor(c, d, client, form, now);
    OnlyTheRateDiffers(c, d, Deposit, 0, 0, form, NatToString(k), now);
    PastTheDoor(c, d, client, form, now);
    PastTheDoor(c, d, client, form.(rate := NatToString(k)), now);
    if ResolveType(c, form) == Ok(Deposit) {
      DepositRateRefusal(c, d, client, form, now, k, moved);
    } else {
      WithdrawalRateRefusal(c, d, client, form, now, k, moved);
    }
  }

  // ---------------------------------------------------------------- wallets --

  lemma OnlyTheWalletDiffers(c: Config, d: Tables, kind: RequestType, rail: nat, merchant: nat, form: Form,
                             wallet: string, now: int)
    ensures var form' := form.(wallet := wallet);
      && ResolveType(c, form') == ResolveType(c, form)
      && ResolveMethod(c, d, kind, form') == ResolveMethod(c, d, kind, form)
      && ResolveMerchant(c, d, kind, rail, form') == ResolveMerchant(c, d, kind, rail, form)
      && ResolveQuote(c, d, kind, form', now) == ResolveQuote(c, d, kind, form, now)
      && ResolveProof(form') == ResolveProof(form)
      && ResolveMessage(c, form') == ResolveMessage(c, form)
  {
    hide Strip, NatToString, ReadInteger, CodedMethod, AvailableMethods, AvailableMerchants, CurrentRate,
         NumberEntry.ParseAmount, QuoteAt;
  }

  lemma Reechoed(c: Config, d: Tables, kind: RequestType, rail: nat, merchant: nat, form: Form, now: int, id: nat)
    requires Sane(c.unicode)
    requires ResolveWallet(c, d, kind, rail, merchant, form, now) == Refused(WalletChanged(id))
    ensures var again := ResolveWallet(c, d, kind, rail, merchant, form.(wallet := NatToString(id)), now);
      again.Ok? && again.value.id == id
  {
    StripNat(c.unicode, id);
    hide Strip, NatToString, MerchantMethodFor, ActiveWallet, Headroom;
  }

  lemma DepositWalletRefusal(c: Config, d: Tables, client: nat, form: Form, now: int, id: nat)
    requires Sane(c.unicode)
    requires BuildDepositDraft(c, d, client, form, now) == Refused(WalletChanged(id))
    ensures var again := BuildDepositDraft(c, d, client, form.(wallet := NatToString(id)), now);
      && (again.Refused? ==> !again.error.WalletChanged?)
      && (again.Ok? ==> again.value.wallet.Some? && again.value.wallet.value.id == id)
  {
    hide ResolveMethod, ResolveMerchant, ResolveWallet, ResolveQuote, CheckWalletCapacity, ResolveProof,
         ResolveMessage;
    NeverStale(c, d, Deposit, 0, 0, form, now);
    var rail := ResolveMethod(c, d, Deposit, form).value;
    NeverStale(c, d, Deposit, rail, 0, form, now);
    var merchant := ResolveMerchant(c, d, Deposit, rail, form).value;
    OnlyTheWalletDiffers(c, d, Deposit, rail, merchant, form, NatToString(id), now);
    StaleOneWay(c, d, Deposit, rail, merchant, form, now);
    Reechoed(c, d, Deposit, rail, merchant, form, now, id);
  }

  lemma WithdrawalHasNoWallet(c: Config, d: Tables, client: nat, form: Form, now: int)
    requires BuildWithdrawalDraft(c, d, client, form, now).Refused?
    ensures !BuildWithdrawalDraft(c, d, client, form, now).error.WalletChanged?
    ensures !BuildWithdrawalDraft(c, d, client, form, now).error.WalletCapExceeded?
  {
    hide ResolveMethod, ResolveMerchant, ResolveLink, ResolveQuote, RefuseProof, ResolveDestination, ResolveMessage,
         ResolveWallet;
    NeverStale(c, d, Withdrawal, 0, 0, form, now);
    if ResolveMethod(c, d, Withdrawal, form).Ok? {
      var rail := ResolveMethod(c, d, Withdrawal, form).value;
      NeverStale(c, d, Withdrawal, rail, 0, form, now);
      if ResolveMerchant(c, d, Withdrawal, rail, form).Ok? {
        NeverStale(c, d, Withdrawal, rail, ResolveMerchant(c, d, Withdrawal, rail, form).value, form, now);
      }
    }
    StaleOneWay(c, d, Withdrawal, 0, 0, form, now);
  }

  /** "The wallet has changed" names the wallet in force: a client who looks at it and
      echoes it is never told so again at that instant, and pays into that one. */
  lemma WalletRefusalIsCorrectable(c: Config, d: Tables, client: nat, form: Form, now: int, id: nat)
    requires Sane(c.unicode)
    requires BuildDraft(c, d, client, form, now) == Refused(WalletChanged(id))
    ensures var again := BuildDraft(c, d, client, form.(wallet := NatToString(id)), now);
      && (again.Refused? ==> !again.error.WalletChanged?)
      && (again.Ok? ==> again.value.wallet.Some? && again.value.wallet.value.id == id)
  {
    hide *;
    StaleIsPastTheDoor(c, d, client, form, now);
    OnlyTheWalletDiffers(c, d, Deposit, 0, 0, form, NatToString(id), now);
    PastTheDoor(c, d, client, form, now);
    PastTheDoor(c, d, client, form.(wallet := NatToString(id)), now);
    if ResolveType(c, form) == Ok(Deposit) {
      DepositWalletRefusal(c, d, client, form, now, id);
    } else {
      WithdrawalHasNoWallet(c, d, client, form, now);
    }
  }

  // -------------------------------------------------------------------- cap --

  /** "Too much for today" names what the echoed wallet can still take, and it is
      something: a wallet with nothing left refuses before the amount is read. */
  lemma CapRefusalTellsWhatFits(c: Config, d: Tables, client: nat, form: Form, now: int, left: nat)
    requires BuildDraft(c, d, client, form, now) == Refused(WalletCapExceeded(left))
    ensures left > 0
    ensures exists id: nat ::
          Live(d.wallets, id) && d.wallets[id].value.link < |d.links|
                && Strip(c.unicode, form.wallet) == NatToString(id)
                           && Headroom(d, d.wallets[id].value, c.capOffset, now) == Some(left)
  {
    hide *;
    StaleIsPastTheDoor(c, d, client, form, now);
    PastTheDoor(c, d, client, form, now);
    if ResolveType(c, form) == Ok(Deposit) {
      DepositCapRefusal(c, d, client, form, now, left);
    } else {
      WithdrawalHasNoWallet(c, d, client, form, now);
    }
  }

  lemma DepositCapRefusal(c: Config, d: Tables, client: nat, form: Form, now: int, left: nat)
    requires BuildDepositDraft(c, d, client, form, now) == Refused(WalletCapExceeded(left))
    ensures left > 0
    ensures exists id: nat ::
          Live(d.wallets, id) && d.wallets[id].value.link < |d.links|
                && Strip(c.unicode, form.wallet) == NatToString(id)
                           && Headroom(d, d.wallets[id].value, c.capOffset, now) == Some(left)
  {
    hide ResolveMethod, ResolveMerchant, ResolveWallet, ResolveQuote, CheckWalletCapacity, ResolveProof,
         ResolveMessage, Strip, NatToString, Headroom;
    NeverStale(c, d, Deposit, 0, 0, form, now);
    var rail := ResolveMethod(c, d, Deposit, form).value;
    NeverStale(c, d, Deposit, rail, 0, form, now);
    var merchant := ResolveMerchant(c, d, Deposit, rail, form).value;
    StaleOneWay(c, d, Deposit, rail, merchant, form, now);
    var held := ResolveWallet(c, d, Deposit, rail, merchant, form, now).value;
    WalletIsEchoed(c, d, Deposit, rail, merchant, form, now);
    RoomIsLeft(c, d, rail, merchant, form, now);
    var total := ResolveQuote(c, d, Deposit, form, now).value.figures.total;
    assert CheckWalletCapacity(c, d, held.row, total, now).Refused?;
    assert Live(d.wallets, held.id);
  }

  lemma RoomIsLeft(c: Config, d: Tables, rail: nat, merchant: nat, form: Form, now: int)
    requires ResolveWallet(c, d, Deposit, rail, merchant, form, now).Ok?
    ensures Headroom(d, ResolveWallet(c, d, Deposit, rail, merchant, form, now).value.row, c.capOffset, now) != Some(0)
  {
    hide Strip, NatToString, MerchantMethodFor, ActiveWallet, Headroom;
  }

  lemma OnlyTheAmountDiffers(c: Config, d: Tables, kind: RequestType, rail: nat, merchant: nat, form: Form,
                             amount: string, now: int)
    ensures var form' := form.(amountUsd := amount);
      && ResolveType(c, form') == ResolveType(c, form)
      && ResolveMethod(c, d, kind, form') == ResolveMethod(c, d, kind, form)
      && ResolveMerchant(c, d, kind, rail, form') == ResolveMerchant(c, d, kind, rail, form)
      && ResolveWallet(c, d, kind, rail, merchant, form', now) == ResolveWallet(c, d, kind, rail, merchant, form, now)
      && ResolveProof(form') == ResolveProof(form)
      && ResolveMessage(c, form') == ResolveMessage(c, form)
  {
    hide Strip, NatToString, ReadInteger, MerchantMethodFor, ActiveWallet, Headroom, CodedMethod, AvailableMethods,
         AvailableMerchants;
  }

  lemma DepositRetyped(c: Config, d: Tables, client: nat, form: Form, amount: string, now: int, left: nat)
    requires BuildDepositDraft(c, d, client, form, now) == Refused(WalletCapExceeded(left))
    ensures var form' := form.(amountUsd := amount);
      var again, quote := BuildDepositDraft(c, d, client, form', now), ResolveQuote(c, d, Deposit, form', now);
      && (again.Refused? && again.error.WalletCapExceeded? <==> quote.Ok? && 100 * quote.value.figures.total > left)
      && (again.Refused? && again.error.WalletCapExceeded? ==> again.error == WalletCapExceeded(left))
  {
    hide ResolveMethod, ResolveMerchant, ResolveWallet, ResolveQuote, ResolveProof, ResolveMessage, Headroom;
    NeverStale(c, d, Deposit, 0, 0, form, now);
    var rail := ResolveMethod(c, d, Deposit, form).value;
    NeverStale(c, d, Deposit, rail, 0, form, now);
    var merchant := ResolveMerchant(c, d, Deposit, rail, form).value;
    StaleOneWay(c, d, Deposit, rail, merchant, form, now);
    OnlyTheAmountDiffers(c, d, Deposit, rail, merchant, form, amount, now);
    StaleOneWay(c, d, Deposit, rail, merchant, form.(amountUsd := amount), now);
  }

  /** And that figure can be acted on: sent again with another amount, the form is told
      "too much for today" exactly when that amount's total is over what it was told is
      left, and is then told the same figure. */
  lemma CapRefusalIsCorrectable(c: Config, d: Tables, client: nat, form: Form, amount: string, now: int, left: nat)
    requires BuildDraft(c, d, client, form, now) == Refused(WalletCapExceeded(left))
    ensures var form' := form.(amountUsd := amount);
      var again, quote := BuildDraft(c, d, client, form', now), ResolveQuote(c, d, Deposit, form', now);
      && (again.Refused? && again.error.WalletCapExceeded? <==> quote.Ok? && 100 * quote.value.figures.total > left)
      && (again.Refused? && again.error.WalletCapExceeded? ==> again.error == WalletCapExceeded(left))
  {
    hide *;
    StaleIsPastTheDoor(c, d, client, form, now);
    OnlyTheAmountDiffers(c, d, Deposit, 0, 0, form, amount, now);
    PastTheDoor(c, d, client, form, now);
    PastTheDoor(c, d, client, form.(amountUsd := amount), now);
    if ResolveType(c, form) == Ok(Deposit) {
      DepositRetyped(c, d, client, form, amount, now, left);
    } else {
      WithdrawalHasNoWallet(c, d, client, form, now);
    }
  }
}
