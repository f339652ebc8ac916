/** The answer to a form, whichever it is, said of the words on it and the rows it meets:
    which objection comes first, what it tells the client, and what is drafted when there
    is none. */
module Verdict {
  import opened Basics
  import opened Text
  import opened Pricing
  import opened Desk
  import opened Submissions
  import opened Options
  import opened Offers
  import Refusals
  import NumberEntry
  import Destinations
  import Hours

  // --------------------------------------------------------------- the door --

  /** Out of hours nothing else is read; then the type is, as a word. */
  lemma AtTheDoor(c: Config, d: Tables, client: nat, form: Form, now: int)
    ensures var answer, word := BuildDraft(c, d, client, form, now), Strip(c.unicode, form.kind);
      && (answer.Refused? && answer.error.PortalClosed? <==> !Hours.OpenAt(c.hours, now))
      && (answer.Refused? && answer.error.PortalClosed? ==> answer.error.hours == Hours.Evaluate(c.hours, now))
      && (answer == Refused(TypeMissing) <==> Hours.OpenAt(c.hours, now) && word == "")
      && (answer == Refused(TypeUnknown) <==>
            Hours.OpenAt(c.hours, now) && word != "" && word != "deposit" && word != "withdrawal")
      && (Hours.OpenAt(c.hours, now) && word == "deposit" ==> answer == BuildDepositDraft(c, d, client, form, now))
      && (Hours.OpenAt(c.hours, now) && word == "withdrawal" ==>
          answer == BuildWithdrawalDraft(c, d, client, form, now))
  {
    Hours.OpenMeansInsideAWindow(c.hours, now);
    NotAtTheDoor(c, d, client, form, now);
    hide BuildDepositDraft, BuildWithdrawalDraft, Hours.Evaluate, Hours.OpenAt, Strip;
  }

  /** Past the door, nothing is refused for a reason of the door's. */
  predicate OfTheDoor(r: Refusal) {
    r.PortalClosed? || r.TypeMissing? || r.TypeUnknown?
  }

  lemma NotAtTheDoor(c: Config, d: Tables, client: nat, form: Form, now: int)
    ensures var deposit := BuildDepositDraft(c, d, client, form, now);
      deposit.Refused? ==> !OfTheDoor(deposit.error)
    ensures var withdrawal := BuildWithdrawalDraft(c, d, client, form, now);
      withdrawal.Refused? ==> !OfTheDoor(withdrawal.error)
  {
    hide ResolveMethod, ResolveMerchant, ResolveWallet, ResolveQuote, CheckWalletCapacity, ResolveProof,
         ResolveMessage, ResolveLink, RefuseProof, ResolveDestination;
    ChecksRefuseOtherwise(c, d, form, now);
    ResolversRefuseInTurn(c, d, Deposit, form, now);
    ResolversRefuseInTurn(c, d, Withdrawal, form, now);
  }

  lemma ResolversRefuseInTurn(c: Config, d: Tables, kind: RequestType, form: Form, now: int)
    ensures var rail := ResolveMethod(c, d, kind, form);
      && (rail.Refused? ==> !OfTheDoor(rail.error))
      && (rail.Ok? ==>
            var merchant := ResolveMerchant(c, d, kind, rail.value, form);
            && (merchant.Refused? ==> !OfTheDoor(merchant.error))
            && (merchant.Ok? ==>
                  var wallet, link := ResolveWallet(c, d, kind, rail.value, merchant.value, form, now),
                                      ResolveLink(d, kind, rail.value, merchant.value);
                  && (wallet.Refused? ==> !OfTheDoor(wallet.error))
                  && (link.Refused? ==> !OfTheDoor(link.error))))
    ensures ResolveQuote(c, d, kind, form, now).Refused? ==> !OfTheDoor(ResolveQuote(c, d, kind, form, now).error)
  {
    hide ResolveMethod, ResolveMerchant, ResolveWallet, ResolveQuote, ResolveLink, OfTheDoor;
    ResolversRefuseOtherwise(c, d, kind, 0, 0, form, now);
    if ResolveMethod(c, d, kind, form).Ok? {
      var rail := ResolveMethod(c, d, kind, form).value;
      ResolversRefuseOtherwise(c, d, kind, rail, 0, form, now);
      if ResolveMerchant(c, d, kind, rail, form).Ok? {
        ResolversRefuseOtherwise(c, d, kind, rail, ResolveMerchant(c, d, kind, rail, form).value, form, now);
      }
    }
  }

  lemma ResolversRefuseOtherwise(c: Config, d: Tables, kind: RequestType, rail: nat, merchant: nat, form: Form,
                                 now: int)
    ensures ResolveMethod(c, d, kind, form).Refused? ==> !OfTheDoor(ResolveMethod(c, d, kind, form).error)
    ensures ResolveMerchant(c, d, kind, rail, form).Refused? ==>
          !OfTheDoor(ResolveMerchant(c, d, kind, rail, form).error)
    ensures ResolveWallet(c, d, kind, rail, merchant, form, now).Refused? ==>
              !OfTheDoor(ResolveWallet(c, d, kind, rail, merchant, form, now).error)
    ensures ResolveLink(d, kind, rail, merchant).Refused? ==> !OfTheDoor(ResolveLink(d, kind, rail, merchant).error)
    ensures ResolveQuote(c, d, kind, form, now).Refused? ==> !OfTheDoor(ResolveQuote(c, d, kind, form, now).error)
  {
    hide Strip, NatToString, ReadInteger, CodedMethod, AvailableMethods, AvailableMerchants, MerchantMethodFor,
         ActiveWallet, Headroom, CurrentRate, NumberEntry.ParseAmount, Price;
  }

  lemma ChecksRefuseOtherwise(c: Config, d: Tables, form: Form, now: int)
    ensures ResolveProof(form).Refused? ==> !OfTheDoor(ResolveProof(form).error)
    ensures RefuseProof(form).Refused? ==> !OfTheDoor(RefuseProof(form).error)
    ensures ResolveDestination(c, form).Refused? ==> !OfTheDoor(ResolveDestination(c, form).error)
    ensures ResolveMessage(c, form).Refused? ==> !OfTheDoor(ResolveMessage(c, form).error)
    ensures forall w: Wallet, total :: w.link < |d.links| && CheckWalletCapacity(c, d, w, total, now).Refused? ==>
              !OfTheDoor(CheckWalletCapacity(c, d, w, total, now).error)
  {
    hide Strip, Headroom, Destinations.Normalised;
  }

  // --------------------------------------------------------------- the pair --

  ghost predicate CodeOpen(d: Tables, kind: RequestType, code: string) {
    exists p: nat, m: nat :: p < |d.methods| && d.methods[p].code == code && PairOpen(d, kind, p, m)
  }

  ghost predicate CodeOpenWith(d: Tables, kind: RequestType, code: string, m: nat) {
    exists p: nat :: p < |d.methods| && d.methods[p].code == code && PairOpen(d, kind, p, m)
  }

  /** What is wrong with the method and merchant a form names. */
  ghost function PairObjection(c: Config, d: Tables, kind: RequestType, form: Form): Option<Refusal> {
    var code, raw := Strip(c.unicode, form.rail), Strip(c.unicode, form.merchant);
    if code == "" then Some(MethodMissing)
    else if !CodeOpen(d, kind, code) then Some(MethodUnavailable)
    else if raw == "" then Some(MerchantMissing)
    else
      match ReadInteger(c.unicode, raw)
      case NotDigits => Some(MerchantUnknown)
      case Unreadable => Some(Uncaught)
      case Number(m) => if CodeOpenWith(d, kind, code, m) then None else Some(MerchantUnavailable)
  }

  /** The two resolvers between them raise exactly that, and otherwise find the pair. */
  lemma PairIsJudged(c: Config, d: Tables, kind: RequestType, form: Form)
    requires UniqueCodes(d.methods)
    ensures var found, objection := ResolveMethod(c, d, kind, form), PairObjection(c, d, kind, form);
      if found.Refused? then objection == Some(found.error)
      else
        var merchant := ResolveMerchant(c, d, kind, found.value, form);
        if merchant.Refused? then objection == Some(merchant.error)
        else
          && objection == None
          && found.value < |d.methods| && d.methods[found.value].code == Strip(c.unicode, form.rail)
          && ReadInteger(c.unicode, Strip(c.unicode, form.merchant)) == Number(merchant.value)
          && PairOpen(d, kind, found.value, merchant.value)
  {
    var code, raw := Strip(c.unicode, form.rail), Strip(c.unicode, form.merchant);
    if code != "" {
      CodeIsFound(d, kind, code);
      var found := CodedMethod(d, AvailableMethods(d, kind, None), code);
      if found.Some? && raw != "" && ReadInteger(c.unicode, raw).Number? {
        var m := ReadInteger(c.unicode, raw).value;
        ListedIffOpen(d, kind, found.value, m);
        if CodeOpenWith(d, kind, code, m) {
          var p: nat :| p < |d.methods| && d.methods[p].code == code && PairOpen(d, kind, p, m);
          assert p == found.value;
        }
      }
    }
    hide Strip, ReadInteger, CodedMethod, AvailableMethods, AvailableMerchants, PairOpen, CodeOpen;
  }

  /** A form whose pair is objected to is told so, a withdrawal's file coming before. */
  lemma PairIsRefused(c: Config, d: Tables, client: nat, form: Form, now: int)
    requires UniqueCodes(d.methods)
    ensures PairObjection(c, d, Deposit, form).Some? ==>
              BuildDepositDraft(c, d, client, form, now) == Refused(PairObjection(c, d, Deposit, form).value)
    ensures form.proof == NoFile && PairObjection(c, d, Withdrawal, form).Some? ==>
              BuildWithdrawalDraft(c, d, client, form, now) == Refused(PairObjection(c, d, Withdrawal, form).value)
    ensures form.proof != NoFile ==> BuildWithdrawalDraft(c, d, client, form, now) == Refused(ProofNotAccepted)
  {
    hide ResolveMethod, ResolveMerchant, ResolveWallet, ResolveQuote, ResolveLink, PairObjection, PairOpen, Strip,
         ReadInteger, UniqueCodes, CheckWalletCapacity, ResolveProof, ResolveMessage, ResolveDestination;
    PairIsJudged(c, d, Deposit, form);
    PairIsJudged(c, d, Withdrawal, form);
  }

  lemma CodeIsFound(d: Tables, kind: RequestType, code: string)
    ensures CodedMethod(d, AvailableMethods(d, kind, None), code).Some? <==> CodeOpen(d, kind, code)
  {
    var found := CodedMethod(d, AvailableMethods(d, kind, None), code);
    hide CodedMethod, AvailableMethods, PairOpen;
    if found.Some? {
      ListedIffOpen(d, kind, found.value, 0);
      var m: nat :| PairOpen(d, kind, found.value, m);
      assert d.methods[found.value].code == code;
    }
    if CodeOpen(d, kind, code) {
      var p: nat, m: nat :| p < |d.methods| && d.methods[p].code == code && PairOpen(d, kind, p, m);
      ListedIffOpen(d, kind, p, m);
    }
  }

  // ---------------------------------------------------------------- deposits --

  /** The wallet is the newest a deposit to this pair can be paid into. */
  ghost predicate PaidInto(d: Tables, rail: nat, merchant: nat, l: nat, w: nat) {
    && LinkOpen(d, Deposit, rail, merchant, l)
    && w < |d.wallets| && PayableWallet(d, l, w)
    && forall v: nat :: v < |d.wallets| && PayableWallet(d, l, v) ==>
         d.wallets[v].value.createdAt < d.wallets[w].value.createdAt
         || (d.wallets[v].value.createdAt == d.wallets[w].value.createdAt && v <= w)
  }

  lemma WalletIsTheNewest(d: Tables, rail: nat, merchant: nat, l: nat, w: nat)
    requires UniquePairs(d.links) && PaidInto(d, rail, merchant, l, w)
    ensures MerchantMethodFor(d, Deposit, rail, merchant) == Some(l) && ActiveWallet(d, l) == Some(w)
  {
    OfferableIsOpen(d, Deposit, l);
    var found := MerchantMethodFor(d, Deposit, rail, merchant);
    assert Joins(d, Deposit, rail, merchant, l);
    assert found.Some? && found.value == l;
    var active := ActiveWallet(d, l);
    assert Holds(d.wallets, w, l, false);
    assert NoNewer(d.wallets, w, active.value);
    assert PayableWallet(d, l, active.value);
  }

  /** The answer to a deposit form whose pair is open, in the order it is worked out. */
  function DepositAnswer(c: Config, d: Tables, client: nat, form: Form, now: int, p: nat, m: nat, w: nat)
    : Result<Draft, Refusal>
    requires w < |d.wallets| && d.wallets[w].Some? && d.wallets[w].value.link < |d.links|
  {
    var row := d.wallets[w].value;
    var taken := 100 * ConsumedIqd(d, row, c.capOffset, now);
    if row.dailyCap.Some? && taken >= row.dailyCap.value then Refused(WalletCapReached)
    else if Strip(c.unicode, form.wallet) != NatToString(w) then Refused(WalletChanged(w))
    else
      match CurrentRate(d.rates, Deposit, now)
      case None => Refused(NoRate)
      case Some(k) =>
        match NumberEntry.ParseAmount(c.unicode, c.depositBounds, form.amountUsd)
        case Refused(why) => Refused(AmountRefused(why))
        case Ok(cents) =>
          var figures := PricedDeposit(d.rates[k], cents);
          if Strip(c.unicode, form.rate) != NatToString(k) then Refused(RateChanged(k, Some(figures)))
          else if row.dailyCap.Some? && taken + 100 * figures.total > row.dailyCap.value
          then Refused(WalletCapExceeded(row.dailyCap.value - taken))
          else if form.proof == NoFile then Refused(ProofMissing)
          else if form.proof == UnacceptableFile then Refused(ProofInvalid)
          else if |Strip(c.unicode, form.message)| > c.messageLimit then Refused(MessageTooLong)
          else
            Ok(Draft(Deposit, client, p, m, Quote(k, d.rates[k], cents, figures, Deposit),
                     Strip(c.unicode, form.message),
                     Some(HeldWallet(w, row)), Some(form.proof.contentType), ""))
  }

  function PricedDeposit(rate: ExchangeRate, cents: nat): Figures {
    Price(rate.iqdPerUsd, rate.commission, cents, Deposit).value
  }

  lemma DepositIsAnswered(c: Config, d: Tables, client: nat, form: Form, now: int, p: nat, m: nat, l: nat, w: nat)
    requires UniqueCodes(d.methods) && UniquePairs(d.links)
    requires PairObjection(c, d, Deposit, form) == None
    requires p < |d.methods| && d.methods[p].code == Strip(c.unicode, form.rail)
    requires ReadInteger(c.unicode, Strip(c.unicode, form.merchant)) == Number(m)
    requires PaidInto(d, p, m, l, w)
    ensures BuildDepositDraft(c, d, client, form, now) == DepositAnswer(c, d, client, form, now, p, m, w)
  {
    hide ResolveMethod, ResolveMerchant, ResolveWallet, ResolveQuote, CheckWalletCapacity, ResolveProof,
         ResolveMessage, Strip, NatToString, ReadInteger, PairObjection, ConsumedIqd, CurrentRate,
         NumberEntry.ParseAmount, Price, UniquePairs, PairOpen, MerchantMethodFor, ActiveWallet;
    PairIsJudged(c, d, Deposit, form);
    assert ResolveMethod(c, d, Deposit, form) == Ok(p);
    assert ResolveMerchant(c, d, Deposit, p, form) == Ok(m);
    WalletIsTheNewest(d, p, m, l, w);
    WalletIsJudged(c, d, form, now, p, m, l, w);
    QuoteIsJudged(c, d, Deposit, form, now);
    DepositsAlwaysPrice(d.rates);
    var row := d.wallets[w].value;
    if row.dailyCap.Some? ==> 100 * ConsumedIqd(d, row, c.capOffset, now) < row.dailyCap.value {
      ChecksAreJudged(c, d, row, form, now);
    }
  }

  lemma DepositsAlwaysPrice(rates: seq<ExchangeRate>)
    ensures forall rate, per100, cents :: Price(rate, per100, cents, Deposit).Ok?
  {
    hide HalfUp;
  }

  lemma ChecksAreJudged(c: Config, d: Tables, row: Wallet, form: Form, now: int)
    requires row.link < |d.links|
    requires row.dailyCap.Some? ==> 100 * ConsumedIqd(d, row, c.capOffset, now) < row.dailyCap.value
    ensures forall total :: CheckWalletCapacity(c, d, row, total, now) ==
              var taken := 100 * ConsumedIqd(d, row, c.capOffset, now);
              if row.dailyCap.Some? && taken + 100 * total > row.dailyCap.value
              then Refused(WalletCapExceeded(row.dailyCap.value - taken))
              else Ok(())
    ensures ResolveProof(form) ==
            if form.proof == NoFile then Refused(ProofMissing)
            else if form.proof == UnacceptableFile then Refused(ProofInvalid)
            else Ok(form.proof.contentType)
    ensures ResolveMessage(c, form) ==
            if |Strip(c.unicode, form.message)| > c.messageLimit then Refused(MessageTooLong)
            else Ok(Strip(c.unicode, form.message))
  {
    hide Strip, ConsumedIqd;
  }

  lemma WalletIsJudged(c: Config, d: Tables, form: Form, now: int, p: nat, m: nat, l: nat, w: nat)
    requires MerchantMethodFor(d, Deposit, p, m) == Some(l) && ActiveWallet(d, l) == Some(w)
    ensures var row := d.wallets[w].value;
      && row.link < |d.links|
      && ResolveWallet(c, d, Deposit, p, m, form, now) ==
         if row.dailyCap.Some? && 100 * ConsumedIqd(d, row, c.capOffset, now) >= row.dailyCap.value
         then Refused(WalletCapReached)
         else if Strip(c.unicode, form.wallet) != NatToString(w) then Refused(WalletChanged(w))
         else Ok(HeldWallet(w, row))
  {
    hide Strip, NatToString, ConsumedIqd;
  }

  lemma QuoteIsJudged(c: Config, d: Tables, kind: RequestType, form: Form, now: int)
    ensures var bounds := if kind == Deposit then c.depositBounds else c.withdrawalBounds;
      var amount := NumberEntry.ParseAmount(c.unicode, bounds, form.amountUsd);
      match CurrentRate(d.rates, kind, now) {
        case None => ResolveQuote(c, d, kind, form, now) == Refused(NoRate)
        case Some(k) =>
          match amount
          case Refused(why) => ResolveQuote(c, d, kind, form, now) == Refused(AmountRefused(why))
          case Ok(cents) =>
            var priced := Price(d.rates[k].iqdPerUsd, d.rates[k].commission, cents, kind);
            ResolveQuote(c, d, kind, form, now) ==
              if Strip(c.unicode, form.rate) != NatToString(k)
              then Refused(RateChanged(k, if priced.Ok? then Some(priced.value) else None))
              else if priced.Refused? then Refused(BelowCommission)
              else Ok(Quote(k, d.rates[k], cents, priced.value, kind))
      }
  {
    hide Strip, NatToString, CurrentRate, NumberEntry.ParseAmount, Price;
  }

  // ------------------------------------------------------------- withdrawals --

  /** The answer to a withdrawal form: a file is turned away first of all, then the pair,
      the account, the rate, the amount, and the commission. */
  ghost function WithdrawalAnswer(c: Config, d: Tables, client: nat, form: Form, now: int, p: nat, m: nat)
    : Result<Draft, Refusal>
  {
    if form.proof != NoFile then Refused(ProofNotAccepted)
    else if PairObjection(c, d, Withdrawal, form).Some? then Refused(PairObjection(c, d, Withdrawal, form).value)
    else
      match Destinations.Normalised(c.unicode, c.band, form.destination)
      case Refused(problem) => Refused(DestinationRefused(problem))
      case Ok(account) =>
        match CurrentRate(d.rates, Withdrawal, now)
        case None => Refused(NoRate)
        case Some(k) =>
          match NumberEntry.ParseAmount(c.unicode, c.withdrawalBounds, form.amountUsd)
          case Refused(why) => Refused(AmountRefused(why))
          case Ok(cents) =>
            var priced := Price(d.rates[k].iqdPerUsd, d.rates[k].commission, cents, Withdrawal);
            if Strip(c.unicode, form.rate) != NatToString(k)
            then Refused(RateChanged(k, if priced.Ok? then Some(priced.value) else None))
            else if priced.Refused? then Refused(BelowCommission)
            else if |Strip(c.unicode, form.message)| > c.messageLimit then Refused(MessageTooLong)
            else
              Ok(Draft(Withdrawal, client, p, m, Quote(k, d.rates[k], cents, priced.value, Withdrawal),
                       Strip(c.unicode, form.message), None, None, account))
  }

  lemma WithdrawalIsAnswered(c: Config, d: Tables, client: nat, form: Form, now: int, p: nat, m: nat)
    requires UniqueCodes(d.methods)
    requires p < |d.methods| && d.methods[p].code == Strip(c.unicode, form.rail)
    requires ReadInteger(c.unicode, Strip(c.unicode, form.merchant)) == Number(m)
    ensures BuildWithdrawalDraft(c, d, client, form, now) == WithdrawalAnswer(c, d, client, form, now, p, m)
  {
    hide ResolveMethod, ResolveMerchant, ResolveQuote, ResolveLink, ResolveDestination, ResolveMessage, RefuseProof,
         Strip, NatToString, ReadInteger, PairObjection, PairOpen, CurrentRate, NumberEntry.ParseAmount, Price,
         Destinations.Normalised, UniqueCodes, QuoteAt, BoundsFor;
    PairIsRefused(c, d, client, form, now);
    if form.proof == NoFile && PairObjection(c, d, Withdrawal, form) == None {
      PairIsFound(c, d, form, p, m);
      QuoteIsJudged(c, d, Withdrawal, form, now);
      WordsAreJudged(c, form);
    }
  }

  lemma PairIsFound(c: Config, d: Tables, form: Form, p: nat, m: nat)
    requires UniqueCodes(d.methods) && PairObjection(c, d, Withdrawal, form) == None
    requires p < |d.methods| && d.methods[p].code == Strip(c.unicode, form.rail)
    requires ReadInteger(c.unicode, Strip(c.unicode, form.merchant)) == Number(m)
    ensures ResolveMethod(c, d, Withdrawal, form) == Ok(p) && ResolveMerchant(c, d, Withdrawal, p, form) == Ok(m)
    ensures ResolveLink(d, Withdrawal, p, m).Ok?
  {
    hide ResolveMethod, ResolveMerchant, Strip, ReadInteger, PairObjection, PairOpen, MerchantMethodFor;
    PairIsJudged(c, d, Withdrawal, form);
    ListedIffOpen(d, Withdrawal, p, m);
  }

  lemma WordsAreJudged(c: Config, form: Form)
    ensures RefuseProof(form).Ok? <==> form.proof == NoFile
    ensures ResolveMessage(c, form) ==
            if |Strip(c.unicode, form.message)| > c.messageLimit then Refused(MessageTooLong)
            else Ok(Strip(c.unicode, form.message))
    ensures match Destinations.Normalised(c.unicode, c.band, form.destination) {
              case Refused(problem) => ResolveDestination(c, form) == Refused(DestinationRefused(problem))
              case Ok(account) => ResolveDestination(c, form) == Ok(account)
            }
  {
    hide Strip, Destinations.Normalised;
  }
}
