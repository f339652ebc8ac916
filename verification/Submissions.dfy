/** Creating a request from what the client's wizard collected: reading and checking
    the form, and then writing it. */
module Submissions {
  import opened Basics
  import opened Text
  import opened Pricing
  import opened Desk
  import NumberEntry
  import Destinations
  import Hours

  const DEPOSIT_VALUE := "deposit"
  const WITHDRAWAL_VALUE := "withdrawal"

  /** Configuration the submission endpoints read. */
  datatype Config = Config(
    unicode: Unicode,
    hours: Hours.Settings,
    depositBounds: NumberEntry.Bounds,
    withdrawalBounds: NumberEntry.Bounds,
    band: Destinations.Band,
    messageLimit: nat,
    capOffset: int)  // the zone a cap's day is counted in

  datatype Upload = NoFile | UnacceptableFile | AcceptableFile(contentType: string)

  /** The posted form; an absent field reads as the empty string. */
  datatype Form = Form(
    kind: string, rail: string, merchant: string, wallet: string, rate: string,
    amountUsd: string, destination: string, message: string, proof: Upload)

  datatype Quote = Quote(rateId: nat, rate: ExchangeRate, amountUsd: nat, figures: Figures, direction: RequestType)

  /** The wallet row as it was read when the draft was built. */
  datatype HeldWallet = HeldWallet(id: nat, row: Wallet)

  datatype Draft = Draft(
    kind: RequestType, client: nat, rail: nat, merchant: nat, quote: Quote, message: string,
    wallet: Option<HeldWallet>, proof: Option<string>, destination: string)

  datatype Refusal =
    | PortalClosed(hours: Hours.Hours)
    | TypeMissing | TypeUnknown
    | MethodMissing | MethodUnavailable
    | MerchantMissing | MerchantUnknown | MerchantUnavailable
    | WalletUnavailable | WalletCapReached | WalletChanged(current: nat)
    | NoRate | AmountRefused(why: NumberEntry.AmountError)
    | RateChanged(inForce: nat, moved: Option<Figures>) | BelowCommission
    | WalletCapExceeded(remaining: nat)
    | ProofMissing | ProofInvalid | ProofNotAccepted
    | DestinationRefused(problem: Destinations.DestinationError)
    | MessageTooLong
    | Uncaught     // an exception other than SubmissionError: nothing is written
    | NotClean     // full_clean found a row missing or a figure its column cannot hold

  // ------------------------------------------------------------- resolvers --

  function CheckBusinessHours(c: Config, now: int): Result<(), Refusal> {
    var hours := Hours.Evaluate(c.hours, now);
    if hours.isOpen then Ok(()) else Refused(PortalClosed(hours))
  }

  function ResolveType(c: Config, form: Form): Result<RequestType, Refusal> {
    var value := Strip(c.unicode, form.kind);
    if value == "" then Refused(TypeMissing)
    else if value == DEPOSIT_VALUE then Ok(Deposit)
    else if value == WITHDRAWAL_VALUE then Ok(Withdrawal)
    else Refused(TypeUnknown)
  }

  /** The first method among `among` with this code. */
  function CodedMethod(d: Tables, among: set<nat>, code: string, from: nat := 0): (r: Option<nat>)
    requires from <= |d.methods|
    ensures r.Some? ==> r.value in among && r.value < |d.methods| && d.methods[r.value].code == code
    ensures r.None? ==> forall p: nat :: from <= p < |d.methods| && p in among ==> d.methods[p].code != code
    decreases |d.methods| - from
  {
    if from == |d.methods| then None
    else if from in among && d.methods[from].code == code then Some(from)
    else CodedMethod(d, among, code, from + 1)
  }

  function ResolveMethod(c: Config, d: Tables, kind: RequestType, form: Form): Result<nat, Refusal> {
    var code := Strip(c.unicode, form.rail);
    if code == "" then Refused(MethodMissing)
    else
      match CodedMethod(d, AvailableMethods(d, kind, None), code)
      case None => Refused(MethodUnavailable)
      case Some(p) => Ok(p)
  }

  function ResolveMerchant(c: Config, d: Tables, kind: RequestType, rail: nat, form: Form): Result<nat, Refusal> {
    var raw := Strip(c.unicode, form.merchant);
    if raw == "" then Refused(MerchantMissing)
    else
      match ReadInteger(c.unicode, raw)
      case NotDigits => Refused(MerchantUnknown)
      case Unreadable => Refused(Uncaught)
      case Number(m) => if m in AvailableMerchants(d, kind, Some(rail)) then Ok(m) else Refused(MerchantUnavailable)
  }

  function ResolveLink(d: Tables, kind: RequestType, rail: nat, merchant: nat): (r: Result<nat, Refusal>)
    ensures r.Ok? ==> r.value < |d.links|
  {
    match MerchantMethodFor(d, kind, rail, merchant)
    case None => Refused(MerchantUnavailable)
    case Some(l) => Ok(l)
  }

  function ResolveWallet(c: Config, d: Tables, kind: RequestType, rail: nat, merchant: nat, form: Form, now: int)
    : (r: Result<HeldWallet, Refusal>)
    ensures r.Ok? ==> r.value.row.link < |d.links|
  {
    var link :- ResolveLink(d, kind, rail, merchant);
    match ActiveWallet(d, link)
    case None => Refused(WalletUnavailable)
    case Some(id) =>
      var row := d.wallets[id].value;
      if Headroom(d, row, c.capOffset, now) == Some(0) then Refused(WalletCapReached)
      else if Strip(c.unicode, form.wallet) != NatToString(id) then Refused(WalletChanged(id))
      else Ok(HeldWallet(id, row))
  }

  function BoundsFor(c: Config, kind: RequestType): NumberEntry.Bounds {
    if kind.Deposit? then c.depositBounds else c.withdrawalBounds
  }

  function QuoteAt(rates: seq<ExchangeRate>, rateId: nat, amount: nat, kind: RequestType): Result<Quote, Refusal>
    requires rateId < |rates|
  {
    match Price(rates[rateId].iqdPerUsd, rates[rateId].commission, amount, kind)
    case Refused(_) => Refused(BelowCommission)
    case Ok(figures) => Ok(Quote(rateId, rates[rateId], amount, figures, kind))
  }

  function ResolveQuote(c: Config, d: Tables, kind: RequestType, form: Form, now: int): Result<Quote, Refusal> {
    match CurrentRate(d.rates, kind, now)
    case None => Refused(NoRate)
    case Some(rateId) =>
      match NumberEntry.ParseAmount(c.unicode, BoundsFor(c, kind), form.amountUsd)
      case Refused(why) => Refused(AmountRefused(why))
      case Ok(amount) =>
        if Strip(c.unicode, form.rate) != NatToString(rateId) then
          match QuoteAt(d.rates, rateId, amount, kind)
          case Ok(q) => Refused(RateChanged(rateId, Some(q.figures)))
          case Refused(_) => Refused(RateChanged(rateId, None))
        else QuoteAt(d.rates, rateId, amount, kind)
  }

  function ResolveProof(form: Form): Result<string, Refusal> {
    match form.proof
    case NoFile => Refused(ProofMissing)
    case UnacceptableFile => Refused(ProofInvalid)
    case AcceptableFile(contentType) => Ok(contentType)
  }

  function RefuseProof(form: Form): Result<(), Refusal> {
    if form.proof.NoFile? then Ok(()) else Refused(ProofNotAccepted)
  }

  function ResolveDestination(c: Config, form: Form): Result<string, Refusal> {
    match Destinations.Normalised(c.unicode, c.band, form.destination)
    case Refused(problem) => Refused(DestinationRefused(problem))
    case Ok(number) => Ok(number)
  }

  function ResolveMessage(c: Config, form: Form): Result<string, Refusal> {
    var body := Strip(c.unicode, form.message);
    if |body| > c.messageLimit then Refused(MessageTooLong) else Ok(body)
  }

  function CheckWalletCapacity(c: Config, d: Tables, w: Wallet, total: int, now: int): Result<(), Refusal>
    requires w.link < |d.links|
  {
    var remaining := Headroom(d, w, c.capOffset, now);
    if remaining.None? || 100 * total <= remaining.value then Ok(()) else Refused(WalletCapExceeded(remaining.value))
  }

  // ---------------------------------------------------------------- drafts --

  function BuildDepositDraft(c: Config, d: Tables, client: nat, form: Form, now: int): Result<Draft, Refusal> {
    var rail :- ResolveMethod(c, d, Deposit, form);
    var merchant :- ResolveMerchant(c, d, Deposit, rail, form);
    var wallet :- ResolveWallet(c, d, Deposit, rail, merchant, form, now);
    var quote :- ResolveQuote(c, d, Deposit, form, now);
    var _ :- CheckWalletCapacity(c, d, wallet.row, quote.figures.total, now);
    var proof :- ResolveProof(form);
    var message :- ResolveMessage(c, form);
    Ok(Draft(Deposit, client, rail, merchant, quote, message, Some(wallet), Some(proof), ""))
  }

  function BuildWithdrawalDraft(c: Config, d: Tables, client: nat, form: Form, now: int): Result<Draft, Refusal> {
    var _ :- RefuseProof(form);
    var rail :- ResolveMethod(c, d, Withdrawal, form);
    var merchant :- ResolveMerchant(c, d, Withdrawal, rail, form);
    var _ :- ResolveLink(d, Withdrawal, rail, merchant);
    var destination :- ResolveDestination(c, form);
    var quote :- ResolveQuote(c, d, Withdrawal, form, now);
    var message :- ResolveMessage(c, form);
    Ok(Draft(Withdrawal, client, rail, merchant, quote, message, None, None, destination))
  }

  function BuildDraft(c: Config, d: Tables, client: nat, form: Form, now: int): Result<Draft, Refusal> {
    var _ :- CheckBusinessHours(c, now);
    var kind :- ResolveType(c, form);
    match kind
    case Withdrawal => BuildWithdrawalDraft(c, d, client, form, now)
    case Deposit => BuildDepositDraft(c, d, client, form, now)
  }

  // ------------------------------------------------------------- the write --

  /** What `full_clean` demands of the row: its wallet exists, its figures are
      positive and fit their columns, and only a withdrawal names a destination. */
  predicate FullClean(d: Tables, draft: Draft) {
    && draft.merchant < |d.merchants| && draft.rail < |d.methods|
    && (draft.wallet.Some? ==> Live(d.wallets, draft.wallet.value.id))
    && FitsColumns(draft)
  }

  predicate FitsColumns(draft: Draft) {
    && 1 <= draft.quote.amountUsd < 1_000_000_000_000
    && 1 <= draft.quote.figures.total < 100_000_000_000_000
    && -10_000_000_000 < draft.quote.figures.commission < 10_000_000_000
    && |draft.destination| <= 64
    && (draft.kind.Withdrawal? <==> draft.destination != "")
  }

  function RequestOf(draft: Draft, now: int): Request {
    var q := draft.quote;
    Request(draft.kind, draft.client, draft.rail, draft.merchant,
            if draft.wallet.Some? then Some(draft.wallet.value.id) else None,
            if draft.wallet.Some? then draft.wallet.value.row.number else "",
            draft.destination,
            q.amountUsd, q.figures.total, q.rate.iqdPerUsd, q.figures.commission, q.rate.commission,
            q.amountUsd, q.figures.total, Submitted, now)
  }

  function Recheck(c: Config, d: Tables, draft: Draft, now: int): Result<(), Refusal> {
    match draft.wallet
    case None => Ok(())
    case Some(held) =>
      if held.row.link >= |d.links| then Refused(Uncaught)
      else CheckWalletCapacity(c, d, held.row, draft.quote.figures.total, now)
  }

  /** `create_request`, all of it or none. */
  function CreateRequest(c: Config, d: Tables, draft: Draft, now: int): Result<Tables, Refusal> {
    var _ :- Recheck(c, d, draft, now);
    if !FullClean(d, draft) then Refused(NotClean)
    else
      var id := |d.requests|;
      Ok(d.(requests := d.requests + [RequestOf(draft, now)],
            attachments := d.attachments + (if draft.proof.Some? then [Attachment(id, draft.proof.value)] else []),
            messages := d.messages + (if draft.message != "" then [Message(id, draft.client, draft.message)] else []),
            audit := d.audit + [AuditEntry(StatusChange, RequestRow(id), None, Snapshot(None, None), Plainly)]))
  }

  // ---------------------------------------------------------- what is agreed --

  /** The type, pair, file and message are the ones the form carried. */
  predicate Named(c: Config, d: Tables, form: Form, draft: Draft) {
    && ResolveType(c, form) == Ok(draft.kind)
    && draft.rail < |d.methods| && d.methods[draft.rail].code == Strip(c.unicode, form.rail)
    && ReadInteger(c.unicode, Strip(c.unicode, form.merchant)) == Number(draft.merchant)
    && form.proof == (if draft.proof.Some? then AcceptableFile(draft.proof.value) else NoFile)
    && (draft.proof.Some? <==> draft.kind.Deposit?)
    && draft.message == Strip(c.unicode, form.message) && |draft.message| <= c.messageLimit
  }

  /** What every accepted draft records of the desk it was built against: a pair on
      offer, the wallet and the rate revision the client echoed, the amount they
      typed, and the price of that amount at that revision. */
  ghost predicate Consented(c: Config, d: Tables, form: Form, draft: Draft) {
    && Named(c, d, form, draft)
    && draft.quote.rateId < |d.rates|
    && draft.quote.rate == d.rates[draft.quote.rateId]
    && draft.quote.rate.direction == draft.kind == draft.quote.direction
    && Strip(c.unicode, form.rate) == NatToString(draft.quote.rateId)
    && NumberEntry.ParseAmount(c.unicode, BoundsFor(c, draft.kind), form.amountUsd) == Ok(draft.quote.amountUsd)
    && Price(draft.quote.rate.iqdPerUsd, draft.quote.rate.commission, draft.quote.amountUsd, draft.kind)
          == Ok(draft.quote.figures)
    && (draft.wallet.Some? <==> draft.kind.Deposit?)
    && (draft.wallet.Some? ==> Strip(c.unicode, form.wallet) == NatToString(draft.wallet.value.id))
    && (if draft.kind.Deposit? then draft.destination == ""
        else Destinations.Normalised(c.unicode, c.band, form.destination) == Ok(draft.destination))
  }

  /** The wallet and the pair a deposit draft holds are one offerable link's. */
  ghost predicate HoldsLink(d: Tables, draft: Draft) {
    draft.wallet.Some? ==>
      var held := draft.wallet.value;
      && Live(d.wallets, held.id) && d.wallets[held.id] == Some(held.row)
      && held.row.link < |d.links|
      && d.links[held.row.link].merchant == draft.merchant
      && d.links[held.row.link].rail == draft.rail
  }

  lemma QuoteIsPriced(c: Config, d: Tables, kind: RequestType, form: Form, now: int)
    requires ResolveQuote(c, d, kind, form, now).Ok?
    ensures var q := ResolveQuote(c, d, kind, form, now).value;
      && CurrentRate(d.rates, kind, now) == Some(q.rateId)
      && Strip(c.unicode, form.rate) == NatToString(q.rateId)
      && NumberEntry.ParseAmount(c.unicode, BoundsFor(c, kind), form.amountUsd) == Ok(q.amountUsd)
      && q.rateId < |d.rates| && q.rate == d.rates[q.rateId] && q.rate.direction == q.direction == kind
      && Price(q.rate.iqdPerUsd, q.rate.commission, q.amountUsd, kind) == Ok(q.figures)
  {
  }

  lemma WalletIsEchoed(c: Config, d: Tables, kind: RequestType, rail: nat, merchant: nat, form: Form, now: int)
    requires ResolveWallet(c, d, kind, rail, merchant, form, now).Ok?
    ensures var held := ResolveWallet(c, d, kind, rail, merchant, form, now).value;
      && Live(d.wallets, held.id) && d.wallets[held.id] == Some(held.row)
      && Strip(c.unicode, form.wallet) == NatToString(held.id)
      && held.row.link < |d.links|
      && d.links[held.row.link].merchant == merchant && d.links[held.row.link].rail == rail
  {
  }

  lemma PairIsNamed(c: Config, d: Tables, kind: RequestType, rail: nat, merchant: nat, form: Form)
    requires ResolveMethod(c, d, kind, form) == Ok(rail)
    requires ResolveMerchant(c, d, kind, rail, form) == Ok(merchant)
    ensures rail < |d.methods| && d.methods[rail].code == Strip(c.unicode, form.rail)
    ensures ReadInteger(c.unicode, Strip(c.unicode, form.merchant)) == Number(merchant)
  {
  }

  /** What an accepted deposit was resolved from, step by step. */
  lemma DepositSteps(c: Config, d: Tables, client: nat, form: Form, now: int)
    requires BuildDepositDraft(c, d, client, form, now).Ok?
    ensures var draft := BuildDepositDraft(c, d, client, form, now).value;
      && draft.kind == Deposit && draft.client == client && draft.wallet.Some? && draft.destination == ""
      && ResolveMethod(c, d, Deposit, form) == Ok(draft.rail)
      && ResolveMerchant(c, d, Deposit, draft.rail, form) == Ok(draft.merchant)
      && ResolveWallet(c, d, Deposit, draft.rail, draft.merchant, form, now) == Ok(draft.wallet.value)
      && ResolveQuote(c, d, Deposit, form, now) == Ok(draft.quote)
      && CheckWalletCapacity(c, d, draft.wallet.value.row, draft.quote.figures.total, now).Ok?
      && draft.proof.Some? && ResolveProof(form) == Ok(draft.proof.value)
      && ResolveMessage(c, form) == Ok(draft.message)
  {
    hide ResolveMethod, ResolveMerchant, ResolveWallet, ResolveQuote, CheckWalletCapacity, ResolveProof,
         ResolveMessage;
  }

  lemma WithdrawalSteps(c: Config, d: Tables, client: nat, form: Form, now: int)
    requires BuildWithdrawalDraft(c, d, client, form, now).Ok?
    ensures var draft := BuildWithdrawalDraft(c, d, client, form, now).value;
      && draft.kind == Withdrawal && draft.client == client && draft.wallet.None? && draft.proof.None?
      && RefuseProof(form).Ok?
      && ResolveMethod(c, d, Withdrawal, form) == Ok(draft.rail)
      && ResolveMerchant(c, d, Withdrawal, draft.rail, form) == Ok(draft.merchant)
      && ResolveDestination(c, form) == Ok(draft.destination)
      && ResolveQuote(c, d, Withdrawal, form, now) == Ok(draft.quote)
      && ResolveMessage(c, form) == Ok(draft.message)
  {
    hide ResolveMethod, ResolveMerchant, ResolveLink, ResolveQuote, RefuseProof, ResolveDestination, ResolveMessage;
  }

  lemma WordsAreNamed(c: Config, form: Form, proof: string, message: string, destination: string)
    ensures ResolveProof(form) == Ok(proof) ==> form.proof == AcceptableFile(proof)
    ensures RefuseProof(form).Ok? ==> form.proof == NoFile
    ensures ResolveMessage(c, form) == Ok(message) ==>
          message == Strip(c.unicode, form.message) && |message| <= c.messageLimit
    ensures ResolveDestination(c, form) == Ok(destination) ==>
          Destinations.Normalised(c.unicode, c.band, form.destination) == Ok(destination)
  {
    hide Strip, Destinations.Normalised;
  }

  lemma DepositIsConsented(c: Config, d: Tables, client: nat, form: Form, now: int)
    requires BuildDepositDraft(c, d, client, form, now).Ok? && ResolveType(c, form) == Ok(Deposit)
    ensures var draft := BuildDepositDraft(c, d, client, form, now).value;
      && Named(c, d, form, draft) && Consented(c, d, form, draft) && HoldsLink(d, draft)
      && CurrentRate(d.rates, Deposit, now) == Some(draft.quote.rateId)
  {
    hide BuildDepositDraft, ResolveMethod, ResolveMerchant, ResolveQuote, ResolveWallet, ResolveType, ResolveProof,
         ResolveMessage, CheckWalletCapacity, Price, Strip, NatToString, ReadInteger, CurrentRate,
         NumberEntry.ParseAmount, Destinations.Normalised;
    DepositSteps(c, d, client, form, now);
    var draft := BuildDepositDraft(c, d, client, form, now).value;
    WalletIsEchoed(c, d, Deposit, draft.rail, draft.merchant, form, now);
    PairIsNamed(c, d, Deposit, draft.rail, draft.merchant, form);
    QuoteIsPriced(c, d, Deposit, form, now);
    WordsAreNamed(c, form, draft.proof.value, draft.message, draft.destination);
  }

  lemma WithdrawalIsConsented(c: Config, d: Tables, client: nat, form: Form, now: int)
    requires BuildWithdrawalDraft(c, d, client, form, now).Ok? && ResolveType(c, form) == Ok(Withdrawal)
    ensures var draft := BuildWithdrawalDraft(c, d, client, form, now).value;
      && Named(c, d, form, draft) && Consented(c, d, form, draft) && HoldsLink(d, draft)
      && CurrentRate(d.rates, Withdrawal, now) == Some(draft.quote.rateId)
  {
    hide BuildWithdrawalDraft, ResolveMethod, ResolveMerchant, ResolveQuote, ResolveType, ResolveMessage, RefuseProof,
         ResolveDestination, Price, Strip, NatToString, ReadInteger, CurrentRate, NumberEntry.ParseAmount,
         Destinations.Normalised;
    WithdrawalSteps(c, d, client, form, now);
    var draft := BuildWithdrawalDraft(c, d, client, form, now).value;
    PairIsNamed(c, d, Withdrawal, draft.rail, draft.merchant, form);
    QuoteIsPriced(c, d, Withdrawal, form, now);
    WordsAreNamed(c, form, "", draft.message, draft.destination);
  }

  lemma AcceptedByType(c: Config, d: Tables, client: nat, form: Form, now: int)
    requires BuildDraft(c, d, client, form, now).Ok?
    ensures ResolveType(c, form) == Ok(Deposit) || ResolveType(c, form) == Ok(Withdrawal)
    ensures CheckBusinessHours(c, now).Ok?
    ensures BuildDraft(c, d, client, form, now) ==
            if ResolveType(c, form) == Ok(Deposit) then BuildDepositDraft(c, d, client, form, now)
                  else BuildWithdrawalDraft(c, d, client, form, now)
  {
    hide BuildDepositDraft, BuildWithdrawalDraft, ResolveType, CheckBusinessHours;
  }

  /** Accepting a form means the client consented to exactly what is recorded, at the
      revision in force at that instant. */
  lemma DraftIsConsented(c: Config, d: Tables, client: nat, form: Form, now: int)
    requires BuildDraft(c, d, client, form, now).Ok?
    ensures var draft := BuildDraft(c, d, client, form, now).value;
      && Consented(c, d, form, draft)
      && HoldsLink(d, draft)
      && draft.client == client
      && CurrentRate(d.rates, draft.kind, now) == Some(draft.quote.rateId)
  {
    hide *;
    AcceptedByType(c, d, client, form, now);
    if ResolveType(c, form) == Ok(Deposit) {
      DepositSteps(c, d, client, form, now);
      DepositIsConsented(c, d, client, form, now);
    } else {
      WithdrawalSteps(c, d, client, form, now);
      WithdrawalIsConsented(c, d, client, form, now);
    }
  }

  /** In an unchanging state the last two guards on the way to the wallet cannot
      refuse: the pair that passed `resolve_merchant` has a link, and a deposit's
      link has an active wallet. */
  lemma LaterGuardsAreUnreachable(c: Config, d: Tables, kind: RequestType, form: Form, now: int, rail: nat,
                                  merchant: nat)
    requires ResolveMethod(c, d, kind, form) == Ok(rail)
    requires ResolveMerchant(c, d, kind, rail, form) == Ok(merchant)
    ensures ResolveLink(d, kind, rail, merchant).Ok?
    ensures kind.Deposit? ==>
              ResolveWallet(c, d, kind, rail, merchant, form, now).Ok?
              || ResolveWallet(c, d, kind, rail, merchant, form, now).error in
                   {WalletCapReached, WalletChanged(ActiveWallet(d, ResolveLink(d, kind, rail, merchant).value).value)}
  {
    CatalogueDuality(d, kind, rail, merchant);
  }

  lemma PairStands(c: Config, d: Tables, kind: RequestType, rail: nat, merchant: nat, form: Form)
    requires ResolveMerchant(c, d, kind, rail, form) == Ok(merchant)
    ensures merchant < |d.merchants| && rail < |d.methods|
  {
    CatalogueDuality(d, kind, rail, merchant);
  }

  /** An accepted draft's merchant and method exist. */
  lemma DraftsPairStands(c: Config, d: Tables, client: nat, form: Form, now: int)
    requires BuildDraft(c, d, client, form, now).Ok?
    ensures var draft := BuildDraft(c, d, client, form, now).value;
      draft.merchant < |d.merchants| && draft.rail < |d.methods|
  {
    hide *;
    AcceptedByType(c, d, client, form, now);
    var draft := BuildDraft(c, d, client, form, now).value;
    if ResolveType(c, form) == Ok(Deposit) {
      DepositSteps(c, d, client, form, now);
    } else {
      WithdrawalSteps(c, d, client, form, now);
    }
    PairStands(c, d, draft.kind, draft.rail, draft.merchant, form);
  }

  lemma TotalOfAccepted(c: Config, d: Tables, form: Form, draft: Draft)
    requires Consented(c, d, form, draft)
    ensures draft.quote.figures.total >= 1
          <==> draft.kind.Withdrawal? || draft.quote.figures.converted + draft.quote.figures.commission >= 500
  {
    hide NumberEntry.ParseAmount, Destinations.Normalised, Strip, NatToString;
  }

  /** Twelve digits of dollars, sixteen of dinars, both with two places; a commission of
      twelve; and a destination named by a withdrawal and by nothing else. */
  lemma ColumnsTake(draft: Draft)
    ensures FitsColumns(draft) <==>
            && 1 <= draft.quote.amountUsd <= 999_999_999_999
            && 1 <= draft.quote.figures.total <= 99_999_999_999_999
            && -9_999_999_999 <= draft.quote.figures.commission <= 9_999_999_999
            && |draft.destination| <= 64 && (draft.kind == Withdrawal <==> draft.destination != "")
  {
  }

  /** Committed at the instant it was built, an accepted draft is refused only if its
      own figures do not fit the row; a deposit passes every check of `build_draft` and
      is still unstorable when conversion and commission come to less than 500 dinars. */
  lemma AcceptedIsStoredIff(c: Config, d: Tables, client: nat, form: Form, now: int)
    requires BuildDraft(c, d, client, form, now).Ok?
    ensures var draft := BuildDraft(c, d, client, form, now).value;
      && (CreateRequest(c, d, draft, now).Ok? <==>
            && 1 <= draft.quote.amountUsd <= 999_999_999_999
            && 1 <= draft.quote.figures.total <= 99_999_999_999_999
            && -9_999_999_999 <= draft.quote.figures.commission <= 9_999_999_999
            && |draft.destination| <= 64 && (draft.kind == Withdrawal <==> draft.destination != ""))
      && (draft.quote.figures.total >= 1
          <==> draft.kind.Withdrawal? || draft.quote.figures.converted + draft.quote.figures.commission >= 500)
  {
    hide BuildDepositDraft, BuildWithdrawalDraft, ResolveMethod, ResolveMerchant, ResolveQuote, ResolveWallet,
         CheckWalletCapacity, FitsColumns, Consented;
    var draft := BuildDraft(c, d, client, form, now).value;
    DraftIsConsented(c, d, client, form, now);
    if ResolveType(c, form) == Ok(Deposit) {
      DepositSteps(c, d, client, form, now);
    } else {
      WithdrawalSteps(c, d, client, form, now);
    }
    PairStands(c, d, draft.kind, draft.rail, draft.merchant, form);
    TotalOfAccepted(c, d, form, draft);
    ColumnsTake(draft);
  }
}
