/** What the client is shown they can choose, and that the desk accepts exactly that. */
module Options {
  import opened Basics
  import opened Text
  import opened Pricing
  import opened Desk
  import opened Submissions
  import NumberEntry
  import Destinations
  import Hours

  datatype Query = Query(kind: string, merchant: string, rail: string)

  datatype Missing = RateGone | MerchantGone | MethodGone | WalletGone

  datatype Needs = Needs(wallet: bool, destination: bool, proof: bool)

  datatype Body = Body(
    kind: RequestType,
    needs: Needs,
    hours: Hours.Hours,
    rate: Option<nat>,
    merchants: Option<set<nat>>,
    merchant: Option<nat>,
    methods: set<nat>,
    rail: Option<nat>,
    wallet: Option<nat>,
    unavailable: Option<Missing>)

  datatype Answer = RateLimited | UnknownType | Answered(body: Body)

  /** The row of `among` whose printed key is `raw`. */
  function Printed(among: set<nat>, bound: nat, raw: string, from: nat := 0): (r: Option<nat>)
    requires from <= bound
    ensures r.Some? ==> r.value in among && NatToString(r.value) == raw
    ensures r.None? ==> forall m: nat :: from <= m < bound && m in among ==> NatToString(m) != raw
    decreases bound - from
  {
    if from == bound then None
    else if from in among && NatToString(from) == raw then Some(from)
    else Printed(among, bound, raw, from + 1)
  }

  function Blank(c: Config, kind: RequestType, now: int): Body {
    Body(kind, Needs(kind.Deposit?, kind.Withdrawal?, kind.Deposit?), Hours.Evaluate(c.hours, now),
         None, None, None, {}, None, None, None)
  }

  /** Screens 1 to 4, resolved as deep as the query goes. */
  function Resolved(c: Config, d: Tables, kind: RequestType, query: Query, now: int): Body {
    var blank := Blank(c, kind, now);
    var rate := CurrentRate(d.rates, kind, now);
    if !blank.hours.isOpen then blank
    else if rate.None? then blank.(unavailable := Some(RateGone))
    else
      var merchants := AvailableMerchants(d, kind, None);
      var listed := blank.(rate := rate, merchants := Some(merchants));
      var raw := Strip(c.unicode, query.merchant);
      if raw == "" then listed
      else
        match Printed(merchants, |d.merchants|, raw)
        case None => listed.(unavailable := Some(MerchantGone))
        case Some(m) =>
          var methods := AvailableMethods(d, kind, Some(m));
          var covered := listed.(merchant := Some(m), methods := methods);
          var code := Strip(c.unicode, query.rail);
          if code == "" then covered
          else
            match CodedMethod(d, methods, code)
            case None => covered.(unavailable := Some(MethodGone))
            case Some(p) => PairResolved(d, kind, covered.(rail := Some(p)), p, m)
  }

  function PairResolved(d: Tables, kind: RequestType, chosen: Body, p: nat, m: nat): Body {
    match MerchantMethodFor(d, kind, p, m)
    case None => chosen.(unavailable := Some(MethodGone))
    case Some(link) =>
      if kind.Withdrawal? then chosen
      else
        match ActiveWallet(d, link)
        case None => chosen.(unavailable := Some(WalletGone))
        case Some(w) => chosen.(wallet := Some(w))
  }

  /** `OptionsView.get`: fills in the body until the query runs out. */
  method Get(c: Config, d: Tables, allowed: bool, query: Query, now: int) returns (answer: Answer)
    ensures !allowed ==> answer == RateLimited
    ensures allowed && (query.kind == "" || query.kind == "deposit") ==>
              answer == Answered(Resolved(c, d, Deposit, query, now))
    ensures allowed && query.kind == "withdrawal" ==> answer == Answered(Resolved(c, d, Withdrawal, query, now))
    ensures allowed && query.kind != "" && query.kind != "deposit" && query.kind != "withdrawal" ==>
          answer == UnknownType
  {
    if !allowed {
      return RateLimited;
    }
    var value := if query.kind == "" then DEPOSIT_VALUE else query.kind;
    if value != DEPOSIT_VALUE && value != WITHDRAWAL_VALUE {
      return UnknownType;
    }
    var kind := if value == WITHDRAWAL_VALUE then Withdrawal else Deposit;
    var body := Blank(c, kind, now);
    if !body.hours.isOpen {
      return Answered(body);
    }
    var rate := CurrentRate(d.rates, kind, now);
    if rate.None? {
      body := body.(unavailable := Some(RateGone));
      return Answered(body);
    }
    body := body.(rate := rate);
    var merchants := AvailableMerchants(d, kind, None);
    body := body.(merchants := Some(merchants));
    var raw := Strip(c.unicode, query.merchant);
    if raw == "" {
      return Answered(body);
    }
    var merchant := Printed(merchants, |d.merchants|, raw);
    if merchant.None? {
      body := body.(unavailable := Some(MerchantGone));
      return Answered(body);
    }
    body := body.(merchant := merchant);
    var methods := AvailableMethods(d, kind, merchant);
    body := body.(methods := methods);
    var code := Strip(c.unicode, query.rail);
    if code == "" {
      return Answered(body);
    }
    var rail := CodedMethod(d, methods, code);
    if rail.None? {
      body := body.(unavailable := Some(MethodGone));
      return Answered(body);
    }
    body := body.(rail := rail);
    var link := MerchantMethodFor(d, kind, rail.value, merchant.value);
    if link.None? {
      body := body.(unavailable := Some(MethodGone));
      return Answered(body);
    }
    if kind.Withdrawal? {
      return Answered(body);
    }
    var wallet := ActiveWallet(d, link.value);
    if wallet.None? {
      body := body.(unavailable := Some(WalletGone));
      return Answered(body);
    }
    body := body.(wallet := wallet);
    return Answered(body);
  }

  // -------------------------------------------------------------- agreement --

  /** Screen 4 is on offer: the desk is open and the query resolved all the way. */
  predicate Ready(body: Body) {
    body.hours.isOpen && body.unavailable.None? && body.rail.Some?
  }

  predicate UniqueCodes(methods: seq<PaymentMethod>) {
    forall i, j :: 0 <= i < j < |methods| ==> methods[i].code != methods[j].code
  }

  /** The query that names the merchant the way the catalogue prints them. */
  function QueryFor(kind: RequestType, merchant: nat, form: Form): Query {
    Query(if kind.Deposit? then DEPOSIT_VALUE else WITHDRAWAL_VALUE, NatToString(merchant), form.rail)
  }

  lemma PrintedFindsItself(among: set<nat>, bound: nat, m: nat)
    requires forall k :: k in among ==> k < bound
    ensures Printed(among, bound, NatToString(m)) == if m in among then Some(m) else None
  {
    var found := Printed(among, bound, NatToString(m));
    if found.Some? {
      NatToStringInjective(found.value, m);
    }
  }

  lemma MerchantsAreInRange(d: Tables, kind: RequestType)
    ensures forall m :: m in AvailableMerchants(d, kind, None) ==> m < |d.merchants|
  {
  }

  /** A pair resolves at submission exactly when it is listed on the way to screen 4. */
  lemma PairAgrees(c: Config, d: Tables, kind: RequestType, form: Form, m: nat, p: nat)
    requires UniqueCodes(d.methods)
    requires ReadInteger(c.unicode, Strip(c.unicode, form.merchant)) == Number(m)
    ensures ResolveMethod(c, d, kind, form) == Ok(p) && ResolveMerchant(c, d, kind, p, form) == Ok(m)
      <==> Strip(c.unicode, form.rail) != ""
            && CodedMethod(d, AvailableMethods(d, kind, Some(m)), Strip(c.unicode, form.rail)) == Some(p)
  {
    CatalogueDuality(d, kind, p, m);
    var code := Strip(c.unicode, form.rail);
    var wide := CodedMethod(d, AvailableMethods(d, kind, None), code);
    var narrow := CodedMethod(d, AvailableMethods(d, kind, Some(m)), code);
    hide Strip, ReadInteger, CodedMethod;
    if narrow.Some? {
      CatalogueDuality(d, kind, narrow.value, m);
    }
  }

  /** What screen 4 shows, in the catalogue's own terms. */
  lemma ReadyIff(c: Config, d: Tables, kind: RequestType, form: Form, m: nat, now: int)
    requires Sane(c.unicode)
    ensures var body := Resolved(c, d, kind, QueryFor(kind, m, form), now);
      var code := Strip(c.unicode, form.rail);
      && (Ready(body) <==>
            && Hours.Evaluate(c.hours, now).isOpen
            && CurrentRate(d.rates, kind, now).Some?
            && code != "" && CodedMethod(d, AvailableMethods(d, kind, Some(m)), code).Some?)
      && (Ready(body) ==>
            && body.rate == CurrentRate(d.rates, kind, now)
            && body.merchant == Some(m)
            && body.rail == CodedMethod(d, AvailableMethods(d, kind, Some(m)), code)
            && MerchantMethodFor(d, kind, body.rail.value, m).Some?
            && body.wallet == if kind.Deposit?
                              then ActiveWallet(d, MerchantMethodFor(d, kind, body.rail.value, m).value)
                              else None)
  {
    StripNat(c.unicode, m);
    NatToStringValue(m);
    MerchantsAreInRange(d, kind);
    PrintedFindsItself(AvailableMerchants(d, kind, None), |d.merchants|, m);
    var code := Strip(c.unicode, form.rail);
    var narrow := CodedMethod(d, AvailableMethods(d, kind, Some(m)), code);
    if narrow.Some? {
      CatalogueDuality(d, kind, narrow.value, m);
    }
  }

  /** A deposit of this amount at this revision leaves room under the wallet's cap. */
  predicate HasRoom(c: Config, d: Tables, wallet: nat, rateId: nat, amount: nat, now: int)
    requires Live(d.wallets, wallet) && rateId < |d.rates|
  {
    var row, q := d.wallets[wallet].value, QuoteAt(d.rates, rateId, amount, Deposit);
    && row.link < |d.links| && q.Ok?
    && Headroom(d, row, c.capOffset, now) != Some(0)
    && CheckWalletCapacity(c, d, row, q.value.figures.total, now).Ok?
  }

  /** The deposit form is one the offer it answers can take: it echoes the wallet and
      the rate shown, and its own fields are in order. */
  predicate AnswersDeposit(c: Config, d: Tables, body: Body, form: Form, now: int) {
    var amount := NumberEntry.ParseAmount(c.unicode, c.depositBounds, form.amountUsd);
    && body.wallet.Some? && body.rate.Some?
    && Live(d.wallets, body.wallet.value) && body.rate.value < |d.rates|
    && Strip(c.unicode, form.wallet) == NatToString(body.wallet.value)
    && Strip(c.unicode, form.rate) == NatToString(body.rate.value)
    && amount.Ok?
    && HasRoom(c, d, body.wallet.value, body.rate.value, amount.value, now)
    && form.proof.AcceptableFile?
    && |Strip(c.unicode, form.message)| <= c.messageLimit
  }

  predicate AnswersWithdrawal(c: Config, d: Tables, body: Body, form: Form) {
    var amount := NumberEntry.ParseAmount(c.unicode, c.withdrawalBounds, form.amountUsd);
    && body.wallet.None? && body.rate.Some? && body.rate.value < |d.rates|
    && Strip(c.unicode, form.rate) == NatToString(body.rate.value)
    && amount.Ok?
    && QuoteAt(d.rates, body.rate.value, amount.value, Withdrawal).Ok?
    && form.proof.NoFile?
    && Destinations.Normalised(c.unicode, c.band, form.destination).Ok?
    && |Strip(c.unicode, form.message)| <= c.messageLimit
  }

  lemma WalletStepIff(c: Config, d: Tables, rail: nat, m: nat, form: Form, now: int)
    requires MerchantMethodFor(d, Deposit, rail, m).Some?
    ensures var w := ActiveWallet(d, MerchantMethodFor(d, Deposit, rail, m).value);
      && w.Some? && Live(d.wallets, w.value) && d.wallets[w.value].value.link < |d.links|
      && (ResolveWallet(c, d, Deposit, rail, m, form, now).Ok? <==>
            Headroom(d, d.wallets[w.value].value, c.capOffset, now) != Some(0)
            && Strip(c.unicode, form.wallet) == NatToString(w.value))
      && (ResolveWallet(c, d, Deposit, rail, m, form, now).Ok? ==>
            ResolveWallet(c, d, Deposit, rail, m, form, now).value == HeldWallet(w.value, d.wallets[w.value].value))
  {
    CatalogueDuality(d, Deposit, rail, m);
  }

  lemma QuoteStepIff(c: Config, d: Tables, kind: RequestType, form: Form, now: int)
    ensures var rate := CurrentRate(d.rates, kind, now);
      var amount := NumberEntry.ParseAmount(c.unicode, BoundsFor(c, kind), form.amountUsd);
      && (ResolveQuote(c, d, kind, form, now).Ok? <==>
            rate.Some? && amount.Ok? && Strip(c.unicode, form.rate) == NatToString(rate.value)
            && QuoteAt(d.rates, rate.value, amount.value, kind).Ok?)
      && (ResolveQuote(c, d, kind, form, now).Ok? ==>
            ResolveQuote(c, d, kind, form, now) == QuoteAt(d.rates, rate.value, amount.value, kind))
  {
  }

  /** A deposit is accepted step by step, each step refusing on its own. */
  lemma DepositIff(c: Config, d: Tables, client: nat, form: Form, now: int)
    ensures BuildDepositDraft(c, d, client, form, now).Ok? <==>
      && ResolveMethod(c, d, Deposit, form).Ok?
      && var rail := ResolveMethod(c, d, Deposit, form).value;
      && ResolveMerchant(c, d, Deposit, rail, form).Ok?
      && var m := ResolveMerchant(c, d, Deposit, rail, form).value;
      && ResolveWallet(c, d, Deposit, rail, m, form, now).Ok?
      && ResolveQuote(c, d, Deposit, form, now).Ok?
      && CheckWalletCapacity(c, d, ResolveWallet(c, d, Deposit, rail, m, form, now).value.row,
                             ResolveQuote(c, d, Deposit, form, now).value.figures.total, now).Ok?
      && form.proof.AcceptableFile?
      && |Strip(c.unicode, form.message)| <= c.messageLimit
  {
    hide ResolveMethod, ResolveMerchant, ResolveWallet, ResolveQuote, CheckWalletCapacity, Strip;
  }

  lemma WithdrawalIff(c: Config, d: Tables, client: nat, form: Form, now: int)
    ensures BuildWithdrawalDraft(c, d, client, form, now).Ok? <==>
      && form.proof.NoFile?
      && ResolveMethod(c, d, Withdrawal, form).Ok?
      && var rail := ResolveMethod(c, d, Withdrawal, form).value;
      && ResolveMerchant(c, d, Withdrawal, rail, form).Ok?
      && ResolveLink(d, Withdrawal, rail, ResolveMerchant(c, d, Withdrawal, rail, form).value).Ok?
      && Destinations.Normalised(c.unicode, c.band, form.destination).Ok?
      && ResolveQuote(c, d, Withdrawal, form, now).Ok?
      && |Strip(c.unicode, form.message)| <= c.messageLimit
  {
    hide ResolveMethod, ResolveMerchant, ResolveLink, ResolveQuote, Strip, Destinations.Normalised;
  }

  /** The merchant a form names, whoever is acting on it. */
  lemma MerchantIsTheNumber(c: Config, d: Tables, kind: RequestType, rail: nat, form: Form, m: nat)
    requires ReadInteger(c.unicode, Strip(c.unicode, form.merchant)) == Number(m)
    ensures ResolveMerchant(c, d, kind, rail, form).Ok? ==> ResolveMerchant(c, d, kind, rail, form) == Ok(m)
  {
  }

  /** Offer and acceptance agree.  In one state and at one instant a deposit is
      accepted exactly when screen 4 is on offer for its merchant and method and the
      form answers that offer. */
  lemma DepositAcceptedIffOffered(c: Config, d: Tables, client: nat, form: Form, now: int, m: nat)
    requires Sane(c.unicode) && UniqueCodes(d.methods)
    requires ResolveType(c, form) == Ok(Deposit)
    requires ReadInteger(c.unicode, Strip(c.unicode, form.merchant)) == Number(m)
    ensures var body := Resolved(c, d, Deposit, QueryFor(Deposit, m, form), now);
      BuildDraft(c, d, client, form, now).Ok? <==> Ready(body) && AnswersDeposit(c, d, body, form, now)
  {
    ReadyIff(c, d, Deposit, form, m, now);
    DepositIff(c, d, client, form, now);
    QuoteStepIff(c, d, Deposit, form, now);
    var code := Strip(c.unicode, form.rail);
    var narrow := CodedMethod(d, AvailableMethods(d, Deposit, Some(m)), code);
    var resolved := ResolveMethod(c, d, Deposit, form);
    hide Resolved, Strip, ReadInteger, CodedMethod, ResolveMethod, ResolveMerchant, ResolveWallet, ResolveQuote,
         CheckWalletCapacity, Headroom, QuoteAt, MerchantMethodFor, ActiveWallet, AvailableMethods,
         AvailableMerchants, BuildDepositDraft, BuildWithdrawalDraft, NatToString, NumberEntry.ParseAmount,
         CurrentRate;
    if resolved.Ok? {
      MerchantIsTheNumber(c, d, Deposit, resolved.value, form, m);
      PairAgrees(c, d, Deposit, form, m, resolved.value);
    }
    if narrow.Some? && code != "" {
      PairAgrees(c, d, Deposit, form, m, narrow.value);
      LaterGuardsAreUnreachable(c, d, Deposit, form, now, narrow.value, m);
      LinkIsThePairs(d, narrow.value, m);
      WalletStepIff(c, d, narrow.value, m, form, now);
    }
  }

  lemma LinkIsThePairs(d: Tables, rail: nat, m: nat)
    requires ResolveLink(d, Deposit, rail, m).Ok?
    ensures MerchantMethodFor(d, Deposit, rail, m) == Some(ResolveLink(d, Deposit, rail, m).value)
  {
  }

  /** The same for a withdrawal, which is shown no wallet and must attach no proof. */
  lemma WithdrawalAcceptedIffOffered(c: Config, d: Tables, client: nat, form: Form, now: int, m: nat)
    requires Sane(c.unicode) && UniqueCodes(d.methods)
    requires ResolveType(c, form) == Ok(Withdrawal)
    requires ReadInteger(c.unicode, Strip(c.unicode, form.merchant)) == Number(m)
    ensures var body := Resolved(c, d, Withdrawal, QueryFor(Withdrawal, m, form), now);
      BuildDraft(c, d, client, form, now).Ok? <==> Ready(body) && AnswersWithdrawal(c, d, body, form)
  {
    ReadyIff(c, d, Withdrawal, form, m, now);
    WithdrawalIff(c, d, client, form, now);
    QuoteStepIff(c, d, Withdrawal, form, now);
    var code := Strip(c.unicode, form.rail);
    var narrow := CodedMethod(d, AvailableMethods(d, Withdrawal, Some(m)), code);
    var resolved := ResolveMethod(c, d, Withdrawal, form);
    hide Resolved, Strip, ReadInteger, CodedMethod, ResolveMethod, ResolveMerchant, ResolveLink, ResolveQuote,
         QuoteAt, MerchantMethodFor, ActiveWallet, AvailableMethods, AvailableMerchants, BuildDepositDraft,
         BuildWithdrawalDraft, NatToString, NumberEntry.ParseAmount, CurrentRate, Destinations.Normalised;
    if resolved.Ok? {
      MerchantIsTheNumber(c, d, Withdrawal, resolved.value, form, m);
      PairAgrees(c, d, Withdrawal, form, m, resolved.value);
    }
    if narrow.Some? && code != "" {
      PairAgrees(c, d, Withdrawal, form, m, narrow.value);
      LaterGuardsAreUnreachable(c, d, Withdrawal, form, now, narrow.value, m);
    }
  }

  /** The two sides read the merchant differently: submission takes any spelling of the
      number, the catalogue only its printed one.  They name the same merchant exactly
      when the form spells it as printed. */
  lemma CatalogueReadsPrintedKeysOnly(c: Config, d: Tables, kind: RequestType, query: Query, now: int, m: nat)
    requires m in AvailableMerchants(d, kind, None)
    requires Hours.Evaluate(c.hours, now).isOpen && CurrentRate(d.rates, kind, now).Some?
    requires ReadInteger(c.unicode, Strip(c.unicode, query.merchant)) == Number(m)
    requires Sane(c.unicode)
    ensures Resolved(c, d, kind, query, now).merchant == Some(m) <==> Strip(c.unicode, query.merchant) == NatToString(m)
    ensures Strip(c.unicode, query.merchant) != NatToString(m) ==>
              Resolved(c, d, kind, query, now).unavailable == Some(MerchantGone)
  {
    var raw := Strip(c.unicode, query.merchant);
    MerchantsAreInRange(d, kind);
    PrintedFindsItself(AvailableMerchants(d, kind, None), |d.merchants|, m);
    hide NatToString, ReadInteger, Strip;
    var found := Printed(AvailableMerchants(d, kind, None), |d.merchants|, raw);
    if found.Some? {
      ReadIntegerOfNat(c.unicode, found.value);
    }
  }

  lemma {:induction false} LeadingZero(u: Unicode, s: string)
    requires Sane(u)
    ensures DecimalsValue(u, "0" + s) == DecimalsValue(u, s)
  {
    if s == [] {
      assert ("0" + s)[..0] == [];
      assert DigitOf('0') == 0;
    } else {
      var t := "0" + s;
      assert t[..|t| - 1] == "0" + s[..|s| - 1];
      LeadingZero(u, s[..|s| - 1]);
    }
  }

  lemma {:induction false} NoLeadingZero(n: nat)
    requires n >= 1
    ensures NatToString(n) != [] && NatToString(n)[0] != '0'
  {
    if n >= 10 {
      NoLeadingZero(n / 10);
    }
  }

  lemma {:induction false} StripEnds(u: Unicode, s: string)
    ensures Strip(u, s) != [] ==> !u.space(Strip(u, s)[0]) && !u.space(Strip(u, s)[|Strip(u, s)| - 1])
    decreases |s|
  {
    if s == [] {
    } else if u.space(s[0]) {
      StripEnds(u, s[1..]);
    } else if u.space(s[|s| - 1]) {
      StripEnds(u, s[..|s| - 1]);
    }
  }

  lemma OnlyTheMerchantDiffers(c: Config, d: Tables, kind: RequestType, rail: nat, m: nat, form: Form, other: string,
                               now: int)
    ensures var form' := form.(merchant := other);
      && ResolveType(c, form') == ResolveType(c, form)
      && ResolveMethod(c, d, kind, form') == ResolveMethod(c, d, kind, form)
      && ResolveWallet(c, d, kind, rail, m, form', now) == ResolveWallet(c, d, kind, rail, m, form, now)
      && ResolveQuote(c, d, kind, form', now) == ResolveQuote(c, d, kind, form, now)
      && ResolveProof(form') == ResolveProof(form) && RefuseProof(form') == RefuseProof(form)
      && ResolveDestination(c, form') == ResolveDestination(c, form)
      && ResolveMessage(c, form') == ResolveMessage(c, form)
  {
    hide Strip, NatToString, MerchantMethodFor, NumberEntry.ParseAmount, QuoteAt, Headroom, ActiveWallet, CurrentRate,
         CodedMethod, AvailableMethods, Destinations.Normalised, BoundsFor;
  }

  /** Whatever string spells the same number gets the same answer from submission. */
  lemma SpellingDoesNotMatter(c: Config, d: Tables, client: nat, form: Form, other: string, now: int, m: nat)
    requires ReadInteger(c.unicode, Strip(c.unicode, form.merchant)) == Number(m)
    requires ReadInteger(c.unicode, Strip(c.unicode, other)) == Number(m)
    ensures BuildDraft(c, d, client, form.(merchant := other), now) == BuildDraft(c, d, client, form, now)
  {
    hide ResolveType, ResolveMethod, ResolveMerchant, ResolveWallet, ResolveLink, ResolveQuote, ResolveProof,
         RefuseProof, ResolveDestination, ResolveMessage, CheckWalletCapacity, Strip, ReadInteger, CheckBusinessHours;
    forall kind, rail
      ensures ResolveMerchant(c, d, kind, rail, form.(merchant := other)) == ResolveMerchant(c, d, kind, rail, form)
    {
      SpellingOfMerchant(c, d, kind, rail, form, other, m);
    }
    forall kind
      ensures ResolveMethod(c, d, kind, form.(merchant := other)) == ResolveMethod(c, d, kind, form)
      ensures ResolveQuote(c, d, kind, form.(merchant := other), now) == ResolveQuote(c, d, kind, form, now)
    {
      OnlyTheMerchantDiffers(c, d, kind, 0, 0, form, other, now);
    }
    forall kind, rail, m
      ensures ResolveWallet(c, d, kind, rail, m, form.(merchant := other), now)
            == ResolveWallet(c, d, kind, rail, m, form, now)
    {
      OnlyTheMerchantDiffers(c, d, kind, rail, m, form, other, now);
    }
    OnlyTheMerchantDiffers(c, d, Deposit, 0, 0, form, other, now);
  }

  lemma SpellingOfMerchant(c: Config, d: Tables, kind: RequestType, rail: nat, form: Form, other: string, m: nat)
    requires ReadInteger(c.unicode, Strip(c.unicode, form.merchant)) == Number(m)
    requires ReadInteger(c.unicode, Strip(c.unicode, other)) == Number(m)
    ensures ResolveMerchant(c, d, kind, rail, form.(merchant := other)) == ResolveMerchant(c, d, kind, rail, form)
  {
  }

  /** So a zero in front of an accepted merchant number changes nothing at submission,
      though the catalogue answers that no such merchant is on offer. */
  lemma PaddedMerchantIsAcceptedNotOffered(c: Config, d: Tables, client: nat, form: Form, now: int, kind: RequestType)
    requires Sane(c.unicode)
    requires BuildDraft(c, d, client, form, now).Ok? && ResolveType(c, form) == Ok(kind)
    ensures var padded := "0" + Strip(c.unicode, form.merchant);
      && BuildDraft(c, d, client, form.(merchant := padded), now) == BuildDraft(c, d, client, form, now)
      && Resolved(c, d, kind, Query("", padded, form.rail), now).unavailable == Some(MerchantGone)
  {
    var raw := Strip(c.unicode, form.merchant);
    var padded := "0" + raw;
    var m := AcceptedMerchant(c, d, client, form, now, kind);
    StripEnds(c.unicode, form.merchant);
    assert !c.unicode.space('0') by {
      assert IsAsciiDigit('0');
    }
    StripNothing(c.unicode, padded);
    ReadPadded(c.unicode, raw, m);
    SpellingDoesNotMatter(c, d, client, form, padded, now, m);
    PaddedIsNotPrinted(raw, m);
    hide Resolved, BuildDraft, ReadInteger, NatToString, Strip, AvailableMerchants;
    CatalogueReadsPrintedKeysOnly(c, d, kind, Query("", padded, form.rail), now, m);
  }

  lemma PaddedIsNotPrinted(raw: string, m: nat)
    requires raw != []
    ensures "0" + raw != NatToString(m)
  {
    if m >= 1 {
      NoLeadingZero(m);
      assert ("0" + raw)[0] == '0';
    } else {
      assert |NatToString(0)| == 1;
    }
  }

  lemma ReadPadded(u: Unicode, raw: string, m: nat)
    requires Sane(u) && ReadInteger(u, raw) == Number(m)
    ensures ReadInteger(u, "0" + raw) == Number(m)
  {
    LeadingZero(u, raw);
    var padded := "0" + raw;
    assert IsAsciiDigit('0') && u.digit('0').Some?;
    forall i | 0 <= i < |padded|
      ensures u.digit(padded[i]).Some?
    {
      if i > 0 {
        assert padded[i] == raw[i - 1];
      }
    }
  }

  lemma ResolvedMerchant(c: Config, d: Tables, kind: RequestType, rail: nat, form: Form)
    requires ResolveMerchant(c, d, kind, rail, form).Ok?
    ensures var m := ResolveMerchant(c, d, kind, rail, form).value;
      && ReadInteger(c.unicode, Strip(c.unicode, form.merchant)) == Number(m)
      && Strip(c.unicode, form.merchant) != []
      && m in AvailableMerchants(d, kind, Some(rail))
  {
  }

  /** The merchant an accepted form names, with what its acceptance says. */
  lemma AcceptedMerchant(c: Config, d: Tables, client: nat, form: Form, now: int, kind: RequestType) returns (m: nat)
    requires BuildDraft(c, d, client, form, now).Ok? && ResolveType(c, form) == Ok(kind)
    ensures ReadInteger(c.unicode, Strip(c.unicode, form.merchant)) == Number(m)
    ensures Strip(c.unicode, form.merchant) != []
    ensures m in AvailableMerchants(d, kind, None)
    ensures Hours.Evaluate(c.hours, now).isOpen && CurrentRate(d.rates, kind, now).Some?
  {
    hide BuildDepositDraft, BuildWithdrawalDraft, ResolveType, ResolveMethod, ResolveMerchant, ResolveWallet,
         ResolveLink, ResolveQuote, CheckWalletCapacity, Strip, ReadInteger, AvailableMerchants, AvailableMethods,
         CurrentRate, QuoteAt, NumberEntry.ParseAmount, Destinations.Normalised, NatToString;
    DepositIff(c, d, client, form, now);
    WithdrawalIff(c, d, client, form, now);
    QuoteStepIff(c, d, kind, form, now);
    var rail := ResolveMethod(c, d, kind, form).value;
    m := ResolveMerchant(c, d, kind, rail, form).value;
    ResolvedMerchant(c, d, kind, rail, form);
    CatalogueDuality(d, kind, rail, m);
  }
}
