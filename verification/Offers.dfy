/** What is offered, said in the rows' own fields: which pairs a client may be shown and
    may submit to, and what each screen lists on the way there. */
module Offers {
  import opened Basics
  import opened Text
  import opened Pricing
  import opened Desk
  import opened Submissions
  import opened Options
  import Hours

  // ---------------------------------------------------------------- the pair --

  /** An active link joins the two, its merchant active and not archived, its method
      active and supporting the direction; and for a deposit one of its wallets is active
      and not archived. */
  ghost predicate LinkOpen(d: Tables, kind: RequestType, rail: nat, merchant: nat, l: nat) {
    && l < |d.links| && d.links[l].isActive && d.links[l].merchant == merchant && d.links[l].rail == rail
    && merchant < |d.merchants| && d.merchants[merchant].isActive && d.merchants[merchant].archivedAt == None
    && rail < |d.methods| && d.methods[rail].isActive
    && (kind == Deposit ==>
        d.methods[rail].supportsDeposit && exists w :: 0 <= w < |d.wallets| && PayableWallet(d, l, w))
    && (kind == Withdrawal ==> d.methods[rail].supportsWithdrawal)
  }

  predicate PayableWallet(d: Tables, l: nat, w: nat)
    requires w < |d.wallets|
  {
    d.wallets[w].Some? && d.wallets[w].value.link == l && d.wallets[w].value.isActive
          && d.wallets[w].value.archivedAt == None
  }

  ghost predicate PairOpen(d: Tables, kind: RequestType, rail: nat, merchant: nat) {
    exists l: nat :: LinkOpen(d, kind, rail, merchant, l)
  }

  lemma OfferableIsOpen(d: Tables, kind: RequestType, l: nat)
    ensures Offerable(d, kind, l) <==> l < |d.links| && LinkOpen(d, kind, d.links[l].rail, d.links[l].merchant, l)
  {
    if l < |d.links| {
      assert forall w: nat :: w < |d.wallets| ==> (Holds(d.wallets, w, l, false) <==> PayableWallet(d, l, w));
    }
  }

  /** A merchant is listed, a method is listed, with or without the other chosen, exactly
      when the rows are open to it. */
  lemma ListedIffOpen(d: Tables, kind: RequestType, rail: nat, merchant: nat)
    ensures merchant in AvailableMerchants(d, kind, Some(rail)) <==> PairOpen(d, kind, rail, merchant)
    ensures rail in AvailableMethods(d, kind, Some(merchant)) <==> PairOpen(d, kind, rail, merchant)
    ensures MerchantMethodFor(d, kind, rail, merchant).Some? <==> PairOpen(d, kind, rail, merchant)
    ensures merchant in AvailableMerchants(d, kind, None) <==> exists p: nat :: PairOpen(d, kind, p, merchant)
    ensures rail in AvailableMethods(d, kind, None) <==> exists m: nat :: PairOpen(d, kind, rail, m)
  {
    forall l: nat
      ensures Offerable(d, kind, l) <==> l < |d.links| && LinkOpen(d, kind, d.links[l].rail, d.links[l].merchant, l)
    {
      OfferableIsOpen(d, kind, l);
    }
    CatalogueDuality(d, kind, rail, merchant);
    hide Offerable, MerchantMethodFor;
    assert rail in AvailableMethods(d, kind, Some(merchant)) <==> PairOpen(d, kind, rail, merchant) by {
      if l: nat :| LinkOpen(d, kind, rail, merchant, l) {
        assert Offerable(d, kind, l);
      }
    }
    assert merchant in AvailableMerchants(d, kind, None) <==> exists p: nat :: PairOpen(d, kind, p, merchant) by {
      if merchant in AvailableMerchants(d, kind, None) {
        var l :| 0 <= l < |d.links| && Offerable(d, kind, l) && d.links[l].merchant == merchant;
        assert PairOpen(d, kind, d.links[l].rail, merchant);
      }
      if p: nat :| PairOpen(d, kind, p, merchant) {
        var l: nat :| LinkOpen(d, kind, p, merchant, l);
        assert Offerable(d, kind, l);
      }
    }
    assert rail in AvailableMethods(d, kind, None) <==> exists m: nat :: PairOpen(d, kind, rail, m) by {
      if rail in AvailableMethods(d, kind, None) {
        var l :| 0 <= l < |d.links| && Offerable(d, kind, l) && d.links[l].rail == rail;
        assert PairOpen(d, kind, rail, d.links[l].merchant);
      }
      if m: nat :| PairOpen(d, kind, rail, m) {
        var l: nat :| LinkOpen(d, kind, rail, m, l);
        assert Offerable(d, kind, l);
      }
    }
  }

  // ------------------------------------------------------------- submission --

  lemma PairThatResolved(c: Config, d: Tables, kind: RequestType, rail: nat, merchant: nat, form: Form)
    requires ResolveMerchant(c, d, kind, rail, form) == Ok(merchant)
    ensures merchant in AvailableMerchants(d, kind, Some(rail))
  {
    hide Strip, ReadInteger, AvailableMerchants;
  }

  lemma WalletThatResolved(c: Config, d: Tables, rail: nat, merchant: nat, form: Form, now: int)
    requires ResolveWallet(c, d, Deposit, rail, merchant, form, now).Ok?
    ensures var held := ResolveWallet(c, d, Deposit, rail, merchant, form, now).value;
      held.id < |d.wallets| && PayableWallet(d, held.row.link, held.id)
  {
    hide Strip, NatToString, Headroom, MerchantMethodFor;
  }

  lemma DoorWasOpen(c: Config, now: int)
    requires CheckBusinessHours(c, now).Ok?
    ensures Hours.OpenAt(c.hours, now)
  {
    Hours.OpenMeansInsideAWindow(c.hours, now);
    hide Hours.Evaluate;
  }

  /** Whatever is accepted was open: the desk was, the draft's method supports its
      direction, an active link joins it to an active, unarchived merchant, and the
      wallet a deposit is paid into is active and not archived. */
  lemma AcceptedIsOpen(c: Config, d: Tables, client: nat, form: Form, now: int)
    requires BuildDraft(c, d, client, form, now).Ok?
    ensures Hours.OpenAt(c.hours, now)
    ensures var draft := BuildDraft(c, d, client, form, now).value;
      && PairOpen(d, draft.kind, draft.rail, draft.merchant)
      && (draft.kind == Deposit ==> draft.wallet.Some?)
      && (draft.wallet.Some? ==> draft.wallet.value.id < |d.wallets|
                                 && PayableWallet(d, draft.wallet.value.row.link, draft.wallet.value.id))
  {
    hide *;
    AcceptedByType(c, d, client, form, now);
    DoorWasOpen(c, now);
    var draft := BuildDraft(c, d, client, form, now).value;
    if ResolveType(c, form) == Ok(Deposit) {
      DepositSteps(c, d, client, form, now);
      WalletThatResolved(c, d, draft.rail, draft.merchant, form, now);
    } else {
      WithdrawalSteps(c, d, client, form, now);
    }
    PairThatResolved(c, d, draft.kind, draft.rail, draft.merchant, form);
    ListedIffOpen(d, draft.kind, draft.rail, draft.merchant);
  }

  /** No method of this code is active and supports the direction. */
  predicate Unsupported(d: Tables, kind: RequestType, code: string) {
    forall p :: 0 <= p < |d.methods| && d.methods[p].code == code ==>
      !d.methods[p].isActive
      || (kind == Deposit && !d.methods[p].supportsDeposit)
      || (kind == Withdrawal && !d.methods[p].supportsWithdrawal)
  }

  /** A method that does not support a direction is in no listing for it, and every form
      of that direction that names its code is refused. */
  lemma UnsupportedIsRefused(c: Config, d: Tables, client: nat, form: Form, now: int, kind: RequestType)
    requires Unsupported(d, kind, Strip(c.unicode, form.rail)) && ResolveType(c, form) == Ok(kind)
    ensures forall p: nat :: p < |d.methods| && d.methods[p].code == Strip(c.unicode, form.rail) ==>
              && p !in AvailableMethods(d, kind, None)
              && (forall m: nat ::
                  p !in AvailableMethods(d, kind, Some(m)) && m !in AvailableMerchants(d, kind, Some(p)))
    ensures BuildDraft(c, d, client, form, now).Refused?
  {
    forall p: nat, m: nat | p < |d.methods| && d.methods[p].code == Strip(c.unicode, form.rail)
      ensures !PairOpen(d, kind, p, m)
      ensures p !in AvailableMethods(d, kind, None)
      ensures p !in AvailableMethods(d, kind, Some(m)) && m !in AvailableMerchants(d, kind, Some(p))
    {
      ListedIffOpen(d, kind, p, m);
    }
    if BuildDraft(c, d, client, form, now).Ok? {
      AcceptedIsOpen(c, d, client, form, now);
      AcceptedNames(c, d, client, form, now);
    }
    hide BuildDraft, AvailableMethods, AvailableMerchants, PairOpen, Strip, ResolveType;
  }

  lemma AcceptedNames(c: Config, d: Tables, client: nat, form: Form, now: int)
    requires BuildDraft(c, d, client, form, now).Ok?
    ensures var draft := BuildDraft(c, d, client, form, now).value;
      && ResolveType(c, form) == Ok(draft.kind)
      && draft.rail < |d.methods| && d.methods[draft.rail].code == Strip(c.unicode, form.rail)
  {
    DraftIsConsented(c, d, client, form, now);
    hide BuildDraft, Strip, ResolveType, ReadInteger;
  }

  // ----------------------------------------------------------------- screens --

  /** Screen 2: who is listed. */
  ghost predicate ListsMerchants(d: Tables, kind: RequestType, body: Body) {
    body.merchants.Some? && forall m: nat :: m in body.merchants.value <==> exists p: nat :: PairOpen(d, kind, p, m)
  }

  /** Screen 3: what the merchant chosen covers. */
  ghost predicate ListsMethods(d: Tables, kind: RequestType, body: Body) {
    if body.merchant.None? then body.methods == {}
    else forall p: nat :: p in body.methods <==> PairOpen(d, kind, p, body.merchant.value)
  }

  /** Screen 4: the wallet to pay into. */
  ghost predicate ShowsWallet(d: Tables, kind: RequestType, body: Body) {
    if kind == Withdrawal || body.merchant.None? || body.rail.None? then body.wallet == None
    else
      && body.wallet.Some? && body.wallet.value < |d.wallets|
      && exists l: nat ::
            LinkOpen(d, kind, body.rail.value, body.merchant.value, l) && PayableWallet(d, l, body.wallet.value)
  }

  ghost predicate MerchantChosen(c: Config, d: Tables, kind: RequestType, query: Query, m: nat) {
    Strip(c.unicode, query.merchant) == NatToString(m) && exists p: nat :: PairOpen(d, kind, p, m)
  }

  ghost predicate MethodChosen(c: Config, d: Tables, kind: RequestType, query: Query, m: nat, p: nat) {
    && Strip(c.unicode, query.rail) != "" && p < |d.methods| && d.methods[p].code == Strip(c.unicode, query.rail)
    && PairOpen(d, kind, p, m)
  }

  /** What a direction asks for, and when nothing at all is resolved. */
  lemma WhatIsAsked(c: Config, d: Tables, kind: RequestType, query: Query, now: int)
    ensures var body := Resolved(c, d, kind, query, now);
      && body.kind == kind && body.hours == Hours.Evaluate(c.hours, now)
      && (body.hours.isOpen <==> Hours.OpenAt(c.hours, now))
      && (body.needs.wallet <==> kind == Deposit)
      && (body.needs.proof <==> kind == Deposit)
      && (body.needs.destination <==> kind == Withdrawal)
      && (body.unavailable == Some(RateGone) <==> body.hours.isOpen && CurrentRate(d.rates, kind, now) == None)
      && (!body.hours.isOpen || CurrentRate(d.rates, kind, now) == None ==>
            && body.rate == None && body.merchants == None && body.merchant == None
            && body.methods == {} && body.rail == None && body.wallet == None)
      && (!body.hours.isOpen ==> body.unavailable == None)
  {
    Hours.OpenMeansInsideAWindow(c.hours, now);
    hide Hours.Evaluate, CurrentRate, AvailableMerchants, AvailableMethods, MerchantMethodFor, ActiveWallet, Strip,
         Hours.OpenAt;
  }

  predicate Opens(c: Config, d: Tables, kind: RequestType, now: int) {
    Hours.Evaluate(c.hours, now).isOpen && CurrentRate(d.rates, kind, now).Some?
  }

  /** The merchant a query names, found by printed key. */
  lemma ChosenIsPrinted(c: Config, d: Tables, kind: RequestType, query: Query)
    ensures var found := Printed(AvailableMerchants(d, kind, None), |d.merchants|, Strip(c.unicode, query.merchant));
      && (found.Some? ==> MerchantChosen(c, d, kind, query, found.value))
      && forall m: nat :: MerchantChosen(c, d, kind, query, m) ==> found == Some(m)
  {
    var raw := Strip(c.unicode, query.merchant);
    var listed := AvailableMerchants(d, kind, None);
    MerchantsAreInRange(d, kind);
    var found := Printed(listed, |d.merchants|, raw);
    hide Strip, NatToString, AvailableMerchants, PairOpen;
    if found.Some? {
      ListedIffOpen(d, kind, 0, found.value);
    }
    forall m: nat | MerchantChosen(c, d, kind, query, m)
      ensures found == Some(m)
    {
      ListedIffOpen(d, kind, 0, m);
      PrintedFindsItself(listed, |d.merchants|, m);
    }
  }

  /** The method it names, found by code among what the merchant covers. */
  lemma ChosenIsCoded(c: Config, d: Tables, kind: RequestType, query: Query, m: nat)
    requires UniqueCodes(d.methods) && Strip(c.unicode, query.rail) != ""
    ensures var found := CodedMethod(d, AvailableMethods(d, kind, Some(m)), Strip(c.unicode, query.rail));
      && (found.Some? ==> MethodChosen(c, d, kind, query, m, found.value))
      && forall p: nat :: MethodChosen(c, d, kind, query, m, p) ==> found == Some(p)
  {
    var code := Strip(c.unicode, query.rail);
    var found := CodedMethod(d, AvailableMethods(d, kind, Some(m)), code);
    hide Strip, AvailableMethods, PairOpen, CodedMethod;
    if found.Some? {
      ListedIffOpen(d, kind, found.value, m);
    }
    forall p: nat | MethodChosen(c, d, kind, query, m, p)
      ensures found == Some(p)
    {
      ListedIffOpen(d, kind, p, m);
    }
  }

  /** The pair chosen always has a link, and a deposit's a wallet. */
  lemma PairChosen(d: Tables, kind: RequestType, chosen: Body, p: nat, m: nat)
    requires PairOpen(d, kind, p, m) && chosen.rail == Some(p) && chosen.merchant == Some(m)
    requires chosen.wallet == None && chosen.unavailable == None
    ensures var body := PairResolved(d, kind, chosen, p, m);
      body == chosen.(wallet := body.wallet) && ShowsWallet(d, kind, body)
  {
    ListedIffOpen(d, kind, p, m);
    CatalogueDuality(d, kind, p, m);
    var link := MerchantMethodFor(d, kind, p, m).value;
    OfferableIsOpen(d, kind, link);
    hide MerchantMethodFor, Offerable, PairOpen;
    if kind == Deposit {
      var w := ActiveWallet(d, link).value;
      assert LinkOpen(d, kind, p, m, link) && PayableWallet(d, link, w);
    }
  }

  lemma MerchantsShown(d: Tables, kind: RequestType)
    ensures forall m: nat :: m in AvailableMerchants(d, kind, None) <==> exists p: nat :: PairOpen(d, kind, p, m)
  {
    forall m: nat
      ensures m in AvailableMerchants(d, kind, None) <==> exists p: nat :: PairOpen(d, kind, p, m)
    {
      ListedIffOpen(d, kind, 0, m);
    }
  }

  lemma MethodsShown(d: Tables, kind: RequestType, m: nat)
    ensures forall p: nat :: p in AvailableMethods(d, kind, Some(m)) <==> PairOpen(d, kind, p, m)
  {
    forall p: nat
      ensures p in AvailableMethods(d, kind, Some(m)) <==> PairOpen(d, kind, p, m)
    {
      ListedIffOpen(d, kind, p, m);
    }
  }

  /** With the desk open and a rate in force, screens 2 to 4 list exactly what is open,
      as deep as the query goes, and say what is missing exactly when something is. */
  lemma WhatIsShown(c: Config, d: Tables, kind: RequestType, query: Query, now: int)
    requires UniqueCodes(d.methods) && Opens(c, d, kind, now)
    ensures var body := Resolved(c, d, kind, query, now);
      && body.rate == CurrentRate(d.rates, kind, now)
      && ListsMerchants(d, kind, body)
      && (body.merchant.Some? ==> MerchantChosen(c, d, kind, query, body.merchant.value))
      && (Strip(c.unicode, query.merchant) != "" ==>
            forall m: nat :: MerchantChosen(c, d, kind, query, m) ==> body.merchant == Some(m))
      && ListsMethods(d, kind, body)
      && (body.rail.Some? ==>
            body.merchant.Some? && MethodChosen(c, d, kind, query, body.merchant.value, body.rail.value))
      && (body.merchant.Some? ==>
            forall p: nat :: MethodChosen(c, d, kind, query, body.merchant.value, p) ==> body.rail == Some(p))
      && ShowsWallet(d, kind, body)
      && (body.unavailable == Some(MerchantGone) <==> Strip(c.unicode, query.merchant) != "" && body.merchant == None)
      && (body.unavailable == Some(MethodGone) <==>
            body.merchant.Some? && Strip(c.unicode, query.rail) != "" && body.rail == None)
      && body.unavailable in {None, Some(MerchantGone), Some(MethodGone)}
  {
    hide AvailableMerchants, AvailableMethods, Printed, CodedMethod, Strip, CurrentRate, Hours.Evaluate, PairResolved,
         MerchantChosen, MethodChosen, PairOpen, UniqueCodes;
    var raw, code := Strip(c.unicode, query.merchant), Strip(c.unicode, query.rail);
    MerchantsShown(d, kind);
    ChosenIsPrinted(c, d, kind, query);
    if raw != "" {
      var found := Printed(AvailableMerchants(d, kind, None), |d.merchants|, raw);
      if found.Some? {
        MethodsShown(d, kind, found.value);
        if code != "" {
          ChosenIsCoded(c, d, kind, query, found.value);
          var coded := CodedMethod(d, AvailableMethods(d, kind, found), code);
          if coded.Some? {
            ChosenIsOpen(c, d, kind, query, found.value, coded.value);
            var chosen := Resolving(c, d, kind, now, found.value, coded.value);
            PairChosen(d, kind, chosen, coded.value, found.value);
          }
        } else {
          NothingCoded(c, d, kind, query, found.value);
        }
      }
    }
  }

  /** The body as it stands when the pair has been found. */
  function Resolving(c: Config, d: Tables, kind: RequestType, now: int, m: nat, p: nat): Body {
    Blank(c, kind, now).(rate := CurrentRate(d.rates, kind, now),
                         merchants := Some(AvailableMerchants(d, kind, None)),
                         merchant := Some(m),
                         methods := AvailableMethods(d, kind, Some(m)),
                         rail := Some(p))
  }

  lemma ChosenIsOpen(c: Config, d: Tables, kind: RequestType, query: Query, m: nat, p: nat)
    requires MethodChosen(c, d, kind, query, m, p)
    ensures PairOpen(d, kind, p, m)
  {
  }

  lemma NothingCoded(c: Config, d: Tables, kind: RequestType, query: Query, m: nat)
    requires Strip(c.unicode, query.rail) == ""
    ensures forall p: nat :: !MethodChosen(c, d, kind, query, m, p)
  {
  }

  /** Method codes are slugs: never blank, nothing to strip. */
  ghost predicate SlugCodes(c: Config, methods: seq<PaymentMethod>) {
    forall p :: 0 <= p < |methods| ==> methods[p].code != "" && Strip(c.unicode, methods[p].code) == methods[p].code
  }

  /** The last screen for this merchant and this code. */
  function LastScreen(c: Config, d: Tables, kind: RequestType, m: nat, code: string, now: int): Body {
    Resolved(c, d, kind, Query("", NatToString(m), code), now)
  }

  lemma LastScreenIff(c: Config, d: Tables, kind: RequestType, m: nat, code: string, now: int)
    requires UniqueCodes(d.methods) && Sane(c.unicode) && Opens(c, d, kind, now)
    ensures var body, stripped := LastScreen(c, d, kind, m, code, now), Strip(c.unicode, code);
      && (Ready(body) <==> body.rail.Some?)
      && (body.rail.Some? ==> PairOpen(d, kind, body.rail.value, m))
      && forall p: nat ::
            p < |d.methods| && stripped != "" && d.methods[p].code == stripped && PairOpen(d, kind, p, m) ==>
           body.rail == Some(p)
  {
    var query := Query("", NatToString(m), code);
    StripNat(c.unicode, m);
    NatToStringValue(m);
    WhatIsShown(c, d, kind, query, now);
    WhatIsAsked(c, d, kind, query, now);
    var body := Resolved(c, d, kind, query, now);
    hide Resolved, Strip, NatToString, PairOpen, CurrentRate, Hours.Evaluate, ShowsWallet, ListsMerchants,
         ListsMethods;
    if body.merchant.Some? {
      NatToStringInjective(body.merchant.value, m);
    }
    forall p: nat | p < |d.methods| && Strip(c.unicode, code) != "" && d.methods[p].code == Strip(c.unicode, code)
                    && PairOpen(d, kind, p, m)
      ensures body.rail == Some(p)
    {
      assert MerchantChosen(c, d, kind, query, m);
      assert MethodChosen(c, d, kind, query, m, p);
    }
  }

  /** No list leads nowhere and none leaves a way out: a merchant is listed exactly when
      some code with them reaches the last screen, and of a merchant's methods exactly
      those are listed whose own code does. */
  lemma ListsLeadToTheLastScreen(c: Config, d: Tables, kind: RequestType, query: Query, now: int, m: nat, p: nat)
    requires UniqueCodes(d.methods) && SlugCodes(c, d.methods) && Sane(c.unicode) && Opens(c, d, kind, now)
    requires p < |d.methods|
    ensures var body := Resolved(c, d, kind, query, now);
      && body.merchants.Some?
      && (m in body.merchants.value <==> exists code :: Ready(LastScreen(c, d, kind, m, code, now)))
      && (body.merchant == Some(m) ==>
            (p in body.methods <==> Ready(LastScreen(c, d, kind, m, d.methods[p].code, now))))
  {
    WhatIsShown(c, d, kind, query, now);
    hide Resolved, LastScreen, Strip, PairOpen, ShowsWallet, MerchantChosen, MethodChosen, Ready, Opens, UniqueCodes;
    if q: nat :| PairOpen(d, kind, q, m) {
      OpenIsAMethod(d, kind, q, m);
      LastScreenIff(c, d, kind, m, d.methods[q].code, now);
      assert Ready(LastScreen(c, d, kind, m, d.methods[q].code, now));
    }
    if code :| Ready(LastScreen(c, d, kind, m, code, now)) {
      LastScreenIff(c, d, kind, m, code, now);
    }
    LastScreenIff(c, d, kind, m, d.methods[p].code, now);
    RailIsCoded(c, d, kind, m, p, now);
  }

  lemma OpenIsAMethod(d: Tables, kind: RequestType, p: nat, m: nat)
    requires PairOpen(d, kind, p, m)
    ensures p < |d.methods|
  {
  }

  lemma RailIsCoded(c: Config, d: Tables, kind: RequestType, m: nat, p: nat, now: int)
    requires UniqueCodes(d.methods) && SlugCodes(c, d.methods) && Sane(c.unicode) && Opens(c, d, kind, now)
    requires p < |d.methods|
    ensures var body := LastScreen(c, d, kind, m, d.methods[p].code, now);
      body.rail.Some? ==> body.rail == Some(p)
  {
    var query := Query("", NatToString(m), d.methods[p].code);
    WhatIsShown(c, d, kind, query, now);
    hide Resolved, Strip, PairOpen, ShowsWallet, MerchantChosen, ListsMerchants, ListsMethods, Opens, NatToString;
  }
}
