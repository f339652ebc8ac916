/** What a client agreed to is what is stored, what they are shown, and what stays. */
module Consent {
  import opened Basics
  import opened Text
  import opened Pricing
  import opened Desk
  import opened Submissions
  import opened Payloads
  import opened Runs
  import opened References
  import NumberEntry
  import Destinations

  /** A request still carries what its draft wrote, and its file and message are there. */
  predicate CommittedFrom(s: Portal, r: nat, i: nat)
    requires r < |s.desk.requests|
  {
    && i < |s.held|
    && SameRequest(RequestOf(s.held[i].draft, s.desk.requests[r].submittedAt), s.desk.requests[r])
    && FiledWith(s.desk, r, s.held[i].draft)
  }

  predicate FiledWith(d: Tables, r: nat, draft: Draft) {
    && (draft.proof.Some? ==> Attachment(r, draft.proof.value) in d.attachments)
    && (draft.message != "" ==> Message(r, draft.client, draft.message) in d.messages)
  }

  ghost predicate Agreed(c: Config, s: Portal) {
    && |s.origins| == |s.desk.requests|
    && (forall i :: 0 <= i < |s.held| ==>
          Consented(c, s.desk, s.held[i].form, s.held[i].draft) && s.held[i].draft.client == s.held[i].client)
    && (forall r :: 0 <= r < |s.origins| && s.origins[r].Some? ==> CommittedFrom(s, r, s.origins[r].value))
  }

  lemma BuildKeepsAgreed(c: Config, s: Portal, client: nat, form: Form, now: int)
    requires Agreed(c, s)
    ensures Agreed(c, Apply(c, s, Build(client, form, now)))
  {
    hide BuildDraft, Consented;
    if BuildDraft(c, s.desk, client, form, now).Ok? {
      DraftIsConsented(c, s.desk, client, form, now);
    }
    var t := Apply(c, s, Build(client, form, now));
    forall r | 0 <= r < |t.origins| && t.origins[r].Some?
      ensures CommittedFrom(t, r, t.origins[r].value)
    {
      assert CommittedFrom(s, r, s.origins[r].value);
    }
  }

  /** What a commit wrote is there, and nothing written before it has moved. */
  lemma FilingOutlives(d: Tables, e: Tables, r: nat, draft: Draft)
    requires Extends(d, e) && FiledWith(d, r, draft)
    ensures FiledWith(e, r, draft)
  {
  }

  lemma AgreedCarries(c: Config, s: Portal, t: Portal)
    requires Agreed(c, s) && Extends(s.desk, t.desk) && t.held == s.held
    requires s.origins <= t.origins && |t.origins| == |t.desk.requests|
    requires forall r :: |s.origins| <= r < |t.origins| && t.origins[r].Some? ==>
          CommittedFrom(t, r, t.origins[r].value)
    ensures Agreed(c, t)
  {
    hide Consented, FiledWith;
    forall i | 0 <= i < |t.held|
      ensures Consented(c, t.desk, t.held[i].form, t.held[i].draft)
    {
      ConsentOutlives(c, s.desk, t.desk, s.held[i].form, s.held[i].draft);
    }
    forall r | 0 <= r < |t.origins| && t.origins[r].Some?
      ensures CommittedFrom(t, r, t.origins[r].value)
    {
      if r < |s.origins| {
        assert t.origins[r] == s.origins[r] && CommittedFrom(s, r, s.origins[r].value);
        assert SameRequest(s.desk.requests[r], t.desk.requests[r]);
        FilingOutlives(s.desk, t.desk, r, s.held[s.origins[r].value].draft);
      }
    }
  }

  lemma CommitFiles(c: Config, d: Tables, draft: Draft, now: int)
    requires CreateRequest(c, d, draft, now).Ok?
    ensures var e := CreateRequest(c, d, draft, now).value;
      && e.requests == d.requests + [RequestOf(draft, now)]
      && FiledWith(e, |d.requests|, draft)
  {
    hide Recheck, FullClean, RequestOf;
  }

  lemma CommitKeepsAgreed(c: Config, s: Portal, i: nat, now: int)
    requires Agreed(c, s)
    ensures Agreed(c, Apply(c, s, Commit(i, now)))
  {
    hide CreateRequest, BuildDraft, Perform, Extends, FiledWith, Consented, SameRequest, RequestOf;
    StepExtends(c, s, Commit(i, now));
    if i < |s.held| && CreateRequest(c, s.desk, s.held[i].draft, now).Ok? {
      var t, draft := Apply(c, s, Commit(i, now)), s.held[i].draft;
      CommitFiles(c, s.desk, draft, now);
      WroteIs(draft, now);
      assert CommittedFrom(t, |s.origins|, i);
      AgreedCarries(c, s, t);
    }
  }

  lemma WroteIs(draft: Draft, now: int)
    ensures RequestOf(draft, now).submittedAt == now && SameRequest(RequestOf(draft, now), RequestOf(draft, now))
  {
  }

  lemma DeedKeepsAgreed(c: Config, s: Portal, deed: Deed)
    requires Agreed(c, s)
    ensures Agreed(c, Apply(c, s, Operate(deed)))
  {
    DeedExtends(s.desk, deed);
    DeedKeepsRequestCount(s.desk, deed);
    hide Perform, Extends, FiledWith, Consented;
    AgreedCarries(c, s, Apply(c, s, Operate(deed)));
  }

  lemma StepKeepsAgreed(c: Config, s: Portal, step: Step)
    requires Agreed(c, s)
    ensures Agreed(c, Apply(c, s, step))
    ensures s.origins <= Apply(c, s, step).origins
    ensures forall r :: |s.origins| <= r < |Apply(c, s, step).origins| ==> Apply(c, s, step).origins[r].Some?
  {
    hide Perform, Agreed, BuildDraft, CreateRequest;
    match step {
      case Build(client, form, now) => BuildKeepsAgreed(c, s, client, form, now);
      case Commit(i, now) => CommitKeepsAgreed(c, s, i, now);
      case Operate(deed) => DeedKeepsAgreed(c, s, deed);
    }
  }

  /** Revisions are only ever added, so the one a client echoed stays what it was. */
  lemma ConsentOutlives(c: Config, d: Tables, e: Tables, form: Form, draft: Draft)
    requires Extends(d, e) && Consented(c, d, form, draft)
    ensures Consented(c, e, form, draft)
  {
    hide NumberEntry.ParseAmount, Price, Destinations.Normalised;
  }

  lemma {:induction false} AgreementHolds(c: Config, s: Portal, steps: seq<Step>)
    requires Agreed(c, s)
    ensures Agreed(c, Run(c, s, steps))
    ensures |s.origins| <= |Run(c, s, steps).origins|
    ensures forall r :: |s.origins| <= r < |Run(c, s, steps).origins| ==> Run(c, s, steps).origins[r].Some?
    decreases |steps|
  {
    if steps != [] {
      StepKeepsAgreed(c, s, steps[0]);
      var t := Apply(c, s, steps[0]);
      AgreementHolds(c, t, steps[1..]);
      OriginsStay(c, t, steps[1..]);
    }
  }

  lemma {:induction false} OriginsStay(c: Config, s: Portal, steps: seq<Step>)
    ensures s.origins <= Run(c, s, steps).origins
    decreases |steps|
  {
    if steps != [] {
      OriginsStay(c, Apply(c, s, steps[0]), steps[1..]);
    }
  }

  /** Everything a stored request says, read off the form it was sent with: the type and
      the pair it named, the rate revision the client echoed, the amount they typed, the wallet they were shown
      (or the account they named), and the price of that amount at that revision,
      which is also exactly what the client is shown afterwards. */
  ghost predicate AsConsented(c: Config, d: Tables, form: Form, r: Request) {
    && WithinBounds(c, r)
    && ResolveType(c, form) == Ok(r.kind)
    && r.rail < |d.methods| && d.methods[r.rail].code == Strip(c.unicode, form.rail)
    && ReadInteger(c.unicode, Strip(c.unicode, form.merchant)) == Number(r.merchant)
    && (exists k: nat :: k < |d.rates| && EchoedRate(c, d.rates[k], k, form, r))
    && NumberEntry.ParseAmount(c.unicode, BoundsFor(c, r.kind), form.amountUsd) == Ok(r.amountUsd)
    && Price(r.rateApplied, r.commissionRateApplied, r.amountUsd, r.kind) == Ok(FiguresShown(r))
    && r.submittedUsd == r.amountUsd && r.submittedIqd == r.amountIqd
    && (r.kind.Deposit? ==>
          && r.wallet.Some? && Strip(c.unicode, form.wallet) == NatToString(r.wallet.value)
          && PaysInto(d, r.wallet.value, r) && d.wallets[r.wallet.value].value.number == r.walletNumber
          && r.destination == "")
    && (r.kind.Withdrawal? ==>
          r.wallet.None? && Destinations.Normalised(c.unicode, c.band, form.destination) == Ok(r.destination))
  }

  /** The amount is one its direction takes, the account one it can be paid to. */
  predicate WithinBounds(c: Config, r: Request) {
    && (r.kind.Deposit? ==> c.depositBounds.minimum <= r.amountUsd <= c.depositBounds.maximum)
    && (r.kind.Withdrawal? ==>
          && c.withdrawalBounds.minimum <= r.amountUsd <= c.withdrawalBounds.maximum
          && c.band.minimum <= |r.destination| <= c.band.maximum)
  }

  lemma ConsentIsWithinBounds(c: Config, d: Tables, form: Form, draft: Draft, at: int)
    requires Consented(c, d, form, draft)
    ensures WithinBounds(c, RequestOf(draft, at))
  {
    hide Strip, NatToString, Named, Price, NumberEntry.ParseAmount, Destinations.Scan;
    NumberEntry.AcceptedIsWithinBounds(c.unicode, BoundsFor(c, draft.kind), form.amountUsd);
  }

  /** The file a deposit was sent with, and the words either was sent with. */
  predicate FiledAlong(c: Config, d: Tables, form: Form, r: nat)
    requires r < |d.requests|
  {
    && (d.requests[r].kind.Deposit? ==>
        form.proof.AcceptableFile? && Attachment(r, form.proof.contentType) in d.attachments)
    && (Strip(c.unicode, form.message) != "" ==>
        Message(r, d.requests[r].client, Strip(c.unicode, form.message)) in d.messages)
  }

  predicate EchoedRate(c: Config, rate: ExchangeRate, k: nat, form: Form, r: Request) {
    && Strip(c.unicode, form.rate) == NatToString(k)
    && rate.direction == r.kind && rate.iqdPerUsd == r.rateApplied && rate.commission == r.commissionRateApplied
  }

  /** The three stored figures are enough to read the whole quote back, in both
      directions and whatever the transfer rounding put into the total. */
  lemma QuoteIsRecovered(draft: Draft, at: int, status: Status)
    requires Price(draft.quote.rate.iqdPerUsd, draft.quote.rate.commission, draft.quote.amountUsd, draft.kind)
          == Ok(draft.quote.figures)
    ensures FiguresShown(RequestOf(draft, at).(status := status)) == draft.quote.figures
    ensures CarriesItsPrice(RequestOf(draft, at).(status := status))
  {
    hide HalfUp;
  }

  lemma CommittedIsAsConsented(c: Config, s: Portal, r: nat, i: nat)
    requires Agreed(c, s) && Resolves(s) && r < |s.desk.requests| && CommittedFrom(s, r, i)
    ensures AsConsented(c, s.desk, s.held[i].form, s.desk.requests[r])
    ensures FiledAlong(c, s.desk, s.held[i].form, r)
    ensures s.desk.requests[r].client == s.held[i].client
  {
    var d, q, form, draft := s.desk, s.desk.requests[r], s.held[i].form, s.held[i].draft;
    assert Consented(c, d, form, draft) && Filed(d, q) && HeldOk(d, draft);
    hide NumberEntry.ParseAmount, Destinations.Normalised, HalfUp, Strip, NatToString, ReadInteger, ResolveType,
         Filed, HeldOk, Agreed, Resolves, WithinBounds, PaysInto, EchoedRate;
    QuoteIsRecovered(draft, q.submittedAt, q.status);
    ConsentIsWithinBounds(c, d, form, draft, q.submittedAt);
    BoundsOutliveStatus(c, RequestOf(draft, q.submittedAt), q.status);
    RateIsEchoed(c, d, form, draft, q);
    if q.kind.Deposit? {
      PaysIntoItsOwn(d, q);
    }
  }

  lemma BoundsOutliveStatus(c: Config, r: Request, status: Status)
    requires WithinBounds(c, r)
    ensures WithinBounds(c, r.(status := status))
  {
  }

  lemma RateIsEchoed(c: Config, d: Tables, form: Form, draft: Draft, q: Request)
    requires Consented(c, d, form, draft) && q == RequestOf(draft, q.submittedAt).(status := q.status)
    ensures EchoedRate(c, d.rates[draft.quote.rateId], draft.quote.rateId, form, q)
  {
    hide NumberEntry.ParseAmount, Destinations.Normalised, Price, Strip, NatToString, Named;
  }

  lemma PaysIntoItsOwn(d: Tables, q: Request)
    requires Filed(d, q) && q.wallet.Some?
    ensures PaysInto(d, q.wallet.value, q) && d.wallets[q.wallet.value].value.number == q.walletNumber
  {
  }

  /** Consent over whole runs: whatever was inserted, switched or removed since, every
      request filed along the way is still exactly what its client agreed to. */
  lemma EveryRequestIsAsConsented(c: Config, s: Portal, steps: seq<Step>, r: nat)
    requires Agreed(c, s) && Resolves(s)
    requires |s.desk.requests| <= r < |Run(c, s, steps).desk.requests|
    ensures var t := Run(c, s, steps);
      exists i: nat :: i < |t.held| && r < |t.origins| && t.origins[r] == Some(i)
               && AsConsented(c, t.desk, t.held[i].form, t.desk.requests[r]) && FiledAlong(c, t.desk, t.held[i].form, r)
               && t.desk.requests[r].client == t.held[i].client
  {
    AgreementHolds(c, s, steps);
    ReferencesResolve(c, s, steps);
    var t := Run(c, s, steps);
    hide Run, AsConsented, FiledAlong, Consented;
    var i := t.origins[r].value;
    CommittedIsAsConsented(c, t, r, i);
  }

  /** A revision entered takes over from its instant on: nothing is accepted any more
      at the one before it, and what is accepted carries the new numbers. */
  lemma NewRateTakesOver(c: Config, d: Tables, rate: ExchangeRate, now: int, client: nat, form: Form, later: int)
    requires rate.effectiveFrom <= later
    requires forall i :: 0 <= i < |d.rates| && InForce(d.rates[i], rate.direction, later) ==>
          d.rates[i].effectiveFrom <= rate.effectiveFrom
    ensures var e := Perform(d, RateAdded(rate, now));
      && CurrentRate(e.rates, rate.direction, later) == Some(|d.rates|)
      && var built := BuildDraft(c, e, client, form, later);
         built.Ok? && built.value.kind == rate.direction ==>
           built.value.quote.rate == rate && Strip(c.unicode, form.rate) == NatToString(|d.rates|)
  {
    hide *;
    var e := Perform(d, RateAdded(rate, now));
    RateGoverns(d, rate, now, later);
    if BuildDraft(c, e, client, form, later).Ok? {
      DraftIsConsented(c, e, client, form, later);
      ConsentNamesTheRate(c, e, form, BuildDraft(c, e, client, form, later).value);
    }
  }

  lemma RateGoverns(d: Tables, rate: ExchangeRate, now: int, later: int)
    requires rate.effectiveFrom <= later
    requires forall i :: 0 <= i < |d.rates| && InForce(d.rates[i], rate.direction, later) ==>
          d.rates[i].effectiveFrom <= rate.effectiveFrom
    ensures Perform(d, RateAdded(rate, now)).rates == d.rates + [rate]
    ensures CurrentRate(Perform(d, RateAdded(rate, now)).rates, rate.direction, later) == Some(|d.rates|)
  {
    CurrentRateIsLatest(d.rates + [rate], rate.direction, later, |d.rates|);
    hide CurrentRate;
  }

  lemma ConsentNamesTheRate(c: Config, d: Tables, form: Form, draft: Draft)
    requires Consented(c, d, form, draft)
    ensures draft.quote.rateId < |d.rates| && draft.quote.rate == d.rates[draft.quote.rateId]
    ensures Strip(c.unicode, form.rate) == NatToString(draft.quote.rateId)
  {
    hide Strip, NatToString, Named, Price, NumberEntry.ParseAmount, Destinations.Normalised;
  }
}
