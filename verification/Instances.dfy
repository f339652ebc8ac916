/** Runs from an empty desk that reach the cases the code gets wrong. */
module Instances {
  import opened Basics
  import opened Text
  import opened Pricing
  import opened Desk
  import opened Submissions
  import opened Operations
  import opened Runs
  import Slots
  import AuditReplay
  import NumberEntry
  import Destinations
  import Hours

  // ------------------------------------------------------------ a small desk --

  const ASCII := Unicode(
    c => if IsAsciiDigit(c) then Some(DigitOf(c)) else None,
    c => IsAsciiDigit(c),
    c => c == ' ',
    c => [c])

  const CONFIG := Config(
    ASCII, Hours.Settings(0, 0, Some(true), 0), NumberEntry.Bounds(1, 100_000_000), NumberEntry.Bounds(1, 100_000_000),
    Destinations.Band(1, 64), 1000, 0)

  const RAILS := [PaymentMethod("m", true, true, true)]

  /** One dollar, to the only merchant, wallet and rate there are. */
  const FORM := Form("deposit", "m", "0", "0", "0", "1", "", "", AcceptableFile("image/png"))

  /** A merchant, their method, an active wallet without a cap, and a deposit rate. */
  function SettingUp(rate: nat): seq<Step> {
    [Operate(MerchantCreated(true)),
     Operate(MethodAssigned(0, 0, true)),
     Operate(WalletCreated(0, "7", None, true, 0)),
     Operate(RateAdded(ExchangeRate(Deposit, rate, 0, 0), 0))]
  }

  const WALLET := Wallet(0, "7", true, None, 0, None, None)

  predicate IsSetUp(d: Tables, rate: nat) {
    && d.methods == RAILS && d.merchants == [Merchant(true, None)] && d.links == [MerchantMethod(0, 0, true)]
    && d.wallets == [Some(WALLET)] && d.rates == [ExchangeRate(Deposit, rate, 0, 0)]
    && d.requests == []
  }

  lemma RunSnoc(c: Config, s: Portal, steps: seq<Step>, last: Step)
    ensures Run(c, s, steps + [last]) == Apply(c, Run(c, s, steps), last)
    decreases |steps|
  {
    if steps == [] {
      assert steps + [last] == [last];
      assert [last][1..] == [];
    } else {
      RunSnoc(c, Apply(c, s, steps[0]), steps[1..], last);
      assert (steps + [last])[1..] == steps[1..] + [last];
    }
  }

  lemma SetsUp(rate: nat)
    ensures var s := Run(CONFIG, Opening(RAILS), SettingUp(rate));
      IsSetUp(s.desk, rate) && s.held == []
  {
    var steps, start := SettingUp(rate), Opening(RAILS);
    var merchant := Apply(CONFIG, start, steps[0]);
    var link := Apply(CONFIG, merchant, steps[1]);
    var wallet := Apply(CONFIG, link, steps[2]);
    assert wallet.desk.wallets == [Some(WALLET)];
    assert steps == ([] + [steps[0]]) + [steps[1]] + [steps[2]] + [steps[3]];
    RunSnoc(CONFIG, start, [], steps[0]);
    RunSnoc(CONFIG, start, [] + [steps[0]], steps[1]);
    RunSnoc(CONFIG, start, [] + [steps[0]] + [steps[1]], steps[2]);
    RunSnoc(CONFIG, start, [] + [steps[0]] + [steps[1]] + [steps[2]], steps[3]);
  }

  // ------------------------------------------------------- a deposit there --

  function DraftAt(rate: nat): Draft {
    var figures := Price(rate, 0, 100, Deposit).value;
    Draft(Deposit, 0, 0, 0, Quote(0, ExchangeRate(Deposit, rate, 0, 0), 100, figures, Deposit), "",
          Some(HeldWallet(0, WALLET)), Some("image/png"), "")
  }

  lemma TheTable()
    ensures NumberEntry.NumericTable(ASCII)
  {
  }

  lemma OneReadsAsADollar()
    ensures AllDigits("1") && AllDigits("") && DigitsValue("1") == 1
    ensures NumberEntry.Pow10(2) == 100
    ensures "1" + "" == "1" && NumberEntry.Plain("1", false, "") == "1"
  {
    assert "1"[..0] == "";
  }

  lemma OneRendersItself()
    ensures NumberEntry.Renders(ASCII, "1", "1")
  {
    assert "1"[1..] == "";
    assert '1' !in NumberEntry.NOISE;
  }

  lemma OneDollar()
    ensures NumberEntry.ParseAmount(ASCII, CONFIG.depositBounds, "1") == Ok(100)
  {
    hide NumberEntry.ParseAmount, NumberEntry.Renders, NumberEntry.NumericTable, NumberEntry.Pow10, NumberEntry.Plain,
         AllDigits, DigitsValue;
    TheTable();
    OneReadsAsADollar();
    OneRendersItself();
    NumberEntry.ParsePlain(ASCII, CONFIG.depositBounds, "1", false, "", "1");
  }

  lemma TheFormReads()
    ensures Strip(ASCII, "deposit") == "deposit" && Strip(ASCII, "m") == "m" && Strip(ASCII, "") == ""
    ensures Strip(ASCII, "0") == "0" == NatToString(0) && ReadInteger(ASCII, "0") == Number(0)
  {
    StripNothing(ASCII, "deposit");
    StripNothing(ASCII, "m");
    StripNothing(ASCII, "");
    StripNothing(ASCII, "0");
    assert NatToString(0) == "0";
    TheTable();
    hide ReadInteger, Strip, NatToString;
    ReadIntegerOfNat(ASCII, 0);
  }

  lemma TheDeskOffers(d: Tables, rate: nat)
    requires IsSetUp(d, rate)
    ensures Offerable(d, Deposit, 0)
    ensures AvailableMethods(d, Deposit, None) == {0} && AvailableMerchants(d, Deposit, Some(0)) == {0}
    ensures MerchantMethodFor(d, Deposit, 0, 0) == Some(0) && ActiveWallet(d, 0) == Some(0)
    ensures CurrentRate(d.rates, Deposit, 0) == Some(0)
  {
    assert Holds(d.wallets, 0, 0, false);
    assert d.rates[..0] == [] && d.wallets[..0] == [];
    assert d.links[0].rail == 0 && d.links[0].merchant == 0;
    assert Offerable(d, Deposit, 0);
  }

  lemma ThePairResolves(d: Tables, rate: nat)
    requires IsSetUp(d, rate)
    ensures CheckBusinessHours(CONFIG, 0).Ok? && ResolveType(CONFIG, FORM) == Ok(Deposit)
    ensures ResolveMethod(CONFIG, d, Deposit, FORM) == Ok(0) && ResolveMerchant(CONFIG, d, Deposit, 0, FORM) == Ok(0)
  {
    TheFormReads();
    TheDeskOffers(d, rate);
    hide Strip, NatToString, ReadInteger, Offerable, AvailableMethods, AvailableMerchants;
  }

  lemma TheRestResolves(d: Tables, rate: nat)
    requires IsSetUp(d, rate)
    ensures ResolveWallet(CONFIG, d, Deposit, 0, 0, FORM, 0) == Ok(HeldWallet(0, WALLET))
    ensures ResolveQuote(CONFIG, d, Deposit, FORM, 0) == Ok(DraftAt(rate).quote)
    ensures CheckWalletCapacity(CONFIG, d, WALLET, DraftAt(rate).quote.figures.total, 0).Ok?
    ensures ResolveProof(FORM) == Ok("image/png") && ResolveMessage(CONFIG, FORM) == Ok("")
  {
    TheFormReads();
    OneDollar();
    TheDeskOffers(d, rate);
    DepositsArePriced(rate);
    hide Strip, NatToString, ReadInteger, NumberEntry.ParseAmount, Offerable, MerchantMethodFor, ActiveWallet,
         CurrentRate, Price;
  }

  lemma TheDraftIsBuilt(d: Tables, rate: nat)
    requires IsSetUp(d, rate)
    ensures BuildDraft(CONFIG, d, 0, FORM, 0) == Ok(DraftAt(rate))
  {
    ThePairResolves(d, rate);
    TheRestResolves(d, rate);
    hide CheckBusinessHours, ResolveType, ResolveMethod, ResolveMerchant, ResolveWallet, ResolveQuote,
         CheckWalletCapacity, ResolveProof, ResolveMessage;
  }

  lemma DepositsArePriced(rate: nat)
    ensures Price(rate, 0, 100, Deposit).Ok?
  {
  }

  // ---------------------------------------------------------- the instances --

  /** One dollar at 400 dinars is accepted, and comes to a total of nothing, which
      `full_clean` will not store. */
  lemma AcceptedAndNotStored()
    ensures var d := Run(CONFIG, Opening(RAILS), SettingUp(40_000)).desk;
      var built := BuildDraft(CONFIG, d, 0, FORM, 0);
      && built.Ok? && built.value.quote.figures.total == 0
      && CreateRequest(CONFIG, d, built.value, 0) == Refused(NotClean)
  {
    SetsUp(40_000);
    var d := Run(CONFIG, Opening(RAILS), SettingUp(40_000)).desk;
    TheDraftIsBuilt(d, 40_000);
    NothingIsNotStored(d);
    hide *;
  }

  lemma NothingIsNotStored(d: Tables)
    requires IsSetUp(d, 40_000)
    ensures DraftAt(40_000).quote.figures.total == 0
    ensures CreateRequest(CONFIG, d, DraftAt(40_000), 0) == Refused(NotClean)
  {
  }

  /** A deposit at 1450 dinars, its wallet then archived and another put in its place. */
  function Retiring(): seq<Step> {
    SettingUp(145_000)
    + [Build(0, FORM, 0)] + [Commit(0, 0)]
    + [Operate(WalletRemoved(0, true, 1))] + [Operate(WalletCreated(0, "8", None, true, 2))]
  }

  predicate IsRetired(d: Tables) {
    && d.methods == RAILS && d.merchants == [Merchant(true, None)] && d.links == [MerchantMethod(0, 0, true)]
    && d.wallets == [Some(WALLET.(isActive := false, deactivatedAt := Some(1), archivedAt := Some(1))),
                     Some(Wallet(0, "8", true, None, 2, None, None))]
  }

  lemma Retires()
    ensures IsRetired(Run(CONFIG, Opening(RAILS), Retiring()).desk)
  {
    var start, steps := Opening(RAILS), SettingUp(145_000);
    var s := Run(CONFIG, start, steps);
    SetsUp(145_000);
    TheDraftIsBuilt(s.desk, 145_000);
    var built := Apply(CONFIG, s, Build(0, FORM, 0));
    var filed := Apply(CONFIG, built, Commit(0, 0));
    var removal, creation := Operate(WalletRemoved(0, true, 1)), Operate(WalletCreated(0, "8", None, true, 2));
    RunSnoc(CONFIG, start, steps, Build(0, FORM, 0));
    RunSnoc(CONFIG, start, steps + [Build(0, FORM, 0)], Commit(0, 0));
    RunSnoc(CONFIG, start, steps + [Build(0, FORM, 0)] + [Commit(0, 0)], removal);
    RunSnoc(CONFIG, start, steps + [Build(0, FORM, 0)] + [Commit(0, 0)] + [removal], creation);
    hide Run, BuildDraft;
    assert built == s.(held := [Held(0, FORM, DraftAt(145_000))]);
    OneRequestIsFiled(s, built);
    RemovedIsArchived(filed);
    var archived := Apply(CONFIG, filed, removal);
    ReplacementIsMade(archived);
  }

  lemma OneRequestIsFiled(s: Portal, built: Portal)
    requires IsSetUp(s.desk, 145_000) && built.desk == s.desk && built.held == [Held(0, FORM, DraftAt(145_000))]
    ensures var d := Apply(CONFIG, built, Commit(0, 0)).desk;
      && d.requests == [RequestOf(DraftAt(145_000), 0)]
      && d.methods == RAILS && d.merchants == s.desk.merchants && d.links == s.desk.links && d.wallets == s.desk.wallets
  {
    TheDraftIsStored(s.desk);
    hide CreateRequest, BuildDraft, Perform;
  }

  lemma TheDraftIsStored(d: Tables)
    requires IsSetUp(d, 145_000)
    ensures var stored := CreateRequest(CONFIG, d, DraftAt(145_000), 0);
      && stored.Ok?
      && stored.value.requests == [RequestOf(DraftAt(145_000), 0)]
      && stored.value.methods == RAILS && stored.value.merchants == d.merchants && stored.value.links == d.links
      && stored.value.wallets == d.wallets
  {
    hide BuildDraft, Perform, RequestOf;
  }

  predicate IsFiled(d: Tables) {
    && d.methods == RAILS && d.merchants == [Merchant(true, None)] && d.links == [MerchantMethod(0, 0, true)]
    && d.wallets == [Some(WALLET)] && d.requests == [RequestOf(DraftAt(145_000), 0)]
  }

  lemma RemovedIsArchived(filed: Portal)
    requires IsFiled(filed.desk)
    ensures var d := Apply(CONFIG, filed, Operate(WalletRemoved(0, true, 1))).desk;
      && d.methods == RAILS && d.merchants == filed.desk.merchants && d.links == filed.desk.links
      && d.wallets == [Some(WALLET.(isActive := false, deactivatedAt := Some(1), archivedAt := Some(1)))]
  {
    var d := filed.desk;
    assert d.requests[0].wallet == Some(0);
    assert WasUsed(d, 0);
  }

  lemma ReplacementIsMade(archived: Portal)
    requires var d := archived.desk;
      && d.methods == RAILS && d.merchants == [Merchant(true, None)] && d.links == [MerchantMethod(0, 0, true)]
      && d.wallets == [Some(WALLET.(isActive := false, deactivatedAt := Some(1), archivedAt := Some(1)))]
    ensures IsRetired(Apply(CONFIG, archived, Operate(WalletCreated(0, "8", None, true, 2))).desk)
  {
    assert "7" != "8" by {
      assert "7"[0] != "8"[0];
    }
  }

  /** Activating the archived wallet again takes the slot from a wallet clients were
      offered, and the pair goes from offered to not offered. */
  lemma ArchivedWalletIsActivated()
    ensures var s := Run(CONFIG, Opening(RAILS), Retiring());
      var e := Run(CONFIG, Opening(RAILS), Retiring() + [Operate(WalletActivated(0, 3))]).desk;
      && Offerable(s.desk, Deposit, 0) && ActiveWallet(s.desk, 0) == Some(1)
      && !Offerable(e, Deposit, 0) && ActiveWallet(e, 0) == None && SlotHolder(e.wallets, 0) == Some(0)
  {
    hide *;
    Retires();
    RunSnoc(CONFIG, Opening(RAILS), Retiring(), Operate(WalletActivated(0, 3)));
    AuditReplay.OpeningReplays(RAILS);
    Slots.OneActiveWalletEach(CONFIG, Opening(RAILS), Retiring());
    SlotIsTaken(Run(CONFIG, Opening(RAILS), Retiring()));
  }

  lemma SlotIsTaken(s: Portal)
    requires IsRetired(s.desk) && Slots.Structure(s.desk)
    ensures var e := Apply(CONFIG, s, Operate(WalletActivated(0, 3))).desk;
      && Offerable(s.desk, Deposit, 0) && ActiveWallet(s.desk, 0) == Some(1)
      && !Offerable(e, Deposit, 0) && ActiveWallet(e, 0) == None && SlotHolder(e.wallets, 0) == Some(0)
  {
    hide ActivateWallet, SlotHolder, ActiveWallet, Slots.WalletsOk;
    Slots.ActivatedIsOfferedIff(s.desk, 0, 3);
    assert Holds(s.desk.wallets, 1, 0, false);
    ReplacementIsOffered(s.desk);
  }

  lemma ReplacementIsOffered(d: Tables)
    requires IsRetired(d) && Slots.Structure(d)
    ensures ActiveWallet(d, 0) == Some(1)
  {
    assert Holds(d.wallets, 1, 0, false);
    Slots.NewestIs(d.wallets, |d.links|, 0, false, 1);
  }

  /** A wallet added inactive by mistake and deleted: its entry, under an active
      merchant, says "inactive" of what came before. */
  function Mistake(): seq<Step> {
    [Operate(MerchantCreated(true)), Operate(MethodAssigned(0, 0, true)),
     Operate(WalletCreated(0, "7", None, false, 0))]
  }

  lemma MistakeIsMade()
    ensures var d := Run(CONFIG, Opening(RAILS), Mistake()).desk;
      && d.merchants == [Merchant(true, None)] && d.links == [MerchantMethod(0, 0, true)] && d.requests == []
      && d.wallets == [Some(Wallet(0, "7", false, None, 0, Some(0), None))]
  {
    var steps, start := Mistake(), Opening(RAILS);
    assert steps == ([] + [steps[0]]) + [steps[1]] + [steps[2]];
    RunSnoc(CONFIG, start, [], steps[0]);
    RunSnoc(CONFIG, start, [] + [steps[0]], steps[1]);
    RunSnoc(CONFIG, start, [] + [steps[0]] + [steps[1]], steps[2]);
  }

  lemma DeletionBreaksTheMerchantsChain()
    ensures var log := Run(CONFIG, Opening(RAILS), Mistake()).desk.audit;
      var after := Run(CONFIG, Opening(RAILS), Mistake() + [Operate(WalletRemoved(0, true, 1))]).desk.audit;
      && |after| == |log| + 1 && after[|log|].target == MerchantRow(0)
      && !AuditReplay.Meets(after[|log|].before, AuditReplay.Replay(log, MerchantRow(0)))
  {
    hide Run, Mistake, Slots.Structure, AuditReplay.Replays, AuditReplay.Replay, AuditReplay.Meets, RemoveWallet;
    var steps, start := Mistake(), Opening(RAILS);
    var d := Run(CONFIG, start, steps).desk;
    MistakeIsMade();
    RunSnoc(CONFIG, start, steps, Operate(WalletRemoved(0, true, 1)));
    AuditReplay.OpeningReplays(RAILS);
    Slots.OneActiveWalletEach(CONFIG, start, steps);
    AuditReplay.LogReplaysToState(CONFIG, start, steps);
    AuditReplay.DeletionContinuesTheMerchantIff(d, 0, 1);
  }
}
