/** The portal over time: clients building drafts and committing them, in any order
    and at any instants, while Finance works on the same tables. */
module Runs {
  import opened Basics
  import opened Pricing
  import opened Desk
  import opened Submissions
  import opened Operations

  /** A draft that was accepted, with the client it was accepted from and their form. */
  datatype Held = Held(client: nat, form: Form, draft: Draft)

  /** The tables, and what has been seen on the way to them: every draft accepted so
      far, the draft each request was committed from, and each wallet's highest cap. */
  datatype Portal = Portal(desk: Tables, held: seq<Held>, origins: seq<Option<nat>>, peaks: seq<Option<nat>>)

  datatype Step =
    | Build(client: nat, form: Form, now: int)
    | Commit(draft: nat, now: int)
    | Operate(deed: Deed)

  /** What anyone but a client does. */
  datatype Deed =
    | WalletCreated(link: nat, number: string, cap: Option<nat>, active: bool, now: int)
    | WalletActivated(wallet: nat, now: int)
    | WalletDeactivated(wallet: nat, now: int)
    | CapSet(wallet: nat, cap: Option<nat>, now: int)
    | WalletRemoved(wallet: nat, allowed: bool, now: int)
    | MerchantCreated(active: bool)
    | MerchantToggled(merchant: nat)
    | MerchantArchived(merchant: nat, allowed: bool, now: int)
    | MerchantRestored(merchant: nat, allowed: bool)
    | MethodAssigned(merchant: nat, rail: nat, active: bool)
    | LinkToggled(link: nat)
    | RateAdded(rate: ExchangeRate, now: int)
    | StatusMoved(request: nat, status: Status)

  /** A refused operation rolls back. */
  function Settled(d: Tables, r: Result<Tables, OperationError>): Tables {
    if r.Ok? then r.value else d
  }

  function Perform(d: Tables, deed: Deed): Tables {
    match deed
    case WalletCreated(link, number, cap, active, now) => Settled(d, CreateWallet(d, link, number, cap, active, now))
    case WalletActivated(id, now) => Settled(d, ActivateWallet(d, id, now))
    case WalletDeactivated(id, now) => Settled(d, DeactivateWallet(d, id, now))
    case CapSet(id, cap, now) => Settled(d, SetCap(d, id, cap, now))
    case WalletRemoved(id, allowed, now) => Settled(d, RemoveWallet(d, id, allowed, now))
    case MerchantCreated(active) => CreateMerchant(d, active)
    case MerchantToggled(m) => Settled(d, ToggleMerchant(d, m))
    case MerchantArchived(m, allowed, now) => Settled(d, ArchiveMerchant(d, m, allowed, now))
    case MerchantRestored(m, allowed) => Settled(d, RestoreMerchant(d, m, allowed))
    case MethodAssigned(m, p, active) => Settled(d, AssignMethod(d, m, p, active))
    case LinkToggled(l) => Settled(d, ToggleLink(d, l))
    case RateAdded(rate, now) => AddRate(d, rate, now)
    case StatusMoved(r, status) => SetStatus(d, r, status)
  }

  function Apply(c: Config, s: Portal, step: Step): Portal {
    match step
    case Build(client, form, now) =>
      (match BuildDraft(c, s.desk, client, form, now)
       case Refused(_) => s
       case Ok(draft) => s.(held := s.held + [Held(client, form, draft)]))
    case Commit(i, now) =>
      if i >= |s.held| then s
      else
        (match CreateRequest(c, s.desk, s.held[i].draft, now)
         case Refused(_) => s
         case Ok(desk) => s.(desk := desk, origins := s.origins + [Some(i)]))
    case Operate(deed) =>
      var desk := Perform(s.desk, deed);
      s.(desk := desk, peaks := Raised(s.peaks, desk.wallets))
  }

  function Run(c: Config, s: Portal, steps: seq<Step>): Portal
    decreases |steps|
  {
    if steps == [] then s else Run(c, Apply(c, s, steps[0]), steps[1..])
  }

  /** A desk with payment methods and nothing else. */
  function Opening(methods: seq<PaymentMethod>): Portal {
    Portal(Tables(methods, [], [], [], [], [], [], [], []), [], [], [])
  }

  // ----------------------------------------------------------- the caps seen --

  /** Caps in order, no cap at all being the highest. */
  predicate AtMost(a: Option<nat>, b: Option<nat>) {
    b.None? || (a.Some? && a.value <= b.value)
  }

  function Raised(peaks: seq<Option<nat>>, wallets: seq<Option<Wallet>>): (r: seq<Option<nat>>)
    ensures |r| == |wallets|
    ensures forall i :: 0 <= i < |r| ==> r[i] == PeakOf(peaks, wallets, i)
  {
    seq(|wallets|, i requires 0 <= i < |wallets| => PeakOf(peaks, wallets, i))
  }

  function PeakOf(peaks: seq<Option<nat>>, wallets: seq<Option<Wallet>>, i: nat): Option<nat>
    requires i < |wallets|
  {
    if wallets[i].None? then if i < |peaks| then peaks[i] else None
    else if i < |peaks| && AtMost(wallets[i].value.dailyCap, peaks[i]) then peaks[i]
    else wallets[i].value.dailyCap
  }

  // ------------------------------------------------------ what is never undone --

  /** A stored request never changes but in its status, and a rejection is final. */
  predicate SameRequest(r: Request, later: Request) {
    later == r.(status := later.status) && (r.status.Rejected? ==> later.status.Rejected?)
  }

  /** A wallet keeps its link and number for as long as it exists. */
  predicate SameWallet(w: Option<Wallet>, later: Option<Wallet>) {
    later.Some? ==> w.Some? && later.value.link == w.value.link && later.value.number == w.value.number
  }

  ghost predicate Extends(d: Tables, e: Tables) {
    && e.methods == d.methods
    && |d.merchants| <= |e.merchants|
    && |d.links| <= |e.links|
    && (forall l :: 0 <= l < |d.links| ==>
        e.links[l].merchant == d.links[l].merchant && e.links[l].rail == d.links[l].rail)
    && |d.wallets| <= |e.wallets|
    && (forall i :: 0 <= i < |d.wallets| ==> SameWallet(d.wallets[i], e.wallets[i]))
    && d.rates <= e.rates
    && |d.requests| <= |e.requests|
    && (forall r :: 0 <= r < |d.requests| ==> SameRequest(d.requests[r], e.requests[r]))
    && d.attachments <= e.attachments
    && d.messages <= e.messages
    && d.audit <= e.audit
  }

  lemma ExtendsTransitive(d: Tables, e: Tables, f: Tables)
    requires Extends(d, e) && Extends(e, f)
    ensures Extends(d, f)
  {
  }

  lemma SavingExtends(wallets: seq<Option<Wallet>>, pk: Option<nat>, row: Wallet, now: int)
    requires pk.Some? ==> Live(wallets, pk.value) && SameWallet(wallets[pk.value], Some(row))
    ensures var saved := SavedWallet(wallets, pk, row, now);
      && |saved| == (if pk.Some? then |wallets| else |wallets| + 1)
      && forall i :: 0 <= i < |wallets| ==> SameWallet(wallets[i], saved[i]) && (wallets[i].Some? <==> saved[i].Some?)
  {
  }

  lemma DeedExtends(d: Tables, deed: Deed)
    ensures Extends(d, Perform(d, deed))
  {
    hide SavedWallet, WasUsed, NumberClashes, SlotHolder, Superseded, Assigned;
    match deed
    case WalletCreated(link, number, cap, active, now) =>
      SavingExtends(d.wallets, None, Wallet(link, number, active, cap, now, None, None), now);
    case WalletActivated(id, now) =>
      if Live(d.wallets, id) {
        SavingExtends(d.wallets, Some(id), d.wallets[id].value.(isActive := true), now);
      }
    case WalletDeactivated(id, now) =>
      if Live(d.wallets, id) {
        SavingExtends(d.wallets, Some(id), StoodDown(d.wallets[id].value, now), now);
      }
    case CapSet(id, cap, now) =>
      if Live(d.wallets, id) {
        SavingExtends(d.wallets, Some(id), d.wallets[id].value.(dailyCap := cap), now);
      }
    case WalletRemoved(id, allowed, now) =>
      if Live(d.wallets, id) {
        SavingExtends(d.wallets, Some(id), Retired(d.wallets[id].value, now), now);
      }
    case _ =>
      OtherDeedExtends(d, deed);
  }

  lemma DeedKeepsRequestCount(d: Tables, deed: Deed)
    ensures |Perform(d, deed).requests| == |d.requests|
  {
  }

  lemma OtherDeedExtends(d: Tables, deed: Deed)
    requires !(deed.WalletCreated? || deed.WalletActivated? || deed.WalletDeactivated? || deed.CapSet?
               || deed.WalletRemoved?)
    ensures Extends(d, Perform(d, deed))
  {
    hide Assigned;
  }

  lemma StepExtends(c: Config, s: Portal, step: Step)
    ensures Extends(s.desk, Apply(c, s, step).desk)
  {
    if step.Operate? {
      DeedExtends(s.desk, step.deed);
    }
  }

  /** Whatever happens afterwards, a stored request keeps every figure, a rejection
      stays, rates, files, messages and the log are only added to, a wallet keeps its
      number and place, and a deleted wallet does not come back. */
  lemma {:induction false} NothingIsRewritten(c: Config, s: Portal, steps: seq<Step>)
    ensures Extends(s.desk, Run(c, s, steps).desk)
    decreases |steps|
  {
    if steps != [] {
      StepExtends(c, s, steps[0]);
      NothingIsRewritten(c, Apply(c, s, steps[0]), steps[1..]);
      ExtendsTransitive(s.desk, Apply(c, s, steps[0]).desk, Run(c, s, steps).desk);
    }
  }
}
