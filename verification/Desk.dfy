/** The rows the desk works from, and the questions asked of them.
    A primary key is an index into its table; only a wallet can be deleted, and its
    place is then empty for good. */
module Desk {
  import opened Basics
  import opened Pricing

  datatype PaymentMethod = PaymentMethod(code: string, supportsDeposit: bool, supportsWithdrawal: bool, isActive: bool)

  datatype Merchant = Merchant(isActive: bool, archivedAt: Option<int>)

  /** Which payment method (`rail`) a merchant covers. */
  datatype MerchantMethod = MerchantMethod(merchant: nat, rail: nat, isActive: bool)

  /** The daily cap is counted in hundredths of a dinar. */
  datatype Wallet = Wallet(
    link: nat,
    number: string,
    isActive: bool,
    dailyCap: Option<nat>,
    createdAt: int,
    deactivatedAt: Option<int>,
    archivedAt: Option<int>)

  /** One immutable revision: dinars per dollar and commission per 100 dollars, in hundredths. */
  datatype ExchangeRate = ExchangeRate(direction: RequestType, iqdPerUsd: nat, commission: nat, effectiveFrom: int)

  /** Rejected is terminal; what lies between is the lifecycle's business. */
  datatype Status = Submitted | Moved(name: string) | Rejected

  datatype Request = Request(
    kind: RequestType,
    client: nat,
    rail: nat,
    merchant: nat,
    wallet: Option<nat>,
    walletNumber: string,
    destination: string,
    amountUsd: int,
    amountIqd: int,
    rateApplied: int,
    commissionApplied: int,
    commissionRateApplied: int,
    submittedUsd: int,
    submittedIqd: int,
    status: Status,
    submittedAt: int)

  datatype Attachment = Attachment(request: nat, contentType: string)

  datatype Message = Message(request: nat, client: nat, body: string)

  // ------------------------------------------------------------ audit log --

  datatype Action = StatusChange | WalletChange | RateChange | MerchantChange

  datatype Target =
    | WalletRow(wallet: nat)
    | MerchantRow(merchant: nat)
    | LinkRow(link: nat)
    | RequestRow(request: nat)
    | RateRow(rate: nat)

  /** The two keys of a before/after snapshot that say what state a row is in;
      None where the snapshot does not carry the key. */
  datatype Snapshot = Snapshot(isActive: Option<bool>, archivedAt: Option<Option<int>>)

  datatype Reason =
    | Plainly
    | SupersededBy(wallet: nat)
    | Replaced
    | Manual
    | HasRequests
    | NeverUsed(wallet: nat)
    | Event(name: string)

  datatype AuditEntry = AuditEntry(action: Action, target: Target, before: Option<Snapshot>, after: Snapshot,
                                   reason: Reason)

  datatype Tables = Tables(
    methods: seq<PaymentMethod>,
    merchants: seq<Merchant>,
    links: seq<MerchantMethod>,
    wallets: seq<Option<Wallet>>,
    rates: seq<ExchangeRate>,
    requests: seq<Request>,
    attachments: seq<Attachment>,
    messages: seq<Message>,
    audit: seq<AuditEntry>)

  // -------------------------------------------------------------- wallets --

  predicate Live(wallets: seq<Option<Wallet>>, id: nat) {
    id < |wallets| && wallets[id].Some?
  }

  predicate Holds(wallets: seq<Option<Wallet>>, id: nat, link: nat, archivedToo: bool) {
    && Live(wallets, id) && wallets[id].value.link == link && wallets[id].value.isActive
    && (archivedToo || wallets[id].value.archivedAt.None?)
  }

  /** The newest active wallet of a link, later rows winning ties. */
  function Newest(wallets: seq<Option<Wallet>>, link: nat, archivedToo: bool): (r: Option<nat>)
    ensures r.Some? ==> Holds(wallets, r.value, link, archivedToo)
    ensures r.Some? ==> forall id: nat :: Holds(wallets, id, link, archivedToo) ==> NoNewer(wallets, id, r.value)
    ensures r.None? ==> forall id: nat :: !Holds(wallets, id, link, archivedToo)
  {
    if wallets == [] then None
    else
      var init, last := wallets[..|wallets| - 1], |wallets| - 1;
      var before := Newest(init, link, archivedToo);
      assert forall id: nat :: id < last ==>
            (Holds(wallets, id, link, archivedToo) <==> Holds(init, id, link, archivedToo));
      assert before.Some? ==> forall id: nat :: Holds(init, id, link, archivedToo) ==> NoNewer(init, id, before.value);
      if !Holds(wallets, last, link, archivedToo) then before
      else if before.Some? && wallets[before.value].value.createdAt > wallets[last].value.createdAt then before
      else Some(last)
  }

  /** Created no later, and if at the same instant entered no later. */
  predicate NoNewer(wallets: seq<Option<Wallet>>, id: nat, than: nat)
    requires Live(wallets, id) && Live(wallets, than)
  {
    var a, b := wallets[id].value.createdAt, wallets[than].value.createdAt;
    a < b || (a == b && id <= than)
  }

  /** `MerchantMethod.active_wallet`, which does not look at archiving. */
  function SlotHolder(wallets: seq<Option<Wallet>>, link: nat): Option<nat> {
    Newest(wallets, link, true)
  }

  /** `catalog.active_wallet`. */
  function ActiveWallet(d: Tables, link: nat): Option<nat> {
    Newest(d.wallets, link, false)
  }

  /** `Wallet.was_used`: by key, or by snapshot when the wallet has a number. */
  predicate WasUsed(d: Tables, id: nat)
    requires Live(d.wallets, id)
  {
    || (exists i :: 0 <= i < |d.requests| && d.requests[i].wallet == Some(id))
    || (&& d.wallets[id].value.number != ""
        && d.wallets[id].value.link < |d.links|
        && exists i :: 0 <= i < |d.requests| && FiledUnder(d, d.wallets[id].value, d.requests[i]))
  }

  predicate FiledUnder(d: Tables, w: Wallet, r: Request)
    requires w.link < |d.links|
  {
    && r.walletNumber == w.number
    && r.rail == d.links[w.link].rail
    && r.merchant == d.links[w.link].merchant
  }

  // ------------------------------------------------------------- capacity --

  /** The half-open local day containing `at`, for a zone `offset` microseconds ahead. */
  function DayBounds(offset: int, at: int): (int, int) {
    var start := (at + offset) / DAY * DAY - offset;
    (start, start + DAY)
  }

  predicate Counts(r: Request, merchant: nat, rail: nat, number: string, start: int, end: int) {
    && r.kind.Deposit? && r.merchant == merchant && r.rail == rail && r.walletNumber == number
    && start <= r.submittedAt < end
    && !r.status.Rejected?
  }

  function Consumed(requests: seq<Request>, merchant: nat, rail: nat, number: string, start: int, end: int): int {
    if requests == [] then 0
    else
      var last := requests[|requests| - 1];
      Consumed(requests[..|requests| - 1], merchant, rail, number, start, end)
      + (if Counts(last, merchant, rail, number, start, end) then last.amountIqd else 0)
  }

  /** `consumed_iqd`: matched the way the money was, by merchant, method and number. */
  function ConsumedIqd(d: Tables, w: Wallet, offset: int, at: int): int
    requires w.link < |d.links|
  {
    var (start, end) := DayBounds(offset, at);
    Consumed(d.requests, d.links[w.link].merchant, d.links[w.link].rail, w.number, start, end)
  }

  /** `headroom_iqd`, in hundredths; None when the wallet is uncapped. */
  function Headroom(d: Tables, w: Wallet, offset: int, at: int): Option<nat>
    requires w.link < |d.links|
  {
    match w.dailyCap
    case None => None
    case Some(cap) =>
      var remaining := cap - 100 * ConsumedIqd(d, w, offset, at);
      Some(if remaining > 0 then remaining else 0)
  }

  predicate Accepts(d: Tables, w: Wallet, amount: int, offset: int, at: int)
    requires w.link < |d.links|
  {
    var remaining := Headroom(d, w, offset, at);
    remaining.None? || 100 * amount <= remaining.value
  }

  /** Two instants share their bounds exactly when they fall on one local day. */
  lemma DayBoundsAreTheDay(offset: int, at: int, t: int)
    ensures DayBounds(offset, at).0 <= at < DayBounds(offset, at).1
    ensures DayBounds(offset, at).0 <= t < DayBounds(offset, at).1 <==> (t + offset) / DAY == (at + offset) / DAY
    ensures DayBounds(offset, at) == DayBounds(offset, t) <==> (t + offset) / DAY == (at + offset) / DAY
  {
  }

  /** A positive amount is accepted exactly when the day's total would stay under the cap. */
  lemma AcceptsIff(d: Tables, w: Wallet, amount: int, offset: int, at: int)
    requires w.link < |d.links| && amount > 0
    ensures Accepts(d, w, amount, offset, at)
      <==> w.dailyCap.None? || 100 * (ConsumedIqd(d, w, offset, at) + amount) <= w.dailyCap.value
  {
  }

  /** What Finance is shown of a cap; `percent` is clamped for one lowered too late. */
  datatype Usage = Usage(consumed: int, cap: Option<nat>, remaining: Option<nat>, percent: int, isFull: bool)

  function UsageOf(d: Tables, w: Wallet, offset: int, at: int): Usage
    requires w.link < |d.links| && ConsumedIqd(d, w, offset, at) >= 0
  {
    var consumed := ConsumedIqd(d, w, offset, at);
    match w.dailyCap
    case None => Usage(consumed, None, None, 0, false)
    case Some(cap) =>
      var remaining := cap - 100 * consumed;
      var share := if cap > 0 then 100 * consumed * 100 / cap else 100;
      Usage(consumed,
            Some(cap),
            Some(if remaining > 0 then remaining else 0),
            if share < 100 then share else 100,
            remaining <= 0)
  }

  /** The bar is full exactly when clients are being turned away from the wallet. */
  lemma FullBarMeansRefusal(d: Tables, w: Wallet, offset: int, at: int)
    requires w.link < |d.links| && ConsumedIqd(d, w, offset, at) >= 0
    ensures var usage := UsageOf(d, w, offset, at);
      && (usage.isFull <==> Headroom(d, w, offset, at) == Some(0))
      && (usage.percent == 100 <==> usage.isFull)
      && usage.remaining == Headroom(d, w, offset, at)
      && 0 <= usage.percent <= 100
  {
    if w.dailyCap.Some? && w.dailyCap.value > 0 {
      var x, cap := 100 * ConsumedIqd(d, w, offset, at), w.dailyCap.value;
      QuotientUnique(x * 100, cap, x * 100 / cap);
      if x * 100 / cap >= 100 {
        ProductMonotone(100, x * 100 / cap, cap);
      } else {
        ProductMonotone(x * 100 / cap + 1, 100, cap);
      }
      if x * 100 / cap < 0 {
        ProductMonotone(x * 100 / cap + 1, 0, cap);
      }
    }
  }

  // ---------------------------------------------------------------- rates --

  predicate InForce(r: ExchangeRate, direction: RequestType, at: int) {
    r.direction == direction && r.effectiveFrom <= at
  }

  /** `ExchangeRate.current`. */
  function CurrentRate(rates: seq<ExchangeRate>, direction: RequestType, at: int): (r: Option<nat>)
    ensures r.Some? ==> r.value < |rates| && InForce(rates[r.value], direction, at)
  {
    if rates == [] then None
    else
      var last := |rates| - 1;
      var before := CurrentRate(rates[..last], direction, at);
      if !InForce(rates[last], direction, at) then before
      else if before.Some? && rates[before.value].effectiveFrom > rates[last].effectiveFrom then before
      else Some(last)
  }

  /** No revision in force is later, and of those equally late none was entered later. */
  lemma {:induction false} CurrentRateIsLatest(rates: seq<ExchangeRate>, direction: RequestType, at: int, k: nat)
    ensures CurrentRate(rates, direction, at) == Some(k)
      <==> && k < |rates| && rates[k].direction == direction && rates[k].effectiveFrom <= at
           && forall i :: 0 <= i < |rates| && rates[i].direction == direction && rates[i].effectiveFrom <= at ==>
                rates[i].effectiveFrom < rates[k].effectiveFrom
                || (rates[i].effectiveFrom == rates[k].effectiveFrom && i <= k)
  {
    if rates != [] {
      var last := |rates| - 1;
      CurrentRateIsLatest(rates[..last], direction, at, k);
      var before := CurrentRate(rates[..last], direction, at);
      if before.Some? {
        CurrentRateIsLatest(rates[..last], direction, at, before.value);
      } else {
        forall i | 0 <= i < last
          ensures !InForce(rates[i], direction, at)
        {
          NoRateInForce(rates[..last], direction, at, i);
        }
      }
    }
  }

  lemma {:induction false} NoRateInForce(rates: seq<ExchangeRate>, direction: RequestType, at: int, i: nat)
    requires CurrentRate(rates, direction, at).None? && i < |rates|
    ensures !InForce(rates[i], direction, at)
  {
    var last := |rates| - 1;
    if i < last {
      NoRateInForce(rates[..last], direction, at, i);
    }
  }

  // ------------------------------------------------------------ catalogue --

  predicate HasActiveWallet(d: Tables, link: nat) {
    exists id :: 0 <= id < |d.wallets| && Holds(d.wallets, id, link, false)
  }

  predicate Supports(p: PaymentMethod, kind: RequestType) {
    if kind.Deposit? then p.supportsDeposit else p.supportsWithdrawal
  }

  /** A link that can take this kind of request right now. */
  predicate Offerable(d: Tables, kind: RequestType, link: nat) {
    && link < |d.links| && d.links[link].merchant < |d.merchants| && d.links[link].rail < |d.methods|
    && d.links[link].isActive
    && d.merchants[d.links[link].merchant].isActive
    && d.merchants[d.links[link].merchant].archivedAt.None?
    && d.methods[d.links[link].rail].isActive
    && Supports(d.methods[d.links[link].rail], kind)
    && (kind.Deposit? ==> HasActiveWallet(d, link))
  }

  function AvailableMerchants(d: Tables, kind: RequestType, rail: Option<nat>): set<nat> {
    set l | 0 <= l < |d.links| && Offerable(d, kind, l) && (rail.Some? ==> d.links[l].rail == rail.value) ::
          d.links[l].merchant
  }

  function AvailableMethods(d: Tables, kind: RequestType, merchant: Option<nat>): set<nat> {
    set l | 0 <= l < |d.links| && Offerable(d, kind, l) && (merchant.Some? ==> d.links[l].merchant == merchant.value) ::
          d.links[l].rail
  }

  /** The offerable links of one merchant, as `method_count` joins them. */
  function OfferableLinks(d: Tables, kind: RequestType, merchant: nat): set<nat> {
    set l | 0 <= l < |d.links| && Offerable(d, kind, l) && d.links[l].merchant == merchant
  }

  predicate Joins(d: Tables, kind: RequestType, rail: nat, merchant: nat, l: nat) {
    Offerable(d, kind, l) && d.links[l].rail == rail && d.links[l].merchant == merchant
  }

  /** `merchant_method`: the offerable link joining the two, if there is one. */
  function MerchantMethodFor(d: Tables, kind: RequestType, rail: nat, merchant: nat, from: nat := 0): (r: Option<nat>)
    requires from <= |d.links|
    ensures r.Some? ==> Joins(d, kind, rail, merchant, r.value)
    ensures r.None? ==> forall l: nat :: from <= l ==> !Joins(d, kind, rail, merchant, l)
    decreases |d.links| - from
  {
    if from == |d.links| then None
    else if Joins(d, kind, rail, merchant, from) then Some(from)
    else MerchantMethodFor(d, kind, rail, merchant, from + 1)
  }

  predicate UniquePairs(links: seq<MerchantMethod>) {
    forall i, j :: 0 <= i < j < |links| ==> links[i].merchant != links[j].merchant || links[i].rail != links[j].rail
  }

  /** The three ways the catalogue is asked about a pair always agree, and a pair
      offered for a deposit has somewhere to pay into. */
  lemma CatalogueDuality(d: Tables, kind: RequestType, rail: nat, merchant: nat)
    ensures merchant in AvailableMerchants(d, kind, Some(rail)) <==> rail in AvailableMethods(d, kind, Some(merchant))
    ensures rail in AvailableMethods(d, kind, Some(merchant)) <==> MerchantMethodFor(d, kind, rail, merchant).Some?
    ensures kind.Deposit? && MerchantMethodFor(d, kind, rail, merchant).Some? ==>
              ActiveWallet(d, MerchantMethodFor(d, kind, rail, merchant).value).Some?
    ensures merchant in AvailableMerchants(d, kind, Some(rail)) ==>
              && rail in AvailableMethods(d, kind, None)
              && merchant in AvailableMerchants(d, kind, None)
              && merchant < |d.merchants| && d.merchants[merchant].isActive && d.merchants[merchant].archivedAt.None?
              && rail < |d.methods|
  {
    var found := MerchantMethodFor(d, kind, rail, merchant);
    if merchant in AvailableMerchants(d, kind, Some(rail)) {
      var l :| 0 <= l < |d.links| && Offerable(d, kind, l) && d.links[l].rail == rail
            && d.links[l].merchant == merchant;
      assert Joins(d, kind, rail, merchant, l);
    }
    if rail in AvailableMethods(d, kind, Some(merchant)) {
      var l :| 0 <= l < |d.links| && Offerable(d, kind, l) && d.links[l].merchant == merchant
            && d.links[l].rail == rail;
      assert Joins(d, kind, rail, merchant, l);
    }
    if found.Some? {
      assert 0 <= found.value < |d.links|;
      if kind.Deposit? {
        var id :| 0 <= id < |d.wallets| && Holds(d.wallets, id, found.value, false);
      }
    }
  }

  function RailsOf(links: seq<MerchantMethod>, ids: set<nat>): set<nat>
    requires forall l :: l in ids ==> l < |links|
  {
    set l | l in ids :: links[l].rail
  }

  /** One merchant's links never share a payment method, so counting either counts both. */
  lemma {:induction false} DistinctRails(links: seq<MerchantMethod>, ids: set<nat>, merchant: nat)
    requires UniquePairs(links)
    requires forall l :: l in ids ==> l < |links| && links[l].merchant == merchant
    ensures |RailsOf(links, ids)| == |ids|
  {
    if ids != {} {
      var l :| l in ids;
      DistinctRails(links, ids - {l}, merchant);
      assert RailsOf(links, ids) == RailsOf(links, ids - {l}) + {links[l].rail};
      assert links[l].rail !in RailsOf(links, ids - {l});
    }
  }

  /** The count shown beside a merchant is the number of methods listed for them. */
  lemma MethodCountIsListLength(d: Tables, kind: RequestType, merchant: nat)
    requires UniquePairs(d.links)
    ensures |OfferableLinks(d, kind, merchant)| == |AvailableMethods(d, kind, Some(merchant))|
  {
    var ids := OfferableLinks(d, kind, merchant);
    DistinctRails(d.links, ids, merchant);
    assert RailsOf(d.links, ids) == AvailableMethods(d, kind, Some(merchant));
  }
}
