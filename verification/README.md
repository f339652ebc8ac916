# Money, access and time in the B2CORE payment portal

This project models how a deposit or a withdrawal is offered, priced, agreed to,
checked and stored while Finance changes rates, wallets, caps and merchants
underneath it, and the five smaller mechanisms that each carry a property of whole
runs: business hours, fixed-window counters, the merchant's embed session,
account permissions, and the masking of client identity.

Units: dollars are counted in cents, a rate and a commission in hundredths of a
dinar, the four figures of a quote in whole dinars, a daily cap in hundredths of a
dinar, instants of the desk, of business hours and of the request limiter in microseconds,
those of sessions in seconds; the login lockout may be read in either. A primary key is an index into its table.

How the files fit together:

| file | what is in it |
|---|---|
| `Basics.dfy`, `Text.dfy` | options, results, strings over an abstract Unicode table, decimal printing and reading |
| `Pricing.dfy`, `NumberEntry.dfy`, `Destinations.dfy` | the arithmetic of a quote; reading amounts and destination accounts |
| `Desk.dfy` | the rows, the capacity of a wallet, the rate in force, the catalogue |
| `Submissions.dfy`, `Refusals.dfy` | `build_draft` and `create_request`; what a refusal tells the client |
| `Options.dfy`, `Offers.dfy` | `OptionsView.get`, that offer and acceptance agree, and both in the rows' own fields |
| `Verdict.dfy` | the answer to every form, refusals in their order |
| `Operations.dfy`, `DeskStore.dfy` | what Finance does, as functions on the tables and as methods of a store that updates them |
| `Runs.dfy` | runs: drafts built and committed by anybody at any instants, interleaved with deeds of Finance |
| `Slots.dfy`, `References.dfy`, `Caps.dfy`, `Consent.dfy`, `AuditReplay.dfy`, `RequestLog.dfy`, `FromEmpty.dfy` | what every run keeps |
| `Payloads.dfy` | the quote read back from a stored request |
| `Instances.dfy` | runs from an empty desk that reach three of the cases below |
| `Hours.dfy` | the next opening or closing |
| `CacheStore.dfy`, `FixedWindow.dfy`, `RateLimit.dfy`, `LoginThrottle.dfy` | counters that expire |
| `EmbedSession.dfy`, `Accounts.dfy`, `Anonymity.dfy` | sessions, permissions, masking |

A run starts from any state that satisfies the invariant named, and every invariant
holds of a desk with no rows (`FromEmpty`). A step may carry any instant: nothing
relies on clocks going forward. A draft may be committed at any later step, more than
once or never; the original commits each at most once.

## What turned out otherwise than written

* The bound on a fixed window is sharper than twice the limit: one less, and that is met
  at every rate.
* Submission reads a merchant number in any spelling, the catalogue only as printed: a
  zero in front is accepted by the one and refused by the other
  (`Options.CatalogueReadsPrintedKeysOnly` says exactly when).
* `sync_role_groups(strict=False)` is described as a no-op when rows are missing
  (`apps/accounts/permissions.py:182`); it has by then rewritten the roles listed before
  the incomplete one (`Accounts.SkippedIsANoOpIff`, with an instance).
* `WalletActivateView` does not ask whether the wallet is archived. Activating an
  archived one takes the slot from the wallet clients were offered and offers none
  (`Slots.ActivatedIsOfferedIff`, with a run in `Instances`).
* `remove_wallet` files a deletion under the merchant with the wallet's own figures, so
  the merchant's before/after chain is unbroken only when read by action
  (`AuditReplay.DeletionContinuesTheMerchantIff`, with a run in `Instances`).
* A deposit whose conversion and commission come to less than 500 dinars passes every
  check of `build_draft` and is then refused by `full_clean`
  (`Submissions.AcceptedIsStoredIff`, with a run in `Instances`).
* Of what Finance does, nothing but the deletion of its wallet stops a held draft:
  archiving the merchant, lowering the cap or entering a new rate between the check and
  the commit is not seen. In particular the re-check measures today's total against the
  cap as it was read when the draft was built (`References.HeldDraftCommitsIff`).
* The last account able to grant permissions can be disabled by one that only
  administers users; somebody able to do one or the other always remains
  (`Accounts.GranterRemainsIff` says exactly when a granter does).
* `update_account` does not ask what an account was personally granted when it makes a
  merchant's of it, so a forbidden label granted in another role goes along
  (`Accounts.StaysCleanIff`, with an instance).
* A larger withdrawal can pay one step of 1000 dinars less, or be refused as too little
  where the smaller is paid (`Pricing.LargerPaysLessIff` says exactly when).
* `apps/merchants/capacity.py:8-12` says a request has no key to a wallet; it now has
  one, and consumption is still matched by number, as the code does.

## Model

| member | source | states |
|---|---|---|
| `Pricing.HalfUpNearest` | apps/portal/pricing.py:273-281 | ROUND_HALF_UP is the one integer within half of the exact quotient, ties going up |
| `Pricing.HalfUpOdd` | apps/portal/pricing.py:273-281 | below zero ties go away from zero |
| `Pricing.HalfUpMonotone` | apps/portal/pricing.py:313-320 | rounding keeps order on the whole line |
| `Pricing.StepIsNearest` | apps/portal/pricing.py:273-281 | a transfer total is a multiple of 1000 and no multiple is nearer |
| `Pricing.Reconciles` | apps/portal/pricing.py:284-335 | converted plus or minus commission plus rounding is the total, the total is a whole step, rounding is at most 500 either way |
| `Pricing.RefusedIff` | apps/portal/pricing.py:318-335 | a withdrawal is refused exactly when converted less commission is under 500 |
| `Pricing.TotalError` | apps/portal/pricing.py:284-335 | every total is within 501 dinars of the exact, unrounded amount |
| `Pricing.SplittingBound` | apps/portal/pricing.py:284-335 | n quotes of parts differ from the quote of their sum by at most 501(n+1), and the sum is quotable if the parts are |
| `Pricing.DepositMonotone` | apps/portal/pricing.py:284-335 | a larger deposit never costs less |
| `Pricing.SubtotalIsNet` | apps/portal/pricing.py:313-320 | converted less commission is one of the two dinars around the exact figure, and which one |
| `Pricing.LargerPaysLessIff` | apps/portal/pricing.py:284-335 | a larger withdrawal pays less exactly when both exact figures lie in the one dinar below a half step and only the smaller is rounded over it; then by exactly one step; and when that step is the last, so that the larger is refused |
| `Pricing.WithdrawalAlmostMonotone` | apps/portal/pricing.py:284-335 | a larger withdrawal never pays more than one step less, counting a refusal as paying nothing, at any rate and commission |
| `Pricing.ADinarApartIsMonotone` | apps/portal/pricing.py:284-335 | amounts whose exact figures are a dinar apart are paid in order |
| `Pricing.WithdrawalNotMonotone` | apps/portal/pricing.py:284-335 | two amounts under that margin of which the larger pays one step less |
| `Pricing.LargerCanBeRefused` | apps/portal/pricing.py:318-335 | two amounts of which the smaller is paid and the larger refused as too little |
| `NumberEntry.Normalise` | apps/portal/pricing.py:116-141 | the loop computes the canonical spelling the parser is specified on |
| `NumberEntry.RenderingNormalises` | apps/portal/pricing.py:110-141 | every rendering of a figure, in any script, with noise anywhere and either separator, normalises to its one spelling |
| `NumberEntry.AcceptedIsWithinBounds` | apps/portal/pricing.py:200-208 | whatever was typed, an amount accepted lies within the bounds |
| `NumberEntry.ParsePlain` | apps/portal/pricing.py:172-208 | for every plain decimal however typed: more than two places is refused, then its exact cents are refused under the floor, refused over the ceiling, and accepted between |
| `NumberEntry.ParseSpelt` | apps/portal/pricing.py:172-208 | the same for every number written with a sign or an exponent; finer than a cent is refused whatever its value, a negative one falls under the floor |
| `NumberEntry.AmountRoundTrip` | apps/portal/pricing.py:172-208 | any in-range amount, printed and typed back in any rendering, parses to exactly itself |
| `NumberEntry.AmountsStayApart` | apps/portal/pricing.py:172-208 | two amounts are never confused by one text |
| `Destinations.Normalise` | apps/portal/destinations.py:65-106 | the scan returns the digits, or the refusal, of the specification |
| `Destinations.GroupedRoundTrip` | apps/portal/destinations.py:65-116 | a number shown in groups and typed back is the stored number, for every group size |
| `Destinations.SameAccountIff` | apps/portal/destinations.py:65-106 | two accepted destinations are stored alike exactly when their digit sequences are equal |
| `Destinations.StoredIsDigits` | apps/portal/destinations.py:65-106 | what is stored is ASCII digits, within the band |
| `Text.NatToStringInjective` | apps/portal/submissions.py:220-255 | an echoed key, compared as text, names one row |
| `Text.ReadIntegerOfNat` | apps/portal/submissions.py:163-179 | a printed key is read back as itself |
| `Hours.OpenMeansInsideAWindow` | apps/core/hours.py:136-186 | the clock comparison says open exactly inside some day's window, overnight ones included |
| `Hours.GuardNeverFires` | apps/core/hours.py:136-197 | in a fixed-offset zone the correction for a moment in the past never applies |
| `Hours.NextChangeIsExact` | apps/core/hours.py:136-197 | the moment reported is ahead and under a day away, nothing changes before it, every instant before it reports the same moment, and at it the answer flips |
| `Hours.TwoChangesMakeADay` | apps/core/hours.py:136-197 | two changes on, it is exactly one day later |
| `Hours.UnscheduledNeverChanges` | apps/core/hours.py:143-165 | overridden or always open, no moment is promised and the answer is constant |
| `Hours.CountdownIsWholeSeconds` | apps/core/hours.py:71-76 | the countdown is the whole seconds left, never negative, under a day |
| `CacheStore.Cache.Add` | apps/portal/ratelimit.py:54-57 | stores 1 with an expiry unless a live entry is there |
| `CacheStore.Cache.Incr` | apps/portal/ratelimit.py:58-63 | adds one to a live entry keeping its expiry, and fails on any other |
| `RateLimit.Allow` | apps/portal/ratelimit.py:36-72 | the answer and the new cache, including an entry that expires between the two calls |
| `RateLimit.AllowedPerPeriod` | apps/portal/ratelimit.py:36-72 | over any sequential trace of any callers, one caller gets at most 2 max(1, limit) - 1 calls through in any interval of one period |
| `RateLimit.BoundIsMet` | apps/portal/ratelimit.py:36-72 | for every rate of a second or longer, whatever its limit, a trace that meets that bound |
| `LoginThrottle.RecordFailure` | apps/accounts/throttling.py:76-92 | one more failure in the open window, the first of a new one, or nothing and zero when the window runs out between the two cache calls |
| `LoginThrottle.Authenticate` | apps/accounts/throttling.py:176-224 | a locked-out pair is refused before the password; otherwise failures count and a success clears |
| `LoginThrottle.FailedChecksAreBounded` | apps/accounts/throttling.py:76-104 | between two successes at most `limit` checks fail in one window, one that slips through uncounted included, and under twice that in any stretch as long |
| `LoginThrottle.LockoutIsInert` | apps/accounts/throttling.py:103-104 | attempts during a lockout neither reach the password nor prolong it |
| `LoginThrottle.LockoutEnds` | apps/accounts/throttling.py:67-104 | a lockout ends at its entry's expiry, however many attempts arrive meanwhile |
| `LoginThrottle.LockoutIsOneWindow` | apps/accounts/throttling.py:76-92 | and that is one window after a failed check |
| `LoginThrottle.LockedOutIff` | apps/accounts/throttling.py:67-104 | a pair is locked out exactly while a window runs in which `limit` checks failed |
| `LoginThrottle.FewFailuresAreLetThrough` | apps/accounts/throttling.py:103-104 | whoever failed fewer checks in the last window is let through |
| `Desk.Newest` | apps/merchants/models.py:251-254 | the newest active wallet of the link, and none only when there is none |
| `Desk.DayBoundsAreTheDay` | apps/merchants/capacity.py:26-37 | the bounds contain the instant, and two instants share bounds exactly when they share a local day |
| `Desk.AcceptsIff` | apps/merchants/capacity.py:60-71 | a positive amount is accepted exactly when the day's total with it stays under the cap |
| `Desk.FullBarMeansRefusal` | apps/merchants/capacity.py:74-91 | the bar is full exactly when headroom is zero, which is when clients are turned away |
| `Desk.CurrentRateIsLatest` | apps/rates/models.py:70-78 | the current revision is the latest of its direction already effective, the last entered among equals |
| `Desk.MerchantMethodFor` | apps/portal/catalog.py:113-124 | an offerable link joining the two, and none only when there is none |
| `Desk.CatalogueDuality` | apps/portal/catalog.py:37-133 | listing merchants, listing methods and joining the pair agree; a deposit pair has a wallet; no archived or inactive merchant is listed |
| `Desk.MethodCountIsListLength` | apps/portal/catalog.py:69-110 | the count beside a merchant is the number of methods listed for them |
| `Offers.ListedIffOpen` | apps/portal/catalog.py:37-124 | a merchant and a method are listed, with or without the other chosen, and a pair has a link, exactly when an active link joins an active, unarchived merchant to an active method that supports the direction and, for a deposit, has an active, unarchived wallet |
| `Offers.AcceptedIsOpen` | apps/portal/submissions.py:383-451 | whatever is accepted was open in the rows: the hours, the pair, the method's direction, and the wallet paid into |
| `Offers.UnsupportedIsRefused` | apps/portal/catalog.py:49-52 | a method without a direction is in no listing of it, and every form of that direction naming its code is refused |
| `Submissions.CodedMethod` | apps/portal/submissions.py:151-160 | a listed method with this code, and none only when there is none |
| `Submissions.DraftIsConsented` | apps/portal/submissions.py:143-265 | an accepted draft carries the type, pair, amount, file and words of the form, the wallet and rate ids it echoed, the rate in force, and the price of that amount at that rate |
| `Verdict.AtTheDoor` | apps/portal/submissions.py:143-148 | out of hours nothing else is read, and the type is refused or followed by its word alone |
| `Verdict.PairIsJudged` | apps/portal/submissions.py:151-179 | which objection to the method or the merchant comes first, in the words and the rows, and that without one the open pair is found |
| `Verdict.PairIsRefused` | apps/portal/submissions.py:383-451 | a form objected to is told that objection, a withdrawal's file before any |
| `Verdict.DepositIsAnswered` | apps/portal/submissions.py:392-416 | the whole answer to a deposit form on an open pair: which refusal comes first and what it carries, or the draft |
| `Verdict.WithdrawalIsAnswered` | apps/portal/submissions.py:419-451 | the whole answer to a withdrawal form |
| `Submissions.LaterGuardsAreUnreachable` | apps/portal/submissions.py:182-208 | in an unchanging state no pair that resolved lacks a link, and no deposit link lacks a wallet |
| `Submissions.AcceptedIsStoredIff` | apps/portal/submissions.py:459-500 | committed at once, an accepted draft is stored exactly when its figures fit the row, digit by digit, and when a deposit's total does not |
| `Refusals.RateRefusalIsCorrectable` | apps/portal/submissions.py:234-265 | the refusal names the revision in force; echoing it is never refused so again at that instant, and an acceptance is at exactly the figures it showed |
| `Refusals.WalletRefusalIsCorrectable` | apps/portal/submissions.py:220-231 | the refusal names the wallet in force; echoing it is never refused so again, and the deposit goes to that one |
| `Refusals.CapRefusalTellsWhatFits` | apps/portal/submissions.py:337-357 | what the refusal says is left is the echoed wallet's headroom, and is not zero |
| `Refusals.CapRefusalIsCorrectable` | apps/portal/submissions.py:337-357 | sent again with another amount, a form is refused so exactly when that amount's total is over what it was told is left, and is told the same figure |
| `Options.Get` | apps/portal/flow_views.py:80-176 | which answer each type word gets, and the body filled in step by step being the resolved one |
| `Offers.WhatIsAsked` | apps/portal/flow_views.py:86-128 | what each direction needs, that nothing is resolved out of hours or without a rate, and when the rate is what is missing |
| `Offers.WhatIsShown` | apps/portal/flow_views.py:130-176 | with the desk open and a rate in force, screens 2 to 4 list exactly what is open as deep as the query goes, and name the merchant or the method as missing exactly when it is |
| `Offers.ListsLeadToTheLastScreen` | apps/portal/flow_views.py:65-176 | a merchant is listed exactly when some code with them reaches the last screen, a method exactly when its own code does |
| `Options.PairAgrees` | apps/portal/submissions.py:151-179 | a pair resolves at submission exactly when it is listed on the way to the last screen |
| `Options.ReadyIff` | apps/portal/flow_views.py:80-176 | when the last screen is on offer, and which wallet and rate it shows |
| `Options.DepositAcceptedIffOffered` | apps/portal/submissions.py:383-416 | a deposit is accepted exactly when its last screen is on offer and the form answers what it shows, within the headroom |
| `Options.WithdrawalAcceptedIffOffered` | apps/portal/submissions.py:419-451 | the same for withdrawals: a payable amount, a valid destination, no file, no wallet |
| `Options.CatalogueReadsPrintedKeysOnly` | apps/portal/flow_views.py:113-150 | the catalogue finds the merchant a form names exactly when the number is spelt as printed |
| `Options.SpellingDoesNotMatter` | apps/portal/submissions.py:163-179 | submission answers alike however the number is spelt |
| `Options.PaddedMerchantIsAcceptedNotOffered` | apps/portal/flow_views.py:113-150 | a zero in front of any accepted merchant number is accepted there and refused here |
| `DeskStore.Store.StandDownSiblings` | apps/merchants/models.py:434-442 | exactly the other active wallets of the link step down, dated |
| `DeskStore.Store.SaveWallet` | apps/merchants/models.py:422-447 | the row written, dated or undated, with its siblings stood down if it is active |
| `DeskStore.Store.Deactivate` | apps/merchants/models.py:449-453 | one wallet off and dated, no sibling touched |
| `DeskStore.Store.CreateWallet` | apps/finance/views.py:356-374 | the row, its entry and the superseded wallet's own entry, or nothing |
| `DeskStore.Store.ActivateWallet` | apps/finance/views.py:407-437 | the switch and both entries; nothing when it already holds the slot |
| `DeskStore.Store.DeactivateWallet` | apps/finance/views.py:443-462 | the switch and its entry; nothing when already off |
| `DeskStore.Store.ToggleMerchant` | apps/finance/views.py:199-228 | flips and records, and leaves an archived merchant alone |
| `DeskStore.Store.ArchiveMerchant` | apps/merchants/lifecycle.py:64-96 | archived, closed and recorded, or the refusal and nothing |
| `DeskStore.Store.RestoreMerchant` | apps/merchants/lifecycle.py:99-126 | brought back still closed and recorded, or the refusal and nothing |
| `DeskStore.Store.RemoveWallet` | apps/merchants/lifecycle.py:146-227 | archived when used, deleted when not, and the result says which |
| `DeskStore.Store.CreateRequest` | apps/portal/submissions.py:459-549 | request, file, words and audit entry together, or nothing |
| `Payloads.RoundingIqd` | apps/portal/payloads.py:232-245 | of any request that carries the figures it was priced at, the rounding of that price, within half a step; of any request, what makes its figures add up |
| `Runs.NothingIsRewritten` | apps/core/models.py:45-54 | over any run a request changes only in status, rejection is final, rates, files, words and log are only added to, a wallet keeps its place and number, a deleted one stays deleted |
| `Slots.OneActiveWalletEach` | apps/merchants/models.py:348-354 | over any run at most one active wallet a link, no shared number in a link, and a wallet dated exactly while it is off |
| `Slots.SavingMovesOneSlot` | apps/merchants/models.py:422-447 | a wallet saved active is the one its link shows; no other link's moves |
| `Slots.DeedMovesTheSlot` | apps/finance/views.py:330-462 | who holds every link's slot after every deed |
| `Slots.ActivatedIsOfferedIff` | apps/finance/views.py:407-437 | the wallet activated takes the slot, and is offered exactly when it is not archived |
| `Slots.ArchivedStayClosed` | apps/finance/views.py:199-228 | over any run no archived merchant is active |
| `Slots.StepKeepsArchivedClosed` | apps/merchants/lifecycle.py:99-126 | and one brought back is still closed |
| `Slots.DeedMovesTheMerchant` | apps/finance/views.py:194-228 | for every deed, when a merchant's switch turns and its archive date moves: the switch turns over any that is not archived, and nothing else reopens one |
| `Slots.DeedMovesTheLink` | apps/finance/views.py:275-327 | for every deed, when a link is switched, and when a link or a merchant is created, as asked |
| `Slots.WalletIsCreatedIff` | apps/finance/forms.py:149-156 | a wallet is created, as asked, exactly when its link exists and no wallet of that link has its number |
| `Slots.ArchivingDatesOnce` | apps/merchants/lifecycle.py:178-188 | an archived wallet keeps the moment it stood down |
| `References.CommitIsFiled` | apps/portal/submissions.py:473-500 | a committed draft is filed against the live wallet it holds |
| `RequestLog.CommitWrites` | apps/portal/submissions.py:473-529 | a commit writes one submitted request, the one entry recording its creation, the proof and the words, and touches no other table |
| `RequestLog.EveryRequestIsRecordedOnce` | apps/portal/submissions.py:522-529 | over any run each request has exactly one entry recording its creation, and no such entry is about anything else |
| `RequestLog.RevisionIsRecorded` | apps/finance/views.py:626-638 | a rate entered is one new revision and one entry, which carries what it supersedes exactly when something of its direction is in force |
| `References.ReferencesResolve` | apps/merchants/lifecycle.py:146-227 | over any run, with drafts held across it, every wallet a request names exists and is the one its snapshot describes |
| `References.UsedIffFiledAgainst` | apps/merchants/models.py:364-385 | `was_used` is true exactly when some request is filed against the wallet |
| `References.DeletedWasNeverUsed` | apps/merchants/lifecycle.py:178-227 | removal deletes exactly the wallets nothing was filed against, archives the rest, and a deleted key is never named again |
| `References.HeldDraftCommitsIff` | apps/portal/submissions.py:459-500 | after any run, other clients' commits included, a held draft is stored exactly when its figures fit, its wallet still exists, and the day's total with its own is within the cap it was built with |
| `References.OnlyDeletionStopsADraft` | apps/portal/submissions.py:459-500 | of all single deeds of Finance that move no status, only deleting its wallet turns a held draft's commit into a refusal |
| `Caps.CommitStaysWithin` | apps/portal/submissions.py:467-471 | the re-check keeps every wallet and every day under the highest cap it has had |
| `Caps.TheRaceHasOneWinner` | apps/portal/submissions.py:467-471 | of two accepted drafts that cannot both fit, once one is committed the other is refused that day |
| `Caps.CommitTakesItsTotal` | apps/merchants/capacity.py:40-57 | a commit adds its total to its own wallet's day and to no other wallet or day |
| `Caps.RejectionReleasesItsAmount` | apps/merchants/capacity.py:40-57 | a rejection gives back exactly what the request had taken, once; no other status moves anything |
| `Caps.NewWalletIsEmpty` | apps/finance/forms.py:149-156 | a new wallet's number has taken nothing, on any day |
| `Caps.ConsumedOnlyFalls` | apps/merchants/capacity.py:40-57 | moving statuses only releases what a day has taken |
| `Caps.DayNeverExceedsPeak` | apps/merchants/capacity.py:40-71 | over any run, caps moved freely, no wallet's day ever sums above the highest cap it has had |
| `Caps.DayNeverExceedsCap` | apps/portal/submissions.py:459-471 | over any run that never lowers a cap, no day, past or present, sums above the wallet's cap |
| `Consent.EveryRequestIsAsConsented` | apps/portal/submissions.py:473-496 | over any run, every request filed is its client's, carries the echoed rate's numbers, the echoed wallet, the typed amount within its direction's bounds and its price, an account within the band, its file and its words |
| `Consent.QuoteIsRecovered` | apps/portal/payloads.py:214-245 | every request a draft is committed as carries its price, and converted, commission, rounding and total read back from the row are the quote's |
| `Consent.NewRateTakesOver` | apps/rates/models.py:70-78 | from its instant on, a revision entered is the one in force, and nothing is accepted at an older one |
| `AuditReplay.LogReplaysToState` | apps/finance/views.py:194-462 | over any run the entries about a wallet, merchant or link fold to its state, and each `before` is what its predecessors fold to |
| `AuditReplay.EveryFlipIsLogged` | apps/finance/views.py:402-462 | a wallet switched by anything, another's activation included, has its own entry saying so |
| `AuditReplay.DeletionContinuesTheMerchantIff` | apps/merchants/lifecycle.py:205-220 | a deletion's entry always continues the deleted wallet's chain, and when it continues the merchant's |
| `FromEmpty.EveryReachableState` | apps/portal/submissions.py:459-500 | every invariant above, of every state reachable from an empty desk |
| `FromEmpty.NoDayOverItsCap` | apps/merchants/capacity.py:40-71 | the cap theorem from an empty desk |
| `Instances.AcceptedAndNotStored` | apps/portal/submissions.py:459-500 | a run from an empty desk after which a dollar at 400 dinars is accepted and refused by the commit |
| `Instances.ArchivedWalletIsActivated` | apps/finance/views.py:407-437 | a run from an empty desk that archives a used wallet and activates it over the one clients were offered, leaving none |
| `Instances.DeletionBreaksTheMerchantsChain` | apps/merchants/lifecycle.py:205-220 | a run from an empty desk whose deletion entry does not continue the merchant's chain |
| `EmbedSession.Store.Start` | apps/merchant_panel/session.py:140-165 | the session holds merchant, login, subject and the earlier of token and ceiling |
| `EmbedSession.Store.Enter` | apps/merchant_panel/session.py:87-165 | a verified subject either starts the one merchant's session or ends any |
| `EmbedSession.Store.GetMerchant` | apps/merchant_panel/session.py:168-209 | everything is established again, and moved ground ends the session |
| `EmbedSession.ClickIsEntitled` | apps/merchant_panel/session.py:168-209 | over any interleaving a click opens only the active, unarchived merchant holding the verified subject with the same working login, within token and ceiling |
| `EmbedSession.EntitledClickOpens` | apps/merchant_panel/session.py:168-209 | and such a merchant's click is never turned away |
| `EmbedSession.TokenOpensIff` | apps/merchant_panel/session.py:87-209 | a posted token opens a merchant's panel exactly when that merchant is active, unarchived, holds the subject and has a working login, within both limits |
| `EmbedSession.WhyTheDoorRefuses` | apps/merchant_panel/session.py:87-137 | which ground a merchant is refused on, in order |
| `EmbedSession.NobodysSubject` | apps/merchant_panel/session.py:87-137 | a subject is nobody's exactly when it is blank or no merchant holds it |
| `EmbedSession.IdentifierIsSet` | apps/merchants/models.py:193-212 | an identifier is stored stripped, absent when blank, and refused when another merchant holds it |
| `EmbedSession.OnlyATokenRestores` | apps/merchant_panel/session.py:212-215 | without a session, nothing but a token makes one |
| `EmbedSession.MovedGroundEndsAccess` | apps/merchant_panel/session.py:168-209 | once a click finds the ground moved, putting it back does not help |
| `Accounts.SyncedMeansBaseline` | apps/accounts/permissions.py:182-222 | a completed sync puts every role group at its baseline and touches no other group |
| `Accounts.SyncCompletesIff` | apps/accounts/permissions.py:182-222 | a sync completes exactly when every label exists and no forbidden one is the merchants'; a strict one that does not writes nothing |
| `Accounts.SkippedIsANoOpIff` | apps/accounts/permissions.py:182-222 | when a lenient sync that skipped has changed nothing |
| `Accounts.SkippedCanStillWrite` | apps/accounts/permissions.py:182-222 | and an instance where it wrote |
| `Accounts.ViewAgreesIff` | apps/accounts/provisioning.py:323-331 | the panel's view is what the backend grants exactly when extra groups add nothing |
| `Accounts.AnonymityBrokenIff` | apps/accounts/permissions.py:237-249 | which merchant accounts can identify a client |
| `Accounts.ExpectedIff` | apps/accounts/permissions.py:153-160 | label by label, what a role is expected to hold, the denied ones never |
| `Accounts.MirrorIff` | apps/accounts/signals.py:22-46 | group by group, what a save does to memberships |
| `Accounts.Panel.Save` | apps/accounts/signals.py:22-46 | saving moves the row between role groups |
| `Accounts.Panel.Create` | apps/accounts/provisioning.py:147-185 | the account and its entry, or the refusal and nothing |
| `Accounts.Panel.Update` | apps/accounts/provisioning.py:188-225 | the new role and its entry, or the refusal and nothing |
| `Accounts.Panel.SetActiveFlag` | apps/accounts/provisioning.py:228-254 | the switch and its entry, or the refusal and nothing |
| `Accounts.Panel.SetOverrides` | apps/accounts/provisioning.py:334-396 | both override sets replaced and recorded, or the refusal and nothing |
| `Accounts.Panel.SyncGroups` | apps/accounts/permissions.py:182-222 | the loop over the roles, including a stop half-way |
| `Accounts.MembershipFollowsRole` | apps/accounts/signals.py:22-46 | over any run role-group membership is exactly the role's, other memberships untouched |
| `Accounts.ViewAgreesAfterAnyRun` | apps/accounts/throttling.py:147-174 | after any run the panel's view is what the backend grants, for active accounts without extra groups |
| `Accounts.RefusalHolds` | apps/accounts/throttling.py:147-174 | a denied label stays ungranted until that account's overrides are replaced |
| `Accounts.ActorIsUntouched` | apps/accounts/provisioning.py:111-121 | no operation changes its actor's own account |
| `Accounts.NeverLockedOut` | apps/finance/user_views.py:68-78 | no run of panel operations leaves nobody able to administer |
| `Accounts.GranterKeepsGranting` | apps/accounts/provisioning.py:334-396 | somebody able to grant never loses it by their own operation |
| `Accounts.GranterRemainsIff` | apps/accounts/provisioning.py:147-396 | for every kind of operation, somebody able to grant remains exactly when an account it does not write can, or the one it writes will by its new role, status and overrides |
| `Accounts.DisablingLeavesAGranterIff` | apps/accounts/provisioning.py:228-254 | disabling leaves one exactly when another account can grant; replacing overrides always does |
| `Accounts.GrantingSurvives` | apps/finance/user_views.py:237-321 | a run whose disablings and re-roles are made by accounts able to grant never loses the last one |
| `Accounts.LastGranterCanBeDisabled` | apps/finance/user_views.py:315-321 | an instance where the only account able to grant is disabled by one that is not |
| `Accounts.OperationsAreLogged` | apps/accounts/provisioning.py:147-396 | each operation carried out is one entry against its target and changes nobody else |
| `Accounts.OverrideRefusals` | apps/accounts/provisioning.py:345-360 | replacing overrides is refused for a contradiction, then for a forbidden label on a merchant's account, and changes nothing when refused |
| `Accounts.UpdateRefusals` | apps/accounts/provisioning.py:188-225 | nobody re-roles themselves, an account linked to a merchant's record keeps its role, and otherwise the role alone is changed with its group |
| `Accounts.SwitchingAndCreating` | apps/accounts/provisioning.py:147-254 | nobody disables themselves; a switch and a new account come out as asked |
| `Accounts.StaysCleanIff` | apps/accounts/provisioning.py:124-138 | an operation gives a merchant's account a forbidden personal grant exactly by making a merchant's of one that already held it |
| `Accounts.MerchantsStayAnonymous` | apps/accounts/permissions.py:237-249 | over any run from a clean, synced start without such a re-role, no ordinary merchant's account without extra groups can identify a client |
| `Accounts.ReRoleCanLeak` | apps/accounts/provisioning.py:188-225 | an instance of that re-role, let through |
| `Anonymity.SubstringRuleIsClosed` | apps/merchant_panel/anonymity.py:99-108 | a key caught by the substring rule is caught whatever surrounds it |
| `Anonymity.SpacesDoNotHide` | apps/merchant_panel/anonymity.py:99-108 | spaces around a key change nothing |
| `Anonymity.CaseDoesNotHide` | apps/merchant_panel/anonymity.py:99-108 | nor does its case |
| `Anonymity.AcceptedIffAnonymous` | apps/merchant_panel/anonymity.py:145-163 | the walk accepts exactly the trees with no forbidden key at any depth |
| `Anonymity.SplitIsExact` | apps/merchant_panel/anonymity.py:111-119 | a source path is split without loss and into segments without dots |
| `Anonymity.OffendsIff` | apps/merchant_panel/anonymity.py:111-142 | wherever a forbidden segment stands in a path it is caught, and a field offends by nothing else than that or its name |
| `Anonymity.PathlessOffendsByName` | apps/merchant_panel/anonymity.py:111-119 | without a path, or with the whole object as one, only the name counts |
| `Anonymity.ForbiddenSegmentIff` | apps/merchant_panel/anonymity.py:96-119 | a segment is judged as a key is, and one more name besides |
| `Anonymity.CheckFieldNames` | apps/merchant_panel/anonymity.py:122-142 | it raises exactly when some field's name or source offends, naming every forbidden name |
| `Anonymity.DefinedImpliesRepresented` | apps/merchant_panel/serializers.py:76-101 | whatever could be defined, with anonymous method fields, passes the run-time guard |
| `Anonymity.ReturnedIsAnonymous` | apps/merchant_panel/serializers.py:96-101 | whatever is returned is anonymous at every depth |

## Left out

- The lifecycle of a stored request in `apps/transactions`: a status moves to anything until it is rejected, and no money field moves with it. Its routing, correction of amounts, messaging and reads are not part of this model; only the column limits `full_clean` enforces are.
- Concurrency inside the database. Each atomic function and each fetch-and-save view is one step. `create_request` takes no lock on the wallet, so two commits that overlap inside it are outside the cap theorems: they are about commits one after the other.
- The instants inside one step: `create_request` checks and stamps with one `now`, where the original reads the clock for each.
- `Caps.DayNeverExceedsCap`: assumes caps are not lowered; `Caps.DayNeverExceedsPeak` says what holds when they are.
- Editing a wallet's number or its active flag through its form, editing a merchant, and switching a payment method off: during a run methods are fixed and of the wallet form only the cap is modelled. QR images, labels and what `Wallet.clean` and the forms demand beyond distinct numbers are not part of it; a wallet's number arrives stripped.
- Who may do what in the Finance panel, except for archiving and for account operations.
- Fields of an audit snapshot other than `is_active` and `archived_at`: of a request's entry and a rate's only whether there is a `before` is kept. The lifecycle's own entries about a request are not part of this model.
- Zones with daylight saving: every zone is a fixed offset, and the cap's day is a fixed 24 hours.
- A cache that fails or evicts early (both limiters then let the caller through), and the text form of a rate, which is a parsed pair here.
- The limits of the Decimal context, exponents and signs written in ways `normalise_number` lets through to `Decimal`: numbers are exact, and figures too long for the context are not reached.
- Unicode: digit values, spaces and lower case are an abstract table, lower-casing is character by character.
- Verifying a B2CORE token and everything of HTTP around it: cookies, CSRF, headers, uploads beyond whether the file is acceptable, signed addresses. The verified subject and its expiry are inputs.
- Emails, passwords, two-factor resets and linking a login to a merchant.
- The order in which lists are shown, captions, wording of refusals, timelines, reports, live polling and the Django admin.
