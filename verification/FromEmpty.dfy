/** Every invariant at once, of every state reachable from a desk with no rows yet. */
module FromEmpty {
  import opened Basics
  import opened Desk
  import opened Submissions
  import opened Runs
  import Slots
  import References
  import Caps
  import Consent
  import AuditReplay
  import RequestLog

  lemma EveryReachableState(c: Config, methods: seq<PaymentMethod>, steps: seq<Step>)
    ensures var s := Run(c, Opening(methods), steps);
      && Slots.Structure(s.desk) && Slots.ArchivedAreClosed(s.desk)
      && References.Resolves(s)
      && Caps.Capped(c, s)
      && Consent.Agreed(c, s) && (forall r :: 0 <= r < |s.origins| ==> s.origins[r].Some?)
      && AuditReplay.Replays(s.desk)
      && RequestLog.RecordedOnce(s.desk)
  {
    var start := Opening(methods);
    Caps.OpeningIsSound(c, methods);
    AuditReplay.OpeningReplays(methods);
    Slots.ArchivedStayClosed(c, start, steps);
    Caps.DayNeverExceedsPeak(c, start, steps);
    Consent.AgreementHolds(c, start, steps);
    AuditReplay.LogReplaysToState(c, start, steps);
    RequestLog.EveryRequestIsRecordedOnce(c, start, steps);
    hide Run, Slots.Structure, References.Resolves, Caps.Capped, AuditReplay.Replays, Consent.Agreed,
         RequestLog.RecordedOnce;
  }

  /** The same of the cap itself, while Finance never lowers one. */
  lemma NoDayOverItsCap(c: Config, methods: seq<PaymentMethod>, steps: seq<Step>)
    requires Caps.NeverLowers(c, Opening(methods), steps)
    ensures var d := Run(c, Opening(methods), steps).desk;
      forall id: nat, at: int :: Live(d.wallets, id) ==> Caps.Within(c, d, id, d.wallets[id].value.dailyCap, at)
  {
    Caps.OpeningIsSound(c, methods);
    Caps.DayNeverExceedsCap(c, Opening(methods), steps);
  }
}
