/** What a commit writes beside the request, and that the log has it once. */
module RequestLog {
  import opened Basics
  import opened Pricing
  import opened Desk
  import opened Submissions
  import opened Operations
  import opened Runs

  /** The entry that says a request came into being. */
  predicate RecordsCreation(e: AuditEntry, r: nat) {
    e.action.StatusChange? && e.target == RequestRow(r) && e.before.None?
  }

  /** A commit writes one request, as submitted at that instant by the draft's client,
      the one entry that records it, the proof if it is a deposit and the words if there
      are any; names no row that is not there; and touches no other table. */
  lemma CommitWrites(c: Config, d: Tables, draft: Draft, now: int)
    requires CreateRequest(c, d, draft, now).Ok?
    ensures var e, r := CreateRequest(c, d, draft, now).value, |d.requests|;
      && |e.requests| == r + 1 && e.requests[..r] == d.requests
      && e.requests[r].status == Submitted && e.requests[r].submittedAt == now && e.requests[r].client == draft.client
      && draft.merchant < |d.merchants| && draft.rail < |d.methods|
      && (draft.wallet.Some? ==> draft.wallet.value.id < |d.wallets| && d.wallets[draft.wallet.value.id].Some?)
      && |e.audit| == |d.audit| + 1 && e.audit[..|d.audit|] == d.audit && RecordsCreation(e.audit[|d.audit|], r)
      && |e.attachments| == |d.attachments| + (if draft.proof.Some? then 1 else 0)
      && (draft.proof.Some? ==> e.attachments[|d.attachments|] == Attachment(r, draft.proof.value))
      && |e.messages| == |d.messages| + (if draft.message != "" then 1 else 0)
      && (draft.message != "" ==> e.messages[|d.messages|] == Message(r, draft.client, draft.message))
      && e.(requests := d.requests, attachments := d.attachments, messages := d.messages, audit := d.audit) == d
  {
    hide Recheck, FitsColumns;
  }

  ghost predicate Recorded(log: seq<AuditEntry>, r: nat) {
    exists k :: 0 <= k < |log| && RecordsCreation(log[k], r)
  }

  /** Every request is the target of exactly one entry recording its creation, and no
      such entry is about a request there is not. */
  ghost predicate RecordedOnce(d: Tables) {
    && (forall r: nat :: r < |d.requests| <==> Recorded(d.audit, r))
    && (forall j, k, r: nat ::
          0 <= j < k < |d.audit| && RecordsCreation(d.audit[j], r) ==> !RecordsCreation(d.audit[k], r))
  }

  /** Nothing but a commit records a creation. */
  lemma DeedsRecordNoCreation(d: Tables, deed: Deed)
    ensures var e := Perform(d, deed);
      && |e.requests| == |d.requests|
      && d.audit <= e.audit
      && forall k, r: nat :: |d.audit| <= k < |e.audit| ==> !RecordsCreation(e.audit[k], r)
  {
    hide SavedWallet, WasUsed, NumberClashes, SlotHolder, Assigned;
  }

  lemma Longer(log: seq<AuditEntry>, longer: seq<AuditEntry>, r: nat)
    requires log <= longer
    requires forall k :: |log| <= k < |longer| ==> !RecordsCreation(longer[k], r)
    ensures Recorded(longer, r) <==> Recorded(log, r)
  {
    if Recorded(log, r) {
      var k :| 0 <= k < |log| && RecordsCreation(log[k], r);
      assert longer[k] == log[k];
    }
  }

  lemma DeedKeepsRecords(d: Tables, deed: Deed)
    requires RecordedOnce(d)
    ensures RecordedOnce(Perform(d, deed))
  {
    DeedsRecordNoCreation(d, deed);
    var e := Perform(d, deed);
    hide Perform, RecordsCreation;
    forall r: nat
      ensures Recorded(e.audit, r) <==> Recorded(d.audit, r)
    {
      Longer(d.audit, e.audit, r);
    }
    hide Recorded;
  }

  lemma CommitIsRecorded(c: Config, d: Tables, draft: Draft, now: int)
    requires RecordedOnce(d) && CreateRequest(c, d, draft, now).Ok?
    ensures RecordedOnce(CreateRequest(c, d, draft, now).value)
  {
    CommitWrites(c, d, draft, now);
    var e, id, at := CreateRequest(c, d, draft, now).value, |d.requests|, |d.audit|;
    assert d.audit <= e.audit;
    hide CreateRequest;
    assert Recorded(e.audit, id) by {
      assert RecordsCreation(e.audit[at], id);
    }
    forall r: nat | r != id
      ensures Recorded(e.audit, r) <==> Recorded(d.audit, r)
    {
      Longer(d.audit, e.audit, r);
    }
    forall j, k, r: nat | 0 <= j < k < |e.audit| && RecordsCreation(e.audit[j], r)
      ensures !RecordsCreation(e.audit[k], r)
    {
      assert e.audit[j] == d.audit[j] && Recorded(d.audit, r);
      assert k < at ==> e.audit[k] == d.audit[k];
    }
  }

  lemma StepKeepsRecordedOnce(c: Config, s: Portal, step: Step)
    requires RecordedOnce(s.desk)
    ensures RecordedOnce(Apply(c, s, step).desk)
  {
    hide Perform, CreateRequest, BuildDraft, RecordedOnce;
    match step {
      case Build(_, _, _) =>
      case Commit(i, now) =>
        if i < |s.held| && CreateRequest(c, s.desk, s.held[i].draft, now).Ok? {
          CommitIsRecorded(c, s.desk, s.held[i].draft, now);
        }
      case Operate(deed) =>
        DeedKeepsRecords(s.desk, deed);
    }
  }

  /** Over every run, each request has exactly one entry recording its creation. */
  lemma {:induction false} EveryRequestIsRecordedOnce(c: Config, s: Portal, steps: seq<Step>)
    requires RecordedOnce(s.desk)
    ensures RecordedOnce(Run(c, s, steps).desk)
    decreases |steps|
  {
    if steps != [] {
      StepKeepsRecordedOnce(c, s, steps[0]);
      EveryRequestIsRecordedOnce(c, Apply(c, s, steps[0]), steps[1..]);
    }
  }

  /** A revision is recorded under its own key, with what it supersedes when something
      of its direction is in force, and nothing else moves. */
  lemma RevisionIsRecorded(d: Tables, rate: ExchangeRate, now: int)
    ensures var e := Perform(d, RateAdded(rate, now));
      && e.(rates := d.rates, audit := d.audit) == d
      && |e.rates| == |d.rates| + 1 && e.rates[..|d.rates|] == d.rates && e.rates[|d.rates|] == rate
      && |e.audit| == |d.audit| + 1 && e.audit[..|d.audit|] == d.audit
      && e.audit[|d.audit|].action == RateChange && e.audit[|d.audit|].target == RateRow(|d.rates|)
      && (e.audit[|d.audit|].before.Some? <==>
            exists i :: 0 <= i < |d.rates| && d.rates[i].direction == rate.direction && d.rates[i].effectiveFrom <= now)
  {
    if CurrentRate(d.rates, rate.direction, now).None? {
      forall i | 0 <= i < |d.rates|
        ensures !InForce(d.rates[i], rate.direction, now)
      {
        NoRateInForce(d.rates, rate.direction, now, i);
      }
    }
  }
}
