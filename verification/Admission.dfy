/**
  Who may score and what counts, from the fields of the mode and the request: the
  refusals, the submissions behind every accepted score, and the ids of recorded runs.
 */
module Admission {
  import opened Wrappers
  import opened Periods
  import opened Scores
  import opened Validation
  import opened Submissions
  import opened SubmissionLaws
  import opened Interleaving
  import opened LedgerSafety

  // -------------------------------------------------------------- the refusals

  /** The highest score a mode takes. */
  function Highest(mode: Mode): int {
    if mode.maxScore.Some? then mode.maxScore.value else 180_000_000_081
  }

  /** A guest in a mode for claimed accounts. */
  predicate Unclaimed(cfg: Config, r: Request) {
    r.mode in cfg.modes && cfg.modes[r.mode].requiresClaimed && r.guest
  }

  /** When a request is turned down, and with what: the earlier reason goes first. */
  predicate TurnedDown(cfg: Config, r: Request, why: Refusal) {
    if r.mode !in cfg.modes then why == UnknownMode
    else
      var mode := cfg.modes[r.mode];
      match why
      case RunRequired => r.PostScore? && mode.requiredTier > 0
      case InvalidScore => r.PostScore? && mode.requiredTier == 0 && r.score > Highest(mode)
      case NeedsAccount =>
        mode.requiresClaimed && r.guest
        && if r.PostScore? then mode.requiredTier == 0 && r.score <= Highest(mode) else mode.requiredTier > 0
      case NeedsKey =>
        r.PostScore? && mode.requiredTier == 0 && r.score <= Highest(mode) && !(mode.requiresClaimed && r.guest)
        && mode.rules.strategy == Cumulative && r.idempotencyKey == None
      case RawOnly => r.PostRun? && mode.requiredTier == 0
      case _ => false
  }

  lemma RefusalExactly(cfg: Config, r: Request, why: Refusal)
    ensures RefusalOf(cfg, r) == Some(why) <==> TurnedDown(cfg, r, why)
  {
  }

  /** A request on its own is turned down exactly so, and then changes nothing. */
  lemma ServedOrTurnedDown(cfg: Config, db: Db, job: Job, why: Refusal)
    requires why != RunDenied
    ensures Serve(cfg, db, job).reply == Refused(why) <==> TurnedDown(cfg, job.request, why)
    ensures TurnedDown(cfg, job.request, why) ==> Serve(cfg, db, job).db == db
  {
    RefusalExactly(cfg, job.request, why);
    hide RefusalOf, TurnedDown, Taken, Unfit, Written;
  }

  predicate AnswerRefuses(cfg: Config, answer: Answer, why: Refusal) {
    answer.reply == Refused(why) <==> TurnedDown(cfg, answer.job.request, why)
  }

  /** Every answer given so far turns down exactly the requests that are to be turned down. */
  ghost predicate AnswersRefuse(cfg: Config, s: State) {
    forall t, why :: t in s.answers && why != RunDenied ==> AnswerRefuses(cfg, s.answers[t], why)
  }

  /** The answer a step gives. */
  lemma NewAnswerRefuses(cfg: Config, s: State, t: nat, u: nat, why: Refusal)
    requires Inv(cfg, s) && t in s.txns && why != RunDenied
    requires u in AdvanceTxn(cfg, s, t).answers
    requires u in s.answers ==> AnswerRefuses(cfg, s.answers[u], why)
    ensures AnswerRefuses(cfg, AdvanceTxn(cfg, s, t).answers[u], why)
  {
    hide Taken, Unfit, TicketHeld, RowLocked, UpsertRow, SubmissionOf, CommitDb, Inv, TurnedDown;
    InvGivesTxn(cfg, s, t);
    RefusalExactly(cfg, AdvanceTxn(cfg, s, t).answers[u].job.request, why);
  }

  lemma InvGivesTxn(cfg: Config, s: State, t: nat)
    requires Inv(cfg, s) && t in s.txns
    ensures TxnOk(cfg, s.db, s.txns[t])
  {
    hide TxnOk;
  }

  lemma {:induction false} RunRefuses(cfg: Config, events: seq<Event>)
    ensures AnswersRefuse(cfg, Run(cfg, events))
  {
    if events != [] {
      var s, event := Run(cfg, events[..|events| - 1]), events[|events| - 1];
      RunRefuses(cfg, events[..|events| - 1]);
      RunKeepsInv(cfg, events[..|events| - 1]);
      NextRefuses(cfg, s, event);
    }
    hide AnswersRefuse, Inv, Next;
  }

  lemma NextRefuses(cfg: Config, s: State, event: Event)
    requires Inv(cfg, s) && AnswersRefuse(cfg, s)
    ensures AnswersRefuse(cfg, Next(cfg, s, event))
  {
    hide Inv, AnswerRefuses, AdvanceTxn;
    if event.Advance? && event.txn in s.txns {
      var next := AdvanceTxn(cfg, s, event.txn);
      forall u, why | u in next.answers && why != RunDenied ensures AnswerRefuses(cfg, next.answers[u], why) {
        NewAnswerRefuses(cfg, s, event.txn, u, why);
      }
    }
  }

  /** Over every interleaving, an answer is a given refusal exactly when the mode and the request call for it. */
  lemma AnswersRefuseExactly(cfg: Config, events: seq<Event>, t: nat, why: Refusal)
    requires t in Run(cfg, events).answers && why != RunDenied
    ensures var answer := Run(cfg, events).answers[t];
            answer.reply == Refused(why) <==> TurnedDown(cfg, answer.job.request, why)
  {
    RunRefuses(cfg, events);
    assert AnswerRefuses(cfg, Run(cfg, events).answers[t], why);
    hide TurnedDown, Run;
  }

  /** No guest is ever told that a score of theirs counts in a mode for claimed accounts, nor shown a run of theirs. */
  lemma GuestsAreTurnedDown(cfg: Config, events: seq<Event>, t: nat)
    requires t in Run(cfg, events).answers && Unclaimed(cfg, Run(cfg, events).answers[t].job.request)
    ensures Run(cfg, events).answers[t].reply in
              {Refused(NeedsAccount), Refused(RunRequired), Refused(InvalidScore), Refused(RawOnly)}
  {
    var r := Run(cfg, events).answers[t].job.request;
    AnswersRefuseExactly(cfg, events, t, NeedsAccount);
    AnswersRefuseExactly(cfg, events, t, RunRequired);
    AnswersRefuseExactly(cfg, events, t, InvalidScore);
    AnswersRefuseExactly(cfg, events, t, RawOnly);
    assert TurnedDown(cfg, r, NeedsAccount) || TurnedDown(cfg, r, RunRequired)
           || TurnedDown(cfg, r, InvalidScore) || TurnedDown(cfg, r, RawOnly);
    hide Run;
  }

  // -------------------------------------------------- behind an accepted score

  /** The run as the validator's scorers get to see it. */
  function Replayed(job: Job): RunRecord
    requires job.request.PostRun?
  {
    var r := job.request;
    RunRecord(job.runId, r.user, r.mode, r.scenarioVersion, r.seed, r.actions, r.claimedScore)
  }

  /** The score a run earns, if any: its claim at tier 1, what the scorer of its scenario makes of it at tier 2. */
  function Earned(cfg: Config, job: Job, tier: nat): Option<int>
    requires job.request.PostRun?
  {
    if tier == 1 then job.request.claimedScore
    else if tier == 2 && job.request.scenarioVersion in cfg.scorers then
      cfg.scorers[job.request.scenarioVersion](Replayed(job))
    else None
  }

  /** The score counts: of 1 to 50000 actions, and within the mode, and not negative if it was only claimed. */
  predicate Deserving(cfg: Config, job: Job)
    requires job.request.PostRun? && job.request.mode in cfg.modes
  {
    var mode := cfg.modes[job.request.mode];
    var score := Earned(cfg, job, mode.requiredTier);
    && 1 <= |job.request.actions| <= 50_000
    && score.Some? && score.value <= Highest(mode) && (mode.requiredTier == 1 ==> score.value >= 0)
  }

  /** What a request that may score writes. */
  predicate Earns(cfg: Config, job: Job, sub: Submission) {
    var r := job.request;
    && r.mode in cfg.modes
    && var mode := cfg.modes[r.mode];
       && !(mode.requiresClaimed && r.guest)
       && if r.PostScore? then
            && mode.requiredTier == 0 && r.score <= Highest(mode)
            && (mode.rules.strategy == Cumulative ==> r.idempotencyKey.Some?)
            && sub == Submission(r.user, r.mode, r.score, job.now, job.stamp, None, 0)
          else
            && mode.requiredTier > 0 && Deserving(cfg, job)
            && sub == Submission(r.user, r.mode, Earned(cfg, job, mode.requiredTier).value, job.now, job.stamp,
                                 Some(job.runId), mode.requiredTier)
  }

  lemma UnfitExactly(cfg: Config, job: Job)
    requires job.request.PostRun? && job.request.mode in cfg.modes
    requires cfg.modes[job.request.mode].requiredTier > 0
    ensures Unfit(cfg, job) <==> !Deserving(cfg, job)
    ensures Deserving(cfg, job) ==>
              var mode, verdict := cfg.modes[job.request.mode], Verdict(cfg, job);
              && verdict.canonicalScore == Earned(cfg, job, mode.requiredTier).value
              && verdict.tierAchieved == mode.requiredTier
  {
  }

  lemma WritesEarned(cfg: Config, db: Db, job: Job)
    requires Writes(cfg, db, job)
    ensures Earns(cfg, job, SubmissionOf(cfg, job))
  {
    if job.request.PostRun? { UnfitExactly(cfg, job); }
    hide Verdict, Unfit, Deserving, Earned, Taken;
  }

  ghost predicate EarnedBySome(cfg: Config, jobs: seq<Job>, sub: Submission) {
    exists job :: job in jobs && Earns(cfg, job, sub)
  }

  lemma {:induction false} AppliedIsEarned(cfg: Config, jobs: seq<Job>, sub: Submission)
    requires sub in Applied(cfg, jobs)
    ensures EarnedBySome(cfg, jobs, sub)
  {
    hide Earns, Writes, SubmissionOf, ServeAll, Applied;
    if jobs == [] {
      AppliedNothing(cfg);
    } else {
      var before, last := jobs[..|jobs| - 1], jobs[|jobs| - 1];
      AppliedGrows(cfg, jobs);
      if sub in Applied(cfg, before) {
        AppliedIsEarned(cfg, before, sub);
      } else {
        WritesEarned(cfg, ServeAll(cfg, before), last);
      }
      assert jobs == before + [last];
    }
  }

  lemma AppliedNothing(cfg: Config)
    ensures Applied(cfg, []) == []
  {
  }

  /**
    Over every interleaving, each accepted score is what some committed request earned that
    may score there, and no guest's request.
   */
  lemma AcceptedIsEarned(cfg: Config, events: seq<Event>, sub: Submission)
    requires sub in AcceptedIn(cfg, events)
    ensures exists job :: && job in Run(cfg, events).history && Earns(cfg, job, sub)
                          && !Unclaimed(cfg, job.request)
  {
    AppliedIsEarned(cfg, Run(cfg, events).history, sub);
    var job :| job in Run(cfg, events).history && Earns(cfg, job, sub);
    assert !Unclaimed(cfg, job.request);
    hide Run, Applied, Earns, Unclaimed;
  }

  // ------------------------------------------------------- denials and run ids

  /** A run turned down by the validator did not deserve its score. */
  predicate DenialHolds(cfg: Config, answer: Answer) {
    var r := answer.job.request;
    answer.reply == Refused(RunDenied) ==>
      r.PostRun? && r.mode in cfg.modes && cfg.modes[r.mode].requiredTier > 0 && !Deserving(cfg, answer.job)
  }

  ghost predicate DenialsHold(cfg: Config, s: State) {
    forall t :: t in s.answers ==> DenialHolds(cfg, s.answers[t])
  }

  lemma NewDenialHolds(cfg: Config, s: State, t: nat, u: nat)
    requires Inv(cfg, s) && t in s.txns && u in AdvanceTxn(cfg, s, t).answers
    requires u in s.answers ==> DenialHolds(cfg, s.answers[u])
    ensures DenialHolds(cfg, AdvanceTxn(cfg, s, t).answers[u])
  {
    hide Taken, Unfit, TicketHeld, RowLocked, UpsertRow, SubmissionOf, CommitDb, Inv, Deserving;
    InvGivesTxn(cfg, s, t);
    UnfitIsUndeserving(cfg, s.txns[t].job);
  }

  lemma UnfitIsUndeserving(cfg: Config, job: Job)
    ensures Unfit(cfg, job) && RefusalOf(cfg, job.request).None? ==>
              && job.request.PostRun? && job.request.mode in cfg.modes
              && cfg.modes[job.request.mode].requiredTier > 0 && !Deserving(cfg, job)
  {
    hide Deserving, Verdict;
    if Unfit(cfg, job) && RefusalOf(cfg, job.request).None? { UnfitExactly(cfg, job); }
  }

  lemma NextDenies(cfg: Config, s: State, event: Event)
    requires Inv(cfg, s) && DenialsHold(cfg, s)
    ensures DenialsHold(cfg, Next(cfg, s, event))
  {
    hide Inv, DenialHolds, AdvanceTxn;
    if event.Advance? && event.txn in s.txns {
      var next := AdvanceTxn(cfg, s, event.txn);
      forall u | u in next.answers ensures DenialHolds(cfg, next.answers[u]) {
        NewDenialHolds(cfg, s, event.txn, u);
      }
    }
  }

  /** Over every interleaving, only undeserving runs are answered as denied. */
  lemma {:induction false} DenialsAreDeserved(cfg: Config, events: seq<Event>)
    ensures DenialsHold(cfg, Run(cfg, events))
  {
    if events != [] {
      DenialsAreDeserved(cfg, events[..|events| - 1]);
      RunKeepsInv(cfg, events[..|events| - 1]);
      NextDenies(cfg, Run(cfg, events[..|events| - 1]), events[|events| - 1]);
    }
    hide DenialsHold, Inv, Next;
  }

  /** The transaction has inserted the run of that id and not committed it. */
  predicate Draws(txn: Txn, id: nat) {
    Holds(txn) && txn.job.request.PostRun? && txn.job.runId == id
  }

  ghost predicate DrawnApart(s: State, t: nat, id: nat)
    requires t in s.txns
  {
    Draws(s.txns[t], id) ==>
      && id < s.nextRun
      && (forall k :: k in s.db.runs ==> s.db.runs[k].id != id)
      && (forall u :: u in s.txns && Draws(s.txns[u], id) ==> u == t)
  }

  /** Every run, recorded or under way, has an id of its own that has been drawn. */
  ghost predicate IdsDistinct(s: State) {
    && (forall k :: k in s.db.runs ==> s.db.runs[k].id < s.nextRun)
    && (forall k, l :: k in s.db.runs && l in s.db.runs && s.db.runs[k].id == s.db.runs[l].id ==> k == l)
    && (forall t, id: nat {:trigger DrawnApart(s, t, id)} :: t in s.txns ==> DrawnApart(s, t, id))
  }

  /** A transaction that moves on and draws no id that it did not draw before. */
  lemma MoveKeepsIds(s: State, t: nat, txn: Txn, next: State)
    requires IdsDistinct(s) && t in s.txns && next.db == s.db && next.txns == s.txns[t := txn]
    requires s.nextRun <= next.nextRun
    requires forall id: nat :: Draws(txn, id) ==>
               Draws(s.txns[t], id) || (id == s.nextRun && next.nextRun == s.nextRun + 1)
    ensures IdsDistinct(next)
  {
    forall u, id: nat | u in next.txns ensures DrawnApart(next, u, id) {
      assert u in s.txns ==> DrawnApart(s, u, id);
      assert DrawnApart(s, t, id);
      forall v | v in next.txns && Draws(next.txns[v], id) && Draws(next.txns[u], id) ensures v == u {
        assert v in s.txns ==> DrawnApart(s, v, id);
      }
    }
  }

  lemma FinishKeepsIds(s: State, t: nat, next: State)
    requires IdsDistinct(s) && t in s.txns && next.db == s.db && next.txns == s.txns - {t} && next.nextRun == s.nextRun
    ensures IdsDistinct(next)
  {
    forall u, id: nat | u in next.txns ensures DrawnApart(next, u, id) {
      assert DrawnApart(s, u, id);
    }
  }

  lemma CommitKeepsIds(cfg: Config, s: State, t: nat)
    requires IdsDistinct(s) && t in s.txns && Holds(s.txns[t]) && |s.txns[t].rows| <= |PERIODS|
    ensures IdsDistinct(Commit(cfg, s, t))
  {
    hide PutRows, Verdict;
    var next := Commit(cfg, s, t);
    var r := s.txns[t].job.request;
    if r.PostRun? {
      var key, id := RunKey(r.user, r.mode, r.clientRunId), s.txns[t].job.runId;
      assert DrawnApart(s, t, id);
      assert next.db.runs[key].id == id;
      forall u, other: nat | u in next.txns ensures DrawnApart(next, u, other) {
        assert DrawnApart(s, u, other);
        assert DrawnApart(s, u, id);
      }
    } else {
      assert next.db.runs == s.db.runs;
      forall u, other: nat | u in next.txns ensures DrawnApart(next, u, other) {
        assert DrawnApart(s, u, other);
      }
    }
  }

  lemma NextKeepsIds(cfg: Config, s: State, event: Event)
    requires Inv(cfg, s) && IdsDistinct(s)
    ensures IdsDistinct(Next(cfg, s, event))
  {
    hide Inv, IdsDistinct, RefusalOf, Taken, TicketHeld, RowLocked, Unfit, UpsertRow, SubmissionOf, Commit;
    var next := Next(cfg, s, event);
    match event
    case Begin(t, request, now, stamp) =>
      if next != s { BeginKeepsIds(s, t, request, now, stamp); }
    case Abort(t) =>
      if t in s.txns { FinishKeepsIds(s, t, next); } else { assert next.txns == s.txns; }
    case Advance(t) =>
      if t in s.txns {
        var txn := s.txns[t];
        InvGivesTxn(cfg, s, t);
        if (txn.phase == Writing && |txn.rows| == |PERIODS|) || txn.phase == Denying {
          CommitKeepsIds(cfg, s, t);
        } else if t !in next.txns {
          FinishKeepsIds(s, t, next);
        } else if next != s {
          MoveKeepsIds(s, t, next.txns[t], next);
        }
      }
  }

  lemma BeginKeepsIds(s: State, t: nat, request: Request, now: Instant, stamp: Instant)
    requires IdsDistinct(s) && t !in s.txns
    ensures IdsDistinct(s.(txns := s.txns[t := Txn(Job(request, now, stamp, 0), Begun, [])]))
  {
    var next := s.(txns := s.txns[t := Txn(Job(request, now, stamp, 0), Begun, [])]);
    forall u, id: nat | u in next.txns ensures DrawnApart(next, u, id) {
      if u != t { assert DrawnApart(s, u, id); }
    }
  }

  lemma {:induction false} RunKeepsIds(cfg: Config, events: seq<Event>)
    ensures IdsDistinct(Run(cfg, events))
  {
    if events != [] {
      RunKeepsIds(cfg, events[..|events| - 1]);
      RunKeepsInv(cfg, events[..|events| - 1]);
      NextKeepsIds(cfg, Run(cfg, events[..|events| - 1]), events[|events| - 1]);
      hide IdsDistinct, Inv, Next;
    }
  }

  /** Over every interleaving, no two recorded runs share an id, so a score's run is one run. */
  lemma RunIdsDistinct(cfg: Config, events: seq<Event>, k: RunKey, l: RunKey)
    requires k in Run(cfg, events).db.runs && l in Run(cfg, events).db.runs
    ensures Run(cfg, events).db.runs[k].id == Run(cfg, events).db.runs[l].id <==> k == l
  {
    RunKeepsIds(cfg, events);
    hide Run;
  }

  // ------------------------------------------------------- what is recorded

  /** The row a run leaves: its score and tier if it deserves them, else the tier it was turned down at. */
  predicate Records(cfg: Config, job: Job, k: RunKey, row: RunRow) {
    var r := job.request;
    && r.PostRun? && k == RunKey(r.user, r.mode, r.clientRunId) && r.mode in cfg.modes && !Unclaimed(cfg, r)
    && var tier := cfg.modes[r.mode].requiredTier;
       && tier > 0
       && row == if Deserving(cfg, job) then RunRow(job.runId, Accepted, Earned(cfg, job, tier), Some(tier))
                 else RunRow(job.runId, Denied, None, Some(if tier > 2 then 0 else tier))
  }

  lemma OutcomeRecords(cfg: Config, job: Job)
    requires job.request.PostRun? && RefusalOf(cfg, job.request).None?
    ensures var r := job.request; Records(cfg, job, RunKey(r.user, r.mode, r.clientRunId), RunOutcome(cfg, job))
  {
    UnfitExactly(cfg, job);
    DenialTier(cfg, job);
    hide Verdict, Deserving;
  }

  lemma DenialTier(cfg: Config, job: Job)
    requires job.request.PostRun? && job.request.mode in cfg.modes
    ensures var tier, verdict := cfg.modes[job.request.mode].requiredTier, Verdict(cfg, job);
            verdict.status == Rejected && tier > 0 ==> verdict.tierAchieved == if tier > 2 then 0 else tier
  {
  }

  lemma ServeRecords(cfg: Config, db: Db, job: Job, k: RunKey)
    requires k in Serve(cfg, db, job).db.runs
    ensures var row := Serve(cfg, db, job).db.runs[k];
            (k in db.runs && row == db.runs[k]) || Records(cfg, job, k, row)
  {
    hide Records, RefusalOf, Taken, Unfit, SubmissionOf, Written, Mark, RunOutcome;
    if job.request.PostRun? && RefusalOf(cfg, job.request).None? { OutcomeRecords(cfg, job); }
  }

  ghost predicate RecordedBy(cfg: Config, jobs: seq<Job>, k: RunKey, row: RunRow) {
    exists job :: job in jobs && Records(cfg, job, k, row)
  }

  lemma {:induction false} ServedRecords(cfg: Config, jobs: seq<Job>, k: RunKey)
    requires k in ServeAll(cfg, jobs).runs
    ensures RecordedBy(cfg, jobs, k, ServeAll(cfg, jobs).runs[k])
  {
    hide Records, Serve;
    if jobs != [] {
      var before, last := jobs[..|jobs| - 1], jobs[|jobs| - 1];
      assert jobs == before + [last];
      ServeRecords(cfg, ServeAll(cfg, before), last, k);
      if k in ServeAll(cfg, before).runs { ServedRecords(cfg, before, k); }
    }
  }

  /** Over every interleaving, each recorded run is a committed request's, with what it earned. */
  lemma RunsAreRecorded(cfg: Config, events: seq<Event>, k: RunKey)
    requires k in Run(cfg, events).db.runs
    ensures exists job :: job in Run(cfg, events).history && Records(cfg, job, k, Run(cfg, events).db.runs[k])
  {
    RunKeepsInv(cfg, events);
    hide Run, ServeAll, Records, Inv;
    ServedRecords(cfg, Run(cfg, events).history, k);
  }

  // ------------------------------------------------- whose requests are served

  ghost predicate BegunIn(events: seq<Event>, job: Job) {
    exists t :: Begin(t, job.request, job.now, job.stamp) in events
  }

  /** Everything served or under way was begun, as it is. */
  ghost predicate AllBegun(s: State, events: seq<Event>) {
    && (forall t :: t in s.txns ==> BegunIn(events, s.txns[t].job))
    && (forall t :: t in s.answers ==> BegunIn(events, s.answers[t].job))
    && (forall job :: job in s.history ==> BegunIn(events, job))
  }

  lemma StillBegun(s: State, events: seq<Event>, event: Event)
    requires AllBegun(s, events)
    ensures AllBegun(s, events + [event])
  {
    forall job | BegunIn(events, job) ensures BegunIn(events + [event], job) {
      var t :| Begin(t, job.request, job.now, job.stamp) in events;
      assert Begin(t, job.request, job.now, job.stamp) in events + [event];
    }
  }

  lemma NextBegun(cfg: Config, s: State, events: seq<Event>, event: Event)
    requires AllBegun(s, events) && event in events
    ensures AllBegun(Next(cfg, s, event), events)
  {
    hide RefusalOf, Taken, TicketHeld, RowLocked, Unfit, UpsertRow, SubmissionOf, CommitDb, Repeat;
    if event.Begin? { assert BegunIn(events, Job(event.request, event.now, event.stamp, 0)); }
    if event.Advance? && event.txn in s.txns {
      var next := Next(cfg, s, event);
      var job := s.txns[event.txn].job;
      assert BegunIn(events, job.(runId := s.nextRun));
      forall other | other in next.history ensures BegunIn(events, other) {
        assert other in s.history || other == job;
      }
    }
  }

  /** Over every interleaving, only requests that were made are served, under the clocks they came with. */
  lemma {:induction false} OnlyRequestsMade(cfg: Config, events: seq<Event>)
    ensures AllBegun(Run(cfg, events), events)
  {
    if events != [] {
      var before, last := events[..|events| - 1], events[|events| - 1];
      OnlyRequestsMade(cfg, before);
      StillBegun(Run(cfg, before), before, last);
      assert events == before + [last];
      NextBegun(cfg, Run(cfg, before), events, last);
      hide AllBegun, Next;
    }
  }
}
