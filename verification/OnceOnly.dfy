/**
  What is repeated and what that does: which requests repeat which, that no two committed
  ones do, and that the accepted submissions are exactly the committed requests' own.
 */
module OnceOnly {
  import opened Wrappers
  import opened Periods
  import opened Scores
  import opened Submissions
  import opened SubmissionLaws
  import opened Interleaving
  import opened LedgerSafety
  import opened Admission

  /**
    A run repeats another of its player and mode under the same client id; a raw score
    repeats another of its player and cumulative mode under the same key.
   */
  predicate Repeats(cfg: Config, a: Request, b: Request) {
    && a.user == b.user && a.mode == b.mode
    && if a.PostRun? then b.PostRun? && a.clientRunId == b.clientRunId
       else
         && b.PostScore? && a.mode in cfg.modes && cfg.modes[a.mode].rules.strategy == Cumulative
         && a.idempotencyKey.Some? && a.idempotencyKey == b.idempotencyKey
  }

  lemma RepeatsExactly(cfg: Config, a: Request, b: Request)
    ensures Repeats(cfg, a, b) <==> TicketOf(cfg, a) == TicketOf(cfg, b) != NoTicket
  {
  }

  /**
    What a request that is not turned down does on its own: a run played before is answered
    with its outcome and a key used before with success, and both change nothing; anything
    else is recorded under its id or key, and only a run that earned nothing is denied.
   */
  lemma ServedExactly(cfg: Config, db: Db, job: Job)
    requires job.request.mode in cfg.modes && forall why :: !TurnedDown(cfg, job.request, why)
    ensures var r, next, reply := job.request, Serve(cfg, db, job).db, Serve(cfg, db, job).reply;
            if r.PostRun? then
              var key := RunKey(r.user, r.mode, r.clientRunId);
              if key in db.runs then next == db && reply == Prior(db.runs[key].status)
              else
                && reply == (if Deserving(cfg, job) then Stored else Refused(RunDenied))
                && next.markers == db.markers && next.runs.Keys == db.runs.Keys + {key}
                && Records(cfg, job, key, next.runs[key])
                && (forall k :: k in db.runs ==> next.runs[k] == db.runs[k])
                && (!Deserving(cfg, job) ==> next.scores == db.scores)
            else
              && reply == Stored && next.runs == db.runs
              && if cfg.modes[r.mode].rules.strategy == Cumulative then
                   var marker := Marker(r.user, r.mode, r.idempotencyKey.value);
                   next.markers == db.markers + {marker} && (marker in db.markers ==> next == db)
                 else next.markers == db.markers
  {
    hide TurnedDown, Records, Deserving, Verdict, Written, SubmissionOf, RefusalOf, RunOutcome;
    NotTurnedDown(cfg, job.request);
    if job.request.PostRun? {
      UnfitExactly(cfg, job);
      OutcomeRecords(cfg, job);
    }
  }

  lemma NotTurnedDown(cfg: Config, r: Request)
    requires forall why :: !TurnedDown(cfg, r, why)
    ensures RefusalOf(cfg, r) == None && r.mode in cfg.modes && (r.PostRun? ==> cfg.modes[r.mode].requiredTier > 0)
    ensures r.PostScore? && cfg.modes[r.mode].rules.strategy == Cumulative ==> r.idempotencyKey.Some?
  {
    if RefusalOf(cfg, r).Some? { RefusalExactly(cfg, r, RefusalOf(cfg, r).value); }
    hide TurnedDown;
  }

  // ------------------------------------------------------- what is committed

  ghost predicate InHistory(cfg: Config, history: seq<Job>, ticket: Ticket) {
    exists job :: job in history && TicketOf(cfg, job.request) == ticket
  }

  /** The committed requests were not refused and repeat no other, and what is taken is theirs. */
  ghost predicate HistoryOk(cfg: Config, db: Db, history: seq<Job>) {
    && (forall job :: job in history ==> RefusalOf(cfg, job.request) == None)
    && (forall i, j :: 0 <= i < j < |history| ==> !Repeats(cfg, history[i].request, history[j].request))
    && (forall ticket :: ticket != NoTicket ==> (Taken(db, ticket) <==> InHistory(cfg, history, ticket)))
  }

  lemma InHistoryGrows(cfg: Config, history: seq<Job>, job: Job, ticket: Ticket)
    ensures InHistory(cfg, history + [job], ticket)
            <==> InHistory(cfg, history, ticket) || TicketOf(cfg, job.request) == ticket
  {
    hide TicketOf;
    assert job in history + [job];
    if InHistory(cfg, history, ticket) {
      var other :| other in history && TicketOf(cfg, other.request) == ticket;
      assert other in history + [job];
    }
  }

  lemma TakenGrows(cfg: Config, db: Db, txn: Txn, ticket: Ticket)
    requires |txn.rows| <= |PERIODS|
    ensures Taken(CommitDb(cfg, db, txn), ticket)
            <==> Taken(db, ticket) || (ticket != NoTicket && ticket == TicketOf(cfg, txn.job.request))
  {
    hide PutRows, RunOutcome;
  }

  lemma NoRepeatOf(cfg: Config, history: seq<Job>, job: Job)
    requires forall i, j :: 0 <= i < j < |history| ==> !Repeats(cfg, history[i].request, history[j].request)
    requires var ticket := TicketOf(cfg, job.request); ticket == NoTicket || !InHistory(cfg, history, ticket)
    ensures var all := history + [job];
            forall i, j :: 0 <= i < j < |all| ==> !Repeats(cfg, all[i].request, all[j].request)
  {
    hide Repeats, TicketOf;
    var all := history + [job];
    forall i, j | 0 <= i < j < |all| ensures !Repeats(cfg, all[i].request, all[j].request) {
      if j == |history| {
        RepeatsExactly(cfg, all[i].request, job.request);
        assert all[i] in history;
      }
    }
  }

  lemma CommitKeepsHistory(cfg: Config, s: State, t: nat)
    requires t in s.txns && |s.txns[t].rows| <= |PERIODS| && HistoryOk(cfg, s.db, s.history)
    requires TxnOk(cfg, s.db, s.txns[t]) && Holds(s.txns[t])
    ensures HistoryOk(cfg, Commit(cfg, s, t).db, Commit(cfg, s, t).history)
  {
    var txn, next := s.txns[t], Commit(cfg, s, t);
    var mine := TicketOf(cfg, txn.job.request);
    assert next.history == s.history + [txn.job] && HeldTicket(cfg, txn) == mine;
    hide CommitDb, Taken, TicketOf, RefusalOf, Repeats, InHistory;
    TakenNothing(s.db);
    NoRepeatOf(cfg, s.history, txn.job);
    forall ticket | ticket != NoTicket ensures Taken(next.db, ticket) <==> InHistory(cfg, next.history, ticket) {
      TakenGrows(cfg, s.db, txn, ticket);
      InHistoryGrows(cfg, s.history, txn.job, ticket);
    }
  }

  lemma TakenNothing(db: Db)
    ensures !Taken(db, NoTicket)
  {
  }

  lemma NextKeepsHistory(cfg: Config, s: State, event: Event)
    requires Inv(cfg, s) && HistoryOk(cfg, s.db, s.history)
    ensures HistoryOk(cfg, Next(cfg, s, event).db, Next(cfg, s, event).history)
  {
    hide Inv, HistoryOk, RefusalOf, Taken, TicketHeld, RowLocked, Unfit, UpsertRow, SubmissionOf, Commit, TxnOk;
    var next := Next(cfg, s, event);
    if event.Advance? && event.txn in s.txns {
      var txn := s.txns[event.txn];
      InvGivesTxn(cfg, s, event.txn);
      if (txn.phase == Writing && |txn.rows| == |PERIODS|) || (txn.phase == Denying && txn.rows == []) {
        CommitKeepsHistory(cfg, s, event.txn);
      } else {
        assert next.db == s.db && next.history == s.history;
      }
    }
  }

  lemma {:induction false} RunKeepsHistory(cfg: Config, events: seq<Event>)
    ensures HistoryOk(cfg, Run(cfg, events).db, Run(cfg, events).history)
  {
    if events == [] {
      NothingInHistory(cfg);
    } else {
      RunKeepsHistory(cfg, events[..|events| - 1]);
      RunKeepsInv(cfg, events[..|events| - 1]);
      NextKeepsHistory(cfg, Run(cfg, events[..|events| - 1]), events[|events| - 1]);
      hide HistoryOk, Inv, Next;
    }
  }

  lemma NothingInHistory(cfg: Config)
    ensures HistoryOk(cfg, EMPTY_DB, [])
  {
  }

  /** Over every interleaving, no committed request repeats another. */
  lemma CommittedOnce(cfg: Config, events: seq<Event>, i: nat, j: nat)
    requires i < j < |Run(cfg, events).history|
    ensures var history := Run(cfg, events).history; !Repeats(cfg, history[i].request, history[j].request)
  {
    RunKeepsHistory(cfg, events);
    hide Run, Repeats;
  }

  // --------------------------------------------------------- what is credited

  /** What a committed request scores: what it asked for, or what its run earned, if it did. */
  function CreditOf(cfg: Config, job: Job): seq<Submission> {
    var r := job.request;
    if r.mode !in cfg.modes then []
    else
      var tier := cfg.modes[r.mode].requiredTier;
      if r.PostScore? then [Submission(r.user, r.mode, r.score, job.now, job.stamp, None, 0)]
      else if !Deserving(cfg, job) then []
      else [Submission(r.user, r.mode, Earned(cfg, job, tier).value, job.now, job.stamp, Some(job.runId), tier)]
  }

  function Credits(cfg: Config, jobs: seq<Job>): seq<Submission> {
    if jobs == [] then [] else Credits(cfg, jobs[..|jobs| - 1]) + CreditOf(cfg, jobs[|jobs| - 1])
  }

  lemma CreditIsWritten(cfg: Config, db: Db, job: Job)
    requires RefusalOf(cfg, job.request) == None && !Taken(db, TicketOf(cfg, job.request))
    ensures CreditOf(cfg, job) == if Writes(cfg, db, job) then [SubmissionOf(cfg, job)] else []
  {
    if job.request.PostRun? { UnfitExactly(cfg, job); }
    hide Verdict, Deserving, Taken;
  }

  ghost predicate Credited(cfg: Config, s: State) {
    Applied(cfg, s.history) == Credits(cfg, s.history)
  }

  lemma NextKeepsCredit(cfg: Config, s: State, event: Event)
    requires Inv(cfg, s) && Credited(cfg, s)
    ensures Credited(cfg, Next(cfg, s, event))
  {
    hide Inv, RefusalOf, Taken, TicketHeld, RowLocked, Unfit, UpsertRow, SubmissionOf, CommitDb, TxnOk;
    hide Applied, Credits;
    var next := Next(cfg, s, event);
    if event.Advance? && event.txn in s.txns && next.history != s.history {
      CommitCredits(cfg, s, event.txn);
    }
  }

  lemma CommitCredits(cfg: Config, s: State, t: nat)
    requires Inv(cfg, s) && Credited(cfg, s) && t in s.txns && AdvanceTxn(cfg, s, t).history != s.history
    ensures Credited(cfg, AdvanceTxn(cfg, s, t))
  {
    var txn, next := s.txns[t], AdvanceTxn(cfg, s, t);
    InvGivesTxn(cfg, s, t);
    assert next.history == s.history + [txn.job] && Holds(txn);
    assert RefusalOf(cfg, txn.job.request) == None && !Taken(s.db, TicketOf(cfg, txn.job.request));
    assert s.db == ServeAll(cfg, s.history);
    hide Inv, TxnOk, AdvanceTxn, RefusalOf, Taken, CreditOf, Writes, ServeAll;
    CreditIsWritten(cfg, s.db, txn.job);
    AppliedGrows(cfg, next.history);
    assert next.history[..|next.history| - 1] == s.history;
  }

  /** Over every interleaving, the accepted submissions are the credits of the committed requests, in order. */
  lemma {:induction false} AcceptedAreCredits(cfg: Config, events: seq<Event>)
    ensures AcceptedIn(cfg, events) == Credits(cfg, Run(cfg, events).history)
  {
    if events != [] {
      var before := events[..|events| - 1];
      AcceptedAreCredits(cfg, before);
      RunKeepsInv(cfg, before);
      NextKeepsCredit(cfg, Run(cfg, before), events[|events| - 1]);
      hide Inv, Next, Applied, Credits;
    }
  }

  // -------------------------------------------------------- what answers mean

  ghost predicate RepeatedIn(cfg: Config, history: seq<Job>, r: Request) {
    exists job :: job in history && Repeats(cfg, job.request, r)
  }

  /** A success means the request was committed, or for a keyed increment one that it repeats; a replay, that too. */
  ghost predicate Justified(cfg: Config, history: seq<Job>, answer: Answer) {
    && (answer.reply == Stored ==> answer.job in history || RepeatedIn(cfg, history, answer.job.request))
    && (answer.reply == Stored ==>
          answer.job in history
          || (!answer.job.request.PostRun? && Repeats(cfg, answer.job.request, answer.job.request)))
    && (answer.reply.Prior? ==> answer.job.request.PostRun? && RepeatedIn(cfg, history, answer.job.request))
  }

  ghost predicate AllJustified(cfg: Config, s: State) {
    forall t :: t in s.answers ==> Justified(cfg, s.history, s.answers[t])
  }

  lemma StillJustified(cfg: Config, history: seq<Job>, job: Job, answer: Answer)
    requires Justified(cfg, history, answer)
    ensures Justified(cfg, history + [job], answer)
  {
    hide Repeats;
    if RepeatedIn(cfg, history, answer.job.request) {
      var other :| other in history && Repeats(cfg, other.request, answer.job.request);
      assert other in history + [job];
    }
  }

  /** An answer from what is taken: something committed is repeated. */
  lemma RepeatJustified(cfg: Config, db: Db, history: seq<Job>, job: Job)
    requires HistoryOk(cfg, db, history) && Taken(db, TicketOf(cfg, job.request))
    ensures Justified(cfg, history, Answer(job, Repeat(cfg, db, job.request)))
  {
    var ticket := TicketOf(cfg, job.request);
    assert ticket != NoTicket && InHistory(cfg, history, ticket);
    var other :| other in history && TicketOf(cfg, other.request) == ticket;
    RepeatsExactly(cfg, other.request, job.request);
    RepeatsExactly(cfg, job.request, job.request);
    RunTickets(cfg, job.request);
    hide Repeats, TicketOf, InHistory, HistoryOk;
  }

  lemma RunTickets(cfg: Config, r: Request)
    ensures TicketOf(cfg, r).ByRun? <==> r.PostRun?
  {
  }

  lemma NewAnswerJustified(cfg: Config, s: State, t: nat)
    requires Inv(cfg, s) && HistoryOk(cfg, s.db, s.history) && t in s.txns && t !in s.answers
    ensures var next := AdvanceTxn(cfg, s, t);
            t in next.answers ==> Justified(cfg, next.history, next.answers[t])
  {
    var txn, next := s.txns[t], AdvanceTxn(cfg, s, t);
    if Taken(s.db, TicketOf(cfg, txn.job.request)) { RepeatJustified(cfg, s.db, s.history, txn.job); }
    hide Inv, HistoryOk, RefusalOf, Taken, TicketHeld, RowLocked, Unfit, UpsertRow, SubmissionOf, CommitDb, Repeats;
    hide TicketOf, RepeatedIn, Repeat;
  }

  lemma NextKeepsJustified(cfg: Config, s: State, event: Event)
    requires Inv(cfg, s) && HistoryOk(cfg, s.db, s.history) && AllJustified(cfg, s)
    requires forall t :: t in s.txns ==> t !in s.answers
    ensures AllJustified(cfg, Next(cfg, s, event))
    ensures var next := Next(cfg, s, event); forall t :: t in next.txns ==> t !in next.answers
  {
    hide Inv, HistoryOk, RefusalOf, Taken, TicketHeld, RowLocked, Unfit, UpsertRow, SubmissionOf, CommitDb, Repeat;
    hide Justified;
    if event.Advance? && event.txn in s.txns {
      var next := Next(cfg, s, event);
      forall t | t in next.answers ensures Justified(cfg, next.history, next.answers[t]) {
        if t == event.txn {
          NewAnswerJustified(cfg, s, t);
        } else if next.history != s.history {
          StillJustified(cfg, s.history, s.txns[event.txn].job, s.answers[t]);
        }
      }
    }
  }

  lemma {:induction false} RunJustified(cfg: Config, events: seq<Event>)
    ensures AllJustified(cfg, Run(cfg, events))
    ensures forall t :: t in Run(cfg, events).txns ==> t !in Run(cfg, events).answers
  {
    if events != [] {
      var before := events[..|events| - 1];
      RunJustified(cfg, before);
      RunKeepsInv(cfg, before);
      RunKeepsHistory(cfg, before);
      NextKeepsJustified(cfg, Run(cfg, before), events[|events| - 1]);
      hide AllJustified, Inv, HistoryOk, Next;
    }
  }

  /**
    Over every interleaving, whoever is told of a success has their own request committed,
    or for a keyed increment one that it repeats; whoever is told of an earlier run has one
    committed that theirs repeats.
   */
  lemma AnswersAreJustified(cfg: Config, events: seq<Event>, t: nat)
    requires t in Run(cfg, events).answers
    ensures Justified(cfg, Run(cfg, events).history, Run(cfg, events).answers[t])
  {
    RunJustified(cfg, events);
    hide Run, Justified;
  }
}
