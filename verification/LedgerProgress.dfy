/**
  Every submission can be brought to an answer: from any moment on, steps of what is in
  flight alone end it all.
 */
module LedgerProgress {
  import opened MapTotals
  import opened Periods
  import opened Submissions
  import opened Interleaving
  import opened LedgerSafety

  /** At most so many steps of its own end a transaction. */
  function StepsLeft(txn: Txn): nat {
    match txn.phase
    case Begun => 7
    case Checked => 6
    case Claimed => 5
    case Writing => if |txn.rows| <= |PERIODS| then 1 + |PERIODS| - |txn.rows| else 1
    case Denying => 1
  }

  /** A step that is taken ends the transaction with an answer, or brings it closer to its end. */
  lemma StepCounts(cfg: Config, s: State, t: nat)
    requires Inv(cfg, s) && t in s.txns && Next(cfg, s, Advance(t)) != s
    ensures var next := Next(cfg, s, Advance(t));
            && next.txns - {t} == s.txns - {t}
            && (t in next.txns ==> StepsLeft(next.txns[t]) < StepsLeft(s.txns[t]))
            && (t in next.txns || t in next.answers)
            && (forall u :: u in s.answers ==> u in next.answers)
  {
    hide RefusalOf, Taken, TicketHeld, RowLocked, Unfit, SubmissionOf, CommitDb, Repeat, Inv;
    assert TxnOk(cfg, s.db, s.txns[t]) by { InFlightOk(cfg, s, t); }
  }

  lemma InFlightOk(cfg: Config, s: State, t: nat)
    requires Inv(cfg, s) && t in s.txns
    ensures TxnOk(cfg, s.db, s.txns[t])
  {
    hide TxnOk;
  }

  predicate AllAdvance(events: seq<Event>) {
    forall event :: event in events ==> event.Advance?
  }

  /** Everything in flight can be brought to an answer, with nothing new begun and nothing cut off. */
  lemma {:induction false} AllFinish(cfg: Config, events: seq<Event>) returns (more: seq<Event>)
    ensures AllAdvance(more) && Run(cfg, events + more).txns == map[]
    ensures forall t :: t in Run(cfg, events).txns || t in Run(cfg, events).answers ==>
              t in Run(cfg, events + more).answers
    decreases Total(Run(cfg, events).txns, StepsLeft)
  {
    hide Run, Next, Inv;
    var s := Run(cfg, events);
    if s.txns == map[] {
      more := [];
      assert events + more == events;
    } else {
      var t := SomeoneAdvances(cfg, events);
      RunKeepsInv(cfg, events);
      RunGrows(cfg, events, Advance(t));
      StepCounts(cfg, s, t);
      TotalFalls(s.txns, Run(cfg, events + [Advance(t)]).txns, StepsLeft, t);
      var rest := AllFinish(cfg, events + [Advance(t)]);
      more := [Advance(t)] + rest;
      assert events + [Advance(t)] + rest == events + more;
      StillThere(s, Run(cfg, events + [Advance(t)]), t);
    }
  }

  lemma StillThere(s: State, next: State, t: nat)
    requires next.txns - {t} == s.txns - {t} && (t in next.txns || t in next.answers)
    ensures forall u :: u in s.txns ==> u in next.txns || u in next.answers
  {
    forall u | u in s.txns ensures u in next.txns || u in next.answers {
      if u != t { assert u in next.txns - {t}; }
    }
  }

  /** A request made at any moment of any run can be brought to an answer by steps of what is then in flight. */
  lemma EveryRequestFinishes(cfg: Config, events: seq<Event>, t: nat, request: Request, now: Instant, stamp: Instant)
    returns (more: seq<Event>)
    requires t !in Run(cfg, events).txns && t !in Run(cfg, events).answers
    ensures AllAdvance(more) && t in Run(cfg, events + [Begin(t, request, now, stamp)] + more).answers
  {
    RunGrows(cfg, events, Begin(t, request, now, stamp));
    more := AllFinish(cfg, events + [Begin(t, request, now, stamp)]);
    hide Run;
  }
}
