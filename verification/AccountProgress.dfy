/**
  Every account operation can be brought to an answer: from any moment on, steps of what
  is in flight alone end it all.
 */
module AccountProgress {
  import opened MapTotals
  import opened Accounts
  import opened AccountSafety
  import opened AccountTheorems

  /** The usernames a session may still draw. */
  function Draws(request: Request): nat {
    if request.CreateGuest? || request.Login? then |request.names| else 0
  }

  /** At most so many steps of its own end a session. */
  function StepsLeft(me: Session): nat {
    match me.stage
    case Start => 5 + Draws(me.request)
    case Trying(n) => 4 + if n < Draws(me.request) then Draws(me.request) - n else 0
    case Owning(_) => 3
    case Rechecking(_) => 2
    case Disputed => 2
    case Missed => 1
    case Bound => 1
  }

  /** The session has ended with an answer, or is closer to its end; the others are as they were. */
  ghost predicate Counts(s: State, t: nat, next: State)
    requires t in s.sessions
  {
    && next.sessions - {t} == s.sessions - {t}
    && (t in next.sessions ==> StepsLeft(next.sessions[t]) < StepsLeft(s.sessions[t]))
    && (t in next.sessions || t in next.answers)
    && (forall u :: u in s.answers ==> u in next.answers)
  }

  lemma MoveCounts(s: State, t: nat, me: Session, nextUser: nat)
    requires t in s.sessions && StepsLeft(me) < StepsLeft(s.sessions[t])
    ensures Counts(s, t, Move(s, t, me).(nextUser := nextUser))
  {
    hide StepsLeft;
  }

  lemma FinishCounts(s: State, t: nat, reply: Reply, db: Db)
    requires t in s.sessions
    ensures Counts(s, t, Finish(s, t, reply).(db := db))
  {
    hide StepsLeft;
  }

  lemma TryingCounts(s: State, t: nat, n: nat)
    requires t in s.sessions && s.sessions[t].stage == Trying(n) && AdvanceTrying(s, t, n) != s
    ensures Counts(s, t, AdvanceTrying(s, t, n))
  {
    hide NameTaken, EmailTaken, NameHeld, EmailHeld, UserHeld, Counts;
    var next := AdvanceTrying(s, t, n);
    if t in next.sessions && next == Move(s, t, next.sessions[t]).(nextUser := next.nextUser) {
      MoveCounts(s, t, next.sessions[t], next.nextUser);
    } else {
      FinishCounts(s, t, next.answers[t].reply, s.db);
    }
  }

  lemma OtherCounts(s: State, t: nat)
    requires t in s.sessions && !s.sessions[t].stage.Trying? && AdvanceSession(s, t) != s
    requires SessionOk(s.db, s.nextUser, s.sessions[t]) && OwnersDurable(s.db)
    ensures Counts(s, t, AdvanceSession(s, t))
  {
    hide IdentityHeld, CommitDb, Counts, AdvanceTrying;
    var next := AdvanceSession(s, t);
    if t in next.sessions && next == Move(s, t, next.sessions[t]) {
      MoveCounts(s, t, next.sessions[t], s.nextUser);
    } else {
      FinishCounts(s, t, next.answers[t].reply, next.db);
    }
  }

  /** A step that is taken ends the session with an answer, or brings it closer to its end. */
  lemma StepCounts(s: State, t: nat)
    requires Inv(s) && t in s.sessions && Next(s, Advance(t)) != s
    ensures Counts(s, t, Next(s, Advance(t)))
  {
    hide Inv, Counts, SessionOk, OwnersDurable, AdvanceTrying;
    InFlightOk(s, t);
    if s.sessions[t].stage.Trying? { TryingCounts(s, t, s.sessions[t].stage.n); } else { OtherCounts(s, t); }
  }

  lemma InFlightOk(s: State, t: nat)
    requires Inv(s) && t in s.sessions
    ensures SessionOk(s.db, s.nextUser, s.sessions[t]) && OwnersDurable(s.db)
  {
    hide SessionOk;
  }

  predicate AllAdvance(events: seq<Event>) {
    forall event :: event in events ==> event.Advance?
  }

  lemma RunGrows(events: seq<Event>, event: Event)
    ensures Run(events + [event]) == Next(Run(events), event)
  {
    assert (events + [event])[..|events|] == events;
  }

  /** Everything in flight can be brought to an answer, with nothing new begun and nothing cut off. */
  lemma {:induction false} AllFinish(events: seq<Event>) returns (more: seq<Event>)
    ensures AllAdvance(more) && Run(events + more).sessions == map[]
    ensures forall t :: t in Run(events).sessions || t in Run(events).answers ==> t in Run(events + more).answers
    decreases Total(Run(events).sessions, StepsLeft)
  {
    hide Run, Next, Inv;
    var s := Run(events);
    if s.sessions == map[] {
      more := [];
      assert events + more == events;
    } else {
      var t := SomeoneAdvances(events);
      RunKeepsInv(events);
      RunGrows(events, Advance(t));
      StepCounts(s, t);
      TotalFalls(s.sessions, Run(events + [Advance(t)]).sessions, StepsLeft, t);
      var rest := AllFinish(events + [Advance(t)]);
      more := [Advance(t)] + rest;
      assert events + [Advance(t)] + rest == events + more;
      StillThere(s, Run(events + [Advance(t)]), t);
    }
  }

  lemma StillThere(s: State, next: State, t: nat)
    requires next.sessions - {t} == s.sessions - {t} && (t in next.sessions || t in next.answers)
    ensures forall u :: u in s.sessions ==> u in next.sessions || u in next.answers
  {
    forall u | u in s.sessions ensures u in next.sessions || u in next.answers {
      if u != t { assert u in next.sessions - {t}; }
    }
  }

  /** An operation asked for at any moment of any run can be brought to an answer by steps of what is then in flight. */
  lemma EveryOperationFinishes(events: seq<Event>, t: nat, request: Request, now: nat) returns (more: seq<Event>)
    requires ValidRequest(request) && t !in Run(events).sessions && t !in Run(events).answers
    ensures AllAdvance(more) && t in Run(events + [Begin(t, request, now)] + more).answers
  {
    RunGrows(events, Begin(t, request, now));
    more := AllFinish(events + [Begin(t, request, now)]);
    hide Run;
  }
}
