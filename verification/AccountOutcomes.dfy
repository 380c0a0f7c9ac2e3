/**
  What each account operation leaves in the tables, what its refusals mean, and whom
  pruning may delete.
 */
module AccountOutcomes {
  import opened Wrappers
  import opened Accounts
  import opened AccountSafety
  import opened AccountTheorems

  // -------------------------------------------------------- uncommitted rows

  /** The identity an email stands for. */
  function Native(email: string): IdentityKey {
    IdentityKey("ubear", email)
  }

  /** What a session has written of its account and not committed. */
  predicate Shape(db: Db, me: Session) {
    me.user.Some? ==>
      var id, row := me.user.value.id, me.user.value.row;
      match me.request
      case CreateGuest(names) => row.username in names && row == User(row.username, None, true, me.now)
      case Login(_, names) => row.username in names && row == User(row.username, None, false, me.now)
      case Register(name, email) => row == User(name, Some(email), false, me.now)
      case Claim(user, email) =>
        id == user && user in db.users && db.users[user].isGuest
        && row == db.users[user].(email := Some(email), isGuest := false)
      case Link(user, _) => id == user && user in db.users && row == db.users[user].(isGuest := false)
  }

  ghost predicate Shapes(s: State) {
    forall t :: t in s.sessions ==> Shape(s.db, s.sessions[t])
  }

  /** The step leaves the tables and the other sessions alone, and the session's account in shape. */
  ghost predicate KeepsShape(s: State, t: nat, next: State) {
    && next.db == s.db && (t in next.sessions ==> Shape(s.db, next.sessions[t]))
    && (forall u :: u in next.sessions && u != t ==> u in s.sessions && next.sessions[u] == s.sessions[u])
  }

  lemma TryingShape(s: State, t: nat, n: nat)
    requires t in s.sessions && Shape(s.db, s.sessions[t]) && s.sessions[t].stage == Trying(n)
    ensures KeepsShape(s, t, AdvanceTrying(s, t, n))
  {
    hide NameTaken, EmailTaken, NameHeld, EmailHeld, UserHeld;
  }

  lemma MovedShape(s: State, t: nat)
    requires Inv(s) && t in s.sessions && Shape(s.db, s.sessions[t]) && !s.sessions[t].stage.Bound?
    ensures KeepsShape(s, t, AdvanceSession(s, t))
  {
    hide IdentityHeld, Inv, AdvanceTrying;
    SessionIsOk(s, t);
    if s.sessions[t].stage.Trying? { TryingShape(s, t, s.sessions[t].stage.n); }
  }

  lemma SessionIsOk(s: State, t: nat)
    requires Inv(s) && t in s.sessions
    ensures SessionOk(s.db, s.nextUser, s.sessions[t])
  {
    hide SessionOk;
  }

  /** A commit leaves the account of any other session as it is. */
  lemma OtherShape(s: State, t: nat, u: nat)
    requires Inv(s) && t in s.sessions && u in s.sessions && u != t && s.sessions[t].user.Some?
    requires Shape(s.db, s.sessions[u])
    ensures Shape(CommitDb(s.db, s.sessions[t]), s.sessions[u])
  {
    assert Apart(s.sessions[t], s.sessions[u]);
    hide Inv, Compatible;
  }

  lemma NextShapes(s: State, event: Event)
    requires Inv(s) && Shapes(s)
    ensures Shapes(Next(s, event))
  {
    hide Shape, Inv, AdvanceSession, CommitDb, Prunable;
    match event
    case Begin(_, _, _) => NothingYet();
    case Abort(_) =>
    case Play(user) => PlayKeepsShapes(s, user);
    case Prune(user, cutoff) => PruneKeepsShapes(s, user, cutoff);
    case Advance(t) =>
      if t in s.sessions {
        if s.sessions[t].stage.Bound? { CommitShapes(s, t); } else { MovedShape(s, t); }
      }
  }

  lemma NothingYet()
    ensures forall db: Db, request: Request, now: nat {:trigger Shape(db, Session(request, now, Start, None, false))} ::
              Shape(db, Session(request, now, Start, None, false))
  {
  }

  lemma PlayKeepsShapes(s: State, user: nat)
    requires Shapes(s)
    ensures Shapes(Next(s, Play(user)))
  {
    forall t | t in s.sessions ensures Shape(Next(s, Play(user)).db, s.sessions[t]) {
      assert Shape(s.db, s.sessions[t]);
    }
  }

  lemma PruneKeepsShapes(s: State, user: nat, cutoff: nat)
    requires Shapes(s)
    ensures Shapes(Next(s, Prune(user, cutoff)))
  {
    var next := Next(s, Prune(user, cutoff));
    forall t | t in s.sessions ensures Shape(next.db, s.sessions[t]) {
      assert Shape(s.db, s.sessions[t]);
    }
  }

  lemma CommitShapes(s: State, t: nat)
    requires Inv(s) && Shapes(s) && t in s.sessions && s.sessions[t].stage.Bound?
    ensures Shapes(AdvanceSession(s, t))
  {
    SessionIsOk(s, t);
    var next := AdvanceSession(s, t);
    forall u | u in next.sessions ensures Shape(next.db, next.sessions[u]) { OtherShape(s, t, u); }
    hide Shape, Inv, CommitDb;
  }

  lemma {:induction false} RunShapes(events: seq<Event>)
    ensures Shapes(Run(events))
  {
    if events != [] {
      RunShapes(events[..|events| - 1]);
      RunKeepsInv(events[..|events| - 1]);
      NextShapes(Run(events[..|events| - 1]), events[|events| - 1]);
      hide Shapes, Inv, Next;
    }
  }

  // ------------------------------------------------------------ what is written

  /** The users and identities after an operation that names an account, from those before it. */
  predicate Completes(before: Db, me: Session, user: nat, after: Db) {
    && after.played == before.played
    && match me.request
       case CreateGuest(names) =>
         && user !in before.users && after.identities == before.identities
         && (exists n :: 0 <= n < |names|
                         && after.users == before.users[user := User(names[n], None, true, me.now)])
       case Register(name, email) =>
         && user !in before.users && Native(email) !in before.identities
         && after.users == before.users[user := User(name, Some(email), false, me.now)]
         && after.identities == before.identities[Native(email) := user]
       case Claim(claimed, email) =>
         && user == claimed && user in before.users && before.users[user].isGuest
         && Native(email) !in before.identities
         && after.users == before.users[user := before.users[user].(email := Some(email), isGuest := false)]
         && after.identities == before.identities[Native(email) := user]
       case Link(linked, key) =>
         && user == linked && user in before.users
         && after.users == before.users[user := before.users[user].(isGuest := false)]
         && (key in before.identities ==> before.identities[key] == user)
         && after.identities == before.identities[key := user]
       case Login(key, names) =>
         if key in before.identities then after == before && before.identities[key] == user
         else
           && user !in before.users && after.identities == before.identities[key := user]
           && (exists n :: 0 <= n < |names|
                           && after.users == before.users[user := User(names[n], None, false, me.now)])
  }

  predicate NameUsed(db: Db, name: string) {
    exists id :: id in db.users && db.users[id].username == name
  }

  predicate EmailUsed(db: Db, email: string) {
    exists id :: id in db.users && db.users[id].email == Some(email)
  }

  lemma TakenIsUsed(db: Db)
    ensures forall name :: NameTaken(db, name) <==> NameUsed(db, name)
    ensures forall email :: EmailTaken(db, email) <==> EmailUsed(db, email)
  {
  }

  /** What a refusal means at the moment it is given. */
  predicate Refuses(db: Db, me: Session, reply: Reply) {
    match reply
    case Done(_) => false
    case NotFound => (me.request.Claim? || me.request.Link?) && me.request.user !in db.users
    case AlreadyClaimed =>
      me.request.Claim? && me.request.user in db.users && (me.stage.Start? ==> !db.users[me.request.user].isGuest)
    case GaveUp =>
      (me.request.CreateGuest? || me.request.Login?) && me.stage.Trying? && me.stage.n >= |me.request.names|
    case Conflict =>
      match me.request
      case Register(name, email) => NameUsed(db, name) || EmailUsed(db, email) || Native(email) in db.identities
      case Claim(_, email) => EmailUsed(db, email) || Native(email) in db.identities
      case Link(user, key) => key in db.identities && db.identities[key] != user
      case _ => false
  }

  lemma OwnersAreDurable(s: State)
    requires Inv(s)
    ensures OwnersDurable(s.db)
  {
    hide OwnersDurable;
  }

  lemma BoundMeans(s: State, t: nat)
    requires Inv(s) && t in s.sessions && Shape(s.db, s.sessions[t]) && s.sessions[t].stage.Bound?
    ensures var next := AdvanceSession(s, t);
            && t in next.answers && next.answers[t].reply.Done?
            && Completes(s.db, s.sessions[t], next.answers[t].reply.user, next.db)
  {
    hide Inv, Fits;
    SessionIsOk(s, t);
    OwnersAreDurable(s);
    var me := s.sessions[t];
    var row := me.user.value.row;
    if me.request.CreateGuest? || me.request.Login? {
      var n :| 0 <= n < |me.request.names| && me.request.names[n] == row.username;
      assert row == User(me.request.names[n], None, row.isGuest, me.now);
    }
    IdentityKept(s.db, me);
  }

  /** Writing again what an identity already says changes nothing. */
  lemma IdentityKept(db: Db, me: Session)
    ensures forall key :: key in db.identities && me.user.Some? && db.identities[key] == me.user.value.id ==>
              db.identities[key := me.user.value.id] == db.identities
  {
  }

  lemma UnboundMeans(s: State, t: nat)
    requires Inv(s) && t in s.sessions && !s.sessions[t].stage.Bound? && t !in s.answers
    ensures var next := AdvanceSession(s, t);
            && next.db == s.db
            && (t in next.answers ==>
                  if next.answers[t].reply.Done? then
                    Completes(s.db, s.sessions[t], next.answers[t].reply.user, next.db)
                  else Refuses(s.db, s.sessions[t], next.answers[t].reply))
  {
    hide Inv, Fits, NameTaken, EmailTaken, NameUsed, EmailUsed, NameHeld, EmailHeld, UserHeld, IdentityHeld;
    SessionIsOk(s, t);
    TakenIsUsed(s.db);
  }

  /** The step that answers a session completes its operation as it should, or refuses it for what is then the case. */
  lemma AnswerMeans(s: State, t: nat)
    requires Inv(s) && Shapes(s) && t in s.sessions && t in Next(s, Advance(t)).answers && t !in s.answers
    ensures var next := Next(s, Advance(t));
            var answer := next.answers[t];
            if answer.reply.Done? then Completes(s.db, s.sessions[t], answer.reply.user, next.db)
            else next.db == s.db && Refuses(s.db, s.sessions[t], answer.reply)
  {
    SessionIsOk(s, t);
    assert Shape(s.db, s.sessions[t]);
    if s.sessions[t].stage.Bound? {
      BoundMeans(s, t);
    } else {
      UnboundMeans(s, t);
    }
  }

  // ----------------------------------------------------- what answers go on to say

  /** The account an answer named is durable, under the name and email that were asked for. */
  predicate Describes(db: Db, answer: Answer) {
    answer.reply.Done? ==>
      var user := answer.reply.user;
      match answer.request
      case CreateGuest(_) => true
      case Register(name, email) =>
        Durable(db, user) && db.users[user].username == name && db.users[user].email == Some(email)
      case Claim(claimed, email) => user == claimed && Durable(db, user) && db.users[user].email == Some(email)
      case Link(linked, _) => user == linked && Durable(db, user)
      case Login(_, _) => Durable(db, user)
  }

  ghost predicate AnswersDescribe(s: State) {
    && (forall t :: t in s.answers ==> Describes(s.db, s.answers[t]))
    && (forall t :: t in s.sessions ==> t !in s.answers)
  }

  lemma StillDescribes(s: State, event: Event, answer: Answer)
    requires Inv(s) && Describes(s.db, answer)
    ensures Describes(Next(s, event).db, answer)
  {
    if answer.reply.Done? && !answer.request.CreateGuest? { NextKeepsDurable(s, event, answer.reply.user); }
    hide Inv, Next;
  }

  lemma CompletedDescribes(s: State, t: nat)
    requires Inv(s) && Shapes(s) && t in s.sessions && t !in s.answers && t in Next(s, Advance(t)).answers
    ensures Describes(Next(s, Advance(t)).db, Next(s, Advance(t)).answers[t])
  {
    AnswerMeans(s, t);
    OwnersAreDurable(s);
    AnswerKeepsRequest(s, t);
    hide Inv, Shapes, Next, Refuses;
  }

  lemma AnswerKeepsRequest(s: State, t: nat)
    requires t in s.sessions && t in Next(s, Advance(t)).answers && t !in s.answers
    ensures Next(s, Advance(t)).answers[t].request == s.sessions[t].request
  {
    hide NameTaken, EmailTaken, NameHeld, EmailHeld, UserHeld, IdentityHeld, CommitDb;
  }

  lemma OnlyItsAnswer(s: State, event: Event, t: nat)
    requires t in Next(s, event).answers
    ensures t in s.answers || (event == Advance(t) && t in s.sessions)
    ensures t in s.answers && t !in s.sessions ==> Next(s, event).answers[t] == s.answers[t]
    ensures t in Next(s, event).sessions ==> t in s.sessions || t !in s.answers
  {
    hide NameTaken, EmailTaken, NameHeld, EmailHeld, UserHeld, IdentityHeld, CommitDb;
  }

  lemma AnsweredIsOver(s: State, event: Event, t: nat)
    requires (t in s.sessions ==> t !in s.answers) && t in Next(s, event).sessions
    ensures t !in Next(s, event).answers
  {
    hide NameTaken, EmailTaken, NameHeld, EmailHeld, UserHeld, IdentityHeld, CommitDb;
  }

  lemma NextDescribes(s: State, event: Event)
    requires Inv(s) && Shapes(s) && AnswersDescribe(s)
    ensures AnswersDescribe(Next(s, event))
  {
    hide Inv, Shapes, Next, Describes;
    var next := Next(s, event);
    forall t | t in next.answers ensures Describes(next.db, next.answers[t]) {
      OnlyItsAnswer(s, event, t);
      if t in s.answers { StillDescribes(s, event, s.answers[t]); } else { CompletedDescribes(s, t); }
    }
    forall t | t in next.sessions ensures t !in next.answers { AnsweredIsOver(s, event, t); }
  }

  /**
    Over every interleaving, and at any time after, the account named to whoever registered,
    claimed, linked or logged in is durable and has the name and email they gave.
   */
  lemma {:induction false} AnswersStayTrue(events: seq<Event>)
    ensures AnswersDescribe(Run(events))
  {
    if events != [] {
      var before := events[..|events| - 1];
      AnswersStayTrue(before);
      RunKeepsInv(before);
      RunShapes(before);
      NextDescribes(Run(before), events[|events| - 1]);
      hide AnswersDescribe, Inv, Shapes, Next;
    }
  }

  // ------------------------------------------------------------------ retries

  /** The first draw is of the first name. */
  lemma FirstDraw(s: State, t: nat)
    requires t in s.sessions && s.sessions[t].stage == Start
    ensures var next := Next(s, Advance(t)); t in next.sessions ==> next.sessions[t].stage == Trying(0)
    ensures s.sessions[t].request.CreateGuest? ==> t in Next(s, Advance(t)).sessions
  {
  }

  /** Username draws: five in all, and the next is drawn exactly when the last is somebody's. */
  lemma NextDraw(s: State, t: nat, n: nat)
    requires t in s.sessions && s.sessions[t].stage == Trying(n)
    requires s.sessions[t].request.CreateGuest? || s.sessions[t].request.Login?
    requires ValidRequest(s.sessions[t].request)
    ensures var names, next := s.sessions[t].request.names, Next(s, Advance(t));
            && |names| == 5
            && (t in next.answers && t !in s.answers && t !in next.sessions <==> n >= 5 && t !in s.answers)
            && (t in next.sessions && next.sessions[t].stage == Trying(n + 1) <==> n < 5 && NameUsed(s.db, names[n]))
  {
    hide NameTaken, NameUsed, NameHeld;
    TakenIsUsed(s.db);
  }

  // ------------------------------------------------------------------ pruning

  /** Pruning deletes a user exactly when it is an old guest that never played and nobody is just changing. */
  lemma PrunesExactly(s: State, user: nat, cutoff: nat)
    ensures var next := Next(s, Prune(user, cutoff));
            && (user in s.db.users && user !in next.db.users
                <==> && user in s.db.users && s.db.users[user].isGuest && s.db.users[user].created < cutoff
                     && user !in s.db.played
                     && (forall t :: t in s.sessions && s.sessions[t].user.Some? ==>
                           s.sessions[t].user.value.id != user))
            && (forall other :: other in s.db.users && other != user ==>
                  other in next.db.users && next.db.users[other] == s.db.users[other])
            && (forall other :: other in next.db.users ==> other in s.db.users)
            && next.db.played == s.db.played && next.sessions == s.sessions && next.answers == s.answers
  {
    assert UserHeld(s, user)
           <==> !forall t :: t in s.sessions && s.sessions[t].user.Some? ==> s.sessions[t].user.value.id != user;
  }

  /** Playing is recorded for whoever exists. */
  lemma PlayIsRecorded(s: State, user: nat)
    ensures var next := Next(s, Play(user));
            && next.db.played == (if user in s.db.users then s.db.played + {user} else s.db.played)
            && next.db.users == s.db.users
  {
    assert user in s.db.played ==> s.db.played + {user} == s.db.played;
  }

  ghost predicate PlayersExist(s: State) {
    s.db.played <= s.db.users.Keys
  }

  lemma NextKeepsPlayers(s: State, event: Event)
    requires PlayersExist(s)
    ensures PlayersExist(Next(s, event)) && s.db.played <= Next(s, event).db.played
  {
    hide NameTaken, EmailTaken, NameHeld, EmailHeld, UserHeld, IdentityHeld;
  }

  /** Whoever has played is never deleted, by any pruning at any time. */
  lemma {:induction false} PlayersStay(events: seq<Event>, more: seq<Event>)
    ensures Run(events).db.played <= Run(events + more).db.played <= Run(events + more).db.users.Keys
    decreases |events| + |more|, |more|
  {
    if more == [] {
      assert events + more == events;
      if events != [] {
        PlayersStay([], events[..|events| - 1]);
        assert [] + events[..|events| - 1] == events[..|events| - 1];
        NextKeepsPlayers(Run(events[..|events| - 1]), events[|events| - 1]);
      }
    } else {
      var before, all := more[..|more| - 1], events + more;
      PlayersStay(events, before);
      assert all[..|all| - 1] == events + before && all[|all| - 1] == more[|more| - 1];
      NextKeepsPlayers(Run(events + before), more[|more| - 1]);
    }
    hide Next;
  }
}
