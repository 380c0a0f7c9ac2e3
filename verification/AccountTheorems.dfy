/**
  The promises of the account operations over whole runs.
 */
module AccountTheorems {
  import opened Wrappers
  import opened Accounts
  import opened AccountSafety

  /** Whoever owns an identity is never a guest; usernames and emails stay unique. */
  lemma OwnersAreNeverGuests(events: seq<Event>)
    ensures OwnersDurable(Run(events).db) && RowsUnique(Run(events).db)
  {
    RunKeepsInv(events);
  }

  /** Pruning never deletes the owner of an identity, nor any identity. */
  lemma PruneSparesOwners(events: seq<Event>, user: nat, cutoff: nat)
    ensures Run(events + [Prune(user, cutoff)]).db.identities == Run(events).db.identities
    ensures user in Run(events).db.identities.Values ==> Run(events + [Prune(user, cutoff)]).db == Run(events).db
  {
    RunKeepsInv(events);
    var s := Run(events);
    assert (events + [Prune(user, cutoff)])[..|events|] == events;
    if Prunable(s.db, user, cutoff) { PruneKeepsIdentities(s.db, user, cutoff); }
  }

  /** Every completed login, link, claim or registration with one identity names the same user, who still owns it. */
  lemma LoginsAgree(events: seq<Event>, a: nat, b: nat)
    requires a in Run(events).answers && b in Run(events).answers
    requires Run(events).answers[a].reply.Done? && Run(events).answers[b].reply.Done?
    requires KeyOf(Run(events).answers[a].request) == KeyOf(Run(events).answers[b].request) != None
    ensures var key := KeyOf(Run(events).answers[a].request).value;
            && Run(events).answers[a].reply.user == Run(events).answers[b].reply.user
            && key in Run(events).db.identities
            && Run(events).db.identities[key] == Run(events).answers[a].reply.user
  {
    RunKeepsInv(events);
    assert AnswerOk(Run(events).db, Run(events).answers[a]) && AnswerOk(Run(events).db, Run(events).answers[b]);
    hide Run, Inv;
  }

  /** A session changes the tables only in the step that commits it, and that step answers success. */
  lemma FailuresWriteNothing(s: State, t: nat)
    requires Next(s, Advance(t)).db != s.db
    ensures t in s.sessions && s.sessions[t].stage.Bound? && s.sessions[t].user.Some?
    ensures var next := Next(s, Advance(t));
            t in next.answers && next.answers[t].reply == Done(s.sessions[t].user.value.id)
  {
  }

  /** The lookup after a lost race always finds the winner, so only username collisions use up the retries. */
  lemma RacedLookupHits(events: seq<Event>, t: nat)
    requires t in Run(events).sessions && Run(events).sessions[t].stage.Rechecking?
    ensures Run(events).sessions[t].request.Login?
    ensures var s, next := Run(events), Run(events + [Advance(t)]);
            var owner := FindOwner(s.db, s.sessions[t].request.key);
            owner.Some? && t in next.answers && next.answers[t].reply == Done(owner.value)
  {
    RunKeepsInv(events);
    assert SessionOk(Run(events).db, Run(events).nextUser, Run(events).sessions[t]);
    assert (events + [Advance(t)])[..|events|] == events;
  }

  /** When a link meets an existing identity, that identity has an owner to compare with. */
  lemma DisputedIdentityHasOwner(events: seq<Event>, t: nat)
    requires t in Run(events).sessions && Run(events).sessions[t].stage.Disputed?
    ensures var me := Run(events).sessions[t];
            me.request.Link? && FindOwner(Run(events).db, me.request.key).Some?
  {
    RunKeepsInv(events);
    assert SessionOk(Run(events).db, Run(events).nextUser, Run(events).sessions[t]);
  }

  // -------------------------------------------------------- durable for good

  /** The user exists and is no guest. */
  predicate Durable(db: Db, user: nat) {
    user in db.users && !db.users[user].isGuest
  }

  lemma NextKeepsDurable(s: State, event: Event, user: nat)
    requires Inv(s) && Durable(s.db, user)
    ensures Durable(Next(s, event).db, user) && SameAccount(Next(s, event).db, s.db, user)
    ensures forall key :: key in s.db.identities ==>
              key in Next(s, event).db.identities && Next(s, event).db.identities[key] == s.db.identities[key]
  {
    if event.Advance? && event.session in s.sessions {
      assert SessionOk(s.db, s.nextUser, s.sessions[event.session]);
      if Next(s, event).db != s.db { FailuresWriteNothing(s, event.session); }
    }
    if event.Prune? && Prunable(s.db, event.user, event.cutoff) {
      PruneKeepsIdentities(s.db, event.user, event.cutoff);
    }
    hide NameTaken, EmailTaken, NameHeld, EmailHeld, Fits, RowsUnique, Apart, AnswerOk;
    hide AdvanceTrying, AdvanceStart, AdvanceOwning;
  }

  /** The account's name and email are the same in both. */
  predicate SameAccount(a: Db, b: Db, user: nat)
    requires user in a.users && user in b.users
  {
    a.users[user].username == b.users[user].username && a.users[user].email == b.users[user].email
  }

  /** Whatever happens next, a durable account stays, stays durable, and keeps its name, email and identities. */
  lemma {:induction false} DurableForever(events: seq<Event>, more: seq<Event>, user: nat)
    requires Durable(Run(events).db, user)
    ensures Durable(Run(events + more).db, user) && SameAccount(Run(events + more).db, Run(events).db, user)
    ensures forall key :: key in Run(events).db.identities ==>
              key in Run(events + more).db.identities
              && Run(events + more).db.identities[key] == Run(events).db.identities[key]
  {
    if more == [] {
      assert events + more == events;
    } else {
      var before, last := more[..|more| - 1], more[|more| - 1];
      DurableForever(events, before, user);
      assert events + more == events + before + [last];
      assert (events + more)[..|events + more| - 1] == events + before;
      RunKeepsInv(events + before);
      NextKeepsDurable(Run(events + before), last, user);
      assert Run(events + more) == Next(Run(events + before), last);
      hide *;
    }
  }

  // ---------------------------------------------------------------- progress

  predicate HoldsName(me: Session, name: string) {
    me.user.Some? && me.user.value.row.username == name
  }

  predicate HoldsEmail(me: Session, email: string) {
    me.user.Some? && me.user.value.row.email == Some(email)
  }

  predicate HoldsUser(me: Session, user: nat) {
    me.user.Some? && me.user.value.id == user
  }

  /** The users statement of `me` needs a name, email or row that `other` has written and not committed. */
  predicate WantsRow(db: Db, me: Session, n: nat, other: Session) {
    match me.request
    case CreateGuest(names) => n < |names| && !NameTaken(db, names[n]) && HoldsName(other, names[n])
    case Login(_, names) => n < |names| && !NameTaken(db, names[n]) && HoldsName(other, names[n])
    case Register(name, email) =>
      !NameTaken(db, name) && !EmailTaken(db, email) && (HoldsName(other, name) || HoldsEmail(other, email))
    case Claim(user, email) =>
      && user in db.users && db.users[user].isGuest
      && (HoldsUser(other, user) || (!EmailTaken(db, email) && HoldsEmail(other, email)))
    case Link(user, _) => user in db.users && HoldsUser(other, user)
  }

  /** The next statement of `t` waits for `u` to end. */
  predicate WaitsFor(s: State, t: nat, u: nat) {
    && t in s.sessions && u in s.sessions
    && var me, other := s.sessions[t], s.sessions[u];
       match me.stage
       case Trying(n) => WantsRow(s.db, me, n, other)
       case Owning(_) =>
         && KeyOf(me.request).Some? && KeyOf(me.request).value !in s.db.identities
         && other.ownsIdentity && KeyOf(other.request) == KeyOf(me.request)
       case _ => false
  }

  lemma TryingBlockedExactly(s: State, t: nat, n: nat)
    requires Inv(s) && t in s.sessions && s.sessions[t].stage == Trying(n)
    ensures AdvanceTrying(s, t, n) == s
            <==> exists u :: u in s.sessions && WantsRow(s.db, s.sessions[t], n, s.sessions[u])
  {
    var me, next := s.sessions[t], AdvanceTrying(s, t, n);
    hide Inv, NameTaken, EmailTaken;
    assert next != s ==> t !in next.sessions || next.sessions[t].stage != me.stage;
  }

  /** A session cannot take its next step exactly when it waits for another. */
  lemma BlockedExactly(s: State, t: nat)
    requires Inv(s) && t in s.sessions
    ensures Next(s, Advance(t)) == s <==> exists u :: WaitsFor(s, t, u)
  {
    var me, next := s.sessions[t], Next(s, Advance(t));
    assert SessionOk(s.db, s.nextUser, me);
    if me.stage.Trying? {
      TryingBlockedExactly(s, t, me.stage.n);
      if u :| u in s.sessions && WantsRow(s.db, me, me.stage.n, s.sessions[u]) { assert WaitsFor(s, t, u); }
      if u :| WaitsFor(s, t, u) { assert WantsRow(s.db, me, me.stage.n, s.sessions[u]); }
    } else if me.stage.Owning? {
      if u :| u in s.sessions && s.sessions[u].ownsIdentity && KeyOf(s.sessions[u].request) == KeyOf(me.request) {
        assert KeyOf(me.request).value in s.db.identities || WaitsFor(s, t, u);
      }
      assert next != s ==> t !in next.sessions || next.sessions[t].stage != me.stage;
    } else {
      assert t !in next.sessions || next.sessions[t].stage != me.stage;
    }
    hide Inv, SessionOk, WantsRow, AdvanceTrying;
  }

  /** How far a session has come with what others may want: nothing, its users row, its identity. */
  function Grip(me: Session): nat {
    if me.stage.Bound? then 2 else if me.user.Some? then 1 else 0
  }

  /** Waiting always looks up: whoever is waited for has come further. */
  lemma WaitsUpward(s: State, t: nat, u: nat)
    requires Inv(s)
    ensures WaitsFor(s, t, u) ==> Grip(s.sessions[t]) < Grip(s.sessions[u])
  {
    if t in s.sessions && u in s.sessions {
      assert SessionOk(s.db, s.nextUser, s.sessions[t]) && SessionOk(s.db, s.nextUser, s.sessions[u]);
      hide Inv, NameTaken, EmailTaken, Fits, PendingOk;
    }
  }

  /** No deadlock: in no nonempty set of sessions does each wait for another of the set. */
  lemma NoWaitingCircle(events: seq<Event>, group: set<nat>) returns (t: nat)
    requires group != {} && group <= Run(events).sessions.Keys
    ensures t in group && forall u :: u in group ==> !WaitsFor(Run(events), t, u)
  {
    RunKeepsInv(events);
    var s := Run(events);
    if u :| u in group && Grip(s.sessions[u]) == 2 {
      t := u;
    } else if u :| u in group && Grip(s.sessions[u]) == 1 {
      t := u;
    } else {
      t :| t in group;
    }
    forall u | u in group ensures !WaitsFor(s, t, u) { WaitsUpward(s, t, u); }
    hide WaitsFor, Inv;
  }

  /** While a session is in flight, one of them can take its next step. */
  lemma SomeoneAdvances(events: seq<Event>) returns (t: nat)
    requires Run(events).sessions != map[]
    ensures t in Run(events).sessions
    ensures Run(events + [Advance(t)]) != Run(events)
  {
    var s := Run(events);
    assert s.sessions.Keys != {};
    t := NoWaitingCircle(events, s.sessions.Keys);
    assert forall u :: WaitsFor(s, t, u) ==> u in s.sessions;
    RunKeepsInv(events);
    BlockedExactly(s, t);
    assert (events + [Advance(t)])[..|events|] == events;
    hide WaitsFor, Inv, Next;
  }
}
