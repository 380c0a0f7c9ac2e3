/**
  What holds after any interleaving of account operations.
 */
module AccountSafety {
  import opened Wrappers
  import opened Accounts

  // -------------------------------------------------- steps keep the invariant

  /** A session that moves on without committing. */
  lemma MoveKeepsInv(s: State, t: nat, me: Session, next: State)
    requires Inv(s) && next == s.(sessions := s.sessions[t := me], nextUser := next.nextUser)
    requires s.nextUser <= next.nextUser && SessionOk(s.db, next.nextUser, me)
    requires forall u :: u in s.sessions && u != t ==> Apart(me, s.sessions[u])
    ensures Inv(next)
  {
    forall u | u in next.sessions ensures SessionOk(next.db, next.nextUser, next.sessions[u]) {
      if u != t { assert SessionOk(s.db, s.nextUser, s.sessions[u]); }
    }
    forall u, v | u in next.sessions && v in next.sessions && u != v ensures Apart(next.sessions[u], next.sessions[v]) {
      if v == t { assert Apart(me, s.sessions[u]); }
      if u != t && v != t { assert Apart(s.sessions[u], s.sessions[v]); }
    }
    hide SessionOk, AnswerOk, OwnersDurable, RowsUnique, Apart;
  }

  lemma FinishKeepsInv(s: State, t: nat, reply: Reply)
    requires Inv(s) && t in s.sessions && AnswerOk(s.db, Answer(s.sessions[t].request, reply))
    ensures Inv(Finish(s, t, reply))
  {
    hide SessionOk, AnswerOk, OwnersDurable, RowsUnique, Apart;
  }

  /** A session with nothing uncommitted is apart from every other. */
  lemma EmptyHandedMoves(s: State, t: nat, me: Session)
    requires Inv(s) && me.user.None? && SessionOk(s.db, s.nextUser, me)
    ensures Inv(Move(s, t, me))
  {
    assert !me.ownsIdentity;
    MoveKeepsInv(s, t, me, Move(s, t, me));
  }

  lemma StartKeepsInv(s: State, t: nat)
    requires Inv(s) && t in s.sessions && s.sessions[t].stage.Start?
    ensures Inv(AdvanceStart(s, t))
  {
    var me := s.sessions[t];
    assert SessionOk(s.db, s.nextUser, me);
    var next := AdvanceStart(s, t);
    if t in next.sessions {
      EmptyHandedMoves(s, t, next.sessions[t]);
    } else {
      FinishKeepsInv(s, t, next.answers[t].reply);
    }
  }

  /** A new row whose name and email are neither committed nor held. */
  lemma InsertKeepsInv(s: State, t: nat, row: User, stage: Stage)
    requires Inv(s) && t in s.sessions && s.sessions[t].stage.Trying?
    requires !NameTaken(s.db, row.username) && !NameHeld(s, row.username)
    requires row.email.Some? ==> !EmailTaken(s.db, row.email.value) && !EmailHeld(s, row.email.value)
    requires row.isGuest <==> s.sessions[t].request.CreateGuest?
    requires if row.isGuest then stage.Bound? else stage.Owning?
    requires !s.sessions[t].request.Link? && !s.sessions[t].request.Claim?
    ensures Inv(InsertUser(s, t, row, stage))
  {
    var me := s.sessions[t];
    assert SessionOk(s.db, s.nextUser, me);
    var next := InsertUser(s, t, row, stage);
    var moved := next.sessions[t];
    assert Fits(s.db, s.nextUser, row);
    forall u | u in s.sessions && u != t ensures Apart(moved, s.sessions[u]) {
      assert SessionOk(s.db, s.nextUser, s.sessions[u]);
    }
    MoveKeepsInv(s, t, moved, next);
  }

  /** A changed row: nobody else holds the user, and a new email is neither committed nor held. */
  lemma UpdateKeepsInv(s: State, t: nat, id: nat, row: User, n: nat)
    requires Inv(s) && t in s.sessions && s.sessions[t].stage.Trying?
    requires id in s.db.users && !UserHeld(s, id) && !row.isGuest
    requires row.username == s.db.users[id].username
    requires row.email == s.db.users[id].email
             || (s.db.users[id].isGuest
                 && row.email.Some? && !EmailTaken(s.db, row.email.value) && !EmailHeld(s, row.email.value))
    requires var request := s.sessions[t].request; (request.Claim? || request.Link?) && request.user == id
    ensures Inv(UpdateUser(s, t, id, row, n))
  {
    var me := s.sessions[t];
    assert SessionOk(s.db, s.nextUser, me);
    var next := UpdateUser(s, t, id, row, n);
    var moved := next.sessions[t];
    assert Fits(s.db, id, row) by {
      forall b | b in s.db.users && b != id ensures Compatible(row, s.db.users[b]) && Compatible(s.db.users[b], row) {
        assert Compatible(s.db.users[id], s.db.users[b]) && Compatible(s.db.users[b], s.db.users[id]);
      }
    }
    forall u | u in s.sessions && u != t ensures Apart(moved, s.sessions[u]) {
      var other := s.sessions[u];
      assert SessionOk(s.db, s.nextUser, other);
      if other.user.Some? {
        assert Compatible(other.user.value.row, s.db.users[id]);
      }
    }
    MoveKeepsInv(s, t, moved, next);
  }

  lemma TryingKeepsInv(s: State, t: nat, n: nat)
    requires Inv(s) && t in s.sessions && s.sessions[t].stage == Trying(n)
    ensures Inv(AdvanceTrying(s, t, n))
  {
    var me := s.sessions[t];
    assert SessionOk(s.db, s.nextUser, me);
    var next := AdvanceTrying(s, t, n);
    if t !in next.sessions {
      FinishKeepsInv(s, t, next.answers[t].reply);
    } else if next.sessions[t].user.None? {
      EmptyHandedMoves(s, t, next.sessions[t]);
    } else {
      match me.request
      case CreateGuest(names) => InsertKeepsInv(s, t, User(names[n], None, true, me.now), Bound);
      case Login(_, names) => InsertKeepsInv(s, t, User(names[n], None, false, me.now), Owning(n));
      case Register(name, email) => InsertKeepsInv(s, t, User(name, Some(email), false, me.now), Owning(n));
      case Claim(user, email) =>
        UpdateKeepsInv(s, t, user, s.db.users[user].(email := Some(email), isGuest := false), n);
      case Link(user, _) => UpdateKeepsInv(s, t, user, s.db.users[user].(isGuest := false), n);
    }
  }

  /** Moving on with the same uncommitted row, or none, keeps a session apart. */
  lemma SameRowMoves(s: State, t: nat, me: Session)
    requires Inv(s) && t in s.sessions && SessionOk(s.db, s.nextUser, me)
    requires me.request == s.sessions[t].request
    requires me.user == s.sessions[t].user || me.user == None
    requires me.ownsIdentity ==> KeyOf(me.request).Some? && !IdentityHeld(s, KeyOf(me.request).value)
    ensures Inv(Move(s, t, me))
  {
    forall u | u in s.sessions && u != t ensures Apart(me, s.sessions[u]) {
      assert Apart(s.sessions[t], s.sessions[u]);
    }
    MoveKeepsInv(s, t, me, Move(s, t, me));
  }

  lemma OwningKeepsInv(s: State, t: nat, n: nat, key: IdentityKey)
    requires Inv(s) && t in s.sessions && s.sessions[t].stage == Owning(n)
    requires KeyOf(s.sessions[t].request) == Some(key)
    ensures Inv(AdvanceOwning(s, t, n, key))
  {
    var me := s.sessions[t];
    assert SessionOk(s.db, s.nextUser, me);
    var next := AdvanceOwning(s, t, n, key);
    if t !in next.sessions {
      FinishKeepsInv(s, t, Conflict);
    } else if next != s {
      SameRowMoves(s, t, next.sessions[t]);
    }
  }

  lemma RecheckingKeepsInv(s: State, t: nat, n: nat, key: IdentityKey)
    requires Inv(s) && t in s.sessions && s.sessions[t].stage == Rechecking(n)
    requires KeyOf(s.sessions[t].request) == Some(key)
    ensures Inv(AdvanceRechecking(s, t, n, key))
  {
    var me := s.sessions[t];
    assert SessionOk(s.db, s.nextUser, me);
    var owner := FindOwner(s.db, key);
    FinishKeepsInv(s, t, Done(owner.value));
  }

  lemma DisputedKeepsInv(s: State, t: nat)
    requires Inv(s) && t in s.sessions && s.sessions[t].stage == Disputed && s.sessions[t].request.Link?
    ensures Inv(AdvanceDisputed(s, t, s.sessions[t].request.user, s.sessions[t].request.key))
  {
    var me := s.sessions[t];
    assert SessionOk(s.db, s.nextUser, me);
    var next := AdvanceDisputed(s, t, me.request.user, me.request.key);
    if t in next.sessions { SameRowMoves(s, t, next.sessions[t]); } else { FinishKeepsInv(s, t, Conflict); }
  }

  // ------------------------------------------------------- commits and deletions

  lemma CommitKeepsRows(s: State, t: nat)
    requires Inv(s) && t in s.sessions && s.sessions[t].stage.Bound?
    ensures s.sessions[t].user.Some?
    ensures RowsUnique(CommitDb(s.db, s.sessions[t])) && OwnersDurable(CommitDb(s.db, s.sessions[t]))
  {
    var me := s.sessions[t];
    assert SessionOk(s.db, s.nextUser, me);
    var id, row := me.user.value.id, me.user.value.row;
    var db := CommitDb(s.db, me);
    forall a, b | a in db.users && b in db.users && a != b ensures Compatible(db.users[a], db.users[b]) {
      assert Fits(s.db, id, row);
      if a != id && b != id { assert Compatible(s.db.users[a], s.db.users[b]); }
    }
    forall key | key in db.identities ensures db.identities[key] in db.users && !db.users[db.identities[key]].isGuest {
      if key in s.db.identities { assert s.db.identities[key] in s.db.users; }
    }
  }

  lemma CommitKeepsOther(s: State, t: nat, u: nat)
    requires Inv(s) && t in s.sessions && s.sessions[t].stage.Bound? && u in s.sessions && u != t
    ensures SessionOk(CommitDb(s.db, s.sessions[t]), s.nextUser, s.sessions[u])
  {
    var me, other := s.sessions[t], s.sessions[u];
    assert SessionOk(s.db, s.nextUser, me) && SessionOk(s.db, s.nextUser, other);
    assert Apart(me, other) && Apart(other, me);
    var db := CommitDb(s.db, me);
    assert me.ownsIdentity ==> KeyOf(me.request).value !in s.db.identities;
    assert forall key :: key in s.db.identities ==> key in db.identities && db.identities[key] == s.db.identities[key];
    if other.user.Some? {
      assert Fits(s.db, other.user.value.id, other.user.value.row);
      assert Fits(db, other.user.value.id, other.user.value.row);
    }
  }

  lemma CommitKeepsInv(s: State, t: nat)
    requires Inv(s) && t in s.sessions && s.sessions[t].stage.Bound?
    ensures s.sessions[t].user.Some? && Inv(Commit(s, t))
  {
    var me := s.sessions[t];
    assert SessionOk(s.db, s.nextUser, me);
    CommitKeepsRows(s, t);
    var next := Commit(s, t);
    forall u | u in next.sessions ensures SessionOk(next.db, next.nextUser, next.sessions[u]) {
      CommitKeepsOther(s, t, u);
    }
    forall u | u in next.answers ensures AnswerOk(next.db, next.answers[u]) {
      if u != t { assert AnswerOk(s.db, s.answers[u]); }
    }
    hide SessionOk, OwnersDurable, RowsUnique, Apart;
  }

  /** Pruning a guest takes no identity with it. */
  lemma PruneKeepsIdentities(db: Db, id: nat, cutoff: nat)
    requires OwnersDurable(db) && Prunable(db, id, cutoff)
    ensures DeleteUser(db, id).identities == db.identities
  {
    assert forall key :: key in db.identities ==> db.identities[key] != id;
  }

  lemma PruneKeepsInv(s: State, id: nat, cutoff: nat)
    requires Inv(s) && Prunable(s.db, id, cutoff) && !UserHeld(s, id)
    ensures Inv(s.(db := DeleteUser(s.db, id)))
  {
    PruneKeepsIdentities(s.db, id, cutoff);
    var next := s.(db := DeleteUser(s.db, id));
    forall u | u in next.sessions ensures SessionOk(next.db, next.nextUser, next.sessions[u]) {
      assert SessionOk(s.db, s.nextUser, s.sessions[u]);
    }
    forall u | u in next.answers ensures AnswerOk(next.db, next.answers[u]) {
      assert AnswerOk(s.db, s.answers[u]);
    }
    hide Apart;
  }

  lemma AdvanceKeepsInv(s: State, t: nat)
    requires Inv(s) && t in s.sessions
    ensures Inv(AdvanceSession(s, t))
  {
    var me := s.sessions[t];
    assert SessionOk(s.db, s.nextUser, me);
    match me.stage
    case Start => StartKeepsInv(s, t);
    case Trying(n) => TryingKeepsInv(s, t, n);
    case Owning(n) => OwningKeepsInv(s, t, n, KeyOf(me.request).value);
    case Rechecking(n) => RecheckingKeepsInv(s, t, n, KeyOf(me.request).value);
    case Disputed => DisputedKeepsInv(s, t);
    case Missed => FinishKeepsInv(s, t, AdvanceSession(s, t).answers[t].reply);
    case Bound => CommitKeepsInv(s, t);
  }

  lemma NextKeepsInv(s: State, event: Event)
    requires Inv(s)
    ensures Inv(Next(s, event))
  {
    match event
    case Begin(t, request, now) =>
      if !(t in s.sessions || t in s.answers || !ValidRequest(request)) {
        EmptyHandedMoves(s, t, Session(request, now, Start, None, false));
      }
    case Advance(t) =>
      if t in s.sessions { AdvanceKeepsInv(s, t); }
    case Abort(t) =>
      hide SessionOk, AnswerOk, OwnersDurable, RowsUnique, Apart;
    case Play(user) =>
    case Prune(user, cutoff) =>
      if Prunable(s.db, user, cutoff) && !UserHeld(s, user) { PruneKeepsInv(s, user, cutoff); }
  }

  lemma {:induction false} RunKeepsInv(events: seq<Event>)
    ensures Inv(Run(events))
  {
    if events != [] {
      RunKeepsInv(events[..|events| - 1]);
      NextKeepsInv(Run(events[..|events| - 1]), events[|events| - 1]);
    }
  }
}
