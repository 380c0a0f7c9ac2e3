/**
  Account creation, claiming, provider login, linking and pruning over the users and
  auth_identities tables (app/auth_identities.py, app/auth_routes.py,
  scripts/prune_guests.py), statement by statement with any number of sessions in
  flight. A session's uncommitted rows lock their keys until it commits, rolls back or
  is cut off.
 */
module Accounts {
  import opened Wrappers

  datatype User = User(username: string, email: Option<string>, isGuest: bool, created: nat)

  /** The unique key of auth_identities. */
  datatype IdentityKey = IdentityKey(provider: string, subject: string)

  /** `played` are the users with a score or a run. */
  datatype Db = Db(users: map<nat, User>, identities: map<IdentityKey, nat>, played: set<nat>)

  const NATIVE_AUTH_PROVIDER := "ubear"
  const TRIES := 5

  /** `names` are the usernames the retry loop will draw. */
  datatype Request =
    | CreateGuest(names: seq<string>)
    | Register(name: string, email: string)
    | Claim(user: nat, email: string)
    | Login(key: IdentityKey, names: seq<string>)
    | Link(user: nat, key: IdentityKey)

  datatype Reply = Done(user: nat) | NotFound | AlreadyClaimed | Conflict | GaveUp

  datatype Answer = Answer(request: Request, reply: Reply)

  /**
    Where a session stands: looking up first; at its users statement; at its identity
    statement; about to commit; looking up again after a lost race; reading the owner of
    an identity already linked; reading why a claim matched no row.
   */
  datatype Stage = Start | Trying(n: nat) | Owning(n: nat) | Bound | Rechecking(n: nat) | Disputed | Missed

  /** An uncommitted row of the users table. */
  datatype Pending = Pending(id: nat, row: User)

  datatype Session = Session(request: Request, now: nat, stage: Stage, user: Option<Pending>, ownsIdentity: bool)

  datatype State = State(db: Db, sessions: map<nat, Session>, answers: map<nat, Answer>, nextUser: nat)

  datatype Event =
    | Begin(session: nat, request: Request, now: nat)
    | Advance(session: nat)
    | Abort(session: nat)
    | Play(user: nat)
    | Prune(user: nat, cutoff: nat)

  const INITIAL := State(Db(map[], map[], {}), map[], map[], 1)

  predicate ValidRequest(request: Request) {
    request.CreateGuest? || request.Login? ==> |request.names| == TRIES
  }

  /** The identity a request is about. */
  function KeyOf(request: Request): Option<IdentityKey> {
    match request
    case CreateGuest(_) => None
    case Register(_, email) => Some(IdentityKey(NATIVE_AUTH_PROVIDER, email))
    case Claim(_, email) => Some(IdentityKey(NATIVE_AUTH_PROVIDER, email))
    case Login(key, _) => Some(key)
    case Link(_, key) => Some(key)
  }

  // -------------------------------------------------------- keys and locks

  predicate NameTaken(db: Db, name: string) {
    exists id :: id in db.users && db.users[id].username == name
  }

  predicate EmailTaken(db: Db, email: string) {
    exists id :: id in db.users && db.users[id].email == Some(email)
  }

  predicate NameHeld(s: State, name: string) {
    exists t :: t in s.sessions && s.sessions[t].user.Some? && s.sessions[t].user.value.row.username == name
  }

  predicate EmailHeld(s: State, email: string) {
    exists t :: t in s.sessions && s.sessions[t].user.Some? && s.sessions[t].user.value.row.email == Some(email)
  }

  predicate UserHeld(s: State, id: nat) {
    exists t :: t in s.sessions && s.sessions[t].user.Some? && s.sessions[t].user.value.id == id
  }

  predicate IdentityHeld(s: State, key: IdentityKey) {
    exists t :: t in s.sessions && s.sessions[t].ownsIdentity && KeyOf(s.sessions[t].request) == Some(key)
  }

  // -------------------------------------------------------------- statements

  function Move(s: State, t: nat, next: Session): State {
    s.(sessions := s.sessions[t := next])
  }

  /** The session ends with an answer; anything uncommitted is rolled back. */
  function Finish(s: State, t: nat, reply: Reply): State
    requires t in s.sessions
  {
    s.(sessions := s.sessions - {t}, answers := s.answers[t := Answer(s.sessions[t].request, reply)])
  }

  /** `find_user_by_auth_identity`. */
  function FindOwner(db: Db, key: IdentityKey): Option<nat> {
    if key in db.identities && db.identities[key] in db.users then Some(db.identities[key]) else None
  }

  function AdvanceStart(s: State, t: nat): State
    requires t in s.sessions
  {
    var me := s.sessions[t];
    match me.request
    case Login(key, _) =>
      var owner := FindOwner(s.db, key);
      if owner.Some? then Finish(s, t, Done(owner.value)) else Move(s, t, me.(stage := Trying(0)))
    case Claim(user, _) =>
      if user !in s.db.users then Finish(s, t, NotFound)
      else if !s.db.users[user].isGuest then Finish(s, t, AlreadyClaimed)
      else Move(s, t, me.(stage := Trying(0)))
    case _ => Move(s, t, me.(stage := Trying(0)))
  }

  /** An inserted users row takes the next id of the sequence. */
  function InsertUser(s: State, t: nat, row: User, stage: Stage): State
    requires t in s.sessions
  {
    Move(s, t, s.sessions[t].(stage := stage, user := Some(Pending(s.nextUser, row)))).(nextUser := s.nextUser + 1)
  }

  function UpdateUser(s: State, t: nat, id: nat, row: User, n: nat): State
    requires t in s.sessions
  {
    Move(s, t, s.sessions[t].(stage := Owning(n), user := Some(Pending(id, row))))
  }

  function AdvanceTrying(s: State, t: nat, n: nat): State
    requires t in s.sessions
  {
    var me := s.sessions[t];
    match me.request
    case CreateGuest(names) =>
      if n >= |names| then Finish(s, t, GaveUp)
      else if NameTaken(s.db, names[n]) then Move(s, t, me.(stage := Trying(n + 1)))
      else if NameHeld(s, names[n]) then s
      else InsertUser(s, t, User(names[n], None, true, me.now), Bound)
    case Login(_, names) =>
      if n >= |names| then Finish(s, t, GaveUp)
      else if NameTaken(s.db, names[n]) then Move(s, t, me.(stage := Trying(n + 1)))
      else if NameHeld(s, names[n]) then s
      else InsertUser(s, t, User(names[n], None, false, me.now), Owning(n))
    case Register(name, email) =>
      if NameTaken(s.db, name) || EmailTaken(s.db, email) then Finish(s, t, Conflict)
      else if NameHeld(s, name) || EmailHeld(s, email) then s
      else InsertUser(s, t, User(name, Some(email), false, me.now), Owning(n))
    case Claim(user, email) =>
      if user !in s.db.users || !s.db.users[user].isGuest then Move(s, t, me.(stage := Missed))
      else if UserHeld(s, user) then s
      else if EmailTaken(s.db, email) then Finish(s, t, Conflict)
      else if EmailHeld(s, email) then s
      else UpdateUser(s, t, user, s.db.users[user].(email := Some(email), isGuest := false), n)
    case Link(user, _) =>
      if user !in s.db.users then Finish(s, t, NotFound)
      else if UserHeld(s, user) then s
      else UpdateUser(s, t, user, s.db.users[user].(isGuest := false), n)
  }

  function AdvanceOwning(s: State, t: nat, n: nat, key: IdentityKey): State
    requires t in s.sessions
  {
    var me := s.sessions[t];
    if key in s.db.identities then
      match me.request
      case Login(_, _) => Move(s, t, me.(stage := Rechecking(n), user := None))
      case Link(_, _) => Move(s, t, me.(stage := Disputed))
      case _ => Finish(s, t, Conflict)
    else if IdentityHeld(s, key) then s
    else Move(s, t, me.(stage := Bound, ownsIdentity := true))
  }

  function AdvanceRechecking(s: State, t: nat, n: nat, key: IdentityKey): State
    requires t in s.sessions
  {
    var owner := FindOwner(s.db, key);
    if owner.Some? then Finish(s, t, Done(owner.value))
    else Move(s, t, s.sessions[t].(stage := Trying(n + 1)))
  }

  function AdvanceDisputed(s: State, t: nat, user: nat, key: IdentityKey): State
    requires t in s.sessions
  {
    if key in s.db.identities && s.db.identities[key] == user then Move(s, t, s.sessions[t].(stage := Bound))
    else Finish(s, t, Conflict)
  }

  /** What a session's commit makes of the tables. */
  function CommitDb(db: Db, me: Session): Db {
    if me.user.None? then db
    else
      var identities :=
        if me.ownsIdentity && KeyOf(me.request).Some? then db.identities[KeyOf(me.request).value := me.user.value.id]
        else db.identities;
      Db(db.users[me.user.value.id := me.user.value.row], identities, db.played)
  }

  function Commit(s: State, t: nat): State
    requires t in s.sessions && s.sessions[t].user.Some?
  {
    var me := s.sessions[t];
    Finish(s, t, Done(me.user.value.id)).(db := CommitDb(s.db, me))
  }

  function AdvanceSession(s: State, t: nat): State
    requires t in s.sessions
  {
    var me := s.sessions[t];
    var key := KeyOf(me.request);
    match me.stage
    case Start => AdvanceStart(s, t)
    case Trying(n) => AdvanceTrying(s, t, n)
    case Owning(n) => if key.Some? then AdvanceOwning(s, t, n, key.value) else s
    case Rechecking(n) => if key.Some? then AdvanceRechecking(s, t, n, key.value) else s
    case Disputed => if me.request.Link? then AdvanceDisputed(s, t, me.request.user, me.request.key) else s
    case Missed =>
      if me.request.Claim? && me.request.user !in s.db.users then Finish(s, t, NotFound)
      else Finish(s, t, AlreadyClaimed)
    case Bound => if me.user.Some? then Commit(s, t) else s
  }

  /** The prune predicate for one user. */
  predicate Prunable(db: Db, id: nat, cutoff: nat) {
    id in db.users && db.users[id].isGuest && db.users[id].created < cutoff && id !in db.played
  }

  /** Deleting a user takes its identities with it. */
  function DeleteUser(db: Db, id: nat): Db {
    Db(db.users - {id}, map key | key in db.identities && db.identities[key] != id :: db.identities[key], db.played)
  }

  /** One step; a step that cannot be taken now leaves the state as it is. */
  function Next(s: State, event: Event): State {
    match event
    case Begin(t, request, now) =>
      if t in s.sessions || t in s.answers || !ValidRequest(request) then s
      else Move(s, t, Session(request, now, Start, None, false))
    case Advance(t) => if t in s.sessions then AdvanceSession(s, t) else s
    case Abort(t) => s.(sessions := s.sessions - {t})
    case Play(user) => if user in s.db.users then s.(db := s.db.(played := s.db.played + {user})) else s
    case Prune(user, cutoff) =>
      if Prunable(s.db, user, cutoff) && !UserHeld(s, user) then s.(db := DeleteUser(s.db, user)) else s
  }

  /** The state after any sequence of steps. */
  function Run(events: seq<Event>): State {
    if events == [] then INITIAL else Next(Run(events[..|events| - 1]), events[|events| - 1])
  }

  // ------------------------------------------------------------ the invariant

  /** Every identity belongs to an existing user who is not a guest. */
  ghost predicate OwnersDurable(db: Db) {
    forall key :: key in db.identities ==>
      db.identities[key] in db.users && !db.users[db.identities[key]].isGuest
  }

  /** Two users' rows can stand in the table together. */
  predicate Compatible(a: User, b: User) {
    a.username != b.username && (a.email.Some? ==> a.email != b.email)
  }

  ghost predicate RowsUnique(db: Db) {
    forall a, b :: a in db.users && b in db.users && a != b ==> Compatible(db.users[a], db.users[b])
  }

  /** The row could be committed under `id` now. */
  ghost predicate Fits(db: Db, id: nat, row: User) {
    forall b :: b in db.users && b != id ==> Compatible(row, db.users[b]) && Compatible(db.users[b], row)
  }

  /** New rows are new users; a claim or link changes its own user, and the email of a guest only. */
  predicate PendingOk(db: Db, request: Request, pending: Pending) {
    if request.Claim? || request.Link? then
      && pending.id == request.user
      && (pending.id in db.users ==>
            && pending.row.username == db.users[pending.id].username
            && (pending.row.email == db.users[pending.id].email || db.users[pending.id].isGuest))
    else pending.id !in db.users
  }

  ghost predicate SessionOk(db: Db, nextUser: nat, me: Session) {
    && (me.user.Some? ==>
          && me.user.value.id < nextUser
          && Fits(db, me.user.value.id, me.user.value.row)
          && (me.user.value.row.isGuest ==> me.request.CreateGuest?)
          && PendingOk(db, me.request, me.user.value))
    && (me.user.Some? <==> me.stage.Owning? || me.stage.Bound? || me.stage.Disputed?)
    && (me.ownsIdentity ==> me.stage.Bound? && KeyOf(me.request).Some? && KeyOf(me.request).value !in db.identities)
    && (me.request.CreateGuest? ==> me.stage.Start? || me.stage.Trying? || me.stage.Bound?)
    && (me.stage.Rechecking? ==> me.request.Login? && me.request.key in db.identities)
    && (me.stage.Disputed? ==> me.request.Link? && me.request.key in db.identities)
    && (me.stage.Missed? ==> me.request.Claim?)
    && (me.stage.Bound? && KeyOf(me.request).Some? && !me.ownsIdentity ==>
          && KeyOf(me.request).value in db.identities
          && db.identities[KeyOf(me.request).value] == me.user.value.id)
  }

  /** Two sessions hold no common user, name, email or identity. */
  predicate Apart(a: Session, b: Session) {
    && (a.user.Some? && b.user.Some? ==>
          a.user.value.id != b.user.value.id && Compatible(a.user.value.row, b.user.value.row))
    && (a.ownsIdentity && b.ownsIdentity ==> KeyOf(a.request) != KeyOf(b.request))
  }

  /** A success answered earlier still names the owner of its identity. */
  predicate AnswerOk(db: Db, answer: Answer) {
    var key := KeyOf(answer.request);
    answer.reply.Done? && key.Some? ==> key.value in db.identities && db.identities[key.value] == answer.reply.user
  }

  ghost predicate SessionsOk(s: State) {
    forall t :: t in s.sessions ==> SessionOk(s.db, s.nextUser, s.sessions[t])
  }

  ghost predicate SessionsApart(s: State) {
    forall t, u :: t in s.sessions && u in s.sessions && t != u ==> Apart(s.sessions[t], s.sessions[u])
  }

  ghost predicate AnswersOk(s: State) {
    forall t :: t in s.answers ==> AnswerOk(s.db, s.answers[t])
  }

  ghost predicate IdsUsed(s: State) {
    forall id :: id in s.db.users ==> id < s.nextUser
  }

  ghost predicate Inv(s: State) {
    OwnersDurable(s.db) && RowsUnique(s.db) && IdsUsed(s) && SessionsOk(s) && SessionsApart(s) && AnswersOk(s)
  }
}
