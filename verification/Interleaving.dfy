/**
  `submit_score` and `submit_run` statement by statement, with any number of
  transactions in flight. Each statement sees what is committed; an inserted key or an
  upserted row stays locked until its transaction ends, and a transaction may be cut off
  between any two statements.
 */
module Interleaving {
  import opened Periods
  import opened Scores
  import opened Validation
  import opened Submissions

  /** Begun; checked (and looked up); holding its marker or run row; upserting; or recording a denied run. */
  datatype Phase = Begun | Checked | Claimed | Writing | Denying

  /** `rows` are the uncommitted upserts, for the first `|rows|` windows. */
  datatype Txn = Txn(job: Job, phase: Phase, rows: seq<Row>)

  datatype Answer = Answer(job: Job, reply: Reply)

  /** `history` lists the jobs that committed a write, in commit order. */
  datatype State = State(
    db: Db, txns: map<nat, Txn>, answers: map<nat, Answer>, history: seq<Job>, nextRun: nat)

  datatype Event =
    | Begin(txn: nat, request: Request, now: Instant, stamp: Instant)
    | Advance(txn: nat)
    | Abort(txn: nat)

  const INITIAL := State(EMPTY_DB, map[], map[], [], 1)

  /** The transaction holds its marker or run row. */
  predicate Holds(txn: Txn) {
    txn.phase == Claimed || txn.phase == Writing || txn.phase == Denying
  }

  function HeldTicket(cfg: Config, txn: Txn): Ticket {
    if Holds(txn) then TicketOf(cfg, txn.job.request) else NoTicket
  }

  function Position(period: Period): nat {
    match period
    case AllTime => 0
    case Daily => 1
    case Weekly => 2
  }

  /** The row an upsert of the transaction's `k`-th window touches. */
  function RowKey(job: Job, period: Period): Key {
    Key(job.request.user, job.request.mode, period, PeriodStart(period, job.now))
  }

  predicate Locks(txn: Txn, k: Key) {
    Position(k.period) < |txn.rows| && k == RowKey(txn.job, k.period)
  }

  predicate TicketHeld(cfg: Config, s: State, ticket: Ticket) {
    ticket != NoTicket && exists u :: u in s.txns && HeldTicket(cfg, s.txns[u]) == ticket
  }

  predicate RowLocked(s: State, k: Key) {
    exists u :: u in s.txns && Locks(s.txns[u], k)
  }

  function Finish(s: State, t: nat, reply: Reply): State
    requires t in s.txns
  {
    s.(txns := s.txns - {t}, answers := s.answers[t := Answer(s.txns[t].job, reply)])
  }

  /** The answer to a request whose ticket is taken. */
  function Repeat(cfg: Config, db: Db, request: Request): Reply {
    var ticket := TicketOf(cfg, request);
    if ticket.ByRun? && ticket.key in db.runs then Prior(db.runs[ticket.key].status) else Stored
  }

  function AdvanceBegun(cfg: Config, s: State, t: nat): State
    requires t in s.txns
  {
    var txn := s.txns[t];
    var refusal := RefusalOf(cfg, txn.job.request);
    if refusal.Some? then Finish(s, t, Refused(refusal.value))
    else if txn.job.request.PostRun? && Taken(s.db, TicketOf(cfg, txn.job.request)) then
      Finish(s, t, Repeat(cfg, s.db, txn.job.request))
    else s.(txns := s.txns[t := txn.(phase := Checked)])
  }

  /**
    The insert of the marker or the pending run: it waits while another transaction holds
    the key; a committed key makes a marker insert a no-op and a run insert fail, and both
    then answer from what is committed.
   */
  function AdvanceChecked(cfg: Config, s: State, t: nat): State
    requires t in s.txns
  {
    var txn := s.txns[t];
    var ticket := TicketOf(cfg, txn.job.request);
    if TicketHeld(cfg, s, ticket) then s
    else if Taken(s.db, ticket) then Finish(s, t, Repeat(cfg, s.db, txn.job.request))
    else if txn.job.request.PostRun? then
      s.(txns := s.txns[t := txn.(phase := Claimed, job := txn.job.(runId := s.nextRun))], nextRun := s.nextRun + 1)
    else s.(txns := s.txns[t := txn.(phase := Claimed)])
  }

  /** Validation of a claimed run; a raw score goes straight on. */
  function AdvanceClaimed(cfg: Config, s: State, t: nat): State
    requires t in s.txns
  {
    var txn := s.txns[t];
    s.(txns := s.txns[t := txn.(phase := if Unfit(cfg, txn.job) then Denying else Writing)])
  }

  /** One row upsert; it waits while another transaction locks the row. */
  function AdvanceWriting(cfg: Config, s: State, t: nat): State
    requires t in s.txns && |s.txns[t].rows| < |PERIODS|
  {
    var txn := s.txns[t];
    var key := RowKey(txn.job, PERIODS[|txn.rows|]);
    if RowLocked(s, key) then s
    else
      var row := UpsertRow(ModeOf(cfg, key.mode).rules, Lookup(s.db.scores, key), SubmissionOf(cfg, txn.job));
      s.(txns := s.txns[t := txn.(rows := txn.rows + [row])])
  }

  /** The table with a transaction's first `n` rows put in. */
  function PutRows(table: Table, txn: Txn, n: nat): Table
    requires n <= |txn.rows| && n <= |PERIODS|
  {
    if n == 0 then table
    else PutRows(table, txn, n - 1)[RowKey(txn.job, PERIODS[n - 1]) := txn.rows[n - 1]]
  }

  /** What a commit makes of the tables. */
  function CommitDb(cfg: Config, db: Db, txn: Txn): Db
    requires |txn.rows| <= |PERIODS|
  {
    Db(PutRows(db.scores, txn, |txn.rows|), Mark(db, TicketOf(cfg, txn.job.request)), RecordRun(cfg, db, txn.job))
  }

  function Commit(cfg: Config, s: State, t: nat): State
    requires t in s.txns && |s.txns[t].rows| <= |PERIODS|
  {
    var txn := s.txns[t];
    var done := Finish(s, t, if txn.phase == Denying then Refused(RunDenied) else Stored);
    done.(db := CommitDb(cfg, s.db, txn), history := s.history + [txn.job])
  }

  function AdvanceTxn(cfg: Config, s: State, t: nat): State
    requires t in s.txns
  {
    var txn := s.txns[t];
    match txn.phase
    case Begun => AdvanceBegun(cfg, s, t)
    case Checked => AdvanceChecked(cfg, s, t)
    case Claimed => AdvanceClaimed(cfg, s, t)
    case Writing =>
      if |txn.rows| < |PERIODS| then AdvanceWriting(cfg, s, t)
      else if |txn.rows| == |PERIODS| then Commit(cfg, s, t) else s
    case Denying => if txn.rows == [] then Commit(cfg, s, t) else s
  }

  /** One step; a step that cannot be taken now leaves the state as it is. */
  function Next(cfg: Config, s: State, event: Event): State {
    match event
    case Begin(t, request, now, stamp) =>
      if t in s.txns || t in s.answers then s
      else s.(txns := s.txns[t := Txn(Job(request, now, stamp, 0), Begun, [])])
    case Advance(t) => if t in s.txns then AdvanceTxn(cfg, s, t) else s
    case Abort(t) => s.(txns := s.txns - {t})
  }

  /** The state after any sequence of steps. */
  function Run(cfg: Config, events: seq<Event>): State {
    if events == [] then INITIAL else Next(cfg, Run(cfg, events[..|events| - 1]), events[|events| - 1])
  }

  // ----------------------------------------------------------- the invariant

  /** A row in flight is what the upsert of the committed row gives. */
  ghost predicate RowCurrent(cfg: Config, db: Db, txn: Txn, i: nat)
    requires i < |txn.rows| && i < |PERIODS|
  {
    var key := RowKey(txn.job, PERIODS[i]);
    txn.rows[i] == UpsertRow(ModeOf(cfg, key.mode).rules, Lookup(db.scores, key), SubmissionOf(cfg, txn.job))
  }

  ghost predicate TxnOk(cfg: Config, db: Db, txn: Txn) {
    && |txn.rows| <= |PERIODS|
    && (txn.rows != [] ==> txn.phase == Writing)
    && (txn.phase != Begun ==> RefusalOf(cfg, txn.job.request).None?)
    && !Taken(db, HeldTicket(cfg, txn))
    && (txn.phase == Writing ==> !Unfit(cfg, txn.job))
    && (txn.phase == Denying ==> Unfit(cfg, txn.job))
    && (forall i: nat {:trigger RowCurrent(cfg, db, txn, i)} :: i < |txn.rows| ==> RowCurrent(cfg, db, txn, i))
  }

  /** Two transactions hold no common ticket and no common row. */
  ghost predicate Apart(cfg: Config, a: Txn, b: Txn) {
    && (HeldTicket(cfg, a) == NoTicket || HeldTicket(cfg, a) != HeldTicket(cfg, b))
    && forall k :: !(Locks(a, k) && Locks(b, k))
  }

  /** What an answer given earlier says is still so. */
  ghost predicate AnswerOk(cfg: Config, db: Db, answer: Answer) {
    var ticket := TicketOf(cfg, answer.job.request);
    match answer.reply
    case Stored =>
      ticket == NoTicket || (Taken(db, ticket) && (ticket.ByRun? ==> db.runs[ticket.key].status == Accepted))
    case Refused(why) => why == RunDenied ==> ticket.ByRun? && Taken(db, ticket) && db.runs[ticket.key].status == Denied
    case Prior(status) => ticket.ByRun? && Taken(db, ticket) && db.runs[ticket.key].status == status != Pending
  }

  ghost predicate Serialized(cfg: Config, s: State) {
    s.db == ServeAll(cfg, s.history)
  }

  ghost predicate TxnsOk(cfg: Config, s: State) {
    forall t :: t in s.txns ==> TxnOk(cfg, s.db, s.txns[t])
  }

  ghost predicate TxnsApart(cfg: Config, s: State) {
    forall t, u :: t in s.txns && u in s.txns && t != u ==> Apart(cfg, s.txns[t], s.txns[u])
  }

  ghost predicate AnswersOk(cfg: Config, s: State) {
    forall t :: t in s.answers ==> AnswerOk(cfg, s.db, s.answers[t])
  }

  ghost predicate NonePending(db: Db) {
    forall k :: k in db.runs ==> db.runs[k].status != Pending
  }

  ghost predicate Inv(cfg: Config, s: State) {
    Serialized(cfg, s) && TxnsOk(cfg, s) && TxnsApart(cfg, s) && AnswersOk(cfg, s) && NonePending(s.db)
  }

  // ------------------------------------------------- commit is the whole request

  /** Upserts of other windows leave a row alone. */
  lemma {:induction false} WrittenKeeps(rules: Rules, table: Table, sub: Submission, n: nat, k: Key)
    requires n <= |PERIODS|
    requires Position(k.period) >= n
    ensures Lookup(Written(rules, table, sub, n), k) == Lookup(table, k)
  {
    if n > 0 { WrittenKeeps(rules, table, sub, n - 1, k); }
  }

  lemma {:induction false} PutRowsIsWritten(cfg: Config, db: Db, txn: Txn, n: nat)
    requires n <= |txn.rows| <= |PERIODS|
    requires forall i: nat {:trigger RowCurrent(cfg, db, txn, i)} :: i < |txn.rows| ==> RowCurrent(cfg, db, txn, i)
    ensures PutRows(db.scores, txn, n)
            == Written(ModeOf(cfg, txn.job.request.mode).rules, db.scores, SubmissionOf(cfg, txn.job), n)
  {
    if n > 0 {
      PutRowsIsWritten(cfg, db, txn, n - 1);
      var rules, sub := ModeOf(cfg, txn.job.request.mode).rules, SubmissionOf(cfg, txn.job);
      var key := RowKey(txn.job, PERIODS[n - 1]);
      assert key == KeyOf(sub, PERIODS[n - 1]);
      WrittenKeeps(rules, db.scores, sub, n - 1, key);
      assert RowCurrent(cfg, db, txn, n - 1);
    }
  }

  /** Committing an interleaved transaction does to the tables what the whole request would do alone. */
  lemma CommitServes(cfg: Config, db: Db, txn: Txn)
    requires TxnOk(cfg, db, txn)
    requires (txn.phase == Writing && |txn.rows| == |PERIODS|) || txn.phase == Denying
    ensures CommitDb(cfg, db, txn) == Serve(cfg, db, txn.job).db
  {
    PutRowsIsWritten(cfg, db, txn, |txn.rows|);
    assert HeldTicket(cfg, txn) == TicketOf(cfg, txn.job.request);
    hide PutRows, Written, SubmissionOf, Verdict;
  }

  // ----------------------------------------------------- steps keep the invariant

  lemma ApartSymmetric(cfg: Config, a: Txn, b: Txn)
    requires Apart(cfg, a, b)
    ensures Apart(cfg, b, a)
  {
  }

  /** A transaction that moves on without committing. */
  lemma MoveKeepsInv(cfg: Config, s: State, t: nat, txn: Txn, next: State)
    requires Inv(cfg, s) && TxnOk(cfg, s.db, txn)
    requires forall u :: u in s.txns && u != t ==> Apart(cfg, txn, s.txns[u])
    requires next == s.(txns := s.txns[t := txn], nextRun := next.nextRun)
    ensures Inv(cfg, next)
  {
    forall u, v | u in next.txns && v in next.txns && u != v ensures Apart(cfg, next.txns[u], next.txns[v]) {
      if v == t { ApartSymmetric(cfg, txn, s.txns[u]); }
    }
    hide TxnOk, Apart, AnswerOk, Serialized, NonePending;
  }

  /** A transaction that ends with an answer and no write. */
  lemma FinishKeepsInv(cfg: Config, s: State, t: nat, reply: Reply)
    requires Inv(cfg, s) && t in s.txns
    requires AnswerOk(cfg, s.db, Answer(s.txns[t].job, reply))
    ensures Inv(cfg, Finish(s, t, reply))
  {
    var next := Finish(s, t, reply);
    assert Serialized(cfg, next) && NonePending(next.db);
    hide TxnOk, Apart, AnswerOk, Serialized, NonePending;
  }

  /** A transaction that holds nothing is apart from every other. */
  lemma EmptyHandedApart(cfg: Config, a: Txn, b: Txn)
    requires HeldTicket(cfg, a) == NoTicket && a.rows == []
    ensures Apart(cfg, a, b)
  {
  }

  lemma BegunKeepsInv(cfg: Config, s: State, t: nat)
    requires Inv(cfg, s) && t in s.txns && s.txns[t].phase == Begun
    ensures Inv(cfg, AdvanceBegun(cfg, s, t))
  {
    var txn := s.txns[t];
    assert TxnOk(cfg, s.db, txn);
    var refusal := RefusalOf(cfg, txn.job.request);
    var ticket := TicketOf(cfg, txn.job.request);
    if refusal.Some? {
      FinishKeepsInv(cfg, s, t, Refused(refusal.value));
    } else if txn.job.request.PostRun? && Taken(s.db, ticket) {
      FinishKeepsInv(cfg, s, t, Repeat(cfg, s.db, txn.job.request));
    } else {
      var moved := txn.(phase := Checked);
      forall u | u in s.txns && u != t ensures Apart(cfg, moved, s.txns[u]) {
        EmptyHandedApart(cfg, moved, s.txns[u]);
      }
      MoveKeepsInv(cfg, s, t, moved, AdvanceBegun(cfg, s, t));
    }
  }

  lemma CheckedKeepsInv(cfg: Config, s: State, t: nat)
    requires Inv(cfg, s) && t in s.txns && s.txns[t].phase == Checked
    ensures Inv(cfg, AdvanceChecked(cfg, s, t))
  {
    var txn := s.txns[t];
    assert TxnOk(cfg, s.db, txn);
    var ticket := TicketOf(cfg, txn.job.request);
    if TicketHeld(cfg, s, ticket) {
    } else if Taken(s.db, ticket) {
      FinishKeepsInv(cfg, s, t, Repeat(cfg, s.db, txn.job.request));
    } else {
      var next := AdvanceChecked(cfg, s, t);
      var moved := next.txns[t];
      assert HeldTicket(cfg, moved) == ticket;
      forall u | u in s.txns && u != t ensures Apart(cfg, moved, s.txns[u]) {
        assert ticket == NoTicket || HeldTicket(cfg, s.txns[u]) != ticket;
      }
      MoveKeepsInv(cfg, s, t, moved, next);
    }
  }

  /** Moving on with the same job and the same locks keeps a transaction apart. */
  lemma SameLocksApart(cfg: Config, a: Txn, moved: Txn, b: Txn)
    requires Apart(cfg, a, b)
    requires moved.job == a.job && moved.rows == a.rows && Holds(moved) && Holds(a)
    ensures Apart(cfg, moved, b)
  {
    forall k ensures !(Locks(moved, k) && Locks(b, k)) {
      assert !(Locks(a, k) && Locks(b, k));
    }
  }

  lemma ClaimedKeepsInv(cfg: Config, s: State, t: nat)
    requires Inv(cfg, s) && t in s.txns && s.txns[t].phase == Claimed
    ensures Inv(cfg, AdvanceClaimed(cfg, s, t))
  {
    var txn, next := s.txns[t], AdvanceClaimed(cfg, s, t);
    assert TxnOk(cfg, s.db, txn);
    forall u | u in s.txns && u != t ensures Apart(cfg, next.txns[t], s.txns[u]) {
      SameLocksApart(cfg, txn, next.txns[t], s.txns[u]);
    }
    MoveKeepsInv(cfg, s, t, next.txns[t], next);
  }

  lemma WritingKeepsInv(cfg: Config, s: State, t: nat)
    requires Inv(cfg, s) && t in s.txns && s.txns[t].phase == Writing && |s.txns[t].rows| < |PERIODS|
    ensures Inv(cfg, AdvanceWriting(cfg, s, t))
  {
    var txn := s.txns[t];
    assert TxnOk(cfg, s.db, txn);
    var n := |txn.rows|;
    var key := RowKey(txn.job, PERIODS[n]);
    if !RowLocked(s, key) {
      var next := AdvanceWriting(cfg, s, t);
      var moved := next.txns[t];
      forall i: nat | i < |moved.rows| ensures RowCurrent(cfg, s.db, moved, i) {
        if i < n { assert RowCurrent(cfg, s.db, txn, i); }
      }
      forall u | u in s.txns && u != t ensures Apart(cfg, moved, s.txns[u]) {
        assert Apart(cfg, txn, s.txns[u]) && !Locks(s.txns[u], key);
        forall k ensures !(Locks(moved, k) && Locks(s.txns[u], k)) {
          assert Locks(moved, k) ==> Locks(txn, k) || k == key;
        }
      }
      MoveKeepsInv(cfg, s, t, moved, next);
    }
  }

  // ------------------------------------------------------------------ commit

  /** A commit changes the rows its transaction locks and no others. */
  lemma {:induction false} PutRowsKeeps(table: Table, txn: Txn, n: nat, k: Key)
    requires n <= |txn.rows| && n <= |PERIODS| && !Locks(txn, k)
    ensures Lookup(PutRows(table, txn, n), k) == Lookup(table, k)
  {
    if n > 0 { PutRowsKeeps(table, txn, n - 1, k); }
  }

  /** Another transaction's rows and ticket survive a commit. */
  lemma CommitKeepsOther(cfg: Config, db: Db, txn: Txn, other: Txn)
    requires TxnOk(cfg, db, txn) && TxnOk(cfg, db, other) && Apart(cfg, txn, other)
    requires Holds(txn)
    ensures TxnOk(cfg, CommitDb(cfg, db, txn), other)
  {
    var next := CommitDb(cfg, db, txn);
    forall i: nat | i < |other.rows| ensures RowCurrent(cfg, next, other, i) {
      var key := RowKey(other.job, PERIODS[i]);
      assert RowCurrent(cfg, db, other, i);
      assert Locks(other, key);
      PutRowsKeeps(db.scores, txn, |txn.rows|, key);
    }
    hide PutRows, RunOutcome, RefusalOf, Verdict, SubmissionOf;
  }

  /** Recorded markers and runs are never taken back. */
  lemma CommitKeepsAnswer(cfg: Config, db: Db, txn: Txn, answer: Answer)
    requires TxnOk(cfg, db, txn) && Holds(txn) && AnswerOk(cfg, db, answer)
    ensures AnswerOk(cfg, CommitDb(cfg, db, txn), answer)
  {
    hide PutRows, RunOutcome, RefusalOf, Verdict, SubmissionOf;
  }

  lemma CommitAnswers(cfg: Config, db: Db, txn: Txn)
    requires TxnOk(cfg, db, txn) && (txn.phase == Writing || txn.phase == Denying)
    ensures AnswerOk(cfg, CommitDb(cfg, db, txn),
                     Answer(txn.job, if txn.phase == Denying then Refused(RunDenied) else Stored))
    ensures NonePending(db) ==> NonePending(CommitDb(cfg, db, txn))
  {
    hide PutRows, RefusalOf, SubmissionOf, Validate;
  }

  lemma CommitKeepsInv(cfg: Config, s: State, t: nat)
    requires Inv(cfg, s) && t in s.txns
    requires var txn := s.txns[t]; (txn.phase == Writing && |txn.rows| == |PERIODS|) || txn.phase == Denying
    ensures |s.txns[t].rows| <= |PERIODS| && Inv(cfg, Commit(cfg, s, t))
  {
    var txn := s.txns[t];
    assert TxnOk(cfg, s.db, txn);
    var next := Commit(cfg, s, t);
    CommitServes(cfg, s.db, txn);
    assert next.history[..|next.history| - 1] == s.history;
    assert Serialized(cfg, next);
    CommitAnswers(cfg, s.db, txn);
    forall u | u in next.txns ensures TxnOk(cfg, next.db, next.txns[u]) {
      CommitKeepsOther(cfg, s.db, txn, s.txns[u]);
    }
    forall u | u in next.answers ensures AnswerOk(cfg, next.db, next.answers[u]) {
      if u != t { CommitKeepsAnswer(cfg, s.db, txn, s.answers[u]); }
    }
    hide TxnOk, Apart, AnswerOk, Serialized, NonePending, CommitDb;
  }

  // ---------------------------------------------------------------- every run

  lemma AdvanceKeepsInv(cfg: Config, s: State, t: nat)
    requires Inv(cfg, s) && t in s.txns
    ensures Inv(cfg, AdvanceTxn(cfg, s, t))
  {
    var txn := s.txns[t];
    assert TxnOk(cfg, s.db, txn);
    match txn.phase
    case Begun => BegunKeepsInv(cfg, s, t);
    case Checked => CheckedKeepsInv(cfg, s, t);
    case Claimed => ClaimedKeepsInv(cfg, s, t);
    case Writing =>
      if |txn.rows| < |PERIODS| { WritingKeepsInv(cfg, s, t); } else { CommitKeepsInv(cfg, s, t); }
    case Denying => CommitKeepsInv(cfg, s, t);
  }

  lemma NextKeepsInv(cfg: Config, s: State, event: Event)
    requires Inv(cfg, s)
    ensures Inv(cfg, Next(cfg, s, event))
  {
    match event
    case Begin(t, request, now, stamp) =>
      if t !in s.txns && t !in s.answers {
        var txn := Txn(Job(request, now, stamp, 0), Begun, []);
        forall u | u in s.txns && u != t ensures Apart(cfg, txn, s.txns[u]) {
          EmptyHandedApart(cfg, txn, s.txns[u]);
        }
        MoveKeepsInv(cfg, s, t, txn, Next(cfg, s, event));
      }
    case Advance(t) =>
      if t in s.txns { AdvanceKeepsInv(cfg, s, t); }
    case Abort(t) =>
      hide TxnOk, Apart, AnswerOk, Serialized, NonePending;
  }

  /**
    Serializability: after any interleaving, with any aborts, the committed tables are those
    of the committed requests run one at a time in commit order.
   */
  lemma {:induction false} RunKeepsInv(cfg: Config, events: seq<Event>)
    ensures Inv(cfg, Run(cfg, events))
    ensures Run(cfg, events).db == ServeAll(cfg, Run(cfg, events).history)
  {
    if events != [] {
      RunKeepsInv(cfg, events[..|events| - 1]);
      NextKeepsInv(cfg, Run(cfg, events[..|events| - 1]), events[|events| - 1]);
    }
  }
}
