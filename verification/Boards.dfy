/**
  The boards the ranked queries read, taken from the score table that the interleaved
  submissions leave: every stored score can be looked up and is where the listing shows it.
 */
module Boards {
  import opened Wrappers
  import opened Periods
  import opened Scores
  import opened Ranking
  import opened Submissions
  import opened SubmissionLaws
  import opened Interleaving
  import opened LedgerSafety

  /** The primary keys the scores table gave its rows. */
  type Ids = Key -> nat

  /** The `WHERE` of the ranked queries. */
  datatype Window = Window(mode: string, period: Period, start: Instant)

  function KeyIn(w: Window, user: nat): Key {
    Key(user, w.mode, w.period, w.start)
  }

  function StandingOf(table: Table, ids: Ids, k: Key): Standing
    requires k in table
  {
    Standing(ids(k), k.user, table[k].score, table[k].submittedAt)
  }

  /** The rows the queries select, each once, in whatever order the database keeps them. */
  ghost predicate Selects(table: Table, ids: Ids, w: Window, board: seq<Standing>) {
    && (forall user: nat :: KeyIn(w, user) in table ==> StandingOf(table, ids, KeyIn(w, user)) in board)
    && (forall i :: 0 <= i < |board| ==>
          KeyIn(w, board[i].user) in table && board[i] == StandingOf(table, ids, KeyIn(w, board[i].user)))
    && (forall i, j :: 0 <= i < j < |board| ==> board[i] != board[j])
  }

  ghost predicate Primary(table: Table, ids: Ids) {
    forall a, b :: a in table && b in table && ids(a) == ids(b) ==> a == b
  }

  /** Every window of every table has such a board. */
  lemma SomeBoard(table: Table, ids: Ids, w: Window) returns (board: seq<Standing>)
    ensures Selects(table, ids, w, board)
  {
    var left := set k | k in table && k == KeyIn(w, k.user) :: k.user;
    board := [];
    while left != {}
      invariant forall user :: user in left ==> KeyIn(w, user) in table
      invariant forall user: nat :: KeyIn(w, user) in table ==>
                  user in left || StandingOf(table, ids, KeyIn(w, user)) in board
      invariant forall i :: 0 <= i < |board| ==>
                  && board[i].user !in left && KeyIn(w, board[i].user) in table
                  && board[i] == StandingOf(table, ids, KeyIn(w, board[i].user))
      invariant forall i, j :: 0 <= i < j < |board| ==> board[i] != board[j]
      decreases |left|
    {
      var user :| user in left;
      board := board + [StandingOf(table, ids, KeyIn(w, user))];
      left := left - {user};
    }
  }

  /** What the ranking theorems ask of a board holds of every window of every table. */
  lemma SelectedIsValid(table: Table, ids: Ids, w: Window, board: seq<Standing>)
    requires Primary(table, ids) && Selects(table, ids, w, board)
    ensures ValidBoard(board)
  {
    forall i, j | 0 <= i < j < |board| ensures board[i].id != board[j].id && board[i].user != board[j].user {
      assert board[i] == StandingOf(table, ids, KeyIn(w, board[i].user));
      assert board[j] == StandingOf(table, ids, KeyIn(w, board[j].user));
    }
  }

  /** The single-player lookup finds exactly the players with a row, and shows that row at its listed place. */
  lemma LookupExact(table: Table, ids: Ids, w: Window, order: Order, board: seq<Standing>, user: nat)
    requires Primary(table, ids) && Selects(table, ids, w, board)
    ensures ValidBoard(board) && |Listing(order, board)| == |board|
    ensures var found := FetchRanked(order, board, user);
            && (found.Some? <==> KeyIn(w, user) in table)
            && (found.Some? ==>
                  && found.value.row == StandingOf(table, ids, KeyIn(w, user))
                  && found.value.total == |board| && 1 <= found.value.rank <= |board|
                  && Listing(order, board)[found.value.rank - 1] == found.value.row)
  {
    hide Rank, Listing, Before;
    SelectedIsValid(table, ids, w, board);
    ListingOrdered(order, board);
    if KeyIn(w, user) in table {
      var row := StandingOf(table, ids, KeyIn(w, user));
      RowOfUserExact(board, row);
      assert row in multiset(Listing(order, board));
      var i :| 0 <= i < |board| && Listing(order, board)[i] == row;
      RankIsPosition(order, board, i);
    } else {
      NoRowOfUser(board, user);
    }
  }

  lemma {:induction false} NoRowOfUser(board: seq<Standing>, user: nat)
    requires forall i :: 0 <= i < |board| ==> board[i].user != user
    ensures RowOfUser(board, user) == None
  {
    if board != [] { NoRowOfUser(board[1..], user); }
  }

  // ------------------------------------------------------ the answers' lookups

  function AllTimeOf(mode: string): Window {
    Window(mode, AllTime, SENTINEL)
  }

  lemma {:induction false} UnderIsOwn(cfg: Config, jobs: seq<Job>, request: Request)
    requires TicketOf(cfg, request) != NoTicket
    ensures forall sub :: sub in AppliedUnder(cfg, jobs, TicketOf(cfg, request)) ==>
              sub.user == request.user && sub.mode == request.mode
  {
    if jobs != [] {
      UnderIsOwn(cfg, jobs[..|jobs| - 1], request);
      hide ServeAll, Writes, Verdict;
    }
  }

  /** A success answered to any request leaves its player a row in the mode's all-time window. */
  lemma StoredHasRow(cfg: Config, events: seq<Event>, t: nat)
    requires t in Run(cfg, events).answers && Run(cfg, events).answers[t].reply == Stored
    ensures var r := Run(cfg, events).answers[t].job.request;
            KeyIn(AllTimeOf(r.mode), r.user) in Run(cfg, events).db.scores
  {
    hide *;
    var job := Run(cfg, events).answers[t].job;
    AnswersAreTrue(cfg, events, t);
    StoredSubmission(cfg, events, job);
    var sub :| sub in AcceptedIn(cfg, events) && sub.user == job.request.user && sub.mode == job.request.mode;
    TableIsSettled(cfg, events);
    AppliedHasRow(Book(cfg), AcceptedIn(cfg, events), sub, AllTime);
    AllTimeKey(sub);
  }

  lemma AllTimeKey(sub: Submission)
    ensures KeyOf(sub, AllTime) == KeyIn(AllTimeOf(sub.mode), sub.user)
  {
  }

  lemma StoredSubmission(cfg: Config, events: seq<Event>, job: Job)
    requires var ticket := TicketOf(cfg, job.request);
             if ticket == NoTicket then SubmissionOf(cfg, job) in AcceptedIn(cfg, events)
             else |AcceptedUnder(cfg, events, ticket)| == 1
    ensures exists sub :: sub in AcceptedIn(cfg, events) && sub.user == job.request.user && sub.mode == job.request.mode
  {
    var ticket, history := TicketOf(cfg, job.request), Run(cfg, events).history;
    if ticket == NoTicket {
      assert SubmissionOf(cfg, job).user == job.request.user && SubmissionOf(cfg, job).mode == job.request.mode;
    } else {
      UnderIsApplied(cfg, history, ticket);
      UnderIsOwn(cfg, history, job.request);
      assert AcceptedUnder(cfg, events, ticket)[0] in AcceptedIn(cfg, events);
    }
    hide TicketOf, Applied, AppliedUnder, Run;
  }

  /**
    The lookup behind an answer of success never misses, over every interleaving: it shows the
    player's all-time row, ranked where the listing has it.
   */
  lemma StoredIsRanked(cfg: Config, events: seq<Event>, t: nat, ids: Ids, board: seq<Standing>)
    requires t in Run(cfg, events).answers && Run(cfg, events).answers[t].reply == Stored
    requires var table, mode := Run(cfg, events).db.scores, Run(cfg, events).answers[t].job.request.mode;
             Primary(table, ids) && Selects(table, ids, AllTimeOf(mode), board)
    ensures var r := Run(cfg, events).answers[t].job.request;
            var order := Book(cfg)(r.mode).order;
            var found := FetchRanked(order, board, r.user);
            && found.Some? && 1 <= found.value.rank <= |Listing(order, board)|
            && Listing(order, board)[found.value.rank - 1] == found.value.row
            && KeyIn(AllTimeOf(r.mode), r.user) in Run(cfg, events).db.scores
            && found.value.row.score == Run(cfg, events).db.scores[KeyIn(AllTimeOf(r.mode), r.user)].score
  {
    hide *;
    StoredHasRow(cfg, events, t);
    var r := Run(cfg, events).answers[t].job.request;
    var table := Run(cfg, events).db.scores;
    LookupExact(table, ids, AllTimeOf(r.mode), Book(cfg)(r.mode).order, board, r.user);
    StandingScore(table, ids, KeyIn(AllTimeOf(r.mode), r.user));
  }

  lemma StandingScore(table: Table, ids: Ids, k: Key)
    requires k in table
    ensures StandingOf(table, ids, k).score == table[k].score
  {
  }
}
