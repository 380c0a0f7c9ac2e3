/**
  Ranked listings (`get_scores` and `_fetch_score_with_rank` of app/leaderboard_routes.py)
  over the rows of one mode and window.
 */
module Ranking {
  import opened Wrappers
  import opened Scores

  datatype Standing = Standing(id: nat, user: nat, score: int, submittedAt: nat)

  /** A returned row: its rank and the count of the whole board. */
  datatype Ranked = Ranked(row: Standing, rank: nat, total: nat)

  /** `ORDER BY score, submitted_at ASC, id ASC`. */
  predicate Before(order: Order, a: Standing, b: Standing) {
    Beats(order, a.score, b.score)
    || (a.score == b.score && (a.submittedAt < b.submittedAt || (a.submittedAt == b.submittedAt && a.id < b.id)))
  }

  /** `id` is the primary key, and a board has one row per user. */
  predicate ValidBoard(board: seq<Standing>) {
    forall i, j :: 0 <= i < j < |board| ==> board[i].id != board[j].id && board[i].user != board[j].user
  }

  function CountBefore(order: Order, rows: seq<Standing>, row: Standing): nat {
    if rows == [] then 0
    else CountBefore(order, rows[1..], row) + if Before(order, rows[0], row) then 1 else 0
  }

  /** `RANK() OVER (ORDER BY …)`. */
  function Rank(order: Order, board: seq<Standing>, row: Standing): nat {
    1 + CountBefore(order, board, row)
  }

  function Insert(order: Order, rows: seq<Standing>, row: Standing): seq<Standing> {
    if rows == [] || Before(order, row, rows[0]) then [row] + rows
    else [rows[0]] + Insert(order, rows[1..], row)
  }

  /** The board in listing order. */
  function Listing(order: Order, board: seq<Standing>): seq<Standing> {
    if board == [] then [] else Insert(order, Listing(order, board[1..]), board[0])
  }

  function Min(a: nat, b: nat): nat {
    if a <= b then a else b
  }

  function RankAll(order: Order, board: seq<Standing>, rows: seq<Standing>): seq<Ranked> {
    seq(|rows|, i requires 0 <= i < |rows| => Ranked(rows[i], Rank(order, board, rows[i]), |board|))
  }

  /** `LIMIT limit OFFSET offset` over the ranked listing. */
  function Page(order: Order, board: seq<Standing>, limit: nat, offset: nat): seq<Ranked> {
    var rows := Listing(order, board);
    var start := Min(offset, |rows|);
    RankAll(order, board, rows[start..Min(start + limit, |rows|)])
  }

  /** The count a page reports: from its rows, else from a second query, else 0. */
  function TotalCount(board: seq<Standing>, page: seq<Ranked>, offset: nat): nat {
    if page != [] then page[0].total else if offset > 0 then |board| else 0
  }

  function RowOfUser(board: seq<Standing>, user: nat): Option<Standing> {
    if board == [] then None else if board[0].user == user then Some(board[0]) else RowOfUser(board[1..], user)
  }

  /** `_fetch_score_with_rank`. */
  function FetchRanked(order: Order, board: seq<Standing>, user: nat): Option<Ranked> {
    var row := RowOfUser(board, user);
    if row.None? then None else Some(Ranked(row.value, Rank(order, board, row.value), |board|))
  }

  // ---------------------------------------------------------------- the order

  predicate Ordered(order: Order, rows: seq<Standing>) {
    forall i, j :: 0 <= i < j < |rows| ==> Before(order, rows[i], rows[j])
  }

  lemma {:induction false} InsertKeepsRows(order: Order, rows: seq<Standing>, row: Standing)
    ensures multiset(Insert(order, rows, row)) == multiset(rows) + multiset{row}
    ensures |Insert(order, rows, row)| == |rows| + 1
  {
    if rows != [] && !Before(order, row, rows[0]) {
      InsertKeepsRows(order, rows[1..], row);
      assert rows == [rows[0]] + rows[1..];
    }
  }

  lemma {:induction false} InsertOrdered(order: Order, rows: seq<Standing>, row: Standing)
    requires Ordered(order, rows)
    requires forall x :: x in rows ==> x.id != row.id
    ensures Ordered(order, Insert(order, rows, row))
  {
    if rows != [] && !Before(order, row, rows[0]) {
      var rest := Insert(order, rows[1..], row);
      InsertOrdered(order, rows[1..], row);
      InsertKeepsRows(order, rows[1..], row);
      forall j | 0 <= j < |rest| ensures Before(order, rows[0], rest[j]) {
        assert rest[j] in multiset(rows[1..]) + multiset{row};
      }
    }
  }

  /** The listing holds exactly the board's rows, strictly in order. */
  lemma {:induction false} ListingOrdered(order: Order, board: seq<Standing>)
    requires ValidBoard(board)
    ensures Ordered(order, Listing(order, board))
    ensures multiset(Listing(order, board)) == multiset(board) && |Listing(order, board)| == |board|
  {
    if board != [] {
      var rest := Listing(order, board[1..]);
      ListingOrdered(order, board[1..]);
      assert board == [board[0]] + board[1..];
      forall x | x in rest ensures x.id != board[0].id {
        assert x in multiset(board[1..]);
      }
      InsertOrdered(order, rest, board[0]);
      InsertKeepsRows(order, rest, board[0]);
    }
  }

  /** Ties are impossible, so the database has only one order to return. */
  lemma {:induction false} OrderIsUnique(order: Order, a: seq<Standing>, b: seq<Standing>)
    requires Ordered(order, a) && Ordered(order, b) && multiset(a) == multiset(b)
    ensures a == b
  {
    assert |multiset(a)| == |a| && |multiset(b)| == |b|;
    if a != [] {
      assert a[0] in multiset(b) && b[0] in multiset(a);
      assert a[0] == b[0];
      assert a == [a[0]] + a[1..] && b == [b[0]] + b[1..];
      assert multiset(a[1..]) == multiset(a) - multiset{a[0]};
      assert multiset(b[1..]) == multiset(b) - multiset{b[0]};
      OrderIsUnique(order, a[1..], b[1..]);
    }
  }

  // ----------------------------------------------------------------- the ranks

  lemma {:induction false} InsertCounts(order: Order, rows: seq<Standing>, row: Standing, e: Standing)
    ensures CountBefore(order, Insert(order, rows, row), e)
            == CountBefore(order, rows, e) + if Before(order, row, e) then 1 else 0
  {
    if rows == [] || Before(order, row, rows[0]) {
      assert ([row] + rows)[1..] == rows;
    } else {
      InsertCounts(order, rows[1..], row, e);
      assert ([rows[0]] + Insert(order, rows[1..], row))[1..] == Insert(order, rows[1..], row);
    }
  }

  lemma {:induction false} ListingCounts(order: Order, board: seq<Standing>, e: Standing)
    ensures CountBefore(order, Listing(order, board), e) == CountBefore(order, board, e)
  {
    if board != [] {
      ListingCounts(order, board[1..], e);
      InsertCounts(order, Listing(order, board[1..]), board[0], e);
    }
  }

  lemma {:induction false} CountIsPosition(order: Order, rows: seq<Standing>, i: nat)
    requires Ordered(order, rows) && i < |rows|
    ensures CountBefore(order, rows, rows[i]) == i
  {
    if i == 0 {
      NoneBefore(order, rows, rows[0]);
    } else {
      CountIsPosition(order, rows[1..], i - 1);
    }
  }

  lemma {:induction false} NoneBefore(order: Order, rows: seq<Standing>, e: Standing)
    requires forall x :: x in rows ==> !Before(order, x, e)
    ensures CountBefore(order, rows, e) == 0
  {
    if rows != [] { NoneBefore(order, rows[1..], e); }
  }

  /** The rank of the row listed at position `i` is `i + 1`. */
  lemma RankIsPosition(order: Order, board: seq<Standing>, i: nat)
    requires ValidBoard(board) && i < |Listing(order, board)|
    ensures Rank(order, board, Listing(order, board)[i]) == i + 1
  {
    ListingOrdered(order, board);
    ListingCounts(order, board, Listing(order, board)[i]);
    CountIsPosition(order, Listing(order, board), i);
  }

  predicate RankTaken(order: Order, board: seq<Standing>, r: int) {
    exists row :: row in board && Rank(order, board, row) == r
  }

  /** Ranks are a bijection from the rows onto 1..n. */
  lemma RanksAreBijective(order: Order, board: seq<Standing>)
    requires ValidBoard(board)
    ensures forall row :: row in board ==> 1 <= Rank(order, board, row) <= |board|
    ensures forall a, b :: a in board && b in board && Rank(order, board, a) == Rank(order, board, b) ==> a == b
    ensures forall r :: 1 <= r <= |board| ==> RankTaken(order, board, r)
  {
    ListingOrdered(order, board);
    var rows := Listing(order, board);
    forall i: nat | i < |rows| ensures Rank(order, board, rows[i]) == i + 1 && rows[i] in board {
      RankIsPosition(order, board, i);
      assert rows[i] in multiset(board);
    }
    forall row | row in board ensures 1 <= Rank(order, board, row) <= |board| && row in rows {
      assert row in multiset(rows);
    }
    forall r | 1 <= r <= |board| ensures RankTaken(order, board, r) {
      assert rows[r - 1] in board;
    }
    hide Listing, Rank, Before;
  }

  // ----------------------------------------------------------------- the pages

  /** The page at `offset` carries the ranks `offset + 1` onward. */
  lemma PageRanks(order: Order, board: seq<Standing>, limit: nat, offset: nat, i: nat)
    requires ValidBoard(board) && i < |Page(order, board, limit, offset)|
    ensures Page(order, board, limit, offset)[i].rank == offset + i + 1
  {
    RankIsPosition(order, board, offset + i);
  }

  lemma RankAllJoins(order: Order, board: seq<Standing>, a: seq<Standing>, b: seq<Standing>)
    ensures RankAll(order, board, a) + RankAll(order, board, b) == RankAll(order, board, a + b)
  {
  }

  /** Two consecutive pages are one longer page. */
  lemma PagesJoin(order: Order, board: seq<Standing>, a: nat, b: nat, offset: nat)
    ensures Page(order, board, a, offset) + Page(order, board, b, offset + a)
            == Page(order, board, a + b, offset)
  {
    hide Listing, Rank;
    var rows := Listing(order, board);
    var from := Min(offset, |rows|);
    var mid := Min(from + a, |rows|);
    var end := Min(from + a + b, |rows|);
    assert Page(order, board, a, offset) == RankAll(order, board, rows[from..mid]);
    assert Page(order, board, b, offset + a) == RankAll(order, board, rows[mid..end]);
    assert Page(order, board, a + b, offset) == RankAll(order, board, rows[from..end]);
    RankAllJoins(order, board, rows[from..mid], rows[mid..end]);
    assert rows[from..mid] + rows[mid..end] == rows[from..end];
    hide *;
  }

  /** The first `n` pages, one after another. */
  function Walk(order: Order, board: seq<Standing>, limit: nat, n: nat): seq<Ranked> {
    if n == 0 then [] else Walk(order, board, limit, n - 1) + Page(order, board, limit, (n - 1) * limit)
  }

  lemma {:induction false} WalkIsPage(order: Order, board: seq<Standing>, limit: nat, n: nat)
    ensures Walk(order, board, limit, n) == Page(order, board, n * limit, 0)
  {
    if n == 0 {
      EmptyPage(order, board);
    } else {
      WalkStep(order, board, limit, n);
      hide *;
      WalkIsPage(order, board, limit, n - 1);
      PagesJoin(order, board, (n - 1) * limit, limit, 0);
      assert (n - 1) * limit + limit == n * limit;
    }
  }

  lemma EmptyPage(order: Order, board: seq<Standing>)
    ensures Page(order, board, 0, 0) == []
  {
  }

  lemma WalkStep(order: Order, board: seq<Standing>, limit: nat, n: nat)
    requires n > 0
    ensures Walk(order, board, limit, n)
            == Walk(order, board, limit, n - 1) + Page(order, board, limit, (n - 1) * limit)
  {
    hide Page;
  }

  /** Paging far enough returns the whole board, each row once, ranked 1 to n in order. */
  lemma WalkCoversBoard(order: Order, board: seq<Standing>, limit: nat, n: nat)
    requires ValidBoard(board) && n * limit >= |board|
    ensures var walk := Walk(order, board, limit, n);
            && |walk| == |board| == |Listing(order, board)|
            && (forall i :: 0 <= i < |walk| ==> walk[i] == Ranked(Listing(order, board)[i], i + 1, |board|))
  {
    WalkIsPage(order, board, limit, n);
    ListingOrdered(order, board);
    forall i: nat | i < |board| ensures Rank(order, board, Listing(order, board)[i]) == i + 1 {
      RankIsPosition(order, board, i);
    }
    hide Rank, Listing;
  }

  /** Every page reports the size of the whole board, also an empty one past the end. */
  lemma TotalIsBoardSize(order: Order, board: seq<Standing>, limit: nat, offset: nat)
    requires ValidBoard(board) && limit >= 1
    ensures TotalCount(board, Page(order, board, limit, offset), offset) == |board|
  {
    ListingOrdered(order, board);
    hide Rank, Listing;
  }

  // --------------------------------------------------------- the single player

  lemma {:induction false} RowOfUserExact(board: seq<Standing>, row: Standing)
    requires ValidBoard(board) && row in board
    ensures RowOfUser(board, row.user) == Some(row)
  {
    if board[0] != row {
      assert row in board[1..];
      RowOfUserExact(board[1..], row);
    }
  }

  /** The single-player lookup returns a player's row exactly as the listing does. */
  lemma FetchAgreesWithListing(order: Order, board: seq<Standing>, limit: nat, offset: nat, i: nat)
    requires ValidBoard(board) && i < |Page(order, board, limit, offset)|
    ensures var shown := Page(order, board, limit, offset)[i];
            FetchRanked(order, board, shown.row.user) == Some(shown)
  {
    ListingOrdered(order, board);
    var row := Page(order, board, limit, offset)[i].row;
    assert row in Listing(order, board);
    assert row in multiset(board);
    RowOfUserExact(board, row);
    hide Rank, Listing;
  }
}
