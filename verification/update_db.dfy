/** The counting half of scripts/update_db.py: ranking today's results before
    they are stored, and the per-user tallies of wins, games played and total
    time that `compute_stats` gathers over a range of dates. The TrueSkill
    ratings, the elo formula and the float average are not modelled. */
module UpdateDb {
  import opened Models
  import opened Dates
  import opened Ingest

  /** `fetch_today_results_with_rank`: the feed's results in feed order, each
      given the rank `times.index(time) + 1`. */
  function RankToday(data: seq<ResultEntry>): (r: seq<ResultEntry>)
    ensures |r| == |data|
    ensures forall i :: 0 <= i < |data| ==> r[i] == data[i].(rank := RankAt(data, i))
  {
    seq(|data|, i requires 0 <= i < |data| => data[i].(rank := RankAt(data, i)))
  }

  /** Re-ranking the stored rows in the same order, as `fetch_leaderboard`
      does, gives back the stored ranks. */
  lemma StoredRanksAgree(data: seq<ResultEntry>, i: nat)
    requires i < |data|
    ensures FetchLeaderboard(RankToday(data))[i].rank == RankToday(data)[i].rank
  {
    var stored := RankToday(data);
    assert forall j :: 0 <= j < |data| ==> stored[j].time == data[j].time;
    SameTimesSameRank(stored, data, i);
  }

  /** A rank depends only on the sequence of times. */
  lemma SameTimesSameRank(a: seq<ResultEntry>, b: seq<ResultEntry>, i: nat)
    requires |a| == |b| && i < |a|
    requires forall j :: 0 <= j < |a| ==> a[j].time == b[j].time
    ensures RankAt(a, i) == RankAt(b, i)
  {
    assert Times(a) == Times(b);
  }

  /** The `defaultdict(int)` counters and the set of usernames seen. */
  datatype Counters = Counters(
    numWins: map<string, int>,
    numPlayed: map<string, int>,
    totalTime: map<string, int>,
    usernames: set<string>)

  /** A `defaultdict(int)` lookup: 0 for a missing key. */
  function Get(m: map<string, int>, u: string): int {
    if u in m then m[u] else 0
  }

  function Bump(m: map<string, int>, u: string, amount: int): map<string, int> {
    m[u := Get(m, u) + amount]
  }

  /** One leaderboard row: a win when the rank is 1, always a game played
      and the time added. */
  function RecordRow(c: Counters, row: BoardRow): Counters {
    var u := row.username;
    Counters(
      if row.rank == 1 then Bump(c.numWins, u, 1) else c.numWins,
      Bump(c.numPlayed, u, 1),
      Bump(c.totalTime, u, row.time),
      c.usernames + {u})
  }

  /** Games of `u` on a board. */
  function CountPlayed(rows: seq<BoardRow>, u: string): nat {
    if rows == [] then 0 else (if rows[0].username == u then 1 else 0) + CountPlayed(rows[1..], u)
  }

  /** Rank-1 rows of `u` on a board. */
  function CountWins(rows: seq<BoardRow>, u: string): nat {
    if rows == [] then 0
    else (if rows[0].username == u && rows[0].rank == 1 then 1 else 0) + CountWins(rows[1..], u)
  }

  /** Total time of `u` on a board. */
  function SumTime(rows: seq<BoardRow>, u: string): int {
    if rows == [] then 0 else (if rows[0].username == u then rows[0].time else 0) + SumTime(rows[1..], u)
  }

  function UsernamesOf(rows: seq<BoardRow>): (r: set<string>)
    ensures forall i :: 0 <= i < |rows| ==> rows[i].username in r
    ensures forall u :: u in r ==> exists i :: 0 <= i < |rows| && rows[i].username == u
  {
    if rows == [] then {}
    else
      assert forall i :: 1 <= i < |rows| ==> rows[i] == rows[1..][i - 1];
      {rows[0].username} + UsernamesOf(rows[1..])
  }

  /** The loop over one board: every counter of every user grows by exactly
      that user's share of the board. */
  function RecordRows(c: Counters, rows: seq<BoardRow>): (r: Counters)
    ensures forall u :: Get(r.numPlayed, u) == Get(c.numPlayed, u) + CountPlayed(rows, u)
    ensures forall u :: Get(r.numWins, u) == Get(c.numWins, u) + CountWins(rows, u)
    ensures forall u :: Get(r.totalTime, u) == Get(c.totalTime, u) + SumTime(rows, u)
    ensures r.usernames == c.usernames + UsernamesOf(rows)
    decreases |rows|
  {
    if rows == [] then c else RecordRows(RecordRow(c, rows[0]), rows[1..])
  }

  /** One date of `compute_stats`: an empty board (`if leaderboard:`)
      changes nothing. */
  function RecordDay(c: Counters, board: seq<BoardRow>): (r: Counters)
    ensures board == [] ==> r == c
    ensures forall u :: Get(r.numPlayed, u) == Get(c.numPlayed, u) + CountPlayed(board, u)
    ensures forall u :: Get(r.numWins, u) == Get(c.numWins, u) + CountWins(board, u)
    ensures forall u :: Get(r.totalTime, u) == Get(c.totalTime, u) + SumTime(board, u)
    ensures r.usernames == c.usernames + UsernamesOf(board)
  {
    if board == [] then c else RecordRows(c, board)
  }

  ghost predicate WinsBounded(c: Counters) {
    forall u :: Get(c.numWins, u) <= Get(c.numPlayed, u)
  }

  lemma {:induction false} WinsAtMostPlayed(rows: seq<BoardRow>, u: string)
    ensures CountWins(rows, u) <= CountPlayed(rows, u)
    decreases |rows|
  {
    if rows != [] {
      WinsAtMostPlayed(rows[1..], u);
    }
  }

  /** No user ever has more wins than games. */
  lemma RecordDayKeepsWinsBounded(c: Counters, board: seq<BoardRow>)
    ensures WinsBounded(c) ==> WinsBounded(RecordDay(c, board))
  {
    forall u | Get(c.numWins, u) <= Get(c.numPlayed, u)
      ensures Get(RecordDay(c, board).numWins, u) <= Get(RecordDay(c, board).numPlayed, u)
    {
      WinsAtMostPlayed(board, u);
    }
  }

  /** Rows tied at time `t` belonging to `u`. */
  function CountTied(rows: seq<ResultEntry>, t: int, u: string): nat {
    if rows == [] then 0
    else (if rows[0].username == u && rows[0].time == t then 1 else 0) + CountTied(rows[1..], t, u)
  }

  lemma {:induction false} WinsAreTies(b: seq<BoardRow>, rows: seq<ResultEntry>, t: int, u: string)
    requires |b| == |rows|
    requires forall i :: 0 <= i < |b| ==>
      (b[i].username == u && b[i].rank == 1 <==> rows[i].username == u && rows[i].time == t)
    ensures CountWins(b, u) == CountTied(rows, t, u)
    decreases |b|
  {
    if b != [] {
      assert forall i :: 0 <= i < |b| - 1 ==> b[1..][i] == b[i + 1] && rows[1..][i] == rows[i + 1];
      WinsAreTies(b[1..], rows[1..], t, u);
    }
  }

  /** On one day's rows, the wins credited to `u` are `u`'s rows tied with
      the first row's time: every rank-1 tie counts as a win. */
  lemma DayWins(rows: seq<ResultEntry>, u: string)
    requires rows != []
    ensures CountWins(FetchLeaderboard(rows), u) == CountTied(rows, rows[0].time, u)
  {
    var b := FetchLeaderboard(rows);
    forall i | 0 <= i < |b|
      ensures b[i].username == u && b[i].rank == 1 <==> rows[i].username == u && rows[i].time == rows[0].time
    {
      WinnersTieTheFirst(rows, i);
    }
    WinsAreTies(b, rows, rows[0].time, u);
  }

  /** The boards of a sequence of dates, one after another. `rowsOn` stands
      for the `results_rust` query of a date. */
  function AllRows(dates: seq<Date>, rowsOn: Date -> seq<ResultEntry>): seq<BoardRow> {
    if dates == [] then [] else FetchLeaderboard(rowsOn(dates[0])) + AllRows(dates[1..], rowsOn)
  }

  lemma {:induction false} CountsOfConcat(a: seq<BoardRow>, b: seq<BoardRow>, u: string)
    ensures CountPlayed(a + b, u) == CountPlayed(a, u) + CountPlayed(b, u)
    ensures CountWins(a + b, u) == CountWins(a, u) + CountWins(b, u)
    ensures SumTime(a + b, u) == SumTime(a, u) + SumTime(b, u)
    decreases |a|
  {
    if a != [] {
      assert (a + b)[1..] == a[1..] + b;
      CountsOfConcat(a[1..], b, u);
    } else {
      assert a + b == b;
    }
  }

  lemma {:induction false} UsernamesOfConcat(a: seq<BoardRow>, b: seq<BoardRow>)
    ensures UsernamesOf(a + b) == UsernamesOf(a) + UsernamesOf(b)
    decreases |a|
  {
    if a != [] {
      assert (a + b)[1..] == a[1..] + b;
      UsernamesOfConcat(a[1..], b);
    } else {
      assert a + b == b;
    }
  }

  /** The rows of a date sequence are the first date's board followed by the rest. */
  lemma AllRowsSplit(dates: seq<Date>, rowsOn: Date -> seq<ResultEntry>)
    requires dates != []
    ensures var board := FetchLeaderboard(rowsOn(dates[0]));
      var rest := AllRows(dates[1..], rowsOn);
      && (forall u :: CountPlayed(AllRows(dates, rowsOn), u) == CountPlayed(board, u) + CountPlayed(rest, u))
      && (forall u :: CountWins(AllRows(dates, rowsOn), u) == CountWins(board, u) + CountWins(rest, u))
      && (forall u :: SumTime(AllRows(dates, rowsOn), u) == SumTime(board, u) + SumTime(rest, u))
      && UsernamesOf(AllRows(dates, rowsOn)) == UsernamesOf(board) + UsernamesOf(rest)
  {
    var board := FetchLeaderboard(rowsOn(dates[0]));
    var rest := AllRows(dates[1..], rowsOn);
    forall u
      ensures CountPlayed(board + rest, u) == CountPlayed(board, u) + CountPlayed(rest, u)
      ensures CountWins(board + rest, u) == CountWins(board, u) + CountWins(rest, u)
      ensures SumTime(board + rest, u) == SumTime(board, u) + SumTime(rest, u)
    {
      CountsOfConcat(board, rest, u);
    }
    UsernamesOfConcat(board, rest);
  }

  /** The date loop of `compute_stats`. */
  function RecordDays(c: Counters, dates: seq<Date>, rowsOn: Date -> seq<ResultEntry>): (r: Counters)
    ensures forall u :: Get(r.numPlayed, u) == Get(c.numPlayed, u) + CountPlayed(AllRows(dates, rowsOn), u)
    ensures forall u :: Get(r.numWins, u) == Get(c.numWins, u) + CountWins(AllRows(dates, rowsOn), u)
    ensures forall u :: Get(r.totalTime, u) == Get(c.totalTime, u) + SumTime(AllRows(dates, rowsOn), u)
    ensures r.usernames == c.usernames + UsernamesOf(AllRows(dates, rowsOn))
    ensures WinsBounded(c) ==> WinsBounded(r)
    decreases |dates|
  {
    if dates == [] then c
    else
      var board := FetchLeaderboard(rowsOn(dates[0]));
      AllRowsSplit(dates, rowsOn);
      RecordDayKeepsWinsBounded(c, board);
      RecordDays(RecordDay(c, board), dates[1..], rowsOn)
  }

  /** The counters of one output row. */
  datatype Tally = Tally(numWins: int, numPlayed: int, totalTime: int)

  /** `compute_stats` without the ratings: one row per username ever seen,
      holding the starting counters plus everything the boards of the
      inclusive date range add. */
  function ComputeStats(start: Date, end: Date, c: Counters, rowsOn: Date -> seq<ResultEntry>)
    : (r: map<string, Tally>)
    requires Valid(start) && Valid(end)
    ensures var all := AllRows(DateRange(start, end), rowsOn);
      && r.Keys == c.usernames + UsernamesOf(all)
      && forall u :: u in r ==> r[u] == Tally(
           Get(c.numWins, u) + CountWins(all, u),
           Get(c.numPlayed, u) + CountPlayed(all, u),
           Get(c.totalTime, u) + SumTime(all, u))
    ensures WinsBounded(c) ==> forall u :: u in r ==> r[u].numWins <= r[u].numPlayed
  {
    var final := RecordDays(c, DateRange(start, end), rowsOn);
    map u | u in final.usernames :: Tally(Get(final.numWins, u), Get(final.numPlayed, u), Get(final.totalTime, u))
  }
}
