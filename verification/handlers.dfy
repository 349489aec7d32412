/** The request helpers of src/lib.rs and the handlers that use them: the
    index, recent-dates and head-to-head pages. Database and upstream calls
    become parameters holding their decoded results (`None` for a failed
    call); page rendering is reduced to the data a page receives. */
module Handlers {
  import opened Wrappers
  import opened Models
  import opened Dates
  import opened Stats
  import opened Plots
  import opened Database

  /** `"%20"` begins at position `i` of `s`. */
  predicate MatchAt(s: string, i: int) {
    0 <= i && i + 3 <= |s| && s[i] == '%' && s[i + 1] == '2' && s[i + 2] == '0'
  }

  predicate HasEncodedSpace(s: string) {
    exists i :: 0 <= i < |s| && MatchAt(s, i)
  }

  /** Every `"%20"` in `s` replaced by a space, scanning left to right so
      occurrences do not overlap. */
  function DecodeSpaces(s: string): (r: string)
    ensures |r| <= |s|
    decreases |s|
  {
    if |s| >= 3 && MatchAt(s, 0) then " " + DecodeSpaces(s[3..])
    else if s == [] then []
    else [s[0]] + DecodeSpaces(s[1..])
  }

  /** Decoding one step at a time: the empty text stays empty, a leading
      `"%20"` becomes one space, and any other leading character is copied. */
  lemma DecodeSpacesSteps(c: char, b: string)
    ensures DecodeSpaces([]) == []
    ensures DecodeSpaces("%20" + b) == " " + DecodeSpaces(b)
    ensures !MatchAt([c] + b, 0) ==> DecodeSpaces([c] + b) == [c] + DecodeSpaces(b)
  {
    assert ("%20" + b)[3..] == b;
    assert ([c] + b)[1..] == b;
  }

  /** A decoded character other than a space was copied from the front of
      the input. */
  lemma DecodedHead(t: string)
    requires |DecodeSpaces(t)| > 0 && DecodeSpaces(t)[0] != ' '
    ensures |t| > 0 && !MatchAt(t, 0) && t[0] == DecodeSpaces(t)[0]
    ensures DecodeSpaces(t)[1..] == DecodeSpaces(t[1..])
  {
    assert !(|t| >= 3 && MatchAt(t, 0));
  }

  /** Nothing encoded survives decoding. */
  lemma {:induction false} DecodeSpacesLeavesNone(s: string)
    ensures !HasEncodedSpace(DecodeSpaces(s))
    decreases |s|
  {
    var r := DecodeSpaces(s);
    if |s| >= 3 && MatchAt(s, 0) {
      DecodeSpacesLeavesNone(s[3..]);
      forall i | MatchAt(r, i)
        ensures false
      {
        ghost var shifted := MatchAt(DecodeSpaces(s[3..]), i - 1);
        assert false;
      }
    } else if s != [] {
      var rest := DecodeSpaces(s[1..]);
      DecodeSpacesLeavesNone(s[1..]);
      forall i | MatchAt(r, i)
        ensures false
      {
        if i == 0 {
          DecodedHead(s[1..]);
          DecodedHead(s[2..]);
          assert false;
        } else {
          ghost var shifted := MatchAt(rest, i - 1);
          assert false;
        }
      }
    }
  }

  /** Text with nothing encoded comes through unchanged. */
  lemma {:induction false} DecodeSpacesKeepsPlain(s: string)
    requires !HasEncodedSpace(s)
    ensures DecodeSpaces(s) == s
    decreases |s|
  {
    if s != [] {
      assert !MatchAt(s, 0);
      forall i | MatchAt(s[1..], i)
        ensures false
      {
        assert MatchAt(s, i + 1);
      }
      DecodeSpacesKeepsPlain(s[1..]);
    }
  }

  /** The `db_name` of `handle_index`: "all" when the route has none. */
  function TableName(dbName: Option<string>): (r: string)
    ensures dbName.Some? ==> r == dbName.value
    ensures r == "all" <==> dbName.None? || dbName == Some("all")
  {
    match dbName
    case None => "all"
    case Some(name) => name
  }

  /** The pairing in `handle_h2h`: both names, decoded, or nothing. */
  function H2hUsers(user1: Option<string>, user2: Option<string>): (r: Option<(string, string)>)
    ensures r.Some? <==> user1.Some? && user2.Some?
    ensures r.Some? ==> r.value.0 == DecodeSpaces(user1.value) && r.value.1 == DecodeSpaces(user2.value)
  {
    if user1.Some? && user2.Some? then Some((DecodeSpaces(user1.value), DecodeSpaces(user2.value)))
    else None
  }

  /** The date list of `handle_recent`: the ten days ending at `mostRecent`,
      newest first, each as `%Y-%m-%d`. */
  function RecentDates(mostRecent: Date): (r: seq<string>)
    requires Valid(mostRecent)
    ensures |r| == 10
    ensures forall i: int :: 0 <= i < 10 ==> r[i] == Format(AddDays(mostRecent, -i))
  {
    seq(10, i requires 0 <= i < 10 => DaysBefore(mostRecent, i))
  }

  /** The date `i` days before `d`, written as year-month-day. */
  function DaysBefore(d: Date, i: int): string
    requires Valid(d)
  {
    Format(AddDays(d, -i))
  }

  /** Nine days back from a date of year 1 or later stays in year 0 or later. */
  lemma RecentYears(d: Date, i: int)
    requires Valid(d) && 1 <= d.year <= 9999 && 0 <= i < 10
    ensures 0 <= AddDays(d, -i).year <= d.year
  {
    var e := AddDays(d, -i);
    DayNumberWithinYear(d);
    DayNumberWithinYear(e);
    if e.year > d.year {
      DaysBeforeYearMonotone(d.year + 1, e.year);
      assert false;
    }
    if e.year < d.year - 1 {
      DaysBeforeYearMonotone(e.year + 1, d.year - 1);
      DaysBeforeNextYear(d.year - 1);
      assert false;
    }
  }

  /** The list starts at the most recent date, and every entry parses back
      to the day before its predecessor, across month, year and leap-day
      boundaries. */
  lemma RecentDatesConsecutive(d: Date, i: int)
    requires Valid(d) && 1 <= d.year <= 9999 && 0 <= i < 9
    ensures RecentDates(d)[0] == Format(d)
    ensures Parse(RecentDates(d)[i]) == Some(AddDays(d, -i))
    ensures Parse(RecentDates(d)[i + 1]) == Some(Prev(AddDays(d, -i)))
  {
    var a := AddDays(d, -i);
    var b := AddDays(d, -(i + 1));
    AddDaysUnique(d, 0, d);
    RecentYears(d, i);
    RecentYears(d, i + 1);
    ParseFormat(a);
    ParseFormat(b);
    AddDaysUnique(d, -(i + 1), Prev(a));
  }

  /** The two dates on either side of a leap day and of a new year. */
  lemma RecentDatesCrossBoundaries()
    ensures Prev(Date(2024, 3, 1)) == Date(2024, 2, 29)
    ensures Prev(Date(2023, 3, 1)) == Date(2023, 2, 28)
    ensures Prev(Date(2025, 1, 1)) == Date(2024, 12, 31)
  {
  }

  /** What a page is handed to render. */
  datatype Page =
    | LeaderboardPage(entries: seq<LeaderboardEntry>)
    | RecentPage(dates: seq<string>)
    | HeadToHeadPage(users: seq<string>, data: Option<HeadToHeadData>, boxPlot: PlotHtml)

  /** `Response::error(message, status)`, an HTML page, or a panic that
      aborts the request. */
  datatype Response = Error(message: string, status: int) | Html(page: Page) | Panicked

  /** `handle_index`. `fetchLeaderboard(table)` is the decoded query of that
      table, `None` when the query or its decoding fails; the rows are then
      ordered by elo as `fetch_leaderboard_from_db` does. */
  function HandleIndex(dbName: Option<string>, fetchLeaderboard: string -> Option<seq<LeaderboardEntry>>)
    : (r: Response)
    ensures fetchLeaderboard(TableName(dbName)).None? <==> r == Error("Couldn't fetch leaderboard from database", 500)
    ensures r.Html? ==> r.page == LeaderboardPage(SortByElo(fetchLeaderboard(TableName(dbName)).value))
    ensures fetchLeaderboard(TableName(dbName)).Some? ==>
      r == Html(LeaderboardPage(SortByElo(fetchLeaderboard(TableName(dbName)).value)))
    ensures !r.Panicked?
  {
    match fetchLeaderboard(TableName(dbName))
    case None => Error("Couldn't fetch leaderboard from database", 500)
    case Some(rows) => Html(LeaderboardPage(SortByElo(rows)))
  }

  /** `handle_recent`; `mostRecent` is the decoded date of the newest result. */
  function HandleRecent(mostRecent: Option<Date>): (r: Response)
    requires mostRecent.Some? ==> Valid(mostRecent.value)
    ensures mostRecent.None? <==> r == Error("Couldn't fetch most recent crossword date from database", 500)
    ensures r.Html? ==> r.page.RecentPage? && |r.page.dates| == 10 && r.page.dates[0] == Format(mostRecent.value)
    ensures mostRecent.Some? ==> r == Html(RecentPage(RecentDates(mostRecent.value)))
  {
    match mostRecent
    case None => Error("Couldn't fetch most recent crossword date from database", 500)
    case Some(d) =>
      AddDaysUnique(d, 0, d);
      Html(RecentPage(RecentDates(d)))
  }

  /** The part of `handle_h2h` after both names are known: `times1` and
      `times2` are the decoded results of the two users and `record` the
      decoded head-to-head record, `None` for a failed call. The box plot of
      the two users' times is drawn before the record is used, so a user
      without results panics the request. */
  function H2hPageOf(
    names: seq<string>, u1: string, u2: string,
    times1: Option<seq<ResultEntry>>, times2: Option<seq<ResultEntry>>,
    record: Option<HeadToHeadData>, tenths: real -> string): (r: Response)
    requires times1.Some? ==> Summable(times1.value)
    requires times2.Some? ==> Summable(times2.value)
    ensures r == Error("Couldn't fetch user1 data from database", 500) <==> times1.None?
    ensures r == Error("Couldn't fetch user2 data from database", 500) <==> times1.Some? && times2.None?
    ensures r.Panicked? <==> times1.Some? && times2.Some? && (times1.value == [] || times2.value == [])
    ensures r.Html? <==> times1.Some? && times2.Some? && times1.value != [] && times2.value != []
    ensures r.Html? ==>
      && r.page.HeadToHeadPage? && r.page.users == names
      && r.page.data == FetchH2hData(u1, u2, record, tenths)
      && r.page.boxPlot.Chart? && r.page.boxPlot == BoxPlot([times1.value, times2.value]).value
      && r.page.boxPlot.figure.traces
         == [Box(times1.value[0].username, Times(times1.value)), Box(times2.value[0].username, Times(times2.value))]
  {
    match times1
    case None => Error("Couldn't fetch user1 data from database", 500)
    case Some(t1) =>
      match times2
      case None => Error("Couldn't fetch user2 data from database", 500)
      case Some(t2) =>
        var both := [FetchUserData(t1).allTimes, FetchUserData(t2).allTimes];
        PairBoxPlot(t1, t2);
        match BoxPlot(both)
        case Err(_) => Panicked
        case Ok(plot) => Html(HeadToHeadPage(names, FetchH2hData(u1, u2, record, tenths), plot))
  }

  /** The box plot of two users: a panic when either has no results, else
      one box for each, in order. */
  lemma PairBoxPlot(t1: seq<ResultEntry>, t2: seq<ResultEntry>)
    requires Summable(t1) && Summable(t2)
    ensures AllSummable([t1, t2])
    ensures BoxPlot([t1, t2]).Err? <==> t1 == [] || t2 == []
    ensures BoxPlot([t1, t2]).Ok? ==>
      BoxPlot([t1, t2]).value.Chart?
      && BoxPlot([t1, t2]).value.figure.traces == [Box(t1[0].username, Times(t1)), Box(t2[0].username, Times(t2))]
  {
    var both := [t1, t2];
    assert AllSummable(both);
    if t1 == [] { assert both[0] == []; }
    if t2 == [] { assert both[1] == []; }
    if t1 != [] && t2 != [] {
      var traces := BoxPlot(both).value.figure.traces;
      assert traces[0] == Box(t1[0].username, Times(t1));
      assert traces[1] == Box(t2[0].username, Times(t2));
    }
  }

  /** `handle_h2h`. `users` is the elo-ordered username list, `userTimes(u)`
      the decoded results of `u` and `h2h(u1, u2)` the decoded head-to-head
      record. The user data is fetched only when both names are in the
      route; otherwise the page gets the user list alone. */
  function HandleH2h(
    users: Option<seq<string>>,
    user1Param: Option<string>, user2Param: Option<string>,
    userTimes: string -> Option<seq<ResultEntry>>,
    h2h: (string, string) -> Option<HeadToHeadData>,
    tenths: real -> string): (r: Response)
    requires forall u :: userTimes(u).Some? ==> Summable(userTimes(u).value)
    ensures users.None? <==> r == Error("Couldn't fetch usernames from database!", 500)
    ensures users.Some? && H2hUsers(user1Param, user2Param).None? ==>
      r == Html(HeadToHeadPage(users.value, None, Blank))
    ensures users.Some? && H2hUsers(user1Param, user2Param).Some? ==>
      var (u1, u2) := H2hUsers(user1Param, user2Param).value;
      r == H2hPageOf(users.value, u1, u2, userTimes(u1), userTimes(u2), h2h(u1, u2), tenths)
  {
    match users
    case None => Error("Couldn't fetch usernames from database!", 500)
    case Some(names) =>
      match H2hUsers(user1Param, user2Param)
      case None => Html(HeadToHeadPage(names, None, Blank))
      case Some((u1, u2)) => H2hPageOf(names, u1, u2, userTimes(u1), userTimes(u2), h2h(u1, u2), tenths)
  }

  /** A failed head-to-head fetch still renders the page, without data. */
  lemma FailedH2hStillRenders(
    users: seq<string>, user1: string, user2: string,
    userTimes: string -> Option<seq<ResultEntry>>,
    h2h: (string, string) -> Option<HeadToHeadData>,
    tenths: real -> string)
    requires forall u :: userTimes(u).Some? ==> Summable(userTimes(u).value)
    requires userTimes(DecodeSpaces(user1)).Some? && userTimes(DecodeSpaces(user1)).value != []
    requires userTimes(DecodeSpaces(user2)).Some? && userTimes(DecodeSpaces(user2)).value != []
    requires h2h(DecodeSpaces(user1), DecodeSpaces(user2)).None?
    ensures var r := HandleH2h(Some(users), Some(user1), Some(user2), userTimes, h2h, tenths);
      r.Html? && r.page.data.None?
  {
  }
}
