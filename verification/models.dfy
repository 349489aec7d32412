/** The records the server and scripts pass around (src/models.rs). Rust's
    `i32` fields are unbounded integers here, with the `i32` range stated
    where an operation depends on it; `f64` fields are reals. */
module Models {

  /** One user's solve of one crossword: date "YYYY-MM-DD", seconds, name, finishing position. */
  datatype ResultEntry = ResultEntry(date: string, time: int, username: string, rank: int)

  /** One row of a leaderboard table. */
  datatype LeaderboardEntry = LeaderboardEntry(
    username: string,
    averageTime: real,
    numWins: int,
    numPlayed: int,
    elo: real)

  /** Head-to-head statistics of two users. The names and the description are
      not part of the stored record; the server fills them in. */
  datatype HeadToHeadData = HeadToHeadData(
    user1: string,
    user2: string,
    winsUser1: int,
    winsUser2: int,
    ties: int,
    totalMatches: int,
    avgTimeDifference: real,
    timeDiffDescription: string)

  /** A user's results, fastest first, and the same results without Saturdays. */
  datatype UserData = UserData(allTimes: seq<ResultEntry>, timesExcludingSaturday: seq<ResultEntry>)

  function Times(s: seq<ResultEntry>): (r: seq<int>)
    ensures |r| == |s|
    ensures forall i :: 0 <= i < |s| ==> r[i] == s[i].time
  {
    if s == [] then [] else [s[0].time] + Times(s[1..])
  }

  function DatesOf(s: seq<ResultEntry>): (r: seq<string>)
    ensures |r| == |s|
    ensures forall i :: 0 <= i < |s| ==> r[i] == s[i].date
  {
    if s == [] then [] else [s[0].date] + DatesOf(s[1..])
  }
}
