/** What src/database.rs does with query results once they are decoded: the
    Saturday filter of a user's results, the elo ordering of a leaderboard,
    the podium cut and the head-to-head sentence. The Postgrest queries and
    the JSON decoding of their bodies are not modelled. */
module Database {
  import opened Wrappers
  import opened Models
  import opened Dates
  import opened Sorting
  import opened Seqs

  /** A result is kept when its date parses as a year-month-day date that is
      not a Saturday; a date that does not parse drops the result. */
  predicate KeepsDate(e: ResultEntry) {
    match Parse(e.date)
    case None => false
    case Some(d) => WeekdayOf(d) != Sat
  }

  /** `times_excluding_saturday`: the results whose date parses and does not
      fall on a Saturday, in their original order. */
  function ExcludeSaturday(s: seq<ResultEntry>): (r: seq<ResultEntry>)
    ensures IsSubsequence(r, s)
    ensures forall i :: 0 <= i < |r| ==> KeepsDate(r[i])
    ensures forall x :: multiset(r)[x] == (if KeepsDate(x) then multiset(s)[x] else 0)
  {
    if s == [] then []
    else
      assert s == [s[0]] + s[1..];
      var rest := ExcludeSaturday(s[1..]);
      if KeepsDate(s[0]) then
        assert ([s[0]] + rest)[1..] == rest;
        [s[0]] + rest
      else rest
  }

  /** Filtering a second time removes nothing more. */
  lemma {:induction false} ExcludeSaturdayIdempotent(s: seq<ResultEntry>)
    ensures ExcludeSaturday(ExcludeSaturday(s)) == ExcludeSaturday(s)
  {
    KeepAllUnchanged(ExcludeSaturday(s));
  }

  lemma {:induction false} KeepAllUnchanged(s: seq<ResultEntry>)
    requires forall i :: 0 <= i < |s| ==> KeepsDate(s[i])
    ensures ExcludeSaturday(s) == s
    decreases |s|
  {
    if s != [] {
      KeepAllUnchanged(s[1..]);
    }
  }

  /** `fetch_user_data` once the rows are decoded. */
  function FetchUserData(allTimes: seq<ResultEntry>): (u: UserData)
    ensures u.allTimes == allTimes
    ensures IsSubsequence(u.timesExcludingSaturday, allTimes)
    ensures forall i :: 0 <= i < |u.timesExcludingSaturday| ==> KeepsDate(u.timesExcludingSaturday[i])
    ensures forall x :: multiset(u.timesExcludingSaturday)[x] == (if KeepsDate(x) then multiset(allTimes)[x] else 0)
    ensures u.timesExcludingSaturday == ExcludeSaturday(allTimes)
  {
    UserData(allTimes, ExcludeSaturday(allTimes))
  }

  /** Descending elo: `a` may precede `b` when its elo is not lower. */
  function EloLe(a: LeaderboardEntry, b: LeaderboardEntry): bool {
    a.elo >= b.elo
  }

  lemma EloLeIsTotalPreorder()
    ensures TotalPreorder(EloLe)
  {
  }

  /** The sort in `fetch_leaderboard_from_db`. */
  function SortByElo(rows: seq<LeaderboardEntry>): seq<LeaderboardEntry> {
    SortBy(rows, EloLe)
  }

  /** The leaderboard comes out as a permutation of the rows, highest elo
      first, rows of equal elo in their original order. */
  lemma SortByEloCorrect(rows: seq<LeaderboardEntry>)
    ensures multiset(SortByElo(rows)) == multiset(rows)
    ensures forall i, j :: 0 <= i < j < |rows| ==> SortByElo(rows)[i].elo >= SortByElo(rows)[j].elo
    ensures forall k :: Equivalents(SortByElo(rows), k, EloLe) == Equivalents(rows, k, EloLe)
  {
    EloLeIsTotalPreorder();
    SortByCorrect(rows, EloLe);
  }

  const PODIUM_SIZE: nat := 10

  /** The leaderboard cut to its first `PODIUM_SIZE` rows. */
  function Podium(rows: seq<ResultEntry>): (r: seq<ResultEntry>)
    ensures |r| == if |rows| < PODIUM_SIZE then |rows| else PODIUM_SIZE
    ensures forall i :: 0 <= i < |r| ==> r[i] == rows[i]
  {
    if |rows| <= PODIUM_SIZE then rows else rows[..PODIUM_SIZE]
  }

  /** On rows ordered by time, the podium holds the fastest solves: nothing
      left out is faster than anything kept, and everything is kept when
      there are at most ten rows. */
  lemma PodiumIsFastest(rows: seq<ResultEntry>)
    requires forall i, j :: 0 <= i < j < |rows| ==> rows[i].time <= rows[j].time
    ensures forall i, j :: 0 <= i < |Podium(rows)| <= j < |rows| ==> Podium(rows)[i].time <= rows[j].time
    ensures |rows| <= PODIUM_SIZE ==> Podium(rows) == rows
  {
  }

  function Abs(x: real): real {
    if x < 0.0 then -x else x
  }

  /** "faster" exactly when the first user's average time is lower; a
      difference of exactly zero reads "slower". */
  function SpeedVerb(avg: real): (v: string)
    ensures v == "faster" <==> avg < 0.0
    ensures v == "faster" || v == "slower"
  {
    if avg < 0.0 then "faster" else "slower"
  }

  /** The sentence of `fetch_h2h_data`: "On average, <user1> is <|avg|>
      seconds <faster|slower> than <user2>.". `tenths` stands for Rust's
      `{:.1}` rendering of a float. */
  function TimeDiffDescription(user1: string, user2: string, avg: real, tenths: real -> string): string {
    Opening(user1) + (tenths(Abs(avg)) + Closing(SpeedVerb(avg), user2))
  }

  function Opening(user1: string): string {
    "On average, " + user1 + " is "
  }

  function Closing(verb: string, user2: string): string {
    " seconds " + verb + " than " + user2 + "."
  }

  predicate StartsWith(s: string, prefix: string) {
    |prefix| <= |s| && s[..|prefix|] == prefix
  }

  predicate EndsWith(s: string, suffix: string) {
    |suffix| <= |s| && s[|s| - |suffix|..] == suffix
  }

  /** The sentence names `user1` first and `user2` last, and reads
      "faster than" exactly when the average difference is negative. */
  lemma DescriptionReadsRight(user1: string, user2: string, avg: real, tenths: real -> string)
    ensures StartsWith(TimeDiffDescription(user1, user2, avg, tenths), "On average, " + user1 + " is ")
    ensures EndsWith(TimeDiffDescription(user1, user2, avg, tenths), " seconds faster than " + user2 + ".")
        <==> avg < 0.0
  {
    var middle := tenths(Abs(avg));
    var tail := Closing(SpeedVerb(avg), user2);
    var faster := Closing("faster", user2);
    var d := TimeDiffDescription(user1, user2, avg, tenths);
    Split(Opening(user1), middle + tail);
    assert d == (Opening(user1) + middle) + tail;
    Split(Opening(user1) + middle, tail);
    assert |tail| == |faster|;
    if avg >= 0.0 {
      assert tail[9] != faster[9];
    }
  }

  lemma Split(a: string, b: string)
    ensures (a + b)[..|a|] == a && (a + b)[|a|..] == b
  {
  }

  /** `fetch_h2h_data` after the RPC: `decoded` is the stored record, or
      `None` when the call or its decoding failed. The names are the
      arguments, the sentence is new, and every counter is copied. */
  function FetchH2hData(user1: string, user2: string, decoded: Option<HeadToHeadData>, tenths: real -> string)
    : (r: Option<HeadToHeadData>)
    ensures r.Some? <==> decoded.Some?
    ensures r.Some? ==>
      && r.value.user1 == user1 && r.value.user2 == user2
      && r.value.winsUser1 == decoded.value.winsUser1
      && r.value.winsUser2 == decoded.value.winsUser2
      && r.value.ties == decoded.value.ties
      && r.value.totalMatches == decoded.value.totalMatches
      && r.value.avgTimeDifference == decoded.value.avgTimeDifference
      && r.value.timeDiffDescription
         == TimeDiffDescription(user1, user2, decoded.value.avgTimeDifference, tenths)
  {
    match decoded
    case None => None
    case Some(h) =>
      Some(h.(user1 := user1, user2 := user2,
              timeDiffDescription := TimeDiffDescription(user1, user2, h.avgTimeDifference, tenths)))
  }
}
