/** The helpers of the ingest script (scripts/utils.py) that work on data
    already fetched: date formatting and ranges, the ranking of a day's
    results, the filter on the upstream feed, and the time display. The
    Supabase and NYT requests, retries and the clock are not modelled. */
module Ingest {
  import opened Wrappers
  import opened Digits
  import opened Dates
  import opened Models
  import opened Seqs
  import opened LiveFeed
  import opened Filters

  /** `to_iso`: `strftime("%Y-%m-%d")` on a Python date (years 1 to 9999).
      The C library's `%Y` does not pad years below 1000. */
  function ToIso(d: Date): (r: string)
    requires Valid(d) && 1 <= d.year <= 9999
    ensures d.year >= 1000 ==> r == Format(d) && Parse(r) == Some(d)
    ensures d.year < 1000 ==> |r| < 10 && Parse(r).None?
  {
    var r := NatToString(d.year) + "-" + Fixed(d.month, 2) + "-" + Fixed(d.day, 2);
    NatToStringLength(d.year, 3);
    assert Pow10(3) == 1000 by { assert Pow10(1) == 10; }
    if d.year >= 1000 then
      assert Pow10(4) == 10000;
      PadZeroIsFixed(d.year, 4);
      FormatIsFixedWidth(d);
      ParseFormat(d);
      r
    else
      ParseLength(r);
      r
  }

  /** Only ten-character text parses as a date. */
  lemma ParseLength(s: string)
    ensures |s| != 10 ==> Parse(s).None?
  {
    if Parse(s).Some? {
      FormatParse(s);
      FormatIsFixedWidth(Parse(s).value);
    }
  }

  /** `daterange(start, end)`: `start + n` days for `n` in `range(days + 1)`,
      where `days` is the signed difference; nothing when `end` precedes `start`. */
  function DateRange(start: Date, end: Date): (r: seq<Date>)
    requires Valid(start) && Valid(end)
    ensures |r| == if DayNumber(end) < DayNumber(start) then 0 else DayNumber(end) - DayNumber(start) + 1
    ensures forall i :: 0 <= i < |r| ==> Valid(r[i]) && DayNumber(r[i]) == DayNumber(start) + i
  {
    var days := DayNumber(end) - DayNumber(start);
    var count := if days < 0 then 0 else days + 1;
    seq(count, n requires 0 <= n < count => AddDays(start, n))
  }

  /** The range is inclusive at both ends and steps one calendar day at a
      time: element `i` is `start` plus `i` days, the first is `start`, the
      last is `end`, and each is the day after its predecessor. */
  lemma DateRangeSteps(start: Date, end: Date)
    requires Valid(start) && Valid(end)
    ensures |DateRange(start, end)| > 0 <==> DayNumber(start) <= DayNumber(end)
    ensures forall i :: 0 <= i < |DateRange(start, end)| ==> DateRange(start, end)[i] == AddDays(start, i)
    ensures |DateRange(start, end)| > 0 ==> DateRange(start, end)[0] == start
    ensures |DateRange(start, end)| > 0 ==> DateRange(start, end)[|DateRange(start, end)| - 1] == end
    ensures forall i :: 0 <= i < |DateRange(start, end)| - 1 ==>
      DateRange(start, end)[i + 1] == Next(DateRange(start, end)[i])
  {
    if DayNumber(start) <= DayNumber(end) {
      DateRangeEnds(start, end);
    }
    forall i | 0 <= i < |DateRange(start, end)|
      ensures DateRange(start, end)[i] == AddDays(start, i)
    {
      RunAt(start, DateRange(start, end), i);
    }
    forall i | 0 <= i < |DateRange(start, end)| - 1
      ensures DateRange(start, end)[i + 1] == Next(DateRange(start, end)[i])
    {
      NextInRange(start, end, i);
    }
  }

  lemma RunAt(start: Date, r: seq<Date>, i: nat)
    requires Valid(start) && CountsFrom(start, r) && i < |r|
    ensures r[i] == AddDays(start, i)
  {
    AddDaysUnique(start, i, r[i]);
  }

  lemma DateRangeEnds(start: Date, end: Date)
    requires Valid(start) && Valid(end)
    requires DayNumber(start) <= DayNumber(end)
    ensures DateRange(start, end)[0] == start
    ensures DateRange(start, end)[|DateRange(start, end)| - 1] == end
  {
    RunEnds(start, end, DateRange(start, end));
  }

  /** A run of days counted from `start`. */
  predicate CountsFrom(start: Date, r: seq<Date>)
    requires Valid(start)
  {
    forall i :: 0 <= i < |r| ==> Valid(r[i]) && DayNumber(r[i]) == DayNumber(start) + i
  }

  lemma RunEnds(start: Date, end: Date, r: seq<Date>)
    requires Valid(start) && Valid(end) && CountsFrom(start, r)
    requires |r| == DayNumber(end) - DayNumber(start) + 1 > 0
    ensures r[0] == start && r[|r| - 1] == end
  {
    DayNumberInjective(r[0], start);
    DayNumberInjective(r[|r| - 1], end);
  }

  lemma NextInRange(start: Date, end: Date, i: nat)
    requires Valid(start) && Valid(end)
    requires i + 1 < |DateRange(start, end)|
    ensures DateRange(start, end)[i + 1] == Next(DateRange(start, end)[i])
  {
    RunSteps(start, DateRange(start, end), i);
  }

  lemma RunSteps(start: Date, r: seq<Date>, i: nat)
    requires Valid(start) && CountsFrom(start, r) && i + 1 < |r|
    ensures Valid(r[i]) && r[i + 1] == Next(r[i])
  {
    DayNumberInjective(r[i + 1], Next(r[i]));
  }

  /** `xs.index(x)`: the position of the first occurrence. */
  function FirstIndex(xs: seq<int>, x: int): (k: nat)
    requires x in xs
    ensures k < |xs| && xs[k] == x
    ensures forall j :: 0 <= j < k ==> xs[j] != x
  {
    if xs[0] == x then 0 else 1 + FirstIndex(xs[1..], x)
  }

  /** How many elements are strictly below `x`. */
  function CountBelow(xs: seq<int>, x: int): nat {
    if xs == [] then 0 else (if xs[0] < x then 1 else 0) + CountBelow(xs[1..], x)
  }

  /** In an ascending sequence, the first occurrence of `x` comes after
      exactly the elements below it. */
  lemma {:induction false} FirstIndexInSorted(xs: seq<int>, x: int)
    requires x in xs
    requires forall i, j :: 0 <= i < j < |xs| ==> xs[i] <= xs[j]
    ensures FirstIndex(xs, x) == CountBelow(xs, x)
    decreases |xs|
  {
    if xs[0] == x {
      NoneBelow(xs, x);
    } else {
      assert x in xs[1..] by {
        var k := FirstIndex(xs, x);
        assert xs[1..][k - 1] == x;
      }
      FirstIndexInSorted(xs[1..], x);
    }
  }

  lemma {:induction false} NoneBelow(xs: seq<int>, x: int)
    requires forall i :: 0 <= i < |xs| ==> x <= xs[i]
    ensures CountBelow(xs, x) == 0
    decreases |xs|
  {
    if xs != [] {
      NoneBelow(xs[1..], x);
    }
  }

  /** A row of `fetch_leaderboard`: `{"Rank", "Username", "Time"}`. */
  datatype BoardRow = BoardRow(rank: int, username: string, time: int)

  /** The rank `times.index(time) + 1` of row `i`. */
  function RankAt(data: seq<ResultEntry>, i: nat): (rank: int)
    requires i < |data|
    ensures 1 <= rank <= i + 1
    ensures data[rank - 1].time == data[i].time
    ensures forall j :: 0 <= j < rank - 1 ==> data[j].time != data[i].time
  {
    var times := Times(data);
    assert times[i] == data[i].time;
    FirstIndex(times, data[i].time) + 1
  }

  /** `fetch_leaderboard` on a day's rows (ordered by time by the query): one
      row per result, in order, with the user and time copied. */
  function FetchLeaderboard(data: seq<ResultEntry>): (r: seq<BoardRow>)
    ensures |r| == |data|
    ensures forall i :: 0 <= i < |data| ==>
      r[i].username == data[i].username && r[i].time == data[i].time && r[i].rank == RankAt(data, i)
  {
    seq(|data|, i requires 0 <= i < |data| => BoardRow(RankAt(data, i), data[i].username, data[i].time))
  }

  /** Rows with equal times share a rank. */
  lemma TiesShareRank(data: seq<ResultEntry>, i: nat, j: nat)
    requires i < |data| && j < |data| && data[i].time == data[j].time
    ensures FetchLeaderboard(data)[i].rank == FetchLeaderboard(data)[j].rank
  {
    var a := RankAt(data, i);
    var b := RankAt(data, j);
    assert data[a - 1].time == data[j].time;
    assert data[b - 1].time == data[i].time;
  }

  /** Rank 1 goes to exactly the rows tied with the first row. */
  lemma WinnersTieTheFirst(data: seq<ResultEntry>, i: nat)
    requires i < |data|
    ensures FetchLeaderboard(data)[i].rank == 1 <==> data[i].time == data[0].time
  {
  }

  /** On rows ordered by time the rank is competition ranking: one more
      than the number of strictly faster rows. */
  lemma CompetitionRanking(data: seq<ResultEntry>, i: nat)
    requires forall a, b :: 0 <= a < b < |data| ==> data[a].time <= data[b].time
    requires i < |data|
    ensures FetchLeaderboard(data)[i].rank == 1 + CountBelow(Times(data), data[i].time)
  {
    var times := Times(data);
    assert times[i] == data[i].time;
    FirstIndexInSorted(times, data[i].time);
  }

  /** Python truthiness of a JSON value; an absent key reads as the default 0. */
  predicate Truthy(j: Json) {
    match j
    case Absent => false
    case Null => false
    case Bool(b) => b
    case Int(i) => i != 0
    case Float(isZero) => !isZero
    case Str(s) => s != []
    case Compound(isEmpty) => !isEmpty
  }

  /** The entry's solving time is truthy; a missing `score` or a missing
      `secondsSpentSolving` field counts as 0, which is not. */
  predicate Solved(e: FeedEntry) {
    e.score.ScoreObject? && Truthy(e.score.secondsSpentSolving)
  }

  /** The comprehension of `fetch_today_leaderboard` and
      `fetch_live_leaderboard`: the solved entries in feed order. A `score`
      that is not an object (JSON null included) has no `get`, and the
      whole comprehension raises, shown as `None`. */
  function KeepSolved(es: seq<FeedEntry>): (r: Option<seq<FeedEntry>>)
    ensures r.None? <==> exists i :: 0 <= i < |es| && es[i].score.NotAnObject?
    ensures r.Some? ==> IsSubsequence(r.value, es)
    ensures r.Some? ==> forall i :: 0 <= i < |r.value| ==> Solved(r.value[i])
    ensures r.Some? ==> forall x :: multiset(r.value)[x] == (if Solved(x) then multiset(es)[x] else 0)
  {
    if es == [] then Some([])
    else
      assert es == [es[0]] + es[1..];
      assert forall i :: 1 <= i < |es| ==> es[i] == es[1..][i - 1];
      if es[0].score.NotAnObject? then None
      else
        match KeepSolved(es[1..])
        case None => None
        case Some(rest) =>
          if Solved(es[0]) then
            assert ([es[0]] + rest)[1..] == rest;
            Some([es[0]] + rest)
          else Some(rest)
  }

  /** `format_time`: Python's `divmod` floors, so the seconds field is always
      two digits in "00".."59", whatever the sign of the time. */
  function FormatTime(s: int): (r: string)
    ensures |r| >= 5 && r[|r| - 3] == ':'
    ensures AllDigits(SecondsField(r)) && ValueOf(SecondsField(r)) == s % 60
    ensures s >= 0 ==> AllDigits(MinutesField(r)) && ValueOf(MinutesField(r)) == s / 60
    ensures s < 0 ==>
      && |MinutesField(r)| >= 2 && MinutesField(r)[0] == '-'
      && AllDigits(MinutesField(r)[1..]) && ValueOf(MinutesField(r)[1..]) == -(s / 60)
  {
    ClockSeconds(s / 60, s % 60);
    PadIntReadsBack(s / 60, 2);
    Clock(s / 60, s % 60)
  }

  /** Seconds in 0..59 occupy the last two characters whatever the minutes. */
  lemma ClockSeconds(minutes: int, seconds: nat)
    requires seconds < 60
    ensures var r := Clock(minutes, seconds);
      && |r| >= 5 && r[|r| - 3] == ':'
      && AllDigits(SecondsField(r)) && ValueOf(SecondsField(r)) == seconds
      && MinutesField(r) == PadInt(minutes, 2)
  {
    ClockLength(minutes, seconds);
    assert Pow10(2) == 100 by { assert Pow10(1) == 10; }
    PadZeroLength(seconds, 2);
    ValueOfPadZero(seconds, 2);
    var m := PadInt(minutes, 2);
    var sec := PadZero(seconds, 2);
    assert Clock(minutes, seconds) == (m + ":") + sec;
  }

  /** For non-negative times the script's `format_time` and the page's
      `convert_time_to_mm_ss` agree. */
  lemma FormatTimeMatchesFilter(s: int)
    requires s >= 0
    ensures FormatTime(s) == ConvertTimeToMmSs(s)
  {
    Ints.TruncMatchesFloorWhenNonNegative(s, 60);
  }

  /** For negative times they disagree: floor division borrows a minute. */
  lemma FormatTimeOfNegative()
    ensures FormatTime(-5) == "-1:55"
    ensures ConvertTimeToMmSs(-5) == "00:-5"
  {
    NegativeTimeRendering();
    assert NatToString(5) == "5";
    assert NatToString(55) == "55";
    assert PadZero(55, 2) == "55";
    assert NatToString(1) == "1";
    assert PadInt(-1, 2) == "-1";
    assert Clock(-1, 55) == "-1:55";
  }
}
