/** The time filters of the page templates (src/templates.rs): a solve time in
    seconds shown as "mm:ss", and "--" for a feed entry without a score. */
module Filters {
  import opened Wrappers
  import opened Ints
  import opened Digits

  /** Minutes and seconds, each `{:02}`, joined by a colon. */
  function Clock(minutes: int, seconds: int): string {
    PadInt(minutes, 2) + ":" + PadInt(seconds, 2)
  }

  /** `convert_time_to_mm_ss`: Rust's `/` and `%` truncate toward zero, so a
      negative time gives a negative seconds field. */
  function ConvertTimeToMmSs(s: int): (r: string)
    ensures |r| >= 5
  {
    ClockLength(TruncDiv(s, 60), TruncRem(s, 60));
    Clock(TruncDiv(s, 60), TruncRem(s, 60))
  }

  lemma ClockLength(minutes: int, seconds: int)
    ensures |Clock(minutes, seconds)| >= 5
  {
    PadZeroLength(if minutes < 0 then -minutes else minutes, if minutes < 0 then 1 else 2);
    PadZeroLength(if seconds < 0 then -seconds else seconds, if seconds < 0 then 1 else 2);
  }

  /** The minutes field of a clock reading: everything before the last three characters. */
  function MinutesField(r: string): string
    requires |r| >= 3
  {
    r[..|r| - 3]
  }

  /** The seconds field: the last two characters. */
  function SecondsField(r: string): string
    requires |r| >= 2
  {
    r[|r| - 2..]
  }

  /** A clock of non-negative minutes and seconds below 60 reads back: the
      colon sits third from the end, the seconds field is exactly two digits,
      the minutes field is at least two digits, and both denote the numbers
      they were made from. */
  lemma ClockReadsBack(minutes: nat, seconds: nat)
    requires seconds < 60
    ensures var r := Clock(minutes, seconds);
      && |r| >= 5 && r[|r| - 3] == ':'
      && AllDigits(MinutesField(r)) && |MinutesField(r)| >= 2 && ValueOf(MinutesField(r)) == minutes
      && AllDigits(SecondsField(r)) && ValueOf(SecondsField(r)) == seconds
  {
    var m := PadZero(minutes, 2);
    var sec := PadZero(seconds, 2);
    assert Pow10(2) == 100 by { assert Pow10(1) == 10; }
    PadZeroLength(seconds, 2);
    PadZeroLength(minutes, 2);
    ValueOfPadZero(minutes, 2);
    ValueOfPadZero(seconds, 2);
    var r := Clock(minutes, seconds);
    assert r == m + ":" + sec;
    assert MinutesField(r) == m;
    assert SecondsField(r) == sec;
  }

  /** For a non-negative time: minutes are `s / 60`, seconds `s % 60`, and
      reading the two fields back gives 60 * minutes + seconds == s with
      seconds in "00".."59". */
  lemma MmSsReadsBack(s: int)
    requires s >= 0
    ensures var r := ConvertTimeToMmSs(s);
      && r[|r| - 3] == ':'
      && AllDigits(MinutesField(r)) && AllDigits(SecondsField(r))
      && ValueOf(MinutesField(r)) == s / 60 && ValueOf(SecondsField(r)) == s % 60
      && 60 * ValueOf(MinutesField(r)) + ValueOf(SecondsField(r)) == s
  {
    TruncMatchesFloorWhenNonNegative(s, 60);
    ClockReadsBack(s / 60, s % 60);
  }

  /** Two non-negative times with the same rendering are the same time. */
  lemma MmSsInjective(s: int, t: int)
    requires s >= 0 && t >= 0
    requires ConvertTimeToMmSs(s) == ConvertTimeToMmSs(t)
    ensures s == t
  {
    MmSsReadsBack(s);
    MmSsReadsBack(t);
  }

  /** The minutes are padded to at least two digits, so a non-negative time
      renders in exactly five characters precisely below 100 minutes. */
  lemma MmSsLength(s: int)
    requires s >= 0
    ensures |ConvertTimeToMmSs(s)| == 5 <==> s < 6000
  {
    TruncMatchesFloorWhenNonNegative(s, 60);
    assert Pow10(2) == 100 by { assert Pow10(1) == 10; }
    PadZeroLength(s / 60, 2);
    PadZeroLength(s % 60, 2);
  }

  /** A negative time keeps the sign in both fields: -5 seconds shows as
      "00:-5" and -65 seconds as "-1:-5". */
  lemma NegativeTimeRendering()
    ensures ConvertTimeToMmSs(-5) == "00:-5"
    ensures ConvertTimeToMmSs(-65) == "-1:-5"
  {
    UnderAMinute();
    OverAMinute();
  }

  lemma UnderAMinute()
    ensures ConvertTimeToMmSs(-5) == "00:-5"
  {
    assert TruncDiv(-5, 60) == 0 && TruncRem(-5, 60) == -5;
    assert NatToString(0) == "0" && NatToString(5) == "5";
    assert Zeros(1) == "0";
    assert PadInt(0, 2) == "00";
    assert PadInt(-5, 2) == "-5";
    assert Clock(0, -5) == "00:-5";
  }

  lemma OverAMinute()
    ensures ConvertTimeToMmSs(-65) == "-1:-5"
  {
    assert TruncDiv(-65, 60) == -1 && TruncRem(-65, 60) == -5;
    assert NatToString(5) == "5" && NatToString(1) == "1";
    assert PadInt(-5, 2) == "-5" && PadInt(-1, 2) == "-1";
    assert Clock(-1, -5) == "-1:-5";
  }

  /** `unpack_time`: "--" without a score, else the score's time as "mm:ss". */
  function UnpackTime(secondsSpentSolving: Option<int>): (r: string)
    ensures r == "--" <==> secondsSpentSolving.None?
    ensures secondsSpentSolving.Some? ==> r == ConvertTimeToMmSs(secondsSpentSolving.value)
  {
    match secondsSpentSolving
    case None => "--"
    case Some(s) => ConvertTimeToMmSs(s)
  }
}
