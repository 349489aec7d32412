/** Decimal text: rendering naturals with and without zero padding (the
    `{:02}` / `%02d` / `%Y` family of format specifiers), reading digit
    strings back, and Rust's `str::parse::<i32>`. */
module Digits {
  import opened Wrappers
  import opened Ints

  predicate IsDigit(c: char) { '0' <= c <= '9' }

  predicate AllDigits(s: string) {
    forall i :: 0 <= i < |s| ==> IsDigit(s[i])
  }

  function DigitChar(d: int): (c: char)
    requires 0 <= d < 10
    ensures IsDigit(c)
  {
    ('0' as int + d) as char
  }

  function DigitValue(c: char): (d: int)
    requires IsDigit(c)
    ensures 0 <= d < 10
  {
    c as int - '0' as int
  }

  function Pow10(k: nat): (p: nat)
    ensures p >= 1
  {
    if k == 0 then 1 else 10 * Pow10(k - 1)
  }

  /** Shortest decimal rendering of `n` (no leading zeros; "0" for zero). */
  function NatToString(n: nat): (s: string)
    ensures 1 <= |s| && AllDigits(s)
    decreases n
  {
    if n < 10 then [DigitChar(n)] else NatToString(n / 10) + [DigitChar(n % 10)]
  }

  function Zeros(k: nat): (s: string)
    ensures |s| == k && AllDigits(s)
  {
    if k == 0 then [] else Zeros(k - 1) + ['0']
  }

  /** `n` zero-padded on the left to at least `width` characters. */
  function PadZero(n: nat, width: nat): string {
    var t := NatToString(n);
    if |t| < width then Zeros(width - |t|) + t else t
  }

  /** Exactly `width` low-order decimal digits of `n`. */
  function Fixed(n: nat, width: nat): (s: string)
    ensures |s| == width && AllDigits(s)
  {
    if width == 0 then [] else Fixed(n / 10, width - 1) + [DigitChar(n % 10)]
  }

  /** The number a digit string denotes (leading zeros allowed). */
  function ValueOf(s: string): nat
    requires AllDigits(s)
  {
    if s == [] then 0 else 10 * ValueOf(s[..|s| - 1]) + DigitValue(s[|s| - 1])
  }

  /** Signed decimal rendering, as Rust's and Python's default integer display. */
  function ShowInt(n: int): string {
    if n < 0 then "-" + NatToString(-n) else NatToString(n)
  }

  /** Sign-aware zero padding to total width `width` (`{:0w}` in Rust,
      `{:0wd}` in Python): the sign counts toward the width. */
  function PadInt(n: int, width: nat): string {
    if n < 0 then "-" + PadZero(-n, if width == 0 then 0 else width - 1) else PadZero(n, width)
  }

  lemma {:induction false} ValueOfNatToString(n: nat)
    ensures ValueOf(NatToString(n)) == n
    decreases n
  {
    if n >= 10 {
      var t := NatToString(n);
      assert t[..|t| - 1] == NatToString(n / 10);
      ValueOfNatToString(n / 10);
    }
  }

  lemma {:induction false} ValueOfZerosThen(k: nat, t: string)
    requires AllDigits(t)
    ensures AllDigits(Zeros(k) + t)
    ensures ValueOf(Zeros(k) + t) == ValueOf(t)
    decreases |t|
  {
    var s := Zeros(k) + t;
    if t == [] {
      assert s == Zeros(k);
      ValueOfZeros(k);
    } else {
      assert s[..|s| - 1] == Zeros(k) + t[..|t| - 1];
      ValueOfZerosThen(k, t[..|t| - 1]);
    }
  }

  lemma {:induction false} ValueOfZeros(k: nat)
    ensures ValueOf(Zeros(k)) == 0
  {
    if k > 0 {
      assert Zeros(k)[..k - 1] == Zeros(k - 1);
      ValueOfZeros(k - 1);
    }
  }

  /** Reading a zero-padded rendering gives the number back. */
  lemma ValueOfPadZero(n: nat, width: nat)
    ensures AllDigits(PadZero(n, width))
    ensures ValueOf(PadZero(n, width)) == n
  {
    ValueOfNatToString(n);
    var t := NatToString(n);
    if |t| < width {
      ValueOfZerosThen(width - |t|, t);
    }
  }

  /** Reading a sign-aware padded rendering gives the number back: digits
      alone for a non-negative number, a `-` and the magnitude otherwise. */
  lemma PadIntReadsBack(n: int, width: nat)
    ensures n >= 0 ==> AllDigits(PadInt(n, width)) && ValueOf(PadInt(n, width)) == n
    ensures n < 0 ==>
      && |PadInt(n, width)| >= 2 && PadInt(n, width)[0] == '-'
      && AllDigits(PadInt(n, width)[1..]) && ValueOf(PadInt(n, width)[1..]) == -n
  {
    if n < 0 {
      var w := if width == 0 then 0 else width - 1;
      ValueOfPadZero(-n, w);
      assert PadInt(n, width)[1..] == PadZero(-n, w);
    } else {
      ValueOfPadZero(n, width);
    }
  }

  /** A natural below `10^k` needs at most `k` digits, and conversely. */
  lemma {:induction false} NatToStringLength(n: nat, k: nat)
    requires k >= 1
    ensures |NatToString(n)| <= k <==> n < Pow10(k)
    decreases n
  {
    if n >= 10 {
      if k == 1 {
        assert |NatToString(n)| >= 2;
      } else {
        NatToStringLength(n / 10, k - 1);
      }
    }
  }

  /** The length of a padded rendering: the width, or more for wide numbers. */
  lemma PadZeroLength(n: nat, width: nat)
    requires width >= 1
    ensures |PadZero(n, width)| == width <==> n < Pow10(width)
    ensures |PadZero(n, width)| >= width
  {
    NatToStringLength(n, width);
  }

  lemma {:induction false} FixedOfZero(k: nat)
    ensures Fixed(0, k) == Zeros(k)
  {
    if k > 0 {
      FixedOfZero(k - 1);
    }
  }

  /** Below `10^width`, padding to `width` is the fixed-width rendering. */
  lemma {:induction false} PadZeroIsFixed(n: nat, width: nat)
    requires width >= 1 && n < Pow10(width)
    ensures PadZero(n, width) == Fixed(n, width)
    decreases width
  {
    if n < 10 {
      FixedOfZero(width - 1);
      assert n / 10 == 0;
    } else {
      assert Pow10(1) == 10;
      assert width >= 2;
      NatToStringLength(n / 10, width - 1);
      PadZeroIsFixed(n / 10, width - 1);
      var t := NatToString(n / 10);
      if |t| < width - 1 {
        assert PadZero(n, width) == (Zeros(width - 1 - |t|) + t) + [DigitChar(n % 10)];
      }
    }
  }

  lemma {:induction false} ValueOfBound(s: string)
    requires AllDigits(s)
    ensures ValueOf(s) < Pow10(|s|)
    decreases |s|
  {
    if s != [] {
      ValueOfBound(s[..|s| - 1]);
    }
  }

  /** Rendering the value of a digit string at its own width gives the string back. */
  lemma {:induction false} FixedOfValue(s: string)
    requires AllDigits(s)
    ensures Fixed(ValueOf(s), |s|) == s
    decreases |s|
  {
    if s != [] {
      var init := s[..|s| - 1];
      var v := ValueOf(s);
      assert v / 10 == ValueOf(init) && v % 10 == DigitValue(s[|s| - 1]);
      FixedOfValue(init);
      assert s == init + [s[|s| - 1]];
    }
  }

  /** Reading a fixed-width rendering gives the number back when it fits. */
  lemma {:induction false} ValueOfFixed(n: nat, width: nat)
    requires n < Pow10(width)
    ensures ValueOf(Fixed(n, width)) == n
    decreases width
  {
    if width > 0 {
      var s := Fixed(n, width);
      assert s[..|s| - 1] == Fixed(n / 10, width - 1);
      ValueOfFixed(n / 10, width - 1);
    }
  }

  /** Rust's `str::parse::<i32>`: an optional `+` or `-`, then at least one
      ASCII digit and nothing else, with a value inside the `i32` range. */
  function ParseI32(s: string): (r: Option<int>)
    ensures r.Some? ==> IsI32(r.value)
    ensures s == [] || !(IsDigit(s[0]) || s[0] == '+' || s[0] == '-') ==> r.None?
    // Unsigned: every character a digit, value at most 2^31 - 1.
    ensures |s| >= 1 && IsDigit(s[0]) ==>
      && (r.Some? <==> AllDigits(s) && ValueOf(s) <= MAX_I32)
      && (r.Some? ==> r.value == ValueOf(s))
    // An explicit `+`: the same, for the digits after it.
    ensures |s| >= 1 && s[0] == '+' ==>
      && (r.Some? <==> |s| >= 2 && AllDigits(s[1..]) && ValueOf(s[1..]) <= MAX_I32)
      && (r.Some? ==> r.value == ValueOf(s[1..]))
    // A `-`: the magnitude may reach 2^31.
    ensures |s| >= 1 && s[0] == '-' ==>
      && (r.Some? <==> |s| >= 2 && AllDigits(s[1..]) && ValueOf(s[1..]) <= -MIN_I32)
      && (r.Some? ==> r.value == -(ValueOf(s[1..]) as int))
  {
    if s == [] then None
    else
      var negative := s[0] == '-';
      var body := if s[0] == '-' || s[0] == '+' then s[1..] else s;
      if body == [] || !AllDigits(body) then None
      else
        var magnitude: int := ValueOf(body);
        var v := if negative then -magnitude else magnitude;
        if IsI32(v) then Some(v) else None
  }

  /** Parsing the display of an `i32` gives the number back. */
  lemma ParseShowInt(n: int)
    requires IsI32(n)
    ensures ParseI32(ShowInt(n)) == Some(n)
  {
    if n < 0 {
      ValueOfNatToString(-n);
      var t := NatToString(-n);
      assert ShowInt(n) == "-" + t;
      assert ("-" + t)[1..] == t;
      assert ("-" + t)[0] == '-';
    } else {
      ValueOfNatToString(n);
      assert IsDigit(NatToString(n)[0]);
    }
  }
}
