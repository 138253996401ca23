/** The Pomodoro screen of the app: a countdown in whole seconds that can be
    started, stopped, reset, and moved by ten minutes with a scroll gesture,
    shown as `MM:SS`. */
module Pomodoro {

  /** Initial and reset value of the countdown: 25 minutes. */
  const DefaultSeconds := 1500
  /** What one scroll gesture adds or takes away: 10 minutes. */
  const ScrollStep := 600

  datatype Option<T> = None | Some(value: T)

  function Max(a: int, b: int): int { if a >= b then a else b }

  // ---------------------------------------------------------------------
  // Decimal notation of the integers the timer shows

  predicate IsDigit(c: char) { '0' <= c <= '9' }

  predicate AllDigits(s: string) {
    forall i :: 0 <= i < |s| ==> IsDigit(s[i])
  }

  function Digit(d: nat): (c: char)
    requires d < 10
    ensures IsDigit(c) && c as int - '0' as int == d
  {
    (d + '0' as int) as char
  }

  function DigitValue(c: char): (d: nat)
    requires IsDigit(c)
    ensures d < 10 && Digit(d) == c
  {
    c as int - '0' as int
  }

  /** The decimal notation JavaScript gives a non-negative integer (no sign,
      no leading zero). It has one digit exactly below 10 and at most two
      exactly below 100. */
  function Decimal(n: nat): (s: string)
    ensures AllDigits(s) && |s| >= 1
    ensures n < 10 <==> |s| == 1
    ensures n < 100 <==> |s| <= 2
    ensures |s| > 1 ==> s[0] != '0'
  {
    if n < 10 then [Digit(n)] else Decimal(n / 10) + [Digit(n % 10)]
  }

  /** Reads a string of digits as a number, most significant digit first. */
  function ParseDecimal(s: string): nat
    requires AllDigits(s)
  {
    if s == [] then 0 else 10 * ParseDecimal(s[..|s| - 1]) + DigitValue(s[|s| - 1])
  }

  /** Reading back the decimal notation of `n` gives `n`. */
  lemma {:induction false} ParseDecimalOfDecimal(n: nat)
    ensures ParseDecimal(Decimal(n)) == n
  {
    var s := Decimal(n);
    if n >= 10 {
      assert s[..|s| - 1] == Decimal(n / 10);
      ParseDecimalOfDecimal(n / 10);
    }
  }

  /** A leading zero does not change the value read. */
  lemma {:induction false} ParseDecimalLeadingZero(s: string)
    requires AllDigits(s)
    ensures AllDigits(['0'] + s) && ParseDecimal(['0'] + s) == ParseDecimal(s)
    decreases |s|
  {
    var z := ['0'] + s;
    assert AllDigits(z) by {
      assert forall i :: 0 < i < |z| ==> z[i] == s[i - 1];
    }
    if s != [] {
      assert z[..|z| - 1] == ['0'] + s[..|s| - 1];
      ParseDecimalLeadingZero(s[..|s| - 1]);
    }
  }

  /** A field of `formatTime`: prefixed with `'0'` when below 10. */
  function Pad2(n: nat): string
  {
    if n < 10 then ['0'] + Decimal(n) else Decimal(n)
  }

  /** A padded field is at least two digits, exactly two below 100, starts
      with `'0'` only below 10, and reads back as `n`. */
  lemma Pad2Digits(n: nat)
    ensures AllDigits(Pad2(n)) && |Pad2(n)| >= 2
    ensures n < 100 <==> |Pad2(n)| == 2
    ensures n >= 10 ==> Pad2(n)[0] != '0'
    ensures ParseDecimal(Pad2(n)) == n
  {
    ParseDecimalOfDecimal(n);
    if n < 10 {
      ParseDecimalLeadingZero(Decimal(n));
    }
  }

  // ---------------------------------------------------------------------
  // formatTime

  /** `formatTime(seconds)`: minutes and seconds, each zero-padded to at
      least two digits, separated by `':'`. The last three characters are
      the colon and the seconds field; the seconds field reads as
      `seconds % 60`, so its first digit is `0` to `5`; the minutes field
      before the colon reads as `seconds / 60` and has no leading zero from
      ten minutes on; and the whole string is the
      five characters `MM:SS` exactly when the time is below 100 minutes. */
  function FormatTime(seconds: nat): (r: string)
    ensures |r| >= 5 && r[|r| - 3] == ':'
    ensures AllDigits(r[..|r| - 3]) && ParseDecimal(r[..|r| - 3]) == seconds / 60
    ensures AllDigits(r[|r| - 2..]) && ParseDecimal(r[|r| - 2..]) == seconds % 60
    ensures '0' <= r[|r| - 2] <= '5'
    ensures seconds >= 600 ==> r[0] != '0'
    ensures seconds < 6000 <==> |r| == 5
  {
    var mins := seconds / 60;
    var secs := seconds % 60;
    Pad2Digits(mins);
    Pad2Digits(secs);
    var r := Pad2(mins) + ":" + Pad2(secs);
    assert r[..|r| - 3] == Pad2(mins);
    assert r[|r| - 2..] == Pad2(secs);
    assert '0' <= r[|r| - 2] <= '5' by {
      if secs >= 10 {
        assert Pad2(secs) == Decimal(secs / 10) + [Digit(secs % 10)];
        assert Decimal(secs / 10) == [Digit(secs / 10)];
      }
    }
    r
  }

  /** Reads a displayed time `M…M:SS` back into seconds; `None` when the
      text is not of that form or the seconds field is 60 or more. */
  function ParseTime(t: string): Option<nat>
  {
    if |t| >= 4 && t[|t| - 3] == ':' && AllDigits(t[..|t| - 3]) && AllDigits(t[|t| - 2..]) then
      var secs := ParseDecimal(t[|t| - 2..]);
      if secs < 60 then Some(60 * ParseDecimal(t[..|t| - 3]) + secs) else None
    else None
  }

  /** Every displayed time reads back to the number of seconds it shows,
      so no two times look the same. */
  lemma ParseFormatTime(seconds: nat)
    ensures ParseTime(FormatTime(seconds)) == Some(seconds)
  {
  }

  lemma FormatTimeInjective(s: nat, t: nat)
    requires FormatTime(s) == FormatTime(t)
    ensures s == t
  {
    ParseFormatTime(s);
    ParseFormatTime(t);
  }

  // ---------------------------------------------------------------------
  // The screen's state and its event handlers

  /** The state of the Pomodoro screen. A scroll gesture lasts from its
      first scroll event until scroll-end, and `isScrolling` is set exactly
      during one. */
  class PomodoroTimer {
    var timer: int
    var isRunning: bool
    var isScrolling: bool

    /** The countdown never goes below zero. */
    ghost predicate Valid()
      reads this
    {
      timer >= 0
    }

    constructor()
      ensures Valid()
      ensures timer == DefaultSeconds && !isRunning && !isScrolling
    {
      timer := DefaultSeconds;
      isRunning := false;
      isScrolling := false;
    }

    /** `toggleTimer`: stop when running, start when stopped; the time
        shown does not change. */
    method ToggleTimer()
      requires Valid()
      modifies this
      ensures Valid()
      ensures isRunning == !old(isRunning)
      ensures timer == old(timer) && isScrolling == old(isScrolling)
    {
      if isRunning {
        isRunning := false;
      } else {
        isRunning := true;
      }
    }

    /** One firing of the interval started by `toggleTimer`, which exists
        exactly while the timer runs: count down by one second, or, once at
        zero, stay at zero and stop. */
    method Tick()
      requires Valid() && isRunning
      modifies this
      ensures Valid()
      ensures old(timer) <= 0 ==> timer == 0 && !isRunning
      ensures old(timer) > 0 ==> timer == old(timer) - 1 && isRunning
      ensures isScrolling == old(isScrolling)
    {
      if timer <= 0 {
        isRunning := false;
        timer := 0;
      } else {
        timer := timer - 1;
      }
    }

    /** `resetTimer`: stopped, at 25 minutes, whatever came before. */
    method ResetTimer()
      requires Valid()
      modifies this
      ensures Valid()
      ensures timer == DefaultSeconds && !isRunning
      ensures isScrolling == old(isScrolling)
    {
      if isRunning {
        isRunning := false;
      }
      timer := DefaultSeconds;
    }

    /** `handleScroll` with the reported vertical offset: the first scroll
        event of a gesture takes ten minutes off (not below zero) for a
        positive offset and adds ten minutes (without a ceiling) otherwise;
        later events of the same gesture change nothing. */
    method HandleScroll(contentOffsetY: real)
      requires Valid()
      modifies this
      ensures Valid()
      ensures isRunning == old(isRunning)
      ensures old(isScrolling) ==> timer == old(timer) && isScrolling
      ensures !old(isScrolling) ==> isScrolling
      ensures !old(isScrolling) && contentOffsetY > 0.0 ==> timer == Max(old(timer) - ScrollStep, 0)
      ensures !old(isScrolling) && contentOffsetY <= 0.0 ==> timer == old(timer) + ScrollStep
    {
      if contentOffsetY > 0.0 {
        if !isScrolling {
          isScrolling := true;
          timer := Max(timer - ScrollStep, 0);
        }
      } else {
        if !isScrolling {
          isScrolling := true;
          timer := timer + ScrollStep;
        }
      }
    }

    /** `handleScrollEnd`: the gesture is over; nothing else changes. */
    method HandleScrollEnd()
      requires Valid()
      modifies this
      ensures Valid()
      ensures !isScrolling
      ensures timer == old(timer) && isRunning == old(isRunning)
    {
      isScrolling := false;
    }
  }
}
