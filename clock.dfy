/** Time in the exam: the `MM:SS` display, the elapsed time reported at
    submission and the one-second countdown. */
module Clock {

  import opened Questions

  const TEST_DURATION_SECONDS: int := 90 * 60

  predicate IsDigit(c: char)
  {
    '0' <= c <= '9'
  }

  predicate AllDigits(s: string)
  {
    forall k :: 0 <= k < |s| ==> IsDigit(s[k])
  }

  function DigitChar(d: nat): (c: char)
    requires d < 10
    ensures IsDigit(c)
  {
    ('0' as int + d) as char
  }

  function DigitValue(c: char): (d: nat)
    requires IsDigit(c)
    ensures d < 10
  {
    c as int - '0' as int
  }

  /** `String(n)` for a non-negative integer: decimal digits without leading zeros. */
  function Decimal(n: nat): (r: string)
    ensures 1 <= |r| && AllDigits(r)
    ensures n < 10 ==> |r| == 1
    ensures n < 100 ==> |r| <= 2
    decreases n
  {
    if n < 10 then [DigitChar(n)] else Decimal(n / 10) + [DigitChar(n % 10)]
  }

  /** `s.padStart(2, '0')`. */
  function PadStart2(s: string): (r: string)
    ensures |r| == if |s| >= 2 then |s| else 2
    ensures AllDigits(s) ==> AllDigits(r)
    decreases 2 - |s|
  {
    if |s| >= 2 then s else PadStart2(['0'] + s)
  }

  /** `formatTime`: whole minutes and the remaining seconds, each padded to two digits. */
  function FormatTime(seconds: nat): (r: string)
    ensures |r| >= 5 && r[|r| - 3] == ':'
    ensures seconds < 6000 ==> |r| == 5 && IsDigit(r[0]) && IsDigit(r[1]) && IsDigit(r[3]) && IsDigit(r[4])
  {
    PadStart2(Decimal(seconds / 60)) + ":" + PadStart2(Decimal(seconds % 60))
  }

  /** The value of a string of decimal digits, leading zeros allowed. */
  function DigitsValue(s: string): nat
    requires AllDigits(s)
  {
    if s == [] then 0 else DigitsValue(s[..|s| - 1]) * 10 + DigitValue(s[|s| - 1])
  }

  /** Index of the first ':' in s, or |s| when there is none. */
  function ColonIndex(s: string): (k: nat)
    ensures k <= |s|
    ensures forall i :: 0 <= i < k ==> s[i] != ':'
    ensures k < |s| ==> s[k] == ':'
  {
    if s == [] then 0 else if s[0] == ':' then 0 else 1 + ColonIndex(s[1..])
  }

  /** The seconds a minutes part and a seconds part stand for. */
  function ClockValue(mm: string, ss: string): nat
    requires AllDigits(mm) && AllDigits(ss)
  {
    DigitsValue(mm) * 60 + DigitsValue(ss)
  }

  /** Reads an `MM:SS` display back into seconds: the inverse of FormatTime.
      The minutes part has at least two digits; the seconds part has exactly
      two and reads below 60. Anything else is not a display. */
  function ParseTime(s: string): Option<nat>
  {
    var c := ColonIndex(s);
    if 2 <= c && c + 3 == |s| && AllDigits(s[..c]) && AllDigits(s[c + 1..]) && DigitsValue(s[c + 1..]) < 60
    then Some(ClockValue(s[..c], s[c + 1..]))
    else None
  }

  lemma {:induction false} DecimalValue(n: nat)
    ensures DigitsValue(Decimal(n)) == n
    decreases n
  {
    if n >= 10 {
      DecimalValue(n / 10);
      var d := Decimal(n / 10) + [DigitChar(n % 10)];
      assert d[..|d| - 1] == Decimal(n / 10);
    }
  }

  lemma {:induction false} LeadingZeroValue(s: string)
    requires AllDigits(s)
    ensures AllDigits(['0'] + s) && DigitsValue(['0'] + s) == DigitsValue(s)
    decreases |s|
  {
    var z := ['0'] + s;
    if s != [] {
      LeadingZeroValue(s[..|s| - 1]);
      assert z[..|z| - 1] == ['0'] + s[..|s| - 1];
    } else {
      assert z[..|z| - 1] == [];
    }
  }

  lemma {:induction false} PadStart2Value(s: string)
    requires AllDigits(s)
    ensures DigitsValue(PadStart2(s)) == DigitsValue(s)
    decreases 2 - |s|
  {
    if |s| < 2 {
      LeadingZeroValue(s);
      PadStart2Value(['0'] + s);
    }
  }

  lemma ColonOfJoined(a: string, b: string)
    requires AllDigits(a)
    ensures ColonIndex(a + [':'] + b) == |a|
  {
    var r := a + [':'] + b;
    assert r[|a|] == ':';
  }

  lemma ParseJoined(a: string, b: string)
    requires AllDigits(a) && AllDigits(b)
    requires |a| >= 2 && |b| == 2 && DigitsValue(b) < 60
    ensures ParseTime(a + [':'] + b) == Some(ClockValue(a, b))
  {
    var r := a + [':'] + b;
    ColonOfJoined(a, b);
    assert r[..|a|] == a;
    assert r[|a| + 1..] == b;
  }

  /** A count padded to two digits reads back as the count. */
  lemma PaddedValue(n: nat)
    ensures AllDigits(PadStart2(Decimal(n))) && DigitsValue(PadStart2(Decimal(n))) == n
  {
    DecimalValue(n);
    PadStart2Value(Decimal(n));
  }

  /** The display is the whole minutes, a colon, and exactly two digits of
      seconds below 60. */
  lemma FormatTimeFields(seconds: nat)
    ensures var r := FormatTime(seconds);
            |r| >= 5 && r == r[..|r| - 3] + [':'] + r[|r| - 2..] &&
            AllDigits(r[|r| - 2..]) && DigitsValue(r[|r| - 2..]) == seconds % 60 &&
            AllDigits(r[..|r| - 3]) && |r[..|r| - 3]| >= 2 && DigitsValue(r[..|r| - 3]) == seconds / 60
  {
    var mm, ss := PadStart2(Decimal(seconds / 60)), PadStart2(Decimal(seconds % 60));
    PaddedValue(seconds / 60);
    PaddedValue(seconds % 60);
    var r := mm + [':'] + ss;
    assert FormatTime(seconds) == r;
    assert r[|r| - 2..] == ss && r[..|r| - 3] == mm;
  }

  /** Fields holding the whole minutes and the remaining seconds of n stand for n. */
  lemma ClockValueOf(mm: string, ss: string, n: nat)
    requires AllDigits(mm) && AllDigits(ss)
    requires DigitsValue(mm) == n / 60 && DigitsValue(ss) == n % 60
    ensures ClockValue(mm, ss) == n
  {
  }

  /** A display whose fields hold the whole minutes and the two-digit seconds
      of n reads back as n. */
  lemma ParseFields(r: string, n: nat)
    requires |r| >= 5 && r == r[..|r| - 3] + [':'] + r[|r| - 2..]
    requires AllDigits(r[|r| - 2..]) && DigitsValue(r[|r| - 2..]) == n % 60
    requires AllDigits(r[..|r| - 3]) && |r[..|r| - 3]| >= 2 && DigitsValue(r[..|r| - 3]) == n / 60
    ensures ParseTime(r) == Some(n)
  {
    var mm, ss := r[..|r| - 3], r[|r| - 2..];
    assert ParseTime(r) == Some(ClockValue(mm, ss)) by {
      ParseJoined(mm, ss);
    }
    ClockValueOf(mm, ss, n);
  }

  /** Reading the display back gives the seconds that were formatted, for any count. */
  lemma FormatTimeRoundTrip(seconds: nat)
    ensures ParseTime(FormatTime(seconds)) == Some(seconds)
  {
    FormatTimeFields(seconds);
    ParseFields(FormatTime(seconds), seconds);
  }

  /** `Math.floor((now - start) / 1000)`; Dafny's division by a positive
      constant rounds toward negative infinity, as Math.floor does. */
  function TimeTakenSeconds(now: int, start: int): (r: int)
    ensures r * 1000 <= now - start < r * 1000 + 1000
    ensures now >= start ==> r >= 0
  {
    (now - start) / 1000
  }

  /** The part of the session the countdown reads and writes. */
  datatype Countdown = Countdown(started: bool, submitted: bool, timeLeft: int)

  /** One firing of the one-second timer. The interval exists only while the
      session is started and not submitted; its body decrements the time, and
      at one second or less sets it to zero and marks the session submitted. */
  function Step(c: Countdown): (r: Countdown)
    ensures r.started == c.started
    ensures !c.started || c.submitted ==> r == c
    ensures c.timeLeft >= 0 ==> 0 <= r.timeLeft <= c.timeLeft
    ensures r.submitted != c.submitted ==> r.submitted && r.timeLeft == 0 && c.timeLeft <= 1
    ensures c.started && !c.submitted && c.timeLeft > 1 ==> r == c.(timeLeft := c.timeLeft - 1)
    ensures c.started && !c.submitted && c.timeLeft <= 1 ==> r == c.(timeLeft := 0, submitted := true)
  {
    if !c.started || c.submitted then c
    else if c.timeLeft <= 1 then c.(timeLeft := 0, submitted := true)
    else c.(timeLeft := c.timeLeft - 1)
  }

  /** The countdown after n firings. */
  function Ticks(c: Countdown, n: nat): (r: Countdown)
    ensures r.started == c.started
    ensures c.submitted ==> r.submitted
    ensures !c.started ==> r == c
    decreases n
  {
    if n == 0 then c else Ticks(Step(c), n - 1)
  }

  /** A running countdown at t >= 1 seconds keeps running for t - 1 firings
      and expires, exactly once, on firing t; later firings change nothing. */
  lemma {:induction false} TicksFromRunning(c: Countdown, n: nat)
    requires c.started && !c.submitted && c.timeLeft >= 1
    ensures Ticks(c, n) == if n < c.timeLeft then c.(timeLeft := c.timeLeft - n)
                           else c.(timeLeft := 0, submitted := true)
    decreases n
  {
    if n > 0 {
      if c.timeLeft > 1 {
        TicksFromRunning(Step(c), n - 1);
      } else {
        TicksAfterExpiry(Step(c), n - 1);
      }
    }
  }

  /** Once submitted (or never started), the countdown stands still. */
  lemma {:induction false} TicksAfterExpiry(c: Countdown, n: nat)
    requires !c.started || c.submitted
    ensures Ticks(c, n) == c
    decreases n
  {
    if n > 0 {
      TicksAfterExpiry(Step(c), n - 1);
    }
  }

  /** From a fresh session's 5400 seconds, firing n is the submitting one
      exactly when n reaches 5400, and the time shown is never negative. */
  lemma FullDurationExpires(n: nat)
    ensures var c := Ticks(Countdown(true, false, TEST_DURATION_SECONDS), n);
            (c.submitted <==> n >= TEST_DURATION_SECONDS) &&
            c.timeLeft == (if n < TEST_DURATION_SECONDS then TEST_DURATION_SECONDS - n else 0)
  {
    TicksFromRunning(Countdown(true, false, TEST_DURATION_SECONDS), n);
  }

  /** The time left never increases and never goes below zero. */
  lemma {:induction false} TicksMonotone(c: Countdown, n: nat)
    requires c.timeLeft >= 0
    ensures 0 <= Ticks(c, n).timeLeft <= c.timeLeft
    decreases n
  {
    if n > 0 {
      TicksMonotone(Step(c), n - 1);
    }
  }
}
