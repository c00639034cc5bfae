/**
 * The elapsed-time column of the job status table
 * (`JobStatusFrame.get_execution_time`): a duration in seconds, split by
 * chained `divmod`s into days, hours, minutes and seconds, then written as
 * text.
 */
module JobStatus {
  import opened Text

  lemma MulLe(a: real, b: real, y: real)
    requires a <= b && y > 0.0
    ensures a * y <= b * y
  {
    assert (b - a) * y >= 0.0;
  }

  lemma MulLt(a: real, b: real, y: real)
    requires a < b && y > 0.0
    ensures a * y < b * y
  {
    assert (b - a) * y > 0.0;
  }

  lemma IntMulLe(a: int, b: int, y: int)
    requires a <= b && y > 0
    ensures a * y <= b * y
  {
    assert (b - a) * y >= 0;
  }

  /** Python's `divmod` on a positive divisor: the floored quotient and the remainder. */
  function DivMod(x: real, y: real): (r: (int, real))
    requires y > 0.0
    ensures r.0 as real * y + r.1 == x && 0.0 <= r.1 < y
  {
    var z := x / y;
    var q := z.Floor;
    assert z * y == x;
    assert q as real <= z < q as real + 1.0;
    MulLe(q as real, z, y);
    MulLt(z, q as real + 1.0, y);
    assert (q as real + 1.0) * y == q as real * y + y;
    assert x < q as real * y + y;
    assert x - q as real * y < y;
    (q, x - q as real * y)
  }

  /** A duration split into its parts; `fraction` is what `int()` drops from the seconds. */
  datatype Duration = Duration(days: int, hours: int, minutes: int, seconds: int, fraction: real)

  /** The chained `divmod`s by 86400, 3600, 60 and 1. */
  function Decompose(total: real): (d: Duration)
    ensures d.days as real * 86400.0 + d.hours as real * 3600.0 + d.minutes as real * 60.0 + d.seconds as real + d.fraction == total
    ensures 0 <= d.hours < 24 && 0 <= d.minutes < 60 && 0 <= d.seconds < 60 && 0.0 <= d.fraction < 1.0
  {
    var days := DivMod(total, 86400.0);
    var hours := DivMod(days.1, 3600.0);
    var minutes := DivMod(hours.1, 60.0);
    var seconds := DivMod(minutes.1, 1.0);
    assert hours.0 < 24 by {
      assert hours.0 as real * 3600.0 < 86400.0;
    }
    assert minutes.0 < 60 by {
      assert minutes.0 as real * 60.0 < 3600.0;
    }
    Duration(days.0, hours.0, minutes.0, seconds.0, seconds.1)
  }

  /** The trailing `MM:SS` segment. */
  function MinutesSeconds(d: Duration): (r: string)
    requires 0 <= d.minutes < 60 && 0 <= d.seconds < 60
    ensures |r| == 5 && r[2] == ':'
    ensures AllDigits(r[..2]) && ParseDigits(r[..2]) == d.minutes
    ensures AllDigits(r[3..]) && ParseDigits(r[3..]) == d.seconds
  {
    var r := Pad2(d.minutes) + ":" + Pad2(d.seconds);
    assert r[..2] == Pad2(d.minutes) && r[3..] == Pad2(d.seconds);
    r
  }

  /**
   * `get_execution_time`, as written: `MM:SS`; with hours or days, the hours
   * then the literal text `:02:` before it; with days, the days and `:`
   * before that.
   */
  function ExecutionTime(total: real): (r: string)
    ensures |r| >= 5
  {
    var d := Decompose(total);
    var t := MinutesSeconds(d);
    var t := if d.hours != 0 || d.days != 0 then IntToString(d.hours) + ":02:" + t else t;
    if d.days != 0 then IntToString(d.days) + ":" + t else t
  }

  // ---------------------------------------------------------------------
  // The parts, read off the whole seconds
  // ---------------------------------------------------------------------

  /** Integer division is the unique quotient that leaves a remainder in `[0, y)`. */
  lemma DivUnique(n: int, q: int, y: int)
    requires y > 0 && q * y <= n < q * y + y
    ensures n / y == q && n % y == n - q * y
  {
    var p := n / y;
    if p < q {
      IntMulLe(p + 1, q, y);
    } else if p > q {
      IntMulLe(q + 1, p, y);
    }
  }

  /** One `divmod` by a whole number of seconds agrees with integer division of the whole seconds. */
  lemma FloorDivMod(x: real, y: int)
    requires y > 0
    ensures DivMod(x, y as real).0 == x.Floor / y
    ensures DivMod(x, y as real).1.Floor == x.Floor % y
  {
    var (q, r) := DivMod(x, y as real);
    var n := x.Floor;
    assert (q * y) as real == q as real * y as real;
    assert q * y <= n;
    assert ((q + 1) * y) as real == q as real * y as real + y as real;
    assert n < q * y + y;
    DivUnique(n, q, y);
    assert r == x - (q * y) as real;
    assert r.Floor == n - q * y;
  }

  /** The parts of a duration are those of its whole seconds `n`: `n / 86400`, `n % 86400 / 3600`, `n % 3600 / 60`, `n % 60`. */
  lemma DecomposeWholeSeconds(total: real)
    ensures var n := total.Floor; var d := Decompose(total);
      d.days == n / 86400 && d.hours == n % 86400 / 3600 && d.minutes == n % 3600 / 60 && d.seconds == n % 60
  {
    var n := total.Floor;
    var days := DivMod(total, 86400.0);
    FloorDivMod(total, 86400);
    var hours := DivMod(days.1, 3600.0);
    FloorDivMod(days.1, 3600);
    var minutes := DivMod(hours.1, 60.0);
    FloorDivMod(hours.1, 60);
    var seconds := DivMod(minutes.1, 1.0);
    FloorDivMod(minutes.1, 1);
    assert n % 86400 % 3600 == n % 3600 by {
      ModOfMod(n, 24, 3600);
    }
    assert n % 3600 % 60 == n % 60 by {
      ModOfMod(n, 60, 60);
    }
  }

  /** Taking the remainder by a multiple `a*b` of `b` first does not change the remainder by `b`. */
  lemma ModOfMod(n: int, a: int, b: int)
    requires a > 0 && b > 0
    ensures n % (a * b) % b == n % b
  {
    var big := n / (a * b);
    var r := n % (a * b);
    var s := r / b;
    var t := r % b;
    assert n == big * (a * b) + r;
    assert r == s * b + t;
    assert big * (a * b) + s * b == (big * a + s) * b;
    DivUnique(n, big * a + s, b);
  }

  // ---------------------------------------------------------------------
  // The output forms
  // ---------------------------------------------------------------------

  /** Under an hour the text is exactly `MM:SS`, and reads back as the whole minutes and seconds. */
  lemma UnderAnHour(total: real)
    requires 0.0 <= total < 3600.0
    ensures var r := ExecutionTime(total); var n := total.Floor;
      |r| == 5 && r[2] == ':' && ParseDigits(r[..2]) == n / 60 && ParseDigits(r[3..]) == n % 60
  {
    DecomposeWholeSeconds(total);
  }

  /**
   * From one hour up to a day the text is the hours, the literal `:02:`,
   * then `MM:SS`: the middle field is always `02`, whatever the minutes.
   */
  lemma HoursForm(total: real)
    requires 3600.0 <= total < 86400.0
    ensures var r := ExecutionTime(total); var n := total.Floor;
      r == NatToString(n / 3600) + ":02:" + Pad2(n % 3600 / 60) + ":" + Pad2(n % 60)
  {
    DecomposeWholeSeconds(total);
  }

  /** With a nonzero number of days the text starts with the days and `:`, then the hours and `:02:`. */
  lemma DaysForm(total: real)
    requires total < 0.0 || total >= 86400.0
    ensures var r := ExecutionTime(total); var d := Decompose(total);
      d.days != 0 && r == IntToString(d.days) + ":" + NatToString(d.hours) + ":02:" + MinutesSeconds(d)
  {
  }

  /** Whatever the duration, the text ends with `MM:SS` holding the whole minutes and seconds. */
  lemma EndsWithMinutesSeconds(total: real)
    ensures var r := ExecutionTime(total); var n := total.Floor;
      r[|r| - 3] == ':' && AllDigits(r[|r| - 5..|r| - 3]) && AllDigits(r[|r| - 2..])
      && ParseDigits(r[|r| - 5..|r| - 3]) == n % 3600 / 60 && ParseDigits(r[|r| - 2..]) == n % 60
  {
    DecomposeWholeSeconds(total);
    var d := Decompose(total);
    var mmss := MinutesSeconds(d);
    var r := ExecutionTime(total);
    assert r[|r| - 5..] == mmss;
    assert r[|r| - 5..|r| - 3] == mmss[..2] && r[|r| - 2..] == mmss[3..];
  }

  // ---------------------------------------------------------------------
  // The hours field
  // ---------------------------------------------------------------------

  /** One hour is written `1:02:00:00`, whose second field reads as two minutes although the minutes are zero. */
  lemma OneHourAsWritten()
    ensures ExecutionTime(3600.0) == "1:02:00:00"
    ensures Decompose(3600.0).minutes == 0
  {
    DecomposeWholeSeconds(3600.0);
    assert Pad2(0) == "00";
  }

  /** The evidently intended text: the hours zero-padded to two digits (`f"{hours:02}:"`), then `MM:SS`. */
  function ExecutionTimeIntended(total: real): (r: string)
    ensures |r| >= 5
  {
    var d := Decompose(total);
    var t := MinutesSeconds(d);
    var t := if d.hours != 0 || d.days != 0 then Pad2(d.hours) + ":" + t else t;
    if d.days != 0 then IntToString(d.days) + ":" + t else t
  }

  /** Under a day and from one hour on, the intended text is `HH:MM:SS` and reads back as the whole seconds. */
  lemma IntendedReadsBack(total: real)
    requires 3600.0 <= total < 86400.0
    ensures var r := ExecutionTimeIntended(total);
      |r| == 8 && r[2] == ':' && r[5] == ':' && AllDigits(r[..2]) && AllDigits(r[3..5]) && AllDigits(r[6..])
      && ParseDigits(r[..2]) * 3600 + ParseDigits(r[3..5]) * 60 + ParseDigits(r[6..]) == total.Floor
  {
    DecomposeWholeSeconds(total);
    var d := Decompose(total);
    var hh := Pad2(d.hours);
    var mmss := MinutesSeconds(d);
    var r := ExecutionTimeIntended(total);
    assert r == hh + ":" + mmss;
    assert r[..2] == hh && r[3..5] == mmss[..2] && r[6..] == mmss[3..];
  }
}
