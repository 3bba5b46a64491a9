/** Duration arithmetic shared by every component: whole seconds from milliseconds,
    the hours/minutes/seconds split, the short "1h 1m" display and the `HH:MM:SS` clock text. */
module Durations {
  import opened Text

  /** `{ hours, minutes, seconds }` of types.ts. */
  datatype Duration = Duration(hours: int, minutes: int, seconds: int)

  /** `h * 3600 + m * 60 + s`, the inverse sum used wherever a duration is added up. */
  function ToSeconds(d: Duration): int
  {
    d.hours * 3600 + d.minutes * 60 + d.seconds
  }

  /** JavaScript's `a % b` for a positive divisor: the remainder keeps the sign of `a`. */
  function JsRem(a: int, b: int): (r: int)
    requires b > 0
    ensures a >= 0 ==> 0 <= r < b
    ensures a < 0 ==> -b < r <= 0
  {
    if a >= 0 then a % b else -((-a) % b)
  }

  /** `Math.floor(ms / 1000)`. */
  function WholeSeconds(ms: int): (r: int)
    ensures r * 1000 <= ms < r * 1000 + 1000
    ensures ms >= 0 ==> r >= 0
  {
    ms / 1000
  }

  /** `Math.max(0, Math.floor(ms / 1000))`, the clamped form used by manual add and edit. */
  function ClampedWholeSeconds(ms: int): (r: int)
    ensures r >= 0
    ensures ms >= 0 ==> r * 1000 <= ms < r * 1000 + 1000
    ensures ms < 0 ==> r == 0
  {
    var t := WholeSeconds(ms);
    if t < 0 then 0 else t
  }

  /** `hours = Math.floor(t / 3600)`, `minutes = Math.floor((t % 3600) / 60)`, `seconds = t % 60`,
      with `%` taken as JavaScript takes it. */
  function Decompose(t: int): Duration
  {
    Duration(t / 3600, JsRem(t, 3600) / 60, JsRem(t, 60))
  }

  /** For a non-negative total the split is canonical and adds back up to the total. */
  lemma {:induction false} DecomposeCanonical(t: int)
    requires t >= 0
    ensures var d := Decompose(t);
      d.hours >= 0 && 0 <= d.minutes < 60 && 0 <= d.seconds < 60 && ToSeconds(d) == t
  {
    var q, r := t / 3600, t % 3600;
    var m, s := r / 60, r % 60;
    assert t == 3600 * q + 60 * m + s;
    assert t % 60 == s;
  }

  /** Round trip: splitting the sum of a canonical duration gives that duration back. */
  lemma {:induction false} DecomposeRoundTrip(d: Duration)
    requires d.hours >= 0 && 0 <= d.minutes < 60 && 0 <= d.seconds < 60
    ensures Decompose(ToSeconds(d)) == d
  {
    var r := d.minutes * 60 + d.seconds;
    DivModOf(d.hours, r, 3600);
    DivModOf(d.minutes, d.seconds, 60);
    DivModOf(d.hours * 60 + d.minutes, d.seconds, 60);
    assert ToSeconds(d) == (d.hours * 60 + d.minutes) * 60 + d.seconds;
  }

  /** Dividing `q * b + r` by `b`, for a remainder `0 <= r < b`, gives `q` and `r` back. */
  lemma DivModOf(q: int, r: int, b: int)
    requires b > 0 && 0 <= r < b
    ensures (q * b + r) / b == q && (q * b + r) % b == r
  {
    var n := q * b + r;
    var d, m := n / b, n % b;
    assert (d - q) * b == r - m;
    if d > q { AtLeastOnce(d - q, b); }
    if d < q { AtLeastOnce(q - d, b); }
  }

  lemma AtLeastOnce(k: int, b: int)
    requires k >= 1 && b > 0
    ensures k * b >= b
  {
    assert k * b - b == (k - 1) * b;
  }

  /** A negative total (a time-out whose clock reading precedes the time-in) splits into
      negative fields that no longer add back up to the total. */
  lemma NegativeSplitDoesNotAddUp()
    ensures Decompose(-1) == Duration(-1, -1, -1)
    ensures ToSeconds(Decompose(-1)) == -3661
  {
  }

  /** `formatDuration` of components/StudentSummary.tsx: clamp at zero, split, then show hours
      only when non-zero, minutes when hours or minutes are non-zero, seconds only when both are
      zero, `trim()` the result and use "0s" in place of an empty string. For a non-negative
      total the split by `Math.floor` and `%` is `Decompose`. */
  function FormatDuration(total: int): (r: string)
  {
    ShowUnits(Decompose(if total < 0 then 0 else total))
  }

  /** The text before trimming: "<h>h " when there are hours, "<m>m " when there are hours or
      minutes, "<s>s" when there are neither. */
  function UnitsText(d: Duration): string
  {
    (if d.hours > 0 then IntToString(d.hours) + "h " else "")
      + (if d.hours > 0 || d.minutes > 0 then IntToString(d.minutes) + "m " else "")
      + (if d.hours == 0 && d.minutes == 0 then IntToString(d.seconds) + "s" else "")
  }

  function ShowUnits(d: Duration): string
  {
    var trimmed := Trim(UnitsText(d));
    if trimmed == "" then "0s" else trimmed
  }

  /** The shown text without the trailing blank that `trim()` removes. */
  function UnitsWord(d: Duration): string
  {
    if d.hours > 0 then IntToString(d.hours) + "h " + IntToString(d.minutes) + "m"
    else if d.minutes > 0 then IntToString(d.minutes) + "m"
    else IntToString(d.seconds) + "s"
  }

  lemma UnitsTextShape(d: Duration)
    requires d.hours >= 0 && d.minutes >= 0
    ensures UnitsText(d) == if d.hours > 0 || d.minutes > 0 then UnitsWord(d) + " " else UnitsWord(d)
  {
    if d.hours > 0 {
      assert IntToString(d.hours) + "h " + (IntToString(d.minutes) + "m ") + ""
        == IntToString(d.hours) + "h " + IntToString(d.minutes) + "m" + " ";
    } else if d.minutes > 0 {
      assert "" + (IntToString(d.minutes) + "m ") + "" == IntToString(d.minutes) + "m" + " ";
    } else {
      assert "" + "" + (IntToString(d.seconds) + "s") == IntToString(d.seconds) + "s";
    }
  }

  lemma TrimKeeps(s: string)
    requires s != [] && !IsSpace(s[0]) && !IsSpace(s[|s| - 1])
    ensures Trim(s) == s
  {
  }

  lemma TrimDropsTrailingBlank(s: string)
    requires s != [] && !IsSpace(s[0]) && !IsSpace(s[|s| - 1])
    ensures Trim(s + " ") == s
  {
    var x := s + " ";
    assert x[0] == s[0];
    assert TrimStart(x) == x;
    assert x[..|x| - 1] == s;
    assert TrimEnd(s) == s;
    assert TrimEnd(x) == TrimEnd(s);
  }

  lemma NumberIsNotSpace(n: int)
    ensures var d := IntToString(n); !IsSpace(d[0]) && !IsSpace(d[|d| - 1])
  {
  }

  lemma UnitsWordEnds(d: Duration)
    ensures var w := UnitsWord(d); w != [] && !IsSpace(w[0]) && !IsSpace(w[|w| - 1])
  {
    NumberIsNotSpace(d.hours);
    NumberIsNotSpace(d.minutes);
    NumberIsNotSpace(d.seconds);
  }

  /** The three shapes `formatDuration` can produce. */
  lemma ShowUnitsShape(d: Duration)
    requires d.hours >= 0 && d.minutes >= 0
    ensures ShowUnits(d) == UnitsWord(d)
  {
    UnitsTextShape(d);
    UnitsWordEnds(d);
    if d.hours > 0 || d.minutes > 0 {
      TrimDropsTrailingBlank(UnitsWord(d));
    } else {
      TrimKeeps(UnitsWord(d));
    }
  }

  lemma NotInNumber(n: int, c: char)
    requires c == 's' || c == 'h' || c == 'm'
    ensures c !in IntToString(n)
  {
  }

  /** Which units the shown text of a canonical split carries. */
  lemma {:induction false} UnitsWordUnits(d: Duration)
    requires d.hours >= 0 && 0 <= d.minutes < 60 && 0 <= d.seconds < 60
    ensures var r := UnitsWord(d);
      && ('s' in r <==> d.hours == 0 && d.minutes == 0)
      && ('h' in r <==> d.hours > 0)
      && ('m' in r <==> d.hours > 0 || d.minutes > 0)
  {
    if d.hours > 0 {
      UnitsHours(d.hours, d.minutes);
    } else if d.minutes > 0 {
      UnitsOne(d.minutes, 'm');
    } else {
      UnitsOne(d.seconds, 's');
    }
  }

  /** Which units `formatDuration` shows: seconds exactly below a minute, hours exactly from an
      hour on, minutes exactly from a minute on, and never an empty string. */
  lemma {:induction false} FormatDurationUnits(total: int)
    ensures var t := if total < 0 then 0 else total;
      var r := FormatDuration(total);
      && r != ""
      && ('s' in r <==> t < 60)
      && ('h' in r <==> t >= 3600)
      && ('m' in r <==> t >= 60)
  {
    FormatDurationWord(total);
    WordUnitsByTotal(if total < 0 then 0 else total, FormatDuration(total));
  }

  lemma WordUnitsByTotal(t: int, r: string)
    requires t >= 0 && r == UnitsWord(Decompose(t))
    ensures r != ""
    ensures 's' in r <==> t < 60
    ensures 'h' in r <==> t >= 3600
    ensures 'm' in r <==> t >= 60
  {
    var d := Decompose(t);
    DecomposeCanonical(t);
    HoursThreshold(t);
    MinutesThreshold(t);
    UnitsWordUnits(d);
  }

  lemma FormatDurationWord(total: int)
    ensures var t := if total < 0 then 0 else total;
      FormatDuration(total) == UnitsWord(Decompose(t))
  {
    var t := if total < 0 then 0 else total;
    DecomposeCanonical(t);
    ShowUnitsShape(Decompose(t));
  }

  lemma HoursThreshold(t: int)
    requires t >= 0
    ensures Decompose(t).hours > 0 <==> t >= 3600
  {
    DecomposeCanonical(t);
  }

  lemma MinutesThreshold(t: int)
    requires t >= 0
    ensures var d := Decompose(t); d.hours > 0 || d.minutes > 0 <==> t >= 60
  {
    DecomposeCanonical(t);
  }

  lemma UnitsOne(n: int, u: char)
    requires u == 's' || u == 'm'
    ensures var r := IntToString(n) + [u];
      u in r && (forall c :: c == 's' || c == 'h' || c == 'm' ==> (c in r <==> c == u))
  {
    var r := IntToString(n) + [u];
    assert r[|r| - 1] == u;
    forall c | c == 's' || c == 'h' || c == 'm' ensures c in r <==> c == u {
      NotInNumber(n, c);
    }
  }

  lemma UnitsHours(h: int, m: int)
    ensures var r := IntToString(h) + "h " + IntToString(m) + "m";
      'h' in r && 'm' in r && 's' !in r
  {
    var a, b := IntToString(h), IntToString(m);
    var r := a + "h " + b + "m";
    assert r[|a|] == 'h';
    assert r[|r| - 1] == 'm';
    NotInNumber(h, 's');
    NotInNumber(m, 's');
    assert r == a + ("h " + b + "m");
    assert 's' !in "h ";
  }

  lemma SmallNumberTexts()
    ensures IntToString(0) == "0" && IntToString(1) == "1" && IntToString(45) == "45"
  {
    assert DigitChar(4) == '4' && DigitChar(5) == '5';
    assert NatToString(4) == "4";
    assert NatToString(45) == NatToString(4) + [DigitChar(5)];
  }

  /** Worked example: an hour, a minute and a second show as "1h 1m". */
  lemma FormatDurationHoursExample()
    ensures FormatDuration(3661) == "1h 1m"
  {
    FormatDurationWord(3661);
    assert JsRem(3661, 3600) == 61 && JsRem(3661, 60) == 1;
    var d := Decompose(3661);
    assert d == Duration(1, 1, 1);
    SmallNumberTexts();
    assert UnitsWord(d) == "1" + "h " + "1" + "m";
    assert "1" + "h " + "1" + "m" == "1h 1m";
  }

  /** Worked example: a minute and a half shows as "1m". */
  lemma FormatDurationMinutesExample()
    ensures FormatDuration(90) == "1m"
  {
    FormatDurationWord(90);
    assert JsRem(90, 3600) == 90 && JsRem(90, 60) == 30;
    var d := Decompose(90);
    assert d == Duration(0, 1, 30);
    SmallNumberTexts();
    assert UnitsWord(d) == "1" + "m";
  }

  /** Worked examples: 45 s shows as "45s"; zero and negative totals as "0s". */
  lemma FormatDurationSecondsExamples()
    ensures FormatDuration(45) == "45s"
    ensures FormatDuration(0) == "0s"
    ensures FormatDuration(-5) == "0s"
  {
    SmallNumberTexts();
    FormatDurationWord(45);
    assert JsRem(45, 3600) == 45 && JsRem(45, 60) == 45;
    assert Decompose(45) == Duration(0, 0, 45);
    assert UnitsWord(Duration(0, 0, 45)) == "45" + "s";
    FormatDurationWord(0);
    FormatDurationWord(-5);
    assert JsRem(0, 3600) == 0 && JsRem(0, 60) == 0;
    assert Decompose(0) == Duration(0, 0, 0);
    assert UnitsWord(Duration(0, 0, 0)) == "0" + "s";
  }

  /** `HH:MM:SS` from the three fields, each `toString().padStart(2, '0')`. */
  function ClockText(d: Duration): string
  {
    PadStart2(IntToString(d.hours)) + ":" + PadStart2(IntToString(d.minutes)) + ":"
      + PadStart2(IntToString(d.seconds))
  }

  /** `formatSecondsToHHMMSS` of components/StudentSummary.tsx: clamp at zero, split, print. */
  function SecondsToClock(total: int): string
  {
    ClockText(Decompose(if total < 0 then 0 else total))
  }

  lemma {:induction false} DigitsValueLeadingZero(s: string)
    requires forall i :: 0 <= i < |s| ==> IsDigit(s[i])
    ensures DigitsValue("0" + s) == DigitsValue(s)
    decreases |s|
  {
    if s != [] {
      var z := "0" + s;
      assert z[..|z| - 1] == "0" + s[..|s| - 1];
      DigitsValueLeadingZero(s[..|s| - 1]);
    }
  }

  /** A padded field of a canonical value: all digits, and it reads back as the value. */
  lemma PaddedField(n: nat)
    ensures var f := PadStart2(IntToString(n));
      |f| >= 2 && (n < 100 ==> |f| == 2)
      && (forall i :: 0 <= i < |f| ==> IsDigit(f[i])) && DigitsValue(f) == n
  {
    var d := IntToString(n);
    DigitsValueOfNatToString(n);
    if |d| == 1 {
      DigitsValueLeadingZero(d);
    }
  }

  /** `r` is an `HH:MM:SS` text of `total` seconds: minutes and seconds are exactly two digits
      below 60, the hours at least two, separated by colons, and the fields read back as
      the total. */
  predicate ClockOf(r: string, total: int)
  {
    && |r| >= 8 && r[|r| - 3] == ':' && r[|r| - 6] == ':'
    && (forall i :: 0 <= i < |r| - 6 ==> IsDigit(r[i]))
    && (forall i :: |r| - 5 <= i < |r| - 3 ==> IsDigit(r[i]))
    && (forall i :: |r| - 2 <= i < |r| ==> IsDigit(r[i]))
    && DigitsValue(r[|r| - 5..|r| - 3]) < 60 && DigitsValue(r[|r| - 2..]) < 60
    && DigitsValue(r[..|r| - 6]) * 3600 + DigitsValue(r[|r| - 5..|r| - 3]) * 60
       + DigitsValue(r[|r| - 2..]) == total
  }

  /** The clock text of a non-negative total reads back to that total. */
  lemma {:induction false} SecondsToClockReadsBack(total: int)
    requires total >= 0
    ensures ClockOf(SecondsToClock(total), total)
  {
    var d := Decompose(total);
    DecomposeCanonical(total);
    PaddedField(d.hours);
    PaddedField(d.minutes);
    PaddedField(d.seconds);
    var hh, mm, ss := PadStart2(IntToString(d.hours)), PadStart2(IntToString(d.minutes)),
      PadStart2(IntToString(d.seconds));
    assert SecondsToClock(total) == hh + ":" + mm + ":" + ss;
    ClockSlices(hh, mm, ss);
  }

  /** Where the three fields of a clock text sit. */
  lemma ClockSlices(hh: string, mm: string, ss: string)
    requires |hh| >= 2 && |mm| == 2 && |ss| == 2
    requires forall i :: 0 <= i < |hh| ==> IsDigit(hh[i])
    requires IsDigit(mm[0]) && IsDigit(mm[1]) && IsDigit(ss[0]) && IsDigit(ss[1])
    ensures var r := hh + ":" + mm + ":" + ss;
      && |r| == |hh| + 6 && r[|r| - 3] == ':' && r[|r| - 6] == ':'
      && (forall i :: 0 <= i < |r| - 6 ==> IsDigit(r[i]))
      && (forall i :: |r| - 5 <= i < |r| - 3 ==> IsDigit(r[i]))
      && (forall i :: |r| - 2 <= i < |r| ==> IsDigit(r[i]))
      && r[..|r| - 6] == hh && r[|r| - 5..|r| - 3] == mm && r[|r| - 2..] == ss
  {
    var r := hh + ":" + mm + ":" + ss;
    assert r[..|hh|] == hh;
    assert r[|hh| + 1..|hh| + 3] == mm;
    assert r[|hh| + 4..] == ss;
  }
}
