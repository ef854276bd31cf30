/**
 * The `formatTime` helper of the active-task panel: a number of seconds
 * rendered as HH:MM:SS, each field the decimal rendering of a non-negative
 * integer left-padded with '0' to a width of at least two.
 *
 * `ParseTime` is the inverse used to state what the rendering means: the
 * text can always be read back to the number of seconds it was made from.
 */
module TimeFormat {
  import opened Wrappers

  /** Hours, minutes and seconds of a duration, as `formatTime` computes them. */
  datatype Clock = Clock(hours: nat, minutes: nat, secs: nat)

  predicate IsDigit(c: char) {
    '0' <= c <= '9'
  }

  predicate AllDigits(s: string) {
    forall i :: 0 <= i < |s| ==> IsDigit(s[i])
  }

  function DigitValue(c: char): int {
    c as int - '0' as int
  }

  function DigitChar(d: nat): (c: char)
    requires d < 10
    ensures IsDigit(c) && DigitValue(c) == d
  {
    ('0' as int + d) as char
  }

  /**
   * The decimal rendering of a non-negative integer, as JavaScript's
   * `toString()` produces it: at least one digit, no leading zero, and at
   * most two digits exactly when the number is below 100.
   */
  function Digits(n: nat): (r: string)
    ensures |r| >= 1 && AllDigits(r)
    ensures |r| > 1 ==> r[0] != '0'
    ensures n < 10 <==> |r| == 1
    ensures n < 100 <==> |r| <= 2
    decreases n
  {
    if n < 10 then [DigitChar(n)] else Digits(n / 10) + [DigitChar(n % 10)]
  }

  /** The number a string of decimal digits denotes, most significant first. */
  function Value(s: string): (v: nat)
    requires AllDigits(s)
  {
    if s == [] then 0 else Value(s[..|s| - 1]) * 10 + DigitValue(s[|s| - 1])
  }

  /**
   * `String.prototype.padStart`: fill is put in front of s until the result
   * has at least `width` characters; s itself is never shortened.
   */
  function PadStart(s: string, width: nat, fill: char): (r: string)
    ensures |r| == if |s| >= width then |s| else width
    ensures r[|r| - |s|..] == s
    ensures forall i :: 0 <= i < |r| - |s| ==> r[i] == fill
  {
    if |s| >= width then s else seq(width - |s|, _ => fill) + s
  }

  /** One field of the clock: `n.toString().padStart(2, '0')`. */
  function Pad2(n: nat): string {
    PadStart(Digits(n), 2, '0')
  }

  /**
   * The three fields `formatTime` computes: whole hours, the minutes left
   * over, and the seconds left over. Together they make up the duration
   * again, and the two lower fields are below 60.
   */
  function Split(seconds: nat): (c: Clock)
    ensures c.minutes < 60 && c.secs < 60
    ensures c.hours * 3600 + c.minutes * 60 + c.secs == seconds
  {
    var h, rest := seconds / 3600, seconds % 3600;
    var m, s := rest / 60, seconds % 60;
    assert seconds == 3600 * h + rest;
    assert rest == 60 * m + rest % 60;
    SecondsOfRest(seconds, h, m, rest % 60);
    Clock(h, m, s)
  }

  /** If a duration is 3600h + 60m + r with r < 60, its seconds field is r. */
  lemma SecondsOfRest(seconds: nat, h: nat, m: nat, r: nat)
    requires r < 60 && seconds == 3600 * h + 60 * m + r
    ensures seconds % 60 == r
  {
    assert seconds == 60 * (60 * h + m) + r;
  }

  function FormatTime(seconds: nat): string {
    var c := Split(seconds);
    Pad2(c.hours) + ":" + Pad2(c.minutes) + ":" + Pad2(c.secs)
  }

  /**
   * Reads HH:MM:SS back: the last two fields are two digits each and below
   * 60, the hours field is at least two digits, and the separators are ':'.
   * Anything else is rejected.
   */
  function ParseTime(t: string): Option<nat> {
    if |t| < 8 || t[|t| - 6] != ':' || t[|t| - 3] != ':' then None
    else
      var hh, mm, ss := t[..|t| - 6], t[|t| - 5..|t| - 3], t[|t| - 2..];
      if !(AllDigits(hh) && AllDigits(mm) && AllDigits(ss)) then None
      else if Value(mm) >= 60 || Value(ss) >= 60 then None
      else Some(Value(hh) * 3600 + Value(mm) * 60 + Value(ss))
  }

  // ---------------------------------------------------------------------
  // Lemmas
  // ---------------------------------------------------------------------

  /** The split is the only one with both lower fields below 60. */
  lemma SplitUnique(seconds: nat, c: Clock)
    requires c.minutes < 60 && c.secs < 60
    requires c.hours * 3600 + c.minutes * 60 + c.secs == seconds
    ensures c == Split(seconds)
  {
    var d := Split(seconds);
    var lo := c.minutes * 60 + c.secs;
    var dlo := d.minutes * 60 + d.secs;
    assert lo < 3600 && dlo < 3600;
    assert (c.hours - d.hours) * 3600 == dlo - lo;
    assert c.hours == d.hours;
    assert (c.minutes - d.minutes) * 60 == d.secs - c.secs;
  }

  /** Reading back the decimal rendering of n gives n. */
  lemma {:induction false} ValueOfDigits(n: nat)
    ensures Value(Digits(n)) == n
  {
    var r := Digits(n);
    if n < 10 {
      assert r[..0] == [];
    } else {
      var p := Digits(n / 10);
      ValueOfDigits(n / 10);
      assert r[..|r| - 1] == p;
    }
  }

  /** A leading zero does not change the number a digit string denotes. */
  lemma {:induction false} ValueLeadingZero(s: string)
    requires AllDigits(s)
    ensures AllDigits(['0'] + s) && Value(['0'] + s) == Value(s)
    decreases |s|
  {
    var t := ['0'] + s;
    if s == [] {
      assert t[..0] == [];
    } else {
      var init := s[..|s| - 1];
      assert t[..|t| - 1] == ['0'] + init;
      ValueLeadingZero(init);
    }
  }

  /** Zero-padding keeps the string a digit string denoting the same number. */
  lemma {:induction false} ValueOfZeroPadded(s: string, width: nat)
    requires AllDigits(s)
    ensures AllDigits(PadStart(s, width, '0'))
    ensures Value(PadStart(s, width, '0')) == Value(s)
    decreases width - |s|
  {
    if |s| < width {
      var z := ['0'] + s;
      assert PadStart(s, width, '0') == PadStart(z, width, '0');
      ValueLeadingZero(s);
      ValueOfZeroPadded(z, width);
    }
  }

  /** Each clock field is a digit string of at least two characters denoting n. */
  lemma Pad2Field(n: nat)
    ensures |Pad2(n)| >= 2 && AllDigits(Pad2(n)) && Value(Pad2(n)) == n
    ensures n < 100 <==> |Pad2(n)| == 2
  {
    ValueOfDigits(n);
    ValueOfZeroPadded(Digits(n), 2);
  }

  /** The hours field has two digits exactly for durations under 100 hours. */
  lemma HoursBelow100(seconds: nat)
    ensures seconds < 360000 <==> Split(seconds).hours < 100
  {
    var c := Split(seconds);
    assert c.minutes * 60 + c.secs < 3600;
  }

  /** Three fields joined by ':' can be cut apart again at fixed places from the end. */
  lemma JoinedFields(t: string, hh: string, mm: string, ss: string)
    requires |mm| == 2 && |ss| == 2
    requires t == hh + ":" + mm + ":" + ss
    ensures |t| == |hh| + 6 && t[|t| - 6] == ':' && t[|t| - 3] == ':'
    ensures t[..|t| - 6] == hh && t[|t| - 5..|t| - 3] == mm && t[|t| - 2..] == ss
  {
    var n := |hh|;
    assert t == (hh + [':']) + (mm + [':'] + ss);
    assert t[..n] == hh;
    assert t[n + 1..n + 3] == mm;
    assert t[n + 4..] == ss;
  }

  /**
   * The rendering has the separators six and three places from the end;
   * for durations under 100 hours (all durations the timer shows) it is
   * exactly eight characters with ':' at indices 2 and 5, and longer
   * otherwise, since padding never truncates the hours.
   */
  lemma FormatTimeShape(seconds: nat)
    ensures var r := FormatTime(seconds);
      |r| >= 8 && r[|r| - 6] == ':' && r[|r| - 3] == ':' &&
      (seconds < 360000 <==> |r| == 8) &&
      (seconds < 360000 ==> r[2] == ':' && r[5] == ':')
  {
    var c := Split(seconds);
    Pad2Field(c.hours);
    Pad2Field(c.minutes);
    Pad2Field(c.secs);
    HoursBelow100(seconds);
    JoinedFields(FormatTime(seconds), Pad2(c.hours), Pad2(c.minutes), Pad2(c.secs));
  }

  /** Reading back a rendered duration gives the duration. */
  lemma FormatParseRoundTrip(seconds: nat)
    ensures ParseTime(FormatTime(seconds)) == Some(seconds)
  {
    var c := Split(seconds);
    var t, hh, mm, ss := FormatTime(seconds), Pad2(c.hours), Pad2(c.minutes), Pad2(c.secs);
    Pad2Field(c.hours);
    Pad2Field(c.minutes);
    Pad2Field(c.secs);
    JoinedFields(t, hh, mm, ss);
    assert Value(hh) * 3600 + Value(mm) * 60 + Value(ss) == seconds;
    ParseFields(t, hh, mm, ss, seconds);
  }

  /** A string cut into three well-formed fields reads back as their total. */
  lemma ParseFields(t: string, hh: string, mm: string, ss: string, v: nat)
    requires |t| == |hh| + 6 && |hh| >= 2 && t[|t| - 6] == ':' && t[|t| - 3] == ':'
    requires t[..|t| - 6] == hh && t[|t| - 5..|t| - 3] == mm && t[|t| - 2..] == ss
    requires AllDigits(hh) && AllDigits(mm) && AllDigits(ss)
    requires Value(mm) < 60 && Value(ss) < 60
    requires v == Value(hh) * 3600 + Value(mm) * 60 + Value(ss)
    ensures ParseTime(t) == Some(v)
  {
  }

  /** Different durations are never shown as the same text. */
  lemma FormatTimeInjective(a: nat, b: nat)
    ensures FormatTime(a) == FormatTime(b) ==> a == b
  {
    FormatParseRoundTrip(a);
    FormatParseRoundTrip(b);
  }

  /** The rendering of a duration whose fields are known. */
  lemma FormatOfClock(seconds: nat, c: Clock, hh: string, mm: string, ss: string)
    requires c.minutes < 60 && c.secs < 60
    requires c.hours * 3600 + c.minutes * 60 + c.secs == seconds
    requires hh == Pad2(c.hours) && mm == Pad2(c.minutes) && ss == Pad2(c.secs)
    ensures FormatTime(seconds) == hh + ":" + mm + ":" + ss
  {
    SplitUnique(seconds, c);
  }

  /** The renderings of the whole session and of an empty clock. */
  lemma FormatTimeWholeAndZero()
    ensures FormatTime(7200) == "02:00:00"
    ensures FormatTime(0) == "00:00:00"
  {
    Pad2Small(0);
    Pad2Small(2);
    FormatOfClock(7200, Clock(2, 0, 0), "02", "00", "00");
    FormatOfClock(0, Clock(0, 0, 0), "00", "00", "00");
  }

  /** The rendering of 59 seconds. */
  lemma FormatTimeSeconds()
    ensures FormatTime(59) == "00:00:59"
  {
    Pad2Small(0);
    Pad2Of59();
    FormatOfClock(59, Clock(0, 0, 59), "00", "00", "59");
  }

  /** The rendering of one hour, one minute and one second. */
  lemma FormatTimeMixed()
    ensures FormatTime(3661) == "01:01:01"
  {
    Pad2Small(1);
    FormatOfClock(3661, Clock(1, 1, 1), "01", "01", "01");
  }

  lemma Pad2Of59()
    ensures Pad2(59) == "59"
  {
    Pad2Large(59);
  }

  /** A two-digit field is shown as it is. */
  lemma Pad2Large(n: nat)
    requires 10 <= n < 100
    ensures Pad2(n) == [DigitChar(n / 10), DigitChar(n % 10)]
  {
    assert Digits(n / 10) == [DigitChar(n / 10)];
  }

  /** A one-digit field is shown with one leading zero. */
  lemma Pad2Small(n: nat)
    requires n < 10
    ensures Pad2(n) == ['0', DigitChar(n)]
  {
    assert Digits(n) == [DigitChar(n)];
  }
}
