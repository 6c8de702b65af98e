/**
 * The client's local countdown display: a positive number of whole seconds
 * left is split into hours, minutes and seconds and shown as
 * `%02dh %02dm %02ds`; a non-positive interval is shown as "Expired".
 */
module Countdown {
  import opened Wrappers

  /** The display shown once the license time has run out. */
  const ExpiredLabel: string := "Expired"

  datatype Hms = Hms(hours: nat, minutes: nat, seconds: nat)

  /** The total number of seconds an `Hms` stands for. */
  function TotalSeconds(t: Hms): nat
  {
    t.hours * 3600 + t.minutes * 60 + t.seconds
  }

  /** Minutes and seconds each below 60: the normal form of a duration. */
  predicate Normal(t: Hms)
  {
    t.minutes < 60 && t.seconds < 60
  }

  /** `Int(interval) / 3600`, `(Int(interval) % 3600) / 60`, `Int(interval) % 60`. */
  function Split(n: nat): (t: Hms)
    ensures TotalSeconds(t) == n
    ensures Normal(t)
  {
    var t := Hms(n / 3600, (n % 3600) / 60, n % 60);
    assert n % 3600 == (n % 3600) / 60 * 60 + (n % 3600) % 60;
    assert (n % 3600) % 60 == n % 60 by {
      assert n == (n / 3600) * 3600 + n % 3600;
      assert n == ((n / 3600) * 60 + (n % 3600) / 60) * 60 + (n % 3600) % 60;
    }
    t
  }

  /** A normal-form duration is determined by its total: `Split` inverts `TotalSeconds`. */
  lemma SplitUnique(t: Hms)
    requires Normal(t)
    ensures Split(TotalSeconds(t)) == t
  {
    var n := TotalSeconds(t);
    var r := t.minutes * 60 + t.seconds;
    assert n / 3600 == t.hours && n % 3600 == r;
    assert r / 60 == t.minutes && r % 60 == t.seconds;
  }

  predicate IsDigit(c: char)
  {
    '0' <= c <= '9'
  }

  /** The value of one decimal digit. */
  function DigitValue(c: char): (d: nat)
    requires IsDigit(c)
    ensures d < 10
  {
    c as int - '0' as int
  }

  function DigitChar(d: nat): (c: char)
    requires d < 10
    ensures IsDigit(c) && DigitValue(c) == d
  {
    ('0' as int + d) as char
  }

  /** The decimal representation of `n`, without leading zeros (`%d`). */
  function Decimal(n: nat): (s: string)
    ensures |s| >= 1
    ensures forall i :: 0 <= i < |s| ==> IsDigit(s[i])
    ensures n < 10 <==> |s| == 1
    ensures 10 <= n < 100 <==> |s| == 2
  {
    if n < 10 then [DigitChar(n)] else Decimal(n / 10) + [DigitChar(n % 10)]
  }

  /** The value of a string of decimal digits. */
  function DigitsValue(s: string): nat
    requires forall i :: 0 <= i < |s| ==> IsDigit(s[i])
  {
    if |s| == 0 then 0
    else DigitsValue(s[..|s| - 1]) * 10 + DigitValue(s[|s| - 1])
  }

  /** Reading back a decimal representation yields the number written. */
  lemma {:induction false} DecimalRoundTrip(n: nat)
    ensures DigitsValue(Decimal(n)) == n
  {
    var s := Decimal(n);
    if n >= 10 {
      DecimalRoundTrip(n / 10);
      assert s[..|s| - 1] == Decimal(n / 10);
    }
  }

  /** `%02d`: at least two digits, padded with a leading zero. */
  function Pad2(n: nat): (s: string)
    ensures forall i :: 0 <= i < |s| ==> IsDigit(s[i])
    ensures |s| >= 2
    ensures n < 100 <==> |s| == 2
  {
    if n < 10 then "0" + Decimal(n) else Decimal(n)
  }

  /** A leading zero does not change the value read back from `%02d`. */
  lemma {:induction false} Pad2RoundTrip(n: nat)
    ensures DigitsValue(Pad2(n)) == n
  {
    DecimalRoundTrip(n);
    if n < 10 {
      var s := Pad2(n);
      assert s[..1] == "0";
      assert DigitsValue(s[..1]) == 0;
    }
  }

  /** `String(format: "%02dh %02dm %02ds", hrs, mins, secs)`. */
  function Format(t: Hms): (r: string)
    ensures |r| >= 11 && r[|r| - 1] == 's'
    ensures t.hours < 100 && t.minutes < 100 && t.seconds < 100 ==>
              |r| == 11 && r[2] == 'h' && r[3] == ' ' && r[6] == 'm' && r[7] == ' '
  {
    Pad2(t.hours) + "h " + Pad2(t.minutes) + "m " + Pad2(t.seconds) + "s"
  }

  /** What the display reads for a positive number of whole seconds left. */
  function RemainingText(n: nat): (r: string)
    ensures |r| >= 11
    ensures |r| == 11 <==> n < 360000
  {
    Format(Split(n))
  }

  predicate AllDigits(s: string)
  {
    forall i :: 0 <= i < |s| ==> IsDigit(s[i])
  }

  /**
   * Reads a countdown display back into hours, minutes and seconds; `None`
   * for anything not of the shape `<digits>h <dd>m <dd>s`.
   */
  function ParseRemaining(s: string): (r: Option<Hms>)
    ensures r.Some? ==> |s| >= 11
  {
    var n := |s|;
    if n < 11 then None
    else
      var hrs, mins, secs := s[..n - 9], s[n - 7..n - 5], s[n - 3..n - 1];
      if s[n - 9..n - 7] == "h " && s[n - 5..n - 3] == "m " && s[n - 1] == 's'
         && AllDigits(hrs) && AllDigits(mins) && AllDigits(secs)
      then Some(Hms(DigitsValue(hrs), DigitsValue(mins), DigitsValue(secs)))
      else None
  }

  /** The display of a normal duration reads back as that duration. */
  lemma FormatRoundTrip(t: Hms)
    requires Normal(t)
    ensures ParseRemaining(Format(t)) == Some(t)
  {
    var h, m, sec := Pad2(t.hours), Pad2(t.minutes), Pad2(t.seconds);
    var s := Format(t);
    var n := |s|;
    assert |m| == 2 && |sec| == 2 && |h| >= 2;
    assert s == h + "h " + m + "m " + sec + "s";
    assert s[..n - 9] == h;
    assert s[n - 7..n - 5] == m;
    assert s[n - 3..n - 1] == sec;
    assert s[n - 9..n - 7] == "h ";
    assert s[n - 5..n - 3] == "m ";
    Pad2RoundTrip(t.hours);
    Pad2RoundTrip(t.minutes);
    Pad2RoundTrip(t.seconds);
  }

  /** The countdown display for `n` seconds left determines `n`. */
  lemma RemainingTextDeterminesSeconds(n: nat)
    ensures ParseRemaining(RemainingText(n)).Some?
    ensures TotalSeconds(ParseRemaining(RemainingText(n)).value) == n
  {
    FormatRoundTrip(Split(n));
  }

  /**
   * One tick's display for `remainingMs` milliseconds left: "Expired" at or
   * below zero, otherwise the whole seconds left, truncated, as h/m/s.
   */
  function Display(remainingMs: int): (r: string)
    ensures r == ExpiredLabel <==> remainingMs <= 0
  {
    if remainingMs <= 0 then ExpiredLabel else RemainingText(remainingMs / 1000)
  }

  /** A display other than "Expired" reads back as the whole seconds left. */
  lemma DisplayReadsBack(remainingMs: int)
    requires remainingMs > 0
    ensures ParseRemaining(Display(remainingMs)).Some?
    ensures TotalSeconds(ParseRemaining(Display(remainingMs)).value) == remainingMs / 1000
  {
    RemainingTextDeterminesSeconds(remainingMs / 1000);
  }
}
