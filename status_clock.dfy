/**
 * The timestamp `setStatusMessage` in src/index.ts appends to a status
 * message: a 12-hour clock with two-digit minutes and seconds, AM or PM and
 * the timezone's short name. The clock reading and the timezone name are
 * inputs.
 */
module StatusClock {
  import opened Text

  /** `hours % 12`, with 0 shown as 12: the hour on a 12-hour clock face. */
  function DisplayHour(hours: nat): (h: nat)
    requires hours < 24
    ensures 1 <= h <= 12
    ensures h % 12 == hours % 12
  {
    var h := hours % 12;
    if h == 0 then 12 else h
  }

  /** "PM" from noon on, "AM" before. */
  function Meridiem(hours: nat): (m: string)
    requires hours < 24
    ensures m == "AM" || m == "PM"
  {
    if hours >= 12 then "PM" else "AM"
  }

  /** The hour shown is 12 exactly at midnight and at noon, and the suffix is AM exactly before noon. */
  lemma ClockFace(hours: nat)
    requires hours < 24
    ensures DisplayHour(hours) == 12 <==> hours == 0 || hours == 12
    ensures Meridiem(hours) == "AM" <==> hours < 12
  {
  }

  /** The 24-hour reading a 12-hour hour and its suffix stand for. */
  function TwentyFourHour(h: nat, m: string): nat {
    (if h == 12 then 0 else h) + (if m == "PM" then 12 else 0)
  }

  /** The shown hour and suffix determine the hour: no two hours of a day look alike. */
  lemma ClockRoundTrip(hours: nat)
    requires hours < 24
    ensures TwentyFourHour(DisplayHour(hours), Meridiem(hours)) == hours
  {
  }

  /** `n.toString().padStart(2, '0')` for minutes and seconds. */
  function TwoDigits(n: nat): (s: string)
    requires n < 100
    ensures |s| == 2 && AllDigits(s) && DigitsValue(s) == n
  {
    var t := NatText(n);
    NatTextValue(n);
    if n < 10 then
      assert t == [DigitChar(n)];
      var s := "0" + t;
      assert s[..1] == "0";
      s
    else
      assert NatText(n / 10) == [DigitChar(n / 10)];
      t
  }

  /** `${hours}:${minutes}:${seconds} ${ampm} ${timezone}`. */
  function Timestamp(hours: nat, minutes: nat, seconds: nat, zone: string): (t: string)
    requires hours < 24 && minutes < 60 && seconds < 60
    ensures Split(t, ':')[0] == NatText(DisplayHour(hours))
  {
    var h := NatText(DisplayHour(hours));
    var rest := ":" + TwoDigits(minutes) + ":" + TwoDigits(seconds) + " " + Meridiem(hours) + " " + zone;
    assert forall i :: 0 <= i < |h| ==> IsDigit(h[i]);
    SplitPrefix(h, rest, ':');
    assert Split(rest, ':')[0] == "" by {
      assert rest == [':'] + rest[1..];
    }
    h + rest
  }

  /** The stored status line: the message, a grey dash and the timestamp. */
  function StatusLine(message: string, hours: nat, minutes: nat, seconds: nat, zone: string): (s: string)
    requires hours < 24 && minutes < 60 && seconds < 60
    ensures StartsWith(s, message)
  {
    var s := message + " \U{1b}[90m- " + Timestamp(hours, minutes, seconds, zone) + "\U{1b}[0m";
    assert s[..|message|] == message;
    s
  }
}
