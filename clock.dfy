/**
 * The elapsed-time display: timeTicks seconds written as hours, minutes and seconds separated by
 * ':', each at least two decimal digits wide.
 */
module Clock {
  import opened Wrappers
  import opened Numerals

  /** timeInMinutes: seconds in a minute. */
  const TIME_IN_MINUTES: nat := 60
  /** timeInHours: seconds in an hour. */
  const TIME_IN_HOURS: nat := TIME_IN_MINUTES * 60

  /**
   * formatInt2d(n): a leading '0' before a number below ten, otherwise the number itself, which
   * the concatenation in formattedTime turns into its decimal text.
   */
  function FormatInt2d(n: nat): (s: string)
    ensures AllDigits(s, 10) && Value(s, 10) == n
    ensures |s| >= 2
    ensures s[0] == '0' <==> n < 10
    ensures n < 100 ==> |s| == 2
  {
    var text := ToStringRadix(n, 10);
    if n < 10 then
      ValueLeadingZero(text, 10);
      "0" + text
    else
      text
  }

  /** A span of time split into whole hours, minutes and seconds. */
  datatype Duration = Duration(hours: nat, minutes: nat, seconds: nat)

  /**
   * The arithmetic of formattedTime: whole hours first, then whole minutes of what remains, and
   * the remaining seconds.
   */
  function SplitTicks(t: nat): (d: Duration)
    ensures TIME_IN_HOURS * d.hours + TIME_IN_MINUTES * d.minutes + d.seconds == t
    ensures d.minutes < 60 && d.seconds < 60
  {
    var hours := t / TIME_IN_HOURS;
    var rest := t - hours * TIME_IN_HOURS;
    var minutes := rest / TIME_IN_MINUTES;
    Duration(hours, minutes, rest - minutes * TIME_IN_MINUTES)
  }

  /** The split is the only one with minutes and seconds below sixty. */
  lemma SplitTicksUnique(t: nat, d: Duration)
    requires TIME_IN_HOURS * d.hours + TIME_IN_MINUTES * d.minutes + d.seconds == t
    requires d.minutes < 60 && d.seconds < 60
    ensures SplitTicks(t) == d
  {
    var low := TIME_IN_MINUTES * d.minutes + d.seconds;
    assert low < TIME_IN_HOURS;
    DivModUnique(d.hours, low, TIME_IN_HOURS);
    DivModUnique(d.minutes, d.seconds, TIME_IN_MINUTES);
  }


  /** The ':'-separated fields of a string; a string without ':' is one field. */
  function Fields(s: string): (fields: seq<string>)
    ensures |fields| >= 1
    decreases |s|
  {
    if s == [] then [[]]
    else
      var rest := Fields(s[1..]);
      if s[0] == ':' then [[]] + rest else [[s[0]] + rest[0]] + rest[1..]
  }

  /** Reading a clock display back: three non-empty decimal fields, weighted as hours, minutes and seconds. */
  function ParseClock(text: string): (t: Option<nat>)
    ensures t.Some? ==> |Fields(text)| == 3
  {
    var f := Fields(text);
    if |f| == 3 && forall k :: 0 <= k < 3 ==> |f[k]| > 0 && AllDigits(f[k], 10) then
      Some(TIME_IN_HOURS * Value(f[0], 10) + TIME_IN_MINUTES * Value(f[1], 10) + Value(f[2], 10))
    else
      None
  }

  lemma {:induction false} FieldsOfOne(a: string)
    requires ':' !in a
    ensures Fields(a) == [a]
    decreases |a|
  {
    if a != [] {
      assert forall k :: 0 <= k < |a| - 1 ==> a[1..][k] == a[k + 1];
      FieldsOfOne(a[1..]);
      assert [a[0]] + a[1..] == a;
    }
  }

  lemma {:induction false} FieldsOfSeparated(a: string, b: string)
    requires ':' !in a
    ensures Fields(a + ":" + b) == [a] + Fields(b)
    decreases |a|
  {
    var s := a + ":" + b;
    if a == [] {
      assert s == ":" + b;
      assert s[1..] == b;
    } else {
      assert s[0] == a[0];
      assert s[1..] == a[1..] + ":" + b;
      assert forall k :: 0 <= k < |a| - 1 ==> a[1..][k] == a[k + 1];
      FieldsOfSeparated(a[1..], b);
      assert [a[0]] + a[1..] == a;
    }
  }

  /** Decimal digits never include the separator. */
  lemma NoSeparator(s: string)
    requires AllDigits(s, 10)
    ensures ':' !in s
  {
  }

  /**
   * formattedTime(): HH:MM:SS for timeTicks seconds. The display reads back as the time it
   * shows, so different times never look alike.
   */
  function FormattedTime(t: nat): (text: string)
    ensures ParseClock(text) == Some(t)
  {
    var d := SplitTicks(t);
    var h, m, s := FormatInt2d(d.hours), FormatInt2d(d.minutes), FormatInt2d(d.seconds);
    NoSeparator(h);
    NoSeparator(m);
    NoSeparator(s);
    FieldsOfOne(s);
    FieldsOfSeparated(m, s);
    assert h + ":" + m + ":" + s == h + ":" + (m + ":" + s);
    FieldsOfSeparated(h, m + ":" + s);
    h + ":" + m + ":" + s
  }

  /** Below a hundred hours the display is exactly HH:MM:SS, with the separators in place. */
  lemma FormattedTimeShape(t: nat)
    requires t < 100 * TIME_IN_HOURS
    ensures var text := FormattedTime(t); |text| == 8 && text[2] == ':' && text[5] == ':'
  {
    var d := SplitTicks(t);
    assert d.hours < 100;
    var h, m, s := FormatInt2d(d.hours), FormatInt2d(d.minutes), FormatInt2d(d.seconds);
    assert |h| == 2 && |m| == 2 && |s| == 2;
    SeparatorsAt(h, m, s);
  }

  /** Three two-character fields joined by two separators put them at positions 2 and 5. */
  lemma SeparatorsAt(h: string, m: string, s: string)
    requires |h| == 2 && |m| == 2 && |s| == 2
    ensures var text := h + ":" + m + ":" + s; |text| == 8 && text[2] == ':' && text[5] == ':'
  {
  }
}
