/**
 The two clock renderings of schedule.rb: the 12-hour badge label of
 `display_time` (strftime '%l:%M %p', then strip) and the 24-hour '%R' used
 by the plain-text lines. Each comes with a reader that recovers the hour
 and minute, so the labels are shown to lose nothing.
 */
module TimeFormat {
  import opened Events
  import opened Strings

  function DigitChar(n: int): (c: char)
    requires 0 <= n < 10
    ensures '0' <= c <= '9'
  {
    (48 + n) as char
  }

  /** The value of a decimal digit, or -1 for any other character. */
  function DigitValue(c: char): int {
    if '0' <= c <= '9' then c as int - 48 else -1
  }

  /** A non-empty run of decimal digits read as a number. */
  function ParseDecimal(s: string): Option<nat>
    decreases |s|
  {
    if |s| == 0 then None
    else
      var d := DigitValue(s[|s| - 1]);
      if d < 0 then None
      else if |s| == 1 then Some(d)
      else
        match ParseDecimal(s[..|s| - 1])
        case None => None
        case Some(v) => Some(v * 10 + d)
  }

  /** strftime %H and %M: two digits, zero padded. */
  function Pad2(n: int): (r: string)
    requires 0 <= n < 100
    ensures |r| == 2 && '0' <= r[0] <= '9' && '0' <= r[1] <= '9'
    ensures ParseDecimal(r) == Some(n)
  {
    var r := [DigitChar(n / 10), DigitChar(n % 10)];
    assert r[..1] == [DigitChar(n / 10)];
    r
  }

  /** The hour a 12-hour clock shows: 12 at midnight and at noon. */
  function Hour12(h: Hour): (r: int)
    ensures 1 <= r <= 12
    ensures r % 12 == h % 12
  {
    if h % 12 == 0 then 12 else h % 12
  }

  /** strftime %l: the 12-hour hour, blank-padded to two characters. */
  function BlankPaddedHour(h: Hour): (r: string)
    ensures |r| == 2
  {
    var n := Hour12(h);
    if n < 10 then [' ', DigitChar(n)] else Pad2(n)
  }

  /** The 12-hour hour in decimal, neither blank nor zero padded. */
  function HourNumeral(h: Hour): (r: string)
    ensures 1 <= |r| <= 2 && r[0] != ' ' && r[0] != '0'
    ensures ParseDecimal(r) == Some(Hour12(h))
  {
    var n := Hour12(h);
    if n < 10 then [DigitChar(n)] else Pad2(n)
  }

  /** strftime %p. */
  function Meridian(h: Hour): (r: string)
    ensures r == "AM" || r == "PM"
    ensures r == "AM" <==> h < 12
  {
    if h < 12 then "AM" else "PM"
  }

  /**
   `r` is the label of `t`'s time of day, "h:mm AM": the 12-hour hour
   without blank or zero padding, a colon, the zero-padded minute, a space,
   and AM exactly for the hours before noon, PM otherwise.
   */
  predicate LabelFor(r: string, t: Timestamp) {
    && (|r| == 7 || |r| == 8)
    && r[0] != ' ' && r[0] != '0'
    && ParseDecimal(r[..|r| - 6]) == Some(Hour12(t.hour))
    && r[|r| - 6] == ':' && r[|r| - 5..|r| - 3] == Pad2(t.minute)
    && r[|r| - 3] == ' ' && r[|r| - 2..] == Meridian(t.hour)
  }

  /** display_time: strftime('%l:%M %p') with the blank padding stripped off. */
  function DisplayTime(t: Timestamp): (r: string)
    ensures LabelFor(r, t)
    ensures ParseDisplayTime(r) == Some((t.hour, t.minute))
  {
    var raw := BlankPaddedHour(t.hour) + ":" + Pad2(t.minute) + " " + Meridian(t.hour);
    DisplayTimeStrip(t, raw);
    LabelShape(t);
    var r := Strip(raw);
    LabelRoundTrip(t, r);
    r
  }

  /** The stripped label has the promised shape. */
  lemma LabelShape(t: Timestamp)
    ensures LabelFor(HourNumeral(t.hour) + ":" + Pad2(t.minute) + " " + Meridian(t.hour), t)
  {
    LabelLayout(HourNumeral(t.hour), Pad2(t.minute), Meridian(t.hour));
  }

  /** Where the parts of an "h:mm XM" shaped label sit, counted from its end. */
  lemma LabelLayout(a: string, b: string, c: string)
    requires |b| == 2 && |c| == 2
    ensures var s := a + ":" + b + " " + c;
      && |s| == |a| + 6
      && s[..|s| - 6] == a && s[|s| - 6] == ':' && s[|s| - 5..|s| - 3] == b
      && s[|s| - 3] == ' ' && s[|s| - 2..] == c
      && (|a| > 0 ==> s[0] == a[0])
  {
  }

  lemma DisplayTimeStrip(t: Timestamp, raw: string)
    requires raw == BlankPaddedHour(t.hour) + ":" + Pad2(t.minute) + " " + Meridian(t.hour)
    ensures Strip(raw) == HourNumeral(t.hour) + ":" + Pad2(t.minute) + " " + Meridian(t.hour)
  {
    var n := Hour12(t.hour);
    var shown := HourNumeral(t.hour) + ":" + Pad2(t.minute) + " " + Meridian(t.hour);
    assert !IsStripChar(raw[|raw| - 1]);
    assert Rstrip(raw) == raw;
    assert !IsStripChar(shown[0]);
    assert Lstrip(shown) == shown;
    if n < 10 {
      assert raw == [' '] + shown;
      assert raw[1..] == shown;
    } else {
      assert raw == shown;
    }
  }

  /** Reads a display_time label back into (hour, minute). */
  function ParseDisplayTime(s: string): Option<(int, int)> {
    if |s| < 7 then None
    else
      var n := |s|;
      var h12 := ParseDecimal(s[..n - 6]);
      var mm := ParseDecimal(s[n - 5..n - 3]);
      if s[n - 6] != ':' || s[n - 3] != ' ' || h12.None? || mm.None? then None
      else if s[n - 2..] == "AM" then Some((h12.value % 12, mm.value))
      else if s[n - 2..] == "PM" then Some((h12.value % 12 + 12, mm.value))
      else None
  }

  /** Any label laid out as DisplayTime promises reads back to t's hour and minute. */
  lemma LabelRoundTrip(t: Timestamp, r: string)
    requires LabelFor(r, t)
    ensures ParseDisplayTime(r) == Some((t.hour, t.minute))
  {
    var h12 := Hour12(t.hour);
    var mer := r[|r| - 2..];
    ParseLabel(r, h12, t.minute);
    HourBack(t.hour);
    var hour := if mer == "AM" then h12 % 12 else h12 % 12 + 12;
    assert hour == t.hour as int;
    assert ParseDisplayTime(r) == Some((hour, t.minute as int));
  }

  /** The 12-hour hour and the meridian together give the 24-hour hour back. */
  lemma HourBack(h: Hour)
    ensures (if Meridian(h) == "AM" then Hour12(h) % 12 else Hour12(h) % 12 + 12) == h
  {
  }

  /** Reading back any well-laid-out label. */
  lemma ParseLabel(r: string, h12: nat, m: nat)
    requires |r| >= 7 && r[|r| - 6] == ':' && r[|r| - 3] == ' '
    requires ParseDecimal(r[..|r| - 6]) == Some(h12)
    requires ParseDecimal(r[|r| - 5..|r| - 3]) == Some(m)
    requires r[|r| - 2..] == "AM" || r[|r| - 2..] == "PM"
    ensures ParseDisplayTime(r) == Some((if r[|r| - 2..] == "AM" then h12 % 12 else h12 % 12 + 12, m))
  {
  }

  /** strftime %R: "HH:MM" on the 24-hour clock. */
  function Clock24(t: Timestamp): (r: string)
    ensures |r| == 5 && r[2] == ':'
    ensures ParseClock24(r) == Some((t.hour, t.minute))
  {
    var r := Pad2(t.hour) + ":" + Pad2(t.minute);
    assert r[..2] == Pad2(t.hour) && r[3..] == Pad2(t.minute);
    r
  }

  /** Reads an "HH:MM" label back into (hour, minute). */
  function ParseClock24(s: string): Option<(int, int)> {
    if |s| != 5 || s[2] != ':' then None
    else
      match (ParseDecimal(s[..2]), ParseDecimal(s[3..]))
      case (Some(h), Some(m)) => Some((h, m))
      case _ => None
  }
}
