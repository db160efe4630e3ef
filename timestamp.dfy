/** The SubRip caption timestamp `HH:MM:SS,mmm`, over a whole number of
    milliseconds (gui_transcribe.py, `seconds_to_srt_timestamp`). */
module Timestamp {
  import opened Outcomes
  import opened Text

  const MillisPerHour: nat := 3_600_000
  const MillisPerMinute: nat := 60_000
  const MillisPerSecond: nat := 1000

  /** A moment split into clock fields. Hours are unbounded. */
  datatype Clock = Clock(hours: nat, minutes: nat, seconds: nat, millis: nat)

  predicate ValidClock(c: Clock) {
    c.minutes < 60 && c.seconds < 60 && c.millis < 1000
  }

  function TotalMillis(c: Clock): nat {
    c.hours * MillisPerHour + c.minutes * MillisPerMinute + c.seconds * MillisPerSecond + c.millis
  }

  /** The chained `divmod`s: by the hour, then the minute, then the second. */
  function Decompose(n: nat): (c: Clock)
    ensures ValidClock(c)
    ensures TotalMillis(c) == n
  {
    var hours := n / MillisPerHour;
    var remainder := n % MillisPerHour;
    var minutes := remainder / MillisPerMinute;
    var remainder' := remainder % MillisPerMinute;
    Clock(hours, minutes, remainder' / MillisPerSecond, remainder' % MillisPerSecond)
  }

  /** The split is the only one with in-range fields: decomposing the total of
      any valid clock gives that clock back. */
  lemma DecomposeTotal(c: Clock)
    requires ValidClock(c)
    ensures Decompose(TotalMillis(c)) == c
  {
    var n := TotalMillis(c);
    var below := c.minutes * MillisPerMinute + c.seconds * MillisPerSecond + c.millis;
    assert below < MillisPerHour;
    assert n == c.hours * MillisPerHour + below;
    assert n / MillisPerHour == c.hours && n % MillisPerHour == below;
    var secs := c.seconds * MillisPerSecond + c.millis;
    assert secs < MillisPerMinute;
    assert below / MillisPerMinute == c.minutes && below % MillisPerMinute == secs;
  }

  /** `f"{hours:02}:{minutes:02}:{secs:02},{millis:03}"`. */
  function Format(n: nat): string {
    var c := Decompose(n);
    ZeroPad(c.hours, 2) + ":" + ZeroPad(c.minutes, 2) + ":" + ZeroPad(c.seconds, 2)
      + "," + ZeroPad(c.millis, 3)
  }

  /** Reads `H..H:MM:SS,mmm` (at least two hour digits) back into milliseconds;
      anything else is refused. */
  function Parse(t: string): Option<nat> {
    if |t| < 12 then None
    else
      var hh := t[..|t| - 10];
      var mm := t[|t| - 9..|t| - 7];
      var ss := t[|t| - 6..|t| - 4];
      var ms := t[|t| - 3..];
      if t[|t| - 10] == ':' && t[|t| - 7] == ':' && t[|t| - 4] == ','
         && AllDigits(hh) && AllDigits(mm) && AllDigits(ss) && AllDigits(ms)
         && ParseDigits(mm) < 60 && ParseDigits(ss) < 60
      then Some(TotalMillis(Clock(ParseDigits(hh), ParseDigits(mm), ParseDigits(ss), ParseDigits(ms))))
      else None
  }

  /** `t` is laid out as `H..H:MM:SS,mmm`, with at least two hour digits and
      no leading zero when there are more, and its four fields read as the
      given values. */
  predicate Fields(t: string, hours: nat, minutes: nat, seconds: nat, millis: nat) {
    |t| >= 12 && (|t| > 12 ==> t[0] != '0')
    && t[|t| - 10] == ':' && t[|t| - 7] == ':' && t[|t| - 4] == ','
    && AllDigits(t[..|t| - 10]) && AllDigits(t[|t| - 9..|t| - 7])
    && AllDigits(t[|t| - 6..|t| - 4]) && AllDigits(t[|t| - 3..])
    && ParseDigits(t[..|t| - 10]) == hours
    && ParseDigits(t[|t| - 9..|t| - 7]) == minutes
    && ParseDigits(t[|t| - 6..|t| - 4]) == seconds
    && ParseDigits(t[|t| - 3..]) == millis
  }

  /** The fixed layout: hours take at least two digits (more when needed,
      never wrapping and then without a leading zero), minutes and seconds exactly two, milliseconds exactly
      three, with `:`, `:` and `,` between them. */
  lemma FormatShape(n: nat)
    ensures var c := Decompose(n); Fields(Format(n), n / MillisPerHour, c.minutes, c.seconds, c.millis)
  {
    var c := Decompose(n);
    var h, m, s, ms := ZeroPad(c.hours, 2), ZeroPad(c.minutes, 2), ZeroPad(c.seconds, 2), ZeroPad(c.millis, 3);
    assert Format(n) == h + ":" + m + ":" + s + "," + ms;
    ZeroPadProperties(c.hours, 2);
    assert Pow10(2) == 100 && Pow10(3) == 1000;
    PaddedField(c.minutes, 2);
    PaddedField(c.seconds, 2);
    PaddedField(c.millis, 3);
    Layout(h, m, s, ms, c.hours, c.minutes, c.seconds, c.millis);
  }

  /** A field below `10^w` renders as exactly `w` digits that read back as
      its value. */
  lemma PaddedField(v: nat, w: nat)
    requires 0 < w && v < Pow10(w)
    ensures |ZeroPad(v, w)| == w && AllDigits(ZeroPad(v, w)) && ParseDigits(ZeroPad(v, w)) == v
  {
    ZeroPadProperties(v, w);
  }

  /** Placing digit fields of the right widths around the separators gives a
      string laid out as a timestamp with those field values. */
  lemma Layout(h: string, m: string, s: string, ms: string, hv: nat, mv: nat, sv: nat, msv: nat)
    requires |h| >= 2 && |m| == 2 && |s| == 2 && |ms| == 3
    requires AllDigits(h) && AllDigits(m) && AllDigits(s) && AllDigits(ms)
    requires ParseDigits(h) == hv && ParseDigits(m) == mv && ParseDigits(s) == sv && ParseDigits(ms) == msv
    requires |h| > 2 ==> h[0] != '0'
    ensures Fields(h + ":" + m + ":" + s + "," + ms, hv, mv, sv, msv)
  {
    Slices(h, m, s, ms);
    assert (h + ":" + m + ":" + s + "," + ms)[0] == h[0];
  }

  lemma Slices(h: string, m: string, s: string, ms: string)
    requires |m| == 2 && |s| == 2 && |ms| == 3
    ensures var t := h + ":" + m + ":" + s + "," + ms;
      |t| == |h| + 10
      && t[|t| - 10] == ':' && t[|t| - 7] == ':' && t[|t| - 4] == ','
      && t[..|t| - 10] == h && t[|t| - 9..|t| - 7] == m
      && t[|t| - 6..|t| - 4] == s && t[|t| - 3..] == ms
  {
    var t := h + ":" + m + ":" + s + "," + ms;
    assert t[..|t| - 10] == h;
    assert t[|t| - 9..|t| - 7] == m;
    assert t[|t| - 6..|t| - 4] == s;
    assert t[|t| - 3..] == ms;
  }

  /** Reading a rendered timestamp gives back the millisecond count. */
  lemma ParseFormat(n: nat)
    ensures Parse(Format(n)) == Some(n)
  {
    FormatShape(n);
  }

  /** Distinct counts render differently. */
  lemma FormatInjective(a: nat, b: nat)
    requires Format(a) == Format(b)
    ensures a == b
  {
    ParseFormat(a);
    ParseFormat(b);
  }

  /** Below 100 hours every timestamp is exactly twelve characters long. */
  lemma FormatWidthBelow100Hours(n: nat)
    requires n < 100 * MillisPerHour
    ensures |Format(n)| == 12
  {
    var c := Decompose(n);
    assert c.hours < 100;
    ZeroPadProperties(c.hours, 2);
    ZeroPadProperties(c.minutes, 2);
    ZeroPadProperties(c.seconds, 2);
    ZeroPadProperties(c.millis, 3);
    assert Pow10(2) == 100 && Pow10(3) == 1000;
  }

  // Order.

  /** Clock fields compare in order of significance whenever the totals do. */
  lemma ClockOrder(c: Clock, d: Clock)
    requires ValidClock(c) && ValidClock(d) && TotalMillis(c) <= TotalMillis(d)
    ensures c.hours < d.hours
      || (c.hours == d.hours && (c.minutes < d.minutes
      || (c.minutes == d.minutes && (c.seconds < d.seconds
      || (c.seconds == d.seconds && c.millis <= d.millis)))))
  {
    MonotoneField(c.hours, d.hours, MillisPerHour,
                  TotalMillis(c) - c.hours * MillisPerHour, TotalMillis(d) - d.hours * MillisPerHour);
    if c.hours == d.hours {
      var rc, rd := c.seconds * MillisPerSecond + c.millis, d.seconds * MillisPerSecond + d.millis;
      MonotoneField(c.minutes, d.minutes, MillisPerMinute, rc, rd);
      if c.minutes == d.minutes {
        MonotoneField(c.seconds, d.seconds, MillisPerSecond, c.millis, d.millis);
      }
    }
  }

  /** In `v * unit + r` with `r < unit`, the multiple `v` decides first. */
  lemma MonotoneField(vc: nat, vd: nat, unit: nat, rc: nat, rd: nat)
    requires rc < unit && rd < unit && vc * unit + rc <= vd * unit + rd
    ensures vc <= vd && (vc == vd ==> rc <= rd)
  {
    ProductStep(vc, vd, unit);
  }

  /** Two padded fields of one width order as their values. */
  lemma FieldLess(x: nat, y: nat, w: nat)
    requires 0 < w && x < y < Pow10(w)
    ensures LexLess(ZeroPad(x, w), ZeroPad(y, w))
  {
    PaddedField(x, w);
    PaddedField(y, w);
    DigitsOrder(ZeroPad(x, w), ZeroPad(y, w));
  }

  /** Timestamps laid out from fields of matching widths order as their
      fields do, most significant first. */
  lemma StampOrder(h: string, m: string, s: string, ms: string,
                   h': string, m': string, s': string, ms': string)
    requires |h| == |h'| && |m| == |m'| && |s| == |s'|
    requires LexLess(h, h')
      || (h == h' && (LexLess(m, m')
      || (m == m' && (LexLess(s, s')
      || (s == s' && LexAtMost(ms, ms'))))))
    ensures LexAtMost(h + ":" + m + ":" + s + "," + ms, h' + ":" + m' + ":" + s' + "," + ms')
  {
    var p, p' := h + ":" + m + ":" + s + ",", h' + ":" + m' + ":" + s' + ",";
    if LexLess(h, h') {
      LexPrefixLess(h, h', ":", ":");
      LexPrefixLess(h + ":", h' + ":", m, m');
      LexPrefixLess(h + ":" + m, h' + ":" + m', ":", ":");
      LexPrefixLess(h + ":" + m + ":", h' + ":" + m' + ":", s, s');
      LexPrefixLess(h + ":" + m + ":" + s, h' + ":" + m' + ":" + s', ",", ",");
      LexPrefixLess(p, p', ms, ms');
    } else if LexLess(m, m') {
      LexSamePrefix(h + ":", m, m');
      LexPrefixLess(h + ":" + m, h + ":" + m', ":", ":");
      LexPrefixLess(h + ":" + m + ":", h + ":" + m' + ":", s, s');
      LexPrefixLess(h + ":" + m + ":" + s, h + ":" + m' + ":" + s', ",", ",");
      LexPrefixLess(p, p', ms, ms');
    } else if LexLess(s, s') {
      LexSamePrefix(h + ":" + m + ":", s, s');
      LexPrefixLess(h + ":" + m + ":" + s, h + ":" + m + ":" + s', ",", ",");
      LexPrefixLess(p, p', ms, ms');
    } else {
      LexSamePrefix(p, ms, ms');
    }
  }

  /** Below 100 hours, a later moment never renders as a string that sorts
      before an earlier one. */
  lemma FormatMonotoneBelow100Hours(a: nat, b: nat)
    requires a <= b < 100 * MillisPerHour
    ensures LexAtMost(Format(a), Format(b))
  {
    var c, d := Decompose(a), Decompose(b);
    ClockOrder(c, d);
    assert c.hours < 100 && d.hours < 100;
    assert Pow10(2) == 100 && Pow10(3) == 1000;
    PaddedField(c.hours, 2);
    PaddedField(d.hours, 2);
    PaddedField(c.minutes, 2);
    PaddedField(d.minutes, 2);
    PaddedField(c.seconds, 2);
    PaddedField(d.seconds, 2);
    if c.hours < d.hours {
      FieldLess(c.hours, d.hours, 2);
    } else if c.minutes < d.minutes {
      FieldLess(c.minutes, d.minutes, 2);
    } else if c.seconds < d.seconds {
      FieldLess(c.seconds, d.seconds, 2);
    } else if c.millis < d.millis {
      FieldLess(c.millis, d.millis, 3);
    }
    StampOrder(ZeroPad(c.hours, 2), ZeroPad(c.minutes, 2), ZeroPad(c.seconds, 2), ZeroPad(c.millis, 3),
               ZeroPad(d.hours, 2), ZeroPad(d.minutes, 2), ZeroPad(d.seconds, 2), ZeroPad(d.millis, 3));
  }

  /** At 100 hours the order breaks: the hour field grows a third digit, and
      `"100:00:00,000"` sorts before `"99:59:59,999"`. */
  lemma FormatOrderBreaksAt100Hours()
    ensures LexLess(Format(100 * MillisPerHour), Format(100 * MillisPerHour - 1))
  {
    var late, early := Decompose(100 * MillisPerHour), Decompose(100 * MillisPerHour - 1);
    assert late.hours == 100 && early.hours == 99;
    assert Decimal(100) == Decimal(10) + ['0'] && Decimal(10) == Decimal(1) + ['0'];
    assert ZeroPad(100, 2)[0] == '1';
    assert Decimal(99) == Decimal(9) + ['9'];
    assert ZeroPad(99, 2)[0] == '9';
    assert LexLessAt(Format(100 * MillisPerHour), Format(100 * MillisPerHour - 1), 0);
  }
}
