/**
 * The last-message timestamp of a DM record: a parsed `datetime` written with
 * `strftime("%Y-%m-%d %H:%M:%S")`, and why ordering those strings orders the
 * moments they denote.
 */
module Timestamp {
  import opened Text

  /**
   * The fields of a parsed `datetime`. A timezone offset, when the source text
   * had one, is dropped before formatting and does not appear here.
   */
  datatype Moment = Moment(year: int, month: int, day: int,
                           hour: int, minute: int, second: int, microsecond: int)

  predicate IsLeap(year: int) {
    year % 4 == 0 && (year % 100 != 0 || year % 400 == 0)
  }

  function DaysInMonth(year: int, month: int): int {
    if month == 2 then (if IsLeap(year) then 29 else 28)
    else if month == 4 || month == 6 || month == 9 || month == 11 then 30
    else 31
  }

  /** The ranges `datetime` accepts (MINYEAR = 1, MAXYEAR = 9999). */
  predicate ValidMoment(m: Moment) {
    && 1 <= m.year <= 9999
    && 1 <= m.month <= 12
    && 1 <= m.day <= DaysInMonth(m.year, m.month)
    && 0 <= m.hour <= 23
    && 0 <= m.minute <= 59
    && 0 <= m.second <= 59
    && 0 <= m.microsecond <= 999999
  }

  type DateTime = m: Moment | ValidMoment(m) witness Moment(1, 1, 1, 0, 0, 0, 0)

  function Digit(d: int): (c: char)
    requires 0 <= d <= 9
    ensures '0' <= c <= '9'
  {
    ('0' as int + d) as char
  }

  /** A number below 100 in two zero-padded decimal digits (`%m`, `%d`, `%H`, `%M`, `%S`). */
  function Pad2(n: int): (s: string)
    requires 0 <= n <= 99
    ensures |s| == 2
  {
    [Digit(n / 10), Digit(n % 10)]
  }

  /** A year in four zero-padded decimal digits (`%Y`). */
  function Pad4(n: int): (s: string)
    requires 0 <= n <= 9999
    ensures |s| == 4
  {
    Pad2(n / 100) + Pad2(n % 100)
  }

  /** `t.strftime("%Y-%m-%d %H:%M:%S")`: always nineteen characters. */
  function Format(t: DateTime): (s: string)
    ensures |s| == 19
  {
    Pad4(t.year) + ("-" + (Pad2(t.month) + ("-" + (Pad2(t.day) + (" " +
      (Pad2(t.hour) + (":" + (Pad2(t.minute) + (":" + Pad2(t.second))))))))))
  }

  /** `a` falls in an earlier second than `b`. */
  predicate Earlier(a: DateTime, b: DateTime) {
    if a.year != b.year then a.year < b.year
    else if a.month != b.month then a.month < b.month
    else if a.day != b.day then a.day < b.day
    else if a.hour != b.hour then a.hour < b.hour
    else if a.minute != b.minute then a.minute < b.minute
    else a.second < b.second
  }

  /** `a` and `b` fall in the same second. */
  predicate SameSecond(a: DateTime, b: DateTime) {
    && a.year == b.year && a.month == b.month && a.day == b.day
    && a.hour == b.hour && a.minute == b.minute && a.second == b.second
  }

  lemma Pad2Order(x: int, y: int)
    requires 0 <= x <= 99 && 0 <= y <= 99
    ensures Below(Pad2(x), Pad2(y)) <==> x < y
    ensures Pad2(x) == Pad2(y) <==> x == y
  {
    var p, q := Pad2(x), Pad2(y);
    assert p[1..] == [Digit(x % 10)] && q[1..] == [Digit(y % 10)];
    assert Below(p[1..], q[1..]) <==> x % 10 < y % 10 by {
      assert p[1..][1..] == [] && q[1..][1..] == [];
    }
    if p == q {
      assert p[0] == q[0] && p[1] == q[1];
    }
  }

  lemma Pad4Order(x: int, y: int)
    requires 0 <= x <= 9999 && 0 <= y <= 9999
    ensures Below(Pad4(x), Pad4(y)) <==> x < y
    ensures Pad4(x) == Pad4(y) <==> x == y
  {
    BelowAppend(Pad2(x / 100), Pad2(x % 100), Pad2(y / 100), Pad2(y % 100));
    Pad2Order(x / 100, y / 100);
    Pad2Order(x % 100, y % 100);
  }

  /** One field of the format: a fixed-width piece, a separator, then the rest. */
  lemma Field(x1: string, r1: string, x2: string, r2: string, sep: string)
    requires |x1| == |x2|
    ensures Below(x1 + (sep + r1), x2 + (sep + r2)) <==> Below(x1, x2) || (x1 == x2 && Below(r1, r2))
    ensures x1 + (sep + r1) == x2 + (sep + r2) <==> x1 == x2 && r1 == r2
  {
    BelowAppend(x1, sep + r1, x2, sep + r2);
    BelowAppend(sep, r1, sep, r2);
    assert !Below(sep, sep);
  }

  /**
   * The fixed-width format orders like time: comparing two formatted
   * timestamps as strings is comparing the seconds they denote, and two
   * timestamps format alike exactly when they fall in the same second.
   */
  lemma FormatOrder(a: DateTime, b: DateTime)
    ensures Below(Format(a), Format(b)) <==> Earlier(a, b)
    ensures Format(a) == Format(b) <==> SameSecond(a, b)
  {
    var s5a, s5b := Pad2(a.second), Pad2(b.second);
    var s4a, s4b := Pad2(a.minute) + (":" + s5a), Pad2(b.minute) + (":" + s5b);
    var s3a, s3b := Pad2(a.hour) + (":" + s4a), Pad2(b.hour) + (":" + s4b);
    var s2a, s2b := Pad2(a.day) + (" " + s3a), Pad2(b.day) + (" " + s3b);
    var s1a, s1b := Pad2(a.month) + ("-" + s2a), Pad2(b.month) + ("-" + s2b);
    assert Format(a) == Pad4(a.year) + ("-" + s1a);
    assert Format(b) == Pad4(b.year) + ("-" + s1b);
    Pad2Order(a.second, b.second);
    Field(Pad2(a.minute), s5a, Pad2(b.minute), s5b, ":");
    Pad2Order(a.minute, b.minute);
    Field(Pad2(a.hour), s4a, Pad2(b.hour), s4b, ":");
    Pad2Order(a.hour, b.hour);
    Field(Pad2(a.day), s3a, Pad2(b.day), s3b, " ");
    Pad2Order(a.day, b.day);
    Field(Pad2(a.month), s2a, Pad2(b.month), s2b, "-");
    Pad2Order(a.month, b.month);
    Field(Pad4(a.year), s1a, Pad4(b.year), s1b, "-");
    Pad4Order(a.year, b.year);
  }

  /** The formatted timestamp holds no character the cache file treats specially. */
  lemma FormatIsPlain(t: DateTime)
    ensures ',' !in Format(t) && '\n' !in Format(t) && Trimmed(Format(t))
    ensures !Contains(Format(t), " (") && ')' !in Format(t)
  {
    var s := Format(t);
    assert forall k :: 0 <= k < |s| ==> '0' <= s[k] <= '9' || s[k] in "- :";
    forall i | 0 <= i <= |s| - 2
      ensures !OccursAt(s, " (", i)
    {
      assert s[i..i + 2][1] == s[i + 1] != '(';
    }
  }
}
