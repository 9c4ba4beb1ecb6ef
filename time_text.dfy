/**
 * The text handling shared by the timeline code: integers printed with
 * `toString()` and `padStart(2, '0')`, digit strings read back with `Number`
 * and `parseInt`, `split(':')` on "HH:MM" times, and the code-unit order on
 * strings that the slot sort uses.
 */
module TimeText {
  import opened Wrappers

  predicate IsDigit(c: char) { '0' <= c <= '9' }

  function DigitChar(d: nat): (c: char)
    requires d < 10
    ensures IsDigit(c)
  {
    ('0' as int + d) as char
  }

  function DigitValue(c: char): (d: nat)
    requires IsDigit(c)
    ensures d < 10 && DigitChar(d) == c
  {
    c as int - '0' as int
  }

  predicate AllDigits(s: string) { forall i :: 0 <= i < |s| ==> IsDigit(s[i]) }

  /** Decimal rendering of a non-negative integer, as `n.toString()` prints it. */
  function NatToString(n: nat): (s: string)
    ensures |s| >= 1 && AllDigits(s)
    ensures n < 10 <==> |s| == 1
  {
    if n < 10 then [DigitChar(n)] else NatToString(n / 10) + [DigitChar(n % 10)]
  }

  /** `n.toString()` for an integer. */
  function IntToString(n: int): string {
    if n < 0 then "-" + NatToString(-n) else NatToString(n)
  }

  /** `s.padStart(2, '0')`: left-pads with zeros up to length 2, never truncates. */
  function PadStart2(s: string): (r: string)
    ensures |s| >= 2 ==> r == s
    ensures |s| < 2 ==> |r| == 2 && r[2 - |s|..] == s
    ensures forall i :: 0 <= i < 2 - |s| ==> r[i] == '0'
  {
    if |s| >= 2 then s else if |s| == 1 then "0" + s else "00"
  }

  /** `n.toString().padStart(2, '0')`. */
  function Pad2(n: int): string {
    PadStart2(IntToString(n))
  }

  /** The label of an hour slot and the time the client gives a task dropped there: `HH:00`. */
  function HourLabel(hour: int): string {
    Pad2(hour) + ":00"
  }

  /** An `HH:MM` wall-clock string with both fields zero-padded. */
  function Clock(hour: int, minutes: int): string {
    Pad2(hour) + ":" + Pad2(minutes)
  }

  /** The value of a string of decimal digits; leading zeros do not count. */
  function DecimalValue(s: string): nat
    requires AllDigits(s)
  {
    if s == [] then 0 else DecimalValue(s[..|s| - 1]) * 10 + DigitValue(s[|s| - 1])
  }

  /**
   * `Number(s) || 0` for one field of a split time: the empty string is 0, a
   * string of digits is its value, and any other text is `NaN`, which `|| 0`
   * turns into 0.
   */
  function NumberOrZero(s: string): nat {
    if AllDigits(s) then DecimalValue(s) else 0
  }

  /** The digits `parseInt` reads: the longest run of digits at the start. */
  function LeadingDigits(s: string): (r: string)
    ensures AllDigits(r) && r <= s
  {
    if s != [] && IsDigit(s[0]) then [s[0]] + LeadingDigits(s[1..]) else []
  }

  /** `parseInt(s, 10)` on text without sign or blanks: `None` stands for `NaN`. */
  function ParseInt(s: string): (r: Option<nat>)
    ensures r.None? <==> s == [] || !IsDigit(s[0])
  {
    var d := LeadingDigits(s);
    if d == [] then None else Some(DecimalValue(d))
  }

  /** `s.split(':')[0]`: the text before the first colon, or all of it. */
  function BeforeColon(s: string): (r: string)
    ensures r <= s && ':' !in r
  {
    if s == [] || s[0] == ':' then [] else [s[0]] + BeforeColon(s[1..])
  }

  /** Everything after the first colon, or `None` when `s` has no colon. */
  function AfterColon(s: string): (r: Option<string>)
    ensures r.None? <==> ':' !in s
  {
    if s == [] then None else if s[0] == ':' then Some(s[1..]) else AfterColon(s[1..])
  }

  /**
   * `timeToMinutes`: `const [hours, minutes] = time.split(':').map(Number)`
   * and `(hours || 0) * 60 + (minutes || 0)`; a missing minutes field counts 0.
   */
  function TimeToMinutes(time: string): nat {
    var minutes := match AfterColon(time)
      case None => 0
      case Some(rest) => NumberOrZero(BeforeColon(rest));
    NumberOrZero(BeforeColon(time)) * 60 + minutes
  }

  /** Code-unit lexicographic order (`a <= b`), what `localeCompare` gives on digit-and-colon text. */
  predicate LexLe(a: string, b: string) {
    a == [] || (b != [] && (a[0] < b[0] || (a[0] == b[0] && LexLe(a[1..], b[1..]))))
  }

  // ---------------------------------------------------------------------------
  // Lemmas

  lemma {:induction false} LexLeTotal(a: string, b: string)
    ensures LexLe(a, b) || LexLe(b, a)
  {
    if a != [] && b != [] && a[0] == b[0] {
      LexLeTotal(a[1..], b[1..]);
    }
  }

  lemma {:induction false} LexLeTransitive(a: string, b: string, c: string)
    requires LexLe(a, b) && LexLe(b, c)
    ensures LexLe(a, c)
  {
    if a != [] && a[0] == b[0] && b[0] == c[0] {
      LexLeTransitive(a[1..], b[1..], c[1..]);
    }
  }

  lemma {:induction false} LexLeAntisymmetric(a: string, b: string)
    requires LexLe(a, b) && LexLe(b, a)
    ensures a == b
  {
    if a != [] && b != [] {
      LexLeAntisymmetric(a[1..], b[1..]);
      assert a == [a[0]] + a[1..] && b == [b[0]] + b[1..];
    }
  }

  /** With equal-length prefixes, the order is decided by the prefixes first. */
  lemma {:induction false} LexLeConcat(a: string, b: string, x: string, y: string)
    requires |a| == |b|
    ensures LexLe(a + x, b + y) <==> (a != b && LexLe(a, b)) || (a == b && LexLe(x, y))
  {
    if a == [] {
      assert a + x == x && b + y == y;
    } else {
      assert (a + x)[0] == a[0] && (b + y)[0] == b[0];
      assert (a + x)[1..] == a[1..] + x && (b + y)[1..] == b[1..] + y;
      LexLeConcat(a[1..], b[1..], x, y);
      if a[0] == b[0] && a[1..] == b[1..] {
        assert a == [a[0]] + a[1..] && b == [b[0]] + b[1..];
      }
    }
  }

  lemma {:induction false} DecimalOfNatToString(n: nat)
    ensures DecimalValue(NatToString(n)) == n
  {
    if n >= 10 {
      var s := NatToString(n);
      assert s[..|s| - 1] == NatToString(n / 10);
      DecimalOfNatToString(n / 10);
    }
  }

  lemma {:induction false} DecimalLeadingZero(s: string)
    requires AllDigits(s)
    ensures AllDigits("0" + s) && DecimalValue("0" + s) == DecimalValue(s)
  {
    if s != [] {
      assert ("0" + s)[..|"0" + s| - 1] == "0" + s[..|s| - 1];
      DecimalLeadingZero(s[..|s| - 1]);
    }
  }

  /** A padded non-negative integer is a digit string that reads back as that integer. */
  lemma Pad2Decimal(n: nat)
    ensures AllDigits(Pad2(n)) && DecimalValue(Pad2(n)) == n && ':' !in Pad2(n)
  {
    DecimalOfNatToString(n);
    if n < 10 {
      DecimalLeadingZero(NatToString(n));
    }
  }

  /** Two hours below 100 are printed as exactly two digits: tens, then units. */
  lemma Pad2Digits(n: nat)
    requires n < 100
    ensures Pad2(n) == [DigitChar(n / 10), DigitChar(n % 10)]
  {
    if n >= 10 {
      assert NatToString(n / 10) == [DigitChar(n / 10)];
    }
  }

  lemma Pad2Injective(a: nat, b: nat)
    requires Pad2(a) == Pad2(b)
    ensures a == b
  {
    Pad2Decimal(a);
    Pad2Decimal(b);
  }

  /** The hour field of an `HH:00` label is the padded hour. */
  lemma HourLabelFields(hour: nat)
    ensures BeforeColon(HourLabel(hour)) == Pad2(hour)
  {
    Pad2NoColon(hour);
    HourLabelSplits(Pad2(hour));
    SplitAtColon(Pad2(hour), "00");
  }

  lemma Pad2NoColon(n: nat)
    ensures ':' !in Pad2(n)
  {
    Pad2Decimal(n);
  }

  lemma HourLabelSplits(p: string)
    ensures p + ":00" == p + ":" + "00"
  {
  }

  lemma HourLabelInjective(a: nat, b: nat)
    requires HourLabel(a) == HourLabel(b)
    ensures a == b
  {
    HourLabelFields(a);
    HourLabelFields(b);
    Pad2Injective(a, b);
  }

  /** `split(':')` of `a + ":" + b` gives back `a` and `b` when `a` has no colon. */
  lemma {:induction false} SplitAtColon(a: string, b: string)
    requires ':' !in a
    ensures BeforeColon(a + ":" + b) == a
    ensures AfterColon(a + ":" + b) == Some(b)
  {
    if a != [] {
      assert (a + ":" + b)[1..] == a[1..] + ":" + b;
      SplitAtColon(a[1..], b);
    } else {
      assert a + ":" + b == ":" + b;
    }
  }

  lemma {:induction false} BeforeColonNoColon(s: string)
    requires ':' !in s
    ensures BeforeColon(s) == s
  {
    if s != [] {
      BeforeColonNoColon(s[1..]);
    }
  }

  /** `timeToMinutes("HH:MM") = HH * 60 + MM` for zero-padded fields. */
  lemma TimeToMinutesOfClock(hour: nat, minutes: nat)
    ensures TimeToMinutes(Clock(hour, minutes)) == hour * 60 + minutes
  {
    Pad2Decimal(hour);
    Pad2Decimal(minutes);
    SplitAtColon(Pad2(hour), Pad2(minutes));
    BeforeColonNoColon(Pad2(minutes));
  }

  /** A time without a minutes field counts its minutes as 0. */
  lemma TimeToMinutesHourOnly(hour: nat)
    ensures TimeToMinutes(Pad2(hour)) == hour * 60
  {
    Pad2Decimal(hour);
    BeforeColonNoColon(Pad2(hour));
  }

  /** A non-numeric hour field counts as 0 hours; the minutes field still counts. */
  lemma TimeToMinutesNonNumericHour(hourText: string, minutes: nat)
    requires ':' !in hourText && !AllDigits(hourText)
    ensures TimeToMinutes(hourText + ":" + Pad2(minutes)) == minutes
  {
    Pad2Decimal(minutes);
    SplitAtColon(hourText, Pad2(minutes));
    BeforeColonNoColon(Pad2(minutes));
  }

  lemma TwoCharLex(c1: char, c2: char, d1: char, d2: char)
    ensures LexLe([c1, c2], [d1, d2]) <==> c1 < d1 || (c1 == d1 && c2 <= d2)
  {
    assert [c1, c2][1..] == [c2] && [d1, d2][1..] == [d2];
    assert [c2][1..] == [] && [d2][1..] == [];
    assert LexLe([c2][1..], [d2][1..]);
    assert LexLe([c2], [d2]) <==> c2 <= d2;
  }

  lemma TensUnitsOrder(qa: nat, ra: nat, qb: nat, rb: nat)
    requires ra < 10 && rb < 10
    ensures qa * 10 + ra <= qb * 10 + rb <==> qa < qb || (qa == qb && ra <= rb)
  {
    if qa < qb {
      assert qa * 10 + 10 <= qb * 10;
    } else if qa > qb {
      assert qb * 10 + 10 <= qa * 10;
    }
  }

  /** On zero-padded hours below 100 the string order is the numeric order. */
  lemma Pad2Order(a: nat, b: nat)
    requires a < 100 && b < 100
    ensures LexLe(Pad2(a), Pad2(b)) <==> a <= b
  {
    Pad2Digits(a);
    Pad2Digits(b);
    TwoCharLex(DigitChar(a / 10), DigitChar(a % 10), DigitChar(b / 10), DigitChar(b % 10));
    TensUnitsOrder(a / 10, a % 10, b / 10, b % 10);
  }

  /**
   * Sorting zero-padded `HH:MM` strings as text sorts them by time of day:
   * the string order agrees with the order of minutes since midnight.
   */
  lemma ClockOrderIsChronological(h1: nat, m1: nat, h2: nat, m2: nat)
    requires h1 < 100 && h2 < 100 && m1 < 60 && m2 < 60
    ensures LexLe(Clock(h1, m1), Clock(h2, m2)) <==> h1 * 60 + m1 <= h2 * 60 + m2
  {
    ClockShape(h1, m1);
    ClockShape(h2, m2);
    LexLeConcat(Pad2(h1), Pad2(h2), ":" + Pad2(m1), ":" + Pad2(m2));
    ColonLex(Pad2(m1), Pad2(m2));
    Pad2Order(h1, h2);
    Pad2Order(m1, m2);
    if Pad2(h1) == Pad2(h2) {
      Pad2Injective(h1, h2);
    }
  }

  lemma ClockShape(hour: nat, minutes: nat)
    requires hour < 100
    ensures |Pad2(hour)| == 2 && Clock(hour, minutes) == Pad2(hour) + (":" + Pad2(minutes))
  {
    Pad2Digits(hour);
  }

  /** A shared leading colon does not change the order. */
  lemma ColonLex(x: string, y: string)
    ensures LexLe(":" + x, ":" + y) <==> LexLe(x, y)
  {
    assert (":" + x)[1..] == x && (":" + y)[1..] == y;
  }
}
