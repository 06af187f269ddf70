/**
 * Dates as the board stores them: the pattern "yyyyMMddHHmmss", fourteen
 * digits, formatted and parsed with one fixed pattern.
 */
module Dates {
  import opened Wrappers

  /** dateFormat; only its length matters to the board (the backup key width). */
  const DateFormat: string := "yyyyMMddHHmmss"

  datatype Moment = Moment(year: nat, month: nat, day: nat, hour: nat, minute: nat, second: nat) {
    predicate Valid() {
      year < 10000 && 1 <= month <= 12 && 1 <= day <= 31 && hour < 24 && minute < 60 && second < 60
    }
  }

  /** A date to the second, as far as the fixed pattern can write it. */
  type Date = m: Moment | m.Valid() witness Moment(1970, 1, 1, 0, 0, 0)

  function Pow10(w: nat): (p: nat)
    ensures p >= 1
  {
    if w == 0 then 1 else 10 * Pow10(w - 1)
  }

  predicate IsDigit(c: char) {
    '0' <= c <= '9'
  }

  predicate AllDigits(s: string) {
    forall i :: 0 <= i < |s| ==> IsDigit(s[i])
  }

  /** n written in exactly w decimal digits, with leading zeros. */
  function Pad(n: nat, w: nat): (s: string)
    requires n < Pow10(w)
    ensures |s| == w && AllDigits(s)
  {
    if w == 0 then "" else Pad(n / 10, w - 1) + [('0' as int + n % 10) as char]
  }

  /** The number a string of decimal digits denotes. */
  function Value(s: string): (n: nat)
    requires AllDigits(s)
    ensures n < Pow10(|s|)
  {
    if |s| == 0 then 0 else 10 * Value(s[..|s| - 1]) + (s[|s| - 1] as int - '0' as int)
  }

  lemma {:induction false} ValueOfPad(n: nat, w: nat)
    requires n < Pow10(w)
    ensures Value(Pad(n, w)) == n
  {
    if w > 0 {
      var s := Pad(n, w);
      assert s[..w - 1] == Pad(n / 10, w - 1);
      ValueOfPad(n / 10, w - 1);
    }
  }

  lemma {:induction false} PadOfValue(s: string)
    requires AllDigits(s)
    ensures Pad(Value(s), |s|) == s
  {
    if |s| > 0 {
      var n := Value(s);
      var front := s[..|s| - 1];
      assert n / 10 == Value(front) && n % 10 == s[|s| - 1] as int - '0' as int;
      PadOfValue(front);
      assert s == front + [s[|s| - 1]];
    }
  }

  /** dateString(date): the fourteen digits yyyyMMddHHmmss. */
  function DateString(d: Date): (s: string)
    ensures |s| == |DateFormat|
    ensures AllDigits(s)
  {
    Pad(d.year, 4) + Pad(d.month, 2) + Pad(d.day, 2) + Pad(d.hour, 2) + Pad(d.minute, 2) + Pad(d.second, 2)
  }

  /** SimpleDateFormat.parse with the same pattern; None stands for a ParseException. */
  function ParseDate(s: string): Option<Date> {
    if |s| == 14 && AllDigits(s) then
      var m := Moment(Value(s[0..4]), Value(s[4..6]), Value(s[6..8]),
                      Value(s[8..10]), Value(s[10..12]), Value(s[12..14]));
      if m.Valid() then Some(m) else None
    else None
  }

  /** The six fields of a formatted date sit at fixed offsets. */
  lemma SplitSix(a: string, b: string, c: string, d: string, e: string, f: string)
    requires |a| == 4 && |b| == 2 && |c| == 2 && |d| == 2 && |e| == 2 && |f| == 2
    ensures var s := a + b + c + d + e + f;
      s[0..4] == a && s[4..6] == b && s[6..8] == c && s[8..10] == d && s[10..12] == e && s[12..14] == f
  {
    var s := a + b + c + d + e + f;
    assert s[0..4] == a by { assert forall i | 0 <= i < 4 :: s[i] == a[i]; }
    assert s[4..6] == b by { assert forall i | 0 <= i < 2 :: s[4 + i] == b[i]; }
    assert s[6..8] == c by { assert forall i | 0 <= i < 2 :: s[6 + i] == c[i]; }
    assert s[8..10] == d by { assert forall i | 0 <= i < 2 :: s[8 + i] == d[i]; }
    assert s[10..12] == e by { assert forall i | 0 <= i < 2 :: s[10 + i] == e[i]; }
    assert s[12..14] == f by { assert forall i | 0 <= i < 2 :: s[12 + i] == f[i]; }
  }

  lemma ParseDateString(d: Date)
    ensures ParseDate(DateString(d)) == Some(d)
  {
    SplitSix(Pad(d.year, 4), Pad(d.month, 2), Pad(d.day, 2), Pad(d.hour, 2), Pad(d.minute, 2), Pad(d.second, 2));
    ValueOfPad(d.year, 4);
    ValueOfPad(d.month, 2);
    ValueOfPad(d.day, 2);
    ValueOfPad(d.hour, 2);
    ValueOfPad(d.minute, 2);
    ValueOfPad(d.second, 2);
  }

  /** Parsing accepts only what formatting writes. */
  lemma DateStringOfParse(s: string)
    requires ParseDate(s).Some?
    ensures DateString(ParseDate(s).value) == s
  {
    var d := ParseDate(s).value;
    var y, mo, dy, h, mi, se := s[0..4], s[4..6], s[6..8], s[8..10], s[10..12], s[12..14];
    assert Pad(d.year, 4) == y by { PadOfValue(y); }
    assert Pad(d.month, 2) == mo by { PadOfValue(mo); }
    assert Pad(d.day, 2) == dy by { PadOfValue(dy); }
    assert Pad(d.hour, 2) == h by { PadOfValue(h); }
    assert Pad(d.minute, 2) == mi by { PadOfValue(mi); }
    assert Pad(d.second, 2) == se by { PadOfValue(se); }
    assert s == y + mo + dy + h + mi + se;
  }

  lemma DateStringInjective(d1: Date, d2: Date)
    requires DateString(d1) == DateString(d2)
    ensures d1 == d2
  {
    ParseDateString(d1);
    ParseDateString(d2);
  }
}
