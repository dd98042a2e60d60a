/**
 * The text form of a visit date. The bot stores `str(date)`, the ISO form
 * `YYYY-MM-DD` with zero padding, and reads typed dates with
 * `datetime.strptime(text, '%Y-%m-%d')`, whose directives accept exactly
 * four digits for the year, `1[0-2]|0[1-9]|[1-9]` for the month and
 * `3[01]|[12]\d|0[1-9]|[1-9]| [1-9]` for the day, and which then rejects
 * leftover text and dates the calendar does not have.
 */
module IsoDate {
  import opened Wrappers
  import opened Strings
  import opened Calendar

  function Pow10(w: nat): (p: nat)
    ensures p >= 1
  {
    if w == 0 then 1 else 10 * Pow10(w - 1)
  }

  predicate IsDigit(c: char)
  {
    '0' <= c <= '9'
  }

  function DigitChar(n: int): (c: char)
    requires 0 <= n <= 9
    ensures IsDigit(c)
  {
    ('0' as int + n) as char
  }

  function DigitValue(c: char): (n: int)
    requires IsDigit(c)
    ensures 0 <= n <= 9 && DigitChar(n) == c
  {
    c as int - '0' as int
  }

  predicate AllDigits(s: string)
  {
    forall i :: 0 <= i < |s| ==> IsDigit(s[i])
  }

  /** The low `width` decimal digits of `n`, zero-padded (`'%0*d' % (width, n)` for small `n`). */
  function Digits(n: nat, width: nat): (s: string)
    ensures |s| == width && AllDigits(s)
  {
    if width == 0 then [] else Digits(n / 10, width - 1) + [DigitChar(n % 10)]
  }

  /** Python's `int()` of a string of decimal digits. */
  function NumberOf(s: string): (n: nat)
    requires AllDigits(s)
  {
    if |s| == 0 then 0 else 10 * NumberOf(s[..|s| - 1]) + DigitValue(s[|s| - 1])
  }

  /** The text `YYYY-MM-DD` of three numbers, each zero-padded. */
  function IsoText(y: nat, m: nat, d: nat): (s: string)
    ensures |s| == 10
  {
    Digits(y, 4) + ("-" + (Digits(m, 2) + ("-" + Digits(d, 2))))
  }

  /** `str(d)`: the ISO form of a date. */
  function Format(d: Date): (s: string)
    requires Valid(d)
    ensures |s| == 10 && s[4] == '-' && s[7] == '-'
    ensures AllDigits(s[..4]) && AllDigits(s[5..7]) && AllDigits(s[8..])
  {
    IsoText(d.year, d.month, d.day)
  }

  /** What the `%m` directive matches. */
  predicate IsMonthToken(t: string)
  {
    || (|t| == 1 && '1' <= t[0] <= '9')
    || (|t| == 2 && t[0] == '1' && '0' <= t[1] <= '2')
    || (|t| == 2 && t[0] == '0' && '1' <= t[1] <= '9')
  }

  /** What the `%d` directive matches, including a space before a single digit. */
  predicate IsDayToken(t: string)
  {
    || (|t| == 2 && t[0] == '3' && (t[1] == '0' || t[1] == '1'))
    || (|t| == 2 && (t[0] == '1' || t[0] == '2') && IsDigit(t[1]))
    || (|t| == 2 && t[0] == '0' && '1' <= t[1] <= '9')
    || (|t| == 1 && '1' <= t[0] <= '9')
    || (|t| == 2 && t[0] == ' ' && '1' <= t[1] <= '9')
  }

  function DayValue(t: string): int
    requires IsDayToken(t)
  {
    if t[0] == ' ' then DigitValue(t[1]) else NumberOf(t)
  }

  /** The three fields the pattern `%Y-%m-%d` picks out of a whole string. */
  datatype Fields = Fields(year: string, month: string, day: string)

  /**
   * The regular-expression match behind `strptime(s, '%Y-%m-%d')`: four
   * digits, '-', a month token, '-', and a day token that must reach the end
   * of the text. The month token ends at the first '-' after one or two
   * characters, since no `%m` alternative contains '-'.
   */
  function MatchFields(s: string): (r: Option<Fields>)
    ensures r.Some? ==> |r.value.year| == 4 && AllDigits(r.value.year)
    ensures r.Some? ==> IsMonthToken(r.value.month) && IsDayToken(r.value.day)
  {
    if |s| < 5 || !AllDigits(s[..4]) || s[4] != '-' then None
    else
      var rest := s[5..];
      var monthLength := if |rest| >= 2 && rest[1] == '-' then 1
                         else if |rest| >= 3 && rest[2] == '-' then 2
                         else 0;
      if monthLength == 0 || !IsMonthToken(rest[..monthLength]) then None
      else if !IsDayToken(rest[monthLength + 1..]) then None
      else Some(Fields(s[..4], rest[..monthLength], rest[monthLength + 1..]))
  }

  function MonthValue(t: string): int
    requires IsMonthToken(t)
  {
    NumberOf(t)
  }

  /**
   * `datetime.strptime(s, '%Y-%m-%d').date()`, None where it raises
   * ValueError: no match, text left over, year 0, or a day the month lacks.
   */
  function Parse(s: string): (r: Option<Date>)
    ensures r.Some? ==> Valid(r.value)
  {
    match MatchFields(s)
    case None => None
    case Some(f) =>
      var d := Date(NumberOf(f.year), MonthValue(f.month), DayValue(f.day));
      if Valid(d) then Some(d) else None
  }

  /** A string in the exact form `str(date)` produces. */
  ghost predicate IsIsoDate(s: string)
  {
    exists d :: Valid(d) && Format(d) == s
  }

  lemma {:induction false} NumberOfDigits(n: nat, width: nat)
    requires n < Pow10(width)
    ensures NumberOf(Digits(n, width)) == n
  {
    if width > 0 {
      var s := Digits(n, width);
      assert s[..|s| - 1] == Digits(n / 10, width - 1);
      NumberOfDigits(n / 10, width - 1);
    }
  }

  /** Equal-width zero-padded numerals sort like the numbers they denote. */
  lemma {:induction false} DigitsOrder(a: nat, b: nat, width: nat)
    requires a < Pow10(width) && b < Pow10(width)
    ensures LexLess(Digits(a, width), Digits(b, width)) <==> a < b
    ensures Digits(a, width) == Digits(b, width) <==> a == b
  {
    if width > 0 {
      var sa, sb := Digits(a, width), Digits(b, width);
      var pa, pb := Digits(a / 10, width - 1), Digits(b / 10, width - 1);
      var ca, cb := DigitChar(a % 10), DigitChar(b % 10);
      assert sa == pa + [ca] && sb == pb + [cb];
      DigitsOrder(a / 10, b / 10, width - 1);
      LexLessAppend(pa, [ca], pb, [cb]);
      assert LexLess([ca], [cb]) <==> ca < cb;
      assert ca < cb <==> a % 10 < b % 10;
      if sa == sb {
        assert sa[..width - 1] == pa && sb[..width - 1] == pb;
        assert sa[width - 1] == ca && sb[width - 1] == cb;
      }
    }
  }

  /** Comparing the text after the year: month first, then day. */
  lemma TailOrder(m1: nat, d1: nat, m2: nat, d2: nat)
    requires m1 < 100 && d1 < 100 && m2 < 100 && d2 < 100
    ensures LexLess("-" + (Digits(m1, 2) + ("-" + Digits(d1, 2))), "-" + (Digits(m2, 2) + ("-" + Digits(d2, 2))))
            <==> m1 < m2 || (m1 == m2 && d1 < d2)
  {
    var e1, e2 := "-" + Digits(d1, 2), "-" + Digits(d2, 2);
    DigitsOrder(m1, m2, 2);
    DigitsOrder(d1, d2, 2);
    LexLessAppend("-", Digits(m1, 2) + e1, "-", Digits(m2, 2) + e2);
    LexLessAppend(Digits(m1, 2), e1, Digits(m2, 2), e2);
    LexLessAppend("-", Digits(d1, 2), "-", Digits(d2, 2));
  }

  /** The ISO text of valid dates sorts in calendar order. */
  lemma FormatPrecedes(a: Date, b: Date)
    requires Valid(a) && Valid(b)
    ensures LexLess(Format(a), Format(b)) <==> Precedes(a, b)
  {
    var ta := "-" + (Digits(a.month, 2) + ("-" + Digits(a.day, 2)));
    var tb := "-" + (Digits(b.month, 2) + ("-" + Digits(b.day, 2)));
    DigitsOrder(a.year, b.year, 4);
    TailOrder(a.month, a.day, b.month, b.day);
    LexLessAppend(Digits(a.year, 4), ta, Digits(b.year, 4), tb);
  }

  lemma FormatOrder(a: Date, b: Date)
    requires Valid(a) && Valid(b)
    ensures LexLess(Format(a), Format(b)) <==> Ordinal(a) < Ordinal(b)
    ensures Format(a) == Format(b) <==> a == b
  {
    FormatPrecedes(a, b);
    FormatPrecedes(b, a);
    OrdinalOrder(a, b);
    LexLessIrreflexive(Format(a));
  }

  /** Inclusive range membership on the text agrees with the calendar. */
  lemma FormatBetween(lo: Date, d: Date, hi: Date)
    requires Valid(lo) && Valid(d) && Valid(hi)
    ensures (LexLeq(Format(lo), Format(d)) && LexLeq(Format(d), Format(hi)))
            <==> Ordinal(lo) <= Ordinal(d) <= Ordinal(hi)
  {
    FormatLeq(lo, d);
    FormatLeq(d, hi);
  }

  lemma FormatLeq(a: Date, b: Date)
    requires Valid(a) && Valid(b)
    ensures LexLeq(Format(a), Format(b)) <==> Ordinal(a) <= Ordinal(b)
  {
    FormatOrder(a, b);
    OrdinalOrder(a, b);
    LexLeqCases(Format(a), Format(b), Ordinal(a) < Ordinal(b), Ordinal(a) == Ordinal(b));
  }

  /** How `MatchFields` splits text laid out as year, '-', month, '-', day. */
  lemma MatchLayout(yt: string, mt: string, dt: string)
    requires |yt| == 4 && AllDigits(yt)
    requires 1 <= |mt| <= 2 && forall i :: 0 <= i < |mt| ==> mt[i] != '-'
    ensures MatchFields(yt + ("-" + (mt + ("-" + dt))))
            == if IsMonthToken(mt) && IsDayToken(dt) then Some(Fields(yt, mt, dt)) else None
  {
    var s := yt + ("-" + (mt + ("-" + dt)));
    assert s[..4] == yt && s[4] == '-';
    var rest := s[5..];
    assert rest == mt + ("-" + dt);
    assert rest[|mt|] == '-';
    assert rest[..|mt|] == mt && rest[|mt| + 1..] == dt;
  }

  lemma DigitsTwo(n: nat)
    requires n < 100
    ensures Digits(n, 2) == [DigitChar(n / 10), DigitChar(n % 10)]
  {
    assert Digits(n / 10, 1) == [DigitChar(n / 10)];
  }

  lemma TwoDigitTokens(n: nat)
    requires n < 100
    ensures IsMonthToken(Digits(n, 2)) <==> 1 <= n <= 12
    ensures IsDayToken(Digits(n, 2)) <==> 1 <= n <= 31
    ensures IsDayToken(Digits(n, 2)) ==> DayValue(Digits(n, 2)) == n
    ensures IsMonthToken(Digits(n, 2)) ==> MonthValue(Digits(n, 2)) == n
  {
    DigitsTwo(n);
    NumberOfDigits(n, 2);
  }

  /**
   * Zero-padded `YYYY-MM-DD` text parses exactly when it names a date the
   * calendar has: a month above 12, a day beyond the month's length, or
   * year 0 is rejected.
   */
  lemma ParseIsoText(y: nat, m: nat, d: nat)
    requires y < 10000 && m < 100 && d < 100
    ensures Parse(IsoText(y, m, d)) == if Valid(Date(y, m, d)) then Some(Date(y, m, d)) else None
  {
    TwoDigitTokens(m);
    TwoDigitTokens(d);
    DigitsTwo(m);
    MatchLayout(Digits(y, 4), Digits(m, 2), Digits(d, 2));
    NumberOfDigits(y, 4);
  }

  /** Parsing the stored text of a date gives the date back. */
  lemma ParseFormat(d: Date)
    requires Valid(d)
    ensures Parse(Format(d)) == Some(d)
    ensures IsIsoDate(Format(d))
  {
    ParseIsoText(d.year, d.month, d.day);
  }

  /** ISO text is exactly the text that parses to a date whose ISO text it is. */
  lemma IsoDateParses(s: string)
    ensures IsIsoDate(s) <==> Parse(s).Some? && Format(Parse(s).value) == s
  {
    if IsIsoDate(s) {
      var d :| Valid(d) && Format(d) == s;
      ParseFormat(d);
    }
  }

  /** `strptime` also takes one-digit months and days. */
  lemma ParseShortFields(d: Date)
    requires Valid(d) && d.month <= 9 && d.day <= 9
    ensures Parse(Digits(d.year, 4) + ("-" + ([DigitChar(d.month)] + ("-" + [DigitChar(d.day)])))) == Some(d)
  {
    NumberOfDigits(d.year, 4);
    OneDigitNumber(d.month);
    OneDigitNumber(d.day);
    MatchLayout(Digits(d.year, 4), [DigitChar(d.month)], [DigitChar(d.day)]);
  }

  /** ... and a space before a one-digit day. */
  lemma ParseSpacedDay(d: Date)
    requires Valid(d) && d.month <= 9 && d.day <= 9
    ensures Parse(Digits(d.year, 4) + ("-" + ([DigitChar(d.month)] + ("-" + [' ', DigitChar(d.day)])))) == Some(d)
  {
    NumberOfDigits(d.year, 4);
    OneDigitNumber(d.month);
    MatchLayout(Digits(d.year, 4), [DigitChar(d.month)], [' ', DigitChar(d.day)]);
  }

  lemma OneDigitNumber(n: int)
    requires 0 <= n <= 9
    ensures NumberOf([DigitChar(n)]) == n
  {
    assert [DigitChar(n)][..0] == [];
  }
}
