/** Recency weighting of a review comment: its "YYYY-MM" posting month is
    read the way `strptime` reads the format "%Y-%m", its age in whole
    months is measured against the fixed reference month 2025-01, and a step
    function of that age gives the weight. Text that does not parse weighs 1.0. */
module Recency {
  import opened Wrappers
  import opened Text

  const ReferenceYear: int := 2025
  const ReferenceMonth: int := 1

  datatype YearMonth = YearMonth(year: nat, month: nat)

  /** The value of a one- or two-digit field. */
  lemma ShortDecimal(m: string)
    requires 1 <= |m| <= 2 && AllDigits(m)
    ensures |m| == 1 ==> DecimalValue(m) == DigitValue(m[0])
    ensures |m| == 2 ==> DecimalValue(m) == 10 * DigitValue(m[0]) + DigitValue(m[1])
  {
    assert DecimalValue(m[..0]) == 0;
    if |m| == 2 {
      assert m[..1][..0] == m[..0];
      assert DecimalValue(m[..1]) == DigitValue(m[0]);
    }
  }

  /** The value of a four-digit field. */
  lemma FourDigitValue(y: string)
    requires |y| == 4 && AllDigits(y)
    ensures DecimalValue(y) == 1000 * DigitValue(y[0]) + 100 * DigitValue(y[1]) + 10 * DigitValue(y[2]) + DigitValue(y[3])
  {
    var y3 := y[..3];
    assert y3[..2] == y[..2];
    var y2 := y[..2];
    ShortDecimal(y2);
    assert DecimalValue(y3) == 10 * DecimalValue(y2) + DigitValue(y[2]);
  }

  /** The "%m" field: one or two ASCII digits whose value is a month 1-12, with
      nothing left over ("6", "06" and "12" are read, "0", "00", "13" and "123"
      are not). */
  function MonthField(m: string): (r: Option<nat>)
    ensures r.Some? <==> 1 <= |m| <= 2 && AllDigits(m) && 1 <= DecimalValue(m) <= 12
    ensures r.Some? ==> r.value == DecimalValue(m)
  {
    if 1 <= |m| <= 2 && AllDigits(m) then ShortDecimal(m); (
      if |m| == 1 && '1' <= m[0] <= '9' then Some(DigitValue(m[0]))
      else if |m| == 2 && m[0] == '0' && '1' <= m[1] <= '9' then Some(DigitValue(m[1]))
      else if |m| == 2 && m[0] == '1' && '0' <= m[1] <= '2' then Some(10 + DigitValue(m[1]))
      else None)
    else None
  }

  /** `datetime.strptime(s, "%Y-%m")`: exactly four year digits, a dash and a
      month field; year 0000 matches the pattern but is no valid date. */
  function ParseYearMonth(s: string): (r: Option<YearMonth>)
    ensures r.Some? <==>
      && |s| >= 6 && AllDigits(s[..4]) && s[4] == '-'
      && DecimalValue(s[..4]) >= 1 && MonthField(s[5..]).Some?
    ensures r.Some? ==> r.value == YearMonth(DecimalValue(s[..4]), MonthField(s[5..]).value)
    ensures r.Some? ==> 1 <= r.value.year <= 9999 && 1 <= r.value.month <= 12
  {
    if |s| >= 6 && IsDigit(s[0]) && IsDigit(s[1]) && IsDigit(s[2]) && IsDigit(s[3]) && s[4] == '-' then
      var y := 1000 * DigitValue(s[0]) + 100 * DigitValue(s[1]) + 10 * DigitValue(s[2]) + DigitValue(s[3]);
      assert AllDigits(s[..4]);
      FourDigitValue(s[..4]);
      match MonthField(s[5..])
      case Some(m) => if y >= 1 then Some(YearMonth(y, m)) else None
      case None => None
    else
      assert |s| >= 6 ==> !AllDigits(s[..4]) || s[4] != '-' by {
        if |s| >= 6 && AllDigits(s[..4]) {
          assert s[..4][0] == s[0] && s[..4][1] == s[1] && s[..4][2] == s[2] && s[..4][3] == s[3];
        }
      }
      None
  }

  /** Texts the parser reads and texts it refuses. */
  lemma ParseExamples()
    ensures ParseYearMonth("2024-6") == Some(YearMonth(2024, 6))
    ensures ParseYearMonth("2024-11") == Some(YearMonth(2024, 11))
    ensures ParseYearMonth("2024-13").None?
    ensures ParseYearMonth("2024-00").None?
    ensures ParseYearMonth("0000-01").None?
    ensures ParseYearMonth("24-06").None?
    ensures ParseYearMonth("2024/06").None?
    ensures ParseYearMonth("2024-06-01").None?
  {
    assert "2024-6"[5..] == "6";
    assert "2024-11"[5..] == "11";
    assert "2024-13"[5..] == "13";
    assert "2024-00"[5..] == "00";
    assert "2024-06-01"[5..] == "06-01";
  }

  /** The zero-padded "YYYY-MM" text of a month. */
  function Format(ym: YearMonth): string
    requires 1 <= ym.year <= 9999 && 1 <= ym.month <= 12
  {
    var y := ym.year;
    [DigitChar(y / 1000), DigitChar(y / 100 % 10), DigitChar(y / 10 % 10), DigitChar(y % 10), '-',
     DigitChar(ym.month / 10), DigitChar(ym.month % 10)]
  }

  lemma YearDigits(y: nat)
    requires y <= 9999
    ensures 1000 * (y / 1000) + 100 * (y / 100 % 10) + 10 * (y / 10 % 10) + y % 10 == y
  {
    var t := y / 10;
    var h := y / 100;
    assert y == 10 * t + y % 10;
    assert h == t / 10;
    assert t == 10 * h + t % 10;
    assert y / 1000 == h / 10;
    assert h == 10 * (y / 1000) + h % 10;
  }

  lemma PaddedMonthField(m: nat)
    requires 1 <= m <= 12
    ensures MonthField([DigitChar(m / 10), DigitChar(m % 10)]) == Some(m)
  {
    ShortDecimal([DigitChar(m / 10), DigitChar(m % 10)]);
  }

  /** Every valid month written as "YYYY-MM" parses back to itself. */
  lemma FormatParses(ym: YearMonth)
    requires 1 <= ym.year <= 9999 && 1 <= ym.month <= 12
    ensures ParseYearMonth(Format(ym)) == Some(ym)
  {
    var s := Format(ym);
    assert s[5..] == [DigitChar(ym.month / 10), DigitChar(ym.month % 10)];
    PaddedMonthField(ym.month);
    YearDigits(ym.year);
  }

  /** Whole months between the posting month and the reference month; negative
      for a month after the reference. */
  function MonthsOld(ym: YearMonth): int {
    (ReferenceYear - ym.year) * 12 + (ReferenceMonth - ym.month)
  }

  /** The step function of age: up to 2 months 1.5, up to 6 months 1.2, up to
      12 months 1.0, older 0.7. */
  function WeightForAge(months: int): (w: real)
    ensures w == 1.5 || w == 1.2 || w == 1.0 || w == 0.7
    ensures w == 1.5 <==> months <= 2
    ensures w == 1.2 <==> 2 < months <= 6
    ensures w == 1.0 <==> 6 < months <= 12
    ensures w == 0.7 <==> months > 12
  {
    if months <= 2 then 1.5
    else if months <= 6 then 1.2
    else if months <= 12 then 1.0
    else 0.7
  }

  /** `calculate_recency_weight` */
  function RecencyWeight(timePosted: string): (w: real)
    ensures 0.7 <= w <= 1.5
    ensures ParseYearMonth(timePosted).None? ==> w == 1.0
    ensures ParseYearMonth(timePosted).Some? ==> w == WeightForAge(MonthsOld(ParseYearMonth(timePosted).value))
  {
    match ParseYearMonth(timePosted)
    case None => 1.0
    case Some(ym) => WeightForAge(MonthsOld(ym))
  }

  /** An older comment never weighs more than a newer one. */
  lemma WeightNonIncreasing(a: int, b: int)
    requires a <= b
    ensures WeightForAge(a) >= WeightForAge(b)
  {
  }

  /** Between two parseable months, the later one weighs at least as much. */
  lemma LaterPostWeighsMore(earlier: YearMonth, later: YearMonth)
    requires 1 <= earlier.year <= 9999 && 1 <= earlier.month <= 12
    requires 1 <= later.year <= 9999 && 1 <= later.month <= 12
    requires earlier.year < later.year || (earlier.year == later.year && earlier.month <= later.month)
    ensures RecencyWeight(Format(later)) >= RecencyWeight(Format(earlier))
  {
    FormatParses(earlier);
    FormatParses(later);
    WeightNonIncreasing(MonthsOld(later), MonthsOld(earlier));
  }

  /** A month at or after the reference month gets the top weight. */
  lemma FutureGetsTopWeight(ym: YearMonth)
    requires 1 <= ym.year <= 9999 && 1 <= ym.month <= 12
    requires ym.year > ReferenceYear || (ym.year == ReferenceYear && ym.month >= ReferenceMonth)
    ensures RecencyWeight(Format(ym)) == 1.5
  {
    FormatParses(ym);
  }
}
