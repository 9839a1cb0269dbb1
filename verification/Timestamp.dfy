/**
 The `generated_at` validator and the grammar it accepts: the UTC-only subset
 without leap seconds of the date-time of sections 5.6 and 5.7 of RFC 3339.
*/
module Timestamp {
  import opened Wrappers
  import opened Numerals

  newtype u32 = x: int | 0 <= x < 0x1_0000_0000

  // ---------- The validator ----------

  /** Folds digits into a 32-bit number; at most nine digits fit. */
  function Decimal(bytes: string): (r: Option<u32>)
    requires |bytes| <= 9
    ensures r.Some? <==> AllDigits(bytes)
    ensures r.Some? ==> r.value as int == Value(bytes) && Value(bytes) < Power10(|bytes|)
  {
    if bytes == "" then Some(0)
    else
      var front, byte := bytes[..|bytes| - 1], bytes[|bytes| - 1];
      match Decimal(front)
      case None => None
      case Some(value) =>
        PowerFits(|bytes|);
        if IsDigit(byte) then Some(value * 10 + DigitValue(byte) as u32) else None
  }

  lemma PowerFits(k: nat)
    requires 0 < k <= 9
    ensures Power10(k) == 10 * Power10(k - 1) && Power10(k) <= 1_000_000_000
  {
    if k > 1 {
      PowerFits(k - 1);
      PowerGrows(k, 9);
    } else {
      PowerGrows(1, 9);
    }
  }

  lemma PowerGrows(j: nat, k: nat)
    requires j <= k <= 9
    ensures Power10(j) <= Power10(k)
    ensures Power10(9) == 1_000_000_000
  {
    assert Power10(3) == 1000;
    assert Power10(6) == 1_000_000;
    if j < k {
      PowerGrows(j, k - 1);
    }
  }

  predicate ValidFraction(fraction: string) {
    fraction == "" || (fraction[0] == '.' && |fraction| > 1 && AllDigits(fraction[1..]))
  }

  function DaysInMonth(year: u32, month: u32): (days: u32) {
    var leapYear := year % 4 == 0 && (year % 100 != 0 || year % 400 == 0);
    match month
    case 1 | 3 | 5 | 7 | 8 | 10 | 12 => 31
    case 4 | 6 | 9 | 11 => 30
    case 2 => if leapYear then 29 else 28
    case _ => 0
  }

  predicate ValidFields(year: u32, month: u32, day: u32, hour: u32, minute: u32, second: u32) {
    1 <= month <= 12 && year > 0 && 1 <= day <= DaysInMonth(year, month)
    && hour <= 23 && minute <= 59 && second <= 59
  }

  predicate ValidShape(value: string) {
    |value| >= 20 && value[|value| - 1] == 'Z' && value[4] == '-' && value[7] == '-'
    && value[10] == 'T' && value[13] == ':' && value[16] == ':'
  }

  predicate ValidUtcTimestamp(value: string) {
    ValidShape(value)
    && ValidFraction(value[19..|value| - 1])
    && match (Decimal(value[..4]), Decimal(value[5..7]), Decimal(value[8..10]),
              Decimal(value[11..13]), Decimal(value[14..16]), Decimal(value[17..19]))
       case (Some(year), Some(month), Some(day), Some(hour), Some(minute), Some(second)) =>
         ValidFields(year, month, day, hour, minute, second)
       case _ => false
  }

  // ---------- The grammar ----------

  datatype DateTime = DateTime(
    year: nat, month: nat, day: nat, hour: nat, minute: nat, second: nat, fraction: string)

  /** Gregorian leap days from year 1 through year `y`. */
  function LeapDaysThrough(y: nat): int {
    y / 4 - y / 100 + y / 400
  }

  const MONTH_LENGTHS: seq<nat> := [31, 28, 31, 30, 31, 30, 31, 31, 30, 31, 30, 31]

  /** Days of a month; February gains the leap days its year adds to the calendar. */
  function MonthLength(year: nat, month: nat): int
    requires 1 <= month <= 12 && year >= 1
  {
    MONTH_LENGTHS[month - 1]
    + if month == 2 then LeapDaysThrough(year) - LeapDaysThrough(year - 1) else 0
  }

  ghost predicate RealDateTime(t: DateTime) {
    1 <= t.year <= 9999 && 1 <= t.month <= 12 && 1 <= t.day <= MonthLength(t.year, t.month)
    && t.hour <= 23 && t.minute <= 59 && t.second <= 59 && AllDigits(t.fraction)
  }

  function FractionText(fraction: string): string {
    if fraction == "" then "" else "." + fraction
  }

  function DateText(year: nat, month: nat, day: nat): (s: string)
    ensures |s| == 10
  {
    Padded(year, 4) + "-" + Padded(month, 2) + "-" + Padded(day, 2)
  }

  function TimeText(hour: nat, minute: nat, second: nat): (s: string)
    ensures |s| == 8
  {
    Padded(hour, 2) + ":" + Padded(minute, 2) + ":" + Padded(second, 2)
  }

  /** The textual form `yyyy-mm-ddThh:mm:ss[.fraction]Z`. */
  function Format(t: DateTime): (s: string) {
    DateText(t.year, t.month, t.day) + "T" + TimeText(t.hour, t.minute, t.second) + FractionText(t.fraction) + "Z"
  }

  // ---------- The validator accepts exactly the grammar ----------

  lemma LeapRule(year: nat)
    requires year >= 1
    ensures LeapDaysThrough(year) - LeapDaysThrough(year - 1)
         == if year % 4 == 0 && (year % 100 != 0 || year % 400 == 0) then 1 else 0
  {
    LeapSteps(year);
    HundredsAreFours(year);
    FourHundredsAreHundreds(year);
  }

  lemma LeapSteps(year: nat)
    requires year >= 1
    ensures LeapDaysThrough(year) - LeapDaysThrough(year - 1)
         == (if year % 4 == 0 then 1 else 0) - (if year % 100 == 0 then 1 else 0) + if year % 400 == 0 then 1 else 0
  {
    QuotientStep4(year);
    QuotientStep100(year);
    QuotientStep400(year);
  }

  lemma MultipleOfFour(k: nat)
    ensures 4 * k % 4 == 0
  {}

  lemma MultipleOfHundred(k: nat)
    ensures 100 * k % 100 == 0
  {}

  lemma HundredsAreFours(y: nat)
    ensures y % 100 == 0 ==> y % 4 == 0
  {
    if y % 100 == 0 {
      MultipleOfFour(25 * (y / 100));
      assert y == 4 * (25 * (y / 100));
    }
  }

  lemma FourHundredsAreHundreds(y: nat)
    ensures y % 400 == 0 ==> y % 100 == 0
  {
    if y % 400 == 0 {
      MultipleOfHundred(4 * (y / 400));
      assert y == 100 * (4 * (y / 400));
    }
  }

  lemma QuotientStep4(y: nat)
    requires y >= 1
    ensures y / 4 - (y - 1) / 4 == if y % 4 == 0 then 1 else 0
  {}

  lemma QuotientStep100(y: nat)
    requires y >= 1
    ensures y / 100 - (y - 1) / 100 == if y % 100 == 0 then 1 else 0
  {}

  lemma QuotientStep400(y: nat)
    requires y >= 1
    ensures y / 400 - (y - 1) / 400 == if y % 400 == 0 then 1 else 0
  {}

  lemma MonthLengthsAgree(year: u32, month: u32)
    requires 1 <= month <= 12 && year >= 1
    ensures DaysInMonth(year, month) as int == MonthLength(year as int, month as int)
  {
    LeapRule(year as int);
  }

  lemma DateParts(year: nat, month: nat, day: nat)
    ensures var s := DateText(year, month, day);
            s[..4] == Padded(year, 4) && s[4] == '-' && s[5..7] == Padded(month, 2) && s[7] == '-' && s[8..10] == Padded(day, 2)
  {}

  lemma TimeParts(hour: nat, minute: nat, second: nat)
    ensures var s := TimeText(hour, minute, second);
            s[..2] == Padded(hour, 2) && s[2] == ':' && s[3..5] == Padded(minute, 2) && s[5] == ':' && s[6..8] == Padded(second, 2)
  {}

  lemma JoinedParts(date: string, time: string, fraction: string)
    requires |date| == 10 && |time| == 8
    ensures var s := date + "T" + time + fraction + "Z";
            |s| == 20 + |fraction| && s[..10] == date && s[10] == 'T' && s[11..19] == time
            && s[19..|s| - 1] == fraction && s[|s| - 1] == 'Z'
  {}

  lemma SliceOfSlice(s: string, lo: nat, hi: nat, i: nat, j: nat)
    requires lo <= hi <= |s| && i <= j <= hi - lo
    ensures s[lo..hi][i..j] == s[lo + i..lo + j]
  {
    assert forall k | 0 <= k < j - i :: s[lo..hi][i..j][k] == s[lo..hi][i + k] == s[lo + i + k] == s[lo + i..lo + j][k];
  }

  /** Where each part of a formatted date-time sits. */
  lemma FormatParts(t: DateTime)
    ensures var s := Format(t);
            var fraction := FractionText(t.fraction);
            |s| == 20 + |fraction|
            && s[..4] == Padded(t.year, 4) && s[4] == '-' && s[5..7] == Padded(t.month, 2) && s[7] == '-'
            && s[8..10] == Padded(t.day, 2) && s[10] == 'T' && s[11..13] == Padded(t.hour, 2) && s[13] == ':'
            && s[14..16] == Padded(t.minute, 2) && s[16] == ':' && s[17..19] == Padded(t.second, 2)
            && s[19..|s| - 1] == fraction && s[|s| - 1] == 'Z'
  {
    var s, fraction := Format(t), FractionText(t.fraction);
    var date, time := DateText(t.year, t.month, t.day), TimeText(t.hour, t.minute, t.second);
    DateParts(t.year, t.month, t.day);
    TimeParts(t.hour, t.minute, t.second);
    JoinedParts(date, time, fraction);
    assert s[0..10] == s[..10] == date && s[11..19] == time;
    assert date[0..4] == date[..4] && s[0..4] == s[..4] && time[0..2] == time[..2];
    SliceOfSlice(s, 0, 10, 0, 4);
    SliceOfSlice(s, 0, 10, 5, 7);
    SliceOfSlice(s, 0, 10, 8, 10);
    SliceOfSlice(s, 11, 19, 0, 2);
    SliceOfSlice(s, 11, 19, 3, 5);
    SliceOfSlice(s, 11, 19, 6, 8);
    assert date[4] == s[4] && date[7] == s[7] && time[2] == s[13] && time[5] == s[16];
  }

  lemma Widths()
    ensures Power10(2) == 100 && Power10(4) == 10000
  {
    assert Power10(2) == 100;
  }

  /** Each number of a formatted date-time is read back. */
  lemma FieldsAreRead(t: DateTime)
    requires RealDateTime(t)
    ensures var s := Format(t);
            |s| >= 20
            && Decimal(s[..4]) == Some(t.year as u32) && Decimal(s[5..7]) == Some(t.month as u32)
            && Decimal(s[8..10]) == Some(t.day as u32) && Decimal(s[11..13]) == Some(t.hour as u32)
            && Decimal(s[14..16]) == Some(t.minute as u32) && Decimal(s[17..19]) == Some(t.second as u32)
  {
    FormatParts(t);
    Widths();
    PaddedIsRead(t.year, 4);
    PaddedIsRead(t.month, 2);
    PaddedIsRead(t.day, 2);
    PaddedIsRead(t.hour, 2);
    PaddedIsRead(t.minute, 2);
    PaddedIsRead(t.second, 2);
  }

  lemma PaddedIsRead(n: nat, width: nat)
    requires width <= 9 && n < Power10(width) && n < 0x1_0000_0000
    ensures Decimal(Padded(n, width)) == Some(n as u32)
  {
    ValueOfPadded(n, width);
  }

  lemma FractionIsValid(fraction: string)
    requires AllDigits(fraction)
    ensures ValidFraction(FractionText(fraction))
    ensures fraction != "" ==> FractionText(fraction)[1..] == fraction
  {}

  lemma FormattedIsValid(t: DateTime)
    requires RealDateTime(t)
    ensures ValidUtcTimestamp(Format(t))
  {
    FieldsAreRead(t);
    FormatParts(t);
    FractionIsValid(t.fraction);
    MonthLengthsAgree(t.year as u32, t.month as u32);
  }

  /** The date-time a valid timestamp spells. */
  ghost function Read(s: string): DateTime
    requires ValidUtcTimestamp(s)
  {
    var fraction := s[19..|s| - 1];
    DateTime(Value(s[..4]), Value(s[5..7]), Value(s[8..10]), Value(s[11..13]), Value(s[14..16]), Value(s[17..19]),
             if fraction == "" then "" else fraction[1..])
  }

  lemma SameParts(s: string, t: string)
    requires ValidShape(s) && ValidShape(t) && |s| == |t|
    requires s[..4] == t[..4] && s[5..7] == t[5..7] && s[8..10] == t[8..10] && s[11..13] == t[11..13]
    requires s[14..16] == t[14..16] && s[17..19] == t[17..19] && s[19..|s| - 1] == t[19..|t| - 1]
    ensures s == t
  {
    forall i | 0 <= i < |s|
      ensures s[i] == t[i]
    {
      if i < 4 {
        assert s[i] == s[..4][i] && t[i] == t[..4][i];
      } else if 5 <= i < 7 {
        assert s[i] == s[5..7][i - 5] && t[i] == t[5..7][i - 5];
      } else if 8 <= i < 10 {
        assert s[i] == s[8..10][i - 8] && t[i] == t[8..10][i - 8];
      } else if 11 <= i < 13 {
        assert s[i] == s[11..13][i - 11] && t[i] == t[11..13][i - 11];
      } else if 14 <= i < 16 {
        assert s[i] == s[14..16][i - 14] && t[i] == t[14..16][i - 14];
      } else if 17 <= i < 19 {
        assert s[i] == s[17..19][i - 17] && t[i] == t[17..19][i - 17];
      } else if 19 <= i < |s| - 1 {
        assert s[i] == s[19..|s| - 1][i - 19] && t[i] == t[19..|t| - 1][i - 19];
      }
    }
  }

  lemma ValidIsFormatted(s: string)
    requires ValidUtcTimestamp(s)
    ensures RealDateTime(Read(s)) && Format(Read(s)) == s
  {
    Widths();
    PaddedOfValue(s[..4]);
    PaddedOfValue(s[5..7]);
    PaddedOfValue(s[8..10]);
    PaddedOfValue(s[11..13]);
    PaddedOfValue(s[14..16]);
    PaddedOfValue(s[17..19]);
    var t := Read(s);
    MonthLengthsAgree(t.year as u32, t.month as u32);
    FormatParts(t);
    SameParts(s, Format(t));
  }

  /** The validator accepts exactly the texts of real date-times. */
  lemma ValidatorIsGrammar(s: string)
    ensures ValidUtcTimestamp(s) <==> exists t :: RealDateTime(t) && Format(t) == s
  {
    if ValidUtcTimestamp(s) {
      ValidIsFormatted(s);
    }
    forall t | RealDateTime(t) && Format(t) == s
      ensures ValidUtcTimestamp(s)
    {
      FormattedIsValid(t);
    }
  }

  /** A formatted date-time reads back as itself. */
  lemma ReadsBack(t: DateTime)
    requires RealDateTime(t)
    ensures ValidUtcTimestamp(Format(t)) && Read(Format(t)) == t
  {
    FormattedIsValid(t);
    FieldsAreRead(t);
    FormatParts(t);
    FractionIsValid(t.fraction);
  }

  /** No two real date-times share a text, so the accepted text names one instant. */
  lemma FormatIsInjective(a: DateTime, b: DateTime)
    requires RealDateTime(a) && RealDateTime(b)
    ensures Format(a) == Format(b) <==> a == b
  {
    ReadsBack(a);
    ReadsBack(b);
  }
}
