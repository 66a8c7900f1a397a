/**
 * `datetime.strptime(text, "%B %d, %Y")` on the texts the date pattern yields: a full English
 * month name in any letter case, a day of one or two digits, and a year of exactly four digits,
 * which together must name a real day of the proleptic Gregorian calendar (years 1-9999).
 */
module Calendar {
  import opened Results
  import opened Text

  datatype Date = Date(year: nat, month: nat, day: nat)

  predicate IsLeapYear(y: nat)
  {
    y % 4 == 0 && (y % 100 != 0 || y % 400 == 0)
  }

  function DaysInMonth(y: nat, m: nat): (n: nat)
    requires 1 <= m <= 12
    ensures 28 <= n <= 31
    ensures n == 29 <==> m == 2 && IsLeapYear(y)
  {
    if m == 2 then (if IsLeapYear(y) then 29 else 28)
    else if m == 4 || m == 6 || m == 9 || m == 11 then 30
    else 31
  }

  /** What `datetime` accepts: MINYEAR 1 to MAXYEAR 9999, months 1-12, days within the month. */
  predicate ValidDate(d: Date)
  {
    1 <= d.year <= 9999 && 1 <= d.month <= 12 && 1 <= d.day <= DaysInMonth(d.year, d.month)
  }

  function MonthName(m: nat): (name: string)
    requires 1 <= m <= 12
    ensures |name| >= 3
  {
    match m
    case 1 => "January"   case 2 => "February"  case 3 => "March"     case 4 => "April"
    case 5 => "May"       case 6 => "June"      case 7 => "July"      case 8 => "August"
    case 9 => "September" case 10 => "October"  case 11 => "November" case _ => "December"
  }

  function LowerChar(c: char): char
  {
    if 'A' <= c <= 'Z' then (c as int - 'A' as int + 'a' as int) as char else c
  }

  /** Equality up to ASCII letter case, as `%B` compares month names. */
  predicate SameIgnoringCase(a: string, b: string)
  {
    |a| == |b| && (a == [] || (LowerChar(a[0]) == LowerChar(b[0]) && SameIgnoringCase(a[1..], b[1..])))
  }

  lemma {:induction false} SameIgnoringCaseReflexive(a: string)
    ensures SameIgnoringCase(a, a)
  {
    if a != [] { SameIgnoringCaseReflexive(a[1..]); }
  }

  /** The first month from `m` on whose name equals `name` up to case. */
  function MonthFrom(name: string, m: nat): (r: Option<nat>)
    requires 1 <= m <= 13
    ensures r.Some? ==> m <= r.value <= 12 && SameIgnoringCase(name, MonthName(r.value))
    ensures r.Some? ==> forall m' :: m <= m' < r.value ==> !SameIgnoringCase(name, MonthName(m'))
    ensures r.None? ==> forall m' :: m <= m' <= 12 ==> !SameIgnoringCase(name, MonthName(m'))
    decreases 13 - m
  {
    if m == 13 then None
    else if SameIgnoringCase(name, MonthName(m)) then Some(m)
    else MonthFrom(name, m + 1)
  }

  /** The `%B` directive: the month whose full name `name` is, ignoring case. */
  function MonthNumber(name: string): (r: Option<nat>)
    ensures r.Some? ==> 1 <= r.value <= 12 && SameIgnoringCase(name, MonthName(r.value))
    ensures r.None? <==> forall m :: 1 <= m <= 12 ==> !SameIgnoringCase(name, MonthName(m))
  {
    MonthFrom(name, 1)
  }

  /** No two month names are equal up to case. */
  lemma MonthNamesDistinct(m: nat, m': nat)
    requires 1 <= m <= 12 && 1 <= m' <= 12 && m != m'
    ensures !SameIgnoringCase(MonthName(m), MonthName(m'))
  {
    var a, b := MonthName(m), MonthName(m');
    if |a| == |b| {
      var k := if (m == 6 && m' == 7) || (m == 7 && m' == 6) then 2 else 0;
      assert LowerChar(a[k]) != LowerChar(b[k]);
      DiffersAt(a, b, k);
    }
  }

  lemma {:induction false} DiffersAt(a: string, b: string, k: nat)
    requires |a| == |b| && k < |a| && LowerChar(a[k]) != LowerChar(b[k])
    ensures !SameIgnoringCase(a, b)
  {
    if k > 0 { DiffersAt(a[1..], b[1..], k - 1); }
  }

  lemma MonthNumberOfName(m: nat)
    requires 1 <= m <= 12
    ensures MonthNumber(MonthName(m)) == Some(m)
  {
    SameIgnoringCaseReflexive(MonthName(m));
    var r := MonthNumber(MonthName(m));
    if r != Some(m) {
      MonthNamesDistinct(m, r.value);
    }
  }

  /**
   * The month word, the day digits and the year digits spell `d` under `%B %d, %Y`: the word is
   * the month's name up to case, the day has one or two digits and the year four.
   */
  predicate Spells(month: string, day: string, year: string, d: Date)
  {
    1 <= d.month <= 12 && SameIgnoringCase(month, MonthName(d.month)) &&
    1 <= |day| <= 2 && AllDigits(day) && DecimalValue(day) == d.day &&
    |year| == 4 && AllDigits(year) && DecimalValue(year) == d.year
  }

  /**
   * `strptime(month + " " + day + ", " + year, "%B %d, %Y")`: ValueError unless the month word is
   * a month name, the day has one or two digits, the year has four, and the date exists.
   */
  function Strptime(month: string, day: string, year: string): (r: Result<Date, PyError>)
    ensures r.Failure? ==> r.error == ValueError
    ensures r.Success? ==> ValidDate(r.value) && Spells(month, day, year, r.value)
  {
    match MonthNumber(month)
    case None => Failure(ValueError)
    case Some(m) =>
      if !(1 <= |day| <= 2 && AllDigits(day) && |year| == 4 && AllDigits(year)) then Failure(ValueError)
      else
        var d := Date(DecimalValue(year), m, DecimalValue(day));
        if ValidDate(d) then Success(d) else Failure(ValueError)
  }

  /** Every valid date with its month named, its day and its four-digit year written out is accepted. */
  lemma StrptimeAcceptsValidDates(month: string, day: string, year: string, d: Date)
    requires ValidDate(d) && Spells(month, day, year, d)
    ensures Strptime(month, day, year) == Success(d)
  {
    var r := MonthNumber(month);
    if r != Some(d.month) {
      MonthNamesAgree(month, r.value, d.month);
    }
  }

  /** `strptime` raises exactly when the pieces spell no valid date. */
  lemma StrptimeFailsExactly(month: string, day: string, year: string)
    ensures Strptime(month, day, year).Failure? <==> forall d :: ValidDate(d) ==> !Spells(month, day, year, d)
  {
    forall d | ValidDate(d) && Spells(month, day, year, d)
      ensures Strptime(month, day, year) == Success(d)
    {
      StrptimeAcceptsValidDates(month, day, year, d);
    }
  }

  /** The pieces spell at most one date. */
  lemma SpelledDateUnique(month: string, day: string, year: string, d: Date, d': Date)
    requires Spells(month, day, year, d) && Spells(month, day, year, d')
    ensures d == d'
  {
    MonthNamesAgree(month, d.month, d'.month);
  }

  /** A word is the name of at most one month. */
  lemma MonthNamesAgree(name: string, m: nat, m': nat)
    requires 1 <= m <= 12 && 1 <= m' <= 12
    requires SameIgnoringCase(name, MonthName(m)) && SameIgnoringCase(name, MonthName(m'))
    ensures m == m'
  {
    if m != m' {
      SameIgnoringCaseTransitive(MonthName(m), name, MonthName(m'));
      MonthNamesDistinct(m, m');
    }
  }

  lemma {:induction false} SameIgnoringCaseTransitive(a: string, b: string, c: string)
    requires SameIgnoringCase(b, a) && SameIgnoringCase(b, c)
    ensures SameIgnoringCase(a, c)
  {
    if a != [] { SameIgnoringCaseTransitive(a[1..], b[1..], c[1..]); }
  }

  /** The dates the price pages show: "March 3, 2020". */
  function FormatDate(d: Date): (t: string)
    requires ValidDate(d) && 1000 <= d.year
  {
    MonthName(d.month) + " " + DigitsOf(d.day) + ", " + DigitsOf(d.year)
  }
}
