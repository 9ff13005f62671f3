/**
 * Partition keys of the task store: calendar days written `YYYY-MM-DD`.
 * Comparing two such keys as strings compares the days they denote, so the
 * model orders days by `Before`, the lexicographic order on strings.
 */
module DateKeys {

  predicate IsDigit(c: char) {
    '0' <= c <= '9'
  }

  function DigitValue(c: char): nat
    requires IsDigit(c)
  {
    c as int - '0' as int
  }

  /** Gregorian leap years. */
  predicate IsLeapYear(y: int) {
    (y % 4 == 0 && y % 100 != 0) || y % 400 == 0
  }

  function DaysInMonth(y: int, m: int): int {
    if m == 2 then (if IsLeapYear(y) then 29 else 28)
    else if m == 4 || m == 6 || m == 9 || m == 11 then 30
    else 31
  }

  /** `s` is `YYYY-MM-DD` naming an existing calendar day (what parseISO accepts as a date). */
  predicate IsDateKey(s: string) {
    && |s| == 10 && s[4] == '-' && s[7] == '-'
    && IsDigit(s[0]) && IsDigit(s[1]) && IsDigit(s[2]) && IsDigit(s[3])
    && IsDigit(s[5]) && IsDigit(s[6]) && IsDigit(s[8]) && IsDigit(s[9])
    && var year := 1000 * DigitValue(s[0]) + 100 * DigitValue(s[1]) + 10 * DigitValue(s[2]) + DigitValue(s[3]);
       var month := 10 * DigitValue(s[5]) + DigitValue(s[6]);
       var day := 10 * DigitValue(s[8]) + DigitValue(s[9]);
       1 <= month <= 12 && 1 <= day <= DaysInMonth(year, month)
  }

  type DateKey = s: string | IsDateKey(s) witness "2000-01-01"

  /** `format(parseISO(k), 'dd/MM')`: the day and month fields of the key. */
  function DayMonth(k: DateKey): (r: string)
    ensures |r| == 5 && r[2] == '/'
    ensures IsDigit(r[0]) && IsDigit(r[1]) && IsDigit(r[3]) && IsDigit(r[4])
    ensures r[..2] == k[8..10] && r[3..] == k[5..7]
  {
    k[8..10] + "/" + k[5..7]
  }

  /** Strict lexicographic order on strings; on date keys, "is an earlier day". */
  predicate Before(a: string, b: string)
    ensures Before(a, b) ==> |b| > 0 && (|a| == 0 || a[0] <= b[0])
  {
    if |a| == 0 then |b| > 0
    else |b| > 0 && (a[0] < b[0] || (a[0] == b[0] && Before(a[1..], b[1..])))
  }

  lemma {:induction false} BeforeIrreflexive(a: string)
    ensures !Before(a, a)
  {
    if |a| > 0 {
      BeforeIrreflexive(a[1..]);
    }
  }

  lemma {:induction false} BeforeTransitive(a: string, b: string, c: string)
    requires Before(a, b) && Before(b, c)
    ensures Before(a, c)
  {
    if |a| > 0 && a[0] == b[0] && b[0] == c[0] {
      BeforeTransitive(a[1..], b[1..], c[1..]);
    }
  }

  /** Two different keys are always ordered one way or the other. */
  lemma {:induction false} BeforeTotal(a: string, b: string)
    requires a != b
    ensures Before(a, b) || Before(b, a)
  {
    if |a| > 0 && |b| > 0 && a[0] == b[0] {
      assert a == [a[0]] + a[1..] && b == [b[0]] + b[1..];
      BeforeTotal(a[1..], b[1..]);
    }
  }

  /** A string is before another when they agree up to a position where its character is smaller. */
  lemma {:induction false} BeforeAt(a: string, b: string, i: nat)
    requires i < |a| && i < |b| && a[..i] == b[..i] && a[i] < b[i]
    ensures Before(a, b)
  {
    if i > 0 {
      assert a[0] == a[..i][0] == b[..i][0] == b[0];
      assert a[1..][..i - 1] == a[..i][1..] == b[..i][1..] == b[1..][..i - 1];
      BeforeAt(a[1..], b[1..], i - 1);
    }
  }

  /** Keys neither of which is before the other are the same key. */
  lemma SameDay(a: string, b: string)
    requires !Before(a, b) && !Before(b, a)
    ensures a == b
  {
    if a != b {
      BeforeTotal(a, b);
    }
  }
}
