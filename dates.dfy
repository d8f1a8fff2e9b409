/**
 * The `datetime` values the extractors are started with, and `str(d.date())`,
 * the `yyyy-mm-dd` string they hand to the upstream fetches.
 */
module Dates {
  import Decimal

  /** A `datetime`: the fields Python guarantees to be in range. */
  datatype DateTime = DateTime(year: int, month: int, day: int, hour: int, minute: int, second: int)

  predicate ValidDateTime(t: DateTime) {
    && 1 <= t.year <= 9999 && 1 <= t.month <= 12 && 1 <= t.day <= 31
    && 0 <= t.hour < 24 && 0 <= t.minute < 60 && 0 <= t.second < 60
  }

  /** `str(t.date())`: four-digit year, two-digit month and day, joined by '-'. */
  function IsoDate(t: DateTime): (s: string)
    requires ValidDateTime(t)
    ensures |s| == 10 && s[4] == '-' && s[7] == '-'
    ensures forall i :: 0 <= i < 10 && i != 4 && i != 7 ==> Decimal.IsDigit(s[i])
  {
    Decimal.Pad(t.year, 4) + "-" + Decimal.Pad(t.month, 2) + "-" + Decimal.Pad(t.day, 2)
  }

  /** Reads year, month and day back from a `yyyy-mm-dd` string. */
  function ParseIsoDate(s: string): (int, int, int)
    requires |s| == 10
  {
    (Decimal.ParseNat(s[..4]), Decimal.ParseNat(s[5..7]), Decimal.ParseNat(s[8..]))
  }

  /** The date string keeps exactly the date: it parses back to year, month and day, and the time of day is dropped. */
  lemma IsoDateRoundTrip(t: DateTime)
    requires ValidDateTime(t)
    ensures ParseIsoDate(IsoDate(t)) == (t.year, t.month, t.day)
  {
    var s := IsoDate(t);
    assert s[..4] == Decimal.Pad(t.year, 4);
    assert s[5..7] == Decimal.Pad(t.month, 2);
    assert s[8..] == Decimal.Pad(t.day, 2);
    Decimal.ParsePad(t.year, 4);
    Decimal.ParsePad(t.month, 2);
    Decimal.ParsePad(t.day, 2);
  }

  /** Two times with the same date give the same string, and different dates different strings. */
  lemma IsoDateOnlyDate(t: DateTime, u: DateTime)
    requires ValidDateTime(t) && ValidDateTime(u)
    ensures IsoDate(t) == IsoDate(u) <==> (t.year, t.month, t.day) == (u.year, u.month, u.day)
  {
    IsoDateRoundTrip(t);
    IsoDateRoundTrip(u);
  }
}
