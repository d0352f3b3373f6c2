/**
 * Calendar dates as PostgreSQL's `DATE` holds them, the day before a date
 * (`CURRENT_DATE - INTERVAL '1 day'`) and the ISO text `YYYY-MM-DD` that
 * `date::text` and the JSON serialisation start with.
 */
module Calendar {
  import opened Text
  import opened JsValues

  /** A proleptic Gregorian calendar date. */
  datatype Date = Date(year: int, month: int, day: int)

  predicate IsLeap(y: int) {
    (y % 4 == 0 && y % 100 != 0) || y % 400 == 0
  }

  function DaysInMonth(y: int, m: int): (n: int)
    requires 1 <= m <= 12
    ensures 28 <= n <= 31
  {
    if m == 2 then (if IsLeap(y) then 29 else 28)
    else if m == 4 || m == 6 || m == 9 || m == 11 then 30
    else 31
  }

  predicate Valid(d: Date) {
    1 <= d.month <= 12 && 1 <= d.day <= DaysInMonth(d.year, d.month)
  }

  /** Chronological order, which is the order `ORDER BY fecha` uses. */
  predicate Before(a: Date, b: Date) {
    a.year < b.year || (a.year == b.year && (a.month < b.month || (a.month == b.month && a.day < b.day)))
  }

  lemma BeforeTotal(a: Date, b: Date)
    ensures a == b || Before(a, b) || Before(b, a)
  {
  }

  /** `d - INTERVAL '1 day'`: the latest valid date strictly before `d`. */
  function PrevDay(d: Date): (p: Date)
    requires Valid(d)
    ensures Valid(p) && Before(p, d)
    ensures forall q :: Valid(q) && Before(q, d) ==> !Before(p, q)
  {
    if d.day > 1 then Date(d.year, d.month, d.day - 1)
    else if d.month > 1 then Date(d.year, d.month - 1, DaysInMonth(d.year, d.month - 1))
    else Date(d.year - 1, 12, 31)
  }

  /** `n` written with exactly `w` decimal digits (the low `w` digits, zero-padded). */
  function Fixed(n: nat, w: nat): (r: string)
    ensures |r| == w && AllDigits(r)
  {
    if w == 0 then [] else Fixed(n / 10, w - 1) + [Digit(n % 10)]
  }

  lemma {:induction false} FixedValue(n: nat, w: nat)
    requires n < Pow10(w)
    ensures DigitsValue(Fixed(n, w)) == n
  {
    if w > 0 {
      var r := Fixed(n, w);
      assert r[..|r| - 1] == Fixed(n / 10, w - 1);
      FixedValue(n / 10, w - 1);
    }
  }

  /** Zero-padded numerals of one width compare as strings the way the numbers compare. */
  lemma {:induction false} FixedLess(a: nat, b: nat, w: nat)
    requires a < Pow10(w) && b < Pow10(w)
    ensures Less(Fixed(a, w), Fixed(b, w)) <==> a < b
  {
    if w > 0 {
      var x, y := Fixed(a / 10, w - 1), Fixed(b / 10, w - 1);
      var u, v := [Digit(a % 10)], [Digit(b % 10)];
      LessConcat(x, u, y, v);
      FixedLess(a / 10, b / 10, w - 1);
      FixedValue(a / 10, w - 1);
      FixedValue(b / 10, w - 1);
      assert Less(u, v) <==> a % 10 < b % 10 by {
        assert u[1..] == [] && v[1..] == [];
      }
    }
  }

  lemma FixedInjective(a: nat, b: nat, w: nat)
    requires a < Pow10(w) && b < Pow10(w) && Fixed(a, w) == Fixed(b, w)
    ensures a == b
  {
    FixedValue(a, w);
    FixedValue(b, w);
  }

  /** A date with a year PostgreSQL prints in four digits. */
  predicate Printable(d: Date) {
    Valid(d) && 0 <= d.year <= 9999
  }

  /** `date::text`, `YYYY-MM-DD`. */
  function IsoText(d: Date): (r: string)
    requires Printable(d)
    ensures |r| == 10 && r[4] == '-' && r[7] == '-'
  {
    Fixed(d.year, 4) + ("-" + (Fixed(d.month, 2) + ("-" + Fixed(d.day, 2))))
  }

  /** The part of an ISO date after the year, `-MM-DD`. */
  lemma IsoTail(a: Date, b: Date)
    requires Printable(a) && Printable(b)
    ensures Less("-" + (Fixed(a.month, 2) + ("-" + Fixed(a.day, 2))), "-" + (Fixed(b.month, 2) + ("-" + Fixed(b.day, 2))))
        <==> a.month < b.month || (a.month == b.month && a.day < b.day)
  {
    var ma, mb := Fixed(a.month, 2), Fixed(b.month, 2);
    var da, db := Fixed(a.day, 2), Fixed(b.day, 2);
    LessConcat("-", ma + ("-" + da), "-", mb + ("-" + db));
    LessConcat(ma, "-" + da, mb, "-" + db);
    LessConcat("-", da, "-", db);
    FixedLess(a.month, b.month, 2);
    FixedLess(a.day, b.day, 2);
    if ma == mb {
      FixedInjective(a.month, b.month, 2);
    }
  }

  /** Comparing ISO texts as strings is comparing the dates. */
  lemma IsoLess(a: Date, b: Date)
    requires Printable(a) && Printable(b)
    ensures Less(IsoText(a), IsoText(b)) <==> Before(a, b)
  {
    var ya, yb := Fixed(a.year, 4), Fixed(b.year, 4);
    var ta := "-" + (Fixed(a.month, 2) + ("-" + Fixed(a.day, 2)));
    var tb := "-" + (Fixed(b.month, 2) + ("-" + Fixed(b.day, 2)));
    LessConcat(ya, ta, yb, tb);
    FixedLess(a.year, b.year, 4);
    IsoTail(a, b);
    if ya == yb {
      FixedInjective(a.year, b.year, 4);
    }
  }

  lemma IsoInjective(a: Date, b: Date)
    requires Printable(a) && Printable(b) && IsoText(a) == IsoText(b)
    ensures a == b
  {
    IsoLess(a, b);
    IsoLess(b, a);
    LessIrreflexive(IsoText(a));
    BeforeTotal(a, b);
  }
}
