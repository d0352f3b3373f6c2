/**
 * `GET /api/patrimonio`: the breakdown and the comparison, the history, and
 * the metrics computed from this month's income, the expenses of the last
 * three months and the breakdown: savings, average expense, runway,
 * concentration and the composite score.
 */
module PatrimonioRoute {
  import opened Wrappers
  import opened Text
  import opened JsValues
  import opened Calendar
  import opened Sums
  import opened Grouping
  import opened MonthSelector
  import opened EgresosNormalize
  import opened Store
  import opened Patrimonio
  import opened Historial

  // ---------------------------------------------------------------------
  // Period keys
  // ---------------------------------------------------------------------

  /** `toPeriodKey`: `${year}-${String(month).padStart(2, "0")}`. */
  function ToPeriodKey(year: int, month: int): string {
    PeriodText(IntToString(year), IntToString(month))
  }

  /** The key from the texts of the year and the month. */
  function PeriodText(year: string, month: string): string {
    year + "-" + PadStart(month, 2, '0')
  }

  /** Two low digits. */
  lemma FixedTwo(n: nat)
    ensures Fixed(n, 2) == [Digit(n / 10 % 10), Digit(n % 10)]
  {
    assert Fixed(n / 10, 1) == Fixed(n / 10 / 10, 0) + [Digit(n / 10 % 10)];
  }

  /** A month of the year is written with exactly two digits. */
  lemma MonthText(m: int)
    requires 1 <= m <= 12
    ensures PadStart(IntToString(m), 2, '0') == Fixed(m, 2)
  {
    if m < 10 {
      OneDigitMonthText(m);
    } else {
      TwoDigitMonthText(m);
    }
  }

  /** January to September gain a leading zero. */
  lemma OneDigitMonthText(m: int)
    requires 1 <= m < 10
    ensures PadStart(IntToString(m), 2, '0') == Fixed(m, 2)
  {
    FixedTwo(m);
    assert m / 10 % 10 == 0 && m % 10 == m;
    var d := Digit(m);
    assert IntToString(m) == [d];
    assert ['0'] + [d] == [Digit(0), d];
    assert PadStart([d], 2, '0') == PadStart(['0'] + [d], 2, '0') == ['0'] + [d];
  }

  /** October to December already have two digits. */
  lemma TwoDigitMonthText(m: int)
    requires 10 <= m <= 12
    ensures PadStart(IntToString(m), 2, '0') == Fixed(m, 2)
  {
    FixedTwo(m);
    assert m / 10 == 1 && m / 10 % 10 == 1;
    assert NatToString(m / 10) == [Digit(1)];
    assert IntToString(m) == NatToString(m) == [Digit(1), Digit(m % 10)];
  }

  /** The key of a non-negative year and a month of the year is the year, a hyphen and two digits. */
  lemma PeriodKeyShape(year: int, month: int)
    requires year >= 0 && 1 <= month <= 12
    ensures ToPeriodKey(year, month) == NatToString(year) + "-" + Fixed(month, 2)
  {
    MonthText(month);
    var y, m := IntToString(year), PadStart(IntToString(month), 2, '0');
    assert y == NatToString(year);
    assert ToPeriodKey(year, month) == y + "-" + m;
  }

  /** Different periods have different keys. */
  lemma ToPeriodKeyInjective(y: int, m: int, y': int, m': int)
    requires y >= 0 && y' >= 0 && 1 <= m <= 12 && 1 <= m' <= 12
    requires ToPeriodKey(y, m) == ToPeriodKey(y', m')
    ensures y == y' && m == m'
  {
    PeriodKeyShape(y, m);
    PeriodKeyShape(y', m');
    var a, b := NatToString(y), NatToString(y');
    assert forall i :: 0 <= i < |a| ==> IsDigit(a[i]);
    assert forall i :: 0 <= i < |b| ==> IsDigit(b[i]);
    SplitAtSeparator(a, '-', Fixed(m, 2), b, Fixed(m', 2));
    assert IntToString(y) == a && IntToString(y') == b;
    IntToStringInjective(y, y');
    FixedInjective(m, m', 2);
  }

  // ---------------------------------------------------------------------
  // The window of months
  // ---------------------------------------------------------------------

  /**
   * `new Date(year, month0 - i, 1)` read back as (year, month): the month
   * count `i` steps before `base`, which JavaScript's date arithmetic carries
   * across year boundaries.
   */
  function MonthsBack(base: Month, i: int): (r: Month)
    ensures ValidMonth(r)
  {
    var idx := Index(base) - i;
    Month(idx % 12 + 1, idx / 12)
  }

  /** Stepping back `i` months moves `i` places along the month count. */
  lemma MonthsBackIndex(base: Month, i: int)
    ensures Index(MonthsBack(base, i)) == Index(base) - i
  {
  }

  /** The window starts at the base month itself. */
  lemma MonthsBackZero(base: Month)
    requires ValidMonth(base)
    ensures MonthsBack(base, 0) == base
  {
    MonthsBackIndex(base, 0);
    IndexInjective(MonthsBack(base, 0), base);
  }

  /** Each further element of the window is the previous calendar month. */
  lemma MonthsBackStep(base: Month, i: int)
    ensures MonthsBack(base, i + 1) == Prev(MonthsBack(base, i))
  {
    var a := MonthsBack(base, i);
    MonthsBackIndex(base, i);
    MonthsBackIndex(base, i + 1);
    StepIndex(a);
    IndexInjective(MonthsBack(base, i + 1), Prev(a));
  }

  /** `lastMonths(base, count)`: the base month and the `count - 1` months before it. */
  method LastMonths(base: Month, count: nat) returns (out: seq<Month>)
    ensures |out| == count
    ensures forall i :: 0 <= i < count ==> out[i] == MonthsBack(base, i)
  {
    out := [];
    var i := 0;
    while i < count
      invariant 0 <= i <= count && |out| == i
      invariant forall k :: 0 <= k < i ==> out[k] == MonthsBack(base, k)
    {
      out := out + [MonthsBack(base, i)];
      i := i + 1;
    }
  }

  // ---------------------------------------------------------------------
  // Income and expenses per period
  // ---------------------------------------------------------------------

  function IngresoMonto(r: Ingreso): real { r.monto }

  /**
   * `SELECT mes, SUM(monto) ... WHERE anio = year GROUP BY mes`, then the
   * group of `month`, or 0 when the month has no rows.
   */
  function IncomeForMonth(ingresos: seq<Ingreso>, year: int, month: int): (r: real)
    ensures (forall i :: 0 <= i < |ingresos| ==> ingresos[i].anio != year || ingresos[i].mes != month) ==> r == 0.0
  {
    var inMonth := (x: Ingreso) => x.anio == year && x.mes == month;
    SumWhereNoneIf(ingresos, inMonth, IngresoMonto);
    SumWhere(ingresos, inMonth, IngresoMonto)
  }

  /** A sum over no matching rows is 0. */
  lemma SumWhereNoneIf<T>(s: seq<T>, p: T -> bool, f: T -> real)
    ensures (forall i :: 0 <= i < |s| ==> !p(s[i])) ==> SumWhere(s, p, f) == 0.0
  {
    if forall i :: 0 <= i < |s| ==> !p(s[i]) {
      SumWhereNone(s, p, f);
    }
  }

  /** `String(Number(field))` for a year or month column: a missing one is `NaN`. */
  function NumericText(field: Option<int>): string {
    match field
    case Some(n) => IntToString(n)
    case None => "NaN"
  }

  /** `toPeriodKey(Number(row.anio), Number(row.mes))`. */
  function RowPeriodKey(row: Egreso): string {
    PeriodText(NumericText(row.anio), NumericText(row.mes))
  }

  /** `Number(row.monto || 0)` on a normalised row, whose amount is a number or NaN. */
  function AmountOf(row: Egreso): (r: real)
    ensures row.monto.Num? ==> r == row.monto.n
    ensures row.monto.NaN? ==> r == 0.0
  {
    match ToNumber(Or(row.monto, Num(0.0)))
    case Some(x) => x
    case None => 0.0
  }

  /** `egresosByPeriod.get(key) || 0`. */
  function ExpenseFor(byPeriod: map<string, real>, key: string): real {
    if key in byPeriod then byPeriod[key] else 0.0
  }

  /** The expenses of the rows whose period key is `key`. */
  function PeriodTotal(rows: seq<Egreso>, key: string): real {
    KeyTotal(rows, RowPeriodKey, AmountOf, key)
  }

  /** Reading the map the loop builds gives the period's total, 0 for a period without rows. */
  lemma ExpenseForIsTotal(rows: seq<Egreso>, byPeriod: map<string, real>, key: string)
    requires forall k :: k in byPeriod <==> k in Map(RowPeriodKey, rows)
    requires forall k | k in byPeriod :: byPeriod[k] == PeriodTotal(rows, k)
    ensures ExpenseFor(byPeriod, key) == PeriodTotal(rows, key)
  {
    if key !in byPeriod {
      KeyTotalMissing(rows, RowPeriodKey, AmountOf, key);
    }
  }

  /** A row as the database stores it: year and month present, the month one of the twelve. */
  predicate StoredPeriod(row: Egreso) {
    row.anio.Some? && row.mes.Some? && row.anio.value >= 0 && 1 <= row.mes.value <= 12
  }

  /** For stored rows the period key matches exactly the rows of that (anio, mes). */
  lemma RowPeriodKeyMatches(row: Egreso, year: int, month: int)
    requires StoredPeriod(row) && year >= 0 && 1 <= month <= 12
    ensures RowPeriodKey(row) == ToPeriodKey(year, month) <==> row.anio == Some(year) && row.mes == Some(month)
  {
    if RowPeriodKey(row) == ToPeriodKey(year, month) {
      assert RowPeriodKey(row) == ToPeriodKey(row.anio.value, row.mes.value);
      ToPeriodKeyInjective(row.anio.value, row.mes.value, year, month);
    }
  }

  /** The rows of one (anio, mes). */
  function InMonth(year: int, month: int): Egreso -> bool {
    (row: Egreso) => row.anio == Some(year) && row.mes == Some(month)
  }

  /** The expenses of the rows of one (anio, mes). */
  function MonthExpenses(rows: seq<Egreso>, year: int, month: int): real {
    SumWhere(rows, InMonth(year, month), AmountOf)
  }

  /** The period total of a month is the sum of its rows' amounts. */
  lemma PeriodTotalOfMonth(rows: seq<Egreso>, year: int, month: int)
    requires year >= 0 && 1 <= month <= 12
    requires forall i :: 0 <= i < |rows| ==> StoredPeriod(rows[i])
    ensures PeriodTotal(rows, ToPeriodKey(year, month)) == MonthExpenses(rows, year, month)
  {
    var key := ToPeriodKey(year, month);
    forall i | 0 <= i < |rows| ensures RowPeriodKey(rows[i]) == key <==> InMonth(year, month)(rows[i]) {
      RowPeriodKeyMatches(rows[i], year, month);
    }
    KeyTotalIsSumWhere(rows, RowPeriodKey, AmountOf, key, InMonth(year, month));
  }

  // ---------------------------------------------------------------------
  // Metrics
  // ---------------------------------------------------------------------

  /** `ingreso > 0 ? ((ingreso - egreso) / ingreso) * 100 : null`. */
  function AhorroMensualPct(ingreso: real, egreso: real): (r: Option<real>)
    ensures r.None? <==> ingreso <= 0.0
    ensures r.Some? ==> r.value * ingreso == (ingreso - egreso) * 100.0
    ensures r.Some? && 0.0 <= egreso <= ingreso ==> 0.0 <= r.value <= 100.0
  {
    if ingreso > 0.0 then
      var q := (ingreso - egreso) / ingreso;
      assert q * ingreso == ingreso - egreso;
      if 0.0 <= egreso <= ingreso then UnitQuotient(ingreso - egreso, ingreso); Some(q * 100.0) else Some(q * 100.0)
    else None
  }

  /** The expense of each month of the window, read from the per-period map. */
  function WindowTotal(byPeriod: map<string, real>, window: seq<Month>): real {
    Sum(window, (w: Month) => MonthExpense(byPeriod, w))
  }

  /** The expense the map holds for one month of the window. */
  function MonthExpense(byPeriod: map<string, real>, w: Month): real {
    ExpenseFor(byPeriod, ToPeriodKey(w.anio, w.mes))
  }

  /** The mean times the count gives back the total. */
  lemma MeanTimes(total: real, n: nat)
    requires n > 0
    ensures Mean(total, n) * (n as real) == total
  {
  }

  /** `total / n`. */
  function Mean(total: real, n: nat): (r: real)
    requires n > 0
    ensures r * (n as real) == total
  {
    total / (n as real)
  }

  /** The average monthly expense over the window. */
  function AverageExpense(byPeriod: map<string, real>, window: seq<Month>): (r: real)
    requires |window| > 0
    ensures r * (|window| as real) == WindowTotal(byPeriod, window)
  {
    var total := WindowTotal(byPeriod, window);
    MeanTimes(total, |window|);
    Mean(total, |window|)
  }

  /** `avg > 0 ? total / avg : null`: how many months the net worth covers. */
  function RunwayMeses(total: real, avg: real): (r: Option<real>)
    ensures r.None? <==> avg <= 0.0
    ensures r.Some? ==> r.value * avg == total
  {
    if avg > 0.0 then Some(total / avg) else None
  }

  /** The share of the total held in each bucket, in percent. */
  datatype Concentracion = Concentracion(activosPct: real, cocosSinCaucionesPct: real, ultimaCaucionPct: real, dolaresPct: real)

  /** `total > 0 ? (part / total) * 100 : 0`. */
  function Ratio(part: real, total: real): (r: real)
    ensures total <= 0.0 ==> r == 0.0
    ensures total > 0.0 ==> r * total == part * 100.0
    ensures total > 0.0 && 0.0 <= part <= total ==> 0.0 <= r <= 100.0
  {
    if total > 0.0 then
      var q := part / total;
      assert q * total == part;
      if 0.0 <= part <= total then UnitQuotient(part, total); q * 100.0 else q * 100.0
    else 0.0
  }

  /** A part of a positive whole is a fraction between 0 and 1 of it. */
  lemma UnitQuotient(part: real, total: real)
    requires total > 0.0 && 0.0 <= part <= total
    ensures 0.0 <= part / total <= 1.0
  {
    var q := part / total;
    assert q * total == part;
    assert (1.0 - q) * total == total - part;
  }

  function ConcentrationOf(b: Breakdown): (c: Concentracion)
    ensures b.totalArs <= 0.0 ==> c == Concentracion(0.0, 0.0, 0.0, 0.0)
  {
    Concentracion(Ratio(b.activosArs, b.totalArs), Ratio(b.cocosSinCaucionesArs, b.totalArs),
                  Ratio(b.ultimaCaucionArs, b.totalArs), Ratio(b.dolaresArs, b.totalArs))
  }

  /** Because the total is the sum of the four buckets, a positive total is split into shares adding up to 100. */
  lemma ConcentrationSums(b: Breakdown)
    requires b.totalArs == b.activosArs + b.cocosSinCaucionesArs + b.ultimaCaucionArs + b.dolaresArs
    requires b.totalArs > 0.0
    ensures var c := ConcentrationOf(b);
      c.activosPct + c.cocosSinCaucionesPct + c.ultimaCaucionPct + c.dolaresPct == 100.0
  {
    var c := ConcentrationOf(b);
    SharesSum(b.activosArs, b.cocosSinCaucionesArs, b.ultimaCaucionArs, b.dolaresArs, b.totalArs,
              c.activosPct, c.cocosSinCaucionesPct, c.ultimaCaucionPct, c.dolaresPct);
  }

  lemma SharesSum(a: real, b: real, c: real, d: real, t: real, ra: real, rb: real, rc: real, rd: real)
    requires t == a + b + c + d && t > 0.0
    requires ra * t == a * 100.0 && rb * t == b * 100.0 && rc * t == c * 100.0 && rd * t == d * 100.0
    ensures ra + rb + rc + rd == 100.0
  {
    var sum := ra + rb + rc + rd;
    calc {
      sum * t;
      ra * t + rb * t + rc * t + rd * t;
      a * 100.0 + b * 100.0 + c * 100.0 + d * 100.0;
      t * 100.0;
    }
    CancelFactor(sum, 100.0, t);
  }

  /** A nonzero factor cancels. */
  lemma CancelFactor(x: real, y: real, t: real)
    requires t != 0.0 && x * t == y * t
    ensures x == y
  {
    assert (x - y) * t == 0.0;
  }

  /** `Math.max(0, Math.min(100, x))`. */
  function Clamp(x: real): (r: real)
    ensures 0.0 <= r <= 100.0
    ensures 0.0 <= x <= 100.0 ==> r == x
    ensures x < 0.0 ==> r == 0.0
    ensures x > 100.0 ==> r == 100.0
  {
    var upper := if x < 100.0 then x else 100.0;
    if upper > 0.0 then upper else 0.0
  }

  /** `((ahorro ?? 0) + 20) * 2.5`, clamped: a saving of -20% or less scores 0, of 20% or more 100. */
  function SavingsScore(ahorroPct: Option<real>): (r: real)
    ensures 0.0 <= r <= 100.0
    ensures ahorroPct.None? ==> r == 50.0
    ensures ahorroPct.Some? && -20.0 <= ahorroPct.value <= 20.0 ==> r == (ahorroPct.value + 20.0) * 2.5
  {
    Clamp((ahorroPct.GetOr(0.0) + 20.0) * 2.5)
  }

  /** `((runway ?? 0) / 24) * 100`, clamped: two years of runway or more score 100. */
  function RunwayScore(runway: Option<real>): (r: real)
    ensures 0.0 <= r <= 100.0
    ensures runway.None? ==> r == 0.0
    ensures runway.Some? && runway.value >= 24.0 ==> r == 100.0
  {
    Clamp((runway.GetOr(0.0) / 24.0) * 100.0)
  }

  /** `Math.max` of the four shares. */
  function MaxConcentration(c: Concentracion): (r: real)
    ensures r >= c.activosPct && r >= c.cocosSinCaucionesPct && r >= c.ultimaCaucionPct && r >= c.dolaresPct
    ensures r == c.activosPct || r == c.cocosSinCaucionesPct || r == c.ultimaCaucionPct || r == c.dolaresPct
  {
    var ab := if c.activosPct >= c.cocosSinCaucionesPct then c.activosPct else c.cocosSinCaucionesPct;
    var cd := if c.ultimaCaucionPct >= c.dolaresPct then c.ultimaCaucionPct else c.dolaresPct;
    if ab >= cd then ab else cd
  }

  /** `100 - (max - 25) * 1.6`, clamped: no bucket above 25% scores 100, one bucket of 87.5% or more scores 0. */
  function DiversificationScore(c: Concentracion): (r: real)
    ensures 0.0 <= r <= 100.0
    ensures MaxConcentration(c) <= 25.0 ==> r == 100.0
    ensures MaxConcentration(c) >= 87.5 ==> r == 0.0
  {
    Clamp(100.0 - (MaxConcentration(c) - 25.0) * 1.6)
  }

  /** With a total of 0 or less every share is 0, which scores as fully diversified. */
  lemma DiversificationWithoutTotal(b: Breakdown)
    requires b.totalArs <= 0.0
    ensures DiversificationScore(ConcentrationOf(b)) == 100.0
  {
  }

  /** The weighted score: 40% savings, 35% runway, 25% diversification. */
  function ScoreFinanciero(savings: real, runway: real, diversification: real): (r: real)
    ensures 0.0 <= savings <= 100.0 && 0.0 <= runway <= 100.0 && 0.0 <= diversification <= 100.0 ==> 0.0 <= r <= 100.0
  {
    savings * 0.4 + runway * 0.35 + diversification * 0.25
  }

  /** The `metricas` part of the response. */
  datatype Metricas = Metricas(
    ahorroMensualPct: Option<real>,
    runwayMeses: Option<real>,
    ingresosMesActual: real,
    egresosMesActual: real,
    egresoPromedio3m: real,
    scoreFinanciero: real)

  /** The metrics from this month's income and expense, the per-period map over the window and the breakdown. */
  function ComputeMetricas(b: Breakdown, ingreso: real, byPeriod: map<string, real>, now: Month, window: seq<Month>): (m: Metricas)
    requires |window| > 0
    ensures m.ingresosMesActual == ingreso && m.egresosMesActual == ExpenseFor(byPeriod, ToPeriodKey(now.anio, now.mes))
    ensures m.ahorroMensualPct == AhorroMensualPct(ingreso, m.egresosMesActual)
    ensures m.egresoPromedio3m == AverageExpense(byPeriod, window)
    ensures m.runwayMeses == RunwayMeses(b.totalArs, m.egresoPromedio3m)
    ensures 0.0 <= m.scoreFinanciero <= 100.0
  {
    var egreso := ExpenseFor(byPeriod, ToPeriodKey(now.anio, now.mes));
    var ahorro := AhorroMensualPct(ingreso, egreso);
    var avg := AverageExpense(byPeriod, window);
    var runway := RunwayMeses(b.totalArs, avg);
    var score := ScoreFinanciero(SavingsScore(ahorro), RunwayScore(runway), DiversificationScore(ConcentrationOf(b)));
    Metricas(ahorro, runway, ingreso, egreso, avg, score)
  }

  /** The response of `GET /api/patrimonio`. */
  datatype PatrimonioResponse = PatrimonioResponse(
    breakdown: Breakdown,
    comparacion: Comparacion,
    historial: seq<HistoryRow>,
    metricas: Metricas,
    concentracion: Concentracion)

  /** `SELECT ... FROM egresos WHERE anio = ANY(years)`, as the driver hands the rows over. */
  function EgresosOfYears(egresos: seq<EgresoRecord>, years: set<int>): (rows: seq<Egreso>)
    ensures |rows| <= |egresos|
    ensures forall i :: 0 <= i < |rows| ==> rows[i].anio.Some? && rows[i].anio.value in years
  {
    var kept := Filter(egresos, (r: EgresoRecord) => r.anio in years);
    var rows := Map(AsEgreso, kept);
    assert forall i :: 0 <= i < |rows| ==> rows[i] == AsEgreso(kept[i]);
    rows
  }

  /** The years the window of months touches. */
  function YearsOf(window: seq<Month>): set<int> {
    set w | w in window :: w.anio
  }

  /** The period key of the month `i` steps before `now`. */
  function WindowKey(now: Month, i: int): string {
    ToPeriodKey(MonthsBack(now, i).anio, MonthsBack(now, i).mes)
  }

  /**
   * The metrics of the response and the values they come from: the window
   * of the current month and the two before it, the deduplicated expenses of
   * the years it touches, and their totals per period. The average expense
   * is a third of the three months' totals.
   */
  ghost predicate MetricasFrom(ingresos: seq<Ingreso>, egresos: seq<EgresoRecord>, b: Breakdown, now: Month,
                               m: Metricas, deduped: seq<Egreso>, byPeriod: map<string, real>, window: seq<Month>)
  {
    |window| == 3 && (forall i :: 0 <= i < 3 ==> window[i] == MonthsBack(now, i)) &&
    DedupedFrom(EgresosOfYears(egresos, YearsOf(window)), deduped) &&
    (forall k :: k in byPeriod <==> k in Map(RowPeriodKey, deduped)) &&
    (forall k | k in byPeriod :: byPeriod[k] == PeriodTotal(deduped, k)) &&
    m == ComputeMetricas(b, IncomeForMonth(ingresos, now.anio, now.mes), byPeriod, now, window) &&
    m.egresosMesActual == PeriodTotal(deduped, ToPeriodKey(now.anio, now.mes)) &&
    m.egresoPromedio3m * 3.0 ==
      PeriodTotal(deduped, WindowKey(now, 0)) + PeriodTotal(deduped, WindowKey(now, 1)) + PeriodTotal(deduped, WindowKey(now, 2))
  }

  /** The window's total read from the per-period map is the three months' totals. */
  lemma WindowTotalOfThree(rows: seq<Egreso>, byPeriod: map<string, real>, now: Month, window: seq<Month>)
    requires |window| == 3 && forall i :: 0 <= i < 3 ==> window[i] == MonthsBack(now, i)
    requires forall k :: k in byPeriod <==> k in Map(RowPeriodKey, rows)
    requires forall k | k in byPeriod :: byPeriod[k] == PeriodTotal(rows, k)
    ensures WindowTotal(byPeriod, window) ==
      PeriodTotal(rows, WindowKey(now, 0)) + PeriodTotal(rows, WindowKey(now, 1)) + PeriodTotal(rows, WindowKey(now, 2))
  {
    SumOfThree(window, (w: Month) => MonthExpense(byPeriod, w));
    forall i | 0 <= i < 3 ensures MonthExpense(byPeriod, window[i]) == PeriodTotal(rows, WindowKey(now, i)) {
      ExpenseForIsTotal(rows, byPeriod, WindowKey(now, i));
    }
  }

  /**
   * The metrics part of the handler: this month's income, the expenses of
   * the last three months, deduplicated and summed per period, and the
   * breakdown.
   */
  method Metrics(ingresos: seq<Ingreso>, egresos: seq<EgresoRecord>, b: Breakdown, now: Month)
      returns (m: Metricas, ghost deduped: seq<Egreso>, ghost byPeriod: map<string, real>, ghost window: seq<Month>)
    requires ValidMonth(now)
    ensures MetricasFrom(ingresos, egresos, b, now, m, deduped, byPeriod, window)
    ensures 0.0 <= m.scoreFinanciero <= 100.0
  {
    var months := LastMonths(now, 3);
    var rows := EgresosOfYears(egresos, YearsOf(months));
    var out := DedupeEgresos(rows);
    var totals, keys := SumByKey(out, RowPeriodKey, AmountOf);
    ExpenseForIsTotal(out, totals, ToPeriodKey(now.anio, now.mes));
    WindowTotalOfThree(out, totals, now, months);
    m := ComputeMetricas(b, IncomeForMonth(ingresos, now.anio, now.mes), totals, now, months);
    deduped, byPeriod, window := out, totals, months;
  }

  /**
   * `GET /api/patrimonio`. `today` is the database's `CURRENT_DATE` and
   * `now` the server clock's month.
   */
  method Get(db: Db, today: Date, now: Month)
      returns (r: PatrimonioResponse, ghost deduped: seq<Egreso>, ghost byPeriod: map<string, real>, ghost window: seq<Month>)
    requires Valid(today) && ValidMonth(now)
    modifies db`historial
    ensures r.breakdown == GetBreakdown(db.activos, db.cocos, db.dolares, db.config)
    ensures db.historial == SyncedHistory(old(db.historial), today, r.breakdown.totalArs)
    ensures r.comparacion == Compare(today, r.breakdown.totalArs, Lookup(old(db.historial), PrevDay(today)))
    ensures |r.historial| == if |db.historial.Keys| < 120 then |db.historial.Keys| else 120
    ensures forall i :: 0 <= i < |r.historial| ==>
      r.historial[i].fecha in db.historial && r.historial[i].total == db.historial[r.historial[i].fecha]
    ensures forall i, j :: 0 <= i < j < |r.historial| ==> Before(r.historial[j].fecha, r.historial[i].fecha)
    ensures forall d, i :: d in db.historial && d !in Map(Fecha, r.historial) && 0 <= i < |r.historial| ==>
      Before(d, r.historial[i].fecha)
    ensures MetricasFrom(db.ingresos, db.egresos, r.breakdown, now, r.metricas, deduped, byPeriod, window)
    ensures 0.0 <= r.metricas.scoreFinanciero <= 100.0
    ensures r.concentracion == ConcentrationOf(r.breakdown)
  {
    var breakdown := GetBreakdown(db.activos, db.cocos, db.dolares, db.config);
    var comparacion := GetPatrimonioComparacion(db, today);
    var historial := NewestFirst(db.historial, 120);
    var metricas;
    metricas, deduped, byPeriod, window := Metrics(db.ingresos, db.egresos, breakdown, now);
    r := PatrimonioResponse(breakdown, comparacion, historial, metricas, ConcentrationOf(breakdown));
  }
}
