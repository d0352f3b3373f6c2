/**
 * `/api/resumen`: the twelve months of one year, each with the year's
 * income and expense totals for that month and their difference. The two
 * `GROUP BY mes` queries become per-month sums; the handler's loop looks
 * each month up and fills a month without rows with 0.
 */
module ResumenRoute {
  import opened Wrappers
  import opened JsValues
  import opened Sums
  import opened Store
  import opened Grouping

  /** One entry of the response. */
  datatype MesResumen = MesResumen(mes: int, ingresos: real, egresos: real, diferencia: real)

  // ---------------------------------------------------------------------
  // The two aggregate queries
  // ---------------------------------------------------------------------

  /**
   * The sum of `monto` over the rows of year `anio` whose month is `m`
   * (0 when there are none): what `SUM(monto) ... WHERE anio = ${anio}`
   * gives for the group of `m`.
   */
  function MonthTotal<T>(rows: seq<T>, inYear: T -> bool, mes: T -> int, monto: T -> real, m: int): real {
    if rows == [] then 0.0
    else
      var last := rows[|rows| - 1];
      MonthTotal(rows[..|rows| - 1], inYear, mes, monto, m) + (if inYear(last) && mes(last) == m then monto(last) else 0.0)
  }

  /** A month that no row of the year falls in totals 0. */
  lemma {:induction false} MonthTotalEmpty<T>(rows: seq<T>, inYear: T -> bool, mes: T -> int, monto: T -> real, m: int)
    requires forall i :: 0 <= i < |rows| ==> !inYear(rows[i]) || mes(rows[i]) != m
    ensures MonthTotal(rows, inYear, mes, monto, m) == 0.0
  {
    if rows != [] {
      MonthTotalEmpty(rows[..|rows| - 1], inYear, mes, monto, m);
    }
  }

  /** The month sums of the filtered year, as the summing fold computes them, are the month totals. */
  lemma {:induction false} KeyTotalOfYear<T>(rows: seq<T>, inYear: T -> bool, mes: T -> int, monto: T -> real, m: int)
    ensures KeyTotal(Filter(rows, inYear), mes, monto, m) == MonthTotal(rows, inYear, mes, monto, m)
  {
    if rows != [] {
      var init, last := rows[..|rows| - 1], rows[|rows| - 1];
      KeyTotalOfYear(init, inYear, mes, monto, m);
      if inYear(last) {
        KeyTotalAppend(Filter(init, inYear), last, mes, monto, m);
      } else {
        assert Filter(rows, inYear) == Filter(init, inYear);
      }
    }
  }

  /** A month has a group exactly when some row of the year falls in it. */
  lemma GroupedMonths<T>(rows: seq<T>, inYear: T -> bool, mes: T -> int, m: int)
    ensures m in Map(mes, Filter(rows, inYear)) <==> exists i :: 0 <= i < |rows| && inYear(rows[i]) && mes(rows[i]) == m
  {
    var f := Filter(rows, inYear);
    if m in Map(mes, f) {
      var j :| 0 <= j < |f| && Map(mes, f)[j] == m;
      var i :| 0 <= i < |rows| && rows[i] == f[j];
    }
    if exists i :: 0 <= i < |rows| && inYear(rows[i]) && mes(rows[i]) == m {
      var i :| 0 <= i < |rows| && inYear(rows[i]) && mes(rows[i]) == m;
      var j :| 0 <= j < |f| && f[j] == rows[i];
      assert Map(mes, f)[j] == m;
    }
  }

  /**
   * `SELECT mes, COALESCE(SUM(monto), 0) as total ... WHERE anio = ${anio}
   * GROUP BY mes`: one entry per month that has rows of the year, holding
   * that month's total.
   */
  method GroupByMes<T>(rows: seq<T>, inYear: T -> bool, mes: T -> int, monto: T -> real) returns (totals: map<int, real>)
    ensures forall m :: m in totals <==> exists i :: 0 <= i < |rows| && inYear(rows[i]) && mes(rows[i]) == m
    ensures forall m | m in totals :: totals[m] == MonthTotal(rows, inYear, mes, monto, m)
  {
    var keys;
    totals, keys := SumByKey(Filter(rows, inYear), mes, monto);
    forall m ensures m in totals <==> exists i :: 0 <= i < |rows| && inYear(rows[i]) && mes(rows[i]) == m {
      GroupedMonths(rows, inYear, mes, m);
    }
    forall m | m in totals ensures totals[m] == MonthTotal(rows, inYear, mes, monto, m) {
      KeyTotalOfYear(rows, inYear, mes, monto, m);
    }
  }

  function IngresoMes(r: Ingreso): int { r.mes }
  function IngresoMonto(r: Ingreso): real { r.monto }
  function EgresoMes(r: EgresoRecord): int { r.mes }
  function EgresoMonto(r: EgresoRecord): real { r.monto }

  /** `WHERE anio = ${anio}`, the parameter being a JavaScript number. */
  function IngresoInYear(anio: real): Ingreso -> bool {
    (r: Ingreso) => r.anio as real == anio
  }

  function EgresoInYear(anio: real): EgresoRecord -> bool {
    (r: EgresoRecord) => r.anio as real == anio
  }

  /** The income of month `m` of year `anio`. */
  function MonthIncome(ingresos: seq<Ingreso>, anio: real, m: int): real {
    MonthTotal(ingresos, IngresoInYear(anio), IngresoMes, IngresoMonto, m)
  }

  /** The expenses of month `m` of year `anio`: every stored row, duplicates included. */
  function MonthExpense(egresos: seq<EgresoRecord>, anio: real, m: int): real {
    MonthTotal(egresos, EgresoInYear(anio), EgresoMes, EgresoMonto, m)
  }

  /** `ing ? Number(ing.total) : 0`, with `ing` the group of month `m` if there is one. */
  function Found(totals: map<int, real>, m: int): (r: real)
    ensures m !in totals ==> r == 0.0
    ensures m in totals ==> r == totals[m]
  {
    if m in totals then totals[m] else 0.0
  }

  /** Looking a month up in the grouped totals gives its total, 0 for a month without a group. */
  lemma FoundIsTotal<T>(rows: seq<T>, inYear: T -> bool, mes: T -> int, monto: T -> real, totals: map<int, real>, m: int)
    requires forall k :: k in totals <==> exists i :: 0 <= i < |rows| && inYear(rows[i]) && mes(rows[i]) == k
    requires forall k | k in totals :: totals[k] == MonthTotal(rows, inYear, mes, monto, k)
    ensures Found(totals, m) == MonthTotal(rows, inYear, mes, monto, m)
  {
    if m !in totals {
      MonthTotalEmpty(rows, inYear, mes, monto, m);
    }
  }

  // ---------------------------------------------------------------------
  // The handler
  // ---------------------------------------------------------------------

  /**
   * `GET`: twelve entries, months 1 to 12 in order, for the requested year;
   * a missing, zero or non-numeric `anio` is `currentYear`.
   */
  method Get(db: Db, anioParam: Option<string>, currentYear: int) returns (meses: seq<MesResumen>)
    ensures |meses| == 12
    ensures forall i :: 0 <= i < 12 ==> meses[i].mes == i + 1
    ensures var anio := NumberParamOr(anioParam, currentYear as real);
      forall i :: 0 <= i < 12 ==>
        meses[i].ingresos == MonthIncome(db.ingresos, anio, i + 1) &&
        meses[i].egresos == MonthExpense(db.egresos, anio, i + 1)
    ensures forall i :: 0 <= i < 12 ==> meses[i].diferencia == meses[i].ingresos - meses[i].egresos
  {
    var anio := NumberParamOr(anioParam, currentYear as real);
    var ingresos := GroupByMes(db.ingresos, IngresoInYear(anio), IngresoMes, IngresoMonto);
    var egresos := GroupByMes(db.egresos, EgresoInYear(anio), EgresoMes, EgresoMonto);
    meses := Meses(ingresos, egresos);
    forall i | 0 <= i < 12
      ensures meses[i].ingresos == MonthIncome(db.ingresos, anio, i + 1)
      ensures meses[i].egresos == MonthExpense(db.egresos, anio, i + 1)
    {
      FoundIsTotal(db.ingresos, IngresoInYear(anio), IngresoMes, IngresoMonto, ingresos, i + 1);
      FoundIsTotal(db.egresos, EgresoInYear(anio), EgresoMes, EgresoMonto, egresos, i + 1);
    }
  }

  /**
   * The `for (m = 1; m <= 12; m++)` loop over the two grouped results: the
   * entry of each month, with a month missing from a result read as 0.
   */
  method Meses(ingresos: map<int, real>, egresos: map<int, real>) returns (meses: seq<MesResumen>)
    ensures |meses| == 12
    ensures forall i :: 0 <= i < 12 ==>
      meses[i] == MesResumen(i + 1, Found(ingresos, i + 1), Found(egresos, i + 1),
                             Found(ingresos, i + 1) - Found(egresos, i + 1))
  {
    meses := [];
    var m := 1;
    while m <= 12
      invariant 1 <= m <= 13 && |meses| == m - 1
      invariant forall i :: 0 <= i < |meses| ==>
        meses[i] == MesResumen(i + 1, Found(ingresos, i + 1), Found(egresos, i + 1),
                               Found(ingresos, i + 1) - Found(egresos, i + 1))
    {
      var totalIngresos := Found(ingresos, m);
      var totalEgresos := Found(egresos, m);
      meses := meses + [MesResumen(m, totalIngresos, totalEgresos, totalIngresos - totalEgresos)];
      m := m + 1;
    }
  }

  // ---------------------------------------------------------------------
  // The twelve months cover the year
  // ---------------------------------------------------------------------

  /** The totals of months 1 to `k`, added up. */
  function MonthsTotal<T>(rows: seq<T>, inYear: T -> bool, mes: T -> int, monto: T -> real, k: nat): real {
    if k == 0 then 0.0 else MonthsTotal(rows, inYear, mes, monto, k - 1) + MonthTotal(rows, inYear, mes, monto, k)
  }

  /** The rows of the year whose month is one of 1 to `k`. */
  function InMonths<T>(inYear: T -> bool, mes: T -> int, k: int): T -> bool {
    (x: T) => inYear(x) && 1 <= mes(x) <= k
  }

  /** One more row adds its amount to exactly the month it falls in. */
  lemma {:induction false} MonthsTotalAppend<T>(rows: seq<T>, x: T, inYear: T -> bool, mes: T -> int, monto: T -> real, k: nat)
    ensures MonthsTotal(rows + [x], inYear, mes, monto, k)
         == MonthsTotal(rows, inYear, mes, monto, k) + (if InMonths(inYear, mes, k)(x) then monto(x) else 0.0)
  {
    assert (rows + [x])[..|rows|] == rows;
    if k > 0 {
      MonthsTotalAppend(rows, x, inYear, mes, monto, k - 1);
    }
  }

  /** Months 1 to `k` together hold the amounts of the year's rows with a month in that range. */
  lemma {:induction false} MonthsTotalIsSum<T>(rows: seq<T>, inYear: T -> bool, mes: T -> int, monto: T -> real, k: nat)
    ensures MonthsTotal(rows, inYear, mes, monto, k) == SumWhere(rows, InMonths(inYear, mes, k), monto)
  {
    if rows != [] {
      var init, last := rows[..|rows| - 1], rows[|rows| - 1];
      MonthsTotalIsSum(init, inYear, mes, monto, k);
      MonthsTotalAppend(init, last, inYear, mes, monto, k);
      assert init + [last] == rows;
    } else {
      MonthsTotalOfNothing(inYear, mes, monto, k);
    }
  }

  lemma {:induction false} MonthsTotalOfNothing<T>(inYear: T -> bool, mes: T -> int, monto: T -> real, k: nat)
    ensures MonthsTotal([], inYear, mes, monto, k) == 0.0
  {
    if k > 0 {
      MonthsTotalOfNothing(inYear, mes, monto, k - 1);
    }
  }

  /** The income of the twelve entries. */
  function IncomeOfEntries(meses: seq<MesResumen>): real {
    if meses == [] then 0.0 else IncomeOfEntries(meses[..|meses| - 1]) + meses[|meses| - 1].ingresos
  }

  lemma {:induction false} IncomeOfEntriesPrefix(meses: seq<MesResumen>, ingresos: seq<Ingreso>, anio: real, k: nat)
    requires k <= |meses|
    requires forall i :: 0 <= i < |meses| ==> meses[i].ingresos == MonthIncome(ingresos, anio, i + 1)
    ensures IncomeOfEntries(meses[..k]) == MonthsTotal(ingresos, IngresoInYear(anio), IngresoMes, IngresoMonto, k)
  {
    if k > 0 {
      IncomeOfEntriesPrefix(meses, ingresos, anio, k - 1);
      assert meses[..k][..k - 1] == meses[..k - 1];
    }
  }

  /**
   * When every income row of the year carries a month from 1 to 12 (as the
   * income form guarantees), the twelve entries add up to the year's
   * whole income: no row is counted twice and none is lost.
   */
  lemma YearIncomeCovered(meses: seq<MesResumen>, ingresos: seq<Ingreso>, anio: real)
    requires |meses| == 12
    requires forall i :: 0 <= i < 12 ==> meses[i].ingresos == MonthIncome(ingresos, anio, i + 1)
    requires forall i :: 0 <= i < |ingresos| && ingresos[i].anio as real == anio ==> 1 <= ingresos[i].mes <= 12
    ensures IncomeOfEntries(meses) == SumWhere(ingresos, IngresoInYear(anio), IngresoMonto)
  {
    IncomeOfEntriesPrefix(meses, ingresos, anio, 12);
    assert meses[..12] == meses;
    MonthsTotalIsSum(ingresos, IngresoInYear(anio), IngresoMes, IngresoMonto, 12);
    SumWhereCongruent(ingresos, InMonths(IngresoInYear(anio), IngresoMes, 12), IngresoInYear(anio), IngresoMonto);
  }
}
