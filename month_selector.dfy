/**
 * The month picker's arrows: stepping a (mes, anio) pair one month back or
 * forward, wrapping across the year boundary.
 */
module MonthSelector {

  /** A month of a year, `mes` counted from 1. */
  datatype Month = Month(mes: int, anio: int)

  predicate ValidMonth(m: Month) {
    1 <= m.mes <= 12
  }

  /** The left arrow: January goes to December of the previous year. */
  function Prev(m: Month): (r: Month)
    ensures m.mes == 1 ==> r == Month(12, m.anio - 1)
    ensures m.mes != 1 ==> r == Month(m.mes - 1, m.anio)
    ensures ValidMonth(m) ==> ValidMonth(r)
  {
    if m.mes == 1 then Month(12, m.anio - 1) else Month(m.mes - 1, m.anio)
  }

  /** The right arrow: December goes to January of the next year. */
  function Next(m: Month): (r: Month)
    ensures m.mes == 12 ==> r == Month(1, m.anio + 1)
    ensures m.mes != 12 ==> r == Month(m.mes + 1, m.anio)
    ensures ValidMonth(m) ==> ValidMonth(r)
  {
    if m.mes == 12 then Month(1, m.anio + 1) else Month(m.mes + 1, m.anio)
  }

  /** The position of a month on a single count of months since year 0. */
  function Index(m: Month): int {
    m.anio * 12 + (m.mes - 1)
  }

  /** The two arrows undo each other on valid months. */
  lemma PrevNextInverse(m: Month)
    requires ValidMonth(m)
    ensures Next(Prev(m)) == m && Prev(Next(m)) == m
  {
  }

  /** Each arrow moves exactly one month along the month count. */
  lemma StepIndex(m: Month)
    requires ValidMonth(m)
    ensures Index(Prev(m)) == Index(m) - 1 && Index(Next(m)) == Index(m) + 1
  {
  }

  /** A valid month is determined by its index. */
  lemma IndexInjective(a: Month, b: Month)
    requires ValidMonth(a) && ValidMonth(b) && Index(a) == Index(b)
    ensures a == b
  {
    assert a.anio == Index(a) / 12 && b.anio == Index(b) / 12;
  }
}
