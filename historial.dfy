/**
 * Reading `activos_historial` back: `SELECT fecha, total ... ORDER BY fecha
 * DESC LIMIT n`.
 */
module Historial {
  import opened Calendar
  import opened Sorting
  import opened Grouping

  /** A row of `activos_historial`. */
  datatype HistoryRow = HistoryRow(fecha: Date, total: real)

  function Fecha(r: HistoryRow): Date { r.fecha }

  /** `fecha DESC`: `a` may come before `b`. */
  predicate NewerOrSame(a: Date, b: Date) {
    !Before(a, b)
  }

  lemma NewerOrSameTotalPreorder()
    ensures TotalPreorder(NewerOrSame)
  {
    forall a, b, c | NewerOrSame(a, b) && NewerOrSame(b, c) ensures NewerOrSame(a, c) {
      BeforeTotal(a, b);
      BeforeTotal(b, c);
    }
  }

  /** The dates of the table, each once, in whatever order the map yields them. */
  method DatesOf(h: map<Date, real>) returns (ks: seq<Date>)
    ensures |ks| == |h.Keys|
    ensures forall d :: d in ks <==> d in h
    ensures forall i, j :: 0 <= i < j < |ks| ==> ks[i] != ks[j]
  {
    ks := [];
    var rest := h.Keys;
    while rest != {}
      invariant |ks| + |rest| == |h.Keys|
      invariant forall d :: d in h <==> d in ks || d in rest
      invariant forall d :: d in ks ==> d !in rest
      invariant forall i, j :: 0 <= i < j < |ks| ==> ks[i] != ks[j]
      decreases |rest|
    {
      var d :| d in rest;
      ks := ks + [d];
      rest := rest - {d};
    }
  }

  /** Distinct dates sorted newest first stay distinct and keep their elements. */
  lemma SortDates(ks: seq<Date>)
    requires forall i, j :: 0 <= i < j < |ks| ==> ks[i] != ks[j]
    ensures var sorted := Sort(ks, NewerOrSame);
      |sorted| == |ks| && SortedBy(sorted, NewerOrSame) && DistinctKeys(sorted, (d: Date) => d) &&
      forall d :: d in sorted <==> d in ks
  {
    NewerOrSameTotalPreorder();
    SortSorted(ks, NewerOrSame);
    SortKeepsDistinct(ks, NewerOrSame, (d: Date) => d);
    forall d ensures d in Sort(ks, NewerOrSame) <==> d in ks {
      SortSameElements(ks, NewerOrSame, d);
    }
  }

  /** A prefix of the dates sorted newest first, with their totals. */
  lemma NewestPrefix(h: map<Date, real>, sorted: seq<Date>, rows: seq<HistoryRow>)
    requires SortedBy(sorted, NewerOrSame) && DistinctKeys(sorted, (d: Date) => d)
    requires forall d :: d in sorted <==> d in h
    requires |rows| <= |sorted| && forall k :: 0 <= k < |rows| ==> rows[k] == HistoryRow(sorted[k], h[sorted[k]])
    ensures forall i :: 0 <= i < |rows| ==> rows[i].fecha in h && rows[i].total == h[rows[i].fecha]
    ensures forall i, j :: 0 <= i < j < |rows| ==> Before(rows[j].fecha, rows[i].fecha)
    ensures forall d, i :: d in h && d !in Map(Fecha, rows) && 0 <= i < |rows| ==> Before(d, rows[i].fecha)
  {
    forall i | 0 <= i < |rows| ensures rows[i].fecha in h {
      assert sorted[i] in sorted;
    }
    forall i, j | 0 <= i < j < |rows| ensures Before(rows[j].fecha, rows[i].fecha) {
      BeforeTotal(sorted[i], sorted[j]);
    }
    forall d, i | d in h && d !in Map(Fecha, rows) && 0 <= i < |rows| ensures Before(d, rows[i].fecha) {
      var m :| 0 <= m < |sorted| && sorted[m] == d;
      assert forall k :: 0 <= k < |rows| ==> Map(Fecha, rows)[k] == sorted[k] && Map(Fecha, rows)[k] in Map(Fecha, rows);
      BeforeTotal(sorted[i], sorted[m]);
    }
  }

  /** The rows for the given dates, in their order (`.map` over the query result). */
  method RowsOf(h: map<Date, real>, dates: seq<Date>, n: nat) returns (rows: seq<HistoryRow>)
    requires n <= |dates| && forall d :: d in dates ==> d in h
    ensures |rows| == n && forall k :: 0 <= k < n ==> rows[k] == HistoryRow(dates[k], h[dates[k]])
  {
    rows := [];
    var i := 0;
    while i < n
      invariant 0 <= i <= n && |rows| == i
      invariant forall k :: 0 <= k < i ==> rows[k] == HistoryRow(dates[k], h[dates[k]])
    {
      rows := rows + [HistoryRow(dates[i], h[dates[i]])];
      i := i + 1;
    }
  }

  /**
   * The newest `limit` rows, newest first: as many as the table holds up to
   * the limit, each a stored row, dates strictly descending, and every date
   * left out older than every date returned.
   */
  method NewestFirst(h: map<Date, real>, limit: nat) returns (rows: seq<HistoryRow>)
    ensures |rows| == if |h.Keys| < limit then |h.Keys| else limit
    ensures forall i :: 0 <= i < |rows| ==> rows[i].fecha in h && rows[i].total == h[rows[i].fecha]
    ensures forall i, j :: 0 <= i < j < |rows| ==> Before(rows[j].fecha, rows[i].fecha)
    ensures forall d, i :: d in h && d !in Map(Fecha, rows) && 0 <= i < |rows| ==> Before(d, rows[i].fecha)
  {
    var ks := DatesOf(h);
    var sorted := Sort(ks, NewerOrSame);
    SortDates(ks);
    var n := if |h.Keys| < limit then |h.Keys| else limit;
    rows := RowsOf(h, sorted, n);
    NewestPrefix(h, sorted, rows);
  }
}
