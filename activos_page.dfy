/**
 * The arithmetic the assets page does in the browser over the rows the API
 * sends: the client's own reading of "caución", its second implementation
 * of the latest caución, the totals, the two lists, the cauciones grouped
 * by date, their history newest first, and the day-to-day differences.
 */
module ActivosPage {
  import opened Wrappers
  import opened Text
  import opened Calendar
  import opened Sorting
  import opened Sums
  import opened Grouping
  import opened Store
  import opened Patrimonio

  /** An `Activo` as the page receives it; `fecha` is whatever text the JSON carries. */
  datatype ActivoRow = ActivoRow(id: int, entidad: string, tipo: string, descripcion: string, monto: real, fecha: string)

  /** An `InversionCocos` as the page receives it. */
  datatype InversionRow = InversionRow(id: int, tipo: string, monto: real, fecha: string)

  // ---------------------------------------------------------------------
  // What counts as a caución
  // ---------------------------------------------------------------------

  /**
   * `String(value || "").trim().toUpperCase()`: the trimmed text, as long,
   * without surrounding white space and without a lower-case ASCII letter.
   */
  function NormalizeTipo(value: string): (r: string)
    ensures |r| == |Trim(value)| <= |value|
    ensures Trimmed(r)
    ensures forall i :: 0 <= i < |r| ==> !('a' <= r[i] <= 'z')
  {
    TrimIsTrimmed(value);
    UpperKeepsSpacing(Trim(value));
    ToUpper(Trim(value))
  }

  /** Normalising a normalised type changes nothing. */
  lemma NormalizeTipoIdempotent(value: string)
    ensures NormalizeTipo(NormalizeTipo(value)) == NormalizeTipo(value)
  {
    var r := NormalizeTipo(value);
    TrimOfTrimmed(r);
    forall i | 0 <= i < |r| ensures UpperChar(r[i]) == r[i] {
      CaseMapping(Trim(value)[i]);
    }
  }

  /** The normal form ignores the case of the type's letters. */
  lemma NormalizeTipoIgnoresCase(value: string)
    ensures NormalizeTipo(ToLower(value)) == NormalizeTipo(value)
    ensures NormalizeTipo(ToUpper(value)) == NormalizeTipo(value)
  {
    CaseMappingsSameUpperCase(value);
    TrimUpperSameUpperCase(value, ToLower(value));
    TrimUpperSameUpperCase(value, ToUpper(value));
  }

  predicate IsCaucion(value: string) {
    NormalizeTipo(value) == "CAUCIONES"
  }

  /** `Cauciones`, `cauciones` and `CAUCIONES` are all cauciones. */
  lemma IsCaucionIgnoresCase(value: string)
    ensures IsCaucion(ToLower(value)) <==> IsCaucion(value)
    ensures IsCaucion(ToUpper(value)) <==> IsCaucion(value)
  {
    NormalizeTipoIgnoresCase(value);
  }

  /** Where the only white space is the blank, the page and the server's `UPPER(TRIM(tipo))` agree. */
  lemma IsCaucionAgrees(tipo: string)
    requires BlanksOnly(tipo)
    ensures IsCaucion(tipo) <==> IsCaucionSql(tipo)
  {
    TrimsAgree(tipo);
  }

  /** A trailing tab is trimmed by the page but not by SQL's `TRIM`. */
  lemma IsCaucionTabDisagrees()
    ensures IsCaucion("CAUCIONES\t") && !IsCaucionSql("CAUCIONES\t")
  {
    var s := "CAUCIONES\t";
    assert TrimStart(s, false) == s && TrimStart(s, true) == s;
    assert TrimEnd(s[..9], false) == s[..9];
    assert TrimEnd(s, false) == s[..9] == "CAUCIONES";
    assert TrimEnd(s, true) == s;
    assert ToUpper("CAUCIONES") == "CAUCIONES";
    assert |ToUpper(s)| == 10;
  }

  predicate RowIsCaucion(i: InversionRow) { IsCaucion(i.tipo) }
  predicate RowNotCaucion(i: InversionRow) { !IsCaucion(i.tipo) }

  function InversionMonto(i: InversionRow): real { i.monto }
  function ActivoRowMonto(a: ActivoRow): real { a.monto }

  // ---------------------------------------------------------------------
  // The latest caución
  // ---------------------------------------------------------------------

  /** `String(fecha || "").slice(0, 10)`. */
  function Prefix10(s: string): (r: string)
    ensures |r| == if |s| < 10 then |s| else 10
    ensures r == s[..|r|]
  {
    if |s| <= 10 then s else s[..10]
  }

  /** The reducer's step: a greater date prefix wins, an equal prefix goes to the larger id. */
  function Pick(latest: Option<InversionRow>, curr: InversionRow): Option<InversionRow> {
    if latest.None? then Some(curr)
    else
      var latestFecha := Prefix10(latest.value.fecha);
      var currFecha := Prefix10(curr.fecha);
      if Less(latestFecha, currFecha) then Some(curr)
      else if Less(currFecha, latestFecha) then latest
      else if curr.id > latest.value.id then Some(curr) else latest
  }

  /** `.reduce(pick, null)`, folded from the left. */
  function Reduce(s: seq<InversionRow>): Option<InversionRow> {
    if s == [] then None else Pick(Reduce(s[..|s| - 1]), s[|s| - 1])
  }

  /** `a` would replace `b` in the reducer. */
  predicate ClientLater(a: InversionRow, b: InversionRow) {
    Less(Prefix10(b.fecha), Prefix10(a.fecha)) || (Prefix10(a.fecha) == Prefix10(b.fecha) && a.id > b.id)
  }

  lemma ClientLaterStrictOrder()
    ensures StrictOrder(ClientLater)
  {
    forall a ensures !ClientLater(a, a) {
      LessIrreflexive(Prefix10(a.fecha));
    }
    forall a, b, c | ClientLater(a, b) && ClientLater(b, c) ensures ClientLater(a, c) {
      LessTransitive(Prefix10(c.fecha), Prefix10(b.fecha), Prefix10(a.fecha));
    }
  }

  /** One reducer step is one step of taking the greatest caución. */
  lemma PickIsStep(latest: Option<InversionRow>, curr: InversionRow)
    ensures Pick(latest, curr) == if latest.None? || ClientLater(curr, latest.value) then Some(curr) else latest
  {
    if latest.Some? {
      var lf, cf := Prefix10(latest.value.fecha), Prefix10(curr.fecha);
      LessTotal(lf, cf);
      LessAsymmetric(lf, cf);
      LessIrreflexive(lf);
    }
  }

  /** Filtering and then reducing is choosing the greatest caución. */
  lemma {:induction false} ReduceIsMax(s: seq<InversionRow>)
    ensures StrictOrder(ClientLater)
    ensures Reduce(Filter(s, RowIsCaucion)) == MaxWhere(s, RowIsCaucion, ClientLater)
  {
    ClientLaterStrictOrder();
    if s != [] {
      var init, last := s[..|s| - 1], s[|s| - 1];
      ReduceIsMax(init);
      var f := Filter(init, RowIsCaucion);
      if RowIsCaucion(last) {
        assert Filter(s, RowIsCaucion) == f + [last];
        assert (f + [last])[..|f|] == f;
        PickIsStep(Reduce(f), last);
      } else {
        assert Filter(s, RowIsCaucion) == f;
      }
    }
  }

  /**
   * `ultimaCaucion`: none when no row is a caución; otherwise a caución
   * that no other caución would replace.
   */
  function UltimaCaucion(inversiones: seq<InversionRow>): (r: Option<InversionRow>)
    ensures r.None? <==> forall i :: 0 <= i < |inversiones| ==> !RowIsCaucion(inversiones[i])
    ensures r.Some? ==> r.value in inversiones && RowIsCaucion(r.value)
    ensures r.Some? ==> forall i :: 0 <= i < |inversiones| && RowIsCaucion(inversiones[i]) ==> !ClientLater(inversiones[i], r.value)
  {
    ReduceIsMax(inversiones);
    Reduce(Filter(inversiones, RowIsCaucion))
  }

  // ---------------------------------------------------------------------
  // Agreement with the server
  // ---------------------------------------------------------------------

  /**
   * A Cocos record as the page receives it: the date's ISO text followed by
   * whatever the serialiser appends (a time and zone), the same for all rows.
   */
  function AsSent(c: Cocos, suffix: string): (r: InversionRow)
    requires Printable(c.fecha)
    ensures Prefix10(r.fecha) == IsoText(c.fecha)
  {
    assert (IsoText(c.fecha) + suffix)[..10] == IsoText(c.fecha);
    InversionRow(c.id, c.tipo, c.monto, IsoText(c.fecha) + suffix)
  }

  /** The records the page can be handed: printable dates, and no white space but the blank in `tipo`. */
  predicate Sendable(cocos: seq<Cocos>) {
    forall i :: 0 <= i < |cocos| ==> Printable(cocos[i].fecha) && BlanksOnly(cocos[i].tipo)
  }

  /** The only white space in `t` is the blank. */
  predicate BlanksOnly(t: string) {
    forall k :: 0 <= k < |t| ==> (IsSpace(t[k]) ==> t[k] == ' ')
  }

  function Sent(cocos: seq<Cocos>, suffix: string): (r: seq<InversionRow>)
    requires Sendable(cocos)
    ensures |r| == |cocos| && forall i :: 0 <= i < |cocos| ==> r[i] == AsSent(cocos[i], suffix)
  {
    seq(|cocos|, i requires 0 <= i < |cocos| => AsSent(cocos[i], suffix))
  }

  /** Per record, the page's order and test are the server's. */
  lemma SentAgrees(a: Cocos, b: Cocos, suffix: string)
    requires Printable(a.fecha) && Printable(b.fecha) && BlanksOnly(a.tipo)
    ensures RowIsCaucion(AsSent(a, suffix)) <==> CocosIsCaucion(a)
    ensures ClientLater(AsSent(a, suffix), AsSent(b, suffix)) <==> Later(a, b)
  {
    IsCaucionAgrees(a.tipo);
    IsoLess(b.fecha, a.fecha);
    if IsoText(a.fecha) == IsoText(b.fecha) {
      IsoInjective(a.fecha, b.fecha);
    }
  }

  /**
   * For records whose dates print as ISO text and whose `tipo` carries no
   * white space but the blank, the page picks the same record as the
   * server's `ORDER BY fecha DESC, id DESC LIMIT 1`.
   */
  lemma SameLatestCaucion(cocos: seq<Cocos>, suffix: string)
    requires Sendable(cocos)
    ensures var server := LatestCaucion(cocos);
      UltimaCaucion(Sent(cocos, suffix)) == if server.None? then None else Some(AsSent(server.value, suffix))
  {
    var sent := Sent(cocos, suffix);
    LaterStrictOrder();
    ClientLaterStrictOrder();
    forall i, j | 0 <= i < |cocos| && 0 <= j < |cocos|
      ensures RowIsCaucion(sent[i]) == CocosIsCaucion(cocos[i])
      ensures ClientLater(sent[i], sent[j]) == Later(cocos[i], cocos[j])
    {
      SentAgrees(cocos[i], cocos[j], suffix);
    }
    MaxWhereTransfer(cocos, sent, CocosIsCaucion, RowIsCaucion, Later, ClientLater);
    ReduceIsMax(sent);
  }

  // ---------------------------------------------------------------------
  // Totals and lists
  // ---------------------------------------------------------------------

  /** `activos.reduce((s, a) => s + Number(a.monto), 0)`. */
  function TotalActivos(activos: seq<ActivoRow>): real {
    Sum(activos, ActivoRowMonto)
  }

  /** The non-caución amounts plus the latest caución's, or plus 0 when there is none. */
  function TotalInversiones(inversiones: seq<InversionRow>): (r: real)
    ensures UltimaCaucion(inversiones).None? ==> r == Sum(inversiones, InversionMonto)
  {
    var ultima := UltimaCaucion(inversiones);
    var sinCauciones := SumWhere(inversiones, RowNotCaucion, InversionMonto);
    if ultima.None? then
      SumWhereAll(inversiones, RowNotCaucion, InversionMonto);
      sinCauciones
    else sinCauciones + ultima.value.monto
  }

  /** `grandTotal`: assets and investments; the dollar holdings are not part of it. */
  function GrandTotal(activos: seq<ActivoRow>, inversiones: seq<InversionRow>): real {
    TotalActivos(activos) + TotalInversiones(inversiones)
  }

  /** An asset as the page receives it. */
  function ActivoAsSent(a: Activo, dateText: string): ActivoRow {
    ActivoRow(a.id, a.entidad, a.tipo, a.descripcion, a.monto, dateText)
  }

  lemma {:induction false} SumSentActivos(activos: seq<Activo>, dateText: string)
    ensures Sum(Map((a: Activo) => ActivoAsSent(a, dateText), activos), ActivoRowMonto) == Sum(activos, ActivoMonto)
  {
    if activos != [] {
      var init := activos[..|activos| - 1];
      SumSentActivos(init, dateText);
      assert Map((a: Activo) => ActivoAsSent(a, dateText), activos)[..|init|] == Map((a: Activo) => ActivoAsSent(a, dateText), init);
    }
  }

  lemma SumWhereSent(cocos: seq<Cocos>, suffix: string)
    requires Sendable(cocos)
    ensures SumWhere(Sent(cocos, suffix), RowNotCaucion, InversionMonto) == SumWhere(cocos, CocosNotCaucion, CocosMonto)
  {
    var sent := Sent(cocos, suffix);
    forall i | 0 <= i < |cocos|
      ensures RowNotCaucion(sent[i]) == CocosNotCaucion(cocos[i]) && InversionMonto(sent[i]) == CocosMonto(cocos[i])
    {
      SentAgrees(cocos[i], cocos[i], suffix);
    }
    SumWhereTransfer(cocos, sent, CocosNotCaucion, RowNotCaucion, CocosMonto, InversionMonto);
  }

  /**
   * With the tables sent as they are stored, the page's grand total is the
   * server's net worth without the dollars, so the two totals a user sees
   * differ by exactly the dollar holdings.
   */
  lemma GrandTotalWithoutDolares(activos: seq<Activo>, activoDate: string, cocos: seq<Cocos>, suffix: string,
                                 dolares: seq<Dolar>, config: map<string, string>)
    requires Sendable(cocos)
    ensures var b := GetBreakdown(activos, cocos, dolares, config);
      GrandTotal(Map((a: Activo) => ActivoAsSent(a, activoDate), activos), Sent(cocos, suffix)) == b.totalArs - b.dolaresArs
  {
    SumSentActivos(activos, activoDate);
    SumWhereSent(cocos, suffix);
    SameLatestCaucion(cocos, suffix);
  }

  /** `activos.filter((a) => a.tipo === "activo")`. */
  function ActivosList(activos: seq<ActivoRow>): (r: seq<ActivoRow>)
    ensures forall a :: a in r <==> a in activos && a.tipo == "activo"
  {
    Filter(activos, (a: ActivoRow) => a.tipo == "activo")
  }

  /** `activos.filter((a) => a.tipo === "inversion")`. */
  function InversionesList(activos: seq<ActivoRow>): (r: seq<ActivoRow>)
    ensures forall a :: a in r <==> a in activos && a.tipo == "inversion"
  {
    Filter(activos, (a: ActivoRow) => a.tipo == "inversion")
  }

  /** No row is in both lists, and a row of any other `tipo` is in neither, though the total counts it. */
  lemma ListsSplit(activos: seq<ActivoRow>, a: ActivoRow)
    ensures !(a in ActivosList(activos) && a in InversionesList(activos))
    ensures a.tipo != "activo" && a.tipo != "inversion" ==> a !in ActivosList(activos) && a !in InversionesList(activos)
  {
  }

  // ---------------------------------------------------------------------
  // Cauciones by date
  // ---------------------------------------------------------------------

  /** `String(i.fecha).slice(0, 10)`. */
  function FechaKey(i: InversionRow): string { Prefix10(i.fecha) }

  /**
   * `caucionesByDate`: one entry per date prefix among the cauciones, each
   * the sum of that date's amounts; `keys` is the insertion order, and the
   * entries add up to the sum of every caución.
   */
  method CaucionesByDate(inversiones: seq<InversionRow>) returns (byDate: map<string, real>, keys: seq<string>)
    ensures forall a, b :: 0 <= a < b < |keys| ==> keys[a] != keys[b]
    ensures forall k :: k in byDate <==> k in keys
    ensures forall k :: k in byDate <==> k in Map(FechaKey, Filter(inversiones, RowIsCaucion))
    ensures forall k | k in byDate :: byDate[k] == KeyTotal(Filter(inversiones, RowIsCaucion), FechaKey, InversionMonto, k)
    ensures ValuesTotal(byDate, keys) == SumWhere(inversiones, RowIsCaucion, InversionMonto)
  {
    var cauciones := Filter(inversiones, RowIsCaucion);
    byDate, keys := SumByKey(cauciones, FechaKey, InversionMonto);
    assert cauciones[..|cauciones|] == cauciones;
    SumOfFilter(inversiones, RowIsCaucion, InversionMonto);
  }

  /** A `{ fecha, monto }` entry of the history. */
  datatype CaucionEntry = CaucionEntry(fecha: string, monto: real)

  function EntryFecha(e: CaucionEntry): string { e.fecha }

  /** `b.fecha.localeCompare(a.fecha)` is not positive: `a` may stay ahead of `b`. */
  predicate NewerFirst(a: CaucionEntry, b: CaucionEntry) {
    LessEq(b.fecha, a.fecha)
  }

  lemma NewerFirstTotalPreorder()
    ensures TotalPreorder(NewerFirst)
  {
    forall a, b ensures NewerFirst(a, b) || NewerFirst(b, a) {
      LessTotal(a.fecha, b.fecha);
    }
    forall a, b, c | NewerFirst(a, b) && NewerFirst(b, c) ensures NewerFirst(a, c) {
      LessTransitive(c.fecha, b.fecha, a.fecha);
    }
  }

  /** `Object.entries(byDate).map(([fecha, monto]) => ({ fecha, monto }))`. */
  method Entries(byDate: map<string, real>, keys: seq<string>) returns (entries: seq<CaucionEntry>)
    requires forall k :: k in keys ==> k in byDate
    ensures |entries| == |keys| && forall i :: 0 <= i < |keys| ==> entries[i] == CaucionEntry(keys[i], byDate[keys[i]])
  {
    entries := [];
    var i := 0;
    while i < |keys|
      invariant 0 <= i <= |keys| && |entries| == i
      invariant forall j :: 0 <= j < i ==> entries[j] == CaucionEntry(keys[j], byDate[keys[j]])
    {
      entries := entries + [CaucionEntry(keys[i], byDate[keys[i]])];
      i := i + 1;
    }
  }

  /** Entries with distinct dates, sorted newest first, come out strictly descending with the same elements. */
  lemma SortEntries(entries: seq<CaucionEntry>)
    requires DistinctKeys(entries, EntryFecha)
    ensures var sorted := Sort(entries, NewerFirst);
      (forall i, j :: 0 <= i < j < |sorted| ==> Less(sorted[j].fecha, sorted[i].fecha)) &&
      forall e :: e in sorted <==> e in entries
  {
    var sorted := Sort(entries, NewerFirst);
    NewerFirstTotalPreorder();
    SortSorted(entries, NewerFirst);
    SortKeepsDistinct(entries, NewerFirst, EntryFecha);
    forall e ensures e in sorted <==> e in entries {
      SortSameElements(entries, NewerFirst, e);
    }
    forall i, j | 0 <= i < j < |sorted| ensures Less(sorted[j].fecha, sorted[i].fecha) {
      assert NewerFirst(sorted[i], sorted[j]) && EntryFecha(sorted[i]) != EntryFecha(sorted[j]);
    }
  }

  /** The entries of a map with distinct listed keys, newest first. */
  method NewestEntries(byDate: map<string, real>, keys: seq<string>) returns (historial: seq<CaucionEntry>)
    requires forall a, b :: 0 <= a < b < |keys| ==> keys[a] != keys[b]
    requires forall k :: k in byDate <==> k in keys
    ensures forall i, j :: 0 <= i < j < |historial| ==> Less(historial[j].fecha, historial[i].fecha)
    ensures forall i :: 0 <= i < |historial| ==> historial[i].fecha in byDate && historial[i].monto == byDate[historial[i].fecha]
    ensures forall k :: k in byDate ==> k in Map(EntryFecha, historial)
  {
    var entries := Entries(byDate, keys);
    assert DistinctKeys(entries, EntryFecha);
    historial := Sort(entries, NewerFirst);
    SortEntries(entries);
    forall i | 0 <= i < |historial| ensures historial[i].fecha in byDate && historial[i].monto == byDate[historial[i].fecha] {
      assert historial[i] in entries;
    }
    forall k | k in byDate ensures k in Map(EntryFecha, historial) {
      var j :| 0 <= j < |keys| && keys[j] == k;
      assert entries[j] in historial;
      var m :| 0 <= m < |historial| && historial[m] == entries[j];
      assert Map(EntryFecha, historial)[m] == k;
    }
  }

  /**
   * `caucionesHistorial`: one entry per date among the cauciones, holding
   * that date's sum, strictly descending by date.
   */
  method CaucionesHistorial(inversiones: seq<InversionRow>) returns (historial: seq<CaucionEntry>)
    ensures forall i, j :: 0 <= i < j < |historial| ==> Less(historial[j].fecha, historial[i].fecha)
    ensures var cauciones := Filter(inversiones, RowIsCaucion);
      (forall i :: 0 <= i < |historial| ==>
        historial[i].fecha in Map(FechaKey, cauciones) &&
        historial[i].monto == KeyTotal(cauciones, FechaKey, InversionMonto, historial[i].fecha)) &&
      forall k :: k in Map(FechaKey, cauciones) ==> k in Map(EntryFecha, historial)
  {
    var byDate, keys := CaucionesByDate(inversiones);
    historial := NewestEntries(byDate, keys);
  }

  // ---------------------------------------------------------------------
  // Day-to-day differences
  // ---------------------------------------------------------------------

  /** `caucionesHoy - caucionesAyer`, a missing entry read as 0. */
  function CaucionesDiff(historial: seq<CaucionEntry>): (r: real)
    ensures historial == [] ==> r == 0.0
    ensures |historial| == 1 ==> r == historial[0].monto
    ensures |historial| >= 2 ==> r == historial[0].monto - historial[1].monto
  {
    var hoy := if |historial| > 0 then historial[0].monto else 0.0;
    var ayer := if |historial| > 1 then historial[1].monto else 0.0;
    hoy - ayer
  }

  /** The difference shown beside row `idx`: against the next (older) row, or 0 for the oldest. */
  function RowDiff(historial: seq<CaucionEntry>, idx: nat): (r: real)
    requires idx < |historial|
    ensures idx == |historial| - 1 ==> r == 0.0
  {
    var prev := if idx < |historial| - 1 then historial[idx + 1].monto else historial[idx].monto;
    historial[idx].monto - prev
  }

  /** The headline difference is the first row's, whenever there are two entries. */
  lemma HeadlineIsFirstRow(historial: seq<CaucionEntry>)
    requires |historial| >= 2
    ensures CaucionesDiff(historial) == RowDiff(historial, 0)
  {
  }

  /** The differences of the first `n` rows. */
  function DiffsUpTo(historial: seq<CaucionEntry>, n: nat): real
    requires n <= |historial|
  {
    if n == 0 then 0.0 else DiffsUpTo(historial, n - 1) + RowDiff(historial, n - 1)
  }

  /** The row differences telescope: together they go from the oldest amount to the newest. */
  lemma {:induction false} DiffsTelescope(historial: seq<CaucionEntry>, n: nat)
    requires 0 < n <= |historial|
    ensures DiffsUpTo(historial, n) == historial[0].monto - historial[if n < |historial| then n else n - 1].monto
  {
    if n > 1 {
      DiffsTelescope(historial, n - 1);
    }
  }
}
