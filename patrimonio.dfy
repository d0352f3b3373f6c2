/**
 * The net-worth engine: the breakdown of the ARS total from the tables, the
 * upsert of today's total into the history, and the comparison with
 * yesterday's stored total.
 */
module Patrimonio {
  import opened Wrappers
  import opened Text
  import opened JsValues
  import opened Calendar
  import opened Sums
  import opened Store

  /** `UPPER(TRIM(tipo)) = 'CAUCIONES'`: SQL's `TRIM` strips blanks only. */
  predicate IsCaucionSql(tipo: string) {
    ToUpper(SqlTrim(tipo)) == "CAUCIONES"
  }

  predicate CocosIsCaucion(c: Cocos) {
    IsCaucionSql(c.tipo)
  }

  predicate CocosNotCaucion(c: Cocos) {
    !IsCaucionSql(c.tipo)
  }

  function ActivoMonto(a: Activo): real { a.monto }
  function CocosMonto(c: Cocos): real { c.monto }
  function DolarMonto(d: Dolar): real { d.monto }

  /** `a` sorts ahead of `b` under `ORDER BY fecha DESC, id DESC`. */
  predicate Later(a: Cocos, b: Cocos) {
    Before(b.fecha, a.fecha) || (a.fecha == b.fecha && a.id > b.id)
  }

  /** The primary key of `inversiones_cocos`. */
  predicate DistinctCocosIds(s: seq<Cocos>) {
    forall i, j :: 0 <= i < j < |s| ==> s[i].id != s[j].id
  }

  lemma LaterStrictOrder()
    ensures StrictOrder(Later)
  {
  }

  /**
   * `... WHERE UPPER(TRIM(tipo)) = 'CAUCIONES' ORDER BY fecha DESC, id DESC LIMIT 1`:
   * a caución that no other caución sorts ahead of, or none when there is no caución.
   */
  function LatestCaucion(s: seq<Cocos>): (r: Option<Cocos>)
    ensures r.None? <==> forall i :: 0 <= i < |s| ==> !CocosIsCaucion(s[i])
    ensures r.Some? ==> r.value in s && CocosIsCaucion(r.value)
    ensures r.Some? ==> forall i :: 0 <= i < |s| && CocosIsCaucion(s[i]) ==> !Later(s[i], r.value)
  {
    LaterStrictOrder();
    MaxWhere(s, CocosIsCaucion, Later)
  }

  /** With distinct ids there is exactly one such caución, so the query's answer is determined. */
  lemma LatestCaucionUnique(s: seq<Cocos>, c: Cocos)
    requires DistinctCocosIds(s)
    requires c in s && CocosIsCaucion(c)
    requires forall i :: 0 <= i < |s| && CocosIsCaucion(s[i]) ==> !Later(s[i], c)
    ensures LatestCaucion(s) == Some(c)
  {
    var r := LatestCaucion(s).value;
    var i :| 0 <= i < |s| && s[i] == c;
    var j :| 0 <= j < |s| && s[j] == r;
    assert !Later(s[j], c) && !Later(c, r);
    BeforeTotal(c.fecha, r.fecha);
    assert s[i].id == s[j].id;
  }

  /** `Number(value || 1000) || 1000` for the `cotizacion_dolar` setting. */
  function Cotizacion(config: map<string, string>): (r: real)
    ensures r != 0.0
    ensures r == if "cotizacion_dolar" in config && ParseNumber(config["cotizacion_dolar"]).Some?
                    && ParseNumber(config["cotizacion_dolar"]).value != 0.0
                 then ParseNumber(config["cotizacion_dolar"]).value else 1000.0
  {
    var value := if "cotizacion_dolar" in config then Str(config["cotizacion_dolar"]) else Undefined;
    NumberOr(Or(value, Num(1000.0)), 1000.0)
  }

  /** Dollars converted at the rate. */
  function ToArs(usd: real, rate: real): real {
    usd * rate
  }

  /** The `PatrimonioBreakdown` record. */
  datatype Breakdown = Breakdown(
    activosArs: real,
    cocosSinCaucionesArs: real,
    ultimaCaucionArs: real,
    ultimaCaucionFecha: Option<Date>,
    dolaresUsd: real,
    cotizacionDolar: real,
    dolaresArs: real,
    totalArs: real)

  /** `getPatrimonioBreakdown` over the four tables it reads. */
  function GetBreakdown(activos: seq<Activo>, cocos: seq<Cocos>, dolares: seq<Dolar>,
                        config: map<string, string>): (b: Breakdown)
    ensures b.totalArs == b.activosArs + b.cocosSinCaucionesArs + b.ultimaCaucionArs + b.dolaresArs
    ensures b.dolaresArs == ToArs(b.dolaresUsd, b.cotizacionDolar)
    ensures b.activosArs == Sum(activos, ActivoMonto) && b.dolaresUsd == Sum(dolares, DolarMonto)
    ensures b.cotizacionDolar == Cotizacion(config)
    ensures b.cocosSinCaucionesArs == SumWhere(cocos, CocosNotCaucion, CocosMonto)
    ensures b.ultimaCaucionFecha.None? <==> forall i :: 0 <= i < |cocos| ==> !CocosIsCaucion(cocos[i])
    ensures b.ultimaCaucionFecha.None? ==> b.ultimaCaucionArs == 0.0
    ensures b.ultimaCaucionFecha.Some? ==>
      b.ultimaCaucionFecha == Some(LatestCaucion(cocos).value.fecha) && b.ultimaCaucionArs == LatestCaucion(cocos).value.monto
  {
    var activosArs := Sum(activos, ActivoMonto);
    var sinCauciones := SumWhere(cocos, CocosNotCaucion, CocosMonto);
    var ultima := LatestCaucion(cocos);
    var ultimaArs := if ultima.Some? then ultima.value.monto else 0.0;
    var ultimaFecha := if ultima.Some? then Some(ultima.value.fecha) else None;
    var usd := Sum(dolares, DolarMonto);
    var cotizacion := Cotizacion(config);
    var dolaresArs := ToArs(usd, cotizacion);
    Breakdown(activosArs, sinCauciones, ultimaArs, ultimaFecha, usd, cotizacion, dolaresArs,
              activosArs + sinCauciones + ultimaArs + dolaresArs)
  }

  /**
   * The sum without cauciones is the table's sum less every caución: in the
   * total each non-caución record counts once and the cauciones are replaced
   * by the latest one alone.
   */
  lemma CocosCountedOnce(cocos: seq<Cocos>)
    ensures SumWhere(cocos, CocosNotCaucion, CocosMonto)
      == Sum(cocos, CocosMonto) - SumWhere(cocos, CocosIsCaucion, CocosMonto)
  {
    SumPartition(cocos, CocosIsCaucion, CocosMonto);
    SumWhereCongruent(cocos, x => !CocosIsCaucion(x), CocosNotCaucion, CocosMonto);
  }

  /** With no caución at all the Cocos part is the plain sum of the table. */
  lemma NoCaucionesCountAll(activos: seq<Activo>, cocos: seq<Cocos>, dolares: seq<Dolar>, config: map<string, string>)
    requires forall i :: 0 <= i < |cocos| ==> !CocosIsCaucion(cocos[i])
    ensures var b := GetBreakdown(activos, cocos, dolares, config);
      b.cocosSinCaucionesArs + b.ultimaCaucionArs == Sum(cocos, CocosMonto)
  {
    CocosCountedOnce(cocos);
    SumWhereNone(cocos, CocosIsCaucion, CocosMonto);
  }

  /** `INSERT INTO activos_historial ... ON CONFLICT (fecha) DO UPDATE`: the history after a sync. */
  function SyncedHistory(h: map<Date, real>, today: Date, total: real): (r: map<Date, real>)
    ensures today in r && r[today] == total
    ensures forall d :: d != today ==> (d in r <==> d in h) && (d in h ==> r[d] == h[d])
  {
    h[today := total]
  }

  /** Syncing twice with the same tables leaves the history as one sync does. */
  lemma SyncIdempotent(h: map<Date, real>, today: Date, total: real)
    ensures SyncedHistory(SyncedHistory(h, today, total), today, total) == SyncedHistory(h, today, total)
  {
  }

  /** The row stored for a date, if any. */
  function Lookup(h: map<Date, real>, d: Date): (r: Option<real>)
    ensures r.Some? <==> d in h
    ensures r.Some? ==> r.value == h[d]
  {
    if d in h then Some(h[d]) else None
  }

  /** The `PatrimonioComparacion` record. */
  datatype Comparacion = Comparacion(
    hoyFecha: Date,
    ayerFecha: Date,
    hoyTotal: real,
    ayerTotal: real,
    variacion: real,
    variacionPct: Option<real>,
    tieneDatoAyer: bool)

  /** The comparison of today's total with the row stored for yesterday, if any. */
  function Compare(today: Date, hoyTotal: real, ayerRow: Option<real>): (c: Comparacion)
    requires Valid(today)
    ensures c.hoyFecha == today && c.ayerFecha == PrevDay(today) && c.hoyTotal == hoyTotal
    ensures c.ayerTotal == (if ayerRow.Some? then ayerRow.value else 0.0)
    ensures c.variacion == hoyTotal - c.ayerTotal
    ensures c.variacionPct.Some? <==> c.ayerTotal > 0.0
    ensures c.variacionPct.Some? ==> c.variacionPct.value * c.ayerTotal == c.variacion * 100.0
    ensures c.tieneDatoAyer <==> c.ayerTotal > 0.0
  {
    var ayer := if ayerRow.Some? then ayerRow.value else 0.0;
    var variacion := hoyTotal - ayer;
    Comparacion(today, PrevDay(today), hoyTotal, ayer, variacion,
                if ayer > 0.0 then Some((variacion / ayer) * 100.0) else None, ayer > 0.0)
  }

  /** A stored zero and a missing row give the same comparison. */
  lemma MissingAsZero(today: Date, hoyTotal: real)
    requires Valid(today)
    ensures Compare(today, hoyTotal, None) == Compare(today, hoyTotal, Some(0.0))
    ensures !Compare(today, hoyTotal, None).tieneDatoAyer && Compare(today, hoyTotal, None).variacionPct.None?
  {
  }

  /** Applying the percentage to yesterday's total gives back today's. */
  lemma PctRecoversToday(today: Date, hoyTotal: real, ayerRow: Option<real>)
    requires Valid(today)
    ensures var c := Compare(today, hoyTotal, ayerRow);
      c.variacionPct.Some? ==> c.ayerTotal * (1.0 + c.variacionPct.value / 100.0) == hoyTotal
  {
    var c := Compare(today, hoyTotal, ayerRow);
    if c.variacionPct.Some? {
      var p := c.variacionPct.value;
      calc {
        c.ayerTotal * (1.0 + p / 100.0);
        c.ayerTotal + (p * c.ayerTotal) / 100.0;
        c.ayerTotal + c.variacion;
      }
    }
  }

  /** `syncPatrimonioHistorial`: stores today's breakdown total and returns it. */
  method SyncPatrimonioHistorial(db: Db, today: Date) returns (total: real)
    modifies db`historial
    ensures total == GetBreakdown(db.activos, db.cocos, db.dolares, db.config).totalArs
    ensures db.historial == SyncedHistory(old(db.historial), today, total)
  {
    total := GetBreakdown(db.activos, db.cocos, db.dolares, db.config).totalArs;
    db.historial := db.historial[today := total];
  }

  /**
   * `getPatrimonioComparacion`: syncs, then compares with yesterday's row,
   * which the sync cannot have touched.
   */
  method GetPatrimonioComparacion(db: Db, today: Date) returns (c: Comparacion)
    requires Valid(today)
    modifies db`historial
    ensures var total := GetBreakdown(db.activos, db.cocos, db.dolares, db.config).totalArs;
      db.historial == SyncedHistory(old(db.historial), today, total) &&
      c == Compare(today, total, Lookup(old(db.historial), PrevDay(today)))
  {
    var todayTotal := SyncPatrimonioHistorial(db, today);
    var ayer := PrevDay(today);
    c := Compare(today, todayTotal, Lookup(db.historial, ayer));
  }
}
