/**
 * The PostgreSQL tables the routes read and write, as records and one
 * object holding every table. A `SERIAL` column is a counter field: the
 * next id the table hands out.
 */
module Store {
  import opened Wrappers
  import opened JsValues
  import opened Calendar
  import opened EgresosNormalize

  /** A row of `activos`. */
  datatype Activo = Activo(id: int, entidad: string, tipo: string, descripcion: string, monto: real, fecha: Date)

  /** A row of `inversiones_cocos`; `fecha` is always the insert date. */
  datatype Cocos = Cocos(id: int, tipo: string, monto: real, fecha: Date)

  /** A row of `dolares`: an amount in US dollars. */
  datatype Dolar = Dolar(id: int, ubicacion: string, monto: real)

  /** A row of `ingresos`. */
  datatype Ingreso = Ingreso(id: int, anio: int, mes: int, categoria: string, monto: real)

  /** A row of `egresos`; `updatedAt` is the `updated_at` timestamp in milliseconds. */
  datatype EgresoRecord = EgresoRecord(id: int, anio: int, mes: int, categoria: string, subcategoria: string,
                                       monto: real, updatedAt: Option<int>)

  /** `Number(monto) || 0`. */
  function MontoNum(v: Value): (r: real)
    ensures ToNumber(v).Some? && ToNumber(v).value != 0.0 ==> r == ToNumber(v).value
    ensures ToNumber(v).None? || ToNumber(v).value == 0.0 ==> r == 0.0
  {
    NumberOr(v, 0.0)
  }

  /** A row as the driver hands it to `dedupeEgresos`: every column present, the amount a number. */
  function AsEgreso(r: EgresoRecord): (e: Egreso)
    ensures e.id == Some(r.id) && e.anio == Some(r.anio) && e.mes == Some(r.mes)
    ensures e.categoria == Some(r.categoria) && e.subcategoria == Some(r.subcategoria)
    ensures e.monto == Num(r.monto) && e.updatedAt == r.updatedAt
  {
    Egreso(Some(r.id), Some(r.anio), Some(r.mes), Some(r.categoria), Some(r.subcategoria), Num(r.monto), r.updatedAt)
  }

  /** `UNIQUE(anio, mes, categoria)` of `ingresos`. */
  predicate UniqueIngresoKeys(s: seq<Ingreso>) {
    forall i, j :: 0 <= i < j < |s| ==> (s[i].anio, s[i].mes, s[i].categoria) != (s[j].anio, s[j].mes, s[j].categoria)
  }

  /** A primary key: ids are distinct and were handed out by a counter now at `serial`. */
  predicate IngresoIds(s: seq<Ingreso>, serial: int) {
    (forall i :: 0 <= i < |s| ==> 0 < s[i].id < serial) &&
    (forall i, j :: 0 <= i < j < |s| ==> s[i].id != s[j].id)
  }

  predicate ActivoIds(s: seq<Activo>, serial: int) {
    (forall i :: 0 <= i < |s| ==> 0 < s[i].id < serial) &&
    (forall i, j :: 0 <= i < j < |s| ==> s[i].id != s[j].id)
  }

  /** The database: one field per table, `activos_historial` keyed by its unique `fecha`. */
  class Db {
    var activos: seq<Activo>
    var cocos: seq<Cocos>
    var dolares: seq<Dolar>
    var ingresos: seq<Ingreso>
    var egresos: seq<EgresoRecord>
    var config: map<string, string>
    var historial: map<Date, real>
    var activoSerial: int
    var ingresoSerial: int

    /** The table constraints the modelled writes rely on and keep. */
    predicate Valid()
      reads this
    {
      activoSerial >= 1 && ingresoSerial >= 1 &&
      ActivoIds(activos, activoSerial) && IngresoIds(ingresos, ingresoSerial) && UniqueIngresoKeys(ingresos)
    }

    /** A freshly initialised database: empty tables and the two seeded settings. */
    constructor ()
      ensures activos == [] && cocos == [] && dolares == [] && ingresos == [] && egresos == []
      ensures config == map["cotizacion_dolar" := "1000", "moneda_display" := "ARS"]
      ensures historial == map[] && activoSerial == 1 && ingresoSerial == 1
      ensures Valid()
    {
      activos, cocos, dolares, ingresos, egresos := [], [], [], [], [];
      config := map["cotizacion_dolar" := "1000", "moneda_display" := "ARS"];
      historial := map[];
      activoSerial, ingresoSerial := 1, 1;
    }
  }
}
