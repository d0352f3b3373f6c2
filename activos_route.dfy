/**
 * `/api/activos`: the asset list read back in display order with the last
 * 30 history rows, and the three writes, each followed by an upsert of
 * today's history row with the sum of the assets.
 */
module ActivosRoute {
  import opened Wrappers
  import opened Text
  import opened JsValues
  import opened Calendar
  import opened Sorting
  import opened Sums
  import opened Store
  import opened Patrimonio
  import opened Grouping
  import opened Historial

  /** The JSON body of a POST or PUT; a text field may be missing or `null`. */
  datatype ActivoBody = ActivoBody(entidad: Option<string>, tipo: Option<string>, descripcion: Option<string>, monto: Value)

  /** Every `NOT NULL` column has a value. */
  predicate Complete(b: ActivoBody) {
    b.entidad.Some? && b.tipo.Some? && b.descripcion.Some?
  }

  /** `SELECT COALESCE(SUM(monto), 0) FROM activos`. */
  function ActivosTotal(activos: seq<Activo>): real {
    Sum(activos, ActivoMonto)
  }

  /** Inserting a row adds its amount to the sum of assets. */
  lemma ActivosTotalAppend(activos: seq<Activo>, row: Activo)
    ensures ActivosTotal(activos + [row]) == ActivosTotal(activos) + row.monto
  {
    SumAppend(activos, row, ActivoMonto);
  }

  // ---------------------------------------------------------------------
  // The table operations
  // ---------------------------------------------------------------------

  /** The row `INSERT ... VALUES (..., CURRENT_DATE) RETURNING *` creates. */
  function NewActivo(id: int, b: ActivoBody, today: Date): (a: Activo)
    requires Complete(b)
    ensures a.id == id && a.fecha == today && a.monto == MontoNum(b.monto)
    ensures a.entidad == b.entidad.value && a.tipo == b.tipo.value && a.descripcion == b.descripcion.value
  {
    Activo(id, b.entidad.value, b.tipo.value, b.descripcion.value, MontoNum(b.monto), today)
  }

  predicate HasId(activos: seq<Activo>, id: int) {
    exists i :: 0 <= i < |activos| && activos[i].id == id
  }

  /** The row a PUT leaves: the four edited columns replaced, `id` and `fecha` kept. */
  function Rewritten(a: Activo, b: ActivoBody): (r: Activo)
    requires Complete(b)
    ensures r.id == a.id && r.fecha == a.fecha && r.monto == MontoNum(b.monto)
    ensures r.entidad == b.entidad.value && r.tipo == b.tipo.value && r.descripcion == b.descripcion.value
  {
    a.(entidad := b.entidad.value, tipo := b.tipo.value, descripcion := b.descripcion.value, monto := MontoNum(b.monto))
  }

  /** `UPDATE activos SET ... WHERE id = ${id}`: rows with that id are rewritten, the others kept. */
  function UpdateById(activos: seq<Activo>, id: int, b: ActivoBody): (r: seq<Activo>)
    requires Complete(b)
    ensures |r| == |activos|
    ensures forall i :: 0 <= i < |r| ==> r[i].id == activos[i].id && r[i].fecha == activos[i].fecha
    ensures forall i :: 0 <= i < |r| && activos[i].id != id ==> r[i] == activos[i]
    ensures forall i :: 0 <= i < |r| && activos[i].id == id ==> r[i] == Rewritten(activos[i], b)
  {
    seq(|activos|, i requires 0 <= i < |activos| => if activos[i].id == id then Rewritten(activos[i], b) else activos[i])
  }

  /** An unknown id changes no row. */
  lemma UpdateUnknownId(activos: seq<Activo>, id: int, b: ActivoBody)
    requires Complete(b) && !HasId(activos, id)
    ensures UpdateById(activos, id, b) == activos
  {
  }

  /** Updating the row with a unique id moves the total by the change of its amount. */
  lemma {:induction false} UpdateTotal(activos: seq<Activo>, id: int, b: ActivoBody, k: int)
    requires Complete(b) && 0 <= k < |activos| && activos[k].id == id
    requires forall i :: 0 <= i < |activos| && i != k ==> activos[i].id != id
    ensures ActivosTotal(UpdateById(activos, id, b)) == ActivosTotal(activos) - activos[k].monto + MontoNum(b.monto)
  {
    var n := |activos| - 1;
    var init := activos[..n];
    assert UpdateById(activos, id, b)[..n] == UpdateById(init, id, b);
    if k < n {
      UpdateTotal(init, id, b, k);
    } else {
      UpdateUnknownId(init, id, b);
    }
  }

  /** The rows a `WHERE id = ${id}` does not match. */
  function Other(id: int): Activo -> bool {
    (a: Activo) => a.id != id
  }

  /** `DELETE FROM activos WHERE id = ${id}`: the other rows, in their order. */
  function DeleteById(activos: seq<Activo>, id: int): (r: seq<Activo>)
    ensures |r| <= |activos|
    ensures forall i :: 0 <= i < |r| ==> r[i] in activos && r[i].id != id
    ensures forall i :: 0 <= i < |activos| && activos[i].id != id ==> activos[i] in r
  {
    Filter(activos, Other(id))
  }

  function ActivoId(a: Activo): int { a.id }

  /** Deleting keeps the remaining ids distinct. */
  lemma DeleteKeepsIds(activos: seq<Activo>, id: int, serial: int)
    requires ActivoIds(activos, serial)
    ensures ActivoIds(DeleteById(activos, id), serial)
  {
    var r := Filter(activos, Other(id));
    FilterKeepsDistinct(activos, Other(id), ActivoId);
    forall i, j | 0 <= i < j < |r| ensures r[i].id != r[j].id {
      var key := ActivoId;
      assert key(r[i]) != key(r[j]);
    }
    forall i | 0 <= i < |r| ensures 0 < r[i].id < serial {
      var m :| 0 <= m < |activos| && activos[m] == r[i];
    }
  }

  /** An unknown id deletes nothing. */
  lemma DeleteUnknownId(activos: seq<Activo>, id: int)
    requires !HasId(activos, id)
    ensures DeleteById(activos, id) == activos
  {
    FilterAll(activos, Other(id));
  }

  /** Deleting the row with a unique id takes its amount off the total. */
  lemma DeleteTotal(activos: seq<Activo>, id: int, k: int)
    requires 0 <= k < |activos| && activos[k].id == id
    requires forall i :: 0 <= i < |activos| && i != k ==> activos[i].id != id
    ensures ActivosTotal(DeleteById(activos, id)) == ActivosTotal(activos) - activos[k].monto
  {
    SumOfFilter(activos, Other(id), ActivoMonto);
    SumWhereAllBut(activos, Other(id), ActivoMonto, k);
  }

  /** The first row with the id: `rows[0]` of `UPDATE ... RETURNING *`. */
  function RowWithId(activos: seq<Activo>, id: int): (r: Option<Activo>)
    ensures r.None? <==> !HasId(activos, id)
    ensures r.Some? ==> r.value in activos && r.value.id == id
  {
    if activos == [] then None
    else if activos[0].id == id then Some(activos[0])
    else
      var r := RowWithId(activos[1..], id);
      assert HasId(activos[1..], id) <==> HasId(activos, id) by {
        if HasId(activos, id) {
          var i :| 0 <= i < |activos| && activos[i].id == id;
          assert activos[1..][i - 1].id == id;
        }
      }
      r
  }

  // ---------------------------------------------------------------------
  // The handlers
  // ---------------------------------------------------------------------

  /** `ORDER BY entidad, tipo, descripcion`: `a` may come before `b`. */
  predicate ListOrder(a: Activo, b: Activo) {
    Less(a.entidad, b.entidad) || (a.entidad == b.entidad &&
      (Less(a.tipo, b.tipo) || (a.tipo == b.tipo && LessEq(a.descripcion, b.descripcion))))
  }

  lemma ListOrderTotalPreorder()
    ensures TotalPreorder(ListOrder)
  {
    forall a, b ensures ListOrder(a, b) || ListOrder(b, a) {
      LessTotal(a.entidad, b.entidad);
      LessTotal(a.tipo, b.tipo);
      LessTotal(a.descripcion, b.descripcion);
    }
    forall a, b, c | ListOrder(a, b) && ListOrder(b, c) ensures ListOrder(a, c) {
      LessTransitive(a.entidad, b.entidad, c.entidad);
      LessTransitive(a.tipo, b.tipo, c.tipo);
      LessTransitive(a.descripcion, b.descripcion, c.descripcion);
    }
  }

  /** `GET`: every asset in display order, and the newest 30 history rows, newest first. */
  method Get(db: Db) returns (activos: seq<Activo>, historial: seq<HistoryRow>)
    ensures SortedBy(activos, ListOrder) && multiset(activos) == multiset(db.activos)
    ensures |historial| == if |db.historial.Keys| < 30 then |db.historial.Keys| else 30
    ensures forall i :: 0 <= i < |historial| ==> historial[i].fecha in db.historial && historial[i].total == db.historial[historial[i].fecha]
    ensures forall i, j :: 0 <= i < j < |historial| ==> Before(historial[j].fecha, historial[i].fecha)
    ensures forall d, i :: d in db.historial && d !in Map(Fecha, historial) && 0 <= i < |historial| ==> Before(d, historial[i].fecha)
  {
    ListOrderTotalPreorder();
    SortSorted(db.activos, ListOrder);
    activos := Sort(db.activos, ListOrder);
    historial := NewestFirst(db.historial, 30);
  }

  /** The history upsert every write ends with. */
  method UpsertToday(db: Db, today: Date)
    modifies db`historial
    ensures db.historial == SyncedHistory(old(db.historial), today, ActivosTotal(db.activos))
  {
    db.historial := db.historial[today := ActivosTotal(db.activos)];
  }

  /**
   * These routes and the net-worth sync write the same history date, the
   * routes with the assets alone and the sync with the whole breakdown: the
   * two totals agree only when Cocos and dollars together add up to zero.
   */
  lemma TodayTotalsAgreeIff(h: map<Date, real>, today: Date, activos: seq<Activo>, cocos: seq<Cocos>,
                            dolares: seq<Dolar>, config: map<string, string>)
    ensures var b := GetBreakdown(activos, cocos, dolares, config);
      SyncedHistory(h, today, ActivosTotal(activos))[today] == SyncedHistory(h, today, b.totalArs)[today]
      <==> b.cocosSinCaucionesArs + b.ultimaCaucionArs + b.dolaresArs == 0.0
  {
  }

  /**
   * `POST`: inserts one row dated today with the next id, then stores the
   * new sum of assets as today's history total. A missing text field fails
   * the insert's `NOT NULL` check, which still draws an id from the sequence.
   */
  method Post(db: Db, body: ActivoBody, today: Date) returns (r: Result<Activo>)
    requires db.Valid()
    modifies db`activos, db`activoSerial, db`historial
    ensures db.Valid() && db.activoSerial == old(db.activoSerial) + 1
    ensures r.ServerError? <==> !Complete(body)
    ensures r.ServerError? ==> db.activos == old(db.activos) && db.historial == old(db.historial)
    ensures r.Ok? ==> r.value == NewActivo(old(db.activoSerial), body, today) && db.activos == old(db.activos) + [r.value]
    ensures r.Ok? ==> db.historial == SyncedHistory(old(db.historial), today, ActivosTotal(db.activos))
  {
    var id := db.activoSerial;
    db.activoSerial := db.activoSerial + 1;
    if !Complete(body) {
      return ServerError;
    }
    var row := NewActivo(id, body, today);
    assert forall i :: 0 <= i < |db.activos| ==> db.activos[i].id < id;
    db.activos := db.activos + [row];
    assert ActivoIds(db.activos, db.activoSerial);
    UpsertToday(db, today);
    r := Ok(row);
  }

  /**
   * `PUT`: rewrites the row with the id, keeping its `fecha`, and stores the
   * new sum as today's total even when no row matched. A missing text field
   * fails the update's `NOT NULL` check, but only when some row matches.
   * The response is the updated row; with no row to send, `rows[0]` is
   * `undefined`, which the JSON response cannot serialise, so the request
   * then fails after the history has been written.
   */
  method Put(db: Db, id: int, body: ActivoBody, today: Date) returns (r: Result<Activo>)
    requires db.Valid()
    modifies db`activos, db`historial
    ensures db.Valid()
    ensures r.ServerError? <==> !HasId(old(db.activos), id) || !Complete(body)
    ensures !Complete(body) && HasId(old(db.activos), id) ==>
      db.activos == old(db.activos) && db.historial == old(db.historial)
    ensures !(!Complete(body) && HasId(old(db.activos), id)) ==>
      db.activos == (if Complete(body) then UpdateById(old(db.activos), id, body) else old(db.activos)) &&
      db.historial == SyncedHistory(old(db.historial), today, ActivosTotal(db.activos))
    ensures r.Ok? ==> RowWithId(db.activos, id) == Some(r.value)
  {
    if !Complete(body) {
      if HasId(db.activos, id) {
        return ServerError;
      }
    } else {
      UpdateKeepsHasId(db.activos, id, body);
      db.activos := UpdateById(db.activos, id, body);
    }
    UpsertToday(db, today);
    var row := RowWithId(db.activos, id);
    if row.None? {
      return ServerError;
    }
    r := Ok(row.value);
  }

  /** An update rewrites rows in place, so the id is present afterwards exactly when it was before. */
  lemma UpdateKeepsHasId(activos: seq<Activo>, id: int, b: ActivoBody)
    requires Complete(b)
    ensures HasId(UpdateById(activos, id, b), id) <==> HasId(activos, id)
  {
    var r := UpdateById(activos, id, b);
    if HasId(activos, id) {
      var i :| 0 <= i < |activos| && activos[i].id == id;
      assert r[i].id == id;
    }
    if HasId(r, id) {
      var i :| 0 <= i < |r| && r[i].id == id;
      assert activos[i].id == id;
    }
  }

  /** `DELETE`: removes the rows with the id and stores the new sum as today's total. */
  method Delete(db: Db, id: int, today: Date)
    requires db.Valid()
    modifies db`activos, db`historial
    ensures db.Valid()
    ensures db.activos == DeleteById(old(db.activos), id)
    ensures db.historial == SyncedHistory(old(db.historial), today, ActivosTotal(db.activos))
  {
    DeleteKeepsIds(db.activos, id, db.activoSerial);
    db.activos := DeleteById(db.activos, id);
    UpsertToday(db, today);
  }
}
