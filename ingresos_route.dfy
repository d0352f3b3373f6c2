/**
 * `/api/ingresos`: the month's income rows by category, the save that
 * either edits a row by id or inserts with an upsert on
 * `(anio, mes, categoria)`, and the delete by id.
 */
module IngresosRoute {
  import opened Wrappers
  import opened Text
  import opened JsValues
  import opened Sorting
  import opened Sums
  import opened Store
  import opened MonthSelector

  /** The JSON body of a POST; `anio` and `mes` as the integers PostgreSQL casts them to. */
  datatype IngresoBody = IngresoBody(id: Value, anio: Option<int>, mes: Option<int>, categoria: Option<string>, monto: Value)

  /** The `UNIQUE(anio, mes, categoria)` key of a row. */
  function KeyOf(r: Ingreso): (int, int, string) { (r.anio, r.mes, r.categoria) }

  function IngresoId(r: Ingreso): int { r.id }

  // ---------------------------------------------------------------------
  // GET
  // ---------------------------------------------------------------------

  /** `WHERE anio = ${anio} AND mes = ${mes}`, the parameters being JavaScript numbers. */
  function InPeriod(anio: real, mes: real): Ingreso -> bool {
    (r: Ingreso) => r.anio as real == anio && r.mes as real == mes
  }

  /** `ORDER BY categoria`: `a` may come before `b`. */
  predicate CategoriaOrder(a: Ingreso, b: Ingreso) {
    LessEq(a.categoria, b.categoria)
  }

  lemma CategoriaOrderTotalPreorder()
    ensures TotalPreorder(CategoriaOrder)
  {
    forall a, b ensures CategoriaOrder(a, b) || CategoriaOrder(b, a) {
      LessTotal(a.categoria, b.categoria);
    }
    forall a, b, c | CategoriaOrder(a, b) && CategoriaOrder(b, c) ensures CategoriaOrder(a, c) {
      LessTransitive(a.categoria, b.categoria, c.categoria);
    }
  }

  /**
   * `GET`: the rows of the requested month ordered by category; a missing,
   * zero or non-numeric `anio` or `mes` is the current one (`now`).
   */
  method Get(db: Db, anioParam: Option<string>, mesParam: Option<string>, now: Month) returns (rows: seq<Ingreso>)
    ensures var anio := NumberParamOr(anioParam, now.anio as real);
      var mes := NumberParamOr(mesParam, now.mes as real);
      multiset(rows) == multiset(Filter(db.ingresos, InPeriod(anio, mes))) &&
      forall i :: 0 <= i < |rows| ==> rows[i] in db.ingresos && rows[i].anio as real == anio && rows[i].mes as real == mes
    ensures SortedBy(rows, CategoriaOrder)
  {
    var anio := NumberParamOr(anioParam, now.anio as real);
    var mes := NumberParamOr(mesParam, now.mes as real);
    var matching := Filter(db.ingresos, InPeriod(anio, mes));
    CategoriaOrderTotalPreorder();
    SortSorted(matching, CategoriaOrder);
    rows := Sort(matching, CategoriaOrder);
    forall i | 0 <= i < |rows| ensures rows[i] in matching {
      SortSameElements(matching, CategoriaOrder, rows[i]);
    }
  }

  // ---------------------------------------------------------------------
  // POST by id
  // ---------------------------------------------------------------------

  /** `Number(id) > 0`: the body names a row to edit. */
  predicate ByIdBranch(id: Value) {
    ToNumber(id).Some? && ToNumber(id).value > 0.0
  }

  /** `id` is an integer: PostgreSQL refuses any other text for the `id = $1` parameter. */
  predicate Integral(id: real) { id.Floor as real == id }

  predicate Matches(r: Ingreso, id: real) { r.id as real == id }

  predicate HasRow(s: seq<Ingreso>, id: real) {
    exists i :: 0 <= i < |s| && Matches(s[i], id)
  }

  /** Giving the matched row the category `c` collides with another row's key. */
  predicate Collides(s: seq<Ingreso>, id: real, c: string) {
    exists i, j :: 0 <= i < |s| && 0 <= j < |s| && i != j && Matches(s[i], id) && KeyOf(s[j]) == (s[i].anio, s[i].mes, c)
  }

  /** `UPDATE ingresos SET categoria = ${c}, monto = ${monto} WHERE id = ${id}`. */
  function UpdateById(s: seq<Ingreso>, id: real, c: string, monto: real): (r: seq<Ingreso>)
    ensures |r| == |s|
    ensures forall i :: 0 <= i < |s| ==> r[i].id == s[i].id && r[i].anio == s[i].anio && r[i].mes == s[i].mes
    ensures forall i :: 0 <= i < |s| && Matches(s[i], id) ==> r[i].categoria == c && r[i].monto == monto
    ensures forall i :: 0 <= i < |s| && !Matches(s[i], id) ==> r[i] == s[i]
  {
    seq(|s|, i requires 0 <= i < |s| => if Matches(s[i], id) then s[i].(categoria := c, monto := monto) else s[i])
  }

  /** Without a collision the edit keeps the keys unique. */
  lemma UpdateKeepsKeys(s: seq<Ingreso>, id: real, c: string, monto: real)
    requires UniqueIngresoKeys(s) && !Collides(s, id, c)
    requires forall i, j :: 0 <= i < j < |s| ==> s[i].id != s[j].id
    ensures UniqueIngresoKeys(UpdateById(s, id, c, monto))
  {
    var r := UpdateById(s, id, c, monto);
    forall i, j | 0 <= i < j < |s| ensures KeyOf(r[i]) != KeyOf(r[j]) {
      if Matches(s[i], id) {
        assert !Matches(s[j], id);
        assert KeyOf(s[j]) != (s[i].anio, s[i].mes, c);
      } else if Matches(s[j], id) {
        assert KeyOf(s[i]) != (s[j].anio, s[j].mes, c);
      }
    }
  }

  /** The first row with the id, or `null`: `rows[0] || null`. */
  function RowWithId(s: seq<Ingreso>, id: real): (r: Option<Ingreso>)
    ensures r.None? <==> !HasRow(s, id)
    ensures r.Some? ==> r.value in s && Matches(r.value, id)
  {
    if s == [] then None
    else if Matches(s[0], id) then Some(s[0])
    else
      assert HasRow(s[1..], id) <==> HasRow(s, id) by {
        if HasRow(s, id) {
          var i :| 0 <= i < |s| && Matches(s[i], id);
          assert Matches(s[1..][i - 1], id);
        }
      }
      RowWithId(s[1..], id)
  }

  // ---------------------------------------------------------------------
  // POST without an id
  // ---------------------------------------------------------------------

  /** The index of the row with the key, if any. */
  function FindKey(s: seq<Ingreso>, key: (int, int, string)): (k: Option<nat>)
    ensures k.None? <==> forall i :: 0 <= i < |s| ==> KeyOf(s[i]) != key
    ensures k.Some? ==> k.value < |s| && KeyOf(s[k.value]) == key
  {
    if s == [] then None
    else if KeyOf(s[|s| - 1]) == key then Some(|s| - 1)
    else FindKey(s[..|s| - 1], key)
  }

  /**
   * `INSERT ... ON CONFLICT (anio, mes, categoria) DO UPDATE SET monto`:
   * a row with the key gets the new amount and nothing else; otherwise a
   * new row with the given id is appended.
   */
  function Upserted(s: seq<Ingreso>, id: int, anio: int, mes: int, c: string, monto: real): (r: seq<Ingreso>)
    ensures FindKey(s, (anio, mes, c)).Some? ==>
      var k := FindKey(s, (anio, mes, c)).value;
      |r| == |s| && r[k] == s[k].(monto := monto) && forall i :: 0 <= i < |s| && i != k ==> r[i] == s[i]
    ensures FindKey(s, (anio, mes, c)).None? ==> r == s + [Ingreso(id, anio, mes, c, monto)]
  {
    match FindKey(s, (anio, mes, c))
    case Some(k) => s[k := s[k].(monto := monto)]
    case None => s + [Ingreso(id, anio, mes, c, monto)]
  }

  /** The upsert never duplicates a key, and afterwards the key's row holds the new amount. */
  lemma UpsertKeepsKeys(s: seq<Ingreso>, id: int, anio: int, mes: int, c: string, monto: real)
    requires UniqueIngresoKeys(s)
    ensures var r := Upserted(s, id, anio, mes, c, monto);
      UniqueIngresoKeys(r) && FindKey(r, (anio, mes, c)).Some? && r[FindKey(r, (anio, mes, c)).value].monto == monto
  {
    var r := Upserted(s, id, anio, mes, c, monto);
    var key := (anio, mes, c);
    var found := FindKey(s, key);
    forall i, j | 0 <= i < j < |r| ensures KeyOf(r[i]) != KeyOf(r[j]) {
      if found.None? && j == |s| {
        assert r[i] == s[i];
      } else {
        assert KeyOf(r[i]) == KeyOf(s[i]) && KeyOf(r[j]) == KeyOf(s[j]);
      }
    }
    var k := FindKey(r, key).value;
    if found.Some? {
      assert KeyOf(r[k]) == KeyOf(r[found.value]);
    } else {
      assert KeyOf(r[|s|]) == key;
    }
  }

  // ---------------------------------------------------------------------
  // The handlers that write
  // ---------------------------------------------------------------------

  /** The upsert hands out `serial` at most once, so the ids stay a primary key. */
  lemma UpsertKeepsIds(s: seq<Ingreso>, serial: int, anio: int, mes: int, c: string, monto: real)
    requires serial >= 1 && IngresoIds(s, serial)
    ensures IngresoIds(Upserted(s, serial, anio, mes, c, monto), serial + 1)
  {
  }

  /** The edit by id touches neither the id nor the key of another row. */
  lemma UpdateKeepsIds(s: seq<Ingreso>, serial: int, id: real, c: string, monto: real)
    requires IngresoIds(s, serial)
    ensures IngresoIds(UpdateById(s, id, c, monto), serial)
  {
  }

  /**
   * `POST` with `Number(id) > 0`: the row with that id gets the new
   * category and amount, and no row is inserted. A fractional id fails, and
   * so does a missing category or a category that collides with another
   * row's key, when a row matches.
   */
  method PostById(db: Db, id: real, categoria: Option<string>, monto: real) returns (r: Result<Option<Ingreso>>)
    requires db.Valid()
    modifies db`ingresos
    ensures db.Valid()
    ensures r.ServerError? <==>
      !Integral(id) || (HasRow(old(db.ingresos), id) && (categoria.None? || Collides(old(db.ingresos), id, categoria.value)))
    ensures r.ServerError? ==> db.ingresos == old(db.ingresos)
    ensures r.Ok? && !HasRow(old(db.ingresos), id) ==> db.ingresos == old(db.ingresos) && r.value.None?
    ensures r.Ok? && HasRow(old(db.ingresos), id) ==>
      db.ingresos == UpdateById(old(db.ingresos), id, categoria.value, monto)
    ensures r.Ok? ==> r.value == RowWithId(db.ingresos, id)
  {
    if !Integral(id) {
      return ServerError;
    }
    if HasRow(db.ingresos, id) {
      if categoria.None? || Collides(db.ingresos, id, categoria.value) {
        return ServerError;
      }
      UpdateKeepsKeys(db.ingresos, id, categoria.value, monto);
      UpdateKeepsIds(db.ingresos, db.ingresoSerial, id, categoria.value, monto);
      db.ingresos := UpdateById(db.ingresos, id, categoria.value, monto);
    }
    return Ok(RowWithId(db.ingresos, id));
  }

  /**
   * `POST` without a positive id: the next id is drawn from the sequence in
   * every case, a missing key column fails, and otherwise the row is
   * upserted on its key and returned.
   */
  method PostNew(db: Db, anio: Option<int>, mes: Option<int>, categoria: Option<string>, monto: real)
    returns (r: Result<Option<Ingreso>>)
    requires db.Valid()
    modifies db`ingresos, db`ingresoSerial
    ensures db.Valid()
    ensures db.ingresoSerial == old(db.ingresoSerial) + 1
    ensures r.ServerError? <==> anio.None? || mes.None? || categoria.None?
    ensures r.ServerError? ==> db.ingresos == old(db.ingresos)
    ensures r.Ok? ==>
      db.ingresos == Upserted(old(db.ingresos), old(db.ingresoSerial), anio.value, mes.value, categoria.value, monto)
    ensures r.Ok? ==>
      r.value.Some? && r.value.value in db.ingresos &&
      KeyOf(r.value.value) == (anio.value, mes.value, categoria.value) && r.value.value.monto == monto
  {
    var newId := db.ingresoSerial;
    db.ingresoSerial := db.ingresoSerial + 1;
    if anio.None? || mes.None? || categoria.None? {
      return ServerError;
    }
    var key := (anio.value, mes.value, categoria.value);
    UpsertKeepsKeys(db.ingresos, newId, key.0, key.1, key.2, monto);
    UpsertKeepsIds(db.ingresos, newId, key.0, key.1, key.2, monto);
    db.ingresos := Upserted(db.ingresos, newId, key.0, key.1, key.2, monto);
    var k := FindKey(db.ingresos, key).value;
    r := Ok(Some(db.ingresos[k]));
  }

  /** `POST`: the amount stored is `Number(monto) || 0`; `Number(id) > 0` picks the edit by id. */
  method Post(db: Db, body: IngresoBody) returns (r: Result<Option<Ingreso>>)
    requires db.Valid()
    modifies db`ingresos, db`ingresoSerial
    ensures db.Valid()
    ensures ByIdBranch(body.id) ==> db.ingresoSerial == old(db.ingresoSerial)
    ensures !ByIdBranch(body.id) ==> db.ingresoSerial == old(db.ingresoSerial) + 1
    ensures ByIdBranch(body.id) ==> (r.ServerError? <==>
      var id := ToNumber(body.id).value;
      !Integral(id) || (HasRow(old(db.ingresos), id) && (body.categoria.None? || Collides(old(db.ingresos), id, body.categoria.value))))
    ensures ByIdBranch(body.id) && r.Ok? ==>
      var id := ToNumber(body.id).value;
      db.ingresos == (if HasRow(old(db.ingresos), id)
                      then UpdateById(old(db.ingresos), id, body.categoria.value, MontoNum(body.monto))
                      else old(db.ingresos))
    ensures !ByIdBranch(body.id) ==> (r.ServerError? <==> body.anio.None? || body.mes.None? || body.categoria.None?)
    ensures !ByIdBranch(body.id) && r.Ok? ==>
      db.ingresos == Upserted(old(db.ingresos), old(db.ingresoSerial), body.anio.value, body.mes.value,
                              body.categoria.value, MontoNum(body.monto))
    ensures r.ServerError? ==> db.ingresos == old(db.ingresos)
  {
    var monto := MontoNum(body.monto);
    if ByIdBranch(body.id) {
      r := PostById(db, ToNumber(body.id).value, body.categoria, monto);
    } else {
      r := PostNew(db, body.anio, body.mes, body.categoria, monto);
    }
  }

  /** The rows a `WHERE id = ${id}` does not match. */
  function Other(id: int): Ingreso -> bool {
    (r: Ingreso) => r.id != id
  }

  /** `DELETE FROM ingresos WHERE id = ${id}`: every other row stays, in its order. */
  method Delete(db: Db, id: int)
    requires db.Valid()
    modifies db`ingresos
    ensures db.Valid()
    ensures db.ingresos == Filter(old(db.ingresos), Other(id))
    ensures forall i :: 0 <= i < |db.ingresos| ==> db.ingresos[i] in old(db.ingresos) && db.ingresos[i].id != id
    ensures forall i :: 0 <= i < |old(db.ingresos)| && old(db.ingresos)[i].id != id ==> old(db.ingresos)[i] in db.ingresos
  {
    var s := db.ingresos;
    var r := Filter(s, Other(id));
    FilterKeepsDistinct(s, Other(id), IngresoId);
    FilterKeepsDistinct(s, Other(id), KeyOf);
    forall i, j | 0 <= i < j < |r| ensures r[i].id != r[j].id && KeyOf(r[i]) != KeyOf(r[j]) {
      var byId, byKey := IngresoId, KeyOf;
      assert byId(r[i]) != byId(r[j]) && byKey(r[i]) != byKey(r[j]);
    }
    forall i | 0 <= i < |r| ensures 0 < r[i].id < db.ingresoSerial {
      var m :| 0 <= m < |s| && s[m] == r[i];
    }
    db.ingresos := r;
  }
}
