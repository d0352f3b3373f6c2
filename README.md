# Cuentaspersonales: the patrimonio engine in Dafny

Cuentaspersonales is a personal-finance web application. It keeps the
following in PostgreSQL tables:

- assets (`activos`);
- Cocos Capital investments (`inversiones_cocos`), among them the money
  market placements called *cauciones*;
- dollar holdings (`dolares`);
- monthly income (`ingresos`) and expenses (`egresos`);
- one net-worth total per day (`activos_historial`).

This project models the engine behind its net worth (*patrimonio*) and
proves what each piece promises:

- **Expense normaliser** (`EgresosNormalize`):
  - folds free-text labels;
  - maps categories and subcategories onto a canonical table;
  - keeps the latest row of each `anio-mes-categoria-subcategoria` key;
  - sorts the result.
- **Breakdown, history sync and day-over-day comparison** (`Patrimonio`).
  The database is the class `Store.Db`. Its tables are fields, and the
  handlers change them through field-granular `modifies` clauses.
- **`GET /api/patrimonio`** (`PatrimonioRoute`): period keys, the
  three-month window, per-period expenses, savings, runway, concentration
  shares and the composite financial score.
- **The assets page's own arithmetic** (`ActivosPage`):
  - it selects the latest caución a second time, and the model proves that
    it picks the same record as the server;
  - the per-date caución history and its differences.
- **The handlers that write tables**:
  - `ActivosRoute`: every write ends with an upsert of today's history row;
  - `IngresosRoute`: update by id, or insert with an upsert on
    `(anio, mes, categoria)`;
  - `ResumenRoute`: the twelve-month table.
- **Small helpers**:
  - `MonthSelector`: month stepping;
  - `DbUrl`: extraction of the connection URL;
  - `GitPush`: commit-message sanitising and the decisions of the push
    handler.

The modules `Wrappers`, `Text`, `JsValues`, `Calendar`, `Sums`, `Grouping`,
`Sorting` and `Historial` supply the vocabulary:

- JavaScript's `Number(...)` coercion and truthiness;
- `trim` and SQL `TRIM`;
- dates and `d - INTERVAL '1 day'`;
- sums, keyed folds and a stable sort;
- `ORDER BY fecha DESC LIMIT n` over the history table.

### Representation choices

- Money is `real`, and IEEE rounding is ignored.
- `NaN` is `None` in `JsValues.ToNumber`.
- `localeCompare` is lexicographic order on characters (`Text.Less`).
- "Today", "now" and timestamps are parameters.
- Timestamps are `Option<int>`.
- The two success messages of the git push handler are the values of
  `GitPush.PushMessage`; `GitPush.MessageText` gives their text. The git
  invocations are the values of `GitPush.GitCommand`; `GitPush.Args` gives
  their argument vectors.

### Behaviour of the code worth knowing

- **`tiene_dato_ayer`** is `ayer > 0`. A stored zero therefore reads exactly
  like a missing row (`Patrimonio.MissingAsZero`).
- **The exchange rate**, `Number(value || 1000) || 1000`, only replaces a
  missing, empty, non-numeric or zero setting. A negative rate passes
  through (`Patrimonio.Cotizacion`).
- **The concentration shares** always add up to 100 when the total is
  positive, even with negative buckets, because the total is the sum of the
  four buckets (`PatrimonioRoute.ConcentrationSums`).
- **Two writers store different totals under today's date**:
  - the assets routes store the assets alone;
  - the patrimonio sync stores the whole breakdown.

  The two values agree only when Cocos and dollars add up to zero
  (`ActivosRoute.TodayTotalsAgreeIff`).
- **The twelve-month summary** sums every stored expense row, exactly as its
  SQL `SUM` does. It does not deduplicate the rows as the patrimonio route
  does.

## Model

| member | source | states |
|---|---|---|
| EgresosNormalize.CleanText | src/lib/egresos-normalize.ts:11-19 | the fold yields only `[a-z0-9.]` and single inner blanks, with no blank at either end |
| EgresosNormalize.CleanTextIdempotent | src/lib/egresos-normalize.ts:11-19 | folding folded text changes nothing |
| EgresosNormalize.CleanOfClean | src/lib/egresos-normalize.ts:11-19 | text already in folded form is a fixed point of the fold |
| EgresosNormalize.CanonicalCategoriaTable | src/lib/egresos-normalize.ts:25-31 | the comparison chain is exactly the alias table (vivienda, educacion, tarjeta/s, servicio/s, personal/es, vehiculo/s, limpieza) and yields only canonical categories |
| EgresosNormalize.NormalizeCategoriaTable | src/lib/egresos-normalize.ts:21-34 | a folded alias gives its canonical label; anything else gives the trimmed text, or "Sin categoria" when that is empty |
| EgresosNormalize.CategoriaFixedPoints | src/lib/egresos-normalize.ts:21-34 | every canonical category and "Sin categoria" is mapped to itself |
| EgresosNormalize.NormalizeCategoriaIdempotent | src/lib/egresos-normalize.ts:21-34 | normalising a category twice equals normalising it once |
| EgresosNormalize.FirstMatch | src/lib/egresos-normalize.ts:40-55 | the label of the first rule whose pattern occurs, and no earlier rule's pattern occurs |
| EgresosNormalize.SubcategoriaRewriteTable | src/lib/egresos-normalize.ts:36-58 | the rewrite is the first match in the category's rule list (Educacion, Vehiculos, Tarjetas), and no other category rewrites |
| EgresosNormalize.SubcategoriaRewriteLabels | src/lib/egresos-normalize.ts:40-55 | a rewrite only produces a canonical subcategory of that category |
| EgresosNormalize.NormalizeSubcategoriaTable | src/lib/egresos-normalize.ts:36-58 | a rewrite when one matches, else the trimmed text, or "Sin subcategoria" when that is empty |
| EgresosNormalize.SubcategoriaFixedPoints | src/lib/egresos-normalize.ts:36-58 | each canonical subcategory of a category, and the default, is mapped to itself under that category |
| EgresosNormalize.NormalizeSubcategoriaIdempotent | src/lib/egresos-normalize.ts:36-58 | normalising a subcategory twice under one category equals normalising it once |
| EgresosNormalize.AmexBeforeVisa | src/lib/egresos-normalize.ts:50-55 | under Tarjetas, "Visa Amex" becomes "Amex", because amex is tested before visa |
| EgresosNormalize.NormalizeMonto | src/lib/egresos-normalize.ts:67 | `Number(monto \|\| 0)`: falsy gives 0, a number stays, text is parsed or becomes NaN |
| EgresosNormalize.NormalizeMontoIdempotent | src/lib/egresos-normalize.ts:67 | a numeric amount is a fixed point; NaN becomes 0 on a second pass |
| EgresosNormalize.NormalizeEgreso | src/lib/egresos-normalize.ts:60-69 | only categoria, subcategoria and monto change; id, anio, mes and updated_at are kept |
| EgresosNormalize.NormalizeEgresoIdempotent | src/lib/egresos-normalize.ts:60-69 | normalising a normalised row changes nothing, except a NaN amount, which becomes 0 |
| EgresosNormalize.DedupeKeyCollision | src/lib/egresos-normalize.ts:76 | two rows with different labels containing '-' share one key |
| EgresosNormalize.DedupeKeyInjective | src/lib/egresos-normalize.ts:76 | without '-' in the category, equal keys mean equal anio, mes, categoria and subcategoria |
| EgresosNormalize.SupersedesOrder | src/lib/egresos-normalize.ts:84-89 | the replacement test on (timestamp, id) is irreflexive, asymmetric and transitive, and incomparable rows tie on both |
| EgresosNormalize.ChosenUnique | src/lib/egresos-normalize.ts:71-92 | at most one row is chosen per key: the latest by (timestamp, id), the earliest of a full tie |
| EgresosNormalize.DedupeEgresos | src/lib/egresos-normalize.ts:71-99 | the output is sorted by (categoria, subcategoria) with one row per key; each row is the chosen normalised input row, and every input key is represented |
| EgresosNormalize.LabelsLeTotalPreorder | src/lib/egresos-normalize.ts:94-99 | the (categoria, subcategoria) comparison is a total preorder |
| Patrimonio.LatestCaucion | src/lib/patrimonio.ts:35-43 | None exactly when there is no caución; otherwise a caución that no other caución follows in (fecha, id) order |
| Patrimonio.LatestCaucionUnique | src/lib/patrimonio.ts:35-41 | with distinct ids, any caución that no caución follows is the one the query returns |
| Patrimonio.Cotizacion | src/lib/patrimonio.ts:48-49 | the setting's number when present, numeric and nonzero (negatives included), else 1000; never 0 |
| Patrimonio.GetBreakdown | src/lib/patrimonio.ts:24-64 | every bucket as its query computes it, `dolares_ars = usd * rate` and `total = activos + cocos sin cauciones + última caución + dolares_ars` |
| Patrimonio.CocosCountedOnce | src/lib/patrimonio.ts:28-41 | the Cocos sum without cauciones is the table sum less every caución, so only the latest caución counts |
| Patrimonio.NoCaucionesCountAll | src/lib/patrimonio.ts:28-43 | with no caución the Cocos part of the total is the whole Cocos table |
| Patrimonio.SyncedHistory | src/lib/patrimonio.ts:68-69 | after the upsert, history[today] is the total and every other date is unchanged |
| Patrimonio.SyncIdempotent | src/lib/patrimonio.ts:66-71 | a second sync with the same total leaves the history as one sync did |
| Patrimonio.Lookup | src/lib/patrimonio.ts:80 | yesterday's row if stored, None otherwise |
| Patrimonio.Compare | src/lib/patrimonio.ts:83-98 | ayer is 0 when missing, `variacion = hoy - ayer`, the pct is present iff ayer > 0 and then satisfies `pct * ayer = variacion * 100`, and `tiene_dato_ayer` iff ayer > 0 |
| Patrimonio.MissingAsZero | src/lib/patrimonio.ts:80-97 | a missing row and a stored 0 give the same comparison: no data and no percentage |
| Patrimonio.PctRecoversToday | src/lib/patrimonio.ts:87-88 | applying the percentage to ayer gives back hoy |
| Patrimonio.SyncPatrimonioHistorial | src/lib/patrimonio.ts:66-71 | returns the breakdown total and stores it under today, leaving other dates alone |
| Patrimonio.GetPatrimonioComparacion | src/lib/patrimonio.ts:73-99 | syncs, then compares today's total with the row for `PrevDay(today)` as it was before the sync |
| Calendar.PrevDay | src/lib/patrimonio.ts:79-80 | `d - 1 day` is a valid date before d, and no valid date lies between them |
| PatrimonioRoute.PeriodKeyShape | src/app/api/patrimonio/route.ts:6-8 | the key of a year ≥ 0 and a month in 1..12 is the year, '-', and the month as two digits |
| PatrimonioRoute.ToPeriodKeyInjective | src/app/api/patrimonio/route.ts:6-8 | different periods have different keys |
| PatrimonioRoute.MonthsBack | src/app/api/patrimonio/route.ts:13-14 | stepping back i months always gives a month in 1..12 |
| PatrimonioRoute.MonthsBackZero | src/app/api/patrimonio/route.ts:12-14 | the window starts at the base month itself |
| PatrimonioRoute.MonthsBackStep | src/app/api/patrimonio/route.ts:12-14 | each later element is the previous calendar month, January stepping back to December of the year before |
| PatrimonioRoute.LastMonths | src/app/api/patrimonio/route.ts:10-17 | the loop returns exactly `count` months, element i being i months back |
| PatrimonioRoute.IncomeForMonth | src/app/api/patrimonio/route.ts:36-39 | the income of a month without rows is 0 |
| PatrimonioRoute.AmountOf | src/app/api/patrimonio/route.ts:49 | `Number(row.monto \|\| 0)` on a normalised row: its number, or 0 for NaN |
| PatrimonioRoute.ExpenseForIsTotal | src/app/api/patrimonio/route.ts:46-52 | reading the per-period map built by the loop gives the total of the rows with that key, 0 for a period without rows |
| PatrimonioRoute.RowPeriodKeyMatches | src/app/api/patrimonio/route.ts:48 | for stored rows, a row has a period's key iff its (anio, mes) is that period |
| PatrimonioRoute.PeriodTotalOfMonth | src/app/api/patrimonio/route.ts:46-52 | the period total of a month is the sum of the amounts of that month's deduplicated rows |
| PatrimonioRoute.AhorroMensualPct | src/app/api/patrimonio/route.ts:53 | None iff income ≤ 0; otherwise `pct * ingreso = (ingreso - egreso) * 100`, within 0..100 when 0 ≤ egreso ≤ ingreso |
| PatrimonioRoute.AverageExpense | src/app/api/patrimonio/route.ts:55-56 | the average expense times the window's length is the window's total |
| PatrimonioRoute.WindowTotalOfThree | src/app/api/patrimonio/route.ts:55-56 | the reduce over the three-month window is the sum of the three months' period totals |
| PatrimonioRoute.EgresosOfYears | src/app/api/patrimonio/route.ts:42-43 | the query returns no more rows than are stored, each of a year the window touches |
| PatrimonioRoute.Metrics | src/app/api/patrimonio/route.ts:32-76 | the window is the current month and the two before it; the expenses of its years are deduplicated as `DedupeEgresos` states and summed per period; this month's expense is its period total, the 3-month average is a third of the three periods' totals, the rest follows `ComputeMetricas`, and the score lies in 0..100 |
| PatrimonioRoute.Mean | src/app/api/patrimonio/route.ts:55-56 | the average expense of the window times the window's length is the window's total |
| PatrimonioRoute.RunwayMeses | src/app/api/patrimonio/route.ts:57 | None iff the average is ≤ 0; otherwise `runway * avg = total` |
| PatrimonioRoute.Ratio | src/app/api/patrimonio/route.ts:61-64 | 0 when the total is ≤ 0; otherwise `r * total = part * 100`, within 0..100 for a part between 0 and the total |
| PatrimonioRoute.ConcentrationOf | src/app/api/patrimonio/route.ts:59-65 | with a total ≤ 0 all four shares are 0 |
| PatrimonioRoute.ConcentrationSums | src/app/api/patrimonio/route.ts:59-65 | with a positive total the four shares add up to 100 |
| PatrimonioRoute.Clamp | src/app/api/patrimonio/route.ts:67-75 | the result lies in 0..100 and equals x when x already does |
| PatrimonioRoute.SavingsScore | src/app/api/patrimonio/route.ts:67 | lies in 0..100, is 50 without income, and is linear between -20% and 20% savings |
| PatrimonioRoute.RunwayScore | src/app/api/patrimonio/route.ts:68 | lies in 0..100, is 0 without runway, and is 100 from 24 months on |
| PatrimonioRoute.MaxConcentration | src/app/api/patrimonio/route.ts:69-74 | the largest of the four shares and one of them |
| PatrimonioRoute.DiversificationScore | src/app/api/patrimonio/route.ts:75 | lies in 0..100, is 100 when no share exceeds 25, and is 0 from 87.5 on |
| PatrimonioRoute.DiversificationWithoutTotal | src/app/api/patrimonio/route.ts:59-75 | a total ≤ 0 scores 100 on diversification |
| PatrimonioRoute.ScoreFinanciero | src/app/api/patrimonio/route.ts:76 | the 40/35/25 weighting of three scores in 0..100 lies in 0..100 |
| PatrimonioRoute.ComputeMetricas | src/app/api/patrimonio/route.ts:52-76 | the metrics are the formulas above applied to the month's income, the per-period map and the breakdown; the score lies in 0..100 |
| PatrimonioRoute.Get | src/app/api/patrimonio/route.ts:19-106 | the breakdown, the sync and comparison; the newest 120 history rows with their stored values, strictly newest first, every omitted date older; the metrics as `Metrics` states them; concentration; a score in 0..100 |
| ActivosPage.NormalizeTipo | src/app/activos/page.tsx:53 | as long as the trimmed input, without surrounding white space and without a lower-case ASCII letter |
| ActivosPage.NormalizeTipoIdempotent | src/app/activos/page.tsx:53 | normalising a normalised type changes nothing |
| ActivosPage.NormalizeTipoIgnoresCase | src/app/activos/page.tsx:53 | lower-casing or upper-casing the input first gives the same normal form |
| ActivosPage.IsCaucionIgnoresCase | src/app/activos/page.tsx:54 | the caución test does not depend on the case of the type's letters |
| ActivosPage.IsCaucionAgrees | src/app/activos/page.tsx:53-54 | where the only white space is the blank, the page's test and SQL `UPPER(TRIM(tipo)) = 'CAUCIONES'` agree |
| ActivosPage.IsCaucionTabDisagrees | src/app/activos/page.tsx:53-54 | a trailing tab is trimmed by the page but not by SQL |
| ActivosPage.Prefix10 | src/app/activos/page.tsx:221-222 | the first ten characters, or the whole text when it is shorter |
| ActivosPage.PickIsStep | src/app/activos/page.tsx:219-226 | the reducer step keeps the greater row by (date prefix, id) |
| ActivosPage.ReduceIsMax | src/app/activos/page.tsx:217-226 | filtering and reducing selects the greatest caución in that order |
| ActivosPage.UltimaCaucion | src/app/activos/page.tsx:217-226 | null iff there is no caución; otherwise a caución that no other caución follows |
| ActivosPage.SentAgrees | src/app/activos/page.tsx:217-226 | per record, the page's caución test and order are the server's |
| ActivosPage.SameLatestCaucion | src/app/activos/page.tsx:217-226 | the page picks the same caución as the server's `ORDER BY fecha DESC, id DESC LIMIT 1` |
| ActivosPage.TotalInversiones | src/app/activos/page.tsx:227-230 | the non-caución amounts plus the latest caución's amount, or plus 0 when there is none |
| ActivosPage.SumSentActivos | src/app/activos/page.tsx:216 | the page's reduce over the assets as sent is the server's sum of the stored amounts |
| ActivosPage.SumWhereSent | src/app/activos/page.tsx:227-229 | the page's non-caución sum over the investments as sent is the server's |
| ActivosPage.GrandTotalWithoutDolares | src/app/activos/page.tsx:216-231 | the page's grand total is the server total less the dollars in pesos |
| ActivosPage.ActivosList | src/app/activos/page.tsx:233 | exactly the rows of tipo "activo" |
| ActivosPage.InversionesList | src/app/activos/page.tsx:234 | exactly the rows of tipo "inversion" |
| ActivosPage.ListsSplit | src/app/activos/page.tsx:216-234 | no row is in both lists, and a row of another tipo is in neither |
| ActivosPage.CaucionesByDate | src/app/activos/page.tsx:243-249 | one entry per caución date prefix, each holding that date's total; the entries add up to all caución amounts |
| ActivosPage.NewestEntries | src/app/activos/page.tsx:251-253 | the entries of the map, strictly descending by date, each with its amount, none missing |
| ActivosPage.CaucionesHistorial | src/app/activos/page.tsx:243-253 | the per-date caución totals, strictly newest first |
| ActivosPage.CaucionesDiff | src/app/activos/page.tsx:262-264 | the first entry less the second, a missing entry read as 0 |
| ActivosPage.RowDiff | src/app/activos/page.tsx:474-476 | a row's amount less the next row's, 0 for the oldest row |
| ActivosPage.HeadlineIsFirstRow | src/app/activos/page.tsx:262-264 | with two or more entries, the headline difference is the first row's difference |
| ActivosPage.DiffsTelescope | src/app/activos/page.tsx:474-476 | the row differences add up to the newest amount less the oldest amount reached |
| ActivosRoute.NewActivo | src/app/api/activos/route.ts:20-24 | the new row has the next id, `monto = Number(monto) \|\| 0` and today as its fecha |
| Store.MontoNum | src/app/api/activos/route.ts:20 | `Number(monto) \|\| 0`: the number unless NaN or 0, and 0 in those cases |
| ActivosRoute.UpdateById | src/app/api/activos/route.ts:44-45 | only the rows with the id change, and their fecha is kept |
| ActivosRoute.UpdateUnknownId | src/app/api/activos/route.ts:44-45 | an unknown id changes no row |
| ActivosRoute.UpdateTotal | src/app/api/activos/route.ts:44-48 | when one row has the id, the sum after the update is the old sum less that row's amount plus the new amount |
| ActivosRoute.DeleteById | src/app/api/activos/route.ts:63 | every remaining row is an old row without the id, and every old row without the id remains |
| ActivosRoute.DeleteUnknownId | src/app/api/activos/route.ts:63 | deleting an unknown id changes nothing |
| ActivosRoute.DeleteTotal | src/app/api/activos/route.ts:63-66 | when one row has the id, the sum after the delete is the old sum less that row's amount |
| ActivosRoute.RowWithId | src/app/api/activos/route.ts:44-52 | the `RETURNING` row: present iff some row has the id |
| ActivosRoute.Get | src/app/api/activos/route.ts:4-13 | all assets sorted by (entidad, tipo, descripcion), and at most 30 history rows, stored values, strictly newest first, none newer left out |
| ActivosRoute.Post | src/app/api/activos/route.ts:16-36 | appends exactly the new row (or fails on a missing field); then history[today] is the new sum and no other date changes |
| ActivosRoute.Put | src/app/api/activos/route.ts:38-57 | fails iff no row has the id or a field is missing; a missing field with a matching row changes nothing; otherwise the row is updated (when the body is complete) and today's sum is stored even when nothing matched; on success the row returned is the stored row with the id |
| ActivosRoute.Delete | src/app/api/activos/route.ts:59-75 | removes the rows with the id, then stores today's sum |
| ActivosRoute.ActivosTotalAppend | src/app/api/activos/route.ts:26 | the sum over the table grows by the amount of an inserted row |
| ActivosRoute.UpsertToday | src/app/api/activos/route.ts:28-29 | history[today] becomes the sum of assets and every other date is unchanged |
| ActivosRoute.TodayTotalsAgreeIff | src/app/api/activos/route.ts:26-29 | the assets-only total these routes store agrees with the breakdown total for the same date iff Cocos and dollars add up to zero |
| IngresosRoute.Get | src/app/api/ingresos/route.ts:4-17 | exactly the rows of the requested (anio, mes), sorted by categoria; a missing, zero or NaN parameter is the current one |
| JsValues.NumberParamOr | src/app/api/ingresos/route.ts:8-9 | `Number(param) \|\| d`: a missing, zero or non-numeric parameter gives d |
| IngresosRoute.UpdateById | src/app/api/ingresos/route.ts:27-30 | only the matched row's categoria and monto change; id, anio and mes are kept |
| IngresosRoute.UpdateKeepsKeys | src/app/api/ingresos/route.ts:26-31 | an update that does not collide keeps `(anio, mes, categoria)` unique |
| IngresosRoute.RowWithId | src/app/api/ingresos/route.ts:31 | `rows[0] \|\| null`: present iff some row has the id |
| IngresosRoute.FindKey | src/app/api/ingresos/route.ts:36 | the index of the row with the key, None iff no row has it |
| IngresosRoute.Upserted | src/app/api/ingresos/route.ts:34-38 | on conflict only that row's monto changes; otherwise one new row is appended |
| IngresosRoute.UpsertKeepsKeys | src/app/api/ingresos/route.ts:34-38 | the upsert never duplicates a key, and the key's row holds the new amount |
| IngresosRoute.UpsertKeepsIds | src/app/api/ingresos/route.ts:34-38 | ids stay distinct and below the sequence |
| IngresosRoute.UpdateKeepsIds | src/app/api/ingresos/route.ts:27-30 | an update keeps the ids |
| IngresosRoute.PostById | src/app/api/ingresos/route.ts:26-43 | fails iff the id is fractional, or a row matches and the category is missing or collides; otherwise updates the matched row or changes nothing |
| IngresosRoute.PostNew | src/app/api/ingresos/route.ts:34-43 | draws one id; fails iff a key column is missing; otherwise upserts and returns the key's row with the new amount |
| IngresosRoute.Post | src/app/api/ingresos/route.ts:19-44 | `Number(id) > 0` selects the update by id, anything else the upsert; the amount stored is `Number(monto) \|\| 0` |
| IngresosRoute.Delete | src/app/api/ingresos/route.ts:46-56 | exactly the rows with other ids remain, in order, and the keys stay unique |
| ResumenRoute.GroupByMes | src/app/api/resumen/route.ts:10-11 | one group per month present in the year's rows, each holding that month's total |
| ResumenRoute.KeyTotalOfYear | src/app/api/resumen/route.ts:10-11 | summing a month's group over the filtered rows equals the month's total over the table |
| ResumenRoute.MonthTotalEmpty | src/app/api/resumen/route.ts:15-18 | a month with no rows in the year totals 0 |
| ResumenRoute.Found | src/app/api/resumen/route.ts:15-18 | a month without a group reads as 0 |
| ResumenRoute.FoundIsTotal | src/app/api/resumen/route.ts:15-18 | looking a month up in the grouped result gives that month's total over the year's rows, 0 for a month without rows |
| ResumenRoute.Meses | src/app/api/resumen/route.ts:13-25 | twelve entries for months 1..12 in order, each with the month's two group totals (0 when missing) and their difference |
| ResumenRoute.Get | src/app/api/resumen/route.ts:4-32 | 12 entries for months 1..12 in order, with income and expense the month's totals for the requested year (the current year when missing, zero or NaN) and `diferencia = ingresos - egresos` |
| ResumenRoute.MonthsTotalIsSum | src/app/api/resumen/route.ts:13-25 | the totals of months 1..n add up to the sum over the rows of those months |
| ResumenRoute.YearIncomeCovered | src/app/api/resumen/route.ts:13-25 | when every row of the year has a month in 1..12, the twelve entries add up to the year's whole income |
| MonthSelector.Prev | src/components/MonthSelector.tsx:17-20 | from January, December of the year before; otherwise the month before in the same year; in 1..12 |
| MonthSelector.Next | src/components/MonthSelector.tsx:22-25 | from December, January of the next year; otherwise the month after in the same year; in 1..12 |
| MonthSelector.PrevNextInverse | src/components/MonthSelector.tsx:17-25 | next undoes prev and prev undoes next |
| MonthSelector.StepIndex | src/components/MonthSelector.tsx:17-25 | prev and next move one place along the month count |
| DbUrl.FirstMatch | src/lib/db.ts:7 | the leftmost position where the pattern matches, with no match before it |
| DbUrl.UrlRun | src/lib/db.ts:7 | the greedy `[^'"\s]+`: URL characters up to the first quote, white space or end |
| DbUrl.NormalizeDatabaseUrl | src/lib/db.ts:3-10 | "" iff the trimmed setting is blank; otherwise the leftmost embedded URL, or else the trimmed setting; never padded with white space |
| DbUrl.ExtractedShape | src/lib/db.ts:7-8 | an extracted URL starts with its scheme in any case and continues in URL characters only |
| DbUrl.NormalizeIdempotent | src/lib/db.ts:3-10 | normalising a normalised connection string changes nothing |
| DbUrl.GetDb | src/lib/db.ts:12-19 | fails iff the setting is missing or all white space; otherwise the non-empty normalised URL |
| GitPush.ReplaceBreaks | src/app/api/git/push/route.ts:23 | each maximal run of '\r'/'\n' becomes one blank; the result has no line break |
| GitPush.ReplaceBreaksBlank | src/app/api/git/push/route.ts:23 | the replaced text is all white space iff the original is |
| GitPush.SanitizeCommitMessage | src/app/api/git/push/route.ts:22-26 | a blank message gives the stamped default; otherwise a non-empty prefix of at most 140 characters of the cleaned text, with no line break, not starting with white space; the whole cleaned text when it fits and its first 140 characters otherwise |
| GitPush.DefaultExactlyWhenBlank | src/app/api/git/push/route.ts:23-24 | the default is used exactly when the message is missing or all white space |
| GitPush.NothingToCommitIn | src/app/api/git/push/route.ts:46-47 | the commit failure counts as "nothing to commit" iff a phrase appears in its stdout or its stderr |
| GitPush.ErrorDetails | src/app/api/git/push/route.ts:65-69 | the trimmed outputs of the failure, or "Error desconocido" when they are blank |
| GitPush.Branch | src/app/api/git/push/route.ts:55 | the trimmed rev-parse output, or "main" when it is blank |
| GitPush.Post | src/app/api/git/push/route.ts:28-74 | 401 with no command iff in production without a valid token; otherwise what `Run` states for the sanitised message |
| GitPush.Run | src/app/api/git/push/route.ts:39-69 | pushed iff add, commit (or a "nothing to commit" failure), rev-parse and push succeed, then with all five commands in order, the branch read from rev-parse and the message chosen by `committed`; each failing step stops the run after its own command and reports that step's details |
| GitPush.MessageText | src/app/api/git/push/route.ts:62 | each success message is a non-empty text without surrounding white space |
| Historial.NewestFirst | src/app/api/activos/route.ts:8 | `ORDER BY fecha DESC LIMIT n`: min(n, rows) stored rows, strictly newest first, every omitted date older than every returned one |
| Sorting.SortSorted | src/lib/egresos-normalize.ts:94-99 | under a total preorder the insertion sort returns its input sorted and as a permutation (same multiset) |
| Sorting.SortSameElements | src/lib/egresos-normalize.ts:94-99 | sorting keeps exactly the elements of the input |
| Grouping.Dedupe | src/lib/egresos-normalize.ts:72-92 | the keyed-map loop keeps one row per key, the chosen one of its group, and covers every key |
| Grouping.SumByKey | src/app/api/patrimonio/route.ts:46-50 | the keyed accumulation loop stores each key's total and adds up to the sum of all rows |
| Text.TrimsAgree | src/app/activos/page.tsx:53 | JavaScript `trim` and SQL `TRIM` agree on text whose only white space is the blank |
| Text.LessTotal | src/lib/egresos-normalize.ts:97-98 | the lexicographic order behind `localeCompare` is total |

## Left out

- **JSX rendering and React state.** Every page and component is presentation
  only. The assets page keeps only its derived values from lines 53-54,
  216-264 and 474-486.
- **`src/lib/finance/compoundInterest.ts` and its tests.** These are
  floating-point numerics (`Math.pow` with fractional exponents, rounding to
  cents) that real arithmetic would not reproduce.
- **Authentication.** `auth.ts`, `verifyToken` and the login, verify and
  config routes are not part of this model. The push handler takes
  `production` and `tokenValid` as inputs.
- **Other plumbing.** The production data copy, `init-db.ts` and the
  `cotizacion-dolar`, `dolares`, `inversiones` and `git/pull` routes are not
  part of this model. From `init-db.ts`, only the unique constraints are
  kept, as `Store.Db.Valid()`.
- **Cocos `fecha`.** It is always present, because the inversiones route
  stamps it with the insert date and never changes it.
- **Process, network and clock I/O.**
  - The git commands are not run. Their outcomes (`GitRun`) are inputs and
    the commands issued are an output.
  - `CURRENT_DATE`, `new Date()` and `toISOString()` become the parameters
    `today`, `now` and `timestamp`.
  - `process.env.DATABASE_URL` becomes an `Option<string>` input.
- **Failures of `getDb`.** The route handlers assume a configured
  connection. Failure is modelled once, in `DbUrl.GetDb`.
- **Other handler failures.** Database errors, other than the constraint
  and `NOT NULL` violations modelled as `ServerError`, are not modelled.
- **The catch-all of `GET /api/ingresos`.** It returns `[]` on a database
  error; this is not modelled.
- **Concurrency.** Handlers running at the same time are not modelled. Each
  handler is one sequential step.
- **Full Unicode.**
  - NFD decomposition uses a small table of accented Latin letters.
  - White space is a small explicit set.
  - `localeCompare` collation is lexicographic order on characters.
  - `slice(0, 140)` counts characters, not UTF-16 code units.
- **`updated_at = NOW()`.** The activos and ingresos updates write this
  column; the model does not keep it on those tables.
- **Non-text commit messages.** In `GitPush.SanitizeCommitMessage`, the
  message is a text or absent. JSON numbers and objects passed as `message`
  are not modelled.
- **Conversions.** `String(n)` is modelled for integers only, and `Number(text)`
  for decimal numerals.
- **Dates.** `new Date(updated_at).getTime()` is a given integer timestamp.
- **`DECIMAL(15,2)` money columns.** Every `monto` and history `total` column
  (`src/lib/init-db.ts:19`, `:30`, `:41`, `:50`, `:58`) rounds what it stores
  to cents and rejects values of 10^13 or more with an error (a 500). The model
  stores exact reals with no bound: `ActivosRoute.NewActivo`,
  `IngresosRoute.Upserted`, `IngresosRoute.UpdateById` and the history totals
  of `Patrimonio.SyncedHistory` and `ActivosRoute.UpsertToday` keep the
  unrounded amount, and no amount is too large.
- ActivosPage.NormalizeTipo: case mapping is ASCII only, here and in
  `Text.ToUpper`/`Text.ToLower` behind SQL `UPPER`. JavaScript's
  `toUpperCase` and PostgreSQL's `UPPER` map every Unicode letter: 'ß'
  becomes "SS", 'ı' and 'ſ' become 'I' and 'S', so "caucıones" is a caución
  on the page but not in the model. The length and no-lower-case clauses are
  promised for this ASCII mapping only.
- **Collation of `ORDER BY`.** `ActivosRoute.Get`
  (`src/app/api/activos/route.ts:7`) and `IngresosRoute.Get`
  (`src/app/api/ingresos/route.ts:11`) sort by the database's collation;
  the model sorts by character code (`Text.Less`), which agrees with the
  `C` collation only.
