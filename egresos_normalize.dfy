/**
 * The expense-ledger normaliser: label folding (`cleanText`), the canonical
 * category and subcategory tables, row normalisation and the deduplication
 * of ledger rows by their `anio-mes-categoria-subcategoria` key.
 */
module EgresosNormalize {
  import opened Wrappers
  import opened Text
  import opened JsValues
  import opened Sorting
  import opened Grouping

  // ---------------------------------------------------------------------
  // cleanText
  // ---------------------------------------------------------------------

  /**
   * Canonical decomposition (`normalize("NFD")`) of the accented letters of
   * the alphabet the model uses; every other character, and in particular
   * every character below U+00C0, is its own decomposition.
   */
  function Decompose(c: char): string {
    if c < '\U{00C0}' then [c]
    else match c
    case 'á' => ['a', '\U{0301}']
    case 'é' => ['e', '\U{0301}']
    case 'í' => ['i', '\U{0301}']
    case 'ó' => ['o', '\U{0301}']
    case 'ú' => ['u', '\U{0301}']
    case 'ü' => ['u', '\U{0308}']
    case 'ñ' => ['n', '\U{0303}']
    case 'Á' => ['A', '\U{0301}']
    case 'É' => ['E', '\U{0301}']
    case 'Í' => ['I', '\U{0301}']
    case 'Ó' => ['O', '\U{0301}']
    case 'Ú' => ['U', '\U{0301}']
    case 'Ü' => ['U', '\U{0308}']
    case 'Ñ' => ['N', '\U{0303}']
    case _ => [c]
  }

  function Nfd(s: string): string {
    if s == [] then [] else Decompose(s[0]) + Nfd(s[1..])
  }

  /** A combining diacritical mark, U+0300 to U+036F. */
  predicate IsMark(c: char) {
    '\U{0300}' <= c <= '\U{036F}'
  }

  predicate IsAsciiLetter(c: char) {
    'a' <= c <= 'z' || 'A' <= c <= 'Z'
  }

  /** The characters `[a-zA-Z0-9.\s]` keep. */
  predicate Allowed(c: char) {
    IsAsciiLetter(c) || IsDigit(c) || c == '.' || IsSpace(c)
  }

  /** `replace(/[̀-ͯ]/g, "")`. */
  function StripMarks(s: string): (r: string)
    ensures forall i :: 0 <= i < |r| ==> !IsMark(r[i])
  {
    if s == [] then [] else (if IsMark(s[0]) then [] else [s[0]]) + StripMarks(s[1..])
  }

  /** `replace(/[^a-zA-Z0-9.\s]/g, "")`. */
  function KeepAllowed(s: string): (r: string)
    ensures forall i :: 0 <= i < |r| ==> Allowed(r[i])
  {
    if s == [] then [] else (if Allowed(s[0]) then [s[0]] else []) + KeepAllowed(s[1..])
  }

  /** `replace(/\s+/g, " ")`: every maximal run of white space becomes one blank. */
  function Collapse(s: string): (r: string)
    ensures r != [] ==> s != [] && (r[0] == ' ' <==> IsSpace(s[0]))
    ensures forall i :: 0 <= i < |r| - 1 ==> !(r[i] == ' ' && r[i + 1] == ' ')
    decreases |s|
  {
    if s == [] then []
    else if IsSpace(s[0]) then
      var rest := TrimStart(s[1..], false);
      [' '] + Collapse(rest)
    else [s[0]] + Collapse(s[1..])
  }

  /** The characters `cleanText` can produce. */
  predicate CleanChar(c: char) {
    'a' <= c <= 'z' || IsDigit(c) || c == '.' || c == ' '
  }

  /** The shape of every `cleanText` result. */
  predicate IsClean(s: string) {
    (forall i :: 0 <= i < |s| ==> CleanChar(s[i])) &&
    Trimmed(s) &&
    (forall i :: 0 <= i < |s| - 1 ==> !(s[i] == ' ' && s[i + 1] == ' '))
  }

  /** The folding of free-text labels. */
  function CleanText(value: string): (r: string)
    ensures IsClean(r)
  {
    var collapsed := Fold(value);
    FoldClean(value);
    TrimmedClean(collapsed);
    Trim(collapsed)
  }

  /** Every stage of the folding but the final `trim`. */
  function Fold(value: string): string {
    Collapse(ToLower(KeepAllowed(StripMarks(Nfd(value)))))
  }

  lemma FoldClean(value: string)
    ensures forall i :: 0 <= i < |Fold(value)| ==> CleanChar(Fold(value)[i])
  {
    var kept := KeepAllowed(StripMarks(Nfd(value)));
    LoweredChars(kept);
    CollapsedClean(ToLower(kept));
  }

  /** After lower-casing, the kept characters are lower-case letters, digits, points and white space. */
  lemma LoweredChars(s: string)
    requires forall i :: 0 <= i < |s| ==> Allowed(s[i])
    ensures forall i :: 0 <= i < |s| ==> var c := ToLower(s)[i]; CleanChar(c) || IsSpace(c)
  {
  }

  lemma CollapsedClean(s: string)
    requires forall i :: 0 <= i < |s| ==> CleanChar(s[i]) || IsSpace(s[i])
    ensures forall i :: 0 <= i < |Collapse(s)| ==> CleanChar(Collapse(s)[i])
    decreases |s|
  {
    if s != [] {
      if IsSpace(s[0]) {
        var rest := TrimStart(s[1..], false);
        assert forall i :: 0 <= i < |rest| ==> rest[i] == s[|s| - |rest| + i];
        CollapsedClean(rest);
      } else {
        CollapsedClean(s[1..]);
      }
    }
  }

  lemma TrimmedClean(s: string)
    requires forall i :: 0 <= i < |s| ==> CleanChar(s[i])
    requires forall i :: 0 <= i < |s| - 1 ==> !(s[i] == ' ' && s[i + 1] == ' ')
    ensures IsClean(Trim(s))
  {
    TrimIsTrimmed(s);
    var a := TrimIsSubstring(s);
    var t := Trim(s);
    assert forall i :: 0 <= i < |t| ==> t[i] == s[a + i];
  }

  // --- stage identities on clean text ---

  lemma NfdOfPlain(s: string)
    requires forall i :: 0 <= i < |s| ==> Allowed(s[i])
    ensures Nfd(s) == s
  {
    if s != [] {
      NfdOfPlain(s[1..]);
    }
  }

  lemma StripMarksOfPlain(s: string)
    requires forall i :: 0 <= i < |s| ==> Allowed(s[i])
    ensures StripMarks(s) == s
  {
    if s != [] {
      StripMarksOfPlain(s[1..]);
    }
  }

  lemma KeepAllowedOfPlain(s: string)
    requires forall i :: 0 <= i < |s| ==> Allowed(s[i])
    ensures KeepAllowed(s) == s
  {
    if s != [] {
      KeepAllowedOfPlain(s[1..]);
    }
  }

  /** Text whose only white space is single blanks is its own collapse. */
  lemma CollapseOfSingleBlanks(s: string)
    requires forall i :: 0 <= i < |s| ==> (IsSpace(s[i]) ==> s[i] == ' ')
    requires forall i :: 0 <= i < |s| - 1 ==> !(s[i] == ' ' && s[i + 1] == ' ')
    ensures Collapse(s) == s
    decreases |s|
  {
    if s != [] {
      CollapseOfSingleBlanks(s[1..]);
      if IsSpace(s[0]) {
        var t := s[1..];
        assert t == [] || !IsSpace(t[0]);
        assert TrimStart(t, false) == t;
      }
    }
  }

  /** Clean text is left unchanged by `cleanText`. */
  lemma {:induction false} CleanOfClean(s: string)
    requires IsClean(s)
    ensures CleanText(s) == s
  {
    FoldOfPlain(s);
    assert ToLower(s) == s;
    CollapseOfSingleBlanks(s);
    assert Fold(s) == s;
    TrimOfTrimmed(s);
  }

  /** The stages before lower-casing leave plain text alone. */
  lemma FoldOfPlain(s: string)
    requires forall i :: 0 <= i < |s| ==> Allowed(s[i])
    ensures Fold(s) == Collapse(ToLower(s))
  {
    NfdOfPlain(s);
    StripMarksOfPlain(s);
    KeepAllowedOfPlain(s);
  }

  /** `cleanText` is idempotent. */
  lemma CleanTextIdempotent(s: string)
    ensures CleanText(CleanText(s)) == CleanText(s)
  {
    CleanOfClean(CleanText(s));
  }

  /** Text of ASCII letters, digits, points and single inner blanks folds to its lower-case form. */
  lemma {:induction false} CleanOfPlain(s: string)
    requires forall i :: 0 <= i < |s| ==> IsAsciiLetter(s[i]) || IsDigit(s[i]) || s[i] == '.' || s[i] == ' '
    requires IsClean(ToLower(s))
    ensures CleanText(s) == ToLower(s)
  {
    FoldOfPlain(s);
    var l := ToLower(s);
    CollapseOfSingleBlanks(l);
    assert Fold(s) == l;
    TrimOfTrimmed(l);
  }

  /** The fold of a literal label, from its lower-case form. */
  lemma FoldsTo(name: string, folded: string)
    requires forall i :: 0 <= i < |name| ==> IsAsciiLetter(name[i]) || IsDigit(name[i]) || name[i] == '.' || name[i] == ' '
    requires ToLower(name) == folded && IsClean(folded)
    ensures CleanText(name) == folded
  {
    CleanOfPlain(name);
  }

  /** A pattern with a character the text lacks does not occur in it. */
  lemma Absent(s: string, p: string, k: nat)
    requires k < |p| && p[k] !in s
    ensures !Contains(s, p)
  {
    ContainsChars(s, p);
  }

  // ---------------------------------------------------------------------
  // normalizeCategoria
  // ---------------------------------------------------------------------

  const SinCategoria := "Sin categoria"

  /** `normalizeCategoria`: the canonical category of a free-text label. */
  function NormalizeCategoria(value: string): string {
    var raw := Trim(value);
    match CanonicalCategoria(CleanText(raw))
    case Some(canonical) => canonical
    case None => if raw != [] then raw else SinCategoria
  }

  /** The comparison chain of `normalizeCategoria` on the folded label. */
  function CanonicalCategoria(c: string): Option<string> {
    if c == "vivienda" then Some("Vivienda")
    else if c == "educacion" then Some("Educacion")
    else if c == "tarjeta" || c == "tarjetas" then Some("Tarjetas")
    else if c == "servicio" || c == "servicios" then Some("Servicios")
    else if c == "personal" || c == "personales" then Some("Personales")
    else if c == "vehiculo" || c == "vehiculos" then Some("Vehiculos")
    else if c == "limpieza" then Some("Limpieza")
    else None
  }

  /** Each folded alias with the canonical category it stands for. */
  const CategoriaAliases: map<string, string> := map[
    "vivienda" := "Vivienda",
    "educacion" := "Educacion",
    "tarjeta" := "Tarjetas", "tarjetas" := "Tarjetas",
    "servicio" := "Servicios", "servicios" := "Servicios",
    "personal" := "Personales", "personales" := "Personales",
    "vehiculo" := "Vehiculos", "vehiculos" := "Vehiculos",
    "limpieza" := "Limpieza"
  ]

  const CanonicalCategorias: set<string> := {"Vivienda", "Educacion", "Tarjetas", "Servicios", "Personales", "Vehiculos", "Limpieza"}

  /** The comparison chain is exactly the alias table, and it only yields canonical categories. */
  lemma CanonicalCategoriaTable(c: string)
    ensures CanonicalCategoria(c) == if c in CategoriaAliases then Some(CategoriaAliases[c]) else None
    ensures CanonicalCategoria(c).Some? ==> CanonicalCategoria(c).value in CanonicalCategorias
  {
  }

  /**
   * `normalizeCategoria` reads its label off the alias table; text with no
   * alias is returned trimmed, and empty text becomes "Sin categoria".
   */
  lemma NormalizeCategoriaTable(value: string)
    ensures var c := CleanText(Trim(value));
      NormalizeCategoria(value) ==
        if c in CategoriaAliases then CategoriaAliases[c]
        else if Trim(value) != [] then Trim(value)
        else SinCategoria
  {
    CanonicalCategoriaTable(CleanText(Trim(value)));
  }

  // --- the canonical labels are fixed points (each literal fact in a lemma of its own) ---

  /** A trimmed label whose fold maps back to it is a fixed point. */
  lemma CategoriaFixedBy(name: string, folded: string)
    requires Trimmed(name) && CleanText(name) == folded && CanonicalCategoria(folded) == Some(name)
    ensures NormalizeCategoria(name) == name
  {
    TrimOfTrimmed(name);
  }

  /** A trimmed, non-empty label whose fold has no alias is a fixed point. */
  lemma CategoriaFixedByRaw(name: string, folded: string)
    requires Trimmed(name) && name != [] && CleanText(name) == folded && CanonicalCategoria(folded) == None
    ensures NormalizeCategoria(name) == name
  {
    TrimOfTrimmed(name);
  }

  /** Every canonical category, and the default, is a fixed point of `normalizeCategoria`. */
  lemma CategoriaFixedPoints(name: string)
    requires name in CanonicalCategorias || name == SinCategoria
    ensures NormalizeCategoria(name) == name
  {
    if name == "Vivienda" {
      FixedVivienda(name);
    } else if name == "Educacion" {
      FixedEducacion(name);
    } else if name == "Tarjetas" {
      FixedTarjetas(name);
    } else if name == "Servicios" {
      FixedServicios(name);
    } else if name == "Personales" {
      FixedPersonales(name);
    } else if name == "Vehiculos" {
      FixedVehiculos(name);
    } else if name == "Limpieza" {
      FixedLimpieza(name);
    } else {
      FixedSinCategoria(name);
    }
  }

  lemma FixedVivienda(name: string) requires name == "Vivienda" ensures NormalizeCategoria(name) == name {
    FoldVivienda(name);
    CanonicalVivienda();
    TrimmedVivienda();
    CategoriaFixedBy(name, "vivienda");
  }
  lemma FoldVivienda(name: string) requires name == "Vivienda" ensures CleanText(name) == "vivienda" { FoldsTo(name, "vivienda"); }
  lemma CanonicalVivienda() ensures CanonicalCategoria("vivienda") == Some("Vivienda") { }
  lemma TrimmedVivienda() ensures Trimmed("Vivienda") { }

  lemma FixedEducacion(name: string) requires name == "Educacion" ensures NormalizeCategoria(name) == name {
    FoldEducacion(name);
    CanonicalEducacion();
    TrimmedEducacion();
    CategoriaFixedBy(name, "educacion");
  }
  lemma FoldEducacion(name: string) requires name == "Educacion" ensures CleanText(name) == "educacion" { FoldsTo(name, "educacion"); }
  lemma CanonicalEducacion() ensures CanonicalCategoria("educacion") == Some("Educacion") { }
  lemma TrimmedEducacion() ensures Trimmed("Educacion") { }

  lemma FixedTarjetas(name: string) requires name == "Tarjetas" ensures NormalizeCategoria(name) == name {
    FoldTarjetas(name);
    CanonicalTarjetas();
    TrimmedTarjetas();
    CategoriaFixedBy(name, "tarjetas");
  }
  lemma FoldTarjetas(name: string) requires name == "Tarjetas" ensures CleanText(name) == "tarjetas" { FoldsTo(name, "tarjetas"); }
  lemma CanonicalTarjetas() ensures CanonicalCategoria("tarjetas") == Some("Tarjetas") { }
  lemma TrimmedTarjetas() ensures Trimmed("Tarjetas") { }

  lemma FixedServicios(name: string) requires name == "Servicios" ensures NormalizeCategoria(name) == name {
    FoldServicios(name);
    CanonicalServicios();
    TrimmedServicios();
    CategoriaFixedBy(name, "servicios");
  }
  lemma FoldServicios(name: string) requires name == "Servicios" ensures CleanText(name) == "servicios" { FoldsTo(name, "servicios"); }
  lemma CanonicalServicios() ensures CanonicalCategoria("servicios") == Some("Servicios") { }
  lemma TrimmedServicios() ensures Trimmed("Servicios") { }

  lemma FixedPersonales(name: string) requires name == "Personales" ensures NormalizeCategoria(name) == name {
    FoldPersonales(name);
    CanonicalPersonales();
    TrimmedPersonales();
    CategoriaFixedBy(name, "personales");
  }
  lemma FoldPersonales(name: string) requires name == "Personales" ensures CleanText(name) == "personales" { FoldsTo(name, "personales"); }
  lemma CanonicalPersonales() ensures CanonicalCategoria("personales") == Some("Personales") { }
  lemma TrimmedPersonales() ensures Trimmed("Personales") { }

  lemma FixedVehiculos(name: string) requires name == "Vehiculos" ensures NormalizeCategoria(name) == name {
    FoldVehiculos(name);
    CanonicalVehiculos();
    TrimmedVehiculos();
    CategoriaFixedBy(name, "vehiculos");
  }
  lemma FoldVehiculos(name: string) requires name == "Vehiculos" ensures CleanText(name) == "vehiculos" { FoldsTo(name, "vehiculos"); }
  lemma CanonicalVehiculos() ensures CanonicalCategoria("vehiculos") == Some("Vehiculos") { }
  lemma TrimmedVehiculos() ensures Trimmed("Vehiculos") { }

  lemma FixedLimpieza(name: string) requires name == "Limpieza" ensures NormalizeCategoria(name) == name {
    FoldLimpieza(name);
    CanonicalLimpieza();
    TrimmedLimpieza();
    CategoriaFixedBy(name, "limpieza");
  }
  lemma FoldLimpieza(name: string) requires name == "Limpieza" ensures CleanText(name) == "limpieza" { FoldsTo(name, "limpieza"); }
  lemma CanonicalLimpieza() ensures CanonicalCategoria("limpieza") == Some("Limpieza") { }
  lemma TrimmedLimpieza() ensures Trimmed("Limpieza") { }

  lemma FixedSinCategoria(name: string) requires name == SinCategoria ensures NormalizeCategoria(name) == name {
    FoldSinCategoria(name);
    CanonicalSinCategoria();
    TrimmedSinCategoria();
    CategoriaFixedByRaw(name, "sin categoria");
  }
  lemma FoldSinCategoria(name: string) requires name == SinCategoria ensures CleanText(name) == "sin categoria" {
    LowerSinCategoria();
    CleanSinCategoria();
    FoldsTo(name, "sin categoria");
  }
  lemma LowerSinCategoria() ensures ToLower(SinCategoria) == "sin categoria" { }
  lemma CleanSinCategoria() ensures IsClean("sin categoria") { }
  lemma CanonicalSinCategoria() ensures CanonicalCategoria("sin categoria") == None { }
  lemma TrimmedSinCategoria() ensures Trimmed(SinCategoria) { }

  /** `normalizeCategoria` is idempotent. */
  lemma NormalizeCategoriaIdempotent(value: string)
    ensures NormalizeCategoria(NormalizeCategoria(value)) == NormalizeCategoria(value)
  {
    var raw := Trim(value);
    var r := NormalizeCategoria(value);
    CanonicalCategoriaTable(CleanText(raw));
    if r in CanonicalCategorias || r == SinCategoria {
      CategoriaFixedPoints(r);
    } else {
      assert r == raw;
      TrimIsTrimmed(value);
      CategoriaFixedByRaw(raw, CleanText(raw));
    }
  }

  // ---------------------------------------------------------------------
  // normalizeSubcategoria
  // ---------------------------------------------------------------------

  const SinSubcategoria := "Sin subcategoria"

  /** `normalizeSubcategoria`: the canonical subcategory of a label under a (normalised) category. */
  function NormalizeSubcategoria(categoria: string, value: string): string {
    var raw := Trim(value);
    match SubcategoriaRewrite(categoria, CleanText(raw))
    case Some(canonical) => canonical
    case None => if raw != [] then raw else SinSubcategoria
  }

  /** The substring tests of `normalizeSubcategoria`, in the order the source tries them. */
  function SubcategoriaRewrite(categoria: string, s: string): Option<string> {
    if categoria == "Educacion" && Contains(s, "pestalozzi") then Some("Pestalozzi")
    else if categoria == "Educacion" && Contains(s, "san andr") then Some("Uni. de San Andres")
    else if categoria == "Vehiculos" && Contains(s, "patente moto") then Some("Patente Moto")
    else if categoria == "Vehiculos" && Contains(s, "patente auto") then Some("Patente Auto")
    else if categoria == "Tarjetas" && Contains(s, "amex") then Some("Amex")
    else if categoria == "Tarjetas" && Contains(s, "visa") then Some("Visa Galicia")
    else if categoria == "Tarjetas" && Contains(s, "master") then Some("Master Galicia")
    else if categoria == "Tarjetas" && Contains(s, "ml") then Some("Tarjeta ML")
    else None
  }

  /** The rewrite rules of each category: pattern and canonical subcategory, in priority order. */
  function SubcategoriaRules(categoria: string): seq<(string, string)> {
    if categoria == "Educacion" then [("pestalozzi", "Pestalozzi"), ("san andr", "Uni. de San Andres")]
    else if categoria == "Vehiculos" then [("patente moto", "Patente Moto"), ("patente auto", "Patente Auto")]
    else if categoria == "Tarjetas" then [("amex", "Amex"), ("visa", "Visa Galicia"), ("master", "Master Galicia"), ("ml", "Tarjeta ML")]
    else []
  }

  /** The canonical subcategories of a category. */
  function SubcategoriaLabels(categoria: string): set<string> {
    if categoria == "Educacion" then {"Pestalozzi", "Uni. de San Andres"}
    else if categoria == "Vehiculos" then {"Patente Moto", "Patente Auto"}
    else if categoria == "Tarjetas" then {"Amex", "Visa Galicia", "Master Galicia", "Tarjeta ML"}
    else {}
  }

  /** A rewrite only ever yields a canonical subcategory of the category. */
  lemma SubcategoriaRewriteLabels(categoria: string, s: string)
    ensures SubcategoriaRewrite(categoria, s).Some? ==> SubcategoriaRewrite(categoria, s).value in SubcategoriaLabels(categoria)
  {
  }

  /** The label of the first rule whose pattern occurs in `s`. */
  function FirstMatch(s: string, rules: seq<(string, string)>): (r: Option<string>)
    ensures r.Some? ==> exists i :: 0 <= i < |rules| && rules[i].1 == r.value && Contains(s, rules[i].0) &&
                                    forall j :: 0 <= j < i ==> !Contains(s, rules[j].0)
    ensures r.None? ==> forall i :: 0 <= i < |rules| ==> !Contains(s, rules[i].0)
  {
    if rules == [] then None
    else if Contains(s, rules[0].0) then Some(rules[0].1)
    else
      var r := FirstMatch(s, rules[1..]);
      assert forall i :: 1 <= i < |rules| ==> rules[i] == rules[1..][i - 1];
      assert r.Some? ==> exists i :: 1 <= i < |rules| && rules[i].1 == r.value && Contains(s, rules[i].0) &&
                                     forall j :: 0 <= j < i ==> !Contains(s, rules[j].0) by {
        if r.Some? {
          var k :| 0 <= k < |rules[1..]| && rules[1..][k].1 == r.value && Contains(s, rules[1..][k].0) &&
                   forall j :: 0 <= j < k ==> !Contains(s, rules[1..][j].0);
          assert forall j :: 1 <= j < k + 1 ==> !Contains(s, rules[j].0) by {
            forall j | 1 <= j < k + 1 ensures !Contains(s, rules[j].0) {
              assert rules[j] == rules[1..][j - 1];
            }
          }
        }
      }
      r
  }

  /**
   * The chain of `normalizeSubcategoria` is the first-match lookup in the
   * category's rules; only Educacion, Vehiculos and Tarjetas have rules.
   */
  lemma SubcategoriaRewriteTable(categoria: string, s: string)
    ensures SubcategoriaRewrite(categoria, s) == FirstMatch(s, SubcategoriaRules(categoria))
    ensures categoria != "Educacion" && categoria != "Vehiculos" && categoria != "Tarjetas" ==>
              SubcategoriaRewrite(categoria, s) == None
  {
    var rules := SubcategoriaRules(categoria);
    if |rules| >= 1 {
      assert FirstMatch(s, rules) == if Contains(s, rules[0].0) then Some(rules[0].1) else FirstMatch(s, rules[1..]);
    }
    if |rules| >= 2 {
      assert FirstMatch(s, rules[1..]) == if Contains(s, rules[1].0) then Some(rules[1].1) else FirstMatch(s, rules[2..]);
    }
    if |rules| >= 3 {
      assert FirstMatch(s, rules[2..]) == if Contains(s, rules[2].0) then Some(rules[2].1) else FirstMatch(s, rules[3..]);
    }
    if |rules| >= 4 {
      assert FirstMatch(s, rules[3..]) == if Contains(s, rules[3].0) then Some(rules[3].1) else FirstMatch(s, rules[4..]);
      assert rules[4..] == [];
    }
  }

  /**
   * `normalizeSubcategoria` returns the label of the first rule of the
   * category whose pattern occurs in the folded text; otherwise the trimmed
   * text, and "Sin subcategoria" for empty text.
   */
  lemma NormalizeSubcategoriaTable(categoria: string, value: string)
    ensures NormalizeSubcategoria(categoria, value) ==
      match FirstMatch(CleanText(Trim(value)), SubcategoriaRules(categoria))
      case Some(canonical) => canonical
      case None => if Trim(value) != [] then Trim(value) else SinSubcategoria
  {
    SubcategoriaRewriteTable(categoria, CleanText(Trim(value)));
  }

  /** A pattern that occurs at a known place is contained. */
  lemma Present(s: string, p: string, i: int)
    requires OccursAt(s, p, i)
    ensures Contains(s, p)
  {
  }

  /** A trimmed label whose fold the category rewrites to it is a fixed point. */
  lemma SubcategoriaFixedBy(categoria: string, name: string, folded: string)
    requires Trimmed(name) && CleanText(name) == folded && SubcategoriaRewrite(categoria, folded) == Some(name)
    ensures NormalizeSubcategoria(categoria, name) == name
  {
    TrimOfTrimmed(name);
  }

  /** A trimmed, non-empty label whose fold the category does not rewrite is a fixed point. */
  lemma SubcategoriaFixedByRaw(categoria: string, name: string, folded: string)
    requires Trimmed(name) && name != [] && CleanText(name) == folded && SubcategoriaRewrite(categoria, folded) == None
    ensures NormalizeSubcategoria(categoria, name) == name
  {
    TrimOfTrimmed(name);
  }

  lemma FoldPestalozzi(name: string) requires name == "Pestalozzi" ensures CleanText(name) == "pestalozzi" {
    LowerPestalozzi();
    CleanPestalozzi();
    FoldsTo(name, "pestalozzi");
  }
  lemma LowerPestalozzi() ensures ToLower("Pestalozzi") == "pestalozzi" { }
  lemma CleanPestalozzi() ensures IsClean("pestalozzi") { }
  lemma TrimmedPestalozzi() ensures Trimmed("Pestalozzi") { }
  lemma RewritePestalozzi() ensures SubcategoriaRewrite("Educacion", "pestalozzi") == Some("Pestalozzi") {
    Present("pestalozzi", "pestalozzi", 0);
  }
  lemma FixedPestalozzi(name: string) requires name == "Pestalozzi" ensures NormalizeSubcategoria("Educacion", name) == name {
    FoldPestalozzi(name);
    RewritePestalozzi();
    TrimmedPestalozzi();
    SubcategoriaFixedBy("Educacion", name, "pestalozzi");
  }

  lemma FoldUniDeSanAndres(name: string) requires name == "Uni. de San Andres" ensures CleanText(name) == "uni. de san andres" {
    LowerUniDeSanAndres();
    CleanUniDeSanAndres();
    FoldsTo(name, "uni. de san andres");
  }
  lemma LowerUniDeSanAndres() ensures ToLower("Uni. de San Andres") == "uni. de san andres" { }
  lemma CleanUniDeSanAndres() ensures IsClean("uni. de san andres") { }
  lemma TrimmedUniDeSanAndres() ensures Trimmed("Uni. de San Andres") { }
  lemma RewriteUniDeSanAndres() ensures SubcategoriaRewrite("Educacion", "uni. de san andres") == Some("Uni. de San Andres") {
    Absent("uni. de san andres", "pestalozzi", 0);
    Present("uni. de san andres", "san andr", 8);
  }
  lemma FixedUniDeSanAndres(name: string) requires name == "Uni. de San Andres" ensures NormalizeSubcategoria("Educacion", name) == name {
    FoldUniDeSanAndres(name);
    RewriteUniDeSanAndres();
    TrimmedUniDeSanAndres();
    SubcategoriaFixedBy("Educacion", name, "uni. de san andres");
  }

  lemma FoldPatenteMoto(name: string) requires name == "Patente Moto" ensures CleanText(name) == "patente moto" {
    LowerPatenteMoto();
    CleanPatenteMoto();
    FoldsTo(name, "patente moto");
  }
  lemma LowerPatenteMoto() ensures ToLower("Patente Moto") == "patente moto" { }
  lemma CleanPatenteMoto() ensures IsClean("patente moto") { }
  lemma TrimmedPatenteMoto() ensures Trimmed("Patente Moto") { }
  lemma RewritePatenteMoto() ensures SubcategoriaRewrite("Vehiculos", "patente moto") == Some("Patente Moto") {
    Present("patente moto", "patente moto", 0);
  }
  lemma FixedPatenteMoto(name: string) requires name == "Patente Moto" ensures NormalizeSubcategoria("Vehiculos", name) == name {
    FoldPatenteMoto(name);
    RewritePatenteMoto();
    TrimmedPatenteMoto();
    SubcategoriaFixedBy("Vehiculos", name, "patente moto");
  }

  lemma FoldPatenteAuto(name: string) requires name == "Patente Auto" ensures CleanText(name) == "patente auto" {
    LowerPatenteAuto();
    CleanPatenteAuto();
    FoldsTo(name, "patente auto");
  }
  lemma LowerPatenteAuto() ensures ToLower("Patente Auto") == "patente auto" { }
  lemma CleanPatenteAuto() ensures IsClean("patente auto") { }
  lemma TrimmedPatenteAuto() ensures Trimmed("Patente Auto") { }
  lemma RewritePatenteAuto() ensures SubcategoriaRewrite("Vehiculos", "patente auto") == Some("Patente Auto") {
    Absent("patente auto", "patente moto", 8);
    Present("patente auto", "patente auto", 0);
  }
  lemma FixedPatenteAuto(name: string) requires name == "Patente Auto" ensures NormalizeSubcategoria("Vehiculos", name) == name {
    FoldPatenteAuto(name);
    RewritePatenteAuto();
    TrimmedPatenteAuto();
    SubcategoriaFixedBy("Vehiculos", name, "patente auto");
  }

  lemma FoldAmex(name: string) requires name == "Amex" ensures CleanText(name) == "amex" {
    LowerAmex();
    CleanAmex();
    FoldsTo(name, "amex");
  }
  lemma LowerAmex() ensures ToLower("Amex") == "amex" { }
  lemma CleanAmex() ensures IsClean("amex") { }
  lemma TrimmedAmex() ensures Trimmed("Amex") { }
  lemma RewriteAmex() ensures SubcategoriaRewrite("Tarjetas", "amex") == Some("Amex") {
    Present("amex", "amex", 0);
  }
  lemma FixedAmex(name: string) requires name == "Amex" ensures NormalizeSubcategoria("Tarjetas", name) == name {
    FoldAmex(name);
    RewriteAmex();
    TrimmedAmex();
    SubcategoriaFixedBy("Tarjetas", name, "amex");
  }

  lemma FoldVisaGalicia(name: string) requires name == "Visa Galicia" ensures CleanText(name) == "visa galicia" {
    LowerVisaGalicia();
    CleanVisaGalicia();
    FoldsTo(name, "visa galicia");
  }
  lemma LowerVisaGalicia() ensures ToLower("Visa Galicia") == "visa galicia" { }
  lemma CleanVisaGalicia() ensures IsClean("visa galicia") { }
  lemma TrimmedVisaGalicia() ensures Trimmed("Visa Galicia") { }
  lemma RewriteVisaGalicia() ensures SubcategoriaRewrite("Tarjetas", "visa galicia") == Some("Visa Galicia") {
    Absent("visa galicia", "amex", 1);
    Present("visa galicia", "visa", 0);
  }
  lemma FixedVisaGalicia(name: string) requires name == "Visa Galicia" ensures NormalizeSubcategoria("Tarjetas", name) == name {
    FoldVisaGalicia(name);
    RewriteVisaGalicia();
    TrimmedVisaGalicia();
    SubcategoriaFixedBy("Tarjetas", name, "visa galicia");
  }

  lemma FoldMasterGalicia(name: string) requires name == "Master Galicia" ensures CleanText(name) == "master galicia" {
    LowerMasterGalicia();
    CleanMasterGalicia();
    FoldsTo(name, "master galicia");
  }
  lemma LowerMasterGalicia() ensures ToLower("Master Galicia") == "master galicia" { }
  lemma CleanMasterGalicia() ensures IsClean("master galicia") { }
  lemma TrimmedMasterGalicia() ensures Trimmed("Master Galicia") { }
  lemma RewriteMasterGalicia() ensures SubcategoriaRewrite("Tarjetas", "master galicia") == Some("Master Galicia") {
    Absent("master galicia", "amex", 3);
    Absent("master galicia", "visa", 0);
    Present("master galicia", "master", 0);
  }
  lemma FixedMasterGalicia(name: string) requires name == "Master Galicia" ensures NormalizeSubcategoria("Tarjetas", name) == name {
    FoldMasterGalicia(name);
    RewriteMasterGalicia();
    TrimmedMasterGalicia();
    SubcategoriaFixedBy("Tarjetas", name, "master galicia");
  }

  lemma FoldTarjetaMl(name: string) requires name == "Tarjeta ML" ensures CleanText(name) == "tarjeta ml" {
    LowerTarjetaMl();
    CleanTarjetaMl();
    FoldsTo(name, "tarjeta ml");
  }
  lemma LowerTarjetaMl() ensures ToLower("Tarjeta ML") == "tarjeta ml" { }
  lemma CleanTarjetaMl() ensures IsClean("tarjeta ml") { }
  lemma TrimmedTarjetaMl() ensures Trimmed("Tarjeta ML") { }
  lemma RewriteTarjetaMl() ensures SubcategoriaRewrite("Tarjetas", "tarjeta ml") == Some("Tarjeta ML") {
    Absent("tarjeta ml", "amex", 3);
    Absent("tarjeta ml", "visa", 0);
    Absent("tarjeta ml", "master", 2);
    Present("tarjeta ml", "ml", 8);
  }
  lemma FixedTarjetaMl(name: string) requires name == "Tarjeta ML" ensures NormalizeSubcategoria("Tarjetas", name) == name {
    FoldTarjetaMl(name);
    RewriteTarjetaMl();
    TrimmedTarjetaMl();
    SubcategoriaFixedBy("Tarjetas", name, "tarjeta ml");
  }

  lemma FoldSinSubcategoria(name: string) requires name == SinSubcategoria ensures CleanText(name) == "sin subcategoria" {
    LowerSinSubcategoria();
    CleanSinSubcategoria();
    FoldsTo(name, "sin subcategoria");
  }
  lemma LowerSinSubcategoria() ensures ToLower(SinSubcategoria) == "sin subcategoria" { }
  lemma CleanSinSubcategoria() ensures IsClean("sin subcategoria") { }
  lemma TrimmedSinSubcategoria() ensures Trimmed(SinSubcategoria) { }
  /** No category rewrites the default subcategory. */
  lemma RewriteSinSubcategoria(categoria: string) ensures SubcategoriaRewrite(categoria, "sin subcategoria") == None {
    Absent("sin subcategoria", "pestalozzi", 0);
    Absent("sin subcategoria", "san andr", 6);
    Absent("sin subcategoria", "patente moto", 0);
    Absent("sin subcategoria", "patente auto", 0);
    Absent("sin subcategoria", "amex", 1);
    Absent("sin subcategoria", "visa", 0);
    Absent("sin subcategoria", "master", 0);
    Absent("sin subcategoria", "ml", 0);
  }
  lemma FixedSinSubcategoria(categoria: string, name: string)
    requires name == SinSubcategoria
    ensures NormalizeSubcategoria(categoria, name) == name
  {
    FoldSinSubcategoria(name);
    RewriteSinSubcategoria(categoria);
    TrimmedSinSubcategoria();
    SubcategoriaFixedByRaw(categoria, name, "sin subcategoria");
  }

  /** Each canonical subcategory of a category, and the default, is a fixed point under it. */
  lemma SubcategoriaFixedPoints(categoria: string, name: string)
    requires name in SubcategoriaLabels(categoria) || name == SinSubcategoria
    ensures NormalizeSubcategoria(categoria, name) == name
  {
    if name == SinSubcategoria {
      FixedSinSubcategoria(categoria, name);
    } else if categoria == "Educacion" {
      FixedEducacionLabels(name);
    } else if categoria == "Vehiculos" {
      FixedVehiculosLabels(name);
    } else if categoria == "Tarjetas" {
      FixedTarjetasLabels(name);
    }
  }

  lemma FixedEducacionLabels(name: string)
    requires name in SubcategoriaLabels("Educacion")
    ensures NormalizeSubcategoria("Educacion", name) == name
  {
    if name == "Pestalozzi" {
      FixedPestalozzi(name);
    } else {
      FixedUniDeSanAndres(name);
    }
  }

  lemma FixedVehiculosLabels(name: string)
    requires name in SubcategoriaLabels("Vehiculos")
    ensures NormalizeSubcategoria("Vehiculos", name) == name
  {
    if name == "Patente Moto" {
      FixedPatenteMoto(name);
    } else {
      FixedPatenteAuto(name);
    }
  }

  lemma FixedTarjetasLabels(name: string)
    requires name in SubcategoriaLabels("Tarjetas")
    ensures NormalizeSubcategoria("Tarjetas", name) == name
  {
    if name == "Amex" {
      FixedAmex(name);
    } else if name == "Visa Galicia" {
      FixedVisaGalicia(name);
    } else if name == "Master Galicia" {
      FixedMasterGalicia(name);
    } else {
      FixedTarjetaMl(name);
    }
  }

  /** `normalizeSubcategoria` is idempotent under a fixed category. */
  lemma NormalizeSubcategoriaIdempotent(categoria: string, value: string)
    ensures NormalizeSubcategoria(categoria, NormalizeSubcategoria(categoria, value)) == NormalizeSubcategoria(categoria, value)
  {
    var raw := Trim(value);
    var r := NormalizeSubcategoria(categoria, value);
    var folded := CleanText(raw);
    SubcategoriaRewriteLabels(categoria, folded);
    match SubcategoriaRewrite(categoria, folded)
    case Some(canonical) =>
      SubcategoriaFixedPoints(categoria, r);
    case None =>
      if raw != [] {
        TrimIsTrimmed(value);
        SubcategoriaFixedByRaw(categoria, raw, folded);
      } else {
        FixedSinSubcategoria(categoria, r);
      }
  }

  /** Under Tarjetas "amex" is tested before "visa": text naming both is Amex. */
  lemma AmexBeforeVisa(value: string)
    requires value == "Visa Amex"
    ensures NormalizeSubcategoria("Tarjetas", value) == "Amex"
  {
    FoldVisaAmex(value);
    RewriteVisaAmex();
    TrimmedVisaAmex();
    TrimOfTrimmed(value);
  }
  lemma FoldVisaAmex(name: string) requires name == "Visa Amex" ensures CleanText(name) == "visa amex" {
    LowerVisaAmex();
    CleanVisaAmex();
    FoldsTo(name, "visa amex");
  }
  lemma LowerVisaAmex() ensures ToLower("Visa Amex") == "visa amex" { }
  lemma CleanVisaAmex() ensures IsClean("visa amex") { }
  lemma TrimmedVisaAmex() ensures Trimmed("Visa Amex") { }
  lemma RewriteVisaAmex() ensures SubcategoriaRewrite("Tarjetas", "visa amex") == Some("Amex") {
    Present("visa amex", "amex", 5);
  }

  // ---------------------------------------------------------------------
  // normalizeEgreso
  // ---------------------------------------------------------------------

  /** A ledger row as the normaliser receives it: every field may be absent. */
  datatype Egreso = Egreso(
    id: Option<int>,
    anio: Option<int>,
    mes: Option<int>,
    categoria: Option<string>,
    subcategoria: Option<string>,
    monto: Value,
    updatedAt: Option<int>)

  /** `String(field || "")` for an optional text field. */
  function TextOr(field: Option<string>): string {
    field.GetOr("")
  }

  /** `Number(monto || 0)`: falsy amounts become 0, numbers stay, text is parsed (NaN when it is not a numeral). */
  function NormalizeMonto(monto: Value): (r: Value)
    ensures r.Num? || r.NaN?
    ensures !Truthy(monto) ==> r == Num(0.0)
    ensures monto.Num? ==> r == monto
    ensures monto.Str? && monto.s != [] ==> r == FromNumber(ParseNumber(monto.s))
  {
    FromNumber(ToNumber(Or(monto, Num(0.0))))
  }

  /** A numeric amount is a fixed point; NaN is not, since it is falsy and becomes 0. */
  lemma NormalizeMontoIdempotent(monto: Value)
    ensures NormalizeMonto(monto) != NaN ==> NormalizeMonto(NormalizeMonto(monto)) == NormalizeMonto(monto)
    ensures NormalizeMonto(monto) == NaN ==> NormalizeMonto(NormalizeMonto(monto)) == Num(0.0)
  {
  }

  /** `normalizeEgreso`: canonical labels and a numeric amount; every other field is kept. */
  function NormalizeEgreso(row: Egreso): (r: Egreso)
    ensures r.id == row.id && r.anio == row.anio && r.mes == row.mes && r.updatedAt == row.updatedAt
    ensures r.categoria == Some(NormalizeCategoria(TextOr(row.categoria)))
    ensures r.subcategoria == Some(NormalizeSubcategoria(r.categoria.value, TextOr(row.subcategoria)))
    ensures r.monto == NormalizeMonto(row.monto)
  {
    var categoria := NormalizeCategoria(TextOr(row.categoria));
    var subcategoria := NormalizeSubcategoria(categoria, TextOr(row.subcategoria));
    row.(categoria := Some(categoria), subcategoria := Some(subcategoria), monto := NormalizeMonto(row.monto))
  }

  /**
   * Normalising twice is normalising once, unless the amount became NaN: a
   * second pass reads NaN as falsy and stores 0.
   */
  lemma NormalizeEgresoIdempotent(row: Egreso)
    ensures var once := NormalizeEgreso(row);
      once.monto != NaN ==> NormalizeEgreso(once) == once
    ensures NormalizeEgreso(row).monto == NaN ==> NormalizeEgreso(NormalizeEgreso(row)).monto == Num(0.0)
  {
    var once := NormalizeEgreso(row);
    var categoria := NormalizeCategoria(TextOr(row.categoria));
    var subcategoria := NormalizeSubcategoria(categoria, TextOr(row.subcategoria));
    NormalizeCategoriaIdempotent(TextOr(row.categoria));
    NormalizeSubcategoriaIdempotent(categoria, TextOr(row.subcategoria));
    NormalizeMontoIdempotent(row.monto);
    var twice := NormalizeEgreso(once);
    assert TextOr(once.categoria) == categoria && TextOr(once.subcategoria) == subcategoria;
    assert twice.categoria == once.categoria && twice.subcategoria == once.subcategoria;
  }

  // ---------------------------------------------------------------------
  // dedupeEgresos
  // ---------------------------------------------------------------------

  /** `${field ?? ""}` for an optional number. */
  function NumberText(field: Option<int>): string {
    match field
    case Some(n) => IntToString(n)
    case None => ""
  }

  /** `${field}` for an optional label (JavaScript writes a missing one as `undefined`). */
  function LabelText(field: Option<string>): string {
    match field
    case Some(t) => t
    case None => "undefined"
  }

  /** The deduplication key `anio-mes-categoria-subcategoria`. */
  function DedupeKey(row: Egreso): string {
    NumberText(row.anio) + "-" + NumberText(row.mes) + "-" + LabelText(row.categoria) + "-" + LabelText(row.subcategoria)
  }

  /** Labels containing '-' can make different rows share a key. */
  lemma DedupeKeyCollision(row: Egreso)
    ensures var a := row.(categoria := Some("a-b"), subcategoria := Some("c"));
            var b := row.(categoria := Some("a"), subcategoria := Some("b-c"));
            a != b && DedupeKey(a) == DedupeKey(b)
  {
    var p := NumberText(row.anio) + "-" + NumberText(row.mes) + "-";
    assert DedupeKey(row.(categoria := Some("a-b"), subcategoria := Some("c"))) == p + "a-b-c";
    assert DedupeKey(row.(categoria := Some("a"), subcategoria := Some("b-c"))) == p + "a-b-c";
  }

  /** A key part that can be split off: no '-' in it. */
  predicate HyphenFree(t: string) {
    '-' !in t
  }

  lemma NumberTextHyphenFree(field: Option<int>)
    requires field.Some? ==> field.value >= 0
    ensures HyphenFree(NumberText(field))
  {
    if field.Some? {
      var t := IntToString(field.value);
      assert forall i :: 0 <= i < |t| ==> IsDigit(t[i]);
    }
  }

  lemma NumberTextInjective(a: Option<int>, b: Option<int>)
    requires NumberText(a) == NumberText(b)
    ensures a == b
  {
    if a.Some? && b.Some? {
      IntToStringInjective(a.value, b.value);
    }
  }

  /**
   * With non-negative years and months and labels free of '-', different
   * rows have different keys: the key is a faithful code for the four fields.
   */
  lemma DedupeKeyInjective(a: Egreso, b: Egreso)
    requires a.anio.Some? ==> a.anio.value >= 0
    requires a.mes.Some? ==> a.mes.value >= 0
    requires b.anio.Some? ==> b.anio.value >= 0
    requires b.mes.Some? ==> b.mes.value >= 0
    requires a.categoria.Some? && b.categoria.Some? && a.subcategoria.Some? && b.subcategoria.Some?
    requires HyphenFree(a.categoria.value) && HyphenFree(b.categoria.value)
    requires DedupeKey(a) == DedupeKey(b)
    ensures a.anio == b.anio && a.mes == b.mes && a.categoria == b.categoria && a.subcategoria == b.subcategoria
  {
    NumberTextHyphenFree(a.anio);
    NumberTextHyphenFree(a.mes);
    NumberTextHyphenFree(b.anio);
    NumberTextHyphenFree(b.mes);
    KeyFieldsInjective(NumberText(a.anio), NumberText(a.mes), a.categoria.value, a.subcategoria.value,
                       NumberText(b.anio), NumberText(b.mes), b.categoria.value, b.subcategoria.value);
    NumberTextInjective(a.anio, b.anio);
    NumberTextInjective(a.mes, b.mes);
  }

  /** Four parts joined by '-' come apart again when the first three have no '-'. */
  lemma KeyFieldsInjective(y: string, m: string, c: string, t: string, y': string, m': string, c': string, t': string)
    requires HyphenFree(y) && HyphenFree(m) && HyphenFree(c) && HyphenFree(y') && HyphenFree(m') && HyphenFree(c')
    requires y + "-" + m + "-" + c + "-" + t == y' + "-" + m' + "-" + c' + "-" + t'
    ensures y == y' && m == m' && c == c' && t == t'
  {
    assert y + "-" + m + "-" + c + "-" + t == y + "-" + (m + "-" + (c + "-" + t));
    assert y' + "-" + m' + "-" + c' + "-" + t' == y' + "-" + (m' + "-" + (c' + "-" + t'));
    SplitAtSeparator(y, '-', m + "-" + (c + "-" + t), y', m' + "-" + (c' + "-" + t'));
    SplitAtSeparator(m, '-', c + "-" + t, m', c' + "-" + t');
    SplitAtSeparator(c, '-', t, c', t');
  }

  /** `updated_at` as a number, 0 when absent. */
  function Timestamp(row: Egreso): int {
    row.updatedAt.GetOr(0)
  }

  /** `Number(id || 0)`. */
  function IdNumber(row: Egreso): int {
    row.id.GetOr(0)
  }

  /** The replacement test: `row` is strictly later than `prev` in (timestamp, id) order. */
  predicate Supersedes(row: Egreso, prev: Egreso) {
    Timestamp(row) > Timestamp(prev) || (Timestamp(row) == Timestamp(prev) && IdNumber(row) > IdNumber(prev))
  }

  /** The (timestamp, id) order is a strict total order on ranks. */
  lemma SupersedesOrder(a: Egreso, b: Egreso, c: Egreso)
    ensures !Supersedes(a, a)
    ensures Supersedes(a, b) ==> !Supersedes(b, a)
    ensures Supersedes(a, b) && Supersedes(b, c) ==> Supersedes(a, c)
    ensures !Supersedes(a, b) && !Supersedes(b, a) ==> Timestamp(a) == Timestamp(b) && IdNumber(a) == IdNumber(b)
  {
  }

  /**
   * The result order: by categoria, then by subcategoria
   * (`localeCompare`, read as code-point order).
   */
  predicate LabelsLe(a: Egreso, b: Egreso) {
    var ca, cb := TextOr(a.categoria), TextOr(b.categoria);
    if ca != cb then Less(ca, cb) else LessEq(TextOr(a.subcategoria), TextOr(b.subcategoria))
  }

  lemma LabelsLeTotalPreorder()
    ensures TotalPreorder(LabelsLe)
  {
    forall a, b ensures LabelsLe(a, b) || LabelsLe(b, a) {
      LessTotal(TextOr(a.categoria), TextOr(b.categoria));
      LessTotal(TextOr(a.subcategoria), TextOr(b.subcategoria));
    }
    forall a, b, c | LabelsLe(a, b) && LabelsLe(b, c) ensures LabelsLe(a, c) {
      var ca, cb, cc := TextOr(a.categoria), TextOr(b.categoria), TextOr(c.categoria);
      var sa, sb, sc := TextOr(a.subcategoria), TextOr(b.subcategoria), TextOr(c.subcategoria);
      LessTransitive(ca, cb, cc);
      LessTransitive(sa, sb, sc);
      LessAsymmetric(ca, cb);
      LessIrreflexive(ca);
    }
  }

  /** The (timestamp, id) replacement test is a strict weak order. */
  lemma SupersedesStrictWeakOrder()
    ensures StrictWeakOrder(Supersedes)
  {
    forall a, b, c | Supersedes(a, b) ensures Supersedes(a, c) || Supersedes(c, b) {
      SupersedesOrder(a, b, c);
    }
  }

  /** `rows.map(normalizeEgreso)`, as the loop of `dedupeEgresos` visits them. */
  function Normalized(rows: seq<Egreso>): (ns: seq<Egreso>)
    ensures |ns| == |rows| && forall i :: 0 <= i < |rows| ==> ns[i] == NormalizeEgreso(rows[i])
  {
    Map(NormalizeEgreso, rows)
  }

  /**
   * Row `w` is the one kept for its key: no normalised row with that key
   * supersedes it, and it supersedes every earlier one — so it has the
   * largest (timestamp, id), and among equals it is the first.
   */
  ghost predicate Chosen(rows: seq<Egreso>, w: int)
    requires 0 <= w < |rows|
  {
    ChosenAmong(Normalized(rows), DedupeKey, Supersedes, w, |rows|)
  }

  /** At most one row is chosen per key. */
  lemma ChosenUnique(rows: seq<Egreso>, v: int, w: int)
    requires 0 <= v < |rows| && 0 <= w < |rows| && Chosen(rows, v) && Chosen(rows, w)
    requires DedupeKey(Normalized(rows)[v]) == DedupeKey(Normalized(rows)[w])
    ensures v == w
  {
    Grouping.ChosenUnique(Normalized(rows), DedupeKey, Supersedes, v, w);
  }

  /**
   * What deduplicating `rows` gives: sorted by (categoria, subcategoria), one
   * row per key, each row the chosen normalised row of its key, and every
   * key of the input represented.
   */
  ghost predicate DedupedFrom(rows: seq<Egreso>, out: seq<Egreso>) {
    SortedBy(out, LabelsLe) &&
    DistinctKeys(out, DedupeKey) &&
    (forall r | r in out :: exists w :: 0 <= w < |rows| && r == Normalized(rows)[w] && Chosen(rows, w)) &&
    (forall j | 0 <= j < |rows| :: DedupeKey(Normalized(rows)[j]) in Map(DedupeKey, out))
  }

  /**
   * `dedupeEgresos`: one normalised row per key, the chosen one, sorted by
   * (categoria, subcategoria).
   */
  method DedupeEgresos(rows: seq<Egreso>) returns (out: seq<Egreso>)
    ensures DedupedFrom(rows, out)
  {
    var ns := Normalized(rows);
    SupersedesStrictWeakOrder();
    var values := Dedupe(ns, DedupeKey, Supersedes);
    out := Sort(values, LabelsLe);
    LabelsLeTotalPreorder();
    SortSorted(values, LabelsLe);
    SortKeepsDistinct(values, LabelsLe, DedupeKey);
    forall r ensures r in out <==> r in values {
      SortSameElements(values, LabelsLe, r);
    }
    forall j | 0 <= j < |rows| ensures DedupeKey(ns[j]) in Map(DedupeKey, out) {
      MapSameElements(DedupeKey, values, out, DedupeKey(ns[j]));
    }
  }
}
