/** The cash-flow dataset controller, without its HTTP and database calls:
    the validation and normalisation of imported movements, the period and
    totals of a new dataset, and appending movements to a stored dataset.

    A request body arrives as JavaScript values; the model receives them
    already read into datatypes, with None or "" where the controller tests for
    a missing or falsy value. The duplicate-name lookup is a boolean
    parameter. */
module DatasetController {
  import opened Wrappers
  import opened JsStrings
  import opened JsArrays
  import opened DateStrings
  import opened DatasetModels

  // ---------------------------------------------------------------------------
  // Categories
  // ---------------------------------------------------------------------------

  /** `m.categoria` as it arrives: falsy, a string "Grupo:Subgrupo", or an
      object `{grupo, subgrupo}` whose falsy fields are "" (a truthy
      `subgrupo` is its `String(...)` value). */
  datatype RawCategoria = Absent | Text(text: string) | Record(grupo: string, subgrupo: string)

  /** A normalised category: `grupo` and an optional (`null` when None)
      `subgrupo`. */
  datatype Categoria = Categoria(grupo: string, subgrupo: Option<string>)

  const Unclassified: string := "SinClasificar"

  /** `normalizeCategoria`. The controller trims the default group too, which
      leaves "SinClasificar" as it is (`UnclassifiedIsTrimmed`). */
  function NormalizeCategoria(c: RawCategoria): (r: Categoria)
    ensures IsTrimmed(r.grupo)
    ensures r.subgrupo.Some? ==> IsTrimmed(r.subgrupo.value)
    ensures c.Record? && r.subgrupo.Some? ==> r.subgrupo.value != ""
  {
    match c
    case Absent => Categoria(Unclassified, None)
    case Text(t) =>
      if t == "" then Categoria(Unclassified, None)
      else
        var parts := Split(t, ':');
        var grupo := parts[0];
        var sub := Join(parts[1..], ':');
        Categoria(if grupo == "" then Unclassified else Trim(grupo), if sub != "" then Some(Trim(sub)) else None)
    case Record(g, sg) =>
      var sub := if sg != "" then Trim(sg) else "";
      Categoria(if g == "" then Unclassified else Trim(g), if sub != "" then Some(sub) else None)
  }

  lemma UnclassifiedIsTrimmed()
    ensures Trim(Unclassified) == Unclassified
  {
    TrimOfTrimmed(Unclassified);
  }

  /** A falsy value is "SinClasificar" without a subgroup. */
  lemma NormalizeFalsyCategoria(c: RawCategoria)
    requires c.Absent? || c == Text("")
    ensures NormalizeCategoria(c) == Categoria(Unclassified, None)
  {
  }

  /** A string is cut at its first ':'. The text before it is the group
      ("SinClasificar" when empty) and the text after it, which may hold
      further ':', is the subgroup (None when empty); both are trimmed. */
  lemma NormalizeTextCategoria(t: string)
    requires t != ""
    ensures var r := NormalizeCategoria(Text(t));
            var i := IndexOfChar(t, ':');
            var before := if i < 0 then t else t[..i];
            var after := if i < 0 then "" else t[i + 1..];
            && r.grupo == (if before == "" then Unclassified else Trim(before))
            && r.subgrupo == (if after == "" then None else Some(Trim(after)))
  {
    SplitFirst(t, ':');
    UnclassifiedIsTrimmed();
  }

  /** An object keeps its trimmed group ("SinClasificar" when falsy) and its
      trimmed subgroup, None when that is falsy or blank. */
  lemma NormalizeRecordCategoria(g: string, sg: string)
    ensures var r := NormalizeCategoria(Record(g, sg));
            && r.grupo == (if g == "" then Unclassified else Trim(g))
            && r.subgrupo == (if Trim(sg) == "" then None else Some(Trim(sg)))
  {
    UnclassifiedIsTrimmed();
    if g == "" {
      assert NormalizeCategoria(Record(g, sg)).grupo == Unclassified;
    }
  }

  /** A category as the normaliser leaves an object that had a group: both
      parts trimmed, the group non-empty, the subgroup non-empty when
      present. */
  predicate IsNormalCategoria(c: Categoria) {
    && c.grupo != "" && IsTrimmed(c.grupo)
    && (c.subgrupo.Some? ==> c.subgrupo.value != "" && IsTrimmed(c.subgrupo.value))
  }

  /** The object form of a normalised category, as it is stored. */
  function AsRecord(c: Categoria): RawCategoria {
    Record(c.grupo, c.subgrupo.GetOr(""))
  }

  /** An object with a non-blank group normalises to a normal category. */
  lemma NormalizeRecordIsNormal(g: string, sg: string)
    requires Trim(g) != ""
    ensures IsNormalCategoria(NormalizeCategoria(Record(g, sg)))
  {
  }

  /** Normalising a stored category gives it back. */
  lemma NormalizeStoredCategoria(c: Categoria)
    requires IsNormalCategoria(c)
    ensures NormalizeCategoria(AsRecord(c)) == c
  {
    TrimOfTrimmed(c.grupo);
    if c.subgrupo.Some? {
      TrimOfTrimmed(c.subgrupo.value);
    }
  }

  /** "Grupo:Subgrupo" round trip: a trimmed group without ':' and a trimmed
      subgroup, which may hold ':', are recovered from the string. */
  lemma NormalizeTextRoundTrip(g: string, sg: string)
    requires g != "" && ':' !in g && IsTrimmed(g)
    requires sg != "" && IsTrimmed(sg)
    ensures NormalizeCategoria(Text(g + [':'] + sg)) == Categoria(g, Some(sg))
  {
    var t := g + [':'] + sg;
    SplitAroundSeparator(g, ':', sg);
    JoinSplit(sg, ':');
    TrimOfTrimmed(g);
    TrimOfTrimmed(sg);
  }

  /** A string without ':' is all group. */
  lemma NormalizeTextWithoutSeparator(t: string)
    requires t != "" && ':' !in t
    ensures NormalizeCategoria(Text(t)) == Categoria(Trim(t), None)
  {
    SplitNoSeparator(t, ':');
  }

  /** The two paths differ on a blank subgroup: the object path drops it, the
      string path keeps it as the empty string. */
  lemma BlankSubgroupPaths(g: string, w: string)
    requires g != "" && ':' !in g && IsTrimmed(g)
    requires w != [] && forall i :: 0 <= i < |w| ==> IsWhitespace(w[i])
    ensures NormalizeCategoria(Record(g, w)).subgrupo == None
    ensures NormalizeCategoria(Text(g + [':'] + w)).subgrupo == Some("")
  {
    BlankTrimsToEmpty(w);
    SplitAroundSeparator(g, ':', w);
    JoinSplit(w, ':');
  }

  lemma BlankTrimsToEmpty(w: string)
    requires forall i :: 0 <= i < |w| ==> IsWhitespace(w[i])
    ensures Trim(w) == ""
  {
  }

  // ---------------------------------------------------------------------------
  // Dataset types
  // ---------------------------------------------------------------------------

  const DefaultDatasetType: string := "other"

  const OtherDisplayName: string := "Otros"

  /** The display-name table of `getDisplayName`. */
  function DisplayName(t: DatasetType): string {
    match t
    case Cashflow => "Flujo de Caja"
    case Inventory => "Inventario"
    case Investment => "Inversiones"
    case HumanResources => "Recursos Humanos"
    case Marketing => "Marketing"
    case Sales => "Ventas"
    case Other => OtherDisplayName
  }

  /** `getDisplayName`: the listed name of a known type, "Otros" otherwise. */
  function GetDisplayName(datasetType: string): (name: string)
    ensures (forall t :: TypeKey(t) != datasetType) ==> name == OtherDisplayName
  {
    match ParseDatasetType(datasetType)
    case Some(t) => DisplayName(t)
    case None => OtherDisplayName
  }

  /** A known type gets its listed name. */
  lemma GetDisplayNameOfType(t: DatasetType)
    ensures GetDisplayName(TypeKey(t)) == DisplayName(t)
  {
    ParseTypeKey(t);
  }

  /** The listed names are all different, so only "other" and the unknown
      types share a display name. */
  lemma DisplayNameInjective(t1: DatasetType, t2: DatasetType)
    requires DisplayName(t1) == DisplayName(t2)
    ensures t1 == t2
  {
  }

  // ---------------------------------------------------------------------------
  // Movements
  // ---------------------------------------------------------------------------

  /** One element of the `movements` array as it arrives. `tipo` is None
      when it is not a string; `fecha` is None for `null`/`undefined` and
      `String(fecha)` otherwise; `monto` is `Number(monto)`, None for NaN;
      `saldo` is present only when it is a number; `nota`, `source` and
      `externalId` are "" when falsy. */
  datatype RawMovement = RawMovement(
    tipo: Option<string>,
    fecha: Option<string>,
    monto: Option<real>,
    categoria: RawCategoria,
    saldo: Option<real>,
    nota: string,
    source: string,
    externalId: string)

  /** A normalised movement, as it is stored. */
  datatype Movement = Movement(
    fecha: string,
    categoria: Categoria,
    tipo: string,
    monto: real,
    saldo: Option<real>,
    nota: Option<string>,
    source: string,
    externalId: Option<string>)

  const Income: string := "ingreso"
  const Expense: string := "egreso"
  const DefaultSource: string := "csv"

  /** Why a movement is rejected. */
  datatype Reason = InvalidTipo | InvalidFecha | InvalidMonto

  /** A rejected batch: the 1-based position of the first bad movement and
      why it is bad. */
  datatype Rejection = Rejection(position: nat, reason: Reason)

  /** The text after "Movimiento #<position>: " in the 400 response. */
  function ReasonText(r: Reason): string {
    match r
    case InvalidTipo => "tipo inválido (ingreso|egreso)"
    case InvalidFecha => "fecha inválida (DD/MM/YY o DD/MM/YYYY)"
    case InvalidMonto => "monto inválido (debe ser > 0)"
  }

  /** `tipo` is a string that trims to "ingreso" or "egreso". */
  predicate HasValidTipo(m: RawMovement) {
    m.tipo.Some? && (Trim(m.tipo.value) == Income || Trim(m.tipo.value) == Expense)
  }

  /** `monto` is a number above zero (so neither NaN nor 0). */
  predicate HasValidMonto(m: RawMovement) {
    m.monto.Some? && m.monto.value > 0.0
  }

  /** The record the loop pushes for a movement that passed the three
      checks: trimmed `tipo` and `fecha`, the amount's absolute value, the
      normalised category, `saldo`, the trimmed `nota` when it is not blank,
      `source` ("csv" when falsy) and `externalId` when truthy. */
  function NormalizedRecord(m: RawMovement): Movement
    requires m.tipo.Some? && m.fecha.Some? && m.monto.Some?
  {
    var monto := m.monto.value;
    Movement(
      Trim(m.fecha.value),
      NormalizeCategoria(m.categoria),
      Trim(m.tipo.value),
      if monto < 0.0 then -monto else monto,
      m.saldo,
      if m.nota != "" && |Trim(m.nota)| > 0 then Some(Trim(m.nota)) else None,
      if m.source != "" then m.source else DefaultSource,
      if m.externalId != "" then Some(m.externalId) else None)
  }

  /** The body of the normalisation loop for one movement: the three checks
      in order, then the normalised record. */
  function NormalizeMovement(m: RawMovement): (r: Result<Movement, Reason>)
    ensures r.Success? ==> (r.value.tipo == Income || r.value.tipo == Expense) && r.value.monto > 0.0
  {
    var tipo := if m.tipo.Some? then Trim(m.tipo.value) else "";
    if tipo != Income && tipo != Expense then Failure(InvalidTipo)
    else if !IsFechaString(m.fecha) then Failure(InvalidFecha)
    else if !(m.monto.Some? && m.monto.value != 0.0 && m.monto.value > 0.0) then Failure(InvalidMonto)
    else Success(NormalizedRecord(m))
  }

  /** A movement is accepted exactly when its `tipo`, its `fecha` and its
      `monto` are all valid; a rejected one reports the first of the three
      checks it fails. */
  lemma NormalizeMovementChecks(m: RawMovement)
    ensures NormalizeMovement(m).Success? <==> HasValidTipo(m) && IsFechaString(m.fecha) && HasValidMonto(m)
    ensures NormalizeMovement(m).Failure? ==>
              NormalizeMovement(m).error == (if !HasValidTipo(m) then InvalidTipo
                                             else if !IsFechaString(m.fecha) then InvalidFecha
                                             else InvalidMonto)
  {
  }

  /** An accepted movement keeps its trimmed `tipo`, which is "ingreso" or
      "egreso", its trimmed `fecha` exactly as written, which still passes
      the date check, its (positive) amount and its `saldo`; its category is
      normalised, its `source` is never empty ("csv" by default), and its
      `nota`, when kept, is trimmed and not blank. */
  lemma NormalizedMovementFields(m: RawMovement)
    requires NormalizeMovement(m).Success?
    ensures var mv := NormalizeMovement(m).value;
            && (mv.tipo == Income || mv.tipo == Expense)
            && mv.tipo == Trim(m.tipo.value)
            && mv.fecha == Trim(m.fecha.value) && IsFechaString(Some(mv.fecha))
            && mv.monto == m.monto.value && mv.monto > 0.0
            && mv.categoria == NormalizeCategoria(m.categoria)
            && mv.saldo == m.saldo
            && mv.source == (if m.source == "" then DefaultSource else m.source)
            && (mv.nota.Some? ==> mv.nota.value != "" && IsTrimmed(mv.nota.value))
            && mv.nota == (if Trim(m.nota) != "" then Some(Trim(m.nota)) else None)
            && (mv.externalId.Some? ==> mv.externalId.value != "")
            && mv.externalId == (if m.externalId != "" then Some(m.externalId) else None)
  {
    TrimIdempotent(m.fecha.value);
    NormalizedNota(m);
  }

  /** The kept `nota` is the trimmed text whenever that is not blank. */
  lemma NormalizedNota(m: RawMovement)
    requires NormalizeMovement(m).Success?
    ensures var nota := NormalizeMovement(m).value.nota;
            && nota == (if Trim(m.nota) != "" then Some(Trim(m.nota)) else None)
            && (nota.Some? ==> nota.value != "" && IsTrimmed(nota.value))
  {
    TrimIdempotent(m.nota);
    assert Trim("") == "";
  }

  /** A stored movement read back as a request element. */
  function AsRaw(mv: Movement): RawMovement {
    RawMovement(Some(mv.tipo), Some(mv.fecha), Some(mv.monto), AsRecord(mv.categoria),
                mv.saldo, mv.nota.GetOr(""), mv.source, mv.externalId.GetOr(""))
  }

  /** The form in which the normaliser leaves a movement whose category
      had a group. */
  predicate IsNormalMovement(mv: Movement) {
    && (mv.tipo == Income || mv.tipo == Expense)
    && IsFechaShape(mv.fecha)
    && mv.monto > 0.0
    && IsNormalCategoria(mv.categoria)
    && mv.source != ""
    && (mv.nota.Some? ==> mv.nota.value != "" && IsTrimmed(mv.nota.value))
    && (mv.externalId.Some? ==> mv.externalId.value != "")
  }

  /** A movement the normaliser produced with a normal category is in normal
      form. */
  lemma NormalizedIsNormal(m: RawMovement)
    requires NormalizeMovement(m).Success?
    requires IsNormalCategoria(NormalizeMovement(m).value.categoria)
    ensures IsNormalMovement(NormalizeMovement(m).value)
  {
    NormalizedMovementFields(m);
  }

  /** A movement in normal form is accepted and reproduced unchanged when it
      is imported again, so normalisation is idempotent. */
  lemma RenormalizeMovement(mv: Movement)
    requires IsNormalMovement(mv)
    ensures NormalizeMovement(AsRaw(mv)) == Success(mv)
  {
    var m2 := AsRaw(mv);
    KindIsTrimmed(mv.tipo);
    FechaShapeIsTrimmed(mv.fecha);
    assert IsFechaString(m2.fecha);
    NormalizeStoredCategoria(mv.categoria);
    NotaRoundTrip(mv.nota);
  }

  /** "ingreso" and "egreso" have no surrounding whitespace. */
  lemma KindIsTrimmed(tipo: string)
    requires tipo == Income || tipo == Expense
    ensures Trim(tipo) == tipo
  {
    assert !IsWhitespace(tipo[0]) && !IsWhitespace(tipo[|tipo| - 1]);
    TrimOfTrimmed(tipo);
  }

  /** A kept `nota`, written back as text, is kept again unchanged; a
      dropped one, written back as "", is dropped again. */
  lemma NotaRoundTrip(nota: Option<string>)
    requires nota.Some? ==> nota.value != "" && IsTrimmed(nota.value)
    ensures var raw := nota.GetOr("");
            (if raw != "" && |Trim(raw)| > 0 then Some(Trim(raw)) else None) == nota
  {
    if nota.Some? {
      TrimOfTrimmed(nota.value);
    }
  }

  /** The normalisation of a whole batch in `createDataset` and
      `addMovementsToDataset`: the normalised movements, or the 1-based
      position and reason of the first invalid one. */
  function NormalizeBatch(raw: seq<RawMovement>): (r: Result<seq<Movement>, Rejection>)
    ensures r.Success? ==> |r.value| == |raw|
  {
    match TryMap(raw, NormalizeMovement)
    case Success(ms) => Success(ms)
    case Failure((k, reason)) => Failure(Rejection(k + 1, reason))
  }

  /** Either every movement is valid and the batch holds, in order, each one
      normalised, or the batch is rejected at the first invalid movement. */
  lemma NormalizeBatchMeaning(raw: seq<RawMovement>)
    ensures var r := NormalizeBatch(raw);
            && (r.Success? <==> forall i :: 0 <= i < |raw| ==> NormalizeMovement(raw[i]).Success?)
            && (r.Success? ==> |r.value| == |raw|
                               && forall i :: 0 <= i < |raw| ==> Success(r.value[i]) == NormalizeMovement(raw[i]))
            && (r.Failure? ==> && 1 <= r.error.position <= |raw|
                               && NormalizeMovement(raw[r.error.position - 1]) == Failure(r.error.reason)
                               && forall j :: 0 <= j < r.error.position - 1 ==> NormalizeMovement(raw[j]).Success?)
  {
    var t := TryMap(raw, NormalizeMovement);
    TryMapMeaning(raw, NormalizeMovement);
    if t.Failure? {
      assert NormalizeBatch(raw) == Failure(Rejection(t.error.0 + 1, t.error.1));
    } else {
      assert NormalizeBatch(raw) == Success(t.value);
    }
  }

  /** Every movement of an accepted batch has a non-empty date. */
  lemma BatchFechasNonEmpty(raw: seq<RawMovement>)
    requires NormalizeBatch(raw).Success?
    ensures forall i :: 0 <= i < |NormalizeBatch(raw).value| ==> Fechas(NormalizeBatch(raw).value)[i] != ""
  {
    var ms := NormalizeBatch(raw).value;
    NormalizeBatchMeaning(raw);
    forall i | 0 <= i < |ms|
      ensures ms[i].fecha != ""
    {
      assert Success(ms[i]) == NormalizeMovement(raw[i]);
      NormalizedFechaNonEmpty(raw[i]);
    }
  }

  lemma NormalizedFechaNonEmpty(m: RawMovement)
    requires NormalizeMovement(m).Success?
    ensures NormalizeMovement(m).value.fecha != ""
  {
    assert IsFechaShape(Trim(m.fecha.value));
  }

  /** The normalisation loop. */
  method NormalizeMovements(raw: seq<RawMovement>) returns (r: Result<seq<Movement>, Rejection>)
    ensures r == NormalizeBatch(raw)
  {
    var converted := ConvertAll(raw, NormalizeMovement);
    if converted.Failure? {
      return Failure(Rejection(converted.error.0 + 1, converted.error.1));
    }
    return Success(converted.value);
  }

  // ---------------------------------------------------------------------------
  // Period
  // ---------------------------------------------------------------------------

  /** The comparator of the period sort: `localeCompare` of the sort keys,
      taken as code-unit order. */
  predicate KeyLess(a: string, b: string)
    ensures KeyLess(a, b) ==> !LexLess(ToSortableKey(b), ToSortableKey(a)) && ToSortableKey(a) != ToSortableKey(b)
  {
    LexLessNotBoth(ToSortableKey(a), ToSortableKey(b));
    LexLess(ToSortableKey(a), ToSortableKey(b))
  }

  /** The comparator orders as a sort needs: dates with equal keys tie. */
  lemma KeyLessIsStrictWeakOrder()
    ensures IsStrictWeakOrder(KeyLess)
  {
    forall a, b | KeyLess(a, b)
      ensures !KeyLess(b, a)
    {
      LexLessAsymmetric(ToSortableKey(a), ToSortableKey(b));
    }
    forall a, b, c | KeyLess(a, b)
      ensures KeyLess(a, c) || KeyLess(c, b)
    {
      var ka, kb, kc := ToSortableKey(a), ToSortableKey(b), ToSortableKey(c);
      LexLessTotal(ka, kc);
      if LexLess(kc, ka) {
        LexLessTransitive(kc, ka, kb);
      }
    }
  }

  /** The earliest and latest dates, `undefined` (None) when the list is
      empty or the chosen date is "". */
  function PeriodStart(fechas: seq<string>): (r: Option<string>)
    ensures r.Some? ==> r.value != "" && r.value in fechas
  {
    if fechas == [] then None
    else
      KeyLessIsStrictWeakOrder();
      var f := fechas[FirstBy(fechas, KeyLess)];
      if f == "" then None else Some(f)
  }

  function PeriodEnd(fechas: seq<string>): (r: Option<string>)
    ensures r.Some? ==> r.value != "" && r.value in fechas
  {
    if fechas == [] then None
    else
      KeyLessIsStrictWeakOrder();
      var f := fechas[LastBy(fechas, KeyLess)];
      if f == "" then None else Some(f)
  }

  /** The period of a non-empty list of non-empty dates starts at a date no
      other sorts before and ends at one no other sorts after. */
  lemma PeriodBounds(fechas: seq<string>)
    requires fechas != [] && forall i :: 0 <= i < |fechas| ==> fechas[i] != ""
    ensures PeriodStart(fechas).Some? && PeriodEnd(fechas).Some?
    ensures forall i :: 0 <= i < |fechas| ==> !KeyLess(fechas[i], PeriodStart(fechas).value)
    ensures forall i :: 0 <= i < |fechas| ==> !KeyLess(PeriodEnd(fechas).value, fechas[i])
  {
    KeyLessIsStrictWeakOrder();
  }

  /** The `fecha` of each movement, in order (`normalized.map(x => x.fecha)`). */
  function Fechas(ms: seq<Movement>): (r: seq<string>)
    ensures |r| == |ms| && forall i :: 0 <= i < |ms| ==> r[i] == ms[i].fecha
  {
    Map(ms, (m: Movement) => m.fecha)
  }

  // ---------------------------------------------------------------------------
  // Totals
  // ---------------------------------------------------------------------------

  /** The sum of the amounts of the "ingreso" movements. */
  function IncomeSum(ms: seq<Movement>): real {
    if ms == [] then 0.0
    else IncomeSum(ms[..|ms| - 1]) + (if ms[|ms| - 1].tipo == Income then ms[|ms| - 1].monto else 0.0)
  }

  /** The sum of the amounts of all other movements, which the controller
      counts as expenses. */
  function ExpenseSum(ms: seq<Movement>): real {
    if ms == [] then 0.0
    else ExpenseSum(ms[..|ms| - 1]) + (if ms[|ms| - 1].tipo == Income then 0.0 else ms[|ms| - 1].monto)
  }

  /** The sum of all amounts. */
  function MontoSum(ms: seq<Movement>): real {
    if ms == [] then 0.0 else MontoSum(ms[..|ms| - 1]) + ms[|ms| - 1].monto
  }

  /** Income and expenses partition the amounts. */
  lemma {:induction false} TotalsPartition(ms: seq<Movement>)
    ensures IncomeSum(ms) + ExpenseSum(ms) == MontoSum(ms)
  {
    if ms != [] {
      TotalsPartition(ms[..|ms| - 1]);
    }
  }

  /** With positive amounts, both totals are non-negative, and a movement of
      each kind makes its total positive. */
  lemma {:induction false} TotalsNonNegative(ms: seq<Movement>)
    requires forall i :: 0 <= i < |ms| ==> ms[i].monto > 0.0
    ensures IncomeSum(ms) >= 0.0 && ExpenseSum(ms) >= 0.0
    ensures (exists i :: 0 <= i < |ms| && ms[i].tipo == Income) ==> IncomeSum(ms) > 0.0
    ensures (exists i :: 0 <= i < |ms| && ms[i].tipo != Income) ==> ExpenseSum(ms) > 0.0
  {
    if ms != [] {
      var n := |ms| - 1;
      TotalsNonNegative(ms[..n]);
      assert forall i :: 0 <= i < n ==> ms[..n][i] == ms[i];
    }
  }

  /** The totals loop of `createDataset`. */
  method Totals(ms: seq<Movement>) returns (ingresos: real, egresos: real)
    ensures ingresos == IncomeSum(ms) && egresos == ExpenseSum(ms)
    ensures ingresos + egresos == MontoSum(ms)
  {
    ingresos, egresos := 0.0, 0.0;
    var i := 0;
    while i < |ms|
      invariant 0 <= i <= |ms|
      invariant ingresos == IncomeSum(ms[..i]) && egresos == ExpenseSum(ms[..i])
    {
      assert ms[..i + 1][..i] == ms[..i];
      if ms[i].tipo == Income {
        ingresos := ingresos + ms[i].monto;
      } else {
        egresos := egresos + ms[i].monto;
      }
      i := i + 1;
    }
    assert ms[..|ms|] == ms;
    TotalsPartition(ms);
  }

  // ---------------------------------------------------------------------------
  // createDataset
  // ---------------------------------------------------------------------------

  /** `currency` as it arrives: falsy, a string, or another truthy value. */
  datatype CurrencyInput = NoCurrency | CurrencyText(text: string) | CurrencyOther

  /** The fields of the request body the controller reads. `datasetName` is
      None when it is not a string, `movements` None when it is not an array,
      and a falsy `datasetType` is "". */
  datatype CreateRequest = CreateRequest(
    datasetName: Option<string>,
    originalFileName: Option<string>,
    importedBy: Option<string>,
    currency: CurrencyInput,
    datasetType: string,
    movements: Option<seq<RawMovement>>)

  /** The failures of `createDataset`, in the order it checks them. */
  datatype CreateError =
    | InvalidDatasetName
    | EmptyMovements
    | InvalidCurrency
    | InvalidDatasetType
    | InvalidMovement(rejection: Rejection)
    | DuplicateDataset

  /** The HTTP status of each failure, and 201 for a created dataset. */
  function CreateStatus(r: Result<NewDataset, CreateError>): int {
    match r
    case Success(_) => 201
    case Failure(DuplicateDataset) => 409
    case Failure(_) => 400
  }

  /** The document `createDataset` stores. */
  datatype NewDataset = NewDataset(
    datasetName: string,
    originalFileName: Option<string>,
    importedBy: Option<string>,
    currency: string,
    datasetType: DatasetType,
    periodStart: Option<string>,
    periodEnd: Option<string>,
    movements: seq<Movement>)

  const DefaultCurrency: string := "ARS"

  /** `(currency || "ARS").trim()` for a currency that passed the check. */
  function CurrencyOf(c: CurrencyInput): string {
    match c
    case CurrencyText(t) => if t == "" then DefaultCurrency else Trim(t)
    case _ => DefaultCurrency
  }

  /** `createDataset` without the database: `nameTaken` is the answer of the
      duplicate-name lookup. The checks run in the controller's order; the
      totals are computed (and returned here) but, as in the controller, not
      part of the stored document. */
  method CreateDataset(req: CreateRequest, nameTaken: bool)
    returns (r: Result<NewDataset, CreateError>, ingresos: real, egresos: real)
    ensures var nameOk := req.datasetName.Some? && Utf16Length(Trim(req.datasetName.value)) >= 2;
            var movsOk := req.movements.Some? && req.movements.value != [];
            var currencyOk := !req.currency.CurrencyOther?;
            var typeOk := req.datasetType == "" || ParseDatasetType(req.datasetType).Some?;
            var checked := nameOk && movsOk && currencyOk && typeOk;
            && (r == Failure(InvalidDatasetName) <==> !nameOk)
            && (r == Failure(EmptyMovements) <==> nameOk && !movsOk)
            && (r == Failure(InvalidCurrency) <==> nameOk && movsOk && !currencyOk)
            && (r == Failure(InvalidDatasetType) <==> nameOk && movsOk && currencyOk && !typeOk)
            && (r.Failure? && r.error.InvalidMovement? <==> checked && NormalizeBatch(req.movements.value).Failure?)
            && (r.Failure? && r.error.InvalidMovement? ==> Failure(r.error.rejection) == NormalizeBatch(req.movements.value))
            && (r == Failure(DuplicateDataset) <==> checked && NormalizeBatch(req.movements.value).Success? && nameTaken)
            && (r.Success? <==> checked && NormalizeBatch(req.movements.value).Success? && !nameTaken)
    ensures r.Success? ==>
              var d := r.value;
              var raw := req.movements.value;
              && d.datasetName == Trim(req.datasetName.value)
              && d.currency == CurrencyOf(req.currency)
              && d.datasetType == (if req.datasetType == "" then Other else ParseDatasetType(req.datasetType).value)
              && Success(d.movements) == NormalizeBatch(raw) && |d.movements| == |raw| > 0
              && d.periodStart == PeriodStart(Fechas(d.movements)) && d.periodStart.Some?
              && d.periodEnd == PeriodEnd(Fechas(d.movements)) && d.periodEnd.Some?
              && ingresos == IncomeSum(d.movements) && egresos == ExpenseSum(d.movements)
    ensures nameTaken ==> r.Failure?
  {
    ingresos, egresos := 0.0, 0.0;
    if req.datasetName.None? || Utf16Length(Trim(req.datasetName.value)) < 2 {
      return Failure(InvalidDatasetName), ingresos, egresos;
    }
    var datasetName := Trim(req.datasetName.value);
    if req.movements.None? || |req.movements.value| == 0 {
      return Failure(EmptyMovements), ingresos, egresos;
    }
    if req.currency.CurrencyOther? {
      return Failure(InvalidCurrency), ingresos, egresos;
    }
    var currency := CurrencyOf(req.currency);
    if req.datasetType != "" && ParseDatasetType(req.datasetType).None? {
      return Failure(InvalidDatasetType), ingresos, egresos;
    }
    var datasetType := if req.datasetType == "" then Other else ParseDatasetType(req.datasetType).value;
    var normalized := NormalizeMovements(req.movements.value);
    if normalized.Failure? {
      return Failure(InvalidMovement(normalized.error)), ingresos, egresos;
    }
    var movements := normalized.value;
    var fechas := Fechas(movements);
    BatchFechasNonEmpty(req.movements.value);
    PeriodBounds(fechas);
    var periodStart := PeriodStart(fechas);
    var periodEnd := PeriodEnd(fechas);
    ingresos, egresos := Totals(movements);
    if nameTaken {
      return Failure(DuplicateDataset), ingresos, egresos;
    }
    r := Success(NewDataset(datasetName, req.originalFileName, req.importedBy, currency, datasetType,
                            periodStart, periodEnd, movements));
  }

  // ---------------------------------------------------------------------------
  // addMovementsToDataset
  // ---------------------------------------------------------------------------

  /** The failures of `addMovementsToDataset` that do not involve the
      database. */
  datatype AddError = MissingDatasetId | NoMovements | RejectedMovement(rejection: Rejection)

  /** What the 200 response reports. */
  datatype AddSummary = AddSummary(
    datasetType: string,
    movementsAdded: nat,
    totalMovements: nat,
    periodStart: Option<string>,
    periodEnd: Option<string>)

  /** The non-empty dates of a list of movements
      (`movements.map(x => x.fecha).filter(Boolean)`). */
  function PresentFechas(ms: seq<Movement>): (r: seq<string>)
    ensures forall i :: 0 <= i < |r| ==> r[i] != ""
  {
    Filter(Fechas(ms), (f: string) => f != "")
  }

  /** A stored cash-flow dataset, as the fields `addMovementsToDataset` reads
      and updates. */
  class StoredDataset {
    const datasetType: string
    var movements: seq<Movement>
    var periodStart: Option<string>
    var periodEnd: Option<string>

    constructor (datasetType: string, movements: seq<Movement>, periodStart: Option<string>, periodEnd: Option<string>)
      ensures this.datasetType == datasetType && this.movements == movements
      ensures this.periodStart == periodStart && this.periodEnd == periodEnd
    {
      this.datasetType := datasetType;
      this.movements := movements;
      this.periodStart := periodStart;
      this.periodEnd := periodEnd;
    }

    /** `addMovementsToDataset` on the dataset the id found: validates and
        normalises the new movements as `createDataset` does, appends them
        after the stored ones, and recomputes the period over every
        non-empty date, keeping each old bound when there is none. A
        rejected request changes nothing. */
    method AddMovements(datasetId: string, raw: Option<seq<RawMovement>>) returns (r: Result<AddSummary, AddError>)
      modifies this
      ensures r == Failure(MissingDatasetId) <==> datasetId == ""
      ensures r == Failure(NoMovements) <==> datasetId != "" && (raw.None? || raw.value == [])
      ensures r.Failure? && r.error.RejectedMovement? <==>
                datasetId != "" && raw.Some? && raw.value != [] && NormalizeBatch(raw.value).Failure?
      ensures r.Failure? && r.error.RejectedMovement? ==> Failure(r.error.rejection) == NormalizeBatch(raw.value)
      ensures r.Failure? ==> movements == old(movements) && periodStart == old(periodStart) && periodEnd == old(periodEnd)
      ensures r.Success? ==>
                && raw.Some? && NormalizeBatch(raw.value).Success?
                && movements == old(movements) + NormalizeBatch(raw.value).value
                && var fechas := PresentFechas(movements);
                   && periodStart == (if fechas == [] then old(periodStart) else PeriodStart(fechas))
                   && periodEnd == (if fechas == [] then old(periodEnd) else PeriodEnd(fechas))
      ensures r.Success? ==>
                r.value == AddSummary(if datasetType == "" then DefaultDatasetType else datasetType,
                                      |raw.value|, |movements|, periodStart, periodEnd)
    {
      if datasetId == "" {
        return Failure(MissingDatasetId);
      }
      if raw.None? || |raw.value| == 0 {
        return Failure(NoMovements);
      }
      var reportedType := if datasetType == "" then DefaultDatasetType else datasetType;
      var normalized := NormalizeMovements(raw.value);
      if normalized.Failure? {
        return Failure(RejectedMovement(normalized.error));
      }
      var all := movements + normalized.value;
      var fechas := PresentFechas(all);
      var start := if fechas == [] then periodStart else PeriodStart(fechas);
      var end := if fechas == [] then periodEnd else PeriodEnd(fechas);
      movements, periodStart, periodEnd := all, start, end;
      r := Success(AddSummary(reportedType, |normalized.value|, |all|, start, end));
    }
  }

  /** After a successful append the recomputed period covers every non-empty
      date of the dataset, old and new. */
  lemma AppendedPeriodCovers(ms: seq<Movement>)
    requires PresentFechas(ms) != []
    ensures var fechas := PresentFechas(ms);
            && PeriodStart(fechas).Some? && PeriodEnd(fechas).Some?
            && forall i :: 0 <= i < |ms| && ms[i].fecha != "" ==>
                 !KeyLess(ms[i].fecha, PeriodStart(fechas).value) && !KeyLess(PeriodEnd(fechas).value, ms[i].fecha)
  {
    var fechas := PresentFechas(ms);
    PeriodBounds(fechas);
    forall i | 0 <= i < |ms| && ms[i].fecha != ""
      ensures !KeyLess(ms[i].fecha, PeriodStart(fechas).value) && !KeyLess(PeriodEnd(fechas).value, ms[i].fecha)
    {
      assert Fechas(ms)[i] == ms[i].fecha;
      FilterMembership(Fechas(ms), (f: string) => f != "", ms[i].fecha);
    }
  }
}
