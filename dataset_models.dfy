/** The Mongoose schemas of the cash-flow datasets, reduced to the logic they
    run: the movement pre-validate hook, the dataset pre-save hook that
    recomputes the totals and fills a missing period, the limit on the
    number of movements, and the choice of model by dataset type.

    A `Date` is its timestamp in milliseconds, and a missing date is None. */
module DatasetModels {
  import opened Wrappers
  import opened JsArrays

  // ---------------------------------------------------------------------------
  // Movements and the pre-validate hook
  // ---------------------------------------------------------------------------

  /** A movement subdocument as the pre-save hook reads it: `monto` is None
      when it is missing or not a number, `fecha` is None when missing. */
  datatype StoredMovement = StoredMovement(tipo: string, monto: Option<real>, fecha: Option<int>)

  /** The amount the pre-validate hook leaves behind: a negative number
      becomes its absolute value, anything else is kept. */
  function NonNegativeMonto(monto: Option<real>): (r: Option<real>)
    ensures r.Some? <==> monto.Some?
    ensures r.Some? ==> r.value >= 0.0 && (r.value == monto.value || r.value == -monto.value)
    ensures monto.Some? && monto.value >= 0.0 ==> r == monto
  {
    if monto.Some? && monto.value < 0.0 then Some(-monto.value) else monto
  }

  /** A movement subdocument; only `monto` is changed in place. */
  class MovementDoc {
    const tipo: string
    const fecha: Option<int>
    var monto: Option<real>

    constructor (tipo: string, monto: Option<real>, fecha: Option<int>)
      ensures this.tipo == tipo && this.monto == monto && this.fecha == fecha
    {
      this.tipo := tipo;
      this.monto := monto;
      this.fecha := fecha;
    }

    /** The subdocument's current value. */
    function Value(): StoredMovement
      reads this
    {
      StoredMovement(tipo, monto, fecha)
    }

    /** `movementSchema.pre("validate")`: a negative numeric `monto` is
        replaced by its absolute value. */
    method PreValidate()
      modifies this
      ensures monto == NonNegativeMonto(old(monto))
    {
      if monto.Some? && monto.value < 0.0 {
        monto := Some(-monto.value);
      }
    }
  }

  // ---------------------------------------------------------------------------
  // Totals
  // ---------------------------------------------------------------------------

  const Ingreso: string := "ingreso"
  const Egreso: string := "egreso"

  /** `m.monto || 0`. */
  function Amount(m: StoredMovement): real {
    match m.monto
    case Some(v) => v
    case None => 0.0
  }

  predicate IsIngreso(m: StoredMovement) {
    m.tipo == Ingreso
  }

  predicate IsEgreso(m: StoredMovement) {
    m.tipo == Egreso
  }

  /** The sum of the amounts of all movements. */
  function AmountSum(ms: seq<StoredMovement>): real
    decreases |ms|
  {
    if ms == [] then 0.0 else AmountSum(ms[..|ms| - 1]) + Amount(ms[|ms| - 1])
  }

  /** The income total the hook accumulates over the movements in order. */
  function IncomeTotal(ms: seq<StoredMovement>): real
    decreases |ms|
  {
    if ms == [] then 0.0
    else IncomeTotal(ms[..|ms| - 1]) + (if IsIngreso(ms[|ms| - 1]) then Amount(ms[|ms| - 1]) else 0.0)
  }

  /** The expense total the hook accumulates over the movements in order. */
  function ExpenseTotal(ms: seq<StoredMovement>): real
    decreases |ms|
  {
    if ms == [] then 0.0
    else ExpenseTotal(ms[..|ms| - 1]) + (if IsEgreso(ms[|ms| - 1]) then Amount(ms[|ms| - 1]) else 0.0)
  }

  /** The sums are taken movement by movement, so they add up over a split
      of the movements. */
  lemma {:induction false} TotalsConcat(a: seq<StoredMovement>, b: seq<StoredMovement>)
    ensures AmountSum(a + b) == AmountSum(a) + AmountSum(b)
    ensures IncomeTotal(a + b) == IncomeTotal(a) + IncomeTotal(b)
    ensures ExpenseTotal(a + b) == ExpenseTotal(a) + ExpenseTotal(b)
    decreases |b|
  {
    if b == [] {
      assert a + b == a;
    } else {
      var n := |b| - 1;
      assert (a + b)[..|a + b| - 1] == a + b[..n];
      assert (a + b)[|a + b| - 1] == b[n];
      TotalsConcat(a, b[..n]);
    }
  }

  /** `ingresos` is the amount sum of the "ingreso" movements and `egresos`
      that of the "egreso" movements; every other `tipo` is ignored. */
  lemma {:induction false} TotalsAreFilteredSums(ms: seq<StoredMovement>)
    ensures IncomeTotal(ms) == AmountSum(Filter(ms, IsIngreso))
    ensures ExpenseTotal(ms) == AmountSum(Filter(ms, IsEgreso))
    decreases |ms|
  {
    if ms != [] {
      var n := |ms| - 1;
      var last := ms[n];
      assert ms == ms[..n] + [last];
      TotalsAreFilteredSums(ms[..n]);
      FilterConcat(ms[..n], [last], IsIngreso);
      FilterConcat(ms[..n], [last], IsEgreso);
      TotalsConcat(Filter(ms[..n], IsIngreso), Filter([last], IsIngreso));
      TotalsConcat(Filter(ms[..n], IsEgreso), Filter([last], IsEgreso));
      assert AmountSum([last]) == Amount(last);
    }
  }

  /** Once every amount has been through the pre-validate hook, neither total
      is negative. */
  lemma {:induction false} ValidatedTotalsNonNegative(ms: seq<StoredMovement>)
    requires forall i :: 0 <= i < |ms| ==> ms[i].monto == NonNegativeMonto(ms[i].monto)
    ensures IncomeTotal(ms) >= 0.0 && ExpenseTotal(ms) >= 0.0
    decreases |ms|
  {
    if ms != [] {
      var n := |ms| - 1;
      assert forall i :: 0 <= i < n ==> ms[..n][i] == ms[i];
      ValidatedTotalsNonNegative(ms[..n]);
      assert ms[n].monto == NonNegativeMonto(ms[n].monto);
    }
  }

  // ---------------------------------------------------------------------------
  // Period
  // ---------------------------------------------------------------------------

  /** `fechas[0]` of the present dates sorted ascending: the earliest date,
      None when no movement has one. */
  function EarliestFecha(ms: seq<StoredMovement>): (r: Option<int>)
    ensures r.None? <==> forall i :: 0 <= i < |ms| ==> ms[i].fecha.None?
    ensures r.Some? ==> (exists i :: 0 <= i < |ms| && ms[i].fecha == r)
    ensures r.Some? ==> forall i :: 0 <= i < |ms| && ms[i].fecha.Some? ==> r.value <= ms[i].fecha.value
    decreases |ms|
  {
    if ms == [] then None
    else
      var n := |ms| - 1;
      assert forall i :: 0 <= i < n ==> ms[..n][i] == ms[i];
      var rest := EarliestFecha(ms[..n]);
      var f := ms[n].fecha;
      if f.None? || (rest.Some? && rest.value <= f.value) then rest else f
  }

  /** `fechas[fechas.length - 1]` of the present dates sorted ascending: the
      latest date, None when no movement has one. */
  function LatestFecha(ms: seq<StoredMovement>): (r: Option<int>)
    ensures r.None? <==> forall i :: 0 <= i < |ms| ==> ms[i].fecha.None?
    ensures r.Some? ==> (exists i :: 0 <= i < |ms| && ms[i].fecha == r)
    ensures r.Some? ==> forall i :: 0 <= i < |ms| && ms[i].fecha.Some? ==> ms[i].fecha.value <= r.value
    decreases |ms|
  {
    if ms == [] then None
    else
      var n := |ms| - 1;
      assert forall i :: 0 <= i < n ==> ms[..n][i] == ms[i];
      var rest := LatestFecha(ms[..n]);
      var f := ms[n].fecha;
      if f.None? || (rest.Some? && f.value <= rest.value) then rest else f
  }

  /** The earliest date is never after the latest, and both exist together. */
  lemma EarliestNotAfterLatest(ms: seq<StoredMovement>)
    ensures EarliestFecha(ms).Some? <==> LatestFecha(ms).Some?
    ensures EarliestFecha(ms).Some? ==> EarliestFecha(ms).value <= LatestFecha(ms).value
  {
    if EarliestFecha(ms).Some? {
      var i :| 0 <= i < |ms| && ms[i].fecha == EarliestFecha(ms);
      assert ms[i].fecha.Some?;
    }
  }

  // ---------------------------------------------------------------------------
  // The dataset document and its pre-save hook
  // ---------------------------------------------------------------------------

  /** `totals`: `balance` is meant to be `ingresos - egresos`. */
  datatype DatasetTotals = DatasetTotals(ingresos: real, egresos: real, balance: real)

  /** The fields of a dataset document the pre-save hook reads and writes. */
  class DatasetDoc {
    var movements: seq<StoredMovement>
    var totals: DatasetTotals
    var periodStart: Option<int>
    var periodEnd: Option<int>

    constructor (movements: seq<StoredMovement>, periodStart: Option<int>, periodEnd: Option<int>)
      ensures this.movements == movements && this.totals == DatasetTotals(0.0, 0.0, 0.0)
      ensures this.periodStart == periodStart && this.periodEnd == periodEnd
    {
      this.movements := movements;
      this.totals := DatasetTotals(0.0, 0.0, 0.0);
      this.periodStart := periodStart;
      this.periodEnd := periodEnd;
    }

    /** `baseDatasetSchema.pre("save")`: the totals are recomputed from the
        movements, and a missing end of the period is filled from the
        movements' dates; a period end that is already set is kept. With no
        movements the totals are zero and the period is left alone. */
    method PreSave()
      modifies this
      ensures movements == old(movements)
      ensures movements == [] ==> totals == DatasetTotals(0.0, 0.0, 0.0)
      ensures totals.ingresos == IncomeTotal(movements) && totals.egresos == ExpenseTotal(movements)
      ensures totals.balance == totals.ingresos - totals.egresos
      ensures periodStart == if old(periodStart).Some? then old(periodStart) else EarliestFecha(movements)
      ensures periodEnd == if old(periodEnd).Some? then old(periodEnd) else LatestFecha(movements)
    {
      if movements == [] {
        totals := DatasetTotals(0.0, 0.0, 0.0);
        return;
      }
      var ms := movements;
      var ingresos, egresos := 0.0, 0.0;
      var i := 0;
      while i < |ms|
        invariant 0 <= i <= |ms|
        invariant ingresos == IncomeTotal(ms[..i]) && egresos == ExpenseTotal(ms[..i])
      {
        var m := ms[i];
        if IsIngreso(m) {
          ingresos := ingresos + Amount(m);
        } else if IsEgreso(m) {
          egresos := egresos + Amount(m);
        }
        assert ms[..i + 1][..i] == ms[..i];
        i := i + 1;
      }
      assert ms[..i] == ms;
      totals := DatasetTotals(ingresos, egresos, ingresos - egresos);
      if periodStart.None? || periodEnd.None? {
        var earliest, latest := EarliestFecha(ms), LatestFecha(ms);
        EarliestNotAfterLatest(ms);
        if earliest.Some? {
          if periodStart.None? {
            periodStart := earliest;
          }
          if periodEnd.None? {
            periodEnd := latest;
          }
        }
      }
    }
  }

  /** A period filled by the hook brackets every dated movement. */
  lemma FilledPeriodBrackets(ms: seq<StoredMovement>, i: nat)
    requires i < |ms| && ms[i].fecha.Some?
    ensures EarliestFecha(ms).Some? && LatestFecha(ms).Some?
    ensures EarliestFecha(ms).value <= ms[i].fecha.value <= LatestFecha(ms).value
  {
  }

  // ---------------------------------------------------------------------------
  // The movements validator
  // ---------------------------------------------------------------------------

  const MaxMovements: nat := 50000

  /** The `movements` validator: the value must be an array, of at most 50000
      entries. */
  function AcceptsMovements<T>(arr: Option<seq<T>>): (ok: bool)
    ensures ok <==> arr.Some? && |arr.value| <= MaxMovements
  {
    match arr
    case None => false
    case Some(s) => |s| <= MaxMovements
  }

  /** Appending to an accepted array keeps it accepted exactly while the
      combined length stays within the limit, and both parts of an accepted
      array are accepted on their own: the validator is closed under taking
      a prefix or a suffix, so it never rejects a dataset for a part of its
      movements. */
  lemma AcceptsAppend<T>(a: seq<T>, b: seq<T>)
    ensures AcceptsMovements(Some(a + b)) <==> |a| + |b| <= MaxMovements
    ensures AcceptsMovements(Some(a + b)) ==> AcceptsMovements(Some(a)) && AcceptsMovements(Some(b))
  {
  }

  /** The limit is exact: 50000 movements pass, one more fail, and a value
      that is not an array never passes. */
  lemma AcceptsUpToLimit<T>(s: seq<T>, x: T)
    ensures |s| == MaxMovements ==> AcceptsMovements(Some(s)) && !AcceptsMovements(Some(s + [x]))
    ensures !AcceptsMovements<T>(None)
  {
  }

  // ---------------------------------------------------------------------------
  // Models by dataset type
  // ---------------------------------------------------------------------------

  /** The dataset types: the keys of `datasetModels`, which are also the
      types `createDataset` accepts (`validDatasetTypes`). */
  datatype DatasetType = Cashflow | Inventory | Investment | HumanResources | Marketing | Sales | Other

  /** How each type is written in requests and documents. */
  function TypeKey(t: DatasetType): string {
    match t
    case Cashflow => "cashflow"
    case Inventory => "inventory"
    case Investment => "investment"
    case HumanResources => "humanResources"
    case Marketing => "marketing"
    case Sales => "sales"
    case Other => "other"
  }

  /** The type a string names, if any. */
  function ParseDatasetType(s: string): (r: Option<DatasetType>)
    ensures r.Some? ==> TypeKey(r.value) == s
  {
    if s == "cashflow" then Some(Cashflow)
    else if s == "inventory" then Some(Inventory)
    else if s == "investment" then Some(Investment)
    else if s == "humanResources" then Some(HumanResources)
    else if s == "marketing" then Some(Marketing)
    else if s == "sales" then Some(Sales)
    else if s == "other" then Some(Other)
    else None
  }

  /** Every type's key is recognised as that type, so a string names a type
      exactly when it is that type's key. */
  lemma ParseTypeKey(t: DatasetType)
    ensures ParseDatasetType(TypeKey(t)) == Some(t)
  {
  }

  /** The seven Mongoose models, all over the same schema. */
  datatype DatasetModel =
    | CashDataset | InventoryDataset | InvestmentDataset | HumanResourcesDataset
    | MarketingDataset | SalesDataset | OtherDataset

  /** The `datasetModels` table. */
  function ModelOf(t: DatasetType): DatasetModel {
    match t
    case Cashflow => CashDataset
    case Inventory => InventoryDataset
    case Investment => InvestmentDataset
    case HumanResources => HumanResourcesDataset
    case Marketing => MarketingDataset
    case Sales => SalesDataset
    case Other => OtherDataset
  }

  /** `getDatasetModel`: the table's model for a known type, `OtherDataset`
      for any other string. */
  function GetDatasetModel(datasetType: string): (m: DatasetModel)
    ensures (forall t :: TypeKey(t) != datasetType) ==> m == OtherDataset
  {
    match ParseDatasetType(datasetType)
    case Some(t) => ModelOf(t)
    case None => OtherDataset
  }

  /** A known type gets its own model. */
  lemma GetDatasetModelOfType(t: DatasetType)
    ensures GetDatasetModel(TypeKey(t)) == ModelOf(t)
  {
    ParseTypeKey(t);
  }

  /** `OtherDataset` is what "other" and every unknown string get, and
      nothing else. */
  lemma GetDatasetModelOther(s: string)
    ensures GetDatasetModel(s) == OtherDataset <==> s == TypeKey(Other) || forall t :: TypeKey(t) != s
  {
    if s == TypeKey(Other) {
      ParseTypeKey(Other);
    }
  }

  /** Different types get different models, and every model is some type's. */
  lemma ModelOfBijective(t1: DatasetType, t2: DatasetType, m: DatasetModel)
    ensures ModelOf(t1) == ModelOf(t2) ==> t1 == t2
    ensures exists t :: ModelOf(t) == m
  {
    match m
    case CashDataset => assert ModelOf(Cashflow) == m;
    case InventoryDataset => assert ModelOf(Inventory) == m;
    case InvestmentDataset => assert ModelOf(Investment) == m;
    case HumanResourcesDataset => assert ModelOf(HumanResources) == m;
    case MarketingDataset => assert ModelOf(Marketing) == m;
    case SalesDataset => assert ModelOf(Sales) == m;
    case OtherDataset => assert ModelOf(Other) == m;
  }

  /** `getAllDatasetModels`: the table's models, each once. */
  function AllDatasetModels(): (ms: seq<DatasetModel>)
    ensures forall t :: ModelOf(t) in ms
    ensures forall i, j :: 0 <= i < j < |ms| ==> ms[i] != ms[j]
  {
    [CashDataset, InventoryDataset, InvestmentDataset, HumanResourcesDataset,
     MarketingDataset, SalesDataset, OtherDataset]
  }
}
