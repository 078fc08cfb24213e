/**
 * Expanding a pack's fees into payable rows, with a tenant's own prices for its own
 * fees, and what that means over whole runs: each fee of a matter is billed by one call.
 */
module FeeSchedule {
  import opened Common
  import opened FeeSplit
  import opened PaymentRows

  datatype Basis = PerCase | PerApplicant | PerDependent

  datatype Fee = Fee(
    key: string,
    kind: Option<FeeKind>,
    amountMinor: int,
    currency: string,
    basis: Option<Basis>,
    atStep: Option<string>)

  datatype Override = Override(amountMinor: int, currency: string, active: bool)

  datatype Request = Request(
    entityId: string,
    feeKeys: seq<string>,
    planKey: Option<string>,
    applicants: Option<int>,
    dependents: Option<int>,
    reference: Option<string>,
    startDate: int)

  datatype Error =
    | FeesNotDefined(missing: seq<string>)
    | PlanNotDefined
    | MixedCurrencies
    | ClientRefused
    | StagesOff(totalBps: int)
    | NotAFirmFee(key: string)

  // ---------- The pack, with overrides ----------

  /** A `Map` built from the pack keeps the last fee of a key. */
  function FeeFor(pack: seq<Fee>, key: string): Option<Fee> {
    if pack == [] then None
    else if pack[|pack| - 1].key == key then Some(pack[|pack| - 1])
    else FeeFor(pack[..|pack| - 1], key)
  }

  /** Only a firm's own fee takes the tenant's price; everything structural stays the pack's. */
  function WithOverride(fee: Fee, overrides: map<string, Override>): Fee {
    if fee.kind == Some(Firm) && fee.key in overrides && overrides[fee.key].active
    then fee.(amountMinor := overrides[fee.key].amountMinor, currency := overrides[fee.key].currency)
    else fee
  }

  /** No override table changes a government or disbursement fee, nor anything of a firm fee but its price. */
  lemma OverridesReachOnlyFirmPrices(fee: Fee, overrides: map<string, Override>)
    ensures fee.kind != Some(Firm) ==> WithOverride(fee, overrides) == fee
    ensures WithOverride(fee, overrides).(amountMinor := fee.amountMinor, currency := fee.currency) == fee
    ensures WithOverride(fee, overrides) != fee ==> fee.key in overrides && overrides[fee.key].active
  {
  }

  function FindPlan(plans: seq<Plan>, key: string): Option<Plan> {
    if plans == [] then None else if plans[0].key == key then Some(plans[0]) else FindPlan(plans[1..], key)
  }

  function AmountFor(fee: Fee, request: Request): int {
    match (if fee.basis.Some? then fee.basis.value else PerCase)
    case PerApplicant =>
      var n := if request.applicants.Some? then request.applicants.value else 1;
      fee.amountMinor * (if n > 1 then n else 1)
    case PerDependent =>
      var n := if request.dependents.Some? then request.dependents.value else 0;
      fee.amountMinor * (if n > 0 then n else 0)
    case PerCase => fee.amountMinor
  }

  // ---------- Expansion as a function ----------

  datatype Catalogue = Catalogue(pack: seq<Fee>, plans: seq<Plan>)

  function Undefined(pack: seq<Fee>): string -> bool { (k: string) => FeeFor(pack, k).None? }

  function MissingKeys(pack: seq<Fee>, keys: seq<string>): seq<string> {
    Filter(Undefined(pack), keys)
  }

  lemma NoneMissing(pack: seq<Fee>, keys: seq<string>)
    requires MissingKeys(pack, keys) == []
    ensures forall k :: k in keys ==> FeeFor(pack, k).Some?
  {
    FilterMembers(Undefined(pack), keys);
    assert forall k :: k in keys && FeeFor(pack, k).None? ==> k in MissingKeys(pack, keys);
  }

  /** The fee a key charges, at the tenant's price. */
  function Charged(pack: seq<Fee>, overrides: map<string, Override>, key: string): Fee
    requires FeeFor(pack, key).Some?
  {
    WithOverride(FeeFor(pack, key).value, overrides)
  }

  function ToRow(request: Request, clientId: Option<string>, plan: Option<Plan>, fee: Fee, portion: Portion): Payment {
    Payment(Some(request.entityId), clientId, None, Inbound, portion.amountMinor, Upper(fee.currency), Pending, None,
            request.reference, portion.dueDate, Some(if fee.kind.Some? then fee.kind.value else Firm), Some(fee.key),
            if plan.Some? then Some(plan.value.key) else None, portion.atStep)
  }

  function PortionRows(request: Request, clientId: Option<string>, plan: Option<Plan>, fee: Fee,
                       portions: seq<Portion>): (rows: seq<Payment>)
    ensures |rows| == |portions|
    ensures forall i :: 0 <= i < |rows| ==> rows[i] == ToRow(request, clientId, plan, fee, portions[i])
  {
    Map((p: Portion) => ToRow(request, clientId, plan, fee, p), portions)
  }

  /** The rows of one fee; a fee that comes to nothing has none. */
  function FeeRows(request: Request, clientId: Option<string>, plan: Option<Plan>,
                   fee: Fee): Result<seq<Payment>, Error> {
    var amount := AmountFor(fee, request);
    if amount <= 0 then Ok([])
    else
      match Split(amount, plan, fee.atStep, request.startDate)
      case Ok(portions) => Ok(PortionRows(request, clientId, plan, fee, portions))
      case Err(StagesDoNotSum(total)) => Err(StagesOff(total))
  }

  /** The rows of the first `n` keys. */
  function RowsUpTo(pack: seq<Fee>, overrides: map<string, Override>, request: Request,
                    clientId: Option<string>, plan: Option<Plan>, n: nat): Result<seq<Payment>, Error>
    requires n <= |request.feeKeys|
    requires forall k :: k in request.feeKeys ==> FeeFor(pack, k).Some?
  {
    if n == 0 then Ok([])
    else
      match RowsUpTo(pack, overrides, request, clientId, plan, n - 1)
      case Err(e) => Err(e)
      case Ok(before) =>
        match FeeRows(request, clientId, plan, Charged(pack, overrides, request.feeKeys[n - 1]))
        case Err(e) => Err(e)
        case Ok(rows) => Ok(before + rows)
  }

  predicate MatchesRequest(request: Request, p: Payment) {
    p.entityId == Some(request.entityId) && p.feeKey.Some? && p.feeKey.value in request.feeKeys
  }

  function Matching(request: Request): Payment -> bool { (p: Payment) => MatchesRequest(request, p) }

  function Existing(payments: seq<Payment>, request: Request): seq<Payment> {
    Filter(Matching(request), payments)
  }

  function Currencies(pack: seq<Fee>, overrides: map<string, Override>, keys: seq<string>): set<string>
    requires forall k :: k in keys ==> FeeFor(pack, k).Some?
  {
    set k | k in keys :: Upper(Charged(pack, overrides, k).currency)
  }

  /** The plan a request names, if it names one that is there. */
  function PlanOf(c: Catalogue, request: Request): Option<Plan> {
    if request.planKey.Some? then FindPlan(c.plans, request.planKey.value) else None
  }

  /** The rows a call writes, or why it refuses; a call for which any row exists writes none. */
  function NewRows(c: Catalogue, overrides: map<string, Override>, payments: seq<Payment>, request: Request,
                   client: Result<Option<string>, Error>): Result<seq<Payment>, Error> {
    if MissingKeys(c.pack, request.feeKeys) != [] then Err(FeesNotDefined(MissingKeys(c.pack, request.feeKeys)))
    else if request.planKey.Some? && FindPlan(c.plans, request.planKey.value).None? then Err(PlanNotDefined)
    else if Existing(payments, request) != [] then Ok([])
    else
      NoneMissing(c.pack, request.feeKeys);
      if |Currencies(c.pack, overrides, request.feeKeys)| > 1 then Err(MixedCurrencies)
      else
        match client
        case Err(e) => Err(e)
        case Ok(clientId) =>
          RowsUpTo(c.pack, overrides, request, clientId, PlanOf(c, request), |request.feeKeys|)
  }

  // ---------- What is accepted ----------

  predicate StagesAreOff(plan: Option<Plan>) {
    && plan.Some? && plan.value.kind == Some(StageGated) && plan.value.stages.Some?
    && plan.value.stages.value != [] && TotalBps(plan.value.stages.value) != 10_000
  }

  ghost predicate OneCurrency(pack: seq<Fee>, overrides: map<string, Override>, keys: seq<string>)
    requires forall k :: k in keys ==> FeeFor(pack, k).Some?
  {
    forall j, k :: j in keys && k in keys ==>
      Upper(Charged(pack, overrides, j).currency) == Upper(Charged(pack, overrides, k).currency)
  }

  /**
   * What a caller can check beforehand: the keys and the plan are defined and, unless some fee
   * already has rows, there is one currency, the client resolves, and no positive amount meets
   * a plan whose stages do not make up the whole.
   */
  ghost predicate Acceptable(c: Catalogue, overrides: map<string, Override>, payments: seq<Payment>,
                             request: Request, client: Result<Option<string>, Error>) {
    && (forall k :: k in request.feeKeys ==> FeeFor(c.pack, k).Some?)
    && (request.planKey.Some? ==> PlanOf(c, request).Some?)
    && (Existing(payments, request) == [] ==>
          && OneCurrency(c.pack, overrides, request.feeKeys) && client.Ok?
          && (StagesAreOff(PlanOf(c, request)) ==>
                forall k :: k in request.feeKeys ==> AmountFor(Charged(c.pack, overrides, k), request) <= 0))
  }

  lemma OneCurrencyIff(pack: seq<Fee>, overrides: map<string, Override>, keys: seq<string>)
    requires forall k :: k in keys ==> FeeFor(pack, k).Some?
    ensures |Currencies(pack, overrides, keys)| <= 1 <==> OneCurrency(pack, overrides, keys)
  {
    var currencies := Currencies(pack, overrides, keys);
    if keys != [] {
      var first := Upper(Charged(pack, overrides, keys[0]).currency);
      assert first in currencies && |currencies - {first}| == |currencies| - 1;
      if |currencies| <= 1 {
        forall k | k in keys ensures Upper(Charged(pack, overrides, k).currency) == first {
          assert Upper(Charged(pack, overrides, k).currency) in currencies;
          assert currencies - {first} == {};
        }
      } else {
        var other :| other in currencies - {first};
      }
    }
  }

  lemma FeeRowsAcceptedIff(request: Request, clientId: Option<string>, plan: Option<Plan>, fee: Fee)
    ensures FeeRows(request, clientId, plan, fee).Ok? <==> StagesAreOff(plan) ==> AmountFor(fee, request) <= 0
  {
    SplitRefusedIff(AmountFor(fee, request), plan, fee.atStep, request.startDate);
  }

  lemma {:induction false} RowsAcceptedIff(pack: seq<Fee>, overrides: map<string, Override>, request: Request,
                                           clientId: Option<string>, plan: Option<Plan>, n: nat)
    requires n <= |request.feeKeys|
    requires forall k :: k in request.feeKeys ==> FeeFor(pack, k).Some?
    ensures RowsUpTo(pack, overrides, request, clientId, plan, n).Ok?
       <==> (StagesAreOff(plan) ==> forall j :: 0 <= j < n ==>
               AmountFor(Charged(pack, overrides, request.feeKeys[j]), request) <= 0)
  {
    if n > 0 {
      RowsAcceptedIff(pack, overrides, request, clientId, plan, n - 1);
      FeeRowsAcceptedIff(request, clientId, plan, Charged(pack, overrides, request.feeKeys[n - 1]));
    }
  }

  lemma AcceptedIff(c: Catalogue, overrides: map<string, Override>, payments: seq<Payment>, request: Request,
                    client: Result<Option<string>, Error>)
    ensures NewRows(c, overrides, payments, request, client).Ok?
        <==> Acceptable(c, overrides, payments, request, client)
  {
    FilterMembers(Undefined(c.pack), request.feeKeys);
    var missing := MissingKeys(c.pack, request.feeKeys);
    if missing != [] {
      assert missing[0] in missing;
    } else {
      NoneMissing(c.pack, request.feeKeys);
      OneCurrencyIff(c.pack, overrides, request.feeKeys);
      if client.Ok? {
        RowsAcceptedIff(c.pack, overrides, request, client.value, PlanOf(c, request), |request.feeKeys|);
      }
    }
  }

  // ---------- The service ----------

  class FeeScheduleService {
    const catalogue: Catalogue
    var payments: seq<Payment>
    var overrides: map<string, Override>

    constructor (catalogue: Catalogue)
      ensures this.catalogue == catalogue && payments == [] && overrides == map[]
    {
      this.catalogue := catalogue;
      payments, overrides := [], map[];
    }

    /** All or nothing: a refused call writes nothing, and neither does a repeated one. */
    method Expand(request: Request, client: Result<Option<string>, Error>) returns (r: Result<seq<Payment>, Error>)
      modifies this`payments
      ensures payments == AfterCall(catalogue, old(payments), Call(request, overrides, client))
      ensures r.Ok? <==> Acceptable(catalogue, overrides, old(payments), request, client)
      ensures var rows := NewRows(catalogue, overrides, old(payments), request, client);
        && (rows.Err? ==> r == Err(rows.error) && payments == old(payments))
        && (rows.Ok? && Existing(old(payments), request) == [] ==> r == rows && payments == old(payments) + rows.value)
        && (rows.Ok? && Existing(old(payments), request) != [] ==>
              r == Ok(Existing(old(payments), request)) && payments == old(payments))
    {
      AcceptedIff(catalogue, overrides, payments, request, client);
      var missing := MissingKeys(catalogue.pack, request.feeKeys);
      if missing != [] {
        return Err(FeesNotDefined(missing));
      }
      var plan := None;
      if request.planKey.Some? {
        plan := FindPlan(catalogue.plans, request.planKey.value);
        if plan.None? {
          return Err(PlanNotDefined);
        }
      }
      var existing := Existing(payments, request);
      if existing != [] {
        return Ok(existing);
      }
      NoneMissing(catalogue.pack, request.feeKeys);
      if |Currencies(catalogue.pack, overrides, request.feeKeys)| > 1 {
        return Err(MixedCurrencies);
      }
      if client.Err? {
        return Err(client.error);
      }
      r := BuildRows(request, client.value, plan);
      if r.Ok? {
        payments := payments + r.value;
      }
    }

    method BuildRows(request: Request, clientId: Option<string>,
                     plan: Option<Plan>) returns (r: Result<seq<Payment>, Error>)
      requires forall k :: k in request.feeKeys ==> FeeFor(catalogue.pack, k).Some?
      ensures r == RowsUpTo(catalogue.pack, overrides, request, clientId, plan, |request.feeKeys|)
    {
      var rows := [];
      for n := 0 to |request.feeKeys|
        invariant RowsUpTo(catalogue.pack, overrides, request, clientId, plan, n) == Ok(rows)
      {
        var added := BuildFeeRows(request, clientId, plan, Charged(catalogue.pack, overrides, request.feeKeys[n]));
        if added.Err? {
          ErrorStays(catalogue.pack, overrides, request, clientId, plan, n + 1, |request.feeKeys|);
          return Err(added.error);
        }
        rows := rows + added.value;
      }
      return Ok(rows);
    }

    /**
     * Replaces the active overrides with exactly the ones given. A key that is not in the
     * pack, or is not the firm's own fee, refuses the whole batch.
     */
    method SetOverrides(desired: seq<(string, Override)>) returns (r: Result<(), Error>)
      requires forall i, j :: 0 <= i < j < |desired| ==> desired[i].0 != desired[j].0
      modifies this`overrides
      ensures r.Ok? <==> forall i :: 0 <= i < |desired| ==> IsFirmFee(catalogue.pack, desired[i].0)
      ensures r.Err? ==> overrides == old(overrides)
      ensures r.Ok? <==> forall i :: 0 <= i < |desired| ==> HasOwnFee(catalogue.pack, desired[i].0)
      ensures r.Ok? ==> forall key :: key in overrides <==> exists i :: 0 <= i < |desired| && desired[i].0 == key
      ensures r.Ok? ==> forall i :: 0 <= i < |desired| ==>
        && desired[i].0 in overrides && overrides[desired[i].0].active
        && overrides[desired[i].0].amountMinor == desired[i].1.amountMinor
        && overrides[desired[i].0].currency == Upper(desired[i].1.currency)
    {
      forall i | 0 <= i < |desired|
        ensures IsFirmFee(catalogue.pack, desired[i].0) <==> HasOwnFee(catalogue.pack, desired[i].0)
      {
        FirmFeeMeans(catalogue.pack, desired[i].0);
      }
      for i := 0 to |desired|
        invariant forall k :: 0 <= k < i ==> IsFirmFee(catalogue.pack, desired[k].0)
      {
        var def := FeeFor(catalogue.pack, desired[i].0);
        if def.None? {
          return Err(FeesNotDefined([desired[i].0]));
        }
        if def.value.kind != Some(Firm) {
          return Err(NotAFirmFee(desired[i].0));
        }
      }
      overrides := Replace(overrides, desired);
      return Ok(());
    }
  }

  function DesiredKeys(desired: seq<(string, Override)>): set<string> {
    set i | 0 <= i < |desired| :: desired[i].0
  }

  function Stored(wanted: Override): Override { Override(wanted.amountMinor, Upper(wanted.currency), true) }

  /** Removes what is not desired, then writes what is. */
  method Replace(table: map<string, Override>, desired: seq<(string, Override)>) returns (after: map<string, Override>)
    requires forall i, j :: 0 <= i < j < |desired| ==> desired[i].0 != desired[j].0
    ensures after.Keys == DesiredKeys(desired)
    ensures forall i :: 0 <= i < |desired| ==> after[desired[i].0] == Stored(desired[i].1)
  {
    var keys := DesiredKeys(desired);
    after := map key | key in table && key in keys :: table[key];
    for i := 0 to |desired|
      invariant after.Keys <= keys
      invariant forall k :: 0 <= k < i ==> desired[k].0 in after && after[desired[k].0] == Stored(desired[k].1)
    {
      after := after[desired[i].0 := Stored(desired[i].1)];
    }
  }

  /** The fee of this key in the pack is the firm's own. */
  ghost predicate HasOwnFee(pack: seq<Fee>, key: string) {
    exists j: nat :: IsFeeOf(pack, key, j) && pack[j].kind == Some(Firm)
  }

  lemma FirmFeeMeans(pack: seq<Fee>, key: string)
    ensures IsFirmFee(pack, key) <==> HasOwnFee(pack, key)
  {
    if FeeFor(pack, key).Some? {
      var i := FeeForIsFeeOf(pack, key);
      FeeForMeans(pack, key, i);
    }
    if j: nat :| IsFeeOf(pack, key, j) && pack[j].kind == Some(Firm) {
      FeeForMeans(pack, key, j);
    }
  }

  predicate IsFirmFee(pack: seq<Fee>, key: string) {
    FeeFor(pack, key).Some? && FeeFor(pack, key).value.kind == Some(Firm)
  }

  method BuildFeeRows(request: Request, clientId: Option<string>, plan: Option<Plan>,
                      fee: Fee) returns (r: Result<seq<Payment>, Error>)
    ensures r == FeeRows(request, clientId, plan, fee)
  {
    var amount := AmountFor(fee, request);
    if amount <= 0 {
      return Ok([]);
    }
    var portions := SplitFee(amount, plan, fee.atStep, request.startDate);
    if portions.Err? {
      return Err(StagesOff(portions.error.totalBps));
    }
    var rows := [];
    for k := 0 to |portions.value|
      invariant |rows| == k
      invariant forall i :: 0 <= i < k ==> rows[i] == ToRow(request, clientId, plan, fee, portions.value[i])
    {
      rows := rows + [ToRow(request, clientId, plan, fee, portions.value[k])];
    }
    assert rows == PortionRows(request, clientId, plan, fee, portions.value);
    return Ok(rows);
  }

  method SplitFee(amount: int, plan: Option<Plan>, atStep: Option<string>,
                  start: int) returns (r: Result<seq<Portion>, SplitError>)
    ensures r == Split(amount, plan, atStep, start)
  {
    if plan.Some? && plan.value.kind == Some(StageGated) && plan.value.stages.Some? && plan.value.stages.value != [] {
      var stages := plan.value.stages.value;
      if TotalBps(stages) != 10_000 {
        return Err(StagesDoNotSum(TotalBps(stages)));
      }
      var portions := SplitStages(amount, stages);
      return Ok(portions);
    }
    return Split(amount, plan, atStep, start);
  }

  lemma {:induction false} ErrorStays(pack: seq<Fee>, overrides: map<string, Override>, request: Request,
                                      clientId: Option<string>, plan: Option<Plan>, m: nat, n: nat)
    requires m <= n <= |request.feeKeys|
    requires forall k :: k in request.feeKeys ==> FeeFor(pack, k).Some?
    requires RowsUpTo(pack, overrides, request, clientId, plan, m).Err?
    ensures RowsUpTo(pack, overrides, request, clientId, plan, n)
        == RowsUpTo(pack, overrides, request, clientId, plan, m)
    decreases n - m
  {
    if m < n { ErrorStays(pack, overrides, request, clientId, plan, m, n - 1); }
  }

  // ---------- What one call bills ----------

  /** The rows of one fee on one matter. */
  function RowsFor(payments: seq<Payment>, entityId: string, feeKey: string): seq<Payment> {
    Filter(Of(entityId, feeKey), payments)
  }

  function Of(entityId: string, feeKey: string): Payment -> bool {
    (p: Payment) => p.entityId == Some(entityId) && p.feeKey == Some(feeKey)
  }

  function AmountOf(): Payment -> int { (p: Payment) => p.amountMinor }

  function RowSum(rows: seq<Payment>): int { Sum(Map(AmountOf(), rows)) }

  function Times(keys: seq<string>, key: string): nat {
    if keys == [] then 0 else Times(keys[..|keys| - 1], key) + if keys[|keys| - 1] == key then 1 else 0
  }

  lemma {:induction false} FeeForHasKey(pack: seq<Fee>, key: string)
    ensures FeeFor(pack, key).Some? ==> FeeFor(pack, key).value.key == key
  {
    if pack != [] { FeeForHasKey(pack[..|pack| - 1], key); }
  }

  lemma RowSumConcat(a: seq<Payment>, b: seq<Payment>)
    ensures RowSum(a + b) == RowSum(a) + RowSum(b)
  {
    MapConcat(AmountOf(), a, b);
    SumConcat(Map(AmountOf(), a), Map(AmountOf(), b));
  }

  /** What a fee comes to on a request; nothing negative is billed. */
  function Due(fee: Fee, request: Request): nat {
    if AmountFor(fee, request) > 0 then AmountFor(fee, request) else 0
  }

  /**
   * The rows of one fee are all that fee's, and sum to what it comes to; none is negative if no stage
   * of the plan is.
   */
  lemma FeeRowsExact(request: Request, clientId: Option<string>, plan: Option<Plan>, fee: Fee)
    requires FeeRows(request, clientId, plan, fee).Ok?
    ensures var rows := FeeRows(request, clientId, plan, fee).value;
      && (forall i :: 0 <= i < |rows| ==>
            rows[i].entityId == Some(request.entityId) && rows[i].feeKey == Some(fee.key))
      && RowSum(rows) == Due(fee, request)
      && (rows != [] <==> Due(fee, request) > 0)
      && (NonNegativeStages(plan) ==> forall i :: 0 <= i < |rows| ==> rows[i].amountMinor >= 0)
  {
    var amount := AmountFor(fee, request);
    var rows := FeeRows(request, clientId, plan, fee).value;
    if amount > 0 {
      SplitExact(amount, plan, fee.atStep, request.startDate);
      var portions := Split(amount, plan, fee.atStep, request.startDate).value;
      assert Map(AmountOf(), rows) == Amounts(portions);
    }
  }

  /** Rows of one fee, appended, count for that fee and for no other. */
  lemma AddedRows(before: seq<Payment>, added: seq<Payment>, entityId: string, last: string, key: string)
    requires forall i :: 0 <= i < |added| ==> added[i].entityId == Some(entityId) && added[i].feeKey == Some(last)
    ensures last == key ==>
      && RowsFor(before + added, entityId, key) == RowsFor(before, entityId, key) + added
      && RowSum(RowsFor(before + added, entityId, key)) == RowSum(RowsFor(before, entityId, key)) + RowSum(added)
    ensures last != key ==> RowsFor(before + added, entityId, key) == RowsFor(before, entityId, key)
  {
    FilterConcat(Of(entityId, key), before, added);
    if last == key {
      FilterAll(Of(entityId, key), added);
      RowSumConcat(RowsFor(before, entityId, key), added);
    } else {
      FilterNone(Of(entityId, key), added);
      assert RowsFor(before, entityId, key) + [] == RowsFor(before, entityId, key);
    }
  }

  lemma {:induction false} RowsMatchRequest(pack: seq<Fee>, overrides: map<string, Override>, request: Request,
                                            clientId: Option<string>, plan: Option<Plan>, n: nat)
    requires n <= |request.feeKeys|
    requires forall k :: k in request.feeKeys ==> FeeFor(pack, k).Some?
    requires RowsUpTo(pack, overrides, request, clientId, plan, n).Ok?
    ensures var rows := RowsUpTo(pack, overrides, request, clientId, plan, n).value;
      && (forall i :: 0 <= i < |rows| ==> MatchesRequest(request, rows[i]))
      && (NonNegativeStages(plan) ==> forall i :: 0 <= i < |rows| ==> rows[i].amountMinor >= 0)
  {
    if n > 0 {
      var last := request.feeKeys[n - 1];
      RowsMatchRequest(pack, overrides, request, clientId, plan, n - 1);
      FeeForHasKey(pack, last);
      FeeRowsExact(request, clientId, plan, Charged(pack, overrides, last));
    }
  }

  /** What a call bills for a key: the key's amount, as often as the request names the key. */
  lemma {:induction false} BilledPerKey(pack: seq<Fee>, overrides: map<string, Override>, request: Request,
                                        clientId: Option<string>, plan: Option<Plan>, n: nat, key: string)
    requires n <= |request.feeKeys| && key in request.feeKeys
    requires forall k :: k in request.feeKeys ==> FeeFor(pack, k).Some?
    requires RowsUpTo(pack, overrides, request, clientId, plan, n).Ok?
    ensures var mine := RowsFor(RowsUpTo(pack, overrides, request, clientId, plan, n).value, request.entityId, key);
      var due, times := Due(Charged(pack, overrides, key), request), Times(request.feeKeys[..n], key);
      RowSum(mine) == times * due && (mine != [] <==> times > 0 && due > 0)
  {
    if n > 0 {
      var last := request.feeKeys[n - 1];
      var before := RowsUpTo(pack, overrides, request, clientId, plan, n - 1).value;
      var fee := Charged(pack, overrides, last);
      BilledPerKey(pack, overrides, request, clientId, plan, n - 1, key);
      FeeForHasKey(pack, last);
      FeeRowsExact(request, clientId, plan, fee);
      TimesStep(request.feeKeys, n, key);
      BilledPerKeyStep(before, FeeRows(request, clientId, plan, fee).value, request.entityId, last, key,
                       Times(request.feeKeys[..n - 1], key), Due(Charged(pack, overrides, key), request));
    }
  }

  lemma TimesStep(keys: seq<string>, n: nat, key: string)
    requires 1 <= n <= |keys|
    ensures Times(keys[..n], key) == Times(keys[..n - 1], key) + if keys[n - 1] == key then 1 else 0
  {
    assert keys[..n][..n - 1] == keys[..n - 1];
  }

  lemma BilledPerKeyStep(before: seq<Payment>, added: seq<Payment>, entityId: string, last: string, key: string,
                         times: nat, due: nat)
    requires forall i :: 0 <= i < |added| ==> added[i].entityId == Some(entityId) && added[i].feeKey == Some(last)
    requires last == key ==> RowSum(added) == due && (added != [] <==> due > 0)
    requires RowSum(RowsFor(before, entityId, key)) == times * due
    requires RowsFor(before, entityId, key) != [] <==> times > 0 && due > 0
    ensures var more := if last == key then times + 1 else times;
      && RowSum(RowsFor(before + added, entityId, key)) == more * due
      && (RowsFor(before + added, entityId, key) != [] <==> more > 0 && due > 0)
  {
    AddedRows(before, added, entityId, last, key);
    assert (times + 1) * due == times * due + due;
  }

  lemma {:induction false} TimesPositive(keys: seq<string>, key: string)
    ensures Times(keys, key) > 0 <==> key in keys
    ensures (forall i, j :: 0 <= i < j < |keys| ==> keys[i] != keys[j]) && key in keys ==> Times(keys, key) == 1
  {
    if keys != [] {
      var n := |keys| - 1;
      TimesPositive(keys[..n], key);
      assert keys == keys[..n] + [keys[n]];
    }
  }

  // ---------- Runs ----------

  /** One call: the request, the overrides in force, and how the client resolves. */
  datatype Call = Call(request: Request, overrides: map<string, Override>, client: Result<Option<string>, Error>)

  function AfterCall(c: Catalogue, payments: seq<Payment>, call: Call): seq<Payment> {
    match NewRows(c, call.overrides, payments, call.request, call.client)
    case Ok(rows) => payments + rows
    case Err(_) => payments
  }

  /** The table after the first `n` calls of a run. */
  function AfterCalls(c: Catalogue, calls: seq<Call>, n: nat): seq<Payment>
    requires n <= |calls|
  {
    if n == 0 then [] else AfterCall(c, AfterCalls(c, calls, n - 1), calls[n - 1])
  }

  /** Rows of a fee that is already billed on the matter never change, nor do they grow. */
  lemma CallKeepsBilled(c: Catalogue, payments: seq<Payment>, call: Call, entityId: string, key: string)
    requires RowsFor(payments, entityId, key) != []
    ensures RowsFor(AfterCall(c, payments, call), entityId, key) == RowsFor(payments, entityId, key)
  {
    var mine := Of(entityId, key);
    var rows := NewRows(c, call.overrides, payments, call.request, call.client);
    if rows.Ok? && rows.value != [] {
      FilterMembers(mine, payments);
      FilterMembers(Matching(call.request), payments);
      NewRowsMatch(c, payments, call);
      FilterConcat(mine, payments, rows.value);
      assert RowsFor(payments, entityId, key)[0] in RowsFor(payments, entityId, key);
      FilterNone(mine, rows.value);
    } else if rows.Ok? {
      assert payments + rows.value == payments;
    }
  }

  lemma NewRowsMatch(c: Catalogue, payments: seq<Payment>, call: Call)
    requires NewRows(c, call.overrides, payments, call.request, call.client).Ok?
    ensures var rows := NewRows(c, call.overrides, payments, call.request, call.client).value;
      && (forall i :: 0 <= i < |rows| ==> MatchesRequest(call.request, rows[i]))
      && (NonNegativeStages(PlanOf(c, call.request)) ==> forall i :: 0 <= i < |rows| ==> rows[i].amountMinor >= 0)
      && (rows != [] ==> Existing(payments, call.request) == [])
  {
    var rows := NewRows(c, call.overrides, payments, call.request, call.client).value;
    if rows != [] {
      CallBuildsRows(c, payments, call);
      var plan := PlanOf(c, call.request);
      RowsMatchRequest(c.pack, call.overrides, call.request, call.client.value, plan, |call.request.feeKeys|);
    }
  }

  lemma CallBuildsRows(c: Catalogue, payments: seq<Payment>, call: Call)
    requires NewRows(c, call.overrides, payments, call.request, call.client).Ok?
        && Existing(payments, call.request) == []
    ensures forall k :: k in call.request.feeKeys ==> FeeFor(c.pack, k).Some?
    ensures call.client.Ok?
    ensures var plan := PlanOf(c, call.request);
      NewRows(c, call.overrides, payments, call.request, call.client)
      == RowsUpTo(c.pack, call.overrides, call.request, call.client.value, plan, |call.request.feeKeys|)
  {
    NoneMissing(c.pack, call.request.feeKeys);
  }

  /** An accepted call on a matter without rows for any of its keys bills exactly its amounts. */
  lemma CallBillsExactly(c: Catalogue, payments: seq<Payment>, call: Call, key: string)
    requires NewRows(c, call.overrides, payments, call.request, call.client).Ok?
    requires Existing(payments, call.request) == [] && key in call.request.feeKeys
    ensures FeeFor(c.pack, key).Some?
    ensures var due := Due(Charged(c.pack, call.overrides, key), call.request);
      var rows := RowsFor(AfterCall(c, payments, call), call.request.entityId, key);
      RowSum(rows) == Times(call.request.feeKeys, key) * due && (rows != [] <==> due > 0)
  {
    CallBuildsRows(c, payments, call);
    var plan := PlanOf(c, call.request);
    var keys := call.request.feeKeys;
    BilledPerKey(c.pack, call.overrides, call.request, call.client.value, plan, |keys|, key);
    assert keys[..|keys|] == keys;
    TimesPositive(keys, key);
    var rows := NewRows(c, call.overrides, payments, call.request, call.client).value;
    FilterConcat(Of(call.request.entityId, key), payments, rows);
    NoneExisting(payments, call.request, key);
    assert [] + RowsFor(rows, call.request.entityId, key) == RowsFor(rows, call.request.entityId, key);
  }

  lemma NoneExisting(payments: seq<Payment>, request: Request, key: string)
    requires Existing(payments, request) == [] && key in request.feeKeys
    ensures RowsFor(payments, request.entityId, key) == []
  {
    FilterMembers(Matching(request), payments);
    forall i | 0 <= i < |payments| ensures !Of(request.entityId, key)(payments[i]) {
      assert payments[i] in payments && payments[i] !in Existing(payments, request);
    }
    FilterNone(Of(request.entityId, key), payments);
  }

  /** A call touches no fee it does not name and no other matter. */
  lemma CallTouchesOnlyItsKeys(c: Catalogue, payments: seq<Payment>, call: Call, entityId: string, key: string)
    requires entityId != call.request.entityId || key !in call.request.feeKeys
    ensures RowsFor(AfterCall(c, payments, call), entityId, key) == RowsFor(payments, entityId, key)
  {
    var rows := NewRows(c, call.overrides, payments, call.request, call.client);
    if rows.Ok? {
      NewRowsMatch(c, payments, call);
      var mine := Of(entityId, key);
      FilterConcat(mine, payments, rows.value);
      FilterNone(mine, rows.value);
      assert RowsFor(payments, entityId, key) + [] == RowsFor(payments, entityId, key);
    }
  }

  /**
   * Billed at most once: over every run, all the rows of a fee on a matter come from one
   * call, were none before it, and sum to that call's amount, once per mention of the key.
   */
  lemma {:induction false} BilledByOneCall(c: Catalogue, calls: seq<Call>, n: nat, entityId: string,
                                           key: string) returns (i: nat)
    requires n <= |calls| && RowsFor(AfterCalls(c, calls, n), entityId, key) != []
    ensures i < n && calls[i].request.entityId == entityId && key in calls[i].request.feeKeys
    ensures FeeFor(c.pack, key).Some?
    ensures RowsFor(AfterCalls(c, calls, i), entityId, key) == []
    ensures RowsFor(AfterCalls(c, calls, n), entityId, key) == RowsFor(AfterCalls(c, calls, i + 1), entityId, key)
    ensures var call := calls[i];
      RowSum(RowsFor(AfterCalls(c, calls, n), entityId, key))
      == Times(call.request.feeKeys, key) * Due(Charged(c.pack, call.overrides, key), call.request)
  {
    var before := AfterCalls(c, calls, n - 1);
    var call := calls[n - 1];
    if RowsFor(before, entityId, key) != [] {
      CallKeepsBilled(c, before, call, entityId, key);
      i := BilledByOneCall(c, calls, n - 1, entityId, key);
    } else {
      i := n - 1;
      if entityId != call.request.entityId || key !in call.request.feeKeys {
        CallTouchesOnlyItsKeys(c, before, call, entityId, key);
      }
      assert before + [] == before;
      CallBillsExactly(c, before, call, key);
    }
  }

  /** For distinct keys that is the amount itself. */
  lemma DistinctKeysBillOnce(keys: seq<string>, key: string)
    requires key in keys && forall i, j :: 0 <= i < j < |keys| ==> keys[i] != keys[j]
    ensures Times(keys, key) == 1
  {
    TimesPositive(keys, key);
  }

  /** Repeating a call that created rows writes nothing. */
  lemma RepeatWritesNothing(c: Catalogue, payments: seq<Payment>, call: Call, again: Call)
    requires AfterCall(c, payments, call) != payments
    requires again.request.entityId == call.request.entityId && again.request.feeKeys == call.request.feeKeys
    ensures AfterCall(c, AfterCall(c, payments, call), again) == AfterCall(c, payments, call)
  {
    var after := AfterCall(c, payments, call);
    var rows := NewRows(c, call.overrides, payments, call.request, call.client).value;
    assert rows != [] by { assert payments + [] == payments; }
    NewRowsMatch(c, payments, call);
    FilterMembers(Matching(again.request), after);
    assert after[|payments|] == rows[0] && rows[0] in after;
    assert rows[0] in Existing(after, again.request);
    assert after + [] == after;
  }

  /**
   * The other side of that coin: a call writes rows for a fee it names, of positive
   * amount, exactly when it is accepted and no fee it names has rows on the matter yet.
   */
  lemma WritesRowsIff(c: Catalogue, payments: seq<Payment>, call: Call, key: string)
    requires key in call.request.feeKeys && FeeFor(c.pack, key).Some?
    requires Due(Charged(c.pack, call.overrides, key), call.request) > 0
    ensures RowsFor(AfterCall(c, payments, call), call.request.entityId, key) != RowsFor(payments,
        call.request.entityId, key)
       <==> Acceptable(c, call.overrides, payments, call.request, call.client) && Existing(payments, call.request) == []
  {
    AcceptedIff(c, call.overrides, payments, call.request, call.client);
    if NewRows(c, call.overrides, payments, call.request, call.client).Ok? {
      if Existing(payments, call.request) == [] {
        CallBillsExactly(c, payments, call, key);
        NoneExisting(payments, call.request, key);
      } else {
        assert payments + [] == payments;
      }
    }
  }

  // ---------- Expansion in terms of the pack, the overrides and the request ----------

  lemma {:induction false} FindPlanHasKey(plans: seq<Plan>, key: string)
    ensures FindPlan(plans, key).Some? ==> FindPlan(plans, key).value.key == key
  {
    if plans != [] { FindPlanHasKey(plans[1..], key); }
  }

  /** The fee a key means: the last of that key in the pack. */
  ghost predicate IsFeeOf(pack: seq<Fee>, key: string, i: nat) {
    i < |pack| && pack[i].key == key && forall j :: i < j < |pack| ==> pack[j].key != key
  }

  lemma {:induction false} FeeForMeans(pack: seq<Fee>, key: string, i: nat)
    requires IsFeeOf(pack, key, i)
    ensures FeeFor(pack, key) == Some(pack[i])
  {
    if i < |pack| - 1 { FeeForMeans(pack[..|pack| - 1], key, i); }
  }

  lemma {:induction false} FeeForNone(pack: seq<Fee>, key: string)
    ensures FeeFor(pack, key).None? <==> forall i :: 0 <= i < |pack| ==> pack[i].key != key
  {
    if pack != [] {
      FeeForNone(pack[..|pack| - 1], key);
    }
  }

  /** What is billed to a matter for a key, over the whole table. */
  function BilledTotal(payments: seq<Payment>, entityId: string, key: string): int {
    if payments == [] then 0
    else
      var p := payments[|payments| - 1];
      BilledTotal(payments[..|payments| - 1], entityId, key)
      + if p.entityId == Some(entityId) && p.feeKey == Some(key) then p.amountMinor else 0
  }

  lemma {:induction false} BilledTotalIsRowSum(payments: seq<Payment>, entityId: string, key: string)
    ensures BilledTotal(payments, entityId, key) == RowSum(RowsFor(payments, entityId, key))
  {
    if payments != [] {
      var n := |payments| - 1;
      BilledTotalIsRowSum(payments[..n], entityId, key);
      FilterLast(Of(entityId, key), payments);
      RowSumConcat(RowsFor(payments[..n], entityId, key),
                   if Of(entityId, key)(payments[n]) then [payments[n]] else []);
      RowSumOne(payments[n]);
    }
  }

  lemma RowSumOne(p: Payment)
    ensures RowSum([p]) == p.amountMinor && RowSum([]) == 0
  {
    assert Map(AmountOf(), [p]) == [p.amountMinor] && Map(AmountOf(), []) == [];
    assert Sum([p.amountMinor]) == p.amountMinor + Sum([p.amountMinor][1..]);
    assert [p.amountMinor][1..] == [];
  }

  lemma {:induction false} TimesNamed(keys: seq<string>, key: string, j: nat)
    requires j < |keys| && keys[j] == key && forall k :: 0 <= k < |keys| && k != j ==> keys[k] != key
    ensures Times(keys, key) == 1
  {
    var n := |keys| - 1;
    if j == n {
      TimesPositive(keys[..n], key);
    } else {
      TimesNamed(keys[..n], key, j);
    }
  }

  /** The price of a fee: the tenant's own for a firm fee with an active override, the pack's for every other. */
  ghost predicate IsPrice(fee: Fee, overrides: map<string, Override>, price: int) {
    if fee.kind == Some(Firm) && fee.key in overrides && overrides[fee.key].active
    then price == overrides[fee.key].amountMinor else price == fee.amountMinor
  }

  /**
   * After an accepted call on a matter without rows, a key named once is billed the price of its
   * fee: once per case, for each applicant but one at least, or for each dependent. What comes to
   * nothing or less is not billed.
   */
  lemma ExpansionBills(c: Catalogue, payments: seq<Payment>, call: Call, key: string, j: nat,
                       i: nat, price: int)
    requires Acceptable(c, call.overrides, payments, call.request, call.client)
    requires Existing(payments, call.request) == [] && j < |call.request.feeKeys| && call.request.feeKeys[j] == key
    requires forall k :: 0 <= k < |call.request.feeKeys| && k != j ==> call.request.feeKeys[k] != key
    requires IsFeeOf(c.pack, key, i) && IsPrice(c.pack[i], call.overrides, price)
    ensures var billed := BilledTotal(AfterCall(c, payments, call), call.request.entityId, key);
      var applicants := if call.request.applicants.Some? then call.request.applicants.value else 1;
      var dependents := if call.request.dependents.Some? then call.request.dependents.value else 0;
      && (c.pack[i].basis == None || c.pack[i].basis == Some(PerCase) ==> billed == if price > 0 then price else 0)
      && (c.pack[i].basis == Some(PerApplicant) && applicants >= 1 && price >= 0 ==> billed == price * applicants)
      && (c.pack[i].basis == Some(PerApplicant) && applicants < 1 && price >= 0 ==> billed == price)
      && (c.pack[i].basis == Some(PerDependent) && dependents >= 0 && price >= 0 ==> billed == price * dependents)
      && (c.pack[i].basis == Some(PerDependent) && dependents < 0 ==> billed == 0)
      && (price <= 0 ==> billed == 0)
  {
    NamedOnceIsDue(c, payments, call, key, j);
    ChargedIs(c.pack, call.overrides, key, i, price);
    DueMeans(Charged(c.pack, call.overrides, key), call.request);
  }

  lemma NamedOnceIsDue(c: Catalogue, payments: seq<Payment>, call: Call, key: string, j: nat)
    requires Acceptable(c, call.overrides, payments, call.request, call.client)
    requires Existing(payments, call.request) == [] && j < |call.request.feeKeys| && call.request.feeKeys[j] == key
    requires forall k :: 0 <= k < |call.request.feeKeys| && k != j ==> call.request.feeKeys[k] != key
    ensures FeeFor(c.pack, key).Some?
    ensures BilledTotal(AfterCall(c, payments, call), call.request.entityId, key)
            == Due(Charged(c.pack, call.overrides, key), call.request)
  {
    TimesNamed(call.request.feeKeys, key, j);
    AcceptedIff(c, call.overrides, payments, call.request, call.client);
    CallBillsExactly(c, payments, call, key);
    BilledTotalIsRowSum(AfterCall(c, payments, call), call.request.entityId, key);
  }

  lemma ChargedIs(pack: seq<Fee>, overrides: map<string, Override>, key: string, i: nat, price: int)
    requires IsFeeOf(pack, key, i) && IsPrice(pack[i], overrides, price)
    ensures FeeFor(pack, key).Some?
    ensures Charged(pack, overrides, key).basis == pack[i].basis && Charged(pack, overrides, key).amountMinor == price
  {
    FeeForMeans(pack, key, i);
  }

  lemma DueMeans(fee: Fee, request: Request)
    ensures var applicants := if request.applicants.Some? then request.applicants.value else 1;
      var dependents := if request.dependents.Some? then request.dependents.value else 0;
      && (fee.basis == None || fee.basis == Some(PerCase)
          ==> Due(fee, request) == if fee.amountMinor > 0 then fee.amountMinor else 0)
      && (fee.basis == Some(PerApplicant) && applicants >= 1 && fee.amountMinor >= 0 ==>
            Due(fee, request) == fee.amountMinor * applicants)
      && (fee.basis == Some(PerApplicant) && applicants < 1 && fee.amountMinor >= 0 ==>
            Due(fee, request) == fee.amountMinor)
      && (fee.basis == Some(PerDependent) && dependents >= 0 && fee.amountMinor >= 0 ==>
            Due(fee, request) == fee.amountMinor * dependents)
      && (fee.basis == Some(PerDependent) && dependents < 0 ==> Due(fee, request) == 0)
      && (fee.amountMinor <= 0 ==> Due(fee, request) == 0)
  {
    var applicants := if request.applicants.Some? then request.applicants.value else 1;
    var dependents := if request.dependents.Some? then request.dependents.value else 0;
    SignOfProduct(fee.amountMinor, applicants);
    SignOfProduct(fee.amountMinor, dependents);
  }

  lemma SignOfProduct(a: int, n: int)
    ensures a >= 0 && n >= 0 ==> a * n >= 0
    ensures a <= 0 && n >= 0 ==> a * n <= 0
  {
  }

  /** A row written for a request: pending, inbound, for one of its fees, with what the request and the pack say. */
  ghost predicate IsRowOf(c: Catalogue, overrides: map<string, Override>, request: Request,
                          clientId: Option<string>, p: Payment) {
    && p.entityId == Some(request.entityId) && p.clientId == clientId && p.payee == None && p.direction == Inbound
    && p.status == Pending && p.paidAt == None && p.reference == request.reference
    && (p.planKey.Some? ==> p.planKey == request.planKey)
    && (request.planKey.Some? ==> p.planKey.Some?)
    && p.feeKey.Some? && p.feeKey.value in request.feeKeys
    && exists i: nat :: IsFeeOf(c.pack, p.feeKey.value, i) && HasTermsOf(c.pack[i], overrides, p)
  }

  /** The kind of the fee, the firm's own if it has none, and the currency of its price in capitals. */
  ghost predicate HasTermsOf(fee: Fee, overrides: map<string, Override>, p: Payment) {
    && p.feeKind == Some(if fee.kind.Some? then fee.kind.value else Firm)
    && p.currency == Upper(if fee.kind == Some(Firm) && fee.key in overrides && overrides[fee.key].active
                           then overrides[fee.key].currency else fee.currency)
  }

  lemma {:induction false} FeeForIsFeeOf(pack: seq<Fee>, key: string) returns (i: nat)
    requires FeeFor(pack, key).Some?
    ensures IsFeeOf(pack, key, i)
  {
    if pack[|pack| - 1].key == key {
      i := |pack| - 1;
    } else {
      i := FeeForIsFeeOf(pack[..|pack| - 1], key);
    }
  }

  lemma FeeRowsAreOf(c: Catalogue, overrides: map<string, Override>, request: Request, clientId: Option<string>,
                     key: string)
    requires key in request.feeKeys && FeeFor(c.pack, key).Some?
    requires request.planKey.Some? ==> PlanOf(c, request).Some?
    requires FeeRows(request, clientId, PlanOf(c, request), Charged(c.pack, overrides, key)).Ok?
    ensures var rows := FeeRows(request, clientId, PlanOf(c, request), Charged(c.pack, overrides, key)).value;
      forall k :: 0 <= k < |rows| ==> IsRowOf(c, overrides, request, clientId, rows[k])
  {
    var rows := FeeRows(request, clientId, PlanOf(c, request), Charged(c.pack, overrides, key)).value;
    var i := FeeForIsFeeOf(c.pack, key);
    FeeForMeans(c.pack, key, i);
    if request.planKey.Some? { FindPlanHasKey(c.plans, request.planKey.value); }
    forall k | 0 <= k < |rows| ensures IsRowOf(c, overrides, request, clientId, rows[k]) {
      assert HasTermsOf(c.pack[i], overrides, rows[k]);
    }
  }

  lemma {:induction false} RowsAreOf(c: Catalogue, overrides: map<string, Override>, request: Request,
                                     clientId: Option<string>, n: nat)
    requires n <= |request.feeKeys| && forall k :: k in request.feeKeys ==> FeeFor(c.pack, k).Some?
    requires request.planKey.Some? ==> PlanOf(c, request).Some?
    requires RowsUpTo(c.pack, overrides, request, clientId, PlanOf(c, request), n).Ok?
    ensures var rows := RowsUpTo(c.pack, overrides, request, clientId, PlanOf(c, request), n).value;
      forall k :: 0 <= k < |rows| ==> IsRowOf(c, overrides, request, clientId, rows[k])
  {
    if n > 0 {
      RowsAreOf(c, overrides, request, clientId, n - 1);
      FeeRowsAreOf(c, overrides, request, clientId, request.feeKeys[n - 1]);
    }
  }

  /** Every row an accepted call adds is of this form; the rows before it stay as they were. */
  lemma WrittenRowsMean(c: Catalogue, payments: seq<Payment>, call: Call)
    requires Acceptable(c, call.overrides, payments, call.request, call.client)
    ensures var after := AfterCall(c, payments, call);
      && payments <= after
      && (Existing(payments, call.request) != [] ==> after == payments)
      && (forall k :: |payments| <= k < |after| ==>
            call.client.Ok? && IsRowOf(c, call.overrides, call.request, call.client.value, after[k]))
  {
    AcceptedIff(c, call.overrides, payments, call.request, call.client);
    assert payments + [] == payments;
    if Existing(payments, call.request) == [] {
      CallBuildsRows(c, payments, call);
      RowsAreOf(c, call.overrides, call.request, call.client.value, |call.request.feeKeys|);
    }
  }
}
