/** Splitting one fee into the portions a payment plan asks for, in exact minor units. */
module FeeSplit {
  import opened Common

  const MS_PER_DAY := 86_400_000

  datatype Stage = Stage(atStep: string, portionBps: int)

  datatype PlanKind = Upfront | Installments | StageGated

  datatype Plan = Plan(
    key: string,
    kind: Option<PlanKind>,
    installmentCount: Option<int>,
    intervalDays: Option<int>,
    stages: Option<seq<Stage>>)

  datatype Portion = Portion(amountMinor: int, dueDate: Option<int>, atStep: Option<string>)

  /** The stages sum to this many basis points, and not to the whole. */
  datatype SplitError = StagesDoNotSum(totalBps: int)

  function Amounts(portions: seq<Portion>): seq<int> { Map((p: Portion) => p.amountMinor, portions) }

  function TotalBps(stages: seq<Stage>): int {
    if stages == [] then 0 else TotalBps(stages[..|stages| - 1]) + stages[|stages| - 1].portionBps
  }

  function InstallmentCount(plan: Plan): (count: int)
    ensures count >= 1
  {
    match plan.installmentCount case Some(n) => if n > 1 then n else 1 case None => 1
  }

  function IntervalDays(plan: Plan): int {
    match plan.intervalDays case Some(n) => n case None => 30
  }

  // ---------- The split as a function ----------

  /** The remainder goes on the first instalment. */
  function Installment(amount: int, count: int, i: nat): int
    requires count >= 1
  {
    var base := amount / count;
    if i == 0 then base + (amount - base * count) else base
  }

  function InstallmentPortions(amount: int, count: int, intervalDays: int, atStep: Option<string>,
                               start: int): seq<Portion>
    requires count >= 1
  {
    seq(count, i requires 0 <= i < count =>
      Portion(Installment(amount, count, i), Some(start + i * intervalDays * MS_PER_DAY), atStep))
  }

  function StageShare(amount: int, stage: Stage): int { amount * stage.portionBps / 10_000 }

  /** What the first `n` stages take when none of them is the last. */
  function Allocated(amount: int, stages: seq<Stage>, n: nat): int
    requires n <= |stages|
  {
    if n == 0 then 0 else Allocated(amount, stages, n - 1) + StageShare(amount, stages[n - 1])
  }

  /** The last stage takes whatever is left. */
  function StageAmount(amount: int, stages: seq<Stage>, i: nat): int
    requires i < |stages|
  {
    if i == |stages| - 1 then amount - Allocated(amount, stages, i) else StageShare(amount, stages[i])
  }

  function StagePortions(amount: int, stages: seq<Stage>): seq<Portion> {
    seq(|stages|, i requires 0 <= i < |stages| =>
      Portion(StageAmount(amount, stages, i), None, Some(stages[i].atStep)))
  }

  function Split(amount: int, plan: Option<Plan>, atStep: Option<string>,
                 start: int): Result<seq<Portion>, SplitError> {
    var single := [Portion(amount, None, atStep)];
    match plan
    case None => Ok(single)
    case Some(p) =>
      match (if p.kind.Some? then p.kind.value else Upfront)
      case Upfront => Ok(single)
      case Installments =>
        var count := InstallmentCount(p);
        if count == 1 then Ok(single) else Ok(InstallmentPortions(amount, count, IntervalDays(p), atStep, start))
      case StageGated =>
        var stages := if p.stages.Some? then p.stages.value else [];
        if stages == [] then Ok(single)
        else if TotalBps(stages) != 10_000 then Err(StagesDoNotSum(TotalBps(stages)))
        else Ok(StagePortions(amount, stages))
  }

  /** The stage loop: a running allocation, and the last stage gets the rest. */
  method SplitStages(amount: int, stages: seq<Stage>) returns (portions: seq<Portion>)
    ensures portions == StagePortions(amount, stages)
  {
    var taken := 0;
    portions := [];
    for i := 0 to |stages|
      invariant |portions| == i
      invariant i < |stages| ==> taken == Allocated(amount, stages, i)
      invariant forall k :: 0 <= k < i ==>
        portions[k] == Portion(StageAmount(amount, stages, k), None, Some(stages[k].atStep))
    {
      var portion := if i == |stages| - 1 then amount - taken else amount * stages[i].portionBps / 10_000;
      taken := taken + portion;
      portions := portions + [Portion(portion, None, Some(stages[i].atStep))];
    }
  }

  // ---------- Exactness ----------

  ghost predicate NonNegativeStages(plan: Option<Plan>) {
    plan.Some? && plan.value.stages.Some? ==>
      forall i :: 0 <= i < |plan.value.stages.value| ==> plan.value.stages.value[i].portionBps >= 0
  }

  lemma {:induction false} SumConstant(n: nat, c: int)
    ensures Sum(seq(n, _ => c)) == n * c
  {
    if n > 0 {
      SumConstant(n - 1, c);
      assert seq(n, _ => c) == [c] + seq(n - 1, _ => c);
    }
  }

  /**
   * Instalments sum to the amount; all after the first are equal, and the first exceeds them by less
   * than the count.
   */
  lemma {:induction false} InstallmentsExact(amount: int, count: int, intervalDays: int, atStep: Option<string>,
                                             start: int)
    requires amount >= 0 && count >= 1
    ensures var portions := InstallmentPortions(amount, count, intervalDays, atStep, start);
      && Sum(Amounts(portions)) == amount
      && (forall i :: 1 <= i < count ==> 0 <= portions[i].amountMinor == amount / count)
      && 0 <= portions[0].amountMinor - amount / count < count
  {
    var portions := InstallmentPortions(amount, count, intervalDays, atStep, start);
    var base := amount / count;
    SumConstant(count - 1, base);
    assert Amounts(portions) == [base + (amount - base * count)] + seq(count - 1, _ => base);
    assert Sum(Amounts(portions)) == base + (amount - base * count) + (count - 1) * base;
    DivisionLeaves(amount, count);
  }

  lemma DivisionLeaves(amount: int, count: int)
    requires amount >= 0 && count >= 1
    ensures var base := amount / count;
      (count - 1) * base + base == base * count && 0 <= amount - base * count < count && base >= 0
  {
  }

  /** What the first `n` stages take lies below their exact share by less than `n` units. */
  lemma {:induction false} AllocatedBounds(amount: int, stages: seq<Stage>, n: nat)
    requires n <= |stages|
    ensures amount * TotalBps(stages[..n]) - 9_999 * n <= 10_000 * Allocated(amount, stages,
        n) <= amount * TotalBps(stages[..n])
  {
    if n > 0 {
      AllocatedBounds(amount, stages, n - 1);
      var bps, before := stages[n - 1].portionBps, TotalBps(stages[..n - 1]);
      assert stages[..n][..n - 1] == stages[..n - 1];
      assert amount * (before + bps) == amount * before + amount * bps;
      var share := StageShare(amount, stages[n - 1]);
      assert 10_000 * share <= amount * bps <= 10_000 * share + 9_999;
    }
  }

  lemma {:induction false} StageSums(amount: int, stages: seq<Stage>, n: nat)
    requires n < |stages|
    ensures Sum(Amounts(StagePortions(amount, stages))[..n]) == Allocated(amount, stages, n)
  {
    var amounts := Amounts(StagePortions(amount, stages));
    if n > 0 {
      StageSums(amount, stages, n - 1);
      assert amounts[..n] == amounts[..n - 1] + [StageShare(amount, stages[n - 1])];
      SumConcat(amounts[..n - 1], [StageShare(amount, stages[n - 1])]);
    }
  }

  /** Stage portions sum to the amount, whatever the basis points divide into. */
  lemma StagesSum(amount: int, stages: seq<Stage>)
    requires stages != []
    ensures Sum(Amounts(StagePortions(amount, stages))) == amount
  {
    var n := |stages| - 1;
    var amounts := Amounts(StagePortions(amount, stages));
    StageSums(amount, stages, n);
    assert amounts == amounts[..n] + [amounts[n]];
    SumConcat(amounts[..n], [amounts[n]]);
  }

  /** Every portion but the last is below its exact share by less than one unit. */
  lemma StageBelowShare(amount: int, stages: seq<Stage>, i: nat)
    requires i < |stages| - 1
    ensures 0 <= amount * stages[i].portionBps - 10_000 * StagePortions(amount, stages)[i].amountMinor < 10_000
  {
  }

  /** The last portion is over its exact share by less than the number of the others. */
  lemma LastStageOverShare(amount: int, stages: seq<Stage>)
    requires stages != [] && TotalBps(stages) == 10_000
    ensures var last := |stages| - 1;
      0 <= 10_000 * StagePortions(amount, stages)[last].amountMinor - amount * stages[last].portionBps <= 9_999 * last
  {
    var last := |stages| - 1;
    AllocatedBounds(amount, stages, last);
    assert amount * TotalBps(stages[..last]) + amount * stages[last].portionBps == amount * 10_000;
  }

  lemma NonNegativeProduct(a: int, b: int)
    requires a >= 0 && b >= 0
    ensures a * b >= 0
  {
  }

  /** Every accepted split of a positive amount has portions that sum to it, none negative if no stage is. */
  lemma SplitExact(amount: int, plan: Option<Plan>, atStep: Option<string>, start: int)
    requires amount > 0 && Split(amount, plan, atStep, start).Ok?
    ensures var portions := Split(amount, plan, atStep, start).value;
      && Sum(Amounts(portions)) == amount && portions != []
      && (NonNegativeStages(plan) ==> forall i :: 0 <= i < |portions| ==> portions[i].amountMinor >= 0)
  {
    var portions := Split(amount, plan, atStep, start).value;
    if portions == [Portion(amount, None, atStep)] {
      assert Amounts(portions) == [amount];
    } else if plan.value.kind == Some(Installments) {
      InstallmentsExact(amount, InstallmentCount(plan.value), IntervalDays(plan.value), atStep, start);
    } else {
      var stages := plan.value.stages.value;
      StagesSum(amount, stages);
      if NonNegativeStages(plan) { StagesNonNegative(amount, stages); }
    }
  }

  lemma StagesNonNegative(amount: int, stages: seq<Stage>)
    requires amount > 0 && stages != [] && TotalBps(stages) == 10_000
    requires forall i :: 0 <= i < |stages| ==> stages[i].portionBps >= 0
    ensures forall i :: 0 <= i < |stages| ==> StagePortions(amount, stages)[i].amountMinor >= 0
  {
    LastStageOverShare(amount, stages);
    forall i | 0 <= i < |stages| ensures StagePortions(amount, stages)[i].amountMinor >= 0 {
      NonNegativeProduct(amount, stages[i].portionBps);
      if i < |stages| - 1 { StageBelowShare(amount, stages, i); }
    }
  }

  /** A plan is refused exactly when its stages are there and do not sum to the whole. */
  lemma SplitRefusedIff(amount: int, plan: Option<Plan>, atStep: Option<string>, start: int)
    ensures Split(amount, plan, atStep, start).Err?
       <==> && plan.Some? && plan.value.kind == Some(StageGated) && plan.value.stages.Some?
            && plan.value.stages.value != [] && TotalBps(plan.value.stages.value) != 10_000
  {
  }

  /**
   * How many portions there are, when each falls due and which step holds it: one for a plan that
   * does not split, thirty days apart unless the plan says otherwise, or one at each stage.
   */
  lemma SplitMeans(amount: int, p: Plan, atStep: Option<string>, start: int)
    requires Split(amount, Some(p), atStep, start).Ok?
    ensures Split(amount, None, atStep, start) == Ok([Portion(amount, None, atStep)])
    ensures var portions := Split(amount, Some(p), atStep, start).value;
      && (|| p.kind == None || p.kind == Some(Upfront)
          || (p.kind == Some(Installments) && (p.installmentCount.None? || p.installmentCount.value <= 1))
          || (p.kind == Some(StageGated) && (p.stages.None? || p.stages.value == [])) ==>
            portions == [Portion(amount, None, atStep)])
      && (p.kind == Some(Installments) && p.installmentCount.Some? && p.installmentCount.value > 1 ==>
            && |portions| == p.installmentCount.value
            && forall i :: 0 <= i < |portions| ==>
                 && portions[i].atStep == atStep
                 && portions[i].dueDate
                    == Some(start + i * (if p.intervalDays.Some? then p.intervalDays.value else 30) * 86_400_000))
      && (p.kind == Some(StageGated) && p.stages.Some? && p.stages.value != [] ==>
            && |portions| == |p.stages.value|
            && forall i :: 0 <= i < |portions| ==>
                 portions[i].atStep == Some(p.stages.value[i].atStep) && portions[i].dueDate == None)
  {
  }
}
