/**
 * Expansion and arrears over the one payments table: which workflow steps a stage-gated
 * expansion holds, and what it takes to free them.
 */
module StageArrears {
  import opened Common
  import opened PaymentRows
  import opened FeeSplit
  import opened FeeSchedule
  import Payments

  ghost predicate IsStage(plan: Plan, step: string) {
    plan.stages.Some? && exists k :: 0 <= k < |plan.stages.value| && plan.stages.value[k].atStep == step
  }

  /** A plan that portions fees over its stages. */
  predicate Staged(plan: Plan) {
    plan.kind == Some(StageGated) && plan.stages.Some? && plan.stages.value != []
  }

  /** A row of the request, not yet settled, at a stage of the plan. */
  ghost predicate StageRow(request: Request, plan: Plan, p: Payment) {
    && p.entityId == Some(request.entityId) && p.status == Pending && p.planKey == Some(plan.key)
    && p.atStep.Some? && IsStage(plan, p.atStep.value)
  }

  ghost predicate HasRowAt(rows: seq<Payment>, step: string) {
    exists i :: 0 <= i < |rows| && rows[i].atStep == Some(step)
  }

  /** A fee of positive amount has a row at every stage, and all its rows are such. */
  lemma FeeRowsAreStaged(request: Request, clientId: Option<string>, plan: Plan, fee: Fee)
    requires Staged(plan) && FeeRows(request, clientId, Some(plan), fee).Ok?
    ensures var rows := FeeRows(request, clientId, Some(plan), fee).value;
      && (forall i :: 0 <= i < |rows| ==> StageRow(request, plan, rows[i]))
      && (forall step :: IsStage(plan, step) ==> (HasRowAt(rows, step) <==> AmountFor(fee, request) > 0))
  {
    var amount := AmountFor(fee, request);
    var rows := FeeRows(request, clientId, Some(plan), fee).value;
    if amount > 0 {
      var stages := plan.stages.value;
      assert Split(amount, Some(plan), fee.atStep, request.startDate) == Ok(StagePortions(amount, stages));
      assert |rows| == |stages|;
      assert forall i :: 0 <= i < |rows| ==> rows[i].atStep == Some(stages[i].atStep);
    }
  }

  lemma StagedAppend(request: Request, plan: Plan, before: seq<Payment>, added: seq<Payment>)
    requires forall i :: 0 <= i < |before| ==> StageRow(request, plan, before[i])
    requires forall i :: 0 <= i < |added| ==> StageRow(request, plan, added[i])
    ensures forall i :: 0 <= i < |before + added| ==> StageRow(request, plan, (before + added)[i])
    ensures forall step :: HasRowAt(before + added, step) <==> HasRowAt(before, step) || HasRowAt(added, step)
  {
    var rows := before + added;
    forall step ensures HasRowAt(rows, step) <==> HasRowAt(before, step) || HasRowAt(added, step) {
      if i :| 0 <= i < |before| && before[i].atStep == Some(step) {
        assert rows[i].atStep == Some(step);
      }
      if i :| 0 <= i < |added| && added[i].atStep == Some(step) {
        assert rows[|before| + i].atStep == Some(step);
      }
      if i :| 0 <= i < |rows| && rows[i].atStep == Some(step) {
        assert if i < |before| then before[i].atStep == Some(step) else added[i - |before|].atStep == Some(step);
      }
    }
  }

  /** Some fee of the request comes to something. */
  ghost predicate ComesToSomething(c: Catalogue, overrides: map<string, Override>, request: Request, n: nat)
    requires n <= |request.feeKeys|
    requires forall k :: k in request.feeKeys ==> FeeFor(c.pack, k).Some?
  {
    exists j :: 0 <= j < n && AmountFor(Charged(c.pack, overrides, request.feeKeys[j]), request) > 0
  }

  lemma {:induction false} RowsAreStaged(c: Catalogue, overrides: map<string, Override>, request: Request,
                                         clientId: Option<string>, plan: Plan, n: nat)
    requires n <= |request.feeKeys| && Staged(plan)
    requires forall k :: k in request.feeKeys ==> FeeFor(c.pack, k).Some?
    requires RowsUpTo(c.pack, overrides, request, clientId, Some(plan), n).Ok?
    ensures var rows := RowsUpTo(c.pack, overrides, request, clientId, Some(plan), n).value;
      && (forall i :: 0 <= i < |rows| ==> StageRow(request, plan, rows[i]))
      && (forall step :: IsStage(plan, step) ==> (HasRowAt(rows, step) <==> ComesToSomething(c, overrides, request, n)))
  {
    if n > 0 {
      var fee := Charged(c.pack, overrides, request.feeKeys[n - 1]);
      RowsAreStaged(c, overrides, request, clientId, plan, n - 1);
      FeeRowsAreStaged(request, clientId, plan, fee);
      StagedAppend(request, plan, RowsUpTo(c.pack, overrides, request, clientId, Some(plan), n - 1).value,
                   FeeRows(request, clientId, Some(plan), fee).value);
      assert ComesToSomething(c, overrides, request, n)
        <==> ComesToSomething(c, overrides, request, n - 1) || AmountFor(fee, request) > 0;
    }
  }

  /** An accepted call, on a matter that has no rows for its fees, under a staged plan that gates. */
  ghost predicate GatedExpansion(c: Catalogue, payments: seq<Payment>, call: Call, plan: Plan, gating: set<string>) {
    && Acceptable(c, call.overrides, payments, call.request, call.client) && Existing(payments, call.request) == []
    && PlanOf(c, call.request) == Some(plan) && Staged(plan) && plan.key in gating
  }

  lemma NewRowsAreStaged(c: Catalogue, payments: seq<Payment>, call: Call, plan: Plan,
                         gating: set<string>) returns (rows: seq<Payment>)
    requires GatedExpansion(c, payments, call, plan, gating)
    ensures AfterCall(c, payments, call) == payments + rows
    ensures forall i :: 0 <= i < |rows| ==> StageRow(call.request, plan, rows[i])
    ensures forall step :: IsStage(plan, step) ==>
      (HasRowAt(rows, step) <==> ComesToSomething(c, call.overrides, call.request, |call.request.feeKeys|))
  {
    AcceptedIff(c, call.overrides, payments, call.request, call.client);
    CallBuildsRows(c, payments, call);
    rows := NewRows(c, call.overrides, payments, call.request, call.client).value;
    RowsAreStaged(c, call.overrides, call.request, call.client.value, plan, |call.request.feeKeys|);
  }

  /**
   * Such an expansion holds exactly the steps of its stages, a stage of no basis points
   * included, unless it comes to nothing; any other step is as it was.
   */
  lemma ExpansionHoldsItsStages(c: Catalogue, payments: seq<Payment>, call: Call, plan: Plan,
                                gating: set<string>, step: string)
    requires GatedExpansion(c, payments, call, plan, gating)
    ensures Payments.ArrearsBlocking(AfterCall(c, payments, call), call.request.entityId, step, gating) != []
       <==> || Payments.ArrearsBlocking(payments, call.request.entityId, step, gating) != []
            || (IsStage(plan, step) && ComesToSomething(c, call.overrides, call.request, |call.request.feeKeys|))
  {
    var entityId := call.request.entityId;
    var rows := NewRowsAreStaged(c, payments, call, plan, gating);
    var after := payments + rows;
    Payments.NoArrearsIff(payments, entityId, step, gating);
    Payments.NoArrearsIff(after, entityId, step, gating);
    StagedBlockIff(call.request, plan, rows, gating, step);
    assert forall i :: 0 <= i < |payments| ==> after[i] == payments[i];
    assert forall i :: 0 <= i < |rows| ==> after[|payments| + i] == rows[i];
    if i :| 0 <= i < |rows| && rows[i].atStep == Some(step) {
      assert Payments.Blocks(after[|payments| + i], entityId, step, gating);
    }
  }

  lemma StagedBlockIff(request: Request, plan: Plan, rows: seq<Payment>, gating: set<string>, step: string)
    requires forall i :: 0 <= i < |rows| ==> StageRow(request, plan, rows[i])
    requires plan.key in gating
    ensures forall i :: 0 <= i < |rows| ==> (Payments.Blocks(rows[i], request.entityId, step, gating)
        <==> rows[i].atStep == Some(step))
    ensures HasRowAt(rows, step) ==> IsStage(plan, step)
  {
  }

  /**
   * And it holds them until its rows are settled: after any run of settlements a step that was
   * free before the call is free again exactly when each of the call's rows at it has been
   * paid or cancelled.
   */
  lemma HeldUntilSettled(c: Catalogue, payments: seq<Payment>, call: Call, plan: Plan, gating: set<string>,
                         step: string,
                         run: seq<Payments.Settlement>)
    requires GatedExpansion(c, payments, call, plan, gating)
    requires Payments.ArrearsBlocking(payments, call.request.entityId, step, gating) == []
    ensures var after := AfterCall(c, payments, call);
      Payments.ArrearsBlocking(Payments.AfterSettles(after, run), call.request.entityId, step, gating) == []
      <==> forall i :: |payments| <= i < |after| && after[i].atStep == Some(step) ==> Payments.Leaves(after, run, i)
  {
    var entityId := call.request.entityId;
    var rows := NewRowsAreStaged(c, payments, call, plan, gating);
    var after := payments + rows;
    Payments.NoArrearsIff(payments, entityId, step, gating);
    Payments.FreeIffAllLeave(after, run, entityId, step, gating);
    StagedBlockIff(call.request, plan, rows, gating, step);
    forall i | 0 <= i < |after|
      ensures Payments.Blocks(after[i], entityId, step, gating) <==> |payments| <= i && after[i].atStep == Some(step)
    {
      assert after[i] == if i < |payments| then payments[i] else rows[i - |payments|];
    }
  }

  // ---------- Settling does not unbill ----------

  lemma {:induction false} SettledRowsStillMatch(rows: seq<Payment>, run: seq<Payments.Settlement>, id: nat,
                                                 request: Request)
    requires id < |rows|
    ensures |Payments.AfterSettles(rows, run)| == |rows|
    ensures MatchesRequest(request, Payments.AfterSettles(rows, run)[id]) <==> MatchesRequest(request, rows[id])
    decreases |run|
  {
    if run != [] { SettledRowsStillMatch(Payments.AfterSettle(rows, run[0]), run[1..], id, request); }
  }

  /** Whatever has been settled, refunded or cancelled since: repeating a call that created rows writes nothing. */
  lemma RepeatAfterSettling(c: Catalogue, payments: seq<Payment>, call: Call, again: Call,
                            run: seq<Payments.Settlement>)
    requires AfterCall(c, payments, call) != payments
    requires again.request.entityId == call.request.entityId && again.request.feeKeys == call.request.feeKeys
    ensures var settled := Payments.AfterSettles(AfterCall(c, payments, call), run);
      AfterCall(c, settled, again) == settled
  {
    var after := AfterCall(c, payments, call);
    var settled := Payments.AfterSettles(after, run);
    assert payments + [] == payments;
    NewRowsMatch(c, payments, call);
    var i := |payments|;
    SettledRowsStillMatch(after, run, i, again.request);
    FilterMembers(Matching(again.request), settled);
    assert settled[i] in settled && settled[i] in Existing(settled, again.request);
    assert settled + [] == settled;
  }
}
