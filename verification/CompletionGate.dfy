/**
 * The gate on closing a record, and what it means for whole runs: which sets of
 * records can never close again, and when everything can be closed.
 */
module CompletionGate {
  import opened Common
  import opened Relations

  // ---------- One update ----------

  /** What an update says about the status: nothing, null, or a new one. */
  datatype Change = Unmentioned | Cleared | To(status: Status)

  /** Only a transition into a finished status is gated; reopening, clearing and other edits are not. */
  predicate Closing(entity: Entity, change: Change) {
    && change.To? && Finished(change.status)
    && !(entity.status.Some? && Finished(entity.status.value))
  }

  function StatusAfter(status: Option<Status>, change: Change): Option<Status> {
    match change
    case Unmentioned => status
    case Cleared => None
    case To(next) => Some(next)
  }

  /** `packConsulted` is whether the caller passed its vertical; without it no relation is a dependency. */
  function UpdateRefusal(definitions: seq<Definition>, world: World, actor: Actor, id: Id, change: Change,
                         packConsulted: bool): Option<Refusal> {
    if id !in world.entities then Some(NotFound(id))
    else if !actor.CanWrite(id) then Some(if actor.CanRead(id) then Forbidden else NotFound(id))
    else if Closing(world.entities[id], change) && packConsulted && OpenBlockers(definitions, world, id) != {}
    then Some(StillBlocked(|OpenBlockers(definitions, world, id)|))
    else None
  }

  function EntitiesAfterUpdate(definitions: seq<Definition>, world: World, actor: Actor, id: Id, change: Change,
                               packConsulted: bool): map<Id, Entity> {
    if UpdateRefusal(definitions, world, actor, id, change, packConsulted).Some? then world.entities
    else world.entities[id := world.entities[id].(status := StatusAfter(world.entities[id].status, change))]
  }

  class CrmService {
    const relations: RelationService

    constructor (relations: RelationService)
      ensures this.relations == relations
    {
      this.relations := relations;
    }

    method UpdateEntity(id: Id, actor: Actor, change: Change, packConsulted: bool) returns (r: Result<Entity, Refusal>)
      modifies relations`entities
      ensures relations.entities
           == EntitiesAfterUpdate(relations.definitions, old(relations.Current()), actor, id, change, packConsulted)
      ensures match UpdateRefusal(relations.definitions, old(relations.Current()), actor, id, change, packConsulted)
              case Some(refusal) => r == Err(refusal)
              case None => id in relations.entities && r == Ok(relations.entities[id])
      ensures r.Err? ==> relations.entities == old(relations.entities)
      ensures r.Ok? <==>
        && id in old(relations.entities) && actor.tenantWide
        && !(&& packConsulted && change in {To(Resolved), To(Closed), To(Status.Cancelled)}
             && old(relations.entities)[id].status !in {Some(Resolved), Some(Closed), Some(Status.Cancelled)}
             && exists other :: HeldBy(relations.definitions, old(relations.Current()), id, other))
      ensures r.Ok? ==>
        && relations.entities == old(relations.entities)[id := r.value]
        && r.value.kind == old(relations.entities)[id].kind
        && r.value.status == (match change
                              case Unmentioned => old(relations.entities)[id].status
                              case Cleared => None
                              case To(status) => Some(status))
    {
      forall other
        ensures other in OpenBlockers(relations.definitions, relations.Current(), id)
           <==> HeldBy(relations.definitions, relations.Current(), id, other)
      {
        BlockersAre(relations.definitions, relations.Current(), id, other);
      }
      if id !in relations.entities {
        return Err(NotFound(id));
      }
      var entity := relations.entities[id];
      if !actor.CanWrite(id) {
        return Err(if actor.CanRead(id) then Forbidden else NotFound(id));
      }
      if Closing(entity, change) && packConsulted {
        var gate := relations.AssertCompletable(id);
        if gate.Err? {
          return Err(gate.error);
        }
      }
      if change != Unmentioned {
        entity := entity.(status := if change.Cleared? then None else Some(change.status));
      }
      relations.entities := relations.entities[id := entity];
      return Ok(entity);
    }
  }

  // ---------- Runs ----------

  datatype Step =
    | LinkStep(actor: Actor, key: string, fromId: Id, toId: Id, createdBy: Option<string>)
    | UnlinkStep(actor: Actor, key: string, fromId: Id, toId: Id)
    | UpdateStep(actor: Actor, id: Id, change: Change, packConsulted: bool)

  ghost function Next(definitions: seq<Definition>, world: World, step: Step): World {
    match step
    case LinkStep(actor, key, fromId, toId, createdBy) =>
      world.(edges := EdgesAfterLink(definitions, world, actor, key, fromId, toId, createdBy))
    case UnlinkStep(actor, key, fromId, toId) =>
      world.(edges := EdgesAfterUnlink(world, actor, key, fromId, toId))
    case UpdateStep(actor, id, change, packConsulted) =>
      world.(entities := EntitiesAfterUpdate(definitions, world, actor, id, change, packConsulted))
  }

  ghost function After(definitions: seq<Definition>, world: World, steps: seq<Step>): World
    decreases |steps|
  {
    if steps == [] then world else After(definitions, Next(definitions, world, steps[0]), steps[1..])
  }

  /** Every run of links, unlinks and updates keeps the relation table sound. */
  lemma {:induction false} RunsKeepSound(definitions: seq<Definition>, world: World, steps: seq<Step>)
    requires Sound(definitions, world.edges)
    ensures Sound(definitions, After(definitions, world, steps).edges)
    decreases |steps|
  {
    if steps != [] {
      match steps[0] {
        case LinkStep(actor, key, fromId, toId, createdBy) =>
          LinkKeepsSound(definitions, world, actor, key, fromId, toId, createdBy);
        case UnlinkStep(_, key, fromId, toId) =>
          FilterKeepsSound(definitions, world.edges, (e: Edge) => !e.Is(key, fromId, toId));
        case UpdateStep(_, _, _, _) =>
      }
      RunsKeepSound(definitions, Next(definitions, world, steps[0]), steps[1..]);
    }
  }

  ghost predicate IsOpenIn(world: World, id: Id) { id in world.entities && world.entities[id].IsOpen() }

  ghost function OpenRecords(world: World): set<Id> { set id | id in world.entities && world.entities[id].IsOpen() }

  /** A declared, blocking edge from `x` to `y`: `x` may not close while `y` is open. */
  ghost predicate Blocks(definitions: seq<Definition>, world: World, x: Id, y: Id) {
    exists e :: e in world.edges && e.fromId == x && e.toId == y && e.key in BlockingKeys(definitions)
  }

  ghost predicate BlockedWithin(definitions: seq<Definition>, world: World, x: Id, s: set<Id>) {
    exists y :: y in s && Blocks(definitions, world, x, y)
  }

  /** Open records each of which has a blocking edge into the set. */
  ghost predicate Deadlocked(definitions: seq<Definition>, world: World, s: set<Id>) {
    && s <= OpenRecords(world)
    && forall x {:trigger BlockedWithin(definitions, world, x, s)} :: x in s ==> BlockedWithin(definitions, world, x, s)
  }

  lemma OpenBlockersAre(definitions: seq<Definition>, world: World, x: Id)
    ensures forall y ::
      y in OpenBlockers(definitions, world, x) <==> IsOpenIn(world, y) && Blocks(definitions, world, x, y)
  {
  }

  /** Updates by callers that consult the pack and clear no status, and links; no unlinks. */
  ghost predicate Gated(steps: seq<Step>) {
    forall i :: 0 <= i < |steps| ==>
      !steps[i].UnlinkStep? && (steps[i].UpdateStep? ==> steps[i].packConsulted && !steps[i].change.Cleared?)
  }

  /** An accepted update that clears the status of a member, or finishes one without consulting the pack. */
  ghost predicate Releases(definitions: seq<Definition>, world: World, step: Step, s: set<Id>) {
    && step.UpdateStep? && step.id in s
    && UpdateRefusal(definitions, world, step.actor, step.id, step.change, step.packConsulted).None?
    && (step.change.Cleared? || (step.change.To? && Finished(step.change.status) && !step.packConsulted))
  }

  /** The exact step: a link or update keeps a deadlocked set unless it releases a member. */
  lemma StepKeepsDeadlockIff(definitions: seq<Definition>, world: World, step: Step, s: set<Id>)
    requires Deadlocked(definitions, world, s) && !step.UnlinkStep?
    ensures Deadlocked(definitions, Next(definitions, world, step), s) <==> !Releases(definitions, world, step, s)
  {
    var next := Next(definitions, world, step);
    if Releases(definitions, world, step, s) {
      assert !IsOpenIn(next, step.id);
    } else {
      forall x | x in s ensures IsOpenIn(next, x) && BlockedWithin(definitions, next, x, s) {
        assert x in OpenRecords(world) && BlockedWithin(definitions, world, x, s);
        var y :| y in s && Blocks(definitions, world, x, y);
        var e :| e in world.edges && e.fromId == x && e.toId == y && e.key in BlockingKeys(definitions);
        assert e in next.edges;
        assert Blocks(definitions, next, x, y);
        OpenBlockersAre(definitions, world, x);
        assert y in OpenBlockers(definitions, world, x);
      }
    }
  }

  /** The deadlock theorem: along every gated run, such a set stays open forever. */
  lemma {:induction false} DeadlockIsForever(definitions: seq<Definition>, world: World, steps: seq<Step>, s: set<Id>)
    requires Deadlocked(definitions, world, s) && Gated(steps)
    ensures Deadlocked(definitions, After(definitions, world, steps), s)
    ensures s <= OpenRecords(After(definitions, world, steps))
    decreases |steps|
  {
    if steps != [] {
      StepKeepsDeadlockIff(definitions, world, steps[0], s);
      DeadlockIsForever(definitions, Next(definitions, world, steps[0]), steps[1..], s);
    }
  }

  /** The set is deadlocked at every state of the run. */
  ghost predicate DeadlockedThroughout(definitions: seq<Definition>, world: World, steps: seq<Step>, s: set<Id>)
    decreases |steps|
  {
    && Deadlocked(definitions, world, s)
    && (steps != [] ==> DeadlockedThroughout(definitions, Next(definitions, world, steps[0]), steps[1..], s))
  }

  ghost predicate NeverReleased(definitions: seq<Definition>, world: World, steps: seq<Step>, s: set<Id>)
    decreases |steps|
  {
    steps == [] ||
    (!Releases(definitions, world, steps[0], s)
        && NeverReleased(definitions, Next(definitions, world, steps[0]), steps[1..], s))
  }

  /** Over every run of links and updates of any kind: deadlocked throughout exactly when no step releases a member. */
  lemma {:induction false} DeadlockedThroughoutIff(definitions: seq<Definition>, world: World, steps: seq<Step>,
                                                   s: set<Id>)
    requires Deadlocked(definitions, world, s)
    requires forall i :: 0 <= i < |steps| ==> !steps[i].UnlinkStep?
    ensures DeadlockedThroughout(definitions, world, steps, s) <==> NeverReleased(definitions, world, steps, s)
    decreases |steps|
  {
    if steps != [] {
      StepKeepsDeadlockIff(definitions, world, steps[0], s);
      if !Releases(definitions, world, steps[0], s) {
        DeadlockedThroughoutIff(definitions, Next(definitions, world, steps[0]), steps[1..], s);
      }
    }
  }

  // ---------- Progress ----------

  ghost predicate NoDeadlock(definitions: seq<Definition>, world: World) {
    forall s: set<Id> :: s != {} ==> !Deadlocked(definitions, world, s)
  }

  const STAFF := Actor(true, {})

  function Close(id: Id): Step { UpdateStep(STAFF, id, To(Closed), true) }

  lemma CloseSucceeds(definitions: seq<Definition>, world: World, x: Id)
    requires IsOpenIn(world, x) && OpenBlockers(definitions, world, x) == {}
    ensures Next(definitions, world, Close(x)).edges == world.edges
    ensures OpenRecords(Next(definitions, world, Close(x))) == OpenRecords(world) - {x}
  {
  }

  lemma FewerOpenFewerDeadlocks(definitions: seq<Definition>, before: World, after: World)
    requires before.edges == after.edges && OpenRecords(after) <= OpenRecords(before)
    requires NoDeadlock(definitions, before)
    ensures NoDeadlock(definitions, after)
  {
    forall s: set<Id> | s != {} ensures !Deadlocked(definitions, after, s) {
      if Deadlocked(definitions, after, s) {
        forall x | x in s ensures BlockedWithin(definitions, before, x, s) {
          assert BlockedWithin(definitions, after, x, s);
          var y :| y in s && Blocks(definitions, after, x, y);
          assert Blocks(definitions, before, x, y);
        }
        assert Deadlocked(definitions, before, s);
      }
    }
  }

  /** The progress theorem: with no deadlocked set, some order of gated closes closes every open record. */
  lemma {:induction false} AllCanClose(definitions: seq<Definition>, world: World) returns (steps: seq<Step>)
    requires NoDeadlock(definitions, world)
    ensures Gated(steps) && OpenRecords(After(definitions, world, steps)) == {}
    decreases |OpenRecords(world)|
  {
    var open := OpenRecords(world);
    if open == {} {
      steps := [];
    } else {
      assert !Deadlocked(definitions, world, open);
      var x :| x in open && !BlockedWithin(definitions, world, x, open);
      OpenBlockersAre(definitions, world, x);
      assert OpenBlockers(definitions, world, x) == {} by {
        assert forall y :: y in OpenBlockers(definitions, world, x) ==> y in open && Blocks(definitions, world, x, y);
      }
      CloseSucceeds(definitions, world, x);
      var next := Next(definitions, world, Close(x));
      FewerOpenFewerDeadlocks(definitions, world, next);
      assert |OpenRecords(next)| == |open| - 1;
      var rest := AllCanClose(definitions, next);
      steps := [Close(x)] + rest;
      assert steps[1..] == rest;
    }
  }

  /** Everything can be closed exactly when no set of open records is deadlocked. */
  lemma CloseableIffNoDeadlock(definitions: seq<Definition>, world: World)
    ensures NoDeadlock(definitions, world)
       <==> exists steps :: Gated(steps) && OpenRecords(After(definitions, world, steps)) == {}
  {
    if NoDeadlock(definitions, world) {
      var steps := AllCanClose(definitions, world);
    }
    if steps :| Gated(steps) && OpenRecords(After(definitions, world, steps)) == {} {
      forall s: set<Id> | s != {} ensures !Deadlocked(definitions, world, s) {
        if Deadlocked(definitions, world, s) {
          DeadlockIsForever(definitions, world, steps, s);
          assert false;
        }
      }
    }
  }

  // ---------- The way around the gate ----------

  function Clear(id: Id): Step { UpdateStep(STAFF, id, Cleared, true) }

  /** Clearing the status of a member is never refused to staff, and dissolves the deadlock. */
  lemma ClearingDissolves(definitions: seq<Definition>, world: World, s: set<Id>, x: Id)
    requires Deadlocked(definitions, world, s) && x in s
    ensures var next := Next(definitions, world, Clear(x));
      !Deadlocked(definitions, next, s) && OpenRecords(next) == OpenRecords(world) - {x}
  {
    StepKeepsDeadlockIff(definitions, world, Clear(x), s);
    ClearCloses(definitions, world, x);
  }

  lemma ClearCloses(definitions: seq<Definition>, world: World, x: Id)
    requires x in world.entities
    ensures OpenRecords(Next(definitions, world, Clear(x))) == OpenRecords(world) - {x}
  {
  }

  /** So once statuses may be cleared, no world is stuck: clearing alone leaves nothing open. */
  lemma {:induction false} ClearingEmpties(definitions: seq<Definition>, world: World) returns (steps: seq<Step>)
    ensures forall i :: 0 <= i < |steps| ==> steps[i].UpdateStep? && steps[i].packConsulted && steps[i].change.Cleared?
    ensures OpenRecords(After(definitions, world, steps)) == {}
    decreases |OpenRecords(world)|
  {
    if OpenRecords(world) == {} {
      steps := [];
    } else {
      var x :| x in OpenRecords(world);
      ClearCloses(definitions, world, x);
      var next := Next(definitions, world, Clear(x));
      assert |OpenRecords(next)| == |OpenRecords(world)| - 1;
      var rest := ClearingEmpties(definitions, next);
      steps := [Clear(x)] + rest;
      assert steps[1..] == rest;
    }
  }

  // ---------- Deadlocks are cycles ----------

  /** A closed walk over blocking edges between open records. */
  ghost predicate Cycle(definitions: seq<Definition>, world: World, path: seq<Id>) {
    Walk(definitions, world, path) && |path| >= 2 && path[0] == path[|path| - 1]
  }

  ghost predicate Walk(definitions: seq<Definition>, world: World, path: seq<Id>) {
    && (forall i :: 0 <= i < |path| ==> IsOpenIn(world, path[i]))
    && (forall i :: 0 <= i < |path| - 1 ==> Blocks(definitions, world, path[i], path[i + 1]))
  }

  lemma {:induction false} WalkWithin(definitions: seq<Definition>, world: World, s: set<Id>, start: Id,
                                      length: nat) returns (path: seq<Id>)
    requires Deadlocked(definitions, world, s) && start in s
    ensures |path| == length + 1 && path[0] == start && Walk(definitions, world, path)
    ensures forall i :: 0 <= i < |path| ==> path[i] in s
    decreases length
  {
    if length == 0 {
      path := [start];
    } else {
      assert BlockedWithin(definitions, world, start, s);
      var next :| next in s && Blocks(definitions, world, start, next);
      var rest := WalkWithin(definitions, world, s, next, length - 1);
      path := [start] + rest;
    }
  }

  lemma {:induction false} Pigeonhole(path: seq<Id>, s: set<Id>) returns (i: nat, j: nat)
    requires |path| > |s| && forall k :: 0 <= k < |path| ==> path[k] in s
    ensures i < j < |path| && path[i] == path[j]
    decreases |path|
  {
    if k :| 1 <= k < |path| && path[k] == path[0] {
      i, j := 0, k;
    } else {
      assert |s - {path[0]}| == |s| - 1;
      i, j := Pigeonhole(path[1..], s - {path[0]});
      i, j := i + 1, j + 1;
    }
  }

  lemma DeadlockHasCycle(definitions: seq<Definition>, world: World, s: set<Id>) returns (cycle: seq<Id>)
    requires s != {} && Deadlocked(definitions, world, s)
    ensures Cycle(definitions, world, cycle)
  {
    var start :| start in s;
    var path := WalkWithin(definitions, world, s, start, |s|);
    var i, j := Pigeonhole(path, s);
    cycle := path[i..j + 1];
  }

  lemma CycleIsDeadlocked(definitions: seq<Definition>, world: World, cycle: seq<Id>)
    requires Cycle(definitions, world, cycle)
    ensures (set x | x in cycle) != {} && Deadlocked(definitions, world, set x | x in cycle)
  {
    var s := set x | x in cycle;
    assert cycle[0] in s;
    forall x | x in s ensures BlockedWithin(definitions, world, x, s) {
      var k :| 0 <= k < |cycle| && cycle[k] == x;
      var m := if k == |cycle| - 1 then 0 else k;
      assert Blocks(definitions, world, cycle[m], cycle[m + 1]) && cycle[m + 1] in s;
    }
  }

  /** Some set of open records is deadlocked exactly when blocking edges among open records form a cycle. */
  lemma DeadlockIffCycle(definitions: seq<Definition>, world: World)
    ensures NoDeadlock(definitions, world) <==> forall path :: !Cycle(definitions, world, path)
  {
    if s: set<Id> :| s != {} && Deadlocked(definitions, world, s) {
      var cycle := DeadlockHasCycle(definitions, world, s);
    }
    if path :| Cycle(definitions, world, path) {
      CycleIsDeadlocked(definitions, world, path);
    }
  }

  /** Every open record can be closed, by some gated run, exactly when the blocking edges among them are acyclic. */
  lemma CloseableIffAcyclic(definitions: seq<Definition>, world: World)
    ensures (forall path :: !Cycle(definitions, world, path))
       <==> exists steps :: Gated(steps) && OpenRecords(After(definitions, world, steps)) == {}
  {
    DeadlockIffCycle(definitions, world);
    CloseableIffNoDeadlock(definitions, world);
  }
}
