/**
 * Typed edges between one tenant's records: linking with cardinality, unlinking,
 * traversal in both directions, and the blockers that gate completion.
 */
module Relations {
  import opened Common

  type Id = string

  datatype Status = Open | InProgress | Blocked | Resolved | Closed | Cancelled

  predicate Finished(status: Status) { status.Resolved? || status.Closed? || status.Cancelled? }

  /** A record without a status has no lifecycle and cannot block anything. */
  datatype Entity = Entity(kind: string, status: Option<Status>) {
    predicate IsOpen() { status.Some? && !Finished(status.value) }
  }

  datatype Cardinality = OneToOne | OneToMany | ManyToMany

  datatype Definition = Definition(
    key: string,
    title: string,
    fromType: string,
    toType: string,
    cardinality: Option<Cardinality>,
    inverseLabel: Option<string>,
    blocksCompletion: bool)

  datatype Edge = Edge(key: string, fromId: Id, fromType: string, toId: Id, toType: string, createdBy: Option<string>) {
    predicate Is(k: string, from: Id, to: Id) { key == k && fromId == from && toId == to }
  }

  /** Staff reach every record; anyone else reads what is theirs and writes nothing. */
  datatype Actor = Actor(tenantWide: bool, own: set<Id>) {
    predicate CanRead(id: Id) { tenantWide || id in own }
    predicate CanWrite(id: Id) { tenantWide }
  }

  datatype Refusal =
    | SelfRelation
    | NotDefined
    | NotFound(id: Id)
    | WrongTypes
    | SourceTaken
    | TargetTaken
    | Forbidden
    | StillBlocked(count: nat)

  // ---------- Definitions ----------

  function FindDefinition(definitions: seq<Definition>, key: string): Option<Definition> {
    if definitions == [] then None
    else if definitions[0].key == key then Some(definitions[0])
    else FindDefinition(definitions[1..], key)
  }

  /** The first definition of a key counts. */
  lemma {:induction false} FirstDefinition(definitions: seq<Definition>, key: string, k: nat)
    requires k < |definitions| && definitions[k].key == key && forall j :: 0 <= j < k ==> definitions[j].key != key
    ensures FindDefinition(definitions, key) == Some(definitions[k])
  {
    if k > 0 { FirstDefinition(definitions[1..], key, k - 1); }
  }

  lemma {:induction false} NoDefinition(definitions: seq<Definition>, key: string)
    requires forall j :: 0 <= j < |definitions| ==> definitions[j].key != key
    ensures FindDefinition(definitions, key) == None
  {
    if definitions != [] { NoDefinition(definitions[1..], key); }
  }

  function CardinalityOf(definitions: seq<Definition>, key: string): Cardinality {
    match FindDefinition(definitions, key)
    case Some(d) => (match d.cardinality case Some(c) => c case None => ManyToMany)
    case None => ManyToMany
  }

  function BlockingKeys(definitions: seq<Definition>): set<string> {
    set d | d in definitions && d.blocksCompletion :: d.key
  }

  // ---------- The invariant of the relation table ----------

  ghost predicate NoSelfEdges(edges: seq<Edge>) {
    forall e :: e in edges ==> e.fromId != e.toId
  }

  ghost predicate NoDuplicates(edges: seq<Edge>) {
    forall i, j :: 0 <= i < j < |edges| ==> !edges[j].Is(edges[i].key, edges[i].fromId, edges[i].toId)
  }

  /** `one_to_one` is a partial injection; `one_to_many` has one outgoing edge per source and free targets. */
  ghost predicate Cardinal(definitions: seq<Definition>, edges: seq<Edge>) {
    forall i, j :: 0 <= i < j < |edges| && edges[i].key == edges[j].key ==>
      && (CardinalityOf(definitions, edges[i].key) != ManyToMany ==> edges[i].fromId != edges[j].fromId)
      && (CardinalityOf(definitions, edges[i].key) == OneToOne ==> edges[i].toId != edges[j].toId)
  }

  ghost predicate Sound(definitions: seq<Definition>, edges: seq<Edge>) {
    NoSelfEdges(edges) && NoDuplicates(edges) && Cardinal(definitions, edges)
  }

  // ---------- Linking ----------

  /** What `link` refuses before it looks at the relation table. */
  function LinkRefusal(definitions: seq<Definition>, entities: map<Id, Entity>, actor: Actor, key: string,
                       fromId: Id, toId: Id): Option<Refusal> {
    if fromId == toId then Some(SelfRelation)
    else
      match FindDefinition(definitions, key)
      case None => Some(NotDefined)
      case Some(d) =>
        if fromId !in entities then Some(NotFound(fromId))
        else if toId !in entities then Some(NotFound(toId))
        else if !actor.CanRead(fromId) then Some(NotFound(fromId))
        else if !actor.CanRead(toId) then Some(NotFound(toId))
        else if entities[fromId].kind != d.fromType || entities[toId].kind != d.toType then Some(WrongTypes)
        else None
  }

  ghost predicate Has(edges: seq<Edge>, key: string, fromId: Id, toId: Id) {
    exists e :: e in edges && e.Is(key, fromId, toId)
  }

  ghost predicate SourceIsTaken(edges: seq<Edge>, key: string, fromId: Id) {
    exists e :: e in edges && e.key == key && e.fromId == fromId
  }

  ghost predicate TargetIsTaken(edges: seq<Edge>, key: string, toId: Id) {
    exists e :: e in edges && e.key == key && e.toId == toId
  }

  /** What the cardinality refuses for an edge that is not there yet. */
  ghost function CardinalityRefusal(definitions: seq<Definition>, edges: seq<Edge>, key: string, fromId: Id,
                                    toId: Id): Option<Refusal> {
    var cardinality := CardinalityOf(definitions, key);
    if cardinality != ManyToMany && SourceIsTaken(edges, key, fromId) then Some(SourceTaken)
    else if cardinality == OneToOne && TargetIsTaken(edges, key, toId) then Some(TargetTaken)
    else None
  }

  /** Why a link call is refused, if it is; an edge that already exists is never refused on cardinality. */
  ghost function Refused(definitions: seq<Definition>, world: World, actor: Actor, key: string, fromId: Id,
                         toId: Id): Option<Refusal> {
    match LinkRefusal(definitions, world.entities, actor, key, fromId, toId)
    case Some(refusal) => Some(refusal)
    case None =>
      if Has(world.edges, key, fromId, toId) then None
      else CardinalityRefusal(definitions, world.edges, key, fromId, toId)
  }

  datatype World = World(entities: map<Id, Entity>, edges: seq<Edge>)

  ghost predicate Leaves(edges: seq<Edge>, key: string, fromId: Id) {
    exists i :: 0 <= i < |edges| && edges[i].key == key && edges[i].fromId == fromId
  }

  ghost predicate Enters(edges: seq<Edge>, key: string, toId: Id) {
    exists i :: 0 <= i < |edges| && edges[i].key == key && edges[i].toId == toId
  }

  ghost predicate Joins(edges: seq<Edge>, key: string, fromId: Id, toId: Id) {
    exists i :: 0 <= i < |edges| && edges[i].key == key && edges[i].fromId == fromId && edges[i].toId == toId
  }

  /** When a link call is accepted, in the fields of the first definition of its key and of the edges there are. */
  lemma LinkAcceptedIff(definitions: seq<Definition>, world: World, actor: Actor, key: string, fromId: Id, toId: Id,
                        k: nat)
    requires k < |definitions| && definitions[k].key == key && forall j :: 0 <= j < k ==> definitions[j].key != key
    ensures Refused(definitions, world, actor, key, fromId, toId).None?
      <==> && fromId != toId && fromId in world.entities && toId in world.entities
           && (actor.tenantWide || (fromId in actor.own && toId in actor.own))
           && world.entities[fromId].kind == definitions[k].fromType
           && world.entities[toId].kind == definitions[k].toType
           && (|| Joins(world.edges, key, fromId, toId)
               || (match definitions[k].cardinality
                   case Some(OneToOne) => !Leaves(world.edges, key, fromId) && !Enters(world.edges, key, toId)
                   case Some(OneToMany) => !Leaves(world.edges, key, fromId)
                   case Some(ManyToMany) => true
                   case None => true))
  {
    FirstDefinition(definitions, key, k);
    TakenByFields(world.edges, key, fromId, toId);
  }

  lemma TakenByFields(edges: seq<Edge>, key: string, fromId: Id, toId: Id)
    ensures Has(edges, key, fromId, toId) <==> Joins(edges, key, fromId, toId)
    ensures SourceIsTaken(edges, key, fromId) <==> Leaves(edges, key, fromId)
    ensures TargetIsTaken(edges, key, toId) <==> Enters(edges, key, toId)
  {
    if Has(edges, key, fromId, toId) {
      var e :| e in edges && e.Is(key, fromId, toId);
      var i :| 0 <= i < |edges| && edges[i] == e;
    }
    if Joins(edges, key, fromId, toId) {
      var i :| 0 <= i < |edges| && edges[i].key == key && edges[i].fromId == fromId && edges[i].toId == toId;
      assert edges[i] in edges && edges[i].Is(key, fromId, toId);
    }
  }

  /** A key without a definition links nothing. */
  lemma UndefinedLinksNothing(definitions: seq<Definition>, world: World, actor: Actor, key: string, fromId: Id,
                              toId: Id)
    requires forall j :: 0 <= j < |definitions| ==> definitions[j].key != key
    ensures Refused(definitions, world, actor, key, fromId, toId)
         == Some(if fromId == toId then SelfRelation else NotDefined)
  {
    NoDefinition(definitions, key);
  }

  /** What a sound table keeps: no edge from a record to itself, and none twice. */
  lemma SoundTables(definitions: seq<Definition>, edges: seq<Edge>, i: nat, j: nat)
    requires Sound(definitions, edges) && i < j < |edges|
    ensures edges[i].fromId != edges[i].toId
    ensures edges[i].key != edges[j].key || edges[i].fromId != edges[j].fromId || edges[i].toId != edges[j].toId
  {
    assert edges[i] in edges;
  }

  /** No source of a definition to one has two edges, and no target of a one-to-one definition either. */
  lemma SoundCardinality(definitions: seq<Definition>, edges: seq<Edge>, k: nat, i: nat, j: nat)
    requires Sound(definitions, edges) && i < j < |edges| && edges[i].key == edges[j].key && k < |definitions|
    requires definitions[k].key == edges[i].key && forall m :: 0 <= m < k ==> definitions[m].key != edges[i].key
    ensures definitions[k].cardinality in {Some(OneToOne), Some(OneToMany)} ==> edges[i].fromId != edges[j].fromId
    ensures definitions[k].cardinality == Some(OneToOne) ==> edges[i].toId != edges[j].toId
  {
    FirstDefinition(definitions, edges[i].key, k);
  }

  /** The edge a link call writes. */
  function NewEdge(entities: map<Id, Entity>, key: string, fromId: Id, toId: Id, createdBy: Option<string>): Edge
    requires fromId in entities && toId in entities
  {
    Edge(key, fromId, entities[fromId].kind, toId, entities[toId].kind, createdBy)
  }

  ghost function EdgesAfterLink(definitions: seq<Definition>, world: World, actor: Actor, key: string,
                                fromId: Id, toId: Id, createdBy: Option<string>): seq<Edge> {
    if Refused(definitions, world, actor, key, fromId, toId).Some? || Has(world.edges, key, fromId,
        toId) then world.edges
    else world.edges + [NewEdge(world.entities, key, fromId, toId, createdBy)]
  }

  lemma LinkKeepsSound(definitions: seq<Definition>, world: World, actor: Actor, key: string, fromId: Id,
                       toId: Id, createdBy: Option<string>)
    requires Sound(definitions, world.edges)
    ensures Sound(definitions, EdgesAfterLink(definitions, world, actor, key, fromId, toId, createdBy))
  {
    var edges := world.edges;
    var after := EdgesAfterLink(definitions, world, actor, key, fromId, toId, createdBy);
    if after != edges {
      var n := |edges|;
      assert after[n] == NewEdge(world.entities, key, fromId, toId, createdBy);
      forall i | 0 <= i < n ensures !after[n].Is(after[i].key, after[i].fromId, after[i].toId) {
        assert edges[i] in edges && !edges[i].Is(key, fromId, toId);
      }
      forall i | 0 <= i < n && after[i].key == key
        ensures CardinalityOf(definitions, key) != ManyToMany ==> after[i].fromId != fromId
        ensures CardinalityOf(definitions, key) == OneToOne ==> after[i].toId != toId
      {
        assert edges[i] in edges;
      }
    }
  }

  /** Linking twice is linking once, whoever repeats it and whatever else it would refuse. */
  lemma LinkIdempotent(definitions: seq<Definition>, world: World, actor: Actor, key: string, fromId: Id, toId: Id,
                       createdBy: Option<string>, again: Actor, createdAgain: Option<string>)
    requires Refused(definitions, world, actor, key, fromId, toId).None?
    ensures var once := World(world.entities, EdgesAfterLink(definitions, world, actor, key, fromId, toId, createdBy));
      && Has(once.edges, key, fromId, toId)
      && EdgesAfterLink(definitions, once, again, key, fromId, toId, createdAgain) == once.edges
      && (again.CanRead(fromId) && again.CanRead(toId) <==> Refused(definitions, once, again, key, fromId, toId).None?)
  {
    var after := EdgesAfterLink(definitions, world, actor, key, fromId, toId, createdBy);
    if after != world.edges {
      assert after[|after| - 1] in after;
    }
  }

  function Without(edges: seq<Edge>, key: string, fromId: Id, toId: Id): seq<Edge> {
    Filter((e: Edge) => !e.Is(key, fromId, toId), edges)
  }

  /** What stays of a table stays in order, so an unlink keeps the invariant. */
  lemma {:induction false} FilterKeepsSound(definitions: seq<Definition>, edges: seq<Edge>, p: Edge -> bool)
    requires Sound(definitions, edges)
    ensures Sound(definitions, Filter(p, edges))
  {
    FilterMembers(p, edges);
    if edges != [] {
      var rest := edges[1..];
      FilterMembers(p, rest);
      assert forall i :: 0 <= i < |rest| ==> rest[i] == edges[i + 1];
      FilterKeepsSound(definitions, rest, p);
      var kept := Filter(p, rest);
      forall j | 0 <= j < |kept|
        ensures !kept[j].Is(edges[0].key, edges[0].fromId, edges[0].toId)
        ensures edges[0].key == kept[j].key ==>
          && (CardinalityOf(definitions, edges[0].key) != ManyToMany ==> edges[0].fromId != kept[j].fromId)
          && (CardinalityOf(definitions, edges[0].key) == OneToOne ==> edges[0].toId != kept[j].toId)
      {
        assert kept[j] in rest;
        var m :| 0 <= m < |rest| && rest[m] == kept[j];
        assert edges[m + 1] == kept[j];
      }
    }
  }

  /** Who may not read the source end removes nothing. */
  function EdgesAfterUnlink(world: World, actor: Actor, key: string, fromId: Id, toId: Id): seq<Edge> {
    if fromId in world.entities && actor.CanRead(fromId) then Without(world.edges, key, fromId, toId) else world.edges
  }

  // ---------- Traversal ----------

  datatype Neighbour = Neighbour(relationKey: string, title: string, id: Id, entity: Entity)

  datatype Traversal = Traversal(outgoing: seq<Neighbour>, incoming: seq<Neighbour>)

  function OutgoingLabel(definitions: seq<Definition>, key: string): string {
    match LastDefinition(definitions, key) case Some(d) => d.title case None => key
  }

  function IncomingLabel(definitions: seq<Definition>, key: string): string {
    match LastDefinition(definitions, key)
    case Some(d) => (match d.inverseLabel case Some(l) => l case None => d.title + " (inverse)")
    case None => key
  }

  /** A `Map` built from the definitions keeps the last one of a key. */
  function LastDefinition(definitions: seq<Definition>, key: string): Option<Definition> {
    if definitions == [] then None
    else if definitions[|definitions| - 1].key == key then Some(definitions[|definitions| - 1])
    else LastDefinition(definitions[..|definitions| - 1], key)
  }

  function Visible(entities: map<Id, Entity>, actor: Actor): map<Id, Entity> {
    map id | id in entities && actor.CanRead(id) :: entities[id]
  }

  function OutgoingOf(definitions: seq<Definition>, visible: map<Id, Entity>, edges: seq<Edge>,
                      id: Id): seq<Neighbour> {
    if edges == [] then []
    else
      var e := edges[0];
      (if e.fromId == id && e.toId in visible
       then [Neighbour(e.key, OutgoingLabel(definitions, e.key), e.toId, visible[e.toId])] else [])
      + OutgoingOf(definitions, visible, edges[1..], id)
  }

  function IncomingOf(definitions: seq<Definition>, visible: map<Id, Entity>, edges: seq<Edge>,
                      id: Id): seq<Neighbour> {
    if edges == [] then []
    else
      var e := edges[0];
      (if e.toId == id && e.fromId in visible
       then [Neighbour(e.key, IncomingLabel(definitions, e.key), e.fromId, visible[e.fromId])] else [])
      + IncomingOf(definitions, visible, edges[1..], id)
  }

  function Traverse(definitions: seq<Definition>, world: World, actor: Actor, id: Id): Result<Traversal, Refusal> {
    if id !in world.entities || !actor.CanRead(id) then Err(NotFound(id))
    else
      var visible := Visible(world.entities, actor);
      Ok(Traversal(OutgoingOf(definitions, visible, world.edges, id),
          IncomingOf(definitions, visible, world.edges, id)))
  }

  ghost predicate Lists(neighbours: seq<Neighbour>, key: string, id: Id) {
    exists n :: n in neighbours && n.relationKey == key && n.id == id
  }

  lemma {:induction false} OutgoingLists(definitions: seq<Definition>, visible: map<Id, Entity>,
                                         edges: seq<Edge>, key: string, x: Id, y: Id)
    ensures Lists(OutgoingOf(definitions, visible, edges, x), key, y) <==> Has(edges, key, x, y) && y in visible
  {
    if edges != [] {
      OutgoingLists(definitions, visible, edges[1..], key, x, y);
      var e := edges[0];
      var rest := OutgoingOf(definitions, visible, edges[1..], x);
      var all := OutgoingOf(definitions, visible, edges, x);
      assert edges == [e] + edges[1..];
      if e.fromId == x && e.toId in visible {
        assert all == [all[0]] + rest;
        assert forall n :: n in all <==> n == all[0] || n in rest;
      } else {
        assert all == rest;
      }
      assert Has(edges, key, x, y) <==> e.Is(key, x, y) || Has(edges[1..], key, x, y);
    }
  }

  lemma {:induction false} IncomingLists(definitions: seq<Definition>, visible: map<Id, Entity>,
                                         edges: seq<Edge>, key: string, x: Id, y: Id)
    ensures Lists(IncomingOf(definitions, visible, edges, y), key, x) <==> Has(edges, key, x, y) && x in visible
  {
    if edges != [] {
      IncomingLists(definitions, visible, edges[1..], key, x, y);
      var e := edges[0];
      var rest := IncomingOf(definitions, visible, edges[1..], y);
      var all := IncomingOf(definitions, visible, edges, y);
      assert edges == [e] + edges[1..];
      if e.toId == y && e.fromId in visible {
        assert all == [all[0]] + rest;
        assert forall n :: n in all <==> n == all[0] || n in rest;
      } else {
        assert all == rest;
      }
      assert Has(edges, key, x, y) <==> e.Is(key, x, y) || Has(edges[1..], key, x, y);
    }
  }

  /** What a traversal says of a neighbour: its own record, and the title of the last definition of the edge's key. */
  lemma {:induction false} OutgoingAre(definitions: seq<Definition>, visible: map<Id, Entity>, edges: seq<Edge>, id: Id,
                                       n: Neighbour)
    requires n in OutgoingOf(definitions, visible, edges, id)
    ensures Joins(edges, n.relationKey, id, n.id) && n.id in visible && n.entity == visible[n.id]
    ensures n.title == OutgoingLabel(definitions, n.relationKey)
  {
    var rest := OutgoingOf(definitions, visible, edges[1..], id);
    if n in rest {
      OutgoingAre(definitions, visible, edges[1..], id, n);
      JoinsLater(edges, n.relationKey, id, n.id);
    } else {
      assert edges[0].fromId == id && edges[0].toId == n.id;
    }
  }

  lemma {:induction false} IncomingAre(definitions: seq<Definition>, visible: map<Id, Entity>, edges: seq<Edge>, id: Id,
                                       n: Neighbour)
    requires n in IncomingOf(definitions, visible, edges, id)
    ensures Joins(edges, n.relationKey, n.id, id) && n.id in visible && n.entity == visible[n.id]
    ensures n.title == IncomingLabel(definitions, n.relationKey)
  {
    var rest := IncomingOf(definitions, visible, edges[1..], id);
    if n in rest {
      IncomingAre(definitions, visible, edges[1..], id, n);
      JoinsLater(edges, n.relationKey, n.id, id);
    } else {
      assert edges[0].toId == id && edges[0].fromId == n.id;
    }
  }

  lemma JoinsLater(edges: seq<Edge>, key: string, fromId: Id, toId: Id)
    requires edges != [] && Joins(edges[1..], key, fromId, toId)
    ensures Joins(edges, key, fromId, toId)
  {
    var i :| 0 <= i < |edges[1..]| && edges[1..][i].key == key && edges[1..][i].fromId == fromId
      && edges[1..][i].toId == toId;
    assert edges[i + 1] == edges[1..][i];
  }

  /** The last definition of a key gives the labels; the inverse of one without a label is named after its title. */
  lemma {:induction false} LabelsOf(definitions: seq<Definition>, key: string, k: nat)
    requires k < |definitions| && definitions[k].key == key
    requires forall j :: k < j < |definitions| ==> definitions[j].key != key
    ensures LastDefinition(definitions, key) == Some(definitions[k])
    ensures OutgoingLabel(definitions, key) == definitions[k].title
    ensures IncomingLabel(definitions, key)
         == if definitions[k].inverseLabel.Some? then definitions[k].inverseLabel.value
            else definitions[k].title + " (inverse)"
  {
    var n := |definitions| - 1;
    if k < n { LabelsOf(definitions[..n], key, k); }
  }

  /** Every neighbour shown is a readable record at the other end of an edge, in the direction it is shown under. */
  lemma NeighboursAre(definitions: seq<Definition>, world: World, actor: Actor, id: Id, n: Neighbour)
    requires Traverse(definitions, world, actor, id).Ok?
    ensures n in Traverse(definitions, world, actor, id).value.outgoing ==>
      && Joins(world.edges, n.relationKey, id, n.id) && n.title == OutgoingLabel(definitions, n.relationKey)
      && (actor.tenantWide || n.id in actor.own) && n.id in world.entities && n.entity == world.entities[n.id]
    ensures n in Traverse(definitions, world, actor, id).value.incoming ==>
      && Joins(world.edges, n.relationKey, n.id, id) && n.title == IncomingLabel(definitions, n.relationKey)
      && (actor.tenantWide || n.id in actor.own) && n.id in world.entities && n.entity == world.entities[n.id]
  {
    var visible := Visible(world.entities, actor);
    if n in OutgoingOf(definitions, visible, world.edges, id) {
      OutgoingAre(definitions, visible, world.edges, id, n);
    }
    if n in IncomingOf(definitions, visible, world.edges, id) {
      IncomingAre(definitions, visible, world.edges, id, n);
    }
  }

  /** For an actor who reads both ends, the two directions show the same edges. */
  lemma TraversalMirrors(definitions: seq<Definition>, world: World, actor: Actor, key: string, x: Id, y: Id)
    requires Traverse(definitions, world, actor, x).Ok? && Traverse(definitions, world, actor, y).Ok?
    ensures Lists(Traverse(definitions, world, actor, x).value.outgoing, key, y)
       <==> Lists(Traverse(definitions, world, actor, y).value.incoming, key, x)
    ensures Lists(Traverse(definitions, world, actor, x).value.outgoing, key, y) <==> Has(world.edges, key, x, y)
    ensures Has(world.edges, key, x, y) <==> Joins(world.edges, key, x, y)
  {
    var visible := Visible(world.entities, actor);
    OutgoingLists(definitions, visible, world.edges, key, x, y);
    IncomingLists(definitions, visible, world.edges, key, x, y);
    TakenByFields(world.edges, key, x, y);
  }

  /** A record the actor may not read appears in no traversal, in either direction. */
  lemma TraversalHidesUnreadable(definitions: seq<Definition>, world: World, actor: Actor, key: string, x: Id, y: Id)
    requires Traverse(definitions, world, actor, x).Ok? && !actor.CanRead(y)
    ensures !Lists(Traverse(definitions, world, actor, x).value.outgoing, key, y)
    ensures !Lists(Traverse(definitions, world, actor, x).value.incoming, key, y)
  {
    var visible := Visible(world.entities, actor);
    OutgoingLists(definitions, visible, world.edges, key, x, y);
    IncomingLists(definitions, visible, world.edges, key, y, x);
  }

  // ---------- Blockers ----------

  function OpenBlockers(definitions: seq<Definition>, world: World, id: Id): set<Id> {
    var keys := BlockingKeys(definitions);
    set e | e in world.edges && e.fromId == id && e.key in keys
            && e.toId in world.entities && world.entities[e.toId].IsOpen() :: e.toId
  }

  /** An edge of a blocking definition from a record to one that is still being worked on. */
  ghost predicate HeldBy(definitions: seq<Definition>, world: World, id: Id, other: Id) {
    exists i, k ::
      && 0 <= i < |world.edges| && world.edges[i].fromId == id && world.edges[i].toId == other
      && 0 <= k < |definitions| && definitions[k].key == world.edges[i].key && definitions[k].blocksCompletion
      && other in world.entities && world.entities[other].status in {Some(Open), Some(InProgress), Some(Status.Blocked)}
  }

  /** Whatever holds a record open is counted, and nothing else. */
  lemma BlockersAre(definitions: seq<Definition>, world: World, id: Id, other: Id)
    ensures other in OpenBlockers(definitions, world, id) <==> HeldBy(definitions, world, id, other)
  {
    if other in OpenBlockers(definitions, world, id) {
      var e :| e in world.edges && e.fromId == id && e.key in BlockingKeys(definitions) && e.toId == other;
      var i :| 0 <= i < |world.edges| && world.edges[i] == e;
      var d :| d in definitions && d.blocksCompletion && d.key == e.key;
      var k :| 0 <= k < |definitions| && definitions[k] == d;
    }
    if HeldBy(definitions, world, id, other) {
      var i, k :| 0 <= i < |world.edges| && world.edges[i].fromId == id && world.edges[i].toId == other
        && 0 <= k < |definitions| && definitions[k].key == world.edges[i].key && definitions[k].blocksCompletion;
      assert definitions[k] in definitions && world.edges[i] in world.edges;
    }
  }

  /** The disclosure view: the blockers the caller may read. */
  function CompletionBlockers(definitions: seq<Definition>, world: World, actor: Actor,
                              id: Id): Result<set<Id>, Refusal> {
    if id !in world.entities || !actor.CanRead(id) then Err(NotFound(id))
    else Ok(set b | b in OpenBlockers(definitions, world, id) && actor.CanRead(b))
  }

  /** Who may read the record is shown the open records that hold it and that they may read. */
  lemma ShownAre(definitions: seq<Definition>, world: World, actor: Actor, id: Id, other: Id)
    ensures var shown := CompletionBlockers(definitions, world, actor, id);
      && (shown.Ok? <==> id in world.entities && (actor.tenantWide || id in actor.own))
      && (shown.Err? ==> shown == Err(NotFound(id)))
      && (shown.Ok? ==> (other in shown.value
                         <==> HeldBy(definitions, world, id, other) && (actor.tenantWide || other in actor.own)))
  {
    BlockersAre(definitions, world, id, other);
  }

  /**
   * What a caller is shown against what the gate counts: never more, all of it exactly when
   * every open blocker is readable, and nothing though the gate refuses exactly when none is.
   */
  lemma ShownAgainstCounted(definitions: seq<Definition>, world: World, actor: Actor, id: Id)
    requires CompletionBlockers(definitions, world, actor, id).Ok?
    ensures var shown, counted := CompletionBlockers(definitions, world, actor, id).value,
        OpenBlockers(definitions, world, id);
      && |shown| <= |counted|
      && (|shown| == |counted| <==> forall b :: b in counted ==> actor.CanRead(b))
      && (shown == {} <==> forall b :: b in counted ==> !actor.CanRead(b))
  {
    var shown, counted := CompletionBlockers(definitions, world, actor, id).value, OpenBlockers(definitions, world, id);
    assert shown <= counted && |counted - shown| == |counted| - |shown|;
    if b :| b in counted && !actor.CanRead(b) {
      assert b in counted - shown;
    } else {
      assert shown == counted;
    }
    if b :| b in counted && actor.CanRead(b) {
      assert b in shown;
    }
  }

  // ---------- The service ----------

  class RelationService {
    const definitions: seq<Definition>
    var entities: map<Id, Entity>
    var edges: seq<Edge>

    constructor (definitions: seq<Definition>, entities: map<Id, Entity>)
      ensures this.definitions == definitions && this.entities == entities && edges == []
      ensures Sound(definitions, edges)
    {
      this.definitions := definitions;
      this.entities := entities;
      edges := [];
    }

    ghost function Current(): World
      reads this
    {
      World(entities, edges)
    }

    method FindEdge(key: string, fromId: Id, toId: Id) returns (existing: Option<Edge>)
      ensures existing.None? <==> !Has(edges, key, fromId, toId)
      ensures existing.Some? ==> existing.value in edges && existing.value.Is(key, fromId, toId)
    {
      for k := 0 to |edges|
        invariant forall j :: 0 <= j < k ==> !edges[j].Is(key, fromId, toId)
      {
        if edges[k].Is(key, fromId, toId) {
          return Some(edges[k]);
        }
      }
      return None;
    }

    method EnforceCardinality(definition: Definition, fromId: Id, toId: Id) returns (refusal: Option<Refusal>)
      requires FindDefinition(definitions, definition.key) == Some(definition)
      ensures refusal == CardinalityRefusal(definitions, edges, definition.key, fromId, toId)
    {
      var cardinality := if definition.cardinality.Some? then definition.cardinality.value else ManyToMany;
      if cardinality == ManyToMany {
        return None;
      }
      var fromHere := (e: Edge) => e.key == definition.key && e.fromId == fromId;
      FilterMembers(fromHere, edges);
      var outgoing := |Filter(fromHere, edges)|;
      if outgoing > 0 {
        assert Filter(fromHere, edges)[0] in Filter(fromHere, edges);
        return Some(SourceTaken);
      }
      if cardinality == OneToOne {
        var toHere := (e: Edge) => e.key == definition.key && e.toId == toId;
        FilterMembers(toHere, edges);
        var incoming := |Filter(toHere, edges)|;
        if incoming > 0 {
          assert Filter(toHere, edges)[0] in Filter(toHere, edges);
          return Some(TargetTaken);
        }
      }
      return None;
    }

    method Link(actor: Actor, key: string, fromId: Id, toId: Id,
                createdBy: Option<string>) returns (r: Result<Edge, Refusal>)
      modifies this`edges
      ensures edges == EdgesAfterLink(definitions, old(Current()), actor, key, fromId, toId, createdBy)
      ensures match Refused(definitions, old(Current()), actor, key, fromId, toId)
              case Some(refusal) => r == Err(refusal)
              case None => r.Ok? && r.value in edges && r.value.Is(key, fromId, toId)
      ensures r.Err? || Joins(old(edges), key, fromId, toId) ==> edges == old(edges)
      ensures r.Ok? && !Joins(old(edges), key, fromId, toId) ==>
        && fromId in entities && toId in entities
        && edges == old(edges) + [Edge(key, fromId, entities[fromId].kind, toId, entities[toId].kind, createdBy)]
      ensures Sound(definitions, old(edges)) ==> Sound(definitions, edges)
    {
      TakenByFields(edges, key, fromId, toId);
      if Sound(definitions, edges) {
        LinkKeepsSound(definitions, Current(), actor, key, fromId, toId, createdBy);
      }
      if fromId == toId {
        return Err(SelfRelation);
      }
      var definition := FindDefinition(definitions, key);
      if definition.None? {
        return Err(NotDefined);
      }
      FindDefinitionHasKey(definitions, key);
      if fromId !in entities {
        return Err(NotFound(fromId));
      }
      if toId !in entities {
        return Err(NotFound(toId));
      }
      if !actor.CanRead(fromId) {
        return Err(NotFound(fromId));
      }
      if !actor.CanRead(toId) {
        return Err(NotFound(toId));
      }
      if entities[fromId].kind != definition.value.fromType || entities[toId].kind != definition.value.toType {
        return Err(WrongTypes);
      }
      var existing := FindEdge(key, fromId, toId);
      if existing.Some? {
        return Ok(existing.value);
      }
      var refusal := EnforceCardinality(definition.value, fromId, toId);
      if refusal.Some? {
        return Err(refusal.value);
      }
      var edge := NewEdge(entities, key, fromId, toId, createdBy);
      edges := edges + [edge];
      return Ok(edge);
    }

    method Unlink(actor: Actor, key: string, fromId: Id, toId: Id) returns (r: Result<(), Refusal>)
      modifies this`edges
      ensures edges == EdgesAfterUnlink(old(Current()), actor, key, fromId, toId)
      ensures r.Ok? <==> fromId in entities && (actor.tenantWide || fromId in actor.own)
      ensures r.Err? ==> r == Err(NotFound(fromId)) && edges == old(edges)
      ensures r.Ok? ==> !Has(edges, key, fromId, toId)
      ensures r.Ok? ==> forall e ::
        e in edges <==> e in old(edges) && (e.key != key || e.fromId != fromId || e.toId != toId)
      ensures Sound(definitions, old(edges)) ==> Sound(definitions, edges)
    {
      if fromId !in entities || !actor.CanRead(fromId) {
        return Err(NotFound(fromId));
      }
      var others := (e: Edge) => !e.Is(key, fromId, toId);
      FilterMembers(others, edges);
      if Sound(definitions, edges) {
        FilterKeepsSound(definitions, edges, others);
      }
      edges := Filter(others, edges);
      return Ok(());
    }

    /** Counts every open blocker, readable or not, and refuses when there is one. */
    method AssertCompletable(id: Id) returns (r: Result<(), Refusal>)
      ensures r.Ok? <==> OpenBlockers(definitions, Current(), id) == {}
      ensures r.Err? ==> r == Err(StillBlocked(|OpenBlockers(definitions, Current(), id)|))
    {
      var blockers := OpenBlockers(definitions, World(entities, edges), id);
      if blockers == {} {
        return Ok(());
      }
      return Err(StillBlocked(|blockers|));
    }
  }

  lemma {:induction false} FindDefinitionHasKey(definitions: seq<Definition>, key: string)
    ensures FindDefinition(definitions, key).Some? ==> FindDefinition(definitions, key).value.key == key
  {
    if definitions != [] { FindDefinitionHasKey(definitions[1..], key); }
  }
}
