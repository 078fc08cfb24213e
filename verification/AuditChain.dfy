/**
 * The hash chain of the audit log as values: what is hashed, in what order rows
 * are read back, and what a valid chain proves about the rows behind it.
 *
 * SHA-256, `JSON.stringify`, `toISOString` and what a jsonb column makes of a text
 * are parameters. Nothing assumes that
 * SHA-256 is injective: every theorem only asks that no two of the texts that were
 * actually hashed collide.
 */
module AuditChain {
  import opened Common

  /** Milliseconds of the years 1970 to 9999, which `toISOString` renders in 24 characters. */
  type Instant = t: int | 0 <= t < 253402300800000

  /** A member of an object, with the JSON text of its value. */
  datatype Member = Member(key: string, json: string)

  const NULL := "null"

  predicate IsHex(c: char) { '0' <= c <= '9' || 'a' <= c <= 'f' }

  predicate IsDigest(s: string) { |s| == 64 && forall c :: c in s ==> IsHex(c) }

  predicate ColonFree(s: string) { ':' !in s }

  /** `column` is the text that comes back from a jsonb column, which keeps values but orders keys its own way. */
  datatype Platform = Platform(
    sha256: string -> string,
    isJson: string -> bool,
    quote: string -> string,
    stringify: seq<Member> -> string,
    column: string -> string,
    isoString: Instant -> string)
  {
    /** Every value is written as JSON. */
    ghost predicate Proper(document: seq<Member>) {
      forall i :: 0 <= i < |document| ==> isJson(document[i].json)
    }

    /** A state is null or the JSON text of something else. */
    ghost predicate IsState(state: Option<string>) {
      state.Some? ==> isJson(state.value) && state.value != NULL
    }

    ghost predicate Sound() {
      && (forall s :: IsDigest(sha256(s)))
      && isJson(NULL) && (forall s :: isJson(quote(s))) && (forall s, t :: quote(s) == quote(t) ==> s == t)
      && (forall a, b :: Proper(a) && Proper(b) && stringify(a) == stringify(b) ==> a == b)
      && (forall s :: IsState(Some(s)) ==> IsState(Some(column(s))))
      && (forall t :: |isoString(t)| == 24)
      && (forall t, u :: isoString(t) == isoString(u) ==> t == u)
    }

    ghost predicate CollisionFree(texts: set<string>) {
      forall s, t | s in texts && t in texts :: sha256(s) == sha256(t) ==> s == t
    }
  }

  /** What the caller of `logEvent` supplies; a state is the JSON text of an object. */
  datatype Entry = Entry(
    tenantId: string,
    userId: string,
    action: string,
    entityId: string,
    beforeState: Option<string>,
    afterState: Option<string>)

  datatype Row = Row(
    id: string,
    tenantId: string,
    timestamp: Instant,
    createdAt: int,
    userId: string,
    action: string,
    entityId: string,
    beforeState: Option<string>,
    afterState: Option<string>,
    checksum: string,
    previousChainHash: string,
    chainHash: string,
    archived: bool)

  // ---------- What is hashed ----------

  function GenesisPayload(tenantId: string): string { "GENESIS:meru:" + tenantId }

  function GenesisHash(pf: Platform, tenantId: string): string {
    pf.sha256(GenesisPayload(tenantId))
  }

  function Colon(a: string, b: string): string { a + ":" + b }

  /** The fields of a payload that nothing but colons delimits. */
  function Loose(r: Row): string {
    Colon(r.action, Colon(r.entityId, Colon(r.userId, r.checksum)))
  }

  /** Previous hash, tenant, ISO timestamp, action, entity, user and checksum, joined by colons. */
  function ChainPayload(pf: Platform, previous: string, r: Row): string {
    Colon(previous, Colon(r.tenantId, Colon(pf.isoString(r.timestamp), Loose(r))))
  }

  function ChainHash(pf: Platform, previous: string, r: Row): string {
    pf.sha256(ChainPayload(pf, previous, r))
  }

  /** `JSON.stringify` drops a member whose value is undefined. */
  function SuppliedState(key: string, state: Option<string>): seq<Member> {
    match state
    case Some(json) => [Member(key, json)]
    case None => []
  }

  /** The column holds null for a state that was not supplied, and null is kept. */
  function StoredState(key: string, state: Option<string>): seq<Member> {
    [Member(key, match state case Some(json) => json case None => NULL)]
  }

  /** What the column gives back of a state. */
  function AsStored(pf: Platform, state: Option<string>): Option<string> {
    match state case Some(json) => Some(pf.column(json)) case None => None
  }

  function Subject(pf: Platform, tenantId: string, timestamp: Instant, userId: string, action: string,
                   entityId: string): seq<Member> {
    [Member("tenantId", pf.quote(tenantId)), Member("timestamp", pf.quote(pf.isoString(timestamp))),
     Member("userId", pf.quote(userId)), Member("action", pf.quote(action)), Member("entityId", pf.quote(entityId))]
  }

  function EntryDocument(pf: Platform, e: Entry, now: Instant): seq<Member> {
    Subject(pf, e.tenantId, now, e.userId, e.action, e.entityId)
    + SuppliedState("beforeState", e.beforeState) + SuppliedState("afterState", e.afterState)
  }

  function RowDocument(pf: Platform, r: Row): seq<Member> {
    Subject(pf, r.tenantId, r.timestamp, r.userId, r.action, r.entityId)
    + StoredState("beforeState", r.beforeState) + StoredState("afterState", r.afterState)
  }

  function Checksum(pf: Platform, document: seq<Member>): string {
    pf.sha256(pf.stringify(document))
  }

  predicate PassesIntegrity(pf: Platform, r: Row) {
    r.checksum == Checksum(pf, RowDocument(pf, r))
  }

  /** The object hashed for a row has these seven members in this order; null stands for a state there is not. */
  lemma RowDocumentIs(pf: Platform, r: Row)
    ensures RowDocument(pf, r)
         == [Member("tenantId", pf.quote(r.tenantId)), Member("timestamp", pf.quote(pf.isoString(r.timestamp))),
             Member("userId", pf.quote(r.userId)), Member("action", pf.quote(r.action)),
             Member("entityId", pf.quote(r.entityId)),
             Member("beforeState", if r.beforeState.Some? then r.beforeState.value else "null"),
             Member("afterState", if r.afterState.Some? then r.afterState.value else "null")]
  {
  }

  /** The one hashed for an entry has the same five at its head, and then the states that were supplied. */
  lemma EntryDocumentIs(pf: Platform, e: Entry, now: Instant)
    ensures var states :=
        (if e.beforeState.Some? then [Member("beforeState", e.beforeState.value)] else [])
        + (if e.afterState.Some? then [Member("afterState", e.afterState.value)] else []);
      EntryDocument(pf, e, now)
      == [Member("tenantId", pf.quote(e.tenantId)), Member("timestamp", pf.quote(pf.isoString(now))),
          Member("userId", pf.quote(e.userId)), Member("action", pf.quote(e.action)),
          Member("entityId", pf.quote(e.entityId))] + states
  {
  }

  /** The payload is these seven texts joined by colons, in this order. */
  lemma ChainPayloadIsJoined(pf: Platform, previous: string, r: Row)
    ensures ChainPayload(pf, previous, r)
         == Join([previous, r.tenantId, pf.isoString(r.timestamp), r.action, r.entityId, r.userId, r.checksum], ":")
  {
    JoinStep(r.userId, [r.checksum]);
    JoinStep(r.entityId, [r.userId, r.checksum]);
    JoinStep(r.action, [r.entityId, r.userId, r.checksum]);
    JoinStep(pf.isoString(r.timestamp), [r.action, r.entityId, r.userId, r.checksum]);
    JoinStep(r.tenantId, [pf.isoString(r.timestamp), r.action, r.entityId, r.userId, r.checksum]);
    JoinStep(previous, [r.tenantId, pf.isoString(r.timestamp), r.action, r.entityId, r.userId, r.checksum]);
  }

  lemma JoinStep(first: string, rest: seq<string>)
    requires rest != []
    ensures Join([first] + rest, ":") == Colon(first, Join(rest, ":"))
  {
    assert ([first] + rest)[1..] == rest;
  }

  /** Genesis anchors of different tenants are different texts. */
  lemma GenesisPerTenant(tenantId: string, other: string)
    ensures GenesisPayload(tenantId) == GenesisPayload(other) <==> tenantId == other
    ensures GenesisPayload(tenantId) == Join(["GENESIS", "meru", tenantId], ":")
  {
    assert GenesisPayload(tenantId)[13..] == tenantId && GenesisPayload(other)[13..] == other;
    JoinStep("meru", [tenantId]);
    JoinStep("GENESIS", ["meru", tenantId]);
    assert "GENESIS:" + ("meru:" + tenantId) == GenesisPayload(tenantId);
  }

  // ---------- The order rows are read back in ----------

  predicate Before(a: Row, b: Row) {
    a.timestamp < b.timestamp || (a.timestamp == b.timestamp && a.createdAt < b.createdAt)
  }

  function InsertByTime(r: Row, sorted: seq<Row>): seq<Row> {
    if sorted == [] then [r]
    else
      var last := |sorted| - 1;
      if Before(r, sorted[last]) then InsertByTime(r, sorted[..last]) + [sorted[last]]
      else sorted + [r]
  }

  function SortByTime(rows: seq<Row>): seq<Row> {
    if rows == [] then [] else InsertByTime(rows[|rows| - 1], SortByTime(rows[..|rows| - 1]))
  }

  function OfTenant(tenantId: string): Row -> bool { (r: Row) => r.tenantId == tenantId }

  /** The rows of one tenant, ordered by timestamp and then by creation. */
  function Logs(rows: seq<Row>, tenantId: string): seq<Row> {
    SortByTime(Filter(OfTenant(tenantId), rows))
  }

  // ---------- Valid chains ----------

  function HashBefore(pf: Platform, tenantId: string, logs: seq<Row>, i: nat): string
    requires i <= |logs|
  {
    if i == 0 then GenesisHash(pf, tenantId) else logs[i - 1].chainHash
  }

  function EndHash(pf: Platform, tenantId: string, logs: seq<Row>): string {
    HashBefore(pf, tenantId, logs, |logs|)
  }

  predicate GoodLink(pf: Platform, tenantId: string, logs: seq<Row>, i: nat)
    requires i < |logs|
  {
    var previous := HashBefore(pf, tenantId, logs, i);
    logs[i].chainHash == ChainHash(pf, previous, logs[i]) && logs[i].previousChainHash == previous
  }

  ghost predicate Intact(pf: Platform, tenantId: string, logs: seq<Row>) {
    forall i :: 0 <= i < |logs| ==> GoodLink(pf, tenantId, logs, i)
  }

  /** The row `logEvent` writes, given the rows that are there. */
  function Sealed(pf: Platform, rows: seq<Row>, e: Entry, id: string, now: Instant, createdAt: int): Row {
    SealedAfter(pf, EndHash(pf, e.tenantId, Logs(rows, e.tenantId)), e, id, now, createdAt)
  }

  function SealedAfter(pf: Platform, previous: string, e: Entry, id: string, now: Instant, createdAt: int): Row {
    var draft := Row(id, e.tenantId, now, createdAt, e.userId, e.action, e.entityId,
                     AsStored(pf, e.beforeState), AsStored(pf, e.afterState),
                         Checksum(pf, EntryDocument(pf, e, now)), previous, "", false);
    draft.(chainHash := ChainHash(pf, previous, draft))
  }

  // ---------- What a payload pins down ----------

  lemma CutAtColon(a: string, x: string, b: string, y: string)
    requires ColonFree(a) && ColonFree(b)
    requires Colon(a, x) == Colon(b, y)
    ensures a == b && x == y
  {
    var s, t := Colon(a, x), Colon(b, y);
    assert s[|a|] == ':' && t[|b|] == ':';
    assert |a| == |b|;
    assert s[..|a|] == a && t[..|a|] == b;
    assert s[|a| + 1..] == x && t[|a| + 1..] == y;
  }

  /** The same cut at a place where both sides have the same length behind it. */
  lemma CutBeforeEnd(x: string, a: string, y: string, b: string)
    requires Colon(x, a) == Colon(y, b) && |a| == |b|
    ensures x == y && a == b
  {
    var s, t := Colon(x, a), Colon(y, b);
    assert s[..|x|] == x && t[..|x|] == y;
    assert s[|x| + 1..] == a && t[|x| + 1..] == b;
  }

  lemma CutAtLastColon(x: string, a: string, y: string, b: string)
    requires ColonFree(a) && ColonFree(b)
    requires Colon(x, a) == Colon(y, b)
    ensures x == y && a == b
  {
    var s, t := Colon(x, a), Colon(y, b);
    assert s[|x|] == ':' && t[|y|] == ':';
    assert forall i :: 0 <= i < |a| ==> s[|x| + 1 + i] == a[i];
    assert forall i :: 0 <= i < |b| ==> t[|y| + 1 + i] == b[i];
    assert forall i :: |x| < i < |s| ==> s[i] != ':';
    assert forall i :: |y| < i < |t| ==> t[i] != ':';
    assert |x| == |y|;
    CutBeforeEnd(x, a, y, b);
  }

  /** Two chain payloads of a tenant are equal exactly when these three things are. */
  lemma PayloadsEqual(pf: Platform, p: string, a: Row, q: string, b: Row)
    requires pf.Sound() && IsDigest(p) && IsDigest(q) && a.tenantId == b.tenantId
    ensures ChainPayload(pf, p, a) == ChainPayload(pf, q, b)
       <==> p == q && a.timestamp == b.timestamp && Loose(a) == Loose(b)
  {
    var x := Colon(pf.isoString(a.timestamp), Loose(a));
    var y := Colon(pf.isoString(b.timestamp), Loose(b));
    if ChainPayload(pf, p, a) == ChainPayload(pf, q, b) {
      CutAtColon(p, Colon(a.tenantId, x), q, Colon(b.tenantId, y));
      var n := |a.tenantId|;
      assert Colon(a.tenantId, x)[n + 1..] == x && Colon(b.tenantId, y)[n + 1..] == y;
      assert x[..24] == pf.isoString(a.timestamp) && y[..24] == pf.isoString(b.timestamp);
      assert x[25..] == Loose(a) && y[25..] == Loose(b);
    }
  }

  /** A genesis text is never the text of a chain position. */
  lemma GenesisIsNoPayload(pf: Platform, tenantId: string, p: string, r: Row)
    requires IsDigest(p)
    ensures GenesisPayload(tenantId) != ChainPayload(pf, p, r)
  {
    assert GenesisPayload(tenantId)[0] == 'G';
    assert ChainPayload(pf, p, r)[0] == p[0];
    assert p[0] in p;
  }

  lemma ColonAssociates(a: string, b: string, c: string)
    ensures Colon(Colon(a, b), c) == Colon(a, Colon(b, c))
  {
  }

  lemma LooseIsWho(r: Row)
    ensures Loose(r) == Colon(Who(r), r.checksum)
  {
    ColonAssociates(r.action, Colon(r.entityId, r.userId), r.checksum);
    ColonAssociates(r.entityId, r.userId, r.checksum);
  }

  /** With checksums of one length the checksum is pinned, and so is all before it, as one text. */
  lemma LooseFields(a: Row, b: Row)
    requires Loose(a) == Loose(b) && |a.checksum| == |b.checksum|
    ensures a.checksum == b.checksum && Who(a) == Who(b)
  {
    LooseIsWho(a);
    LooseIsWho(b);
    CutBeforeEnd(Who(a), a.checksum, Who(b), b.checksum);
  }

  function Who(r: Row): string { Colon(r.action, Colon(r.entityId, r.userId)) }

  function Colons(s: string): nat { if s == "" then 0 else (if s[0] == ':' then 1 else 0) + Colons(s[1..]) }

  lemma {:induction false} NoColons(s: string)
    ensures Colons(s) == 0 <==> ColonFree(s)
  {
    if s != "" {
      NoColons(s[1..]);
      assert s == [s[0]] + s[1..];
    }
  }

  lemma {:induction false} ColonsConcat(a: string, b: string)
    ensures Colons(a + b) == Colons(a) + Colons(b)
  {
    if a == "" {
      assert a + b == b;
    } else {
      assert (a + b)[0] == a[0] && (a + b)[1..] == a[1..] + b;
      ColonsConcat(a[1..], b);
    }
  }

  lemma ColonsJoined(a: string, b: string)
    ensures Colons(Colon(a, b)) == Colons(a) + 1 + Colons(b)
  {
    ColonsConcat(a + ":", b);
    ColonsConcat(a, ":");
    assert Colons(":") == 1 by { assert ":"[1..] == ""; }
  }

  ghost predicate Delimited(r: Row) { ColonFree(r.action) && ColonFree(r.entityId) && ColonFree(r.userId) }

  ghost predicate SameWho(a: Row, b: Row) { a.action == b.action && a.entityId == b.entityId && a.userId == b.userId }

  /** Only the colons between them: a row whose fields hold none shares its text with no other. */
  lemma DelimitedIsPinned(a: Row, b: Row)
    requires Delimited(a) && Who(a) == Who(b)
    ensures SameWho(a, b)
  {
    forall r | r == a || r == b
      ensures Colons(Who(r)) == 2 + Colons(r.action) + Colons(r.entityId) + Colons(r.userId)
    {
      ColonsJoined(r.entityId, r.userId);
      ColonsJoined(r.action, Colon(r.entityId, r.userId));
    }
    NoColons(a.action);
    NoColons(a.entityId);
    NoColons(a.userId);
    NoColons(b.action);
    NoColons(b.entityId);
    CutAtColon(a.action, Colon(a.entityId, a.userId), b.action, Colon(b.entityId, b.userId));
    CutAtColon(a.entityId, a.userId, b.entityId, b.userId);
  }

  /** With a colon-free checksum too, nothing at all is asked of the other row. */
  lemma DelimitedLoose(a: Row, b: Row)
    requires Delimited(a) && ColonFree(a.checksum) && Loose(a) == Loose(b)
    ensures SameWho(a, b) && a.checksum == b.checksum
  {
    forall r | r == a || r == b
      ensures Loose(r) == Colon(Who(r), r.checksum)
      ensures Colons(Loose(r)) == 3 + Colons(r.action) + Colons(r.entityId) + Colons(r.userId) + Colons(r.checksum)
    {
      LooseIsWho(r);
      ColonsJoined(r.entityId, r.userId);
      ColonsJoined(r.action, Colon(r.entityId, r.userId));
      ColonsJoined(Who(r), r.checksum);
    }
    NoColons(a.action);
    NoColons(a.entityId);
    NoColons(a.userId);
    NoColons(a.checksum);
    NoColons(b.checksum);
    CutAtLastColon(Who(a), a.checksum, Who(b), b.checksum);
    DelimitedIsPinned(a, b);
  }

  function IndexOfColon(s: string): (i: nat)
    requires !ColonFree(s)
    ensures i < |s| && s[i] == ':'
  {
    if s[0] == ':' then 0 else 1 + IndexOfColon(s[1..])
  }

  lemma SplitAtColon(s: string) returns (p: string, q: string)
    requires !ColonFree(s)
    ensures s == Colon(p, q)
  {
    var i := IndexOfColon(s);
    p, q := s[..i], s[i + 1..];
  }

  /** A row with a colon in a field has a double: the colon moves to the neighbouring field. */
  lemma ColonHasDouble(r: Row) returns (double: Row)
    requires !Delimited(r)
    ensures Who(double) == Who(r) && Loose(double) == Loose(r) && !SameWho(r, double)
    ensures double == r.(action := double.action, entityId := double.entityId, userId := double.userId)
  {
    if !ColonFree(r.action) {
      var p, q := SplitAtColon(r.action);
      double := r.(action := p, entityId := Colon(q, r.entityId));
      ColonAssociates(p, q, Colon(r.entityId, r.userId));
      ColonAssociates(q, r.entityId, r.userId);
      assert |double.action| < |r.action|;
    } else if !ColonFree(r.entityId) {
      var p, q := SplitAtColon(r.entityId);
      double := r.(entityId := p, userId := Colon(q, r.userId));
      ColonAssociates(p, q, r.userId);
      assert |double.entityId| < |r.entityId|;
    } else {
      var p, q := SplitAtColon(r.userId);
      double := r.(entityId := Colon(r.entityId, p), userId := q);
      ColonAssociates(r.entityId, p, q);
      assert |double.userId| < |r.userId|;
    }
    LooseIsWho(r);
    LooseIsWho(double);
  }

  /** A row is pinned against every row with a checksum of its length exactly when its three fields hold no colon. */
  lemma RowPinnedIff(r: Row)
    ensures Delimited(r) <==> forall b :: Loose(b) == Loose(r) && |b.checksum| == |r.checksum| ==> SameWho(r, b)
  {
    if Delimited(r) {
      forall b | Loose(b) == Loose(r) && |b.checksum| == |r.checksum| ensures SameWho(r, b) {
        LooseFields(r, b);
        DelimitedIsPinned(r, b);
      }
    } else {
      var double := ColonHasDouble(r);
    }
  }

  // ---------- Tamper evidence ----------

  /** Every text hashed in building or walking one chain. */
  ghost function HashedTexts(pf: Platform, tenantId: string, logs: seq<Row>): set<string> {
    {GenesisPayload(tenantId)}
    + set i | 0 <= i < |logs| :: ChainPayload(pf, HashBefore(pf, tenantId, logs, i), logs[i])
  }

  ghost predicate AllOfTenant(tenantId: string, logs: seq<Row>) {
    forall r :: r in logs ==> r.tenantId == tenantId
  }

  /** Agreement on everything a chain payload pins down. */
  ghost predicate SamePositions(a: seq<Row>, b: seq<Row>) {
    && |a| == |b|
    && forall i :: 0 <= i < |a| ==> a[i].timestamp == b[i].timestamp && Loose(a[i]) == Loose(b[i])
  }

  lemma HashesAreDigests(pf: Platform, tenantId: string, logs: seq<Row>, i: nat)
    requires pf.Sound() && Intact(pf, tenantId, logs) && i <= |logs|
    ensures IsDigest(HashBefore(pf, tenantId, logs, i))
  {
    if i > 0 { assert GoodLink(pf, tenantId, logs, i - 1); }
  }

  lemma PrefixIntact(pf: Platform, tenantId: string, logs: seq<Row>, n: nat)
    requires Intact(pf, tenantId, logs) && n <= |logs|
    ensures Intact(pf, tenantId, logs[..n])
    ensures HashedTexts(pf, tenantId, logs[..n]) <= HashedTexts(pf, tenantId, logs)
  {
    forall i | 0 <= i < n
      ensures GoodLink(pf, tenantId, logs[..n], i)
      ensures ChainPayload(pf, HashBefore(pf, tenantId, logs[..n], i), logs[..n][i]) in HashedTexts(pf, tenantId, logs)
    {
      assert GoodLink(pf, tenantId, logs, i);
      assert HashBefore(pf, tenantId, logs[..n], i) == HashBefore(pf, tenantId, logs, i);
    }
  }

  /** `texts` covers every text hashed in the chain, and no two of them collide. */
  ghost predicate Covered(pf: Platform, tenantId: string, logs: seq<Row>, texts: set<string>) {
    HashedTexts(pf, tenantId, logs) <= texts && pf.CollisionFree(texts)
  }

  /** The last rows of two valid logs, and the hashes before them, settle the end hashes. */
  lemma EndHashPins(pf: Platform, tenantId: string, a: seq<Row>, b: seq<Row>, i: nat, j: nat, texts: set<string>)
    requires pf.Sound() && Intact(pf, tenantId, a) && Intact(pf, tenantId, b)
    requires AllOfTenant(tenantId, a) && AllOfTenant(tenantId, b)
    requires Covered(pf, tenantId, a, texts) && Covered(pf, tenantId, b, texts)
    requires i < |a| && j < |b|
    ensures a[i].chainHash == b[j].chainHash
       <==> && HashBefore(pf, tenantId, a, i) == HashBefore(pf, tenantId, b, j)
            && a[i].timestamp == b[j].timestamp && Loose(a[i]) == Loose(b[j])
  {
    var p, q := HashBefore(pf, tenantId, a, i), HashBefore(pf, tenantId, b, j);
    HashesAreDigests(pf, tenantId, a, i);
    HashesAreDigests(pf, tenantId, b, j);
    assert GoodLink(pf, tenantId, a, i) && GoodLink(pf, tenantId, b, j);
    assert ChainPayload(pf, p, a[i]) in HashedTexts(pf, tenantId, a);
    assert ChainPayload(pf, q, b[j]) in HashedTexts(pf, tenantId, b);
    assert a[i] in a && b[j] in b;
    PayloadsEqual(pf, p, a[i], q, b[j]);
  }

  lemma SamePositionsByPrefix(a: seq<Row>, b: seq<Row>)
    requires a != [] && b != []
    ensures SamePositions(a, b)
       <==> && SamePositions(a[..|a| - 1], b[..|b| - 1])
            && a[|a| - 1].timestamp == b[|b| - 1].timestamp && Loose(a[|a| - 1]) == Loose(b[|b| - 1])
  {
    var c, d := a[..|a| - 1], b[..|b| - 1];
    assert forall i :: 0 <= i < |c| ==> c[i] == a[i];
    assert forall i :: 0 <= i < |d| ==> d[i] == b[i];
  }

  /**
   * Two valid logs of a tenant end in the same chain hash exactly when they have the
   * same length and agree, row by row, on timestamp and on the colon-joined rest.
   */
  lemma TamperEvidence(pf: Platform, tenantId: string, a: seq<Row>, b: seq<Row>)
    requires pf.Sound() && Intact(pf, tenantId, a) && Intact(pf, tenantId, b)
    requires AllOfTenant(tenantId, a) && AllOfTenant(tenantId, b)
    requires pf.CollisionFree(HashedTexts(pf, tenantId, a) + HashedTexts(pf, tenantId, b))
    ensures EndHash(pf, tenantId, a) == EndHash(pf, tenantId, b) <==> SamePositions(a, b)
  {
    TamperEvidenceOver(pf, tenantId, a, b, HashedTexts(pf, tenantId, a) + HashedTexts(pf, tenantId, b));
  }

  lemma {:induction false} TamperEvidenceOver(pf: Platform, tenantId: string, a: seq<Row>, b: seq<Row>,
                                              texts: set<string>)
    requires pf.Sound() && Intact(pf, tenantId, a) && Intact(pf, tenantId, b)
    requires AllOfTenant(tenantId, a) && AllOfTenant(tenantId, b)
    requires Covered(pf, tenantId, a, texts) && Covered(pf, tenantId, b, texts)
    ensures EndHash(pf, tenantId, a) == EndHash(pf, tenantId, b) <==> SamePositions(a, b)
    decreases |a|
  {
    if a == [] && b != [] {
      GenesisIsNotEnd(pf, tenantId, b);
    } else if a != [] && b == [] {
      GenesisIsNotEnd(pf, tenantId, a);
    } else if a != [] {
      var m, n := |a| - 1, |b| - 1;
      PrefixIntact(pf, tenantId, a, m);
      PrefixIntact(pf, tenantId, b, n);
      TamperEvidenceOver(pf, tenantId, a[..m], b[..n], texts);
      assert HashBefore(pf, tenantId, a, m) == EndHash(pf, tenantId, a[..m]);
      assert HashBefore(pf, tenantId, b, n) == EndHash(pf, tenantId, b[..n]);
      EndHashPins(pf, tenantId, a, b, m, n, texts);
      SamePositionsByPrefix(a, b);
    }
  }

  /** No valid chain leads back to its own genesis hash. */
  lemma GenesisIsNotEnd(pf: Platform, tenantId: string, logs: seq<Row>)
    requires pf.Sound() && Intact(pf, tenantId, logs) && logs != []
    requires pf.CollisionFree(HashedTexts(pf, tenantId, logs))
    ensures EndHash(pf, tenantId, logs) != GenesisHash(pf, tenantId)
  {
    var n := |logs| - 1;
    assert GoodLink(pf, tenantId, logs, n);
    HashesAreDigests(pf, tenantId, logs, n);
    GenesisIsNoPayload(pf, tenantId, HashBefore(pf, tenantId, logs, n), logs[n]);
    assert ChainPayload(pf, HashBefore(pf, tenantId, logs, n), logs[n]) in HashedTexts(pf, tenantId, logs);
  }

  ghost predicate SameFields(a: Row, b: Row) {
    && a.timestamp == b.timestamp && a.action == b.action && a.entityId == b.entityId
    && a.userId == b.userId && a.checksum == b.checksum
  }

  /** Another valid log of the tenant, with the same end hash and no collision between them. Its fields are anything. */
  ghost predicate Rival(pf: Platform, tenantId: string, a: seq<Row>, b: seq<Row>) {
    && Intact(pf, tenantId, b) && AllOfTenant(tenantId, b)
    && EndHash(pf, tenantId, a) == EndHash(pf, tenantId, b)
    && pf.CollisionFree(HashedTexts(pf, tenantId, a) + HashedTexts(pf, tenantId, b))
  }

  ghost predicate AgreeByField(a: seq<Row>, b: seq<Row>) {
    |a| == |b| && forall i :: 0 <= i < |a| ==> SameFields(a[i], b[i])
  }

  /** One row replaced by its double: the same texts are hashed, so the chain is as valid as it was. */
  lemma DoubleIsRival(pf: Platform, tenantId: string, a: seq<Row>, k: nat, double: Row)
    requires Intact(pf, tenantId, a) && AllOfTenant(tenantId, a) && k < |a|
    requires pf.CollisionFree(HashedTexts(pf, tenantId, a))
    requires Loose(double) == Loose(a[k])
    requires double == a[k].(action := double.action, entityId := double.entityId, userId := double.userId)
    ensures Rival(pf, tenantId, a, a[k := double])
  {
    var b := a[k := double];
    DoubleKeepsChain(pf, tenantId, a, k, double);
    DoubleHashesSame(pf, tenantId, a, k, double);
    var texts := HashedTexts(pf, tenantId, a);
    assert texts + HashedTexts(pf, tenantId, b) == texts;
  }

  lemma DoubleKeepsChain(pf: Platform, tenantId: string, a: seq<Row>, k: nat, double: Row)
    requires Intact(pf, tenantId, a) && AllOfTenant(tenantId, a) && k < |a|
    requires Loose(double) == Loose(a[k])
    requires double == a[k].(action := double.action, entityId := double.entityId, userId := double.userId)
    ensures var b := a[k := double];
      && Intact(pf, tenantId, b) && AllOfTenant(tenantId, b) && EndHash(pf, tenantId, b) == EndHash(pf, tenantId, a)
  {
    var b := a[k := double];
    forall i | 0 <= i < |b| ensures GoodLink(pf, tenantId, b, i) {
      DoubleKeepsLink(pf, tenantId, a, k, double, i);
    }
    assert a[k] in a;
    assert forall r :: r in b ==> r == double || r in a;
  }

  lemma DoubleHashesSame(pf: Platform, tenantId: string, a: seq<Row>, k: nat, double: Row)
    requires Intact(pf, tenantId, a) && k < |a|
    requires Loose(double) == Loose(a[k])
    requires double == a[k].(action := double.action, entityId := double.entityId, userId := double.userId)
    ensures HashedTexts(pf, tenantId, a[k := double]) <= HashedTexts(pf, tenantId, a)
  {
    var b := a[k := double];
    forall text | text in HashedTexts(pf, tenantId, b) ensures text in HashedTexts(pf, tenantId, a) {
      if text != GenesisPayload(tenantId) {
        var i :| 0 <= i < |b| && text == ChainPayload(pf, HashBefore(pf, tenantId, b, i), b[i]);
        DoubleKeepsLink(pf, tenantId, a, k, double, i);
      }
    }
  }

  lemma DoubleKeepsLink(pf: Platform, tenantId: string, a: seq<Row>, k: nat, double: Row, i: nat)
    requires Intact(pf, tenantId, a) && k < |a| && i < |a|
    requires Loose(double) == Loose(a[k])
    requires double == a[k].(action := double.action, entityId := double.entityId, userId := double.userId)
    ensures var b := a[k := double];
      && GoodLink(pf, tenantId, b, i)
      && ChainPayload(pf, HashBefore(pf, tenantId, b, i), b[i]) in HashedTexts(pf, tenantId, a)
  {
    assert GoodLink(pf, tenantId, a, i);
    var b := a[k := double];
    assert HashBefore(pf, tenantId, b, i) == HashBefore(pf, tenantId, a, i);
    assert ChainPayload(pf, HashBefore(pf, tenantId, b, i), b[i])
        == ChainPayload(pf, HashBefore(pf, tenantId, a, i), a[i]);
  }

  /**
   * What `verifyChain` alone establishes: a valid log with colon-free checksums, as digests are,
   * is pinned field by field against every valid log with its end hash, whatever that log holds,
   * exactly when its own actions, entities and users hold no colon.
   */
  lemma {:induction false} TamperEvidenceByField(pf: Platform, tenantId: string, a: seq<Row>)
    requires pf.Sound() && Intact(pf, tenantId, a) && AllOfTenant(tenantId, a)
    requires pf.CollisionFree(HashedTexts(pf, tenantId, a))
    requires forall r :: r in a ==> ColonFree(r.checksum)
    ensures (forall r :: r in a ==> Delimited(r)) <==> forall b :: Rival(pf, tenantId, a, b) ==> AgreeByField(a, b)
  {
    if forall r :: r in a ==> Delimited(r) {
      forall b | Rival(pf, tenantId, a, b) ensures AgreeByField(a, b) {
        DelimitedLogIsPinned(pf, tenantId, a, b);
      }
    } else {
      var b := LooseLogHasRival(pf, tenantId, a);
    }
  }

  lemma LooseLogHasRival(pf: Platform, tenantId: string, a: seq<Row>) returns (b: seq<Row>)
    requires Intact(pf, tenantId, a) && AllOfTenant(tenantId, a)
    requires pf.CollisionFree(HashedTexts(pf, tenantId, a))
    requires exists r :: r in a && !Delimited(r)
    ensures Rival(pf, tenantId, a, b) && !AgreeByField(a, b)
  {
    var k :| 0 <= k < |a| && !Delimited(a[k]);
    var double := ColonHasDouble(a[k]);
    b := a[k := double];
    DoubleIsRival(pf, tenantId, a, k, double);
    assert !SameFields(a[k], b[k]);
  }

  lemma DelimitedLogIsPinned(pf: Platform, tenantId: string, a: seq<Row>, b: seq<Row>)
    requires pf.Sound() && Intact(pf, tenantId, a) && AllOfTenant(tenantId, a)
    requires forall r :: r in a ==> Delimited(r) && ColonFree(r.checksum)
    requires Rival(pf, tenantId, a, b)
    ensures AgreeByField(a, b)
  {
    TamperEvidence(pf, tenantId, a, b);
    forall i | 0 <= i < |a| ensures SameFields(a[i], b[i]) {
      assert a[i] in a;
      DelimitedLoose(a[i], b[i]);
    }
  }

  /** The ids and the creation time are outside every hash; everything else of a row is inside. */
  ghost predicate SameContents(a: Row, b: Row) {
    && SameFields(a, b) && a.beforeState == b.beforeState && a.afterState == b.afterState
    && a.previousChainHash == b.previousChainHash && a.chainHash == b.chainHash
  }

  /** The texts whose digests are the stored checksums. */
  ghost function ChecksumTexts(pf: Platform, logs: seq<Row>): set<string> {
    set i | 0 <= i < |logs| :: pf.stringify(RowDocument(pf, logs[i]))
  }

  /** What a row's two jsonb columns can hold. */
  ghost predicate Columns(pf: Platform, r: Row) { pf.IsState(r.beforeState) && pf.IsState(r.afterState) }

  /**
   * Both checks together pin the whole contents, before and after state included, and
   * need no condition on the characters in any field.
   */
  lemma FullTamperEvidence(pf: Platform, tenantId: string, a: seq<Row>, b: seq<Row>)
    requires pf.Sound() && Intact(pf, tenantId, a) && Intact(pf, tenantId, b)
    requires AllOfTenant(tenantId, a) && AllOfTenant(tenantId, b)
    requires pf.CollisionFree(HashedTexts(pf, tenantId, a) + HashedTexts(pf, tenantId, b))
    requires pf.CollisionFree(ChecksumTexts(pf, a) + ChecksumTexts(pf, b))
    requires forall r :: r in a + b ==> PassesIntegrity(pf, r) && Columns(pf, r)
    requires EndHash(pf, tenantId, a) == EndHash(pf, tenantId, b)
    ensures |a| == |b| && forall i :: 0 <= i < |a| ==> SameContents(a[i], b[i])
  {
    TamperEvidence(pf, tenantId, a, b);
    forall i | 0 <= i < |a| ensures SameContents(a[i], b[i]) {
      assert a[i] in a + b && b[i] in a + b;
      assert IsDigest(a[i].checksum) && IsDigest(b[i].checksum);
      LooseFields(a[i], b[i]);
      assert pf.stringify(RowDocument(pf, a[i])) in ChecksumTexts(pf, a) + ChecksumTexts(pf, b);
      assert pf.stringify(RowDocument(pf, b[i])) in ChecksumTexts(pf, a) + ChecksumTexts(pf, b);
      RowDocumentIsProper(pf, a[i]);
      RowDocumentIsProper(pf, b[i]);
      DocumentPinsRow(pf, a[i], b[i]);
      PrefixHashesAgree(pf, tenantId, a, b, i);
      PrefixHashesAgree(pf, tenantId, a, b, i + 1);
      assert GoodLink(pf, tenantId, a, i) && GoodLink(pf, tenantId, b, i);
    }
  }

  lemma RowDocumentIsProper(pf: Platform, r: Row)
    requires pf.Sound() && Columns(pf, r)
    ensures pf.Proper(RowDocument(pf, r))
  {
  }

  lemma DocumentPinsRow(pf: Platform, a: Row, b: Row)
    requires pf.Sound() && RowDocument(pf, a) == RowDocument(pf, b) && Columns(pf, a) && Columns(pf, b)
    ensures a.tenantId == b.tenantId && a.timestamp == b.timestamp
    ensures SameWho(a, b) && a.beforeState == b.beforeState && a.afterState == b.afterState
  {
    var d, e := RowDocument(pf, a), RowDocument(pf, b);
    assert d[0].json == pf.quote(a.tenantId) && e[0].json == pf.quote(b.tenantId);
    assert d[1].json == pf.quote(pf.isoString(a.timestamp)) && e[1].json == pf.quote(pf.isoString(b.timestamp));
    assert d[2].json == pf.quote(a.userId) && e[2].json == pf.quote(b.userId);
    assert d[3].json == pf.quote(a.action) && e[3].json == pf.quote(b.action);
    assert d[4].json == pf.quote(a.entityId) && e[4].json == pf.quote(b.entityId);
    assert d[5] == StoredState("beforeState", a.beforeState)[0] && e[5] == StoredState("beforeState", b.beforeState)[0];
    assert d[6] == StoredState("afterState", a.afterState)[0] && e[6] == StoredState("afterState", b.afterState)[0];
  }

  lemma {:induction false} PrefixHashesAgree(pf: Platform, tenantId: string, a: seq<Row>, b: seq<Row>, n: nat)
    requires Intact(pf, tenantId, a) && Intact(pf, tenantId, b)
    requires AllOfTenant(tenantId, a) && AllOfTenant(tenantId, b)
    requires SamePositions(a, b) && n <= |a|
    ensures HashBefore(pf, tenantId, a, n) == HashBefore(pf, tenantId, b, n)
  {
    if n > 0 {
      PrefixHashesAgree(pf, tenantId, a, b, n - 1);
      assert GoodLink(pf, tenantId, a, n - 1) && GoodLink(pf, tenantId, b, n - 1);
      assert a[n - 1] in a && b[n - 1] in b;
    }
  }

  /**
   * `verifyChain` alone does not tell the entity from the user when one of them
   * contains a colon: two different one-row logs are both valid with one end hash.
   */
  lemma ColonMovesUnnoticed(pf: Platform, tenantId: string, checksum: string) returns (a: Row, b: Row)
    ensures a.tenantId == tenantId && b.tenantId == tenantId && a.entityId != b.entityId && a.userId != b.userId
    ensures Intact(pf, tenantId, [a]) && Intact(pf, tenantId, [b])
    ensures EndHash(pf, tenantId, [a]) == EndHash(pf, tenantId, [b])
  {
    var genesis := GenesisHash(pf, tenantId);
    a := Row("1", tenantId, 0, 0, "u", "read", "case:7", None, None, checksum, genesis, "", false);
    b := a.(entityId := "case", userId := "7:u");
    assert Loose(a) == "read:case:7:u:" + checksum == Loose(b);
    a := a.(chainHash := ChainHash(pf, genesis, a));
    b := b.(chainHash := ChainHash(pf, genesis, b));
    assert Loose(a) == Loose(b);
  }

  /** No two positions of a valid chain carry the same hash, the genesis included. */
  lemma {:induction false} HashesDistinct(pf: Platform, tenantId: string, logs: seq<Row>, i: nat, j: nat)
    requires pf.Sound() && Intact(pf, tenantId, logs) && AllOfTenant(tenantId, logs)
    requires pf.CollisionFree(HashedTexts(pf, tenantId, logs))
    requires i < j <= |logs|
    ensures HashBefore(pf, tenantId, logs, i) != HashBefore(pf, tenantId, logs, j)
  {
    if i == 0 {
      PrefixIntact(pf, tenantId, logs, j);
      GenesisIsNotEnd(pf, tenantId, logs[..j]);
    } else {
      HashesDistinct(pf, tenantId, logs, i - 1, j - 1);
      var texts := HashedTexts(pf, tenantId, logs);
      assert Covered(pf, tenantId, logs, texts);
      EndHashPins(pf, tenantId, logs, logs, i - 1, j - 1, texts);
    }
  }

  /**
   * A log cut short at the end is still a valid log, but not with the same end hash: kept elsewhere,
   * that one shows every cut.
   */
  lemma TruncationChangesEndHash(pf: Platform, tenantId: string, logs: seq<Row>, n: nat)
    requires Intact(pf, tenantId, logs) && n < |logs|
    ensures Intact(pf, tenantId, logs[..n])
    ensures pf.Sound() && AllOfTenant(tenantId, logs) && pf.CollisionFree(HashedTexts(pf, tenantId, logs)) ==>
      EndHash(pf, tenantId, logs[..n]) != EndHash(pf, tenantId, logs)
  {
    PrefixIntact(pf, tenantId, logs, n);
    assert EndHash(pf, tenantId, logs[..n]) == HashBefore(pf, tenantId, logs, n);
    if pf.Sound() && AllOfTenant(tenantId, logs) && pf.CollisionFree(HashedTexts(pf, tenantId, logs)) {
      HashesDistinct(pf, tenantId, logs, n, |logs|);
    }
  }

  /**
   * A row just written passes `verifyLogIntegrity` exactly when both states were supplied and
   * each comes back from its column as the text it went in with.
   */
  lemma FreshRowVerifies(pf: Platform, previous: string, e: Entry, id: string, now: Instant, createdAt: int)
    requires pf.Sound() && pf.IsState(e.beforeState) && pf.IsState(e.afterState)
    requires pf.CollisionFree({pf.stringify(EntryDocument(pf, e, now)),
                               pf.stringify(RowDocument(pf, SealedAfter(pf, previous, e, id, now, createdAt)))})
    ensures PassesIntegrity(pf, SealedAfter(pf, previous, e, id, now, createdAt))
       <==> && e.beforeState.Some? && e.afterState.Some?
            && pf.column(e.beforeState.value) == e.beforeState.value
            && pf.column(e.afterState.value) == e.afterState.value
  {
    var row := SealedAfter(pf, previous, e, id, now, createdAt);
    var written, stored := EntryDocument(pf, e, now), RowDocument(pf, row);
    RowDocumentIsProper(pf, row);
    assert pf.Proper(written);
    if e.beforeState.Some? && e.afterState.Some? {
      assert written[5].json == e.beforeState.value && written[6].json == e.afterState.value;
      assert stored[5].json == pf.column(e.beforeState.value) && stored[6].json == pf.column(e.afterState.value);
      assert written[5] == stored[5] && written[6] == stored[6] ==> written == stored;
    } else {
      assert |written| < |stored|;
    }
  }
}
