module SyncApply {
  // Rows received from the server: the newest copy wins, a forced row always wins, and a page that comes without its text keeps
  // the text this device has for the same content.

  import opened Options
  import opened SyncKeys

  /** A stored row. Pages have a content hash and text blocks; `data` is everything else. */
  datatype Row = Row(key: PrimaryKey, updatedAt: int, contentHash: Option<string>, blocks: seq<string>, data: string)

  datatype RowId = RowId(table: Table, key: PrimaryKey)

  /** The key under which a row is named in the outbox, in rejections and in the set of rows to restore. */
  datatype EntityId = EntityId(table: Table, entityKey: string)

  type Tables = map<RowId, Row>

  ghost predicate ValidTables(rows: Tables) {
    forall id :: id in rows ==> rows[id].key == id.key && FitsTable(id.table, id.key)
  }

  function NameOf(id: RowId): EntityId { EntityId(id.table, EntityKey(id.key)) }

  function Lookup(rows: Tables, id: RowId): Option<Row> { if id in rows then Some(rows[id]) else None }

  /** A page pulled without text keeps the local text when the content is the same. */
  function KeepLocalText(remote: Row, local: Row): Row {
    if remote.blocks == [] && local.blocks != [] && remote.contentHash.Some? && remote.contentHash == local.contentHash
    then remote.(blocks := local.blocks)
    else remote
  }

  /** The newest received copy per text key; of two equally new ones, the later. */
  function NewestByKey(entities: seq<Row>): (r: map<string, Row>)
    ensures forall s :: s in r ==> r[s] in entities && EntityKey(r[s].key) == s
    ensures forall e :: e in entities ==> EntityKey(e.key) in r && r[EntityKey(e.key)].updatedAt >= e.updatedAt
  {
    if entities == [] then map[]
    else
      var n := |entities| - 1;
      var m := NewestByKey(entities[..n]);
      assert entities == entities[..n] + [entities[n]];
      Newer(m, entities[n])
  }

  lemma NewestStep(entities: seq<Row>, i: nat)
    requires i < |entities|
    ensures NewestByKey(entities[..i + 1]) == Newer(NewestByKey(entities[..i]), entities[i])
  {
    assert entities[..i + 1][..i] == entities[..i];
  }

  function Newer(m: map<string, Row>, e: Row): map<string, Row> {
    var s := EntityKey(e.key);
    if s !in m || e.updatedAt >= m[s].updatedAt then m[s := e] else m
  }

  /** What the table holds under a key once a remote copy has arrived for it. */
  function Merged(t: Table, local: Option<Row>, remote: Row, forced: bool): Row {
    if local.None? then remote
    else if !forced && remote.updatedAt <= local.value.updatedAt then local.value
    else if t == Pages then KeepLocalText(remote, local.value)
    else remote
  }

  /** The winning remote copy for a row, if one arrived. */
  function RemoteFor(t: Table, entities: seq<Row>, id: RowId): Option<Row> {
    var newest := NewestByKey(entities);
    var s := EntityKey(id.key);
    if id.table == t && s in newest && newest[s].key == id.key then Some(newest[s]) else None
  }

  function Winners(t: Table, newest: map<string, Row>): map<RowId, Row>
    requires forall s :: s in newest ==> EntityKey(newest[s].key) == s
  {
    map s | s in newest :: RowId(t, newest[s].key) := newest[s]
  }

  lemma WinnerOf(t: Table, entities: seq<Row>, id: RowId)
    ensures Lookup(Winners(t, NewestByKey(entities)), id) == RemoteFor(t, entities, id)
  {
    var newest := NewestByKey(entities);
    var s := EntityKey(id.key);
    if id.table == t && s in newest && newest[s].key == id.key {
      assert RowId(t, newest[s].key) in Winners(t, newest);
    }
  }

  /** The tables after the winning copies have been merged in. */
  function Applied(rows: Tables, t: Table, entities: seq<Row>, force: set<EntityId>): Tables {
    AllMerged(rows, t, Winners(t, NewestByKey(entities)), force)
  }

  function AllMerged(rows: Tables, t: Table, winners: map<RowId, Row>, force: set<EntityId>): Tables {
    rows + map id | id in winners :: Merged(t, Lookup(rows, id), winners[id], NameOf(id) in force)
  }

  lemma AppliedAt(rows: Tables, t: Table, entities: seq<Row>, force: set<EntityId>, id: RowId)
    ensures var remote := RemoteFor(t, entities, id);
      Lookup(Applied(rows, t, entities, force), id) == if remote.None? then Lookup(rows, id) else Some(Merged(t, Lookup(rows, id), remote.value, NameOf(id) in force))
  {
    WinnerOf(t, entities, id);
  }

  // ---------- what a pull leaves, row by row ----------

  /** Copy i counts for a text key: the newest one, and of equally new ones the last. */
  ghost predicate IsNewestAt(entities: seq<Row>, s: string, i: nat) {
    && i < |entities| && EntityKey(entities[i].key) == s
    && forall j :: 0 <= j < |entities| && EntityKey(entities[j].key) == s ==>
      entities[j].updatedAt < entities[i].updatedAt || (entities[j].updatedAt == entities[i].updatedAt && j <= i)
  }

  lemma {:induction false} NewestIsLast(entities: seq<Row>, s: string) returns (i: nat)
    requires s in NewestByKey(entities)
    ensures IsNewestAt(entities, s, i) && NewestByKey(entities)[s] == entities[i]
  {
    var n := |entities| - 1;
    var before := NewestByKey(entities[..n]);
    assert entities == entities[..n] + [entities[n]];
    if EntityKey(entities[n].key) == s && (s !in before || entities[n].updatedAt >= before[s].updatedAt) {
      i := n;
      NewestLast(entities, s);
    } else {
      i := NewestIsLast(entities[..n], s);
      NewestStays(entities, s, i);
    }
  }

  lemma NewestLast(entities: seq<Row>, s: string)
    requires entities != [] && EntityKey(entities[|entities| - 1].key) == s
    requires var before := NewestByKey(entities[..|entities| - 1]); s !in before || entities[|entities| - 1].updatedAt >= before[s].updatedAt
    ensures IsNewestAt(entities, s, |entities| - 1)
  {
    var n := |entities| - 1;
    forall j | 0 <= j < n && EntityKey(entities[j].key) == s ensures entities[j].updatedAt <= entities[n].updatedAt { assert entities[..n][j] in entities[..n]; }
  }

  lemma NewestStays(entities: seq<Row>, s: string, i: nat)
    requires entities != [] && IsNewestAt(entities[..|entities| - 1], s, i)
    requires var e := entities[|entities| - 1]; EntityKey(e.key) == s ==> e.updatedAt < entities[i].updatedAt
    ensures IsNewestAt(entities, s, i)
  {
    var n := |entities| - 1;
    forall j | 0 <= j < n ensures entities[..n][j] == entities[j] {}
  }

  /** Only a page that comes without its text, with the hash of a page that has one. */
  predicate KeepsText(t: Table, local: Option<Row>, copy: Row) {
    t == Pages && local.Some? && local.value.blocks != [] && copy.blocks == [] && copy.contentHash.Some? && copy.contentHash == local.value.contentHash
  }

  /** The received copy, in all its fields; the text alone may be the local one. */
  predicate IsCopyOf(t: Table, local: Option<Row>, copy: Row, now: Row) {
    now.(blocks := copy.blocks) == copy && now.blocks == if KeepsText(t, local, copy) then local.value.blocks else copy.blocks
  }

  /** Copy i is the one that counts for a row. */
  ghost predicate Decides(t: Table, entities: seq<Row>, id: RowId, i: nat) {
    IsNewestAt(entities, EntityKey(id.key), i) && id == RowId(t, entities[i].key)
  }

  /** What a pull leaves of a row: the copy that counts, unless the local row is as new and its key not forced; without one, the local row. */
  ghost predicate PullOutcome(rows: Tables, t: Table, entities: seq<Row>, force: set<EntityId>, id: RowId, now: Option<Row>) {
    var local := Lookup(rows, id);
    && (forall i: nat :: Decides(t, entities, id, i) ==>
      if local.Some? && NameOf(id) !in force && entities[i].updatedAt <= local.value.updatedAt then now == local
      else now.Some? && IsCopyOf(t, local, entities[i], now.value))
    && ((forall i: nat :: !Decides(t, entities, id, i)) ==> now == local)
  }

  lemma PullLeaves(rows: Tables, t: Table, entities: seq<Row>, force: set<EntityId>, id: RowId)
    ensures PullOutcome(rows, t, entities, force, id, Lookup(Applied(rows, t, entities, force), id))
  {
    AppliedAt(rows, t, entities, force, id);
    var remote, forced := RemoteFor(t, entities, id), NameOf(id) in force;
    if remote.Some? {
      var k := RemoteDecides(t, entities, id);
      MergedIsCopy(t, Lookup(rows, id), remote.value, forced);
    }
    forall i: nat | Decides(t, entities, id, i) ensures remote == Some(entities[i]) { DecidesIsRemote(t, entities, id, i); }
  }

  lemma MergedIsCopy(t: Table, local: Option<Row>, copy: Row, forced: bool)
    ensures var now := Merged(t, local, copy, forced);
      if local.Some? && !forced && copy.updatedAt <= local.value.updatedAt then now == local.value else IsCopyOf(t, local, copy, now)
  {
  }

  lemma RemoteDecides(t: Table, entities: seq<Row>, id: RowId) returns (k: nat)
    requires RemoteFor(t, entities, id).Some?
    ensures Decides(t, entities, id, k)
  {
    k := NewestIsLast(entities, EntityKey(id.key));
  }

  lemma DecidesIsRemote(t: Table, entities: seq<Row>, id: RowId, i: nat)
    requires Decides(t, entities, id, i)
    ensures RemoteFor(t, entities, id) == Some(entities[i])
  {
    assert entities[i] in entities;
    var k := NewestIsLast(entities, EntityKey(id.key));
    assert k == i;
  }

  /** Every copy that came under the text key of this row is of this row. */
  ghost predicate Unambiguous(entities: seq<Row>, key: PrimaryKey) { forall e :: e in entities && EntityKey(e.key) == EntityKey(key) ==> e.key == key }

  ghost predicate Brings(entities: seq<Row>, key: PrimaryKey) { exists e :: e in entities && e.key == key }

  /** A received copy of the row than which no other received one is newer. */
  ghost predicate IsNewestCopy(entities: seq<Row>, key: PrimaryKey, copy: Row) {
    copy in entities && copy.key == key && forall e :: e in entities && e.key == key ==> e.updatedAt <= copy.updatedAt
  }

  /** The row is the server's newest copy, whatever was here. */
  ghost predicate IsServers(t: Table, local: Option<Row>, entities: seq<Row>, key: PrimaryKey, now: Option<Row>) {
    exists copy :: IsNewestCopy(entities, key, copy) && now.Some? && IsCopyOf(t, local, copy, now.value)
  }

  lemma OneDecides(t: Table, entities: seq<Row>, key: PrimaryKey) returns (i: nat)
    requires Brings(entities, key) && Unambiguous(entities, key)
    ensures Decides(t, entities, RowId(t, key), i) && IsNewestCopy(entities, key, entities[i])
  {
    var e :| e in entities && e.key == key;
    i := NewestIsLast(entities, EntityKey(key));
    assert entities[i] in entities;
    forall x | x in entities && x.key == key ensures x.updatedAt <= entities[i].updatedAt { var j :| 0 <= j < |entities| && entities[j] == x; }
  }

  /** A forced key takes the server's copy, older or not. */
  lemma ForcedPullDecides(rows: Tables, t: Table, entities: seq<Row>, force: set<EntityId>, key: PrimaryKey)
    requires EntityId(t, EntityKey(key)) in force && Brings(entities, key) && Unambiguous(entities, key)
    ensures IsServers(t, Lookup(rows, RowId(t, key)), entities, key, Lookup(Applied(rows, t, entities, force), RowId(t, key)))
  {
    var i := OneDecides(t, entities, key);
    PullLeaves(rows, t, entities, force, RowId(t, key));
  }

  /** Any other key holds a row at least as new as every copy that came. */
  lemma PullIsNotBehind(rows: Tables, t: Table, entities: seq<Row>, force: set<EntityId>, e: Row)
    requires e in entities && Unambiguous(entities, e.key)
    ensures var now := Lookup(Applied(rows, t, entities, force), RowId(t, e.key)); now.Some? && now.value.updatedAt >= e.updatedAt
  {
    var i := OneDecides(t, entities, e.key);
    PullLeaves(rows, t, entities, force, RowId(t, e.key));
  }

  ghost predicate ValidRow(id: RowId, row: Option<Row>) {
    row.Some? ==> row.value.key == id.key && FitsTable(id.table, id.key)
  }

  lemma AppliedRowValid(rows: Tables, t: Table, entities: seq<Row>, force: set<EntityId>, id: RowId)
    requires ValidRow(id, Lookup(rows, id)) && forall e :: e in entities ==> FitsTable(t, e.key)
    ensures ValidRow(id, Lookup(Applied(rows, t, entities, force), id))
    ensures Lookup(rows, id).Some? ==> Lookup(Applied(rows, t, entities, force), id).Some?
  {
    AppliedAt(rows, t, entities, force, id);
  }

  lemma ValidByRow(rows: Tables)
    requires forall id {:trigger Lookup(rows, id)} :: ValidRow(id, Lookup(rows, id))
    ensures ValidTables(rows)
  {
    forall id | id in rows ensures rows[id].key == id.key && FitsTable(id.table, id.key) {
      assert ValidRow(id, Lookup(rows, id));
    }
  }

  lemma SameByRow(a: Tables, b: Tables)
    requires forall id {:trigger Lookup(a, id)} :: Lookup(a, id) == Lookup(b, id)
    ensures a == b
  {
    forall id | id in a ensures id in b && a[id] == b[id] { assert Lookup(a, id) == Lookup(b, id); }
    forall id | id in b ensures id in a { assert Lookup(a, id) == Lookup(b, id); }
  }

  lemma KeysByRow(a: Tables, b: Tables)
    requires forall id {:trigger Lookup(a, id)} :: Lookup(a, id).Some? ==> Lookup(b, id).Some?
    ensures a.Keys <= b.Keys
  {
    forall id | id in a ensures id in b { assert Lookup(a, id).Some?; }
  }

  lemma AppliedValid(rows: Tables, t: Table, entities: seq<Row>, force: set<EntityId>)
    requires ValidTables(rows) && forall e :: e in entities ==> FitsTable(t, e.key)
    ensures ValidTables(Applied(rows, t, entities, force))
    ensures rows.Keys <= Applied(rows, t, entities, force).Keys
  {
    var after := Applied(rows, t, entities, force);
    forall id: RowId ensures ValidRow(id, Lookup(after, id)) && (Lookup(rows, id).Some? ==> Lookup(after, id).Some?) {
      AppliedRowValid(rows, t, entities, force, id);
    }
    ValidByRow(after);
    KeysByRow(rows, after);
  }

  // ---------- runs of pulls ----------

  datatype Pull = Pull(table: Table, entities: seq<Row>, force: set<EntityId>)

  function Pulled(rows: Tables, pulls: seq<Pull>): Tables {
    if pulls == [] then rows
    else
      var n := |pulls| - 1;
      Applied(Pulled(rows, pulls[..n]), pulls[n].table, pulls[n].entities, pulls[n].force)
  }

  /** Everything that arrived. */
  ghost function Received(pulls: seq<Pull>): set<(Table, Row)> {
    set p, e | p in pulls && e in p.entities :: (p.table, e)
  }

  /** Rows that arrived are told apart by their text keys, and a row's version determines its content. */
  ghost predicate Coherent(rows: Tables, all: set<(Table, Row)>) {
    && (forall a, b :: a in all && b in all && a.0 == b.0 && EntityKey(a.1.key) == EntityKey(b.1.key) ==>
          (a.1.key == b.1.key && (a.1.updatedAt == b.1.updatedAt ==> a.1 == b.1)))
    && (forall a :: a in all && RowId(a.0, a.1.key) in rows && rows[RowId(a.0, a.1.key)].updatedAt == a.1.updatedAt ==> rows[RowId(a.0, a.1.key)] == a.1)
  }

  /** The row a set of received copies leaves under a key: the local one or a received one, and none of these is newer. */
  ghost predicate IsLatestRow(local: Option<Row>, all: set<(Table, Row)>, id: RowId, result: Option<Row>) {
    && (result.None? ==> local.None? && forall a :: a in all ==> RowId(a.0, a.1.key) != id)
    && (result.Some? ==>
      && (result == local || ((id.table, result.value) in all && result.value.key == id.key))
      && (local.Some? ==> local.value.updatedAt <= result.value.updatedAt)
      && (forall a :: a in all && RowId(a.0, a.1.key) == id ==> a.1.updatedAt <= result.value.updatedAt))
  }

  lemma LatestAfterPull(rows: Tables, mid: Tables, before: set<(Table, Row)>, p: Pull, all: set<(Table, Row)>, id: RowId)
    requires p.force == {} && p.table != Pages
    requires all == before + set e | e in p.entities :: (p.table, e)
    requires Coherent(rows, all)
    requires IsLatestRow(Lookup(rows, id), before, id, Lookup(mid, id))
    ensures IsLatestRow(Lookup(rows, id), all, id, Lookup(Applied(mid, p.table, p.entities, p.force), id))
  {
    var remote := RemoteFor(p.table, p.entities, id);
    assert forall e :: e in p.entities ==> (p.table, e) in all;
    forall e | e in p.entities && RowId(p.table, e.key) == id
      ensures remote.Some? && remote.value.updatedAt >= e.updatedAt {
      WinnerIsNewest(rows, p, all, id, e);
    }
    AppliedAt(mid, p.table, p.entities, p.force, id);
    LatestWith(Lookup(rows, id), Lookup(mid, id), before, p.table, p.entities, id, remote, all);
  }

  lemma WinnerIsNewest(rows: Tables, p: Pull, all: set<(Table, Row)>, id: RowId, e: Row)
    requires forall e :: e in p.entities ==> (p.table, e) in all
    requires Coherent(rows, all) && e in p.entities && RowId(p.table, e.key) == id
    ensures RemoteFor(p.table, p.entities, id).Some? && RemoteFor(p.table, p.entities, id).value.updatedAt >= e.updatedAt
  {
    var winner := NewestByKey(p.entities)[EntityKey(e.key)];
    assert (p.table, winner) in all && (p.table, e) in all;
  }

  lemma LatestWith(start: Option<Row>, local: Option<Row>, before: set<(Table, Row)>, t: Table, entities: seq<Row>, id: RowId, remote: Option<Row>, all: set<(Table, Row)>)
    requires IsLatestRow(start, before, id, local) && t != Pages
    requires forall a :: a in all <==> a in before || (a.0 == t && a.1 in entities)
    requires remote.Some? ==> remote.value in entities && id == RowId(t, remote.value.key)
    requires forall e :: e in entities && RowId(t, e.key) == id ==> remote.Some? && remote.value.updatedAt >= e.updatedAt
    ensures IsLatestRow(start, all, id, if remote.None? then local else Some(Merged(t, local, remote.value, false)))
  {
    var r := if remote.None? then local else Some(Merged(t, local, remote.value, false));
    forall a | a in all && RowId(a.0, a.1.key) == id ensures r.Some? && a.1.updatedAt <= r.value.updatedAt {
      if a !in before { assert a.1 in entities; }
    }
    if remote.Some? { assert (t, remote.value) in all; }
  }

  lemma {:induction false} PulledIsLatest(rows: Tables, pulls: seq<Pull>, id: RowId)
    requires forall p :: p in pulls ==> p.force == {} && p.table != Pages
    requires Coherent(rows, Received(pulls))
    ensures IsLatestRow(Lookup(rows, id), Received(pulls), id, Lookup(Pulled(rows, pulls), id))
  {
    if pulls != [] {
      var n := |pulls| - 1;
      assert pulls == pulls[..n] + [pulls[n]];
      assert Received(pulls) == Received(pulls[..n]) + set e | e in pulls[n].entities :: (pulls[n].table, e);
      PulledIsLatest(rows, pulls[..n], id);
      LatestAfterPull(rows, Pulled(rows, pulls[..n]), Received(pulls[..n]), pulls[n], Received(pulls), id);
    }
  }

  lemma LatestIsUnique(rows: Tables, all: set<(Table, Row)>, id: RowId, a: Option<Row>, b: Option<Row>)
    requires Coherent(rows, all)
    requires IsLatestRow(Lookup(rows, id), all, id, a) && IsLatestRow(Lookup(rows, id), all, id, b)
    ensures a == b
  {
  }

  /**
   * Unforced pulls are a join: whatever the order, the grouping into responses and the repetitions, the same rows leave the
   * same non-page tables.
   */
  lemma PullsAreAJoin(rows: Tables, pulls: seq<Pull>, others: seq<Pull>)
    requires forall p :: p in pulls || p in others ==> p.force == {} && p.table != Pages
    requires Received(pulls) == Received(others)
    requires Coherent(rows, Received(pulls))
    ensures Pulled(rows, pulls) == Pulled(rows, others)
  {
    var a, b := Pulled(rows, pulls), Pulled(rows, others);
    forall id: RowId ensures Lookup(a, id) == Lookup(b, id) {
      SameRow(rows, pulls, others, id);
    }
    SameByRow(a, b);
  }

  lemma SameRow(rows: Tables, pulls: seq<Pull>, others: seq<Pull>, id: RowId)
    requires forall p :: p in pulls || p in others ==> p.force == {} && p.table != Pages
    requires Received(pulls) == Received(others) && Coherent(rows, Received(pulls))
    ensures Lookup(Pulled(rows, pulls), id) == Lookup(Pulled(rows, others), id)
  {
    PulledIsLatest(rows, pulls, id);
    PulledIsLatest(rows, others, id);
    LatestIsUnique(rows, Received(pulls), id, Lookup(Pulled(rows, pulls), id), Lookup(Pulled(rows, others), id));
  }

  /** What two pulls of one row each leave under its key. */
  function TwiceMerged(t: Table, local: Option<Row>, a: Row, b: Row): Row { Merged(t, Some(Merged(t, local, a, false)), b, false) }

  lemma TwoPulls(rows: Tables, t: Table, a: Row, b: Row)
    requires a.key == b.key
    ensures var id := RowId(t, a.key);
      Applied(Applied(rows, t, [a], {}), t, [b], {}) == rows[id := TwiceMerged(t, Lookup(rows, id), a, b)]
  {
    var id := RowId(t, a.key);
    var first := Merged(t, Lookup(rows, id), a, false);
    OnePull(rows, t, a);
    OnePull(rows[id := first], t, b);
    Overwritten(rows, id, first, TwiceMerged(t, Lookup(rows, id), a, b));
  }

  lemma Overwritten(rows: Tables, id: RowId, x: Row, y: Row)
    ensures rows[id := x][id := y] == rows[id := y] && Lookup(rows[id := x], id) == Some(x)
  {
  }

  lemma OnePull(rows: Tables, t: Table, a: Row)
    ensures var id := RowId(t, a.key); Applied(rows, t, [a], {}) == rows[id := Merged(t, Lookup(rows, id), a, false)]
  {
    var id := RowId(t, a.key);
    var after := Applied(rows, t, [a], {});
    assert a in [a];
    forall x: RowId ensures Lookup(after, x) == Lookup(rows[id := Merged(t, Lookup(rows, id), a, false)], x) { AppliedAt(rows, t, [a], {}, x); }
    SameByRow(after, rows[id := Merged(t, Lookup(rows, id), a, false)]);
  }

  /**
   * The order of two unforced pulls of one row matters exactly when the two copies differ under one stamp and both are newer
   * than the local row, if there is one.
   */
  lemma OrderMattersIff(rows: Tables, t: Table, a: Row, b: Row)
    requires t != Pages && a.key == b.key
    ensures var id := RowId(t, a.key);
      Applied(Applied(rows, t, [a], {}), t, [b], {}) != Applied(Applied(rows, t, [b], {}), t, [a], {})
      <==> a != b && a.updatedAt == b.updatedAt && (id in rows ==> rows[id].updatedAt < a.updatedAt)
  {
    var id := RowId(t, a.key);
    TwoPulls(rows, t, a, b);
    TwoPulls(rows, t, b, a);
    MergesDiffer(t, Lookup(rows, id), a, b);
    DifferAt(rows, id, TwiceMerged(t, Lookup(rows, id), a, b), TwiceMerged(t, Lookup(rows, id), b, a));
  }

  lemma DifferAt(rows: Tables, id: RowId, x: Row, y: Row)
    ensures rows[id := x] == rows[id := y] <==> x == y
  {
    assert rows[id := x][id] == x && rows[id := y][id] == y;
  }

  lemma MergesDiffer(t: Table, local: Option<Row>, a: Row, b: Row)
    requires t != Pages
    ensures TwiceMerged(t, local, a, b) != TwiceMerged(t, local, b, a)
      <==> a != b && a.updatedAt == b.updatedAt && (local.Some? ==> local.value.updatedAt < a.updatedAt)
  {
  }

  /** An unforced pull never goes back to an older copy, in any table. */
  lemma PullNeverOlder(rows: Tables, p: Pull, id: RowId)
    requires id in rows && NameOf(id) !in p.force
    ensures id in Applied(rows, p.table, p.entities, p.force)
    ensures var now := Applied(rows, p.table, p.entities, p.force)[id];
      now == rows[id] || now.updatedAt > rows[id].updatedAt
  {
    AppliedAt(rows, p.table, p.entities, p.force, id);
  }

  lemma {:induction false} PullsNeverOlder(rows: Tables, pulls: seq<Pull>, id: RowId)
    requires id in rows && forall p :: p in pulls ==> NameOf(id) !in p.force
    ensures id in Pulled(rows, pulls)
    ensures Pulled(rows, pulls)[id] == rows[id] || Pulled(rows, pulls)[id].updatedAt > rows[id].updatedAt
  {
    if pulls != [] {
      var n := |pulls| - 1;
      PullsNeverOlder(rows, pulls[..n], id);
      PullNeverOlder(Pulled(rows, pulls[..n]), pulls[n], id);
    }
  }

  /** The pull brings a copy of the row. */
  ghost predicate BringsTo(p: Pull, id: RowId) { p.table == id.table && Brings(p.entities, id.key) }

  lemma NotBrought(rows: Tables, p: Pull, id: RowId)
    requires !BringsTo(p, id)
    ensures Lookup(Applied(rows, p.table, p.entities, p.force), id) == Lookup(rows, id)
  {
    PullLeaves(rows, p.table, p.entities, p.force, id);
    forall i: nat ensures !Decides(p.table, p.entities, id, i) { if i < |p.entities| { assert p.entities[i] in p.entities; } }
  }

  ghost predicate ForcesAndBrings(p: Pull, id: RowId) { NameOf(id) in p.force && BringsTo(p, id) }

  /** The same row, or one with a later stamp. */
  predicate SameOrNewer(row: Option<Row>, now: Option<Row>) { now == row || (row.Some? && now.Some? && now.value.updatedAt > row.value.updatedAt) }

  /** The row after the first m pulls. */
  function RowAfter(rows: Tables, pulls: seq<Pull>, id: RowId): nat -> Option<Row> {
    (m: nat) => if m <= |pulls| then Lookup(Pulled(rows, pulls[..m]), id) else None
  }

  lemma NewerThrough(row: nat -> Option<Row>, k: nat, n: nat)
    requires k <= n && row(k).Some? && forall m: nat :: k <= m < n && row(m).Some? ==> SameOrNewer(row(m), row(m + 1))
    ensures SameOrNewer(row(k), row(n))
  {
    for m := k to n
      invariant SameOrNewer(row(k), row(m))
    {
      assert row(m).Some?;
      StillNewer(row(k), row(m), row(m + 1));
    }
  }

  lemma SameThrough(row: nat -> Option<Row>, k: nat, n: nat)
    requires k <= n && forall m: nat :: k <= m < n ==> row(m) == row(m + 1)
    ensures row(k) == row(n)
  {
    for m := k to n
      invariant row(k) == row(m)
    {
    }
  }

  lemma AfterwardsNewer(rows: Tables, pulls: seq<Pull>, k: nat, id: RowId)
    requires k <= |pulls| && forall j :: k <= j < |pulls| ==> !ForcesAndBrings(pulls[j], id)
    requires RowAfter(rows, pulls, id)(k).Some?
    ensures SameOrNewer(RowAfter(rows, pulls, id)(k), RowAfter(rows, pulls, id)(|pulls|))
  {
    var row := RowAfter(rows, pulls, id);
    forall m: nat | k <= m < |pulls| && row(m).Some? ensures SameOrNewer(row(m), row(m + 1)) { OneMoreNewer(rows, pulls, m, id); }
    NewerThrough(row, k, |pulls|);
  }

  lemma PulledStep(rows: Tables, pulls: seq<Pull>, m: nat)
    requires m < |pulls|
    ensures Pulled(rows, pulls[..m + 1]) == Applied(Pulled(rows, pulls[..m]), pulls[m].table, pulls[m].entities, pulls[m].force)
  {
    assert pulls[..m + 1][..m] == pulls[..m];
  }

  lemma OneMoreNewer(rows: Tables, pulls: seq<Pull>, m: nat, id: RowId)
    requires m < |pulls| && RowAfter(rows, pulls, id)(m).Some? && !ForcesAndBrings(pulls[m], id)
    ensures SameOrNewer(RowAfter(rows, pulls, id)(m), RowAfter(rows, pulls, id)(m + 1))
  {
    PulledStep(rows, pulls, m);
    OnePullNewer(Pulled(rows, pulls[..m]), pulls[m], id);
  }

  lemma StillNewer(a: Option<Row>, b: Option<Row>, c: Option<Row>)
    requires SameOrNewer(a, b) && SameOrNewer(b, c)
    ensures SameOrNewer(a, c)
  {
  }

  lemma OnePullNewer(rows: Tables, p: Pull, id: RowId)
    requires !ForcesAndBrings(p, id) && id in rows
    ensures SameOrNewer(Lookup(rows, id), Lookup(Applied(rows, p.table, p.entities, p.force), id))
  {
    if !BringsTo(p, id) { NotBrought(rows, p, id); } else { PullNeverOlder(rows, p, id); }
  }

  lemma AfterwardsSame(rows: Tables, pulls: seq<Pull>, k: nat, id: RowId)
    requires k <= |pulls| && forall j :: k <= j < |pulls| ==> !BringsTo(pulls[j], id)
    ensures RowAfter(rows, pulls, id)(k) == RowAfter(rows, pulls, id)(|pulls|)
  {
    var row := RowAfter(rows, pulls, id);
    forall m: nat | k <= m < |pulls| ensures row(m) == row(m + 1) { OneMoreSame(rows, pulls, m, id); }
    SameThrough(row, k, |pulls|);
  }

  lemma OneMoreSame(rows: Tables, pulls: seq<Pull>, m: nat, id: RowId)
    requires m < |pulls| && !BringsTo(pulls[m], id)
    ensures RowAfter(rows, pulls, id)(m) == RowAfter(rows, pulls, id)(m + 1)
  {
    PulledStep(rows, pulls, m);
    NotBrought(Pulled(rows, pulls[..m]), pulls[m], id);
  }

  /** The forced pull itself. */
  lemma ForcedAt(rows: Tables, pulls: seq<Pull>, k: nat, id: RowId) returns (decided: Option<Row>)
    requires k < |pulls| && ForcesAndBrings(pulls[k], id) && Unambiguous(pulls[k].entities, id.key)
    ensures decided == RowAfter(rows, pulls, id)(k + 1) && decided.Some?
    ensures IsServers(id.table, RowAfter(rows, pulls, id)(k), pulls[k].entities, id.key, decided)
  {
    var p := pulls[k];
    decided := RowAfter(rows, pulls, id)(k + 1);
    PulledStep(rows, pulls, k);
    ForcedPullDecides(Pulled(rows, pulls[..k]), p.table, p.entities, p.force, id.key);
  }

  /**
   * The last forced pull that brings a row decides it: the row becomes the server's newest copy, and afterwards only gives way to
   * newer ones; it stays exactly that copy if no later pull brings the row.
   */
  lemma LastForcedPullDecides(rows: Tables, pulls: seq<Pull>, k: nat, id: RowId) returns (decided: Option<Row>)
    requires k < |pulls| && ForcesAndBrings(pulls[k], id) && Unambiguous(pulls[k].entities, id.key)
    requires forall j :: k < j < |pulls| ==> !ForcesAndBrings(pulls[j], id)
    ensures IsServers(id.table, RowAfter(rows, pulls, id)(k), pulls[k].entities, id.key, decided)
    ensures SameOrNewer(decided, RowAfter(rows, pulls, id)(|pulls|))
    ensures (forall j :: k < j < |pulls| ==> !BringsTo(pulls[j], id)) ==> RowAfter(rows, pulls, id)(|pulls|) == decided
  {
    decided := ForcedAt(rows, pulls, k, id);
    Afterwards(rows, pulls, k + 1, id, decided);
  }

  lemma Afterwards(rows: Tables, pulls: seq<Pull>, k: nat, id: RowId, before: Option<Row>)
    requires k <= |pulls| && before.Some? && before == RowAfter(rows, pulls, id)(k)
    requires forall j :: k <= j < |pulls| ==> !ForcesAndBrings(pulls[j], id)
    ensures SameOrNewer(before, RowAfter(rows, pulls, id)(|pulls|))
    ensures (forall j :: k <= j < |pulls| ==> !BringsTo(pulls[j], id)) ==> RowAfter(rows, pulls, id)(|pulls|) == before
  {
    AfterwardsNewer(rows, pulls, k, id);
    if forall j :: k <= j < |pulls| ==> !BringsTo(pulls[j], id) { AfterwardsSame(rows, pulls, k, id); }
  }

  /** A text that a page may hold: the one it started with, or one received with the same content hash. */
  ghost predicate TextFor(rows: Tables, pulls: seq<Pull>, id: RowId, hash: string, text: seq<string>) {
    || (id in rows && text == rows[id].blocks)
    || exists a :: a in Received(pulls) && RowId(a.0, a.1.key) == id && a.1.contentHash == Some(hash) && a.1.blocks == text
  }

  lemma TextStays(rows: Tables, p: Pull, id: RowId, hash: string)
    requires id.table == Pages && id in rows && rows[id].blocks != [] && rows[id].contentHash == Some(hash)
    requires Lookup(Applied(rows, p.table, p.entities, p.force), id).Some?
    requires Lookup(Applied(rows, p.table, p.entities, p.force), id).value.contentHash == Some(hash)
    ensures var now := Lookup(Applied(rows, p.table, p.entities, p.force), id).value.blocks;
      now != [] && (now == rows[id].blocks || exists e :: e in p.entities && e.key == id.key && p.table == id.table && e.contentHash == Some(hash) && e.blocks == now)
  {
    AppliedAt(rows, p.table, p.entities, p.force, id);
    var remote := RemoteFor(p.table, p.entities, id);
    if remote.Some? { assert remote.value in p.entities; }
  }

  ghost predicate HasHash(rows: Tables, id: RowId, hash: string) {
    Lookup(rows, id).Some? && Lookup(rows, id).value.contentHash == Some(hash)
  }

  /** The page is there, with a text it may hold. */
  ghost predicate HasText(rows: Tables, pulls: seq<Pull>, id: RowId, hash: string, now: Tables) {
    Lookup(now, id).Some? && Lookup(now, id).value.blocks != [] && TextFor(rows, pulls, id, hash, Lookup(now, id).value.blocks)
  }

  lemma HasTextStep(rows: Tables, pulls: seq<Pull>, id: RowId, hash: string, mid: Tables, p: Pull)
    requires id.table == Pages && pulls != [] && p == pulls[|pulls| - 1]
    requires HasHash(mid, id, hash) && HasText(rows, pulls[..|pulls| - 1], id, hash, mid)
    requires HasHash(Applied(mid, p.table, p.entities, p.force), id, hash)
    ensures HasText(rows, pulls, id, hash, Applied(mid, p.table, p.entities, p.force))
  {
    TextStays(mid, p, id, hash);
    TextComes(rows, pulls, id, hash, mid[id].blocks, Lookup(Applied(mid, p.table, p.entities, p.force), id).value.blocks);
  }

  /** The page's content hash is the same after every pull of the run. */
  ghost predicate HashStays(rows: Tables, pulls: seq<Pull>, id: RowId, hash: string) {
    HasHash(Pulled(rows, pulls), id, hash) && (pulls != [] ==> HashStays(rows, pulls[..|pulls| - 1], id, hash))
  }

  /** While a page's content hash stays the same, no pull, forced or not, takes its text away. */
  lemma {:induction false} PageKeepsItsText(rows: Tables, pulls: seq<Pull>, id: RowId, hash: string)
    requires id.table == Pages && id in rows && rows[id].blocks != []
    requires HashStays(rows, pulls, id, hash)
    ensures HasText(rows, pulls, id, hash, Pulled(rows, pulls))
  {
    if pulls != [] {
      var init := pulls[..|pulls| - 1];
      PageKeepsItsText(rows, init, id, hash);
      HasTextStep(rows, pulls, id, hash, Pulled(rows, init), pulls[|pulls| - 1]);
    }
  }

  lemma TextComes(rows: Tables, pulls: seq<Pull>, id: RowId, hash: string, before: seq<string>, now: seq<string>)
    requires pulls != [] && TextFor(rows, pulls[..|pulls| - 1], id, hash, before)
    requires var p := pulls[|pulls| - 1];
      now == before || exists e :: e in p.entities && e.key == id.key && p.table == id.table && e.contentHash == Some(hash) && e.blocks == now
    ensures TextFor(rows, pulls, id, hash, now)
  {
    var p := pulls[|pulls| - 1];
    if e :| e in p.entities && e.key == id.key && p.table == id.table && e.contentHash == Some(hash) && e.blocks == now {
      assert (p.table, e) in Received(pulls);
    } else {
      assert forall a :: a in Received(pulls[..|pulls| - 1]) ==> a in Received(pulls);
    }
  }
}
