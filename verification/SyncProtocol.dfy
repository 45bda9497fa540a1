module SyncProtocol {
  // The sync loop as a state machine. Each step is one atomic action: a transaction on the local store, the request leaving or
  // the response arriving. Local writes, other pulls and crashes may come between any two steps, and the server may answer
  // anything. `saved` is the last version written locally per row, `answered` the versions that were in an answered push,
  // `forced` every key a restore was ever allowed to overwrite; the protocol itself never reads these three.

  import opened Options
  import opened SyncKeys
  import opened SyncApply
  import opened SyncBatch

  const MAX_ROUNDS := 500

  /** What the server sends back. Rejections of tables this version does not know are only logged, so they are not here. */
  datatype Response = Response(cursor: string, hasMore: bool, changes: map<Table, seq<Row>>, rejected: set<EntityId>)

  /** The variables of one run of the loop. */
  datatype Run = Run(cfg: Config, cursor: Option<string>, restore: set<EntityId>, restoreStarted: bool, round: nat)

  datatype Phase =
    | Idle
    | Ready
    | Reading(snapshot: seq<OutboxRow>, view: Tables, next: nat)
    | Sending(batch: Batch, cursor: Option<string>)   // the request: what is pushed, and from where to pull
    | Applying(batch: Batch, response: Response, next: nat)
    | Deciding(batch: Batch, response: Response, changed: set<EntityId>)

  datatype State = State(
    db: Db, kvCursor: Option<string>, kvRestore: set<EntityId>, run: Run, phase: Phase,
    saved: map<RowId, Row>, answered: set<(RowId, Row)>, forced: set<EntityId>)

  datatype Step =
    | Save(table: Table, row: Row)
    | PullElsewhere(table: Table, entities: seq<Row>)
    | Start(cfg: Config)
    | Snapshot
    | ReadTable
    | CloseBatch
    | Answer(response: Response)
    | ApplyTable
    | Settle
    | Decide
    | Crash

  /** Rows of one table out of the store. */
  function TableRows(rows: Tables, t: Table): Tables { map id | id in rows && id.table == t :: rows[id] }

  function ItemId(item: Item): RowId { RowId(item.id.table, item.key) }

  function AnsweredBy(items: seq<Item>): set<(RowId, Row)> { set i | 0 <= i < |items| :: (ItemId(items[i]), items[i].entity) }

  function ChangesOf(r: Response, t: Table): seq<Row> { if t in r.changes then r.changes[t] else [] }

  predicate TypedResponse(r: Response) {
    forall t :: t in r.changes ==> forall e :: e in r.changes[t] ==> FitsTable(t, e.key)
  }

  /** When a step can happen. Rows have the shape of their table. */
  predicate Enabled(s: State, step: Step) {
    match step
    case Save(t, row) => FitsTable(t, row.key)
    case PullElsewhere(t, entities) => forall e :: e in entities ==> FitsTable(t, e.key)
    case Start(_) => s.phase.Idle?
    case Snapshot => s.phase.Ready?
    case ReadTable => s.phase.Reading? && s.phase.next < |TABLE_ORDER|
    case CloseBatch => s.phase.Reading? && s.phase.next == |TABLE_ORDER|
    case Answer(r) => s.phase.Sending? && TypedResponse(r)
    case ApplyTable => s.phase.Applying? && s.phase.next < |TABLE_ORDER|
    case Settle => s.phase.Applying? && s.phase.next == |TABLE_ORDER|
    case Decide => s.phase.Deciding?
    case Crash => true
  }

  /** The end of a round: start a restore, give up, stop, or go on. */
  function Decided(s: State, b: Batch, r: Response, changed: set<EntityId>): State {
    var run := s.run;
    var newlyRejected := r.rejected - changed;
    var more := if run.round + 1 < MAX_ROUNDS then Ready else Idle;
    if newlyRejected != {} && !run.restoreStarted then
      var restore := run.restore + newlyRejected;
      s.(run := run.(restore := restore, restoreStarted := true, cursor := None, round := run.round + 1),
         kvRestore := restore, kvCursor := None, forced := s.forced + restore, phase := more)
    else if r.hasMore && Some(r.cursor) == run.cursor && b.items == [] then s.(phase := Idle)
    else
      var next := s.(run := run.(cursor := Some(r.cursor), round := run.round + 1), kvCursor := Some(r.cursor));
      if !r.hasMore && !b.hasMore then next.(kvRestore := {}, phase := Idle) else next.(phase := more)
  }

  /** The rows of the next table of an answer are applied. */
  function OneApplied(s: State): State
    requires s.phase.Applying? && s.phase.next < |TABLE_ORDER|
  {
    var p := s.phase;
    var t := TABLE_ORDER[p.next];
    s.(db := s.db.(rows := Applied(s.db.rows, t, ChangesOf(p.response, t), s.run.restore)), phase := p.(next := p.next + 1))
  }

  function Do(s: State, step: Step): State
    requires Enabled(s, step)
  {
    match step
    case Save(t, row) => s.(db := Saved(s.db, t, row), saved := s.saved[RowId(t, row.key) := row])
    case PullElsewhere(t, entities) => s.(db := s.db.(rows := Applied(s.db.rows, t, entities, {})))
    case Start(cfg) =>
      s.(run := Run(cfg, s.kvCursor, s.kvRestore, s.kvRestore != {}, 0), forced := s.forced + s.kvRestore, phase := Ready)
    case Snapshot => s.(phase := Reading(s.db.outbox, map[], 0))
    case ReadTable =>
      var p := s.phase;
      s.(phase := Reading(p.snapshot, p.view + TableRows(s.db.rows, TABLE_ORDER[p.next]), p.next + 1))
    case CloseBatch =>
      var b := Collected(s.run.cfg, s.phase.snapshot, s.phase.view);
      s.(db := s.db.(outbox := Without(s.db.outbox, b.invalid)), phase := Sending(b, s.run.cursor))
    case Answer(r) => s.(answered := s.answered + AnsweredBy(s.phase.batch.items), phase := Applying(s.phase.batch, r, 0))
    case ApplyTable => OneApplied(s)
    case Settle =>
      var items := s.phase.batch.items;
      s.(db := s.db.(outbox := Without(s.db.outbox, SettledSeqs(s.db.rows, items))),
         phase := Deciding(s.phase.batch, s.phase.response, ChangedIds(s.db.rows, items)))
    case Decide => Decided(s, s.phase.batch, s.phase.response, s.phase.changed)
    case Crash => s.(phase := Idle)
  }

  /** Local writes use well-formed keys, and every version of a row is stamped later than the one it replaces. */
  predicate Disciplined(s: State, step: Step) {
    step.Save? ==>
      && WellFormed(step.row.key)
      && (RowId(step.table, step.row.key) in s.db.rows ==> s.db.rows[RowId(step.table, step.row.key)].updatedAt < step.row.updatedAt)
  }

  /** A run of enabled, disciplined steps. */
  predicate Possible(s: State, steps: seq<Step>)
    decreases |steps|
  {
    steps == [] || (Enabled(s, steps[0]) && Disciplined(s, steps[0]) && Possible(Do(s, steps[0]), steps[1..]))
  }

  function After(s: State, steps: seq<Step>): State
    requires Possible(s, steps)
    decreases |steps|
  {
    if steps == [] then s else After(Do(s, steps[0]), steps[1..])
  }

  // ---------- what every step keeps ----------

  predicate OlderOrSame(a: Row, b: Row) { a == b || a.updatedAt < b.updatedAt }

  ghost predicate SingleRows(outbox: seq<OutboxRow>) {
    forall a, b :: a in outbox && b in outbox && a.name.Known? && a.name == b.name && a.entityKey == b.entityKey ==> a == b
  }

  /** An outbox row that names a possible primary key has its row. */
  ghost predicate Backed(rows: Tables, row: OutboxRow) {
    row.name.Known? ==>
      var k := PrimaryKeyFromEntityKey(row.name.table, row.entityKey);
      k.Some? ==> RowId(row.name.table, k.value) in rows
  }

  ghost predicate StoreOk(db: Db) {
    && ValidTables(db.rows) && ValidOutbox(db.outbox, db.nextSeq) && SingleRows(db.outbox)
    && forall row :: row in db.outbox ==> Backed(db.rows, row)
  }

  /** The store never falls behind the last local write. */
  ghost predicate UpToDate(rows: Tables, forced: set<EntityId>, id: RowId, row: Row) {
    && id in rows && WellFormed(id.key) && FitsTable(id.table, id.key)
    && (NameOf(id) !in forced ==> OlderOrSame(row, rows[id]))
  }

  /** A version at least as new as the given one was in an answered push. */
  ghost predicate Acknowledged(answered: set<(RowId, Row)>, id: RowId, row: Row) {
    exists v :: (id, v) in answered && OlderOrSame(row, v)
  }

  /** The heart of the protocol: what was written is on the server or still queued. */
  ghost predicate Kept(outbox: seq<OutboxRow>, answered: set<(RowId, Row)>, forced: set<EntityId>, id: RowId, row: Row) {
    NameOf(id) in forced || Acknowledged(answered, id, row) || HasPending(outbox, NameOf(id))
  }

  ghost predicate SeenIn(rows: Tables, forced: set<EntityId>, id: RowId, row: Row) {
    id in rows && (NameOf(id) !in forced ==> OlderOrSame(row, rows[id]))
  }

  ghost predicate ViewOk(rows: Tables, forced: set<EntityId>, view: Tables) {
    forall id :: id in view ==> SeenIn(rows, forced, id, view[id])
  }

  /** The snapshot rows of the tables read so far have their rows in the view. */
  ghost predicate Covered(snapshot: seq<OutboxRow>, view: Tables, next: nat)
    requires next <= |TABLE_ORDER|
  {
    forall row :: row in snapshot && row.name.Known? && row.name.table in TABLE_ORDER[..next] ==> Backed(view, row)
  }

  ghost predicate ItemOk(db: Db, forced: set<EntityId>, item: Item) {
    && PrimaryKeyFromEntityKey(item.id.table, item.id.entityKey) == Some(item.key)
    && SeenIn(db.rows, forced, ItemId(item), item.entity)
    && (forall row :: row in db.outbox && row.seqNo in item.seqs ==> Names(row, item.id))
    && (forall k :: k in item.seqs ==> k < db.nextSeq)
  }

  ghost predicate ItemsOk(db: Db, forced: set<EntityId>, items: seq<Item>) {
    forall i :: 0 <= i < |items| ==> ItemOk(db, forced, items[i])
  }

  ghost predicate PhaseOk(db: Db, forced: set<EntityId>, answered: set<(RowId, Row)>, phase: Phase) {
    match phase
    case Reading(snapshot, view, next) =>
      && next <= |TABLE_ORDER| && snapshot <= db.outbox && ViewOk(db.rows, forced, view) && Covered(snapshot, view, next)
    case Sending(b, _) => ItemsOk(db, forced, b.items)
    case Applying(b, r, next) => next <= |TABLE_ORDER| && TypedResponse(r) && ItemsOk(db, forced, b.items) && AnsweredBy(b.items) <= answered
    case _ => true
  }

  ghost predicate SavedOk(s: State) {
    forall id :: id in s.saved ==> UpToDate(s.db.rows, s.forced, id, s.saved[id]) && Kept(s.db.outbox, s.answered, s.forced, id, s.saved[id])
  }

  /** While a run is under way, the keys it restores are stored, and they are among the forced ones. */
  ghost predicate RestoreOk(s: State) {
    !s.phase.Idle? ==> s.run.restore == s.kvRestore && s.run.restore <= s.forced && (s.run.restoreStarted <==> s.run.restore != {})
  }

  ghost predicate Inv(s: State) {
    StoreOk(s.db) && SavedOk(s) && RestoreOk(s) && PhaseOk(s.db, s.forced, s.answered, s.phase)
  }

  /** Rows are only replaced by newer ones, except under forced keys, and never removed. */
  ghost predicate Advances(rows: Tables, next: Tables, forced: set<EntityId>) {
    forall id :: id in rows ==> SeenIn(next, forced, id, rows[id])
  }

  /** The outbox only gained rows with new numbers. */
  ghost predicate Appends(db: Db, next: Db) {
    && db.outbox <= next.outbox && db.nextSeq <= next.nextSeq
    && forall row :: row in next.outbox && row !in db.outbox ==> db.nextSeq <= row.seqNo
  }

  lemma SeenLater(rows: Tables, next: Tables, forced: set<EntityId>, id: RowId, row: Row)
    requires Advances(rows, next, forced) && SeenIn(rows, forced, id, row)
    ensures SeenIn(next, forced, id, row)
  {
    assert SeenIn(next, forced, id, rows[id]);
  }

  lemma ItemLater(db: Db, next: Db, forced: set<EntityId>, item: Item)
    requires Advances(db.rows, next.rows, forced) && Appends(db, next) && ItemOk(db, forced, item)
    ensures ItemOk(next, forced, item)
  {
    SeenLater(db.rows, next.rows, forced, ItemId(item), item.entity);
    forall row | row in next.outbox && row.seqNo in item.seqs ensures Names(row, item.id) {
      assert row in db.outbox;
    }
  }

  /** What a run has gathered so far stays right while rows advance and the outbox grows. */
  lemma PhaseLater(db: Db, next: Db, forced: set<EntityId>, answered: set<(RowId, Row)>, phase: Phase)
    requires Advances(db.rows, next.rows, forced) && Appends(db, next) && PhaseOk(db, forced, answered, phase)
    ensures PhaseOk(next, forced, answered, phase)
  {
    match phase {
      case Reading(snapshot, view, n) =>
        forall id | id in view ensures SeenIn(next.rows, forced, id, view[id]) {
          SeenLater(db.rows, next.rows, forced, id, view[id]);
        }
      case Sending(b, _) => ItemsLater(db, next, forced, b.items);
      case Applying(b, _, _) => ItemsLater(db, next, forced, b.items);
      case _ =>
    }
  }

  lemma ItemsLater(db: Db, next: Db, forced: set<EntityId>, items: seq<Item>)
    requires Advances(db.rows, next.rows, forced) && Appends(db, next) && ItemsOk(db, forced, items)
    ensures ItemsOk(next, forced, items)
  {
    forall i | 0 <= i < |items| ensures ItemOk(next, forced, items[i]) { ItemLater(db, next, forced, items[i]); }
  }

  // ---------- local writes and pulls ----------

  lemma PendingStays(outbox: seq<OutboxRow>, more: seq<OutboxRow>, id: EntityId)
    requires HasPending(outbox, id) && outbox <= more
    ensures HasPending(more, id)
  {
    var i :| 0 <= i < |outbox| && Names(outbox[i], id);
    assert Names(more[i], id);
  }

  lemma SaveStore(db: Db, t: Table, row: Row)
    requires StoreOk(db) && FitsTable(t, row.key) && WellFormed(row.key)
    ensures StoreOk(Saved(db, t, row)) && Appends(db, Saved(db, t, row))
    ensures HasPending(Saved(db, t, row).outbox, NameOf(RowId(t, row.key)))
  {
    var id := RowId(t, row.key);
    var next := Saved(db, t, row);
    KeyRoundTrip(t, row.key);
    if !HasPending(db.outbox, NameOf(id)) {
      var n := |db.outbox|;
      var added := next.outbox[n];
      assert Names(added, NameOf(id));
      forall a | a in db.outbox ensures !Names(a, NameOf(id)) { var i :| 0 <= i < n && db.outbox[i] == a; }
      assert next.outbox == db.outbox + [added];
      assert Backed(next.rows, added);
      forall a | a in next.outbox && a !in db.outbox ensures a == added {}
    }
    forall a | a in next.outbox ensures Backed(next.rows, a) {
      if a in db.outbox { assert Backed(db.rows, a); }
    }
  }

  lemma SaveKeeps(s: State, t: Table, row: Row)
    requires Inv(s) && Enabled(s, Save(t, row)) && Disciplined(s, Save(t, row))
    ensures Inv(Do(s, Save(t, row)))
  {
    var id := RowId(t, row.key);
    var next := Do(s, Save(t, row));
    SaveStore(s.db, t, row);
    assert Advances(s.db.rows, next.db.rows, s.forced);
    PhaseLater(s.db, next.db, s.forced, s.answered, s.phase);
    forall x | x in next.saved
      ensures UpToDate(next.db.rows, s.forced, x, next.saved[x]) && Kept(next.db.outbox, s.answered, s.forced, x, next.saved[x]) {
      if x != id {
        assert UpToDate(s.db.rows, s.forced, x, s.saved[x]);
        if HasPending(s.db.outbox, NameOf(x)) { PendingStays(s.db.outbox, next.db.outbox, NameOf(x)); }
      }
    }
  }

  lemma PullAdvances(rows: Tables, t: Table, entities: seq<Row>, force: set<EntityId>, forced: set<EntityId>)
    requires ValidTables(rows) && force <= forced && forall e :: e in entities ==> FitsTable(t, e.key)
    ensures Advances(rows, Applied(rows, t, entities, force), forced)
    ensures ValidTables(Applied(rows, t, entities, force))
  {
    var p := Pull(t, entities, force);
    AppliedValid(rows, t, entities, force);
    forall id | id in rows ensures SeenIn(Applied(rows, t, entities, force), forced, id, rows[id]) {
      if NameOf(id) !in force { PullNeverOlder(rows, p, id); }
    }
  }

  /** New rows for the store, the outbox untouched. */
  lemma AdvanceKeeps(s: State, rows: Tables)
    requires Inv(s) && Advances(s.db.rows, rows, s.forced) && ValidTables(rows)
    ensures Inv(s.(db := s.db.(rows := rows)))
  {
    var next := s.(db := s.db.(rows := rows));
    forall a | a in s.db.outbox ensures Backed(rows, a) { assert Backed(s.db.rows, a); }
    PhaseLater(s.db, next.db, s.forced, s.answered, s.phase);
    forall x | x in s.saved ensures UpToDate(rows, s.forced, x, s.saved[x]) {
      assert UpToDate(s.db.rows, s.forced, x, s.saved[x]);
      SeenLater(s.db.rows, rows, s.forced, x, s.saved[x]);
    }
  }

  // ---------- collecting ----------

  lemma ReadTableKeeps(s: State)
    requires Inv(s) && Enabled(s, ReadTable)
    ensures Inv(Do(s, ReadTable))
  {
    var p, next := s.phase, Do(s, ReadTable);
    var t := TABLE_ORDER[p.next];
    assert TABLE_ORDER[..p.next + 1] == TABLE_ORDER[..p.next] + [t];
    forall row | row in p.snapshot && row.name.Known? && row.name.table in TABLE_ORDER[..p.next + 1] ensures Backed(next.phase.view, row) {
      assert row in s.db.outbox && Backed(s.db.rows, row);
      assert row.name.table != t ==> Backed(p.view, row);
    }
  }

  lemma {:induction false} WithoutOrdered(outbox: seq<OutboxRow>, gone: set<nat>, nextSeq: nat)
    requires ValidOutbox(outbox, nextSeq)
    ensures ValidOutbox(Without(outbox, gone), nextSeq)
  {
    if outbox != [] {
      var n := |outbox| - 1;
      PrefixOrdered(outbox, nextSeq);
      WithoutOrdered(outbox[..n], gone, outbox[n].seqNo);
      OrderedAppend(Without(outbox[..n], gone), outbox[n], nextSeq);
    }
  }

  lemma PrefixOrdered(outbox: seq<OutboxRow>, nextSeq: nat)
    requires ValidOutbox(outbox, nextSeq) && outbox != []
    ensures ValidOutbox(outbox[..|outbox| - 1], outbox[|outbox| - 1].seqNo) && outbox[|outbox| - 1].seqNo < nextSeq
  {
  }

  lemma OrderedAppend(outbox: seq<OutboxRow>, row: OutboxRow, nextSeq: nat)
    requires ValidOutbox(outbox, row.seqNo) && row.seqNo < nextSeq
    ensures ValidOutbox(outbox, nextSeq) && ValidOutbox(outbox + [row], nextSeq)
  {
  }

  /** Removing outbox rows keeps the store in order. */
  lemma WithoutStore(db: Db, gone: set<nat>)
    requires StoreOk(db)
    ensures StoreOk(db.(outbox := Without(db.outbox, gone)))
  {
    WithoutOrdered(db.outbox, gone, db.nextSeq);
  }

  lemma SameSeqSameRow(outbox: seq<OutboxRow>, nextSeq: nat, a: OutboxRow, b: OutboxRow)
    requires ValidOutbox(outbox, nextSeq) && a in outbox && b in outbox && a.seqNo == b.seqNo
    ensures a == b
  {
    var i :| 0 <= i < |outbox| && outbox[i] == a;
    var j :| 0 <= j < |outbox| && outbox[j] == b;
  }

  /** An outbox row that survives keeps its key pending. */
  lemma PendingSurvives(outbox: seq<OutboxRow>, gone: set<nat>, row: OutboxRow, id: EntityId)
    requires row in outbox && Names(row, id) && row.seqNo !in gone
    ensures HasPending(Without(outbox, gone), id)
  {
    var i :| 0 <= i < |Without(outbox, gone)| && Without(outbox, gone)[i] == row;
  }

  /** Collecting never drops the outbox row of a row that is in the store. */
  lemma CollectKeepsPending(s: State, id: RowId)
    requires Inv(s) && Enabled(s, CloseBatch) && HasPending(s.db.outbox, NameOf(id)) && id in s.db.rows && WellFormed(id.key) && FitsTable(id.table, id.key)
    ensures HasPending(Do(s, CloseBatch).db.outbox, NameOf(id))
  {
    var p := s.phase;
    var b := Collected(s.run.cfg, p.snapshot, p.view);
    var i :| 0 <= i < |s.db.outbox| && Names(s.db.outbox[i], NameOf(id));
    var row := s.db.outbox[i];
    InvalidIsUnpushable(s.run.cfg, p.view, p.snapshot);
    forall j | 0 <= j < |p.snapshot| && p.snapshot[j].seqNo == row.seqNo ensures !Unpushable(p.view, p.snapshot[j]) {
      assert p.snapshot[j] == s.db.outbox[j];
      SameSeqSameRow(s.db.outbox, s.db.nextSeq, p.snapshot[j], row);
      KeyRoundTrip(id.table, id.key);
      EveryTableOnce(id.table);
      assert TABLE_ORDER[..p.next] == TABLE_ORDER;
      assert Backed(p.view, row);
    }
    PendingSurvives(s.db.outbox, b.invalid, row, NameOf(id));
  }

  lemma CollectedItemOk(s: State, item: Item)
    requires Inv(s) && Enabled(s, CloseBatch) && item in Collected(s.run.cfg, s.phase.snapshot, s.phase.view).items
    ensures ItemOk(Do(s, CloseBatch).db, s.forced, item)
  {
    var p, cfg := s.phase, s.run.cfg;
    ItemsOwn(cfg, p.view, p.snapshot, item);
    var g :| g in FullQueue(cfg, p.snapshot) && ItemFor(cfg, p.view, g) == Some(item);
    QueueHas(cfg, p.snapshot, g);
    GroupedIsGrouping(p.snapshot);
    assert IsGroupOf(p.snapshot, g);
    assert SeenIn(s.db.rows, s.forced, ItemId(item), p.view[ItemId(item)]);
    forall k | k in item.seqs ensures k < s.db.nextSeq && forall row :: row in s.db.outbox && row.seqNo == k ==> Names(row, item.id) {
      assert InGroup(p.snapshot, g.id, k);
      var i :| 0 <= i < |p.snapshot| && Names(p.snapshot[i], g.id) && p.snapshot[i].seqNo == k;
      assert p.snapshot[i] == s.db.outbox[i];
      forall row | row in s.db.outbox && row.seqNo == k ensures Names(row, item.id) {
        SameSeqSameRow(s.db.outbox, s.db.nextSeq, row, p.snapshot[i]);
      }
    }
  }

  lemma CloseBatchKeeps(s: State)
    requires Inv(s) && Enabled(s, CloseBatch)
    ensures Inv(Do(s, CloseBatch))
  {
    var next := Do(s, CloseBatch);
    var b := next.phase.batch;
    WithoutStore(s.db, b.invalid);
    forall x | x in s.saved ensures Kept(next.db.outbox, s.answered, s.forced, x, s.saved[x]) {
      assert UpToDate(s.db.rows, s.forced, x, s.saved[x]) && Kept(s.db.outbox, s.answered, s.forced, x, s.saved[x]);
      if HasPending(s.db.outbox, NameOf(x)) { CollectKeepsPending(s, x); }
    }
    forall i | 0 <= i < |b.items| ensures ItemOk(next.db, s.forced, b.items[i]) { CollectedItemOk(s, b.items[i]); }
  }

  // ---------- answering and settling ----------

  lemma AnswerKeeps(s: State, r: Response)
    requires Inv(s) && Enabled(s, Answer(r))
    ensures Inv(Do(s, Answer(r)))
  {
    var next := Do(s, Answer(r));
    forall x | x in s.saved ensures Kept(next.db.outbox, next.answered, s.forced, x, s.saved[x]) {
      assert Kept(s.db.outbox, s.answered, s.forced, x, s.saved[x]);
    }
  }

  /** Settling drops a key's outbox row only when the version that was answered is still the current one. */
  lemma SettleKeepsWrites(s: State, id: RowId)
    requires Inv(s) && Enabled(s, Settle) && id in s.saved
    ensures Kept(Do(s, Settle).db.outbox, s.answered, s.forced, id, s.saved[id])
  {
    var items := s.phase.batch.items;
    var gone := SettledSeqs(s.db.rows, items);
    assert UpToDate(s.db.rows, s.forced, id, s.saved[id]) && Kept(s.db.outbox, s.answered, s.forced, id, s.saved[id]);
    if HasPending(s.db.outbox, NameOf(id)) && NameOf(id) !in s.forced {
      var j :| 0 <= j < |s.db.outbox| && Names(s.db.outbox[j], NameOf(id));
      var row := s.db.outbox[j];
      if row.seqNo in gone {
        var i :| 0 <= i < |items| && row.seqNo in items[i].seqs && !ChangedSince(s.db.rows, items[i]);
        assert ItemOk(s.db, s.forced, items[i]);
        assert row in s.db.outbox && Names(row, items[i].id);
        KeyRoundTrip(id.table, id.key);
        assert ItemId(items[i]) == id;
        assert (id, items[i].entity) in AnsweredBy(items);
      } else {
        PendingSurvives(s.db.outbox, gone, row, NameOf(id));
      }
    }
  }

  lemma SettleKeeps(s: State)
    requires Inv(s) && Enabled(s, Settle)
    ensures Inv(Do(s, Settle))
  {
    WithoutStore(s.db, SettledSeqs(s.db.rows, s.phase.batch.items));
    forall x | x in s.saved ensures Kept(Do(s, Settle).db.outbox, s.answered, s.forced, x, s.saved[x]) { SettleKeepsWrites(s, x); }
  }

  /** More keys may be overwritten from now on, and the run has nothing gathered. */
  lemma ForcedGrows(s: State, forced: set<EntityId>)
    requires SavedOk(s) && s.forced <= forced
    ensures SavedOk(s.(forced := forced))
  {
    forall x | x in s.saved ensures UpToDate(s.db.rows, forced, x, s.saved[x]) && Kept(s.db.outbox, s.answered, forced, x, s.saved[x]) {
      assert UpToDate(s.db.rows, s.forced, x, s.saved[x]) && Kept(s.db.outbox, s.answered, s.forced, x, s.saved[x]);
    }
  }

  lemma ApplyTableKeeps(s: State)
    requires Inv(s) && Enabled(s, ApplyTable)
    ensures Inv(Do(s, ApplyTable))
  {
    var t := TABLE_ORDER[s.phase.next];
    PullAdvances(s.db.rows, t, ChangesOf(s.phase.response, t), s.run.restore, s.forced);
    AdvanceKeeps(s, Applied(s.db.rows, t, ChangesOf(s.phase.response, t), s.run.restore));
  }

  lemma StepKeeps(s: State, step: Step)
    requires Inv(s) && Enabled(s, step) && Disciplined(s, step)
    ensures Inv(Do(s, step))
  {
    match step {
      case Save(t, row) => SaveKeeps(s, t, row);
      case PullElsewhere(t, entities) =>
        PullAdvances(s.db.rows, t, entities, {}, s.forced);
        AdvanceKeeps(s, Applied(s.db.rows, t, entities, {}));
      case Start(_) => ForcedGrows(s, s.forced + s.kvRestore);
      case Snapshot =>
      case ReadTable => ReadTableKeeps(s);
      case CloseBatch => CloseBatchKeeps(s);
      case Answer(r) => AnswerKeeps(s, r);
      case ApplyTable => ApplyTableKeeps(s);
      case Settle => SettleKeeps(s);
      case Decide => ForcedGrows(s, Do(s, step).forced);
      case Crash =>
    }
  }

  lemma {:induction false} RunKeeps(s: State, steps: seq<Step>)
    requires Inv(s) && Possible(s, steps)
    ensures Inv(After(s, steps))
    decreases |steps|
  {
    if steps != [] {
      StepKeeps(s, steps[0]);
      RunKeeps(Do(s, steps[0]), steps[1..]);
    }
  }

  // ---------- no write is lost ----------

  /** A device that starts: no run under way and a store in order; nothing written yet. */
  ghost predicate Initial(s: State) {
    s.phase.Idle? && s.saved == map[] && s.answered == {} && s.forced == {} && StoreOk(s.db)
  }

  ghost predicate HasOnePending(outbox: seq<OutboxRow>, id: EntityId) {
    exists i :: 0 <= i < |outbox| && Names(outbox[i], id) && forall j :: 0 <= j < |outbox| && Names(outbox[j], id) ==> j == i
  }

  /**
   * Whatever the interleaving of writes, pulls, rounds, failures and crashes: the last version written of a row, or a newer
   * one, was in an answered push, or the row still has its one outbox row. Only keys under a forced restore are exempt.
   */
  lemma NoWriteIsLost(s: State, steps: seq<Step>, id: RowId)
    requires Initial(s) && Possible(s, steps)
    requires id in After(s, steps).saved && NameOf(id) !in After(s, steps).forced
    ensures var e := After(s, steps);
      Acknowledged(e.answered, id, e.saved[id]) || HasOnePending(e.db.outbox, NameOf(id))
  {
    RunKeeps(s, steps);
    var e := After(s, steps);
    assert Kept(e.db.outbox, e.answered, e.forced, id, e.saved[id]);
    if HasPending(e.db.outbox, NameOf(id)) { PendingIsSingle(e.db, NameOf(id)); }
  }

  lemma PendingIsSingle(db: Db, id: EntityId)
    requires StoreOk(db) && HasPending(db.outbox, id)
    ensures HasOnePending(db.outbox, id)
  {
    var i :| 0 <= i < |db.outbox| && Names(db.outbox[i], id);
    forall j | 0 <= j < |db.outbox| && Names(db.outbox[j], id) ensures j == i {
      assert db.outbox[i] in db.outbox && db.outbox[j] in db.outbox;
    }
  }

  /** And the store holds that version or a newer one. */
  lemma StoreNeverFallsBehind(s: State, steps: seq<Step>, id: RowId)
    requires Initial(s) && Possible(s, steps)
    requires id in After(s, steps).saved && NameOf(id) !in After(s, steps).forced
    ensures var e := After(s, steps); id in e.db.rows && OlderOrSame(e.saved[id], e.db.rows[id])
  {
    RunKeeps(s, steps);
    assert UpToDate(After(s, steps).db.rows, After(s, steps).forced, id, After(s, steps).saved[id]);
  }

  /**
   * A write that lands before settling keeps its outbox row exactly when its stamp is not the one being pushed: with the same
   * stamp it is taken for the pushed version.
   */
  lemma WriteStaysQueuedIff(s: State, item: Item, i: nat, row: Row)
    requires Inv(s) && Enabled(s, Settle) && i < |s.phase.batch.items| && s.phase.batch.items[i] == item
    requires forall j :: 0 <= j < |s.phase.batch.items| && s.phase.batch.items[j].id == item.id ==> j == i
    requires row.key == item.key && FitsTable(item.id.table, row.key) && item.id == NameOf(ItemId(item))
    requires HasPending(s.db.outbox, item.id)
    requires forall k :: 0 <= k < |s.db.outbox| && Names(s.db.outbox[k], item.id) ==> s.db.outbox[k].seqNo in item.seqs
    ensures var e := Do(Do(s, Save(item.id.table, row)), Settle);
      && e.saved[ItemId(item)] == row && e.answered == s.answered
      && (HasPending(e.db.outbox, item.id) <==> row.updatedAt != item.entity.updatedAt)
  {
    var mid := SaveQueued(s, item, row);
    if row.updatedAt == item.entity.updatedAt {
      SettleDropsUnchanged(mid, i);
    } else {
      SettleKeepsChanged(mid, item, i);
    }
  }

  lemma SaveQueued(s: State, item: Item, row: Row) returns (mid: State)
    requires Inv(s) && s.phase.Applying? && row.key == item.key && FitsTable(item.id.table, row.key) && item.id == NameOf(ItemId(item))
    requires HasPending(s.db.outbox, item.id)
    ensures mid == Do(s, Save(item.id.table, row))
    ensures mid.phase == s.phase && mid.answered == s.answered && ItemId(item) in mid.saved && mid.saved[ItemId(item)] == row
    ensures mid.db.outbox == s.db.outbox && (ChangedSince(mid.db.rows, item) <==> row.updatedAt != item.entity.updatedAt)
    ensures SeqsAreOwn(mid.db.outbox, mid.phase.batch.items)
  {
    mid := Do(s, Save(item.id.table, row));
    forall j | 0 <= j < |s.phase.batch.items| ensures OwnSeqs(s.db.outbox, s.phase.batch.items[j]) { assert ItemOk(s.db, s.forced, s.phase.batch.items[j]); }
  }

  /** Outbox rows with the numbers of an item are of its key. */
  ghost predicate OwnSeqs(outbox: seq<OutboxRow>, item: Item) { forall row :: row in outbox && row.seqNo in item.seqs ==> Names(row, item.id) }

  ghost predicate SeqsAreOwn(outbox: seq<OutboxRow>, items: seq<Item>) { forall j :: 0 <= j < |items| ==> OwnSeqs(outbox, items[j]) }

  /** Settling leaves the outbox rows of an item whose row has another stamp by now. */
  lemma SettleKeepsChanged(s: State, item: Item, i: nat)
    requires Enabled(s, Settle) && i < |s.phase.batch.items| && s.phase.batch.items[i] == item && ChangedSince(s.db.rows, item)
    requires forall j :: 0 <= j < |s.phase.batch.items| && s.phase.batch.items[j].id == item.id ==> j == i
    requires HasPending(s.db.outbox, item.id) && SeqsAreOwn(s.db.outbox, s.phase.batch.items)
    ensures Do(s, Settle).saved == s.saved && Do(s, Settle).answered == s.answered && HasPending(Do(s, Settle).db.outbox, item.id)
  {
    var items := s.phase.batch.items;
    var k :| 0 <= k < |s.db.outbox| && Names(s.db.outbox[k], item.id);
    var row := s.db.outbox[k];
    forall j | 0 <= j < |items| && row.seqNo in items[j].seqs ensures ChangedSince(s.db.rows, items[j]) {
      assert OwnSeqs(s.db.outbox, items[j]) && row in s.db.outbox;
      assert items[j].id == item.id;
    }
    PendingSurvives(s.db.outbox, SettledSeqs(s.db.rows, items), row, item.id);
  }

  /** Settling drops the outbox rows of an item whose row still has the pushed stamp. */
  lemma SettleDropsUnchanged(s: State, i: nat)
    requires Enabled(s, Settle) && i < |s.phase.batch.items| && !ChangedSince(s.db.rows, s.phase.batch.items[i])
    requires forall k :: 0 <= k < |s.db.outbox| && Names(s.db.outbox[k], s.phase.batch.items[i].id) ==> s.db.outbox[k].seqNo in s.phase.batch.items[i].seqs
    ensures Do(s, Settle).saved == s.saved && Do(s, Settle).answered == s.answered && !HasPending(Do(s, Settle).db.outbox, s.phase.batch.items[i].id)
  {
    AllGone(s.db.outbox, SettledSeqs(s.db.rows, s.phase.batch.items), s.phase.batch.items[i].id);
  }

  lemma AllGone(outbox: seq<OutboxRow>, gone: set<nat>, id: EntityId)
    requires forall k :: 0 <= k < |outbox| && Names(outbox[k], id) ==> outbox[k].seqNo in gone
    ensures !HasPending(Without(outbox, gone), id)
  {
    var left := Without(outbox, gone);
    forall j | 0 <= j < |left| ensures !Names(left[j], id) {
      assert left[j] in left;
      var k :| 0 <= k < |outbox| && outbox[k] == left[j];
    }
  }

  // ---------- quiet rounds ----------

  /** The first n tables read, nothing in between. */
  function ReadAll(s: State, n: nat): State
    requires s.phase.Reading? && s.phase.next == 0 && n <= |TABLE_ORDER|
    ensures ReadAll(s, n).phase.Reading? && ReadAll(s, n).phase.next == n
  {
    if n == 0 then s else Do(ReadAll(s, n - 1), ReadTable)
  }

  /** The first n tables of an answer applied, nothing in between. */
  function ApplyAll(s: State, n: nat): State
    requires s.phase.Applying? && s.phase.next == 0 && n <= |TABLE_ORDER|
    ensures ApplyAll(s, n).phase.Applying? && ApplyAll(s, n).phase.next == n
  {
    if n == 0 then s else OneApplied(ApplyAll(s, n - 1))
  }

  /** A round up to its decision in which nothing happens meanwhile and the server sends no rows. */
  function QuietProtocolRound(s: State, r: Response): State
    requires s.phase.Ready? && r.changes == map[]
    ensures QuietProtocolRound(s, r).phase.Deciding?
  {
    var sent := Do(ReadAll(Do(s, Snapshot), |TABLE_ORDER|), CloseBatch);
    Do(ApplyAll(Do(sent, Answer(r)), |TABLE_ORDER|), Settle)
  }

  /** What has been read of the store after n tables. */
  ghost predicate ReadUpTo(rows: Tables, view: Tables, n: nat)
    requires n <= |TABLE_ORDER|
  {
    forall id :: Lookup(view, id) == if id.table in TABLE_ORDER[..n] then Lookup(rows, id) else None
  }

  lemma ReadOneMore(rows: Tables, view: Tables, n: nat)
    requires n < |TABLE_ORDER| && ReadUpTo(rows, view, n)
    ensures ReadUpTo(rows, view + TableRows(rows, TABLE_ORDER[n]), n + 1)
  {
    assert TABLE_ORDER[..n + 1] == TABLE_ORDER[..n] + [TABLE_ORDER[n]];
  }

  lemma {:induction false} ReadAllReads(s: State, outbox: seq<OutboxRow>, n: nat) returns (view: Tables)
    requires s.phase == Reading(outbox, map[], 0) && n <= |TABLE_ORDER|
    ensures ReadAll(s, n) == s.(phase := Reading(outbox, view, n)) && ReadUpTo(s.db.rows, view, n)
  {
    if n == 0 {
      view := map[];
    } else {
      var before := ReadAllReads(s, outbox, n - 1);
      view := before + TableRows(s.db.rows, TABLE_ORDER[n - 1]);
      ReadOneMore(s.db.rows, before, n - 1);
      ReadStep(s.(phase := Reading(outbox, before, n - 1)), outbox, before, n - 1);
    }
  }

  lemma ReadStep(s: State, outbox: seq<OutboxRow>, view: Tables, k: nat)
    requires s.phase == Reading(outbox, view, k) && k < |TABLE_ORDER|
    ensures Do(s, ReadTable) == s.(phase := Reading(outbox, view + TableRows(s.db.rows, TABLE_ORDER[k]), k + 1))
  {
  }

  lemma AppliesNothing(rows: Tables, t: Table, force: set<EntityId>)
    ensures Applied(rows, t, [], force) == rows
  {
    forall id: RowId ensures Lookup(Applied(rows, t, [], force), id) == Lookup(rows, id) { AppliedAt(rows, t, [], force, id); }
    SameByRow(Applied(rows, t, [], force), rows);
  }

  lemma ApplyTableAppliesNothing(s: State, b: Batch, r: Response, k: nat)
    requires s.phase == Applying(b, r, k) && k < |TABLE_ORDER| && r.changes == map[]
    ensures OneApplied(s) == s.(phase := Applying(b, r, k + 1))
  {
    AppliesNothing(s.db.rows, TABLE_ORDER[k], s.run.restore);
  }

  lemma {:induction false} ApplyAllAppliesNothing(s: State, b: Batch, r: Response, n: nat)
    requires s.phase == Applying(b, r, 0) && r.changes == map[] && n <= |TABLE_ORDER|
    ensures ApplyAll(s, n) == s.(phase := Applying(b, r, n))
    decreases n
  {
    if n > 0 {
      ApplyAllAppliesNothing(s, b, r, n - 1);
      ApplyTableAppliesNothing(ApplyAll(s, n - 1), b, r, n - 1);
    }
  }

  /** When all tables have been read with nothing in between, the view is the store. */
  lemma AllRead(s: State)
    requires s.phase.Ready?
    ensures ReadAll(Do(s, Snapshot), |TABLE_ORDER|) == s.(phase := Reading(s.db.outbox, s.db.rows, |TABLE_ORDER|))
  {
    var view := ReadAllReads(Do(s, Snapshot), s.db.outbox, |TABLE_ORDER|);
    forall id: RowId ensures Lookup(view, id) == Lookup(s.db.rows, id) {
      EveryTableOnce(id.table);
      assert TABLE_ORDER[..|TABLE_ORDER|] == TABLE_ORDER;
    }
    SameByRow(view, s.db.rows);
  }

  /** A quiet round of the protocol does to the store what QuietRound says, and each item it sent is answered. */
  lemma QuietProtocolRoundIsQuiet(s: State, r: Response)
    requires s.phase.Ready? && r.changes == map[]
    ensures QuietProtocolRound(s, r).db == QuietRound(s.run.cfg, s.db)
    ensures QuietProtocolRound(s, r).answered == s.answered + AnsweredBy(Collected(s.run.cfg, s.db.outbox, s.db.rows).items)
    ensures var e := QuietProtocolRound(s, r);
      e.run == s.run && e.phase.Deciding? && e.phase.batch == Collected(s.run.cfg, s.db.outbox, s.db.rows) && e.phase.response == r
  {
    AllRead(s);
    var b := Collected(s.run.cfg, s.db.outbox, s.db.rows);
    var read := s.(phase := Reading(s.db.outbox, s.db.rows, |TABLE_ORDER|));
    var sent := Do(read, CloseBatch);
    assert sent == s.(db := s.db.(outbox := Without(s.db.outbox, b.invalid)), phase := Sending(b, s.run.cursor));
    AnsweredQuietly(sent, b, r);
  }

  lemma AnsweredQuietly(sent: State, b: Batch, r: Response)
    requires sent.phase.Sending? && sent.phase.batch == b && r.changes == map[]
    ensures var e := Do(ApplyAll(Do(sent, Answer(r)), |TABLE_ORDER|), Settle);
      && e.db == sent.db.(outbox := Without(sent.db.outbox, SettledSeqs(sent.db.rows, b.items)))
      && e.answered == sent.answered + AnsweredBy(b.items)
      && e.run == sent.run && e.phase == Deciding(b, r, ChangedIds(sent.db.rows, b.items))
  {
    var answered := sent.(answered := sent.answered + AnsweredBy(b.items), phase := Applying(b, r, 0));
    assert Do(sent, Answer(r)) == answered;
    ApplyAllAppliesNothing(answered, b, r, |TABLE_ORDER|);
    SettledQuietly(answered.(phase := Applying(b, r, |TABLE_ORDER|)), b, r);
  }

  lemma SettledQuietly(s: State, b: Batch, r: Response)
    requires s.phase == Applying(b, r, |TABLE_ORDER|)
    ensures Do(s, Settle) ==
      s.(db := s.db.(outbox := Without(s.db.outbox, SettledSeqs(s.db.rows, b.items))), phase := Deciding(b, r, ChangedIds(s.db.rows, b.items)))
  {
  }

  /** A run of the protocol, decisions included, in which nothing happens meanwhile and the server sends no rows. */
  function QuietRun(s: State, answers: seq<Response>): State
    requires forall i :: 0 <= i < |answers| ==> answers[i].changes == map[]
    decreases |answers|
  {
    if s.phase.Ready? && answers != [] then QuietRun(Do(QuietProtocolRound(s, answers[0]), Decide), answers[1..]) else s
  }

  ghost predicate OnlyWithheld(cfg: Config, outbox: seq<OutboxRow>) {
    forall row :: row in outbox ==> row.name.Known? && Withheld(cfg.settings, row.name.table)
  }

  /** There is more to push or to pull, or a restore begins. */
  predicate GoesOn(d: State)
    requires d.phase.Deciding?
  {
    d.phase.response.hasMore || d.phase.batch.hasMore || (!d.run.restoreStarted && d.phase.response.rejected - d.phase.changed != {})
  }

  /** A decision leaves the store alone, and goes on as long as rounds are left, unless nothing was sent and the cursor is the old one. */
  lemma DecisionGoesOn(d: State)
    requires d.phase.Deciding?
    ensures var e := Do(d, Decide);
      && e.db == d.db && e.run.cfg == d.run.cfg && d.run.round <= e.run.round <= d.run.round + 1
      && (e.run.restoreStarted <==> d.run.restoreStarted || d.phase.response.rejected - d.phase.changed != {})
      && (e.phase.Ready? ==> GoesOn(d))
      && (!e.phase.Ready? ==> e.phase.Idle? && (!d.phase.batch.hasMore || d.phase.batch.items == [] || (GoesOn(d) && e.run.round >= MAX_ROUNDS)))
  {
  }

  /** One quiet round with its decision: when it stops with rounds left, be it that the server repeats its cursor, the outbox is drained. */
  lemma QuietDecision(s: State, r: Response)
    requires s.phase.Ready? && r.changes == map[]
    ensures var d := QuietProtocolRound(s, r); var e := Do(d, Decide);
      && e.db == QuietRound(s.run.cfg, s.db) && e.run.cfg == s.run.cfg && d.run == s.run
      && (!e.phase.Ready? ==> OnlyWithheld(s.run.cfg, e.db.outbox) || (GoesOn(d) && e.run.round >= MAX_ROUNDS))
  {
    QuietProtocolRoundIsQuiet(s, r);
    DecisionGoesOn(QuietProtocolRound(s, r));
    BatchIsLongestPrefix(s.run.cfg, s.db.outbox, s.db.rows);
    if !Collected(s.run.cfg, s.db.outbox, s.db.rows).hasMore {
      forall row | row in QuietRound(s.run.cfg, s.db).outbox ensures row.name.Known? && Withheld(s.run.cfg.settings, row.name.table) {
        RestIsWithheld(s.run.cfg, s.db, row);
      }
    }
  }

  /** However often the server says that there is more: a quiet run that ends before its last round has drained the outbox. */
  lemma {:induction false} QuietRunEndsDrained(s: State, answers: seq<Response>)
    requires s.phase.Ready? && forall i :: 0 <= i < |answers| ==> answers[i].changes == map[]
    ensures var e := QuietRun(s, answers);
      e.db.rows == s.db.rows && (e.phase.Idle? && e.run.round < MAX_ROUNDS ==> OnlyWithheld(s.run.cfg, e.db.outbox))
    decreases |answers|
  {
    if answers != [] {
      QuietDecision(s, answers[0]);
      var next := Do(QuietProtocolRound(s, answers[0]), Decide);
      if next.phase.Ready? { QuietRunEndsDrained(next, answers[1..]); } else { assert QuietRun(s, answers) == next; }
    }
  }

  /** Rounds that are enough when the server has no more to send. */
  function Enough(s: State): nat { |s.db.outbox| + if s.run.restoreStarted then 1 else 2 }

  lemma EnoughForNext(s: State, r: Response)
    requires s.phase.Ready? && r.changes == map[] && !r.hasMore && GoesOn(QuietProtocolRound(s, r))
    ensures Enough(Do(QuietProtocolRound(s, r), Decide)) < Enough(s)
  {
    QuietProtocolRoundIsQuiet(s, r);
    DecisionGoesOn(QuietProtocolRound(s, r));
    if Collected(s.run.cfg, s.db.outbox, s.db.rows).hasMore { MoreMeansPushable(s.run.cfg, s.db); }
  }

  /** One round brings the end nearer, or is the end. */
  lemma NextRound(s: State, r: Response)
    requires s.phase.Ready? && r.changes == map[] && !r.hasMore && s.run.round + Enough(s) <= MAX_ROUNDS
    ensures var e := Do(QuietProtocolRound(s, r), Decide);
      && e.db.rows == s.db.rows && e.run.cfg == s.run.cfg
      && (e.phase.Ready? ==> Enough(e) < Enough(s) && e.run.round + Enough(e) <= MAX_ROUNDS)
      && (!e.phase.Ready? ==> e.phase.Idle? && OnlyWithheld(s.run.cfg, e.db.outbox))
  {
    var d := QuietProtocolRound(s, r);
    QuietDecision(s, r);
    DecisionGoesOn(d);
    if GoesOn(d) { EnoughForNext(s, r); }
  }

  lemma {:induction false} QuietRunDrains(s: State, answers: seq<Response>)
    requires s.phase.Ready? && forall i :: 0 <= i < |answers| ==> answers[i].changes == map[] && !answers[i].hasMore
    requires Enough(s) <= |answers| && s.run.round + Enough(s) <= MAX_ROUNDS
    ensures var e := QuietRun(s, answers);
      e.phase.Idle? && e.db.rows == s.db.rows && OnlyWithheld(s.run.cfg, e.db.outbox)
    decreases |answers|
  {
    NextRound(s, answers[0]);
    var next := Do(QuietProtocolRound(s, answers[0]), Decide);
    if next.phase.Ready? { QuietRunDrains(next, answers[1..]); } else { assert QuietRun(s, answers) == next; }
  }

  /** A run in which nothing happens meanwhile and the server has no more to send ends, drained, within two rounds more than there are outbox rows. */
  lemma OneRunDrains(s: State, cfg: Config, answers: seq<Response>)
    requires s.phase.Idle? && |s.db.outbox| + 2 <= |answers| && |s.db.outbox| + 2 <= 500
    requires forall i :: 0 <= i < |answers| ==> answers[i].changes == map[] && !answers[i].hasMore
    ensures var e := QuietRun(Do(s, Start(cfg)), answers);
      e.phase.Idle? && e.db.rows == s.db.rows && forall row :: row in e.db.outbox ==> row.name == Known(Annotations) && !cfg.settings.syncAnnotations
  {
    QuietRunDrains(Do(s, Start(cfg)), answers);
  }

  // ---------- restores ----------

  /** The keys to restore are forgotten only when a response ended the pull and nothing was left to push. */
  lemma RestoreEndsWithThePull(s: State, step: Step)
    requires Inv(s) && Enabled(s, step) && Disciplined(s, step) && !(s.kvRestore <= Do(s, step).kvRestore)
    ensures step.Decide? && !s.phase.response.hasMore && !s.phase.batch.hasMore && Do(s, step).phase.Idle?
  {
  }

  /** And then they are forgotten, so that later writes are not overwritten. */
  lemma RestoreIsForgotten(s: State)
    requires Inv(s) && s.phase.Deciding? && !s.phase.response.hasMore && !s.phase.batch.hasMore
    requires s.kvRestore != {} || s.phase.response.rejected <= s.phase.changed
    ensures var e := Do(s, Decide); e.kvRestore == {} && e.phase.Idle? && e.kvCursor == Some(s.phase.response.cursor)
  {
  }
}
