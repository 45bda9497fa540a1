module SyncEngine {
  // The local store with the operations of the sync engine, as it runs them: updates in place, loops over rows, an early exit
  // when a batch is full. Each is proved against the functions that the protocol is about.

  import opened Options
  import opened SyncKeys
  import opened SyncApply
  import opened SyncBatch

  /** The primary keys that exist, in order: what a bulk read is asked for. */
  function NonNull(keys: seq<Option<PrimaryKey>>): seq<PrimaryKey> {
    if keys == [] then []
    else
      var k := keys[|keys| - 1];
      NonNull(keys[..|keys| - 1]) + if k.Some? then [k.value] else []
  }

  /** Counting existing keys up to i gives the place of key i in the bulk read. */
  lemma {:induction false} CursorIsOwnPlace(keys: seq<Option<PrimaryKey>>, i: nat)
    requires i < |keys| && keys[i].Some?
    ensures |NonNull(keys[..i])| < |NonNull(keys)| && NonNull(keys)[|NonNull(keys[..i])|] == keys[i].value
  {
    var n := |keys| - 1;
    if i < n {
      CursorIsOwnPlace(keys[..n], i);
      assert keys[..n][..i] == keys[..i];
    }
  }

  lemma NonNullStep(keys: seq<Option<PrimaryKey>>, i: nat)
    requires i < |keys|
    ensures |NonNull(keys[..i + 1])| == |NonNull(keys[..i])| + if keys[i].Some? then 1 else 0
  {
    assert keys[..i + 1][..i] == keys[..i];
  }

  lemma {:induction false} QueuePrefix(groups: seq<Group>, settings: Settings, n: nat, m: nat)
    requires n <= m <= |TABLE_ORDER|
    ensures Queue(groups, settings, n) <= Queue(groups, settings, m)
  {
    if n < m { QueuePrefix(groups, settings, n, m - 1); }
  }

  /** A scan that ended on the first rows of a table is the scan of the whole queue. */
  lemma ScanEnded(cfg: Config, view: Tables, invalid: set<nat>, groups: seq<Group>, n: nat, part: seq<Group>)
    requires n < |TABLE_ORDER| && part <= Queue(groups, cfg.settings, n + 1) && Scan(cfg, view, invalid, part).hasMore
    ensures Scan(cfg, view, invalid, Queue(groups, cfg.settings, |TABLE_ORDER|)) == Scan(cfg, view, invalid, part)
  {
    QueuePrefix(groups, cfg.settings, n + 1, |TABLE_ORDER|);
    var queue := Queue(groups, cfg.settings, |TABLE_ORDER|);
    assert queue[..|part|] == part;
    ScanStops(cfg, view, invalid, queue, |part|);
  }

  lemma ScanStep(cfg: Config, view: Tables, invalid: set<nat>, queue: seq<Group>, g: Group)
    requires !Scan(cfg, view, invalid, queue).hasMore
    ensures Scan(cfg, view, invalid, queue + [g]) == Taken(cfg, view, Scan(cfg, view, invalid, queue), g)
  {
    assert (queue + [g])[..|queue|] == queue;
  }

  /** What a pull has put so far: the merged copy of each key gone through, where it is not the local one. */
  ghost predicate PutsMerged(rows: Tables, t: Table, newest: map<string, Row>, keys: seq<string>, done: nat, force: set<EntityId>, toPut: Tables) {
    && done <= |keys|
    && (forall id :: id in toPut ==> PutFor(rows, t, newest, force, id, toPut[id]) && EntityKey(id.key) in keys[..done])
    && (forall k :: 0 <= k < done && keys[k] in newest ==> PutOrLocal(rows, t, newest[keys[k]], EntityId(t, keys[k]) in force, toPut))
  }

  ghost predicate PutFor(rows: Tables, t: Table, newest: map<string, Row>, force: set<EntityId>, id: RowId, row: Row) {
    var s := EntityKey(id.key);
    id.table == t && s in newest && newest[s].key == id.key && row == Merged(t, Lookup(rows, id), newest[s], NameOf(id) in force)
  }

  ghost predicate PutOrLocal(rows: Tables, t: Table, remote: Row, forced: bool, toPut: Tables) {
    var id := RowId(t, remote.key);
    id in toPut || (id in rows && rows[id] == Merged(t, Lookup(rows, id), remote, forced))
  }

  lemma PutsMakeApplied(rows: Tables, t: Table, entities: seq<Row>, keys: seq<string>, force: set<EntityId>, toPut: Tables)
    requires forall s :: s in NewestByKey(entities) ==> s in keys
    requires PutsMerged(rows, t, NewestByKey(entities), keys, |keys|, force, toPut)
    ensures rows + toPut == Applied(rows, t, entities, force)
  {
    forall id: RowId ensures Lookup(rows + toPut, id) == Lookup(Applied(rows, t, entities, force), id) {
      PutRow(rows, t, entities, keys, force, toPut, id);
    }
    SameByRow(rows + toPut, Applied(rows, t, entities, force));
  }

  lemma PutRow(rows: Tables, t: Table, entities: seq<Row>, keys: seq<string>, force: set<EntityId>, toPut: Tables, id: RowId)
    requires forall s :: s in NewestByKey(entities) ==> s in keys
    requires PutsMerged(rows, t, NewestByKey(entities), keys, |keys|, force, toPut)
    ensures Lookup(rows + toPut, id) == Lookup(Applied(rows, t, entities, force), id)
  {
    AppliedAt(rows, t, entities, force, id);
    var newest, s := NewestByKey(entities), EntityKey(id.key);
    if id in toPut {
      assert PutFor(rows, t, newest, force, id, toPut[id]);
    } else if RemoteFor(t, entities, id).Some? {
      var k :| 0 <= k < |keys| && keys[k] == s;
      assert PutOrLocal(rows, t, newest[keys[k]], EntityId(t, keys[k]) in force, toPut);
    }
  }

  ghost predicate AreKeysOf(t: Table, groups: seq<Group>, keys: seq<Option<PrimaryKey>>) {
    |keys| == |groups| && forall i :: 0 <= i < |keys| ==> groups[i].id.table == t && keys[i] == PrimaryKeyFromEntityKey(t, groups[i].id.entityKey)
  }

  ghost predicate AreFound(rows: Tables, t: Table, wanted: seq<PrimaryKey>, entities: seq<Option<Row>>) {
    |entities| == |wanted| && forall i :: 0 <= i < |wanted| ==> entities[i] == Lookup(rows, RowId(t, wanted[i]))
  }

  lemma TakeNext(cfg: Config, view: Tables, invalid: set<nat>, queue: seq<Group>, tableGroups: seq<Group>, i: nat)
    requires i < |tableGroups| && !Scan(cfg, view, invalid, queue + tableGroups[..i]).hasMore
    ensures Scan(cfg, view, invalid, queue + tableGroups[..i + 1]) == Taken(cfg, view, Scan(cfg, view, invalid, queue + tableGroups[..i]), tableGroups[i])
  {
    assert queue + tableGroups[..i + 1] == queue + tableGroups[..i] + [tableGroups[i]];
    ScanStep(cfg, view, invalid, queue + tableGroups[..i], tableGroups[i]);
  }

  /** The entity at the cursor is the one of key i. */
  lemma PairNext(rows: Tables, t: Table, keys: seq<Option<PrimaryKey>>, entities: seq<Option<Row>>, i: nat)
    requires i < |keys| && AreFound(rows, t, NonNull(keys), entities)
    ensures keys[i].Some? ==> |NonNull(keys[..i])| < |entities| && entities[|NonNull(keys[..i])|] == Lookup(rows, RowId(t, keys[i].value))
    ensures |NonNull(keys[..i + 1])| == |NonNull(keys[..i])| + if keys[i].Some? then 1 else 0
  {
    NonNullStep(keys, i);
    if keys[i].Some? { CursorIsOwnPlace(keys, i); }
  }

  /** The batch after n tables, or after the row that did not fit. */
  ghost predicate ScannedTo(cfg: Config, view: Tables, invalid: set<nat>, groups: seq<Group>, n: nat, batch: Batch)
    requires n <= |TABLE_ORDER|
  {
    batch == Scan(cfg, view, invalid, Queue(groups, cfg.settings, if batch.hasMore then |TABLE_ORDER| else n))
  }

  lemma WithheldTable(cfg: Config, view: Tables, invalid: set<nat>, groups: seq<Group>, n: nat, batch: Batch)
    requires n < |TABLE_ORDER| && ScannedTo(cfg, view, invalid, groups, n, batch) && Withheld(cfg.settings, TABLE_ORDER[n])
    ensures ScannedTo(cfg, view, invalid, groups, n + 1, batch)
  {
    assert Queue(groups, cfg.settings, n + 1) == Queue(groups, cfg.settings, n);
  }

  /** A table gone through, or left at the row that did not fit. */
  lemma TableDone(cfg: Config, view: Tables, invalid: set<nat>, groups: seq<Group>, n: nat, taken: nat, batch: Batch)
    requires n < |TABLE_ORDER| && !Withheld(cfg.settings, TABLE_ORDER[n]) && taken <= |OfTable(groups, TABLE_ORDER[n])|
    requires batch == Scan(cfg, view, invalid, Queue(groups, cfg.settings, n) + OfTable(groups, TABLE_ORDER[n])[..taken])
    requires !batch.hasMore ==> taken == |OfTable(groups, TABLE_ORDER[n])|
    ensures ScannedTo(cfg, view, invalid, groups, n + 1, batch)
  {
    var tableGroups := OfTable(groups, TABLE_ORDER[n]);
    assert tableGroups[..|tableGroups|] == tableGroups;
    if batch.hasMore {
      assert tableGroups == tableGroups[..taken] + tableGroups[taken..];
      ScanEnded(cfg, view, invalid, groups, n, Queue(groups, cfg.settings, n) + tableGroups[..taken]);
    }
  }

  class LocalStore {
    var rows: Tables
    var outbox: seq<OutboxRow>
    var nextSeq: nat

    constructor ()
      ensures Contents() == Db(map[], [], 0)
    {
      rows, outbox, nextSeq := map[], [], 0;
    }

    ghost function Contents(): Db
      reads this
    {
      Db(rows, outbox, nextSeq)
    }

    /** After a local write the row is stored and its key is queued, by the outbox row it had or one more at the end. */
    method SaveEntity(t: Table, row: Row)
      modifies this
      ensures RowId(t, row.key) in rows && rows[RowId(t, row.key)] == row && HasPending(outbox, EntityId(t, EntityKey(row.key)))
      ensures old(outbox) <= outbox && (HasPending(old(outbox), EntityId(t, EntityKey(row.key))) ==> outbox == old(outbox))
      ensures Contents() == Saved(old(Contents()), t, row)
    {
      var id := RowId(t, row.key);
      rows := rows[id := row];
      if !HasPending(outbox, NameOf(id)) {
        outbox := outbox + [OutboxRow(nextSeq, Known(t), EntityKey(row.key))];
        assert Names(outbox[|outbox| - 1], NameOf(id));
        nextSeq := nextSeq + 1;
      }
    }

    /** Rows received from the server. */
    method ApplyRemote(t: Table, entities: seq<Row>, force: set<EntityId>)
      modifies this
      ensures forall id: RowId :: PullOutcome(old(rows), t, entities, force, id, Lookup(rows, id))
      ensures Contents() == old(Contents()).(rows := Applied(old(rows), t, entities, force))
    {
      var byKey, keys := NewestCopies(entities);
      var toPut := CopiesToPut(t, keys, byKey, force);
      PutsMakeApplied(rows, t, entities, keys, force, toPut);
      rows := rows + toPut;
      forall id: RowId ensures PullOutcome(old(rows), t, entities, force, id, Lookup(rows, id)) { PullLeaves(old(rows), t, entities, force, id); }
    }

    method CopiesToPut(t: Table, keys: seq<string>, byKey: map<string, Row>, force: set<EntityId>) returns (toPut: Tables)
      requires (forall s :: s in keys ==> s in byKey) && forall s :: s in byKey ==> EntityKey(byKey[s].key) == s
      ensures PutsMerged(rows, t, byKey, keys, |keys|, force, toPut)
    {
      toPut := map[];
      for i := 0 to |keys|
        invariant PutsMerged(rows, t, byKey, keys, i, force, toPut)
      {
        toPut := PutOne(t, keys, i, byKey, force, toPut);
      }
    }

    /** The newest copy per key, and the keys in the order they came. */
    method NewestCopies(entities: seq<Row>) returns (byKey: map<string, Row>, keys: seq<string>)
      ensures byKey == NewestByKey(entities) && forall s :: s in byKey <==> s in keys
    {
      byKey, keys := map[], [];
      for i := 0 to |entities|
        invariant byKey == NewestByKey(entities[..i]) && (forall s :: s in byKey <==> s in keys)
      {
        var s := EntityKey(entities[i].key);
        NewestStep(entities, i);
        if s !in byKey { keys := keys + [s]; }
        if s !in byKey || entities[i].updatedAt >= byKey[s].updatedAt { byKey := byKey[s := entities[i]]; }
      }
      assert entities[..|entities|] == entities;
    }

    method PutOne(t: Table, keys: seq<string>, i: nat, byKey: map<string, Row>, force: set<EntityId>, puts: Tables) returns (toPut: Tables)
      requires i < |keys| && keys[i] in byKey && (forall s :: s in byKey ==> EntityKey(byKey[s].key) == s)
      requires PutsMerged(rows, t, byKey, keys, i, force, puts)
      ensures PutsMerged(rows, t, byKey, keys, i + 1, force, toPut)
    {
      var remote := byKey[keys[i]];
      var id := RowId(t, remote.key);
      var forced := EntityId(t, keys[i]) in force;
      toPut := puts;
      assert keys[..i + 1] == keys[..i] + [keys[i]];
      if id !in rows || forced || remote.updatedAt > rows[id].updatedAt {
        toPut := puts[id := if id in rows && t == Pages then KeepLocalText(remote, rows[id]) else remote];
      }
    }

    /** The next batch: outbox rows grouped per key, tables in order, until a row does not fit; useless outbox rows are dropped. */
    method CollectBatch(cfg: Config) returns (batch: Batch)
      modifies this
      ensures batch == Collected(cfg, old(outbox), old(rows))
      ensures forall item :: item in batch.items ==> SendsOnlyWhatItMay(cfg.settings, item)
      ensures Contents() == old(Contents()).(outbox := Without(old(outbox), batch.invalid))
    {
      batch := CollectItems(cfg);
      forall item | item in batch.items ensures SendsOnlyWhatItMay(cfg.settings, item) { PrivacyIsKept(cfg, rows, outbox, item); }
      outbox := Without(outbox, batch.invalid);
    }

    method CollectItems(cfg: Config) returns (batch: Batch)
      ensures batch == Collected(cfg, outbox, rows)
    {
      var groups, invalid := GroupRows();
      batch := Batch([], 0, invalid, false);
      var n := 0;
      while n < |TABLE_ORDER| && !batch.hasMore
        invariant n <= |TABLE_ORDER|
        invariant ScannedTo(cfg, rows, invalid, groups, n, batch)
      {
        if Withheld(cfg.settings, TABLE_ORDER[n]) {
          WithheldTable(cfg, rows, invalid, groups, n, batch);
        } else {
          batch := CollectTable(cfg, n, groups, invalid, batch);
        }
        n := n + 1;
      }
    }

    method GroupRows() returns (groups: seq<Group>, invalid: set<nat>)
      ensures groups == Grouped(outbox) && invalid == UnknownSeqs(outbox)
    {
      groups, invalid := [], {};
      for i := 0 to |outbox|
        invariant groups == Grouped(outbox[..i]) && invalid == UnknownSeqs(outbox[..i])
      {
        var row := outbox[i];
        assert outbox[..i + 1][..i] == outbox[..i];
        if row.name.Unknown? {
          invalid := invalid + {row.seqNo};
        } else {
          groups := AddTo(groups, EntityId(row.name.table, row.entityKey), row.seqNo);
        }
      }
      assert outbox[..|outbox|] == outbox;
    }

    /** The rows of one table: keys, one bulk read of those that exist, and a cursor that pairs them up again. */
    method CollectTable(cfg: Config, n: nat, groups: seq<Group>, invalid: set<nat>, before: Batch) returns (batch: Batch)
      requires n < |TABLE_ORDER| && !Withheld(cfg.settings, TABLE_ORDER[n])
      requires !before.hasMore && ScannedTo(cfg, rows, invalid, groups, n, before)
      ensures ScannedTo(cfg, rows, invalid, groups, n + 1, batch)
    {
      var t := TABLE_ORDER[n];
      var tableGroups := OfTable(groups, t);
      var keys := KeysOf(groups, t);
      var entities := BulkGet(t, NonNull(keys));
      ghost var taken: nat;
      batch, taken := CollectRows(cfg, t, tableGroups, keys, entities, Queue(groups, cfg.settings, n), invalid, before);
      TableDone(cfg, rows, invalid, groups, n, taken, batch);
    }

    method KeysOf(groups: seq<Group>, t: Table) returns (keys: seq<Option<PrimaryKey>>)
      ensures AreKeysOf(t, OfTable(groups, t), keys)
    {
      var tableGroups := OfTable(groups, t);
      forall i | 0 <= i < |tableGroups| ensures tableGroups[i].id.table == t { OfTableHas(groups, t, tableGroups[i]); }
      keys := seq(|tableGroups|, i requires 0 <= i < |tableGroups| => PrimaryKeyFromEntityKey(t, tableGroups[i].id.entityKey));
    }

    method BulkGet(t: Table, wanted: seq<PrimaryKey>) returns (entities: seq<Option<Row>>)
      ensures AreFound(rows, t, wanted, entities)
    {
      var view := rows;
      entities := seq(|wanted|, i requires 0 <= i < |wanted| => Lookup(view, RowId(t, wanted[i])));
    }

    method CollectRows(cfg: Config, t: Table, tableGroups: seq<Group>, keys: seq<Option<PrimaryKey>>, entities: seq<Option<Row>>,
                       ghost queue: seq<Group>, ghost invalid: set<nat>, before: Batch) returns (batch: Batch, ghost taken: nat)
      requires AreKeysOf(t, tableGroups, keys) && AreFound(rows, t, NonNull(keys), entities)
      requires !before.hasMore && before == Scan(cfg, rows, invalid, queue)
      ensures taken <= |tableGroups| && batch == Scan(cfg, rows, invalid, queue + tableGroups[..taken])
      ensures !batch.hasMore ==> taken == |tableGroups|
    {
      var cursor := 0;
      batch := before;
      assert queue + tableGroups[..0] == queue;
      for i := 0 to |tableGroups|
        invariant cursor == |NonNull(keys[..i])|
        invariant !batch.hasMore && batch == Scan(cfg, rows, invalid, queue + tableGroups[..i])
      {
        batch, cursor := CollectNext(cfg, t, tableGroups, keys, entities, i, cursor, queue, invalid, batch);
        if batch.hasMore { return batch, i + 1; }
      }
      taken := |tableGroups|;
    }

    method CollectNext(cfg: Config, t: Table, tableGroups: seq<Group>, keys: seq<Option<PrimaryKey>>, entities: seq<Option<Row>>, i: nat, cursor: nat,
                       ghost queue: seq<Group>, ghost invalid: set<nat>, before: Batch) returns (batch: Batch, next: nat)
      requires AreKeysOf(t, tableGroups, keys) && AreFound(rows, t, NonNull(keys), entities) && i < |tableGroups|
      requires cursor == |NonNull(keys[..i])| && !before.hasMore && before == Scan(cfg, rows, invalid, queue + tableGroups[..i])
      ensures batch == Scan(cfg, rows, invalid, queue + tableGroups[..i + 1]) && next == |NonNull(keys[..i + 1])|
    {
      TakeNext(cfg, rows, invalid, queue, tableGroups, i);
      PairNext(rows, t, keys, entities, i);
      batch, next := ConsiderNext(cfg, tableGroups[i], keys[i], entities, cursor, before);
    }

    /** The row of the next key: the one at the cursor if the key exists. */
    method ConsiderNext(cfg: Config, g: Group, key: Option<PrimaryKey>, entities: seq<Option<Row>>, cursor: nat, before: Batch) returns (batch: Batch, next: nat)
      requires key == PrimaryKeyFromEntityKey(g.id.table, g.id.entityKey)
      requires key.Some? ==> cursor < |entities| && entities[cursor] == Lookup(rows, RowId(g.id.table, key.value))
      ensures batch == Taken(cfg, rows, before, g) && next == cursor + if key.Some? then 1 else 0
    {
      var entity: Option<Row> := None;
      next := cursor;
      if key.Some? {
        entity := entities[cursor];
        next := cursor + 1;
      }
      batch := ConsiderRow(cfg, g, key, entity, before);
    }

    /** One row: useless without an entity, the end of the batch if it does not fit, an item otherwise. */
    method ConsiderRow(cfg: Config, g: Group, key: Option<PrimaryKey>, entity: Option<Row>, before: Batch) returns (batch: Batch)
      requires key == PrimaryKeyFromEntityKey(g.id.table, g.id.entityKey)
      requires entity == if key.Some? then Lookup(rows, RowId(g.id.table, key.value)) else None
      ensures batch == Taken(cfg, rows, before, g)
    {
      if entity.None? {
        batch := before.(invalid := before.invalid + SeqSet(g.seqs));
      } else {
        var payload := Payload(cfg.settings, g.id.table, entity.value);
        var size := cfg.sizeOf(payload);
        if before.items != [] && (before.size + size > cfg.maxChars || |before.items| >= cfg.maxEntities) {
          batch := before.(hasMore := true);
        } else {
          batch := before.(items := before.items + [Item(g.id, key.value, entity.value, payload, g.seqs)], size := before.size + size);
        }
      }
    }

    /** Drops the outbox rows of the items that are still as they were pushed; reports the others. */
    method SettleOutbox(items: seq<Item>) returns (changed: set<EntityId>)
      modifies this
      ensures changed == ChangedIds(old(rows), items)
      ensures Contents() == old(Contents()).(outbox := Without(old(outbox), SettledSeqs(old(rows), items)))
    {
      changed := {};
      KeepsAll(outbox);
      for i := 0 to |items|
        invariant changed == ChangedIds(rows, items[..i])
        invariant Contents() == old(Contents()).(outbox := Without(old(outbox), SettledSeqs(rows, items[..i])))
      {
        var item := items[i];
        var id := RowId(item.id.table, item.key);
        SettleStep(old(outbox), rows, items, i);
        if id in rows && rows[id].updatedAt != item.entity.updatedAt {
          changed := changed + {item.id};
        } else {
          outbox := Without(outbox, SeqSet(item.seqs));
        }
      }
      assert items[..|items|] == items;
    }
  }

  lemma SettleStep(outbox: seq<OutboxRow>, rows: Tables, items: seq<Item>, i: nat)
    requires i < |items|
    ensures var before, after := SettledSeqs(rows, items[..i]), SettledSeqs(rows, items[..i + 1]);
      Without(outbox, after) == if ChangedSince(rows, items[i]) then Without(outbox, before) else Without(Without(outbox, before), SeqSet(items[i].seqs))
    ensures ChangedIds(rows, items[..i + 1]) == ChangedIds(rows, items[..i]) + if ChangedSince(rows, items[i]) then {items[i].id} else {}
  {
    assert items[..i + 1][..i] == items[..i];
    WithoutTwice(outbox, SettledSeqs(rows, items[..i]), SeqSet(items[i].seqs));
    ChangedStep(rows, items[..i], items[i]);
    assert items[..i + 1] == items[..i] + [items[i]];
  }

  lemma ChangedStep(rows: Tables, items: seq<Item>, item: Item)
    ensures ChangedIds(rows, items + [item]) == ChangedIds(rows, items) + if ChangedSince(rows, item) then {item.id} else {}
  {
    var more := items + [item];
    assert more[|items|] == item;
    forall i | 0 <= i < |items| ensures more[i] == items[i] {}
  }

  lemma {:induction false} KeepsAll(outbox: seq<OutboxRow>)
    ensures Without(outbox, {}) == outbox
  {
    if outbox != [] {
      KeepsAll(outbox[..|outbox| - 1]);
      assert outbox == outbox[..|outbox| - 1] + [outbox[|outbox| - 1]];
    }
  }
}
