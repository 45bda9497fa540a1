module SyncBatch {
  // The outbox and the batches made from it: which rows a push takes, in which order, and which outbox rows go away once the
  // server has answered.

  import opened Options
  import opened SyncKeys
  import opened SyncApply

  /** An outbox row may name a table this version does not synchronise. */
  datatype TableName = Known(table: Table) | Unknown(name: string)

  datatype OutboxRow = OutboxRow(seqNo: nat, name: TableName, entityKey: string)

  datatype Db = Db(rows: Tables, outbox: seq<OutboxRow>, nextSeq: nat)

  predicate Names(row: OutboxRow, id: EntityId) { row.name == Known(id.table) && row.entityKey == id.entityKey }

  predicate HasPending(outbox: seq<OutboxRow>, id: EntityId) {
    exists i :: 0 <= i < |outbox| && Names(outbox[i], id)
  }

  /** Sequence numbers grow along the outbox and stay below the next one. */
  ghost predicate ValidOutbox(outbox: seq<OutboxRow>, nextSeq: nat) {
    && (forall i, j :: 0 <= i < j < |outbox| ==> outbox[i].seqNo < outbox[j].seqNo)
    && (forall i :: 0 <= i < |outbox| ==> outbox[i].seqNo < nextSeq)
  }

  /** A local write: the row, and an outbox row unless its key already has one. */
  function Saved(db: Db, t: Table, row: Row): Db {
    var id := RowId(t, row.key);
    var rows := db.rows[id := row];
    if HasPending(db.outbox, NameOf(id)) then Db(rows, db.outbox, db.nextSeq)
    else Db(rows, db.outbox + [OutboxRow(db.nextSeq, Known(t), EntityKey(row.key))], db.nextSeq + 1)
  }

  // ---------- what there is to push ----------

  datatype Group = Group(id: EntityId, seqs: seq<nat>)

  /** Adds a sequence number to the group of its key, or starts a group. */
  function AddTo(groups: seq<Group>, id: EntityId, seqNo: nat): seq<Group> {
    if groups == [] then [Group(id, [seqNo])]
    else if groups[0].id == id then [groups[0].(seqs := groups[0].seqs + [seqNo])] + groups[1..]
    else [groups[0]] + AddTo(groups[1..], id, seqNo)
  }

  /** The outbox rows of each key, keys in the order of their first row. */
  function Grouped(outbox: seq<OutboxRow>): seq<Group> {
    if outbox == [] then []
    else
      var n := |outbox| - 1;
      var row := outbox[n];
      if row.name.Known? then AddTo(Grouped(outbox[..n]), EntityId(row.name.table, row.entityKey), row.seqNo)
      else Grouped(outbox[..n])
  }

  function UnknownSeqs(outbox: seq<OutboxRow>): set<nat> {
    set i | 0 <= i < |outbox| && outbox[i].name.Unknown? :: outbox[i].seqNo
  }

  datatype Settings = Settings(syncAnnotations: bool, syncDocumentText: bool)

  /** Batch limits and the length of a row's JSON text. */
  datatype Config = Config(settings: Settings, maxChars: int, maxEntities: int, sizeOf: Row -> nat)

  predicate Withheld(settings: Settings, t: Table) { t == Annotations && !settings.syncAnnotations }

  function OfTable(groups: seq<Group>, t: Table): seq<Group> {
    if groups == [] then []
    else
      var n := |groups| - 1;
      OfTable(groups[..n], t) + if groups[n].id.table == t then [groups[n]] else []
  }

  /** The groups a push goes through: the first n tables in order, withheld ones left out. */
  function Queue(groups: seq<Group>, settings: Settings, n: nat): seq<Group>
    requires n <= |TABLE_ORDER|
  {
    if n == 0 then []
    else
      var t := TABLE_ORDER[n - 1];
      Queue(groups, settings, n - 1) + if Withheld(settings, t) then [] else OfTable(groups, t)
  }

  function EntityFor(view: Tables, id: EntityId): Option<Row> {
    match PrimaryKeyFromEntityKey(id.table, id.entityKey)
    case None => None
    case Some(k) => Lookup(view, RowId(id.table, k))
  }

  function Payload(settings: Settings, t: Table, row: Row): Row {
    if t == Pages && !settings.syncDocumentText then row.(blocks := []) else row
  }

  /** A pushed row: what was read, what was sent of it and the outbox rows it stands for. */
  datatype Item = Item(id: EntityId, key: PrimaryKey, entity: Row, payload: Row, seqs: seq<nat>)

  datatype Batch = Batch(items: seq<Item>, size: nat, invalid: set<nat>, hasMore: bool)

  function SeqSet(s: seq<nat>): set<nat> { set x | x in s }

  function ItemFor(cfg: Config, view: Tables, g: Group): (r: Option<Item>)
    ensures r.Some? ==>
      && EntityFor(view, g.id) == Some(r.value.entity) && r.value.id == g.id && r.value.seqs == g.seqs
      && PrimaryKeyFromEntityKey(g.id.table, g.id.entityKey) == Some(r.value.key)
      && RowId(g.id.table, r.value.key) in view && view[RowId(g.id.table, r.value.key)] == r.value.entity
    ensures r.None? <==> EntityFor(view, g.id).None?
  {
    match PrimaryKeyFromEntityKey(g.id.table, g.id.entityKey)
    case None => None
    case Some(k) =>
      match Lookup(view, RowId(g.id.table, k))
      case None => None
      case Some(e) => Some(Item(g.id, k, e, Payload(cfg.settings, g.id.table, e), g.seqs))
  }

  predicate Full(cfg: Config, b: Batch, size: nat) {
    b.items != [] && (b.size + size > cfg.maxChars || |b.items| >= cfg.maxEntities)
  }

  /** One group: without a row its outbox rows are invalid; a row that does not fit ends the batch. */
  function Taken(cfg: Config, view: Tables, b: Batch, g: Group): Batch {
    match ItemFor(cfg, view, g)
    case None => b.(invalid := b.invalid + SeqSet(g.seqs))
    case Some(item) =>
      var size := cfg.sizeOf(item.payload);
      if Full(cfg, b, size) then b.(hasMore := true)
      else b.(items := b.items + [item], size := b.size + size)
  }

  function Scan(cfg: Config, view: Tables, invalid: set<nat>, queue: seq<Group>): Batch {
    if queue == [] then Batch([], 0, invalid, false)
    else
      var n := |queue| - 1;
      var b := Scan(cfg, view, invalid, queue[..n]);
      if b.hasMore then b else Taken(cfg, view, b, queue[n])
  }

  function FullQueue(cfg: Config, outbox: seq<OutboxRow>): seq<Group> { Queue(Grouped(outbox), cfg.settings, |TABLE_ORDER|) }

  function Collected(cfg: Config, outbox: seq<OutboxRow>, view: Tables): Batch {
    Scan(cfg, view, UnknownSeqs(outbox), FullQueue(cfg, outbox))
  }

  // ---------- what goes away ----------

  function Without(outbox: seq<OutboxRow>, gone: set<nat>): (r: seq<OutboxRow>)
    ensures forall row :: row in r <==> row in outbox && row.seqNo !in gone
    ensures |r| <= |outbox|
  {
    if outbox == [] then []
    else
      var n := |outbox| - 1;
      assert outbox == outbox[..n] + [outbox[n]];
      if outbox[n].seqNo in gone then Without(outbox[..n], gone) else Without(outbox[..n], gone) + [outbox[n]]
  }

  /** The row was written again, locally or by a pull, since it was read for the push. */
  predicate ChangedSince(rows: Tables, item: Item) {
    var id := RowId(item.id.table, item.key);
    id in rows && rows[id].updatedAt != item.entity.updatedAt
  }

  function SettledSeqs(rows: Tables, items: seq<Item>): (r: set<nat>)
    ensures forall k :: k in r ==> exists i :: 0 <= i < |items| && k in items[i].seqs && !ChangedSince(rows, items[i])
    ensures forall i, k :: 0 <= i < |items| && k in items[i].seqs && !ChangedSince(rows, items[i]) ==> k in r
  {
    if items == [] then {}
    else
      var n := |items| - 1;
      var item := items[n];
      SettledSeqs(rows, items[..n]) + if ChangedSince(rows, item) then {} else SeqSet(item.seqs)
  }

  function ChangedIds(rows: Tables, items: seq<Item>): set<EntityId> {
    set i | 0 <= i < |items| && ChangedSince(rows, items[i]) :: items[i].id
  }

  // ---------- groups ----------

  /** The outbox rows of a key. */
  ghost predicate IsGroupOf(outbox: seq<OutboxRow>, g: Group) {
    && g.seqs != []
    && forall k :: k in g.seqs <==> InGroup(outbox, g.id, k)
  }

  ghost predicate InGroup(outbox: seq<OutboxRow>, id: EntityId, k: nat) {
    exists i :: 0 <= i < |outbox| && Names(outbox[i], id) && outbox[i].seqNo == k
  }

  ghost predicate AreGroupsOf(outbox: seq<OutboxRow>, groups: seq<Group>) {
    && (forall i :: 0 <= i < |groups| ==> IsGroupOf(outbox, groups[i]))
    && (forall i, j :: 0 <= i < j < |groups| ==> groups[i].id != groups[j].id)
    && (forall i :: 0 <= i < |outbox| && outbox[i].name.Known? ==> HasGroup(groups, EntityId(outbox[i].name.table, outbox[i].entityKey)))
  }

  ghost predicate HasGroup(groups: seq<Group>, id: EntityId) { exists k :: 0 <= k < |groups| && groups[k].id == id }

  lemma AddedBehind(first: Group, rest: seq<Group>, i: nat, id: EntityId, seqNo: nat)
    requires first.id != id && i <= |rest|
    ensures [first] + (if i < |rest| then rest[i := rest[i].(seqs := rest[i].seqs + [seqNo])] else rest + [Group(id, [seqNo])])
      == var all := [first] + rest; if i + 1 < |all| then all[i + 1 := all[i + 1].(seqs := all[i + 1].seqs + [seqNo])] else all + [Group(id, [seqNo])]
    ensures HasGroup([first] + rest, id) <==> HasGroup(rest, id)
  {
    var all := [first] + rest;
    if HasGroup(all, id) {
      var j :| 0 <= j < |all| && all[j].id == id;
      assert rest[j - 1].id == id;
    }
    if HasGroup(rest, id) {
      var j :| 0 <= j < |rest| && rest[j].id == id;
      assert all[j + 1].id == id;
    }
  }

  /** Where AddTo puts a number. */
  lemma {:induction false} AddToAt(groups: seq<Group>, id: EntityId, seqNo: nat) returns (k: nat)
    requires forall i, j :: 0 <= i < j < |groups| ==> groups[i].id != groups[j].id
    ensures k <= |groups| && (k < |groups| ==> groups[k].id == id) && (k == |groups| ==> !HasGroup(groups, id))
    ensures AddTo(groups, id, seqNo) == if k < |groups| then groups[k := groups[k].(seqs := groups[k].seqs + [seqNo])] else groups + [Group(id, [seqNo])]
  {
    if groups == [] {
      k := 0;
    } else if groups[0].id == id {
      k := 0;
    } else {
      var rest := groups[1..];
      var i := AddToAt(rest, id, seqNo);
      k := i + 1;
      AddedBehind(groups[0], rest, i, id, seqNo);
      assert groups == [groups[0]] + rest;
    }
  }

  lemma GroupGrows(before: seq<OutboxRow>, row: OutboxRow, g: Group)
    requires IsGroupOf(before, g)
    ensures Names(row, g.id) ==> IsGroupOf(before + [row], g.(seqs := g.seqs + [row.seqNo]))
    ensures !Names(row, g.id) ==> IsGroupOf(before + [row], g)
  {
    forall k: nat ensures InGroup(before + [row], g.id, k) <==> InGroup(before, g.id, k) || (Names(row, g.id) && k == row.seqNo) {
      InGroupGrows(before, row, g.id, k);
    }
  }

  lemma InGroupGrows(before: seq<OutboxRow>, row: OutboxRow, id: EntityId, k: nat)
    ensures InGroup(before + [row], id, k) <==> InGroup(before, id, k) || (Names(row, id) && k == row.seqNo)
  {
    var after := before + [row];
    assert after[|before|] == row;
    if InGroup(before, id, k) {
      var i :| 0 <= i < |before| && Names(before[i], id) && before[i].seqNo == k;
      assert after[i] == before[i];
    }
  }

  lemma GroupStarts(before: seq<OutboxRow>, row: OutboxRow, groups: seq<Group>, id: EntityId)
    requires AreGroupsOf(before, groups) && !HasGroup(groups, id) && Names(row, id)
    ensures IsGroupOf(before + [row], Group(id, [row.seqNo]))
  {
    var after := before + [row];
    assert after[|before|] == row;
    forall i | 0 <= i < |after| && Names(after[i], id) ensures i == |before| {}
    forall k: nat ensures k in [row.seqNo] <==> InGroup(after, id, k) {
      if InGroup(after, id, k) { var i :| 0 <= i < |after| && Names(after[i], id) && after[i].seqNo == k; }
    }
  }

  lemma {:induction false} GroupedIsGrouping(outbox: seq<OutboxRow>)
    ensures AreGroupsOf(outbox, Grouped(outbox))
  {
    if outbox != [] {
      var n := |outbox| - 1;
      var before, row := outbox[..n], outbox[n];
      assert outbox == before + [row];
      GroupedIsGrouping(before);
      var groups := Grouped(before);
      forall g | g in groups ensures (Names(row, g.id) ==> IsGroupOf(outbox, g.(seqs := g.seqs + [row.seqNo]))) && (!Names(row, g.id) ==> IsGroupOf(outbox, g)) {
        GroupGrows(before, row, g);
      }
      if row.name.Known? {
        var id := EntityId(row.name.table, row.entityKey);
        var k := AddToAt(groups, id, row.seqNo);
        if k == |groups| { GroupStarts(before, row, groups, id); }
        GroupingGrows(outbox, groups, k, id, Grouped(outbox));
      }
    }
  }

  lemma GroupingGrows(outbox: seq<OutboxRow>, groups: seq<Group>, k: nat, id: EntityId, result: seq<Group>)
    requires outbox != [] && AreGroupsOf(outbox[..|outbox| - 1], groups) && outbox[|outbox| - 1].name == Known(id.table) && outbox[|outbox| - 1].entityKey == id.entityKey
    requires k <= |groups| && (k < |groups| ==> groups[k].id == id) && (k == |groups| ==> !HasGroup(groups, id))
    requires var row := outbox[|outbox| - 1];
      && result == (if k < |groups| then groups[k := groups[k].(seqs := groups[k].seqs + [row.seqNo])] else groups + [Group(id, [row.seqNo])])
      && (k == |groups| ==> IsGroupOf(outbox, Group(id, [row.seqNo])))
      && (forall g :: g in groups ==> (Names(row, g.id) ==> IsGroupOf(outbox, g.(seqs := g.seqs + [row.seqNo]))) && (!Names(row, g.id) ==> IsGroupOf(outbox, g)))
    ensures AreGroupsOf(outbox, result)
  {
    var n := |outbox| - 1;
    forall i | 0 <= i < |result| ensures IsGroupOf(outbox, result[i]) {
      if i < |groups| { assert groups[i] in groups; }
    }
    assert result[k].id == id;
    forall i | 0 <= i < |outbox| && outbox[i].name.Known? ensures HasGroup(result, EntityId(outbox[i].name.table, outbox[i].entityKey)) {
      if i < n {
        assert outbox[..n][i] == outbox[i];
        var j :| 0 <= j < |groups| && groups[j].id == EntityId(outbox[i].name.table, outbox[i].entityKey);
        assert result[j].id == groups[j].id;
      }
    }
  }

  /** The map of groups is already in the order the batch sorts it into: by first sequence number. */
  lemma {:induction false} GroupsAreInSeqOrder(outbox: seq<OutboxRow>, nextSeq: nat)
    requires ValidOutbox(outbox, nextSeq)
    ensures forall i :: 0 <= i < |Grouped(outbox)| ==> Grouped(outbox)[i].seqs != [] && Grouped(outbox)[i].seqs[0] < nextSeq
    ensures forall i, j :: 0 <= i < j < |Grouped(outbox)| ==> Grouped(outbox)[i].seqs[0] < Grouped(outbox)[j].seqs[0]
  {
    if outbox != [] {
      var n := |outbox| - 1;
      GroupsAreInSeqOrder(outbox[..n], outbox[n].seqNo);
      GroupedIsGrouping(outbox[..n]);
      if outbox[n].name.Known? {
        var k := AddToAt(Grouped(outbox[..n]), EntityId(outbox[n].name.table, outbox[n].entityKey), outbox[n].seqNo);
      }
    }
  }

  lemma {:induction false} OfTableHas(groups: seq<Group>, t: Table, g: Group)
    ensures g in OfTable(groups, t) <==> g in groups && g.id.table == t
  {
    if groups != [] {
      var n := |groups| - 1;
      assert groups == groups[..n] + [groups[n]];
      OfTableHas(groups[..n], t, g);
    }
  }

  lemma {:induction false} QueueHasUpTo(groups: seq<Group>, settings: Settings, n: nat, g: Group)
    requires n <= |TABLE_ORDER|
    ensures g in Queue(groups, settings, n) <==> g in groups && !Withheld(settings, g.id.table) && g.id.table in TABLE_ORDER[..n]
  {
    if n > 0 {
      QueueHasUpTo(groups, settings, n - 1, g);
      OfTableHas(groups, TABLE_ORDER[n - 1], g);
      assert TABLE_ORDER[..n] == TABLE_ORDER[..n - 1] + [TABLE_ORDER[n - 1]];
    }
  }

  /** The queue holds every group except the withheld ones. */
  lemma QueueHas(cfg: Config, outbox: seq<OutboxRow>, g: Group)
    ensures g in FullQueue(cfg, outbox) <==> g in Grouped(outbox) && !Withheld(cfg.settings, g.id.table)
  {
    QueueHasUpTo(Grouped(outbox), cfg.settings, |TABLE_ORDER|, g);
    EveryTableOnce(g.id.table);
    assert TABLE_ORDER[..|TABLE_ORDER|] == TABLE_ORDER;
  }

  // ---------- the batch is the longest prefix that fits ----------

  /** Every row that could be pushed, in queue order. */
  function Pushable(cfg: Config, view: Tables, queue: seq<Group>): seq<Item> {
    if queue == [] then []
    else
      var n := |queue| - 1;
      var item := ItemFor(cfg, view, queue[n]);
      Pushable(cfg, view, queue[..n]) + if item.Some? then [item.value] else []
  }

  function TotalSize(cfg: Config, items: seq<Item>): nat {
    if items == [] then 0 else TotalSize(cfg, items[..|items| - 1]) + cfg.sizeOf(items[|items| - 1].payload)
  }

  /** A single row always fits; several must stay within both limits. */
  predicate Fits(cfg: Config, items: seq<Item>) {
    |items| <= 1 || (TotalSize(cfg, items) <= cfg.maxChars && |items| <= cfg.maxEntities)
  }

  /** b holds the longest prefix of `all` that fits, and says whether something is left. */
  ghost predicate IsLongestPrefix(cfg: Config, all: seq<Item>, b: Batch) {
    && |b.items| <= |all| && b.items == all[..|b.items|]
    && b.size == TotalSize(cfg, b.items)
    && Fits(cfg, b.items)
    && (b.hasMore <==> |b.items| < |all|)
    && (forall m :: |b.items| < m <= |all| ==> !Fits(cfg, all[..m]))
    && (all != [] ==> b.items != [])
  }

  lemma {:induction false} TotalSizeGrows(cfg: Config, items: seq<Item>, n: nat)
    requires n <= |items|
    ensures TotalSize(cfg, items[..n]) <= TotalSize(cfg, items)
  {
    if n < |items| {
      TotalSizeGrows(cfg, items[..|items| - 1], n);
      assert items[..|items| - 1][..n] == items[..n];
    } else {
      assert items[..n] == items;
    }
  }

  lemma PrefixGrows(cfg: Config, all: seq<Item>, b: Batch, item: Item)
    requires IsLongestPrefix(cfg, all, b) && !b.hasMore
    ensures var size := cfg.sizeOf(item.payload);
      IsLongestPrefix(cfg, all + [item], if Full(cfg, b, size) then b.(hasMore := true) else b.(items := b.items + [item], size := b.size + size))
  {
    assert b.items == all;
    assert (all + [item])[..|all|] == all && (all + [item])[..|all| + 1] == all + [item];
    assert TotalSize(cfg, all + [item]) == b.size + cfg.sizeOf(item.payload);
  }

  lemma PrefixKept(cfg: Config, all: seq<Item>, b: Batch, item: Item)
    requires IsLongestPrefix(cfg, all, b) && b.hasMore
    ensures IsLongestPrefix(cfg, all + [item], b)
  {
    var more := all + [item];
    assert more[..|b.items|] == all[..|b.items|];
    forall m | |b.items| < m <= |more| ensures !Fits(cfg, more[..m]) {
      if m <= |all| { assert more[..m] == all[..m]; }
      else {
        assert all[..|all|] == all && !Fits(cfg, all);
        TotalSizeGrows(cfg, more, |all|);
        assert more[..|all|] == all && more[..m] == more;
      }
    }
  }

  lemma InvalidAside(cfg: Config, all: seq<Item>, b: Batch, invalid: set<nat>)
    requires IsLongestPrefix(cfg, all, b)
    ensures IsLongestPrefix(cfg, all, b.(invalid := invalid))
  {
  }

  /** One more group, whatever comes of it. */
  lemma TakenKeepsPrefix(cfg: Config, view: Tables, all: seq<Item>, b: Batch, g: Group)
    requires IsLongestPrefix(cfg, all, b)
    ensures var item := ItemFor(cfg, view, g);
      IsLongestPrefix(cfg, all + if item.Some? then [item.value] else [], if b.hasMore then b else Taken(cfg, view, b, g))
  {
    var item := ItemFor(cfg, view, g);
    if item.None? {
      assert all + [] == all;
      InvalidAside(cfg, all, b, b.invalid + SeqSet(g.seqs));
    } else if b.hasMore {
      PrefixKept(cfg, all, b, item.value);
    } else {
      PrefixGrows(cfg, all, b, item.value);
    }
  }

  lemma {:induction false} ScanTakesLongestPrefix(cfg: Config, view: Tables, invalid: set<nat>, queue: seq<Group>)
    ensures IsLongestPrefix(cfg, Pushable(cfg, view, queue), Scan(cfg, view, invalid, queue))
  {
    if queue != [] {
      var init := queue[..|queue| - 1];
      ScanTakesLongestPrefix(cfg, view, invalid, init);
      TakenKeepsPrefix(cfg, view, Pushable(cfg, view, init), Scan(cfg, view, invalid, init), queue[|queue| - 1]);
    }
  }

  /** A batch is the longest prefix of the pushable rows that fits; it is not empty if there is one. */
  lemma BatchIsLongestPrefix(cfg: Config, outbox: seq<OutboxRow>, view: Tables)
    ensures IsLongestPrefix(cfg, Pushable(cfg, view, FullQueue(cfg, outbox)), Collected(cfg, outbox, view))
  {
    ScanTakesLongestPrefix(cfg, view, UnknownSeqs(outbox), FullQueue(cfg, outbox));
  }

  /** Once a row did not fit, nothing more is taken. */
  lemma {:induction false} ScanStops(cfg: Config, view: Tables, invalid: set<nat>, queue: seq<Group>, n: nat)
    requires n <= |queue| && Scan(cfg, view, invalid, queue[..n]).hasMore
    ensures Scan(cfg, view, invalid, queue) == Scan(cfg, view, invalid, queue[..n])
  {
    if n < |queue| {
      var m := |queue| - 1;
      assert queue[..m][..n] == queue[..n];
      ScanStops(cfg, view, invalid, queue[..m], n);
    } else {
      assert queue[..n] == queue;
    }
  }

  /** Every item stands for a group and carries that group's own row. */
  ghost predicate IsOwnItem(cfg: Config, view: Tables, queue: seq<Group>, item: Item) {
    exists g :: g in queue && ItemFor(cfg, view, g) == Some(item)
  }

  lemma {:induction false} PushableOwn(cfg: Config, view: Tables, queue: seq<Group>, item: Item)
    ensures item in Pushable(cfg, view, queue) <==> IsOwnItem(cfg, view, queue, item)
  {
    if queue != [] {
      var n := |queue| - 1;
      assert queue == queue[..n] + [queue[n]];
      PushableOwn(cfg, view, queue[..n], item);
    }
  }

  lemma ItemsOwn(cfg: Config, view: Tables, outbox: seq<OutboxRow>, item: Item)
    requires item in Collected(cfg, outbox, view).items
    ensures IsOwnItem(cfg, view, FullQueue(cfg, outbox), item)
  {
    BatchIsLongestPrefix(cfg, outbox, view);
    PushableOwn(cfg, view, FullQueue(cfg, outbox), item);
  }

  /**
   * What is sent of a row is the row, except that a page goes without its text when the text of documents is not to be shared;
   * and no annotation goes when annotations are not.
   */
  predicate SendsOnlyWhatItMay(settings: Settings, item: Item) {
    && item.payload.(blocks := item.entity.blocks) == item.entity
    && item.payload.blocks == (if item.id.table == Pages && !settings.syncDocumentText then [] else item.entity.blocks)
    && (item.id.table == Annotations ==> settings.syncAnnotations)
  }

  lemma PrivacyIsKept(cfg: Config, view: Tables, outbox: seq<OutboxRow>, item: Item)
    requires item in Collected(cfg, outbox, view).items
    ensures SendsOnlyWhatItMay(cfg.settings, item)
  {
    ItemsOwn(cfg, view, outbox, item);
    var g :| g in FullQueue(cfg, outbox) && ItemFor(cfg, view, g) == Some(item);
    QueueHas(cfg, outbox, g);
  }

  // ---------- parents before the rows that reference them ----------

  /** The place of a table in a push: what others refer to comes first. */
  function Rank(t: Table): nat {
    match t
    case Children => 0
    case Documents => 1
    case Pages => 2
    case Exercises => 3
    case Annotations => 4
    case Answers => 5
    case Progress => 6
    case Sessions => 7
  }

  /** By table, and within a table by the oldest outbox row. */
  predicate Earlier(a: EntityId, x: seq<nat>, b: EntityId, y: seq<nat>) {
    x != [] && y != [] && (Rank(a.table) < Rank(b.table) || (a.table == b.table && x[0] < y[0]))
  }

  ghost predicate GroupsInOrder(groups: seq<Group>) {
    forall i, j :: 0 <= i < j < |groups| ==> Earlier(groups[i].id, groups[i].seqs, groups[j].id, groups[j].seqs)
  }

  ghost predicate ItemsInOrder(items: seq<Item>) {
    forall i, j :: 0 <= i < j < |items| ==> Earlier(items[i].id, items[i].seqs, items[j].id, items[j].seqs)
  }

  ghost predicate BySeq(groups: seq<Group>) {
    && (forall i :: 0 <= i < |groups| ==> groups[i].seqs != [])
    && forall i, j :: 0 <= i < j < |groups| ==> groups[i].seqs[0] < groups[j].seqs[0]
  }

  lemma {:induction false} OfTableInOrder(groups: seq<Group>, t: Table)
    requires BySeq(groups)
    ensures GroupsInOrder(OfTable(groups, t)) && forall g :: g in OfTable(groups, t) ==> g.id.table == t && g.seqs != []
  {
    if groups != [] {
      var n := |groups| - 1;
      OfTableInOrder(groups[..n], t);
      forall g | g in OfTable(groups[..n], t) ensures g.seqs[0] < groups[n].seqs[0] { OfTableHas(groups[..n], t, g); }
    }
  }

  lemma {:induction false} QueueInOrder(groups: seq<Group>, settings: Settings, n: nat)
    requires BySeq(groups) && n <= |TABLE_ORDER|
    ensures GroupsInOrder(Queue(groups, settings, n)) && forall g :: g in Queue(groups, settings, n) ==> Rank(g.id.table) < n && g.seqs != []
  {
    if n > 0 {
      var t := TABLE_ORDER[n - 1];
      QueueInOrder(groups, settings, n - 1);
      OfTableInOrder(groups, t);
      assert Rank(t) == n - 1;
      Concatenated(Queue(groups, settings, n - 1), OfTable(groups, t), n - 1);
    }
  }

  lemma Concatenated(before: seq<Group>, more: seq<Group>, n: nat)
    requires GroupsInOrder(before) && GroupsInOrder(more)
    requires forall g :: g in before ==> Rank(g.id.table) < n && g.seqs != []
    requires forall g :: g in more ==> Rank(g.id.table) == n && g.seqs != []
    ensures GroupsInOrder(before + more)
  {
    var all := before + more;
    forall i, j | 0 <= i < j < |all| ensures Earlier(all[i].id, all[i].seqs, all[j].id, all[j].seqs) {
      assert i < |before| ==> all[i] in before;
      assert i >= |before| ==> all[i] == more[i - |before|];
      assert j < |before| ==> all[j] == before[j];
      assert j >= |before| ==> all[j] == more[j - |before|] && all[j] in more;
    }
  }

  lemma {:induction false} PushableInOrder(cfg: Config, view: Tables, queue: seq<Group>)
    requires GroupsInOrder(queue)
    ensures ItemsInOrder(Pushable(cfg, view, queue))
  {
    if queue != [] {
      var n := |queue| - 1;
      PushableInOrder(cfg, view, queue[..n]);
      var before := Pushable(cfg, view, queue[..n]);
      forall i | 0 <= i < |before| ensures Earlier(before[i].id, before[i].seqs, queue[n].id, queue[n].seqs) {
        PushableOwn(cfg, view, queue[..n], before[i]);
        var g :| g in queue[..n] && ItemFor(cfg, view, g) == Some(before[i]);
        var k :| 0 <= k < n && queue[k] == g;
      }
    }
  }

  /** A batch goes through the tables in order, parents first, and through each table oldest first. */
  lemma BatchIsInOrder(cfg: Config, view: Tables, outbox: seq<OutboxRow>, nextSeq: nat)
    requires ValidOutbox(outbox, nextSeq)
    ensures ItemsInOrder(Collected(cfg, outbox, view).items)
  {
    GroupsAreInSeqOrder(outbox, nextSeq);
    QueueInOrder(Grouped(outbox), cfg.settings, |TABLE_ORDER|);
    PushableInOrder(cfg, view, FullQueue(cfg, outbox));
    BatchIsLongestPrefix(cfg, outbox, view);
  }

  /** The outbox row cannot be pushed: unknown table, or no row under its key. */
  predicate Unpushable(view: Tables, row: OutboxRow) {
    row.name.Unknown? || EntityFor(view, EntityId(row.name.table, row.entityKey)).None?
  }

  /** A sequence number of an outbox row that cannot be pushed. */
  ghost predicate IsUnpushableSeq(outbox: seq<OutboxRow>, view: Tables, k: nat) {
    exists i :: 0 <= i < |outbox| && outbox[i].seqNo == k && Unpushable(view, outbox[i])
  }

  lemma {:induction false} ScanInvalid(cfg: Config, view: Tables, outbox: seq<OutboxRow>, invalid: set<nat>, queue: seq<Group>)
    requires forall k :: k in invalid ==> IsUnpushableSeq(outbox, view, k)
    requires forall g :: g in queue ==> IsGroupOf(outbox, g)
    ensures forall k :: k in Scan(cfg, view, invalid, queue).invalid ==> IsUnpushableSeq(outbox, view, k)
    ensures invalid <= Scan(cfg, view, invalid, queue).invalid
    ensures !Scan(cfg, view, invalid, queue).hasMore ==>
      forall g :: g in queue && EntityFor(view, g.id).None? ==> SeqSet(g.seqs) <= Scan(cfg, view, invalid, queue).invalid
  {
    if queue != [] {
      var n := |queue| - 1;
      assert queue == queue[..n] + [queue[n]];
      ScanInvalid(cfg, view, outbox, invalid, queue[..n]);
      var b, g := Scan(cfg, view, invalid, queue[..n]), queue[n];
      assert g in queue;
      if !b.hasMore && ItemFor(cfg, view, g).None? {
        forall k | k in g.seqs ensures IsUnpushableSeq(outbox, view, k) {
          var i :| 0 <= i < |outbox| && Names(outbox[i], g.id) && outbox[i].seqNo == k;
          assert Unpushable(view, outbox[i]);
        }
      }
    }
  }

  /** Only outbox rows that cannot be pushed are dropped by collecting, and without a rest all of those not withheld are. */
  lemma InvalidIsUnpushable(cfg: Config, view: Tables, outbox: seq<OutboxRow>)
    ensures var b := Collected(cfg, outbox, view);
      && (forall k :: k in b.invalid ==> IsUnpushableSeq(outbox, view, k))
      && UnknownSeqs(outbox) <= b.invalid
      && (!b.hasMore ==> forall g :: g in FullQueue(cfg, outbox) && EntityFor(view, g.id).None? ==> SeqSet(g.seqs) <= b.invalid)
  {
    GroupedIsGrouping(outbox);
    forall g | g in FullQueue(cfg, outbox) ensures IsGroupOf(outbox, g) { QueueHas(cfg, outbox, g); }
    ScanInvalid(cfg, view, outbox, UnknownSeqs(outbox), FullQueue(cfg, outbox));
  }

  // ---------- quiet rounds ----------

  /** A whole round in which nothing is written meanwhile and no newer row comes back. */
  function QuietRound(cfg: Config, db: Db): Db {
    var b := Collected(cfg, db.outbox, db.rows);
    db.(outbox := Without(Without(db.outbox, b.invalid), SettledSeqs(db.rows, b.items)))
  }

  lemma ItemsUnchanged(cfg: Config, db: Db, item: Item)
    requires item in Collected(cfg, db.outbox, db.rows).items
    ensures !ChangedSince(db.rows, item)
  {
    ItemsOwn(cfg, db.rows, db.outbox, item);
  }

  lemma {:induction false} WithoutShrinks(outbox: seq<OutboxRow>, gone: set<nat>, i: nat)
    requires i < |outbox| && outbox[i].seqNo in gone
    ensures |Without(outbox, gone)| < |outbox|
  {
    var n := |outbox| - 1;
    if i < n { WithoutShrinks(outbox[..n], gone, i); }
  }

  lemma {:induction false} WithoutTwice(outbox: seq<OutboxRow>, a: set<nat>, b: set<nat>)
    ensures Without(Without(outbox, a), b) == Without(outbox, a + b)
  {
    if outbox != [] {
      var n := |outbox| - 1;
      WithoutTwice(outbox[..n], a, b);
      var rest := Without(outbox[..n], a);
      if outbox[n].seqNo in a {
        assert Without(outbox, a) == rest;
      } else {
        assert Without(outbox, a) == rest + [outbox[n]];
        WithoutAppend(rest, outbox[n], b);
      }
    }
  }

  lemma WithoutAppend(rest: seq<OutboxRow>, row: OutboxRow, gone: set<nat>)
    ensures Without(rest + [row], gone) == (if row.seqNo in gone then Without(rest, gone) else Without(rest, gone) + [row])
  {
    assert (rest + [row])[..|rest|] == rest;
  }

  /** Each quiet round that finds something to push makes the outbox shorter. */
  lemma QuietRoundShrinks(cfg: Config, db: Db)
    requires Pushable(cfg, db.rows, FullQueue(cfg, db.outbox)) != []
    ensures |QuietRound(cfg, db).outbox| < |db.outbox|
  {
    var b := Collected(cfg, db.outbox, db.rows);
    BatchIsLongestPrefix(cfg, db.outbox, db.rows);
    var item := b.items[0];
    ItemsOwn(cfg, db.rows, db.outbox, item);
    ItemsUnchanged(cfg, db, item);
    var g :| g in FullQueue(cfg, db.outbox) && ItemFor(cfg, db.rows, g) == Some(item);
    QueueHas(cfg, db.outbox, g);
    GroupedIsGrouping(db.outbox);
    assert IsGroupOf(db.outbox, g);
    var k := item.seqs[0];
    assert k in g.seqs;
    var i :| 0 <= i < |db.outbox| && Names(db.outbox[i], g.id) && db.outbox[i].seqNo == k;
    WithoutTwice(db.outbox, b.invalid, SettledSeqs(db.rows, b.items));
    assert k in SettledSeqs(db.rows, b.items);
    WithoutShrinks(db.outbox, b.invalid + SettledSeqs(db.rows, b.items), i);
  }

  /** With nothing left to push, every outbox row goes, as invalid or as pushed, unless its table is withheld. */
  lemma RowGoes(cfg: Config, db: Db, i: nat)
    requires !Collected(cfg, db.outbox, db.rows).hasMore && i < |db.outbox|
    requires db.outbox[i].name.Known? ==> !Withheld(cfg.settings, db.outbox[i].name.table)
    ensures var b := Collected(cfg, db.outbox, db.rows);
      db.outbox[i].seqNo in b.invalid || db.outbox[i].seqNo in SettledSeqs(db.rows, b.items)
  {
    var row := db.outbox[i];
    InvalidIsUnpushable(cfg, db.rows, db.outbox);
    if row.name.Unknown? {
      assert row.seqNo in UnknownSeqs(db.outbox);
    } else {
      GroupedIsGrouping(db.outbox);
      var id := EntityId(row.name.table, row.entityKey);
      var k :| 0 <= k < |Grouped(db.outbox)| && Grouped(db.outbox)[k].id == id;
      var g := Grouped(db.outbox)[k];
      QueueHas(cfg, db.outbox, g);
      assert InGroup(db.outbox, g.id, row.seqNo) by { assert Names(db.outbox[i], g.id); }
      if EntityFor(db.rows, id).None? { assert row.seqNo in SeqSet(g.seqs); } else { PushedGoes(cfg, db, g, row.seqNo); }
    }
  }

  lemma PushedGoes(cfg: Config, db: Db, g: Group, k: nat)
    requires !Collected(cfg, db.outbox, db.rows).hasMore && g in FullQueue(cfg, db.outbox) && k in g.seqs
    requires EntityFor(db.rows, g.id).Some?
    ensures k in SettledSeqs(db.rows, Collected(cfg, db.outbox, db.rows).items)
  {
    var b := Collected(cfg, db.outbox, db.rows);
    var item := ItemFor(cfg, db.rows, g).value;
    PushableOwn(cfg, db.rows, FullQueue(cfg, db.outbox), item);
    BatchIsLongestPrefix(cfg, db.outbox, db.rows);
    var all := Pushable(cfg, db.rows, FullQueue(cfg, db.outbox));
    assert b.items == all[..|all|] == all;
    ItemsUnchanged(cfg, db, item);
    var i :| 0 <= i < |b.items| && b.items[i] == item;
    SettledHas(db.rows, b.items, i, k);
  }

  lemma SettledHas(rows: Tables, items: seq<Item>, i: nat, k: nat)
    requires i < |items| && !ChangedSince(rows, items[i]) && k in items[i].seqs
    ensures k in SettledSeqs(rows, items)
  {
  }

  lemma RestIsWithheld(cfg: Config, db: Db, row: OutboxRow)
    requires !Collected(cfg, db.outbox, db.rows).hasMore && row in QuietRound(cfg, db).outbox
    ensures row.name.Known? && Withheld(cfg.settings, row.name.table)
  {
    var i :| 0 <= i < |db.outbox| && db.outbox[i] == row;
    if row.name.Known? ==> !Withheld(cfg.settings, row.name.table) { RowGoes(cfg, db, i); }
  }

  lemma MoreMeansPushable(cfg: Config, db: Db)
    requires Collected(cfg, db.outbox, db.rows).hasMore
    ensures |QuietRound(cfg, db).outbox| < |db.outbox|
  {
    BatchIsLongestPrefix(cfg, db.outbox, db.rows);
    QuietRoundShrinks(cfg, db);
  }

  /** Quiet rounds until nothing more is to be pushed. */
  function Drained(cfg: Config, db: Db): Db
    decreases |db.outbox|
  {
    if Collected(cfg, db.outbox, db.rows).hasMore then
      MoreMeansPushable(cfg, db);
      Drained(cfg, QuietRound(cfg, db))
    else QuietRound(cfg, db)
  }

  /** How many rounds that takes. */
  function Rounds(cfg: Config, db: Db): nat
    decreases |db.outbox|
  {
    if Collected(cfg, db.outbox, db.rows).hasMore then
      MoreMeansPushable(cfg, db);
      1 + Rounds(cfg, QuietRound(cfg, db))
    else 1
  }

  /** At most one round more than there are outbox rows. */
  lemma {:induction false} RoundsBounded(cfg: Config, db: Db)
    ensures Rounds(cfg, db) <= |db.outbox| + 1
    decreases |db.outbox|
  {
    if Collected(cfg, db.outbox, db.rows).hasMore {
      MoreMeansPushable(cfg, db);
      RoundsBounded(cfg, QuietRound(cfg, db));
    }
  }

  /** Quiet rounds come to an end with nothing left but the rows of withheld tables, and leave the tables alone. */
  lemma {:induction false} DrainedKeepsOnlyWithheld(cfg: Config, db: Db)
    ensures Drained(cfg, db).rows == db.rows
    ensures forall row :: row in Drained(cfg, db).outbox ==> row.name.Known? && Withheld(cfg.settings, row.name.table)
    decreases |db.outbox|
  {
    if Collected(cfg, db.outbox, db.rows).hasMore {
      MoreMeansPushable(cfg, db);
      DrainedKeepsOnlyWithheld(cfg, QuietRound(cfg, db));
    } else {
      forall row | row in QuietRound(cfg, db).outbox ensures row.name.Known? && Withheld(cfg.settings, row.name.table) {
        RestIsWithheld(cfg, db, row);
      }
    }
  }
}
