module SyncPull {
  // What a run of the sync loop pulls: where each request starts, which pages of the server's rows arrive, and what becomes of
  // the rows in them. The lemmas refer to the steps of SyncProtocol, over all its runs.

  import opened Options
  import opened SyncKeys
  import opened SyncApply
  import opened SyncBatch
  import opened SyncProtocol

  // ---------- the cursor ----------

  /** The decision begins a restore: rows were rejected that are still as they were pushed, and no restore is under way. */
  predicate Restarts(s: State) { s.phase.Deciding? && s.phase.response.rejected - s.phase.changed != {} && !s.run.restoreStarted }

  /** The server says that there is more and repeats the cursor, although nothing was pushed. */
  predicate Stalls(s: State) {
    s.phase.Deciding? && !Restarts(s) && s.phase.response.hasMore && Some(s.phase.response.cursor) == s.run.cursor && s.phase.batch.items == []
  }

  /** The cursor of the last accepted response since the last restore began: nothing right after it began, and at first the given one. */
  function LastCursor(s: State, steps: seq<Step>, before: Option<string>): Option<string>
    requires Possible(s, steps)
    decreases |steps|
  {
    if steps == [] then before
    else LastCursor(Do(s, steps[0]), steps[1..], CursorAfter(s, steps[0], before))
  }

  function CursorAfter(s: State, step: Step, before: Option<string>): Option<string>
    requires Enabled(s, step)
  {
    if !step.Decide? || Stalls(s) then before else if Restarts(s) then None else Some(s.phase.response.cursor)
  }

  /** While a run is under way its cursor is the stored one, and so is the cursor of its request. */
  ghost predicate CursorOk(s: State) {
    (!s.phase.Idle? ==> s.run.cursor == s.kvCursor) && (s.phase.Sending? ==> s.phase.cursor == s.kvCursor)
  }

  lemma CursorStep(s: State, step: Step)
    requires CursorOk(s) && Enabled(s, step)
    ensures CursorOk(Do(s, step)) && Do(s, step).kvCursor == CursorAfter(s, step, s.kvCursor)
  {
  }

  /** Over every run, crashes included: each request asks from where the last accepted response ended, or from the start of a restore. */
  lemma {:induction false} CursorIsLastAccepted(s: State, steps: seq<Step>)
    requires CursorOk(s) && Possible(s, steps)
    ensures CursorOk(After(s, steps)) && After(s, steps).kvCursor == LastCursor(s, steps, s.kvCursor)
    decreases |steps|
  {
    if steps != [] {
      CursorStep(s, steps[0]);
      CursorIsLastAccepted(Do(s, steps[0]), steps[1..]);
    }
  }

  /** A rejected row that is still as it was pushed is among the rows to restore, now and after a crash, and the pull starts over. */
  lemma RejectedIsRestored(s: State, id: EntityId)
    requires Inv(s) && s.phase.Deciding? && id in s.phase.response.rejected && id !in s.phase.changed && s.kvRestore == {}
    ensures var e := Do(s, Decide);
      id in e.kvRestore && e.kvRestore == e.run.restore == s.phase.response.rejected - s.phase.changed && e.kvCursor == None && e.run.cursor == None
  {
    assert id in s.phase.response.rejected - s.phase.changed;
  }

  // ---------- the rows that arrive ----------

  /** A row to restore holds the server's newest copy once its table has been applied, older or not than what was here. */
  lemma RestoredRowIsServers(s: State, key: PrimaryKey)
    requires Enabled(s, ApplyTable)
    requires var t := TABLE_ORDER[s.phase.next]; var came := ChangesOf(s.phase.response, t);
      EntityId(t, EntityKey(key)) in s.run.restore && Brings(came, key) && Unambiguous(came, key)
    ensures var t := TABLE_ORDER[s.phase.next]; var id := RowId(t, key);
      IsServers(t, Lookup(s.db.rows, id), ChangesOf(s.phase.response, t), key, Lookup(Do(s, ApplyTable).db.rows, id))
  {
    var t := TABLE_ORDER[s.phase.next];
    ForcedPullDecides(s.db.rows, t, ChangesOf(s.phase.response, t), s.run.restore, key);
  }

  /** The store has the row, or a newer one; keys under a restore aside. */
  predicate Holds(rows: Tables, forced: set<EntityId>, t: Table, e: Row) {
    var id := RowId(t, e.key);
    NameOf(id) in forced || (id in rows && rows[id].updatedAt >= e.updatedAt)
  }

  /** The rows of a response that no other row shares a text key with. */
  ghost predicate Came(r: Response, t: Table, e: Row) { e in ChangesOf(r, t) && Unambiguous(ChangesOf(r, t), e.key) }

  ghost predicate HeldUpTo(s: State, r: Response, n: nat)
    requires n <= |TABLE_ORDER|
  {
    forall j :: 0 <= j < n ==> HoldsTable(s.db.rows, s.forced, r, TABLE_ORDER[j])
  }

  ghost predicate HoldsTable(rows: Tables, forced: set<EntityId>, r: Response, t: Table) {
    forall e :: Came(r, t, e) ==> Holds(rows, forced, t, e)
  }

  ghost predicate AllHeld(s: State, delivered: set<(Table, Row)>) { forall d :: d in delivered ==> Holds(s.db.rows, s.forced, d.0, d.1) }

  /** Every row of every response that was applied in all its tables. */
  ghost function Delivered(s: State, steps: seq<Step>, before: set<(Table, Row)>): set<(Table, Row)>
    requires Possible(s, steps)
    decreases |steps|
  {
    if steps == [] then before else Delivered(Do(s, steps[0]), steps[1..], before + DeliveredBy(s, steps[0]))
  }

  ghost function DeliveredBy(s: State, step: Step): set<(Table, Row)>
    requires Enabled(s, step)
  {
    if step.Settle? then AllRows(s.phase.response) else {}
  }

  ghost function AllRows(r: Response): set<(Table, Row)> {
    set t, e | t in r.changes && e in r.changes[t] && Unambiguous(r.changes[t], e.key) :: (t, e)
  }

  lemma HeldLater(rows: Tables, forced: set<EntityId>, next: Tables, more: set<EntityId>, t: Table, e: Row)
    requires Holds(rows, forced, t, e) && Advances(rows, next, more) && forced <= more
    ensures Holds(next, more, t, e)
  {
    var id := RowId(t, e.key);
    if id in rows { assert SeenIn(next, more, id, rows[id]); }
  }

  /** No step takes a row back, but for keys to restore. */
  lemma StepAdvances(s: State, step: Step)
    requires Inv(s) && Enabled(s, step) && Disciplined(s, step)
    ensures Advances(s.db.rows, Do(s, step).db.rows, Do(s, step).forced) && s.forced <= Do(s, step).forced
  {
    match step {
      case PullElsewhere(t, entities) => PullAdvances(s.db.rows, t, entities, {}, s.forced);
      case ApplyTable =>
        var t := TABLE_ORDER[s.phase.next];
        PullAdvances(s.db.rows, t, ChangesOf(s.phase.response, t), s.run.restore, s.forced);
      case _ =>
    }
  }

  /** What a run has applied of its response so far is held. */
  ghost predicate ProgressOk(s: State) { s.phase.Applying? ==> s.phase.next <= |TABLE_ORDER| && HeldUpTo(s, s.phase.response, s.phase.next) }

  lemma TableHeldLater(rows: Tables, forced: set<EntityId>, next: Tables, more: set<EntityId>, r: Response, t: Table)
    requires HoldsTable(rows, forced, r, t) && Advances(rows, next, more) && forced <= more
    ensures HoldsTable(next, more, r, t)
  {
    forall e | Came(r, t, e) ensures Holds(next, more, t, e) { HeldLater(rows, forced, next, more, t, e); }
  }

  lemma TableArrives(s: State)
    requires Inv(s) && Enabled(s, ApplyTable) && ProgressOk(s)
    ensures ProgressOk(Do(s, ApplyTable))
  {
    var next, r := Do(s, ApplyTable), s.phase.response;
    StepAdvances(s, ApplyTable);
    RowsArrive(s);
    forall j | 0 <= j < s.phase.next + 1 ensures HoldsTable(next.db.rows, next.forced, r, TABLE_ORDER[j]) {
      if j < s.phase.next { TableHeldLater(s.db.rows, s.forced, next.db.rows, next.forced, r, TABLE_ORDER[j]); }
    }
  }

  lemma RowsArrive(s: State)
    requires Inv(s) && Enabled(s, ApplyTable)
    ensures HoldsTable(Do(s, ApplyTable).db.rows, s.forced, s.phase.response, TABLE_ORDER[s.phase.next])
  {
    var t := TABLE_ORDER[s.phase.next];
    forall e | Came(s.phase.response, t, e) ensures Holds(Do(s, ApplyTable).db.rows, s.forced, t, e) {
      PullIsNotBehind(s.db.rows, t, ChangesOf(s.phase.response, t), s.run.restore, e);
    }
  }

  lemma StepProgresses(s: State, step: Step)
    requires Inv(s) && Enabled(s, step) && Disciplined(s, step) && ProgressOk(s)
    ensures ProgressOk(Do(s, step))
  {
    if step.ApplyTable? {
      TableArrives(s);
    } else if !step.Answer? && Do(s, step).phase.Applying? {
      StepAdvances(s, step);
      forall j | 0 <= j < s.phase.next ensures HoldsTable(Do(s, step).db.rows, Do(s, step).forced, s.phase.response, TABLE_ORDER[j]) {
        TableHeldLater(s.db.rows, s.forced, Do(s, step).db.rows, Do(s, step).forced, s.phase.response, TABLE_ORDER[j]);
      }
    }
  }

  lemma StepHolds(s: State, step: Step, delivered: set<(Table, Row)>)
    requires Inv(s) && Enabled(s, step) && Disciplined(s, step) && ProgressOk(s) && AllHeld(s, delivered)
    ensures AllHeld(Do(s, step), delivered + DeliveredBy(s, step))
  {
    StepAdvances(s, step);
    var next := Do(s, step);
    forall d | d in delivered + DeliveredBy(s, step) ensures Holds(next.db.rows, next.forced, d.0, d.1) {
      if d !in delivered { WasApplied(s, d.0, d.1); }
      HeldLater(s.db.rows, s.forced, next.db.rows, next.forced, d.0, d.1);
    }
  }

  lemma WasApplied(s: State, t: Table, e: Row)
    requires Enabled(s, Settle) && ProgressOk(s) && (t, e) in AllRows(s.phase.response)
    ensures Holds(s.db.rows, s.forced, t, e)
  {
    EveryTableOnce(t);
    var j :| 0 <= j < 8 && TABLE_ORDER[j] == t;
    assert HoldsTable(s.db.rows, s.forced, s.phase.response, TABLE_ORDER[j]) && Came(s.phase.response, t, e);
  }

  lemma {:induction false} RunHolds(s: State, steps: seq<Step>, delivered: set<(Table, Row)>)
    requires Inv(s) && Possible(s, steps) && ProgressOk(s) && AllHeld(s, delivered)
    ensures AllHeld(After(s, steps), Delivered(s, steps, delivered))
    decreases |steps|
  {
    if steps != [] {
      StepKeeps(s, steps[0]);
      StepProgresses(s, steps[0]);
      StepHolds(s, steps[0], delivered);
      RunHolds(Do(s, steps[0]), steps[1..], delivered + DeliveredBy(s, steps[0]));
    }
  }

  /**
   * No pulled row is lost: whatever writes, other pulls and crashes come between, the store holds every row of every response
   * that was applied, or a newer one. Only keys under a forced restore are exempt.
   */
  lemma NoPulledRowIsLost(s: State, steps: seq<Step>, t: Table, row: Row)
    requires Initial(s) && Possible(s, steps) && (t, row) in Delivered(s, steps, {}) && NameOf(RowId(t, row.key)) !in After(s, steps).forced
    ensures var e := After(s, steps); RowId(t, row.key) in e.db.rows && e.db.rows[RowId(t, row.key)].updatedAt >= row.updatedAt
  {
    RunHolds(s, steps, {});
    assert Holds(After(s, steps).db.rows, After(s, steps).forced, t, row);
  }

  // ---------- a server that hands out pages ----------

  /** All rows of a server in pages; a request that carries cursor k gets the page after it. */
  datatype Server = Server(pages: seq<map<Table, seq<Row>>>, cursors: seq<string>)

  predicate ServerOk(v: Server) {
    v.pages != [] && |v.cursors| == |v.pages| && forall i, j :: 0 <= i < j < |v.cursors| ==> v.cursors[i] != v.cursors[j]
  }

  /** The cursor of a request for page k; past the last one, the last cursor. */
  function Place(v: Server, k: nat): Option<string>
    requires ServerOk(v)
  {
    if k == 0 then None else if k <= |v.pages| then Some(v.cursors[k - 1]) else Some(v.cursors[|v.pages| - 1])
  }

  /** Page k; past the last one there are no rows. */
  function PageAt(v: Server, k: nat): map<Table, seq<Row>> { if k < |v.pages| then v.pages[k] else map[] }

  /** The answer to a request for page k; what it rejects is its own affair. */
  predicate Serves(v: Server, k: nat, r: Response)
    requires ServerOk(v)
  {
    Some(r.cursor) == Place(v, k + 1) && r.hasMore == (k + 1 < |v.pages|) && r.changes == PageAt(v, k)
  }

  predicate AnswersFor(v: Server, cursor: Option<string>, r: Response)
    requires ServerOk(v)
  {
    forall k: nat :: k <= |v.pages| && cursor == Place(v, k) ==> Serves(v, k, r)
  }

  /** The steps of one run in which this server answers: it neither starts again nor crashes. */
  predicate ServedRun(v: Server, s: State, steps: seq<Step>)
    requires ServerOk(v)
    decreases |steps|
  {
    steps == []
    || (Enabled(s, steps[0]) && !steps[0].Start? && !steps[0].Crash?
        && (steps[0].Answer? ==> AnswersFor(v, s.phase.cursor, steps[0].response))
        && ServedRun(v, Do(s, steps[0]), steps[1..]))
  }

  /** The pages applied so far, each with the keys it overwrites, and where they begin: at the stored cursor, or at the start of a restore. */
  datatype Log = Log(from: nat, pages: seq<(map<Table, seq<Row>>, set<EntityId>)>)

  function Logged(log: Log, s: State, step: Step): Log
    requires Enabled(s, step)
  {
    if step.Settle? then log.(pages := log.pages + [(s.phase.response.changes, s.run.restore)])
    else if step.Decide? && Restarts(s) then Log(0, [])
    else log
  }

  /** The end of a served run, and what it pulled. */
  function Serve(v: Server, s: State, steps: seq<Step>, log: Log): (State, Log)
    requires ServerOk(v) && ServedRun(v, s, steps)
    decreases |steps|
  {
    if steps == [] then (s, log) else Serve(v, Do(s, steps[0]), steps[1..], Logged(log, s, steps[0]))
  }

  /** Each page from the first one on was applied once, in order. */
  predicate InOrder(v: Server, log: Log, restore: set<EntityId>) {
    forall i :: 0 <= i < |log.pages| ==> log.pages[i] == (PageAt(v, log.from + i), restore)
  }

  /** The page a request asks for next. */
  function NextPage(v: Server, log: Log): nat { if log.from + |log.pages| <= |v.pages| then log.from + |log.pages| else |v.pages| }

  predicate PullOk(v: Server, s: State, log: Log)
    requires ServerOk(v)
  {
    InOrder(v, log, s.run.restore) && log.from <= |v.pages|
    && match s.phase
       case Idle => s.run.round >= MAX_ROUNDS || (NextPage(v, log) == |v.pages| && s.kvRestore == {})
       case Sending(_, cursor) => s.run.cursor == Place(v, NextPage(v, log)) && cursor == s.run.cursor
       case Applying(_, r, _) => s.run.cursor == Place(v, NextPage(v, log)) && Serves(v, NextPage(v, log), r)
       case Deciding(_, r, _) =>
         && log.pages != []
         && var k := NextPage(v, log.(pages := log.pages[..|log.pages| - 1]));
         s.run.cursor == Place(v, k) && Serves(v, k, r) && Some(r.cursor) == Place(v, NextPage(v, log))
         && (!r.hasMore ==> NextPage(v, log) == |v.pages|)
       case _ => s.run.cursor == Place(v, NextPage(v, log))
  }

  lemma PlacesDiffer(v: Server, k: nat)
    requires ServerOk(v) && k + 1 < |v.pages|
    ensures Place(v, k) != Place(v, k + 1)
  {
  }

  lemma SettlePulls(v: Server, s: State, log: Log)
    requires ServerOk(v) && Enabled(s, Settle) && PullOk(v, s, log)
    ensures PullOk(v, Do(s, Settle), Logged(log, s, Settle))
  {
    var next := Logged(log, s, Settle);
    assert next.pages[..|next.pages| - 1] == log.pages;
  }

  lemma DecidePulls(v: Server, s: State, log: Log)
    requires ServerOk(v) && Enabled(s, Decide) && PullOk(v, s, log)
    ensures PullOk(v, Do(s, Decide), Logged(log, s, Decide))
  {
    var k := NextPage(v, log.(pages := log.pages[..|log.pages| - 1]));
    if s.phase.response.hasMore { PlacesDiffer(v, k); }
  }

  lemma StepPulls(v: Server, s: State, step: Step, log: Log)
    requires ServerOk(v) && Enabled(s, step) && !step.Start? && !step.Crash? && PullOk(v, s, log)
    requires step.Answer? ==> AnswersFor(v, s.phase.cursor, step.response)
    ensures PullOk(v, Do(s, step), Logged(log, s, step))
  {
    if step.Settle? { SettlePulls(v, s, log); } else if step.Decide? { DecidePulls(v, s, log); }
  }

  lemma {:induction false} RunPulls(v: Server, s: State, steps: seq<Step>, log: Log)
    requires ServerOk(v) && ServedRun(v, s, steps) && PullOk(v, s, log)
    ensures var e := Serve(v, s, steps, log); PullOk(v, e.0, e.1) && (e.1.from == log.from || e.1.from == 0)
    decreases |steps|
  {
    if steps != [] {
      StepPulls(v, s, steps[0], log);
      RunPulls(v, Do(s, steps[0]), steps[1..], Logged(log, s, steps[0]));
    }
  }

  /**
   * A run that starts with the cursor of page `from` pulls every page from there on, each once and in order, whatever is written
   * meanwhile and however many rounds the pushes take; from the first page if a restore begins in it, and then every page with
   * all the keys to restore. When it ends before its last round, no page is left
   * and no key to restore is kept.
   */
  lemma EveryPageIsPulledOnce(v: Server, s: State, cfg: Config, steps: seq<Step>, from: nat)
    requires ServerOk(v) && s.phase.Idle? && from <= |v.pages| && s.kvCursor == Place(v, from) && ServedRun(v, Do(s, Start(cfg)), steps)
    ensures var e := Serve(v, Do(s, Start(cfg)), steps, Log(from, []));
      && InOrder(v, e.1, e.0.run.restore) && (e.1.from == from || e.1.from == 0)
      && (e.0.phase.Idle? && e.0.run.round < 500 ==> e.1.from + |e.1.pages| >= |v.pages| && e.0.kvRestore == {})
  {
    RunPulls(v, Do(s, Start(cfg)), steps, Log(from, []));
    var e := Serve(v, Do(s, Start(cfg)), steps, Log(from, []));
    PulledAll(v, e.0, e.1);
  }

  lemma PulledAll(v: Server, s: State, log: Log)
    requires ServerOk(v) && PullOk(v, s, log)
    ensures InOrder(v, log, s.run.restore)
    ensures s.phase.Idle? && s.run.round < 500 ==> log.from + |log.pages| >= |v.pages| && s.kvRestore == {}
  {
  }
}
