module History {
  // Undo and redo of annotations: commands are the annotations an action created and deleted; undoing and redoing them marks
  // stored rows deleted or live again, one write at a time, and any write may fail.
  import opened Options

  const HISTORY_LIMIT := 100

  datatype Note = Note(id: string, content: string, updatedAt: int, deletedAt: Option<int>)

  datatype Command = Command(created: seq<Note>, deleted: seq<Note>)

  type Rows = map<string, Note>

  datatype Stacks = Stacks(undo: seq<Command>, redo: seq<Command>)

  datatype State = State(rows: Rows, stacks: Stacks)

  /** When each annotation is written; any clock will do. */
  type Clock = string -> int

  function NextUpdatedAt(previous: int, now: int): int { if now > previous + 1 then now else previous + 1 }

  /** Marks an annotation deleted or live again, from its current version; nothing to do if it already is. */
  function SetDeleted(rows: Rows, snapshot: Note, deleted: bool, now: int): Rows {
    var current := if snapshot.id in rows then rows[snapshot.id] else snapshot;
    if current.deletedAt.Some? == deleted then rows
    else
      var at := NextUpdatedAt(current.updatedAt, now);
      rows[snapshot.id := current.(deletedAt := if deleted then Some(at) else None, updatedAt := at)]
  }

  /** One write of a command: mark this annotation deleted, or live. */
  datatype Write = Write(note: Note, deleted: bool)

  function Marks(notes: seq<Note>, deleted: bool): (r: seq<Write>)
    ensures |r| == |notes| && forall i :: 0 <= i < |r| ==> r[i] == Write(notes[i], deleted)
  {
    seq(|notes|, i requires 0 <= i < |notes| => Write(notes[i], deleted))
  }

  /** The writes of undoing or redoing a command, in order: deletions first. */
  function Writes(c: Command, undo: bool): seq<Write> {
    if undo then Marks(c.created, true) + Marks(c.deleted, false) else Marks(c.deleted, true) + Marks(c.created, false)
  }

  function Written(rows: Rows, writes: seq<Write>, clock: Clock): Rows {
    if writes == [] then rows
    else
      var w := writes[|writes| - 1];
      SetDeleted(Written(rows, writes[..|writes| - 1], clock), w.note, w.deleted, clock(w.note.id))
  }

  predicate IsLive(rows: Rows, id: string) { id in rows && rows[id].deletedAt.None? }

  function LiveIds(rows: Rows): set<string> { set id | id in rows && rows[id].deletedAt.None? }

  function Ids(notes: seq<Note>): set<string> { set i | 0 <= i < |notes| :: notes[i].id }

  // ---------- the stacks ----------

  /** A performed action: the redo stack is dropped and the oldest commands beyond the limit too; empty commands are ignored. */
  function Pushed(s: Stacks, c: Command): Stacks {
    if c.created == [] && c.deleted == [] then s
    else
      var all := s.undo + [c];
      Stacks(if |all| > HISTORY_LIMIT then all[|all| - HISTORY_LIMIT..] else all, [])
  }

  /** One undo or redo; `writes` tells how many writes succeed before one fails, if one does. */
  function Stepped(s: State, undo: bool, fails: Option<nat>, clock: Clock): State {
    var from := if undo then s.stacks.undo else s.stacks.redo;
    if from == [] then s
    else
      var c := from[|from| - 1];
      var writes := Writes(c, undo);
      if fails.Some? && fails.value < |writes| then s.(rows := Written(s.rows, writes[..fails.value], clock))
      else
        var rows := Written(s.rows, writes, clock);
        State(rows, if undo then Stacks(from[..|from| - 1], s.stacks.redo + [c]) else Stacks(s.stacks.undo + [c], from[..|from| - 1]))
  }

  function PutAll(rows: Rows, notes: seq<Note>): Rows {
    if notes == [] then rows
    else
      var n := notes[|notes| - 1];
      PutAll(rows, notes[..|notes| - 1])[n.id := n]
  }

  function NoteAt(rows: Rows, n: Note): Note { if n.id in rows then rows[n.id] else n }

  /** The version of each annotation as it is after its own mark. */
  function Snapshots(rows: Rows, notes: seq<Note>, clock: Clock): (r: seq<Note>)
    ensures |r| == |notes|
  {
    if notes == [] then []
    else
      var n := |notes| - 1;
      Snapshots(rows, notes[..n], clock) + [NoteAt(Written(rows, Marks(notes, true), clock), notes[n])]
  }

  /** Deletes annotations, saves others, and records both as one command. */
  function Replaced(s: State, deleted: seq<Note>, created: seq<Note>, clock: Clock): State {
    var rows := Written(s.rows, Marks(deleted, true), clock);
    State(PutAll(rows, created), Pushed(s.stacks, Command(created, Snapshots(s.rows, deleted, clock))))
  }

  // ---------- what writes do ----------

  /** A write sets exactly what it says, only ever raises the stamp, and leaves the content alone. */
  lemma SetDeletedSets(rows: Rows, snapshot: Note, deleted: bool, now: int)
    requires snapshot.id in rows
    ensures var next := SetDeleted(rows, snapshot, deleted, now);
      && next.Keys == rows.Keys
      && (IsLive(next, snapshot.id) <==> !deleted)
      && (forall id :: id in rows && id != snapshot.id ==> next[id] == rows[id])
      && next[snapshot.id].content == rows[snapshot.id].content
      && (next[snapshot.id] == rows[snapshot.id] || next[snapshot.id].updatedAt > rows[snapshot.id].updatedAt)
      && (IsLive(next, snapshot.id) != IsLive(rows, snapshot.id) ==> next[snapshot.id].updatedAt > rows[snapshot.id].updatedAt)
      && (next[snapshot.id] != rows[snapshot.id] ==> next[snapshot.id].updatedAt >= now && next[snapshot.id].id == rows[snapshot.id].id)
  {
  }

  ghost predicate Known(rows: Rows, writes: seq<Write>) { forall i :: 0 <= i < |writes| ==> writes[i].note.id in rows }

  /** What the last write of an annotation wants, if it is written at all. */
  function LastWish(writes: seq<Write>, id: string): Option<bool> {
    if writes == [] then None
    else
      var w := writes[|writes| - 1];
      if w.note.id == id then Some(!w.deleted) else LastWish(writes[..|writes| - 1], id)
  }

  /** After a run of writes an annotation is live as the last of its writes wants, or as it was. */
  lemma {:induction false} WrittenSets(rows: Rows, writes: seq<Write>, clock: Clock, id: string)
    requires Known(rows, writes)
    ensures Written(rows, writes, clock).Keys == rows.Keys
    ensures var wish := LastWish(writes, id); IsLive(Written(rows, writes, clock), id) <==> if id in rows && wish.Some? then wish.value else IsLive(rows, id)
    ensures id in rows ==> Written(rows, writes, clock)[id].content == rows[id].content
    ensures id in rows ==> Written(rows, writes, clock)[id].updatedAt >= rows[id].updatedAt
    ensures id in rows && IsLive(Written(rows, writes, clock), id) != IsLive(rows, id) ==> Written(rows, writes, clock)[id].updatedAt > rows[id].updatedAt
  {
    if writes != [] {
      var n := |writes| - 1;
      WrittenSets(rows, writes[..n], clock, id);
      SetDeletedSets(Written(rows, writes[..n], clock), writes[n].note, writes[n].deleted, clock(writes[n].note.id));
    }
  }

  lemma {:induction false} LastWishOfMarks(before: seq<Write>, notes: seq<Note>, deleted: bool, id: string)
    ensures LastWish(before + Marks(notes, deleted), id) == if id in Ids(notes) then Some(!deleted) else LastWish(before, id)
  {
    var all := before + Marks(notes, deleted);
    if notes == [] {
      assert all == before;
    } else {
      var n := |notes| - 1;
      LastWishOfMarks(before, notes[..n], deleted, id);
      assert all[..|all| - 1] == before + Marks(notes[..n], deleted);
      assert all[|all| - 1] == Write(notes[n], deleted);
      IdsLast(notes);
    }
  }

  lemma IdsLast(notes: seq<Note>)
    requires notes != []
    ensures Ids(notes) == Ids(notes[..|notes| - 1]) + {notes[|notes| - 1].id}
  {
    var n := |notes| - 1;
    forall i | 0 <= i < n ensures notes[..n][i] == notes[i] {}
  }

  ghost predicate AllKnown(rows: Rows, c: Command) { Ids(c.created) <= rows.Keys && Ids(c.deleted) <= rows.Keys }

  lemma WritesKnown(rows: Rows, c: Command, undo: bool)
    requires AllKnown(rows, c)
    ensures Known(rows, Writes(c, undo))
  {
    forall i | 0 <= i < |c.created| ensures c.created[i].id in rows { assert c.created[i].id in Ids(c.created); }
    forall i | 0 <= i < |c.deleted| ensures c.deleted[i].id in rows { assert c.deleted[i].id in Ids(c.deleted); }
  }

  /** Undoing makes what was created disappear and what was deleted come back; redoing the converse. */
  lemma CommandSets(rows: Rows, c: Command, undo: bool, clock: Clock)
    requires AllKnown(rows, c)
    ensures var gone, back := if undo then Ids(c.created) else Ids(c.deleted), if undo then Ids(c.deleted) else Ids(c.created);
      LiveIds(Written(rows, Writes(c, undo), clock)) == (LiveIds(rows) - gone) + back
    ensures Written(rows, Writes(c, undo), clock).Keys == rows.Keys
  {
    WritesKnown(rows, c, undo);
    var gone, back := if undo then c.created else c.deleted, if undo then c.deleted else c.created;
    forall id ensures IsLive(Written(rows, Writes(c, undo), clock), id) <==> id in (LiveIds(rows) - Ids(gone)) + Ids(back) {
      WrittenSets(rows, Writes(c, undo), clock, id);
      LastWishOfMarks(Marks(gone, true), back, false, id);
      LastWishOfMarks([], gone, true, id);
      assert [] + Marks(gone, true) == Marks(gone, true);
    }
    WrittenSets(rows, Writes(c, undo), clock, "");
  }

  // ---------- undo inverts, redo restores ----------

  /** What an action may be: it creates new annotations and deletes live ones. */
  ghost predicate IsEdit(before: set<string>, c: Command, after: set<string>) {
    && Ids(c.created) !! before && Ids(c.deleted) <= before
    && after == (before - Ids(c.deleted)) + Ids(c.created)
  }

  /** Command i of the history: the undo stack from the bottom, then the redo stack from the top. */
  function CommandAt(s: Stacks, i: nat): Command
    requires i < |s.undo| + |s.redo|
  {
    if i < |s.undo| then s.undo[i] else s.redo[|s.redo| - 1 - (i - |s.undo|)]
  }

  /** The live annotations before and after every command of the history, and now. */
  ghost predicate HistoryOk(s: State, lives: seq<set<string>>) {
    && |lives| == |s.stacks.undo| + |s.stacks.redo| + 1
    && |s.stacks.undo| + |s.stacks.redo| <= HISTORY_LIMIT
    && LiveIds(s.rows) == lives[|s.stacks.undo|]
    && forall i :: 0 <= i < |s.stacks.undo| + |s.stacks.redo| ==> EditAt(s, lives, i)
  }

  ghost predicate EditAt(s: State, lives: seq<set<string>>, i: nat)
    requires i < |s.stacks.undo| + |s.stacks.redo| < |lives|
  {
    IsEdit(lives[i], CommandAt(s.stacks, i), lives[i + 1]) && AllKnown(s.rows, CommandAt(s.stacks, i))
  }

  /** The history moved by one, with the same live sets along it. */
  lemma MovedKeeps(s: State, next: State, lives: seq<set<string>>)
    requires HistoryOk(s, lives) && next.rows.Keys == s.rows.Keys
    requires |next.stacks.undo| + |next.stacks.redo| == |s.stacks.undo| + |s.stacks.redo|
    requires forall i :: 0 <= i < |s.stacks.undo| + |s.stacks.redo| ==> CommandAt(next.stacks, i) == CommandAt(s.stacks, i)
    requires LiveIds(next.rows) == lives[|next.stacks.undo|]
    ensures HistoryOk(next, lives)
  {
    forall i | 0 <= i < |s.stacks.undo| + |s.stacks.redo| ensures EditAt(next, lives, i) { assert EditAt(s, lives, i); }
  }

  /** An undo goes back to the live annotations before the command. */
  lemma UndoOk(s: State, lives: seq<set<string>>, clock: Clock)
    requires HistoryOk(s, lives) && s.stacks.undo != []
    ensures var next := Stepped(s, true, None, clock);
      HistoryOk(next, lives) && |next.stacks.undo| == |s.stacks.undo| - 1 && |next.stacks.redo| == |s.stacks.redo| + 1
  {
    var n := |s.stacks.undo| - 1;
    var c := s.stacks.undo[n];
    assert EditAt(s, lives, n) && CommandAt(s.stacks, n) == c;
    CommandSets(s.rows, c, true, clock);
    assert (lives[n + 1] - Ids(c.created)) + Ids(c.deleted) == lives[n];
    MovedKeeps(s, Stepped(s, true, None, clock), lives);
  }

  /** A redo goes forward to the live annotations after the command. */
  lemma RedoOk(s: State, lives: seq<set<string>>, clock: Clock)
    requires HistoryOk(s, lives) && s.stacks.redo != []
    ensures var next := Stepped(s, false, None, clock);
      HistoryOk(next, lives) && |next.stacks.undo| == |s.stacks.undo| + 1 && |next.stacks.redo| == |s.stacks.redo| - 1
  {
    var n := |s.stacks.undo|;
    var c := s.stacks.redo[|s.stacks.redo| - 1];
    assert EditAt(s, lives, n) && CommandAt(s.stacks, n) == c;
    CommandSets(s.rows, c, false, clock);
    RedoneCommands(s.stacks);
    MovedKeeps(s, Stepped(s, false, None, clock), lives);
  }

  lemma RedoneCommands(s: Stacks)
    requires s.redo != []
    ensures var n := |s.redo| - 1; var next := Stacks(s.undo + [s.redo[n]], s.redo[..n]);
      forall i :: 0 <= i < |s.undo| + |s.redo| ==> CommandAt(next, i) == CommandAt(s, i)
  {
  }

  function Repeated(s: State, undo: bool, clocks: seq<Clock>): State {
    if clocks == [] then s else Stepped(Repeated(s, undo, clocks[..|clocks| - 1]), undo, None, clocks[|clocks| - 1])
  }

  lemma {:induction false} UndosOk(s: State, lives: seq<set<string>>, clocks: seq<Clock>)
    requires HistoryOk(s, lives) && |clocks| <= |s.stacks.undo|
    ensures var next := Repeated(s, true, clocks);
      HistoryOk(next, lives) && |next.stacks.undo| == |s.stacks.undo| - |clocks| && |next.stacks.redo| == |s.stacks.redo| + |clocks|
  {
    if clocks != [] {
      var n := |clocks| - 1;
      UndosOk(s, lives, clocks[..n]);
      UndoOk(Repeated(s, true, clocks[..n]), lives, clocks[n]);
    }
  }

  // ---------- undo and redo from any state ----------

  ghost predicate KnownIn(ids: set<string>, commands: seq<Command>) {
    forall i :: 0 <= i < |commands| ==> Ids(commands[i].created) <= ids && Ids(commands[i].deleted) <= ids
  }

  /** Every annotation named in the history is stored. */
  ghost predicate KnownHistory(s: State) { KnownIn(s.rows.Keys, s.stacks.undo) && KnownIn(s.rows.Keys, s.stacks.redo) }

  /** A command moved from one stack to the other. */
  function Moved(s: Stacks, undo: bool): Stacks
    requires (if undo then s.undo else s.redo) != []
  {
    if undo then Stacks(s.undo[..|s.undo| - 1], s.redo + [s.undo[|s.undo| - 1]]) else Stacks(s.undo + [s.redo[|s.redo| - 1]], s.redo[..|s.redo| - 1])
  }

  lemma MovedIsKnown(ids: set<string>, s: Stacks, undo: bool)
    requires KnownIn(ids, s.undo) && KnownIn(ids, s.redo) && (if undo then s.undo else s.redo) != []
    ensures KnownIn(ids, Moved(s, undo).undo) && KnownIn(ids, Moved(s, undo).redo)
  {
  }

  /** What the last command that names an annotation did to it: created it, or deleted it. */
  function LastMention(commands: seq<Command>, id: string): Option<bool> {
    if commands == [] then None
    else
      var c := commands[|commands| - 1];
      if id in Ids(c.created) then Some(true) else if id in Ids(c.deleted) then Some(false) else LastMention(commands[..|commands| - 1], id)
  }

  /** Every annotation that the commands name is live if it was last created, and not if it was last deleted. */
  ghost predicate AsMentioned(rows: Rows, commands: seq<Command>) {
    forall id :: LastMention(commands, id).Some? ==> (IsLive(rows, id) <==> LastMention(commands, id).value)
  }

  /** The last k commands of the undo stack. */
  function Last(s: State, k: nat): seq<Command>
    requires k <= |s.stacks.undo|
  {
    s.stacks.undo[|s.stacks.undo| - k..]
  }

  /** The top k commands of a stack, the top first. */
  function Top(stack: seq<Command>, k: nat): seq<Command>
    requires k <= |stack|
  {
    seq(k, i requires 0 <= i < k => stack[|stack| - 1 - i])
  }

  /** The stacks after k undos. */
  function Undone(s: Stacks, k: nat): Stacks
    requires k <= |s.undo|
  {
    Stacks(s.undo[..|s.undo| - k], s.redo + Top(s.undo, k))
  }

  lemma UndoneOnce(s: Stacks, k: nat)
    requires k < |s.undo|
    ensures var u := Undone(s, k);
      Undone(s, k + 1) == Moved(u, true)
  {
  }

  lemma LastMentionTail(commands: seq<Command>, id: string)
    requires commands != []
    ensures var first := commands[0];
      LastMention(commands, id) == if LastMention(commands[1..], id).Some? then LastMention(commands[1..], id)
        else if id in Ids(first.created) then Some(true) else if id in Ids(first.deleted) then Some(false) else None
    decreases |commands|
  {
    var n := |commands| - 1;
    if n > 0 {
      LastMentionTail(commands[..n], id);
      assert commands[..n][1..] == commands[1..][..n - 1];
    }
  }

  /** What one step does to an annotation: what the command says of it, or nothing. */
  lemma SteppedLive(s: State, undo: bool, clock: Clock, id: string)
    requires KnownHistory(s) && (if undo then s.stacks.undo else s.stacks.redo) != []
    ensures var from := if undo then s.stacks.undo else s.stacks.redo;
      var m := LastMention([from[|from| - 1]], id); var next := Stepped(s, undo, None, clock);
      if m.None? then IsLive(next.rows, id) <==> IsLive(s.rows, id) else !undo ==> (IsLive(next.rows, id) <==> m.value)
  {
    var from := if undo then s.stacks.undo else s.stacks.redo;
    CommandSets(s.rows, from[|from| - 1], undo, clock);
    var next := Stepped(s, undo, None, clock);
    assert IsLive(next.rows, id) <==> id in LiveIds(next.rows);
    assert IsLive(s.rows, id) <==> id in LiveIds(s.rows);
  }

  /** One step keeps the annotations of the history, and moves a command. */
  lemma SteppedMoves(s: State, undo: bool, clock: Clock)
    requires KnownHistory(s) && (if undo then s.stacks.undo else s.stacks.redo) != []
    ensures var next := Stepped(s, undo, None, clock);
      KnownHistory(next) && next.rows.Keys == s.rows.Keys && next.stacks == Moved(s.stacks, undo)
  {
    var from := if undo then s.stacks.undo else s.stacks.redo;
    WritesKnown(s.rows, from[|from| - 1], undo);
    WrittenSets(s.rows, Writes(from[|from| - 1], undo), clock, "");
    MovedIsKnown(s.rows.Keys, s.stacks, undo);
  }

  /** k undos move k commands, and touch no annotation that these do not name. */
  lemma {:induction false} UndosMove(s: State, undos: seq<Clock>)
    requires KnownHistory(s) && |undos| <= |s.stacks.undo|
    ensures var next := Repeated(s, true, undos);
      && next.stacks == Undone(s.stacks, |undos|) && KnownHistory(next) && next.rows.Keys == s.rows.Keys
      && forall id :: LastMention(Last(s, |undos|), id).None? ==> (IsLive(next.rows, id) <==> IsLive(s.rows, id))
  {
    var k := |undos|;
    if k == 0 {
      assert Undone(s.stacks, 0) == s.stacks;
    } else {
      var before := Repeated(s, true, undos[..k - 1]);
      UndosMove(s, undos[..k - 1]);
      UndoneOnce(s.stacks, k - 1);
      SteppedMoves(before, true, undos[k - 1]);
      forall id | LastMention(Last(s, k), id).None? ensures IsLive(Repeated(s, true, undos).rows, id) <==> IsLive(s.rows, id) {
        UndoLeaves(s, before, k, undos[k - 1], id);
      }
    }
  }

  lemma UndoLeaves(s: State, before: State, k: nat, clock: Clock, id: string)
    requires 0 < k <= |s.stacks.undo| && before.stacks == Undone(s.stacks, k - 1) && KnownHistory(before)
    requires LastMention(Last(s, k), id).None?
    ensures LastMention(Last(s, k - 1), id).None? && (IsLive(Stepped(before, true, None, clock).rows, id) <==> IsLive(before.rows, id))
  {
    var c := before.stacks.undo[|before.stacks.undo| - 1];
    assert Last(s, k)[0] == c && Last(s, k)[1..] == Last(s, k - 1);
    LastMentionTail(Last(s, k), id);
    SteppedLive(before, true, clock, id);
  }

  /** The stacks after k redos. */
  function Redone(s: Stacks, k: nat): Stacks
    requires k <= |s.redo|
  {
    Stacks(s.undo + Top(s.redo, k), s.redo[..|s.redo| - k])
  }

  lemma RedoneOnce(s: Stacks, k: nat)
    requires k < |s.redo|
    ensures Redone(s, k + 1) == Moved(Redone(s, k), false)
  {
  }

  lemma {:induction false} RedosMove(s: State, redos: seq<Clock>)
    requires KnownHistory(s) && |redos| <= |s.stacks.redo|
    ensures var next := Repeated(s, false, redos);
      next.stacks == Redone(s.stacks, |redos|) && KnownHistory(next) && next.rows.Keys == s.rows.Keys
  {
    var k := |redos|;
    if k == 0 {
      assert Redone(s.stacks, 0) == s.stacks;
    } else {
      RedosMove(s, redos[..k - 1]);
      RedoneOnce(s.stacks, k - 1);
      SteppedMoves(Repeated(s, false, redos[..k - 1]), false, redos[k - 1]);
    }
  }

  lemma TopOnce(stack: seq<Command>, k: nat)
    requires 0 < k <= |stack|
    ensures Top(stack, k)[..k - 1] == Top(stack, k - 1) && Top(stack, k)[k - 1] == stack[|stack| - k]
  {
  }

  /** Redoing the top commands makes an annotation they name as it was last named. */
  lemma {:induction false} RedosSet(s: State, redos: seq<Clock>, id: string)
    requires KnownHistory(s) && |redos| <= |s.stacks.redo|
    ensures SetBy(s.rows, Top(s.stacks.redo, |redos|), Repeated(s, false, redos).rows, id)
  {
    var k := |redos|;
    if k > 0 {
      RedosSet(s, redos[..k - 1], id);
      RedosMove(s, redos[..k - 1]);
      TopOnce(s.stacks.redo, k);
      SteppedLive(Repeated(s, false, redos[..k - 1]), false, redos[k - 1], id);
    }
  }

  /** An annotation that the commands name is as it was last named, any other as before. */
  predicate SetBy(before: Rows, commands: seq<Command>, after: Rows, id: string) {
    IsLive(after, id) <==> var m := LastMention(commands, id); if m.Some? then m.value else IsLive(before, id)
  }

  lemma UndoneRedone(s: Stacks, k: nat)
    requires k <= |s.undo|
    ensures Top(Undone(s, k).redo, k) == s.undo[|s.undo| - k..] && Redone(Undone(s, k), k) == s
  {
    var all := Undone(s, k).redo;
    var last := s.undo[|s.undo| - k..];
    forall i | 0 <= i < k ensures Top(all, k)[i] == last[i] { assert all[|s.redo| + (k - 1 - i)] == Top(s.undo, k)[k - 1 - i]; }
    assert Top(all, k) == last;
    assert s.undo[..|s.undo| - k] + s.undo[|s.undo| - k..] == s.undo;
    assert (s.redo + Top(s.undo, k))[..|s.redo|] == s.redo;
  }

  /** k undos and then k redos give back the stacks, and every annotation named in the k commands is as it was last named. */
  lemma UndosThenRedosSet(s: State, undos: seq<Clock>, redos: seq<Clock>)
    requires KnownHistory(s) && |undos| == |redos| <= |s.stacks.undo|
    ensures var next := Repeated(Repeated(s, true, undos), false, redos);
      next.stacks == s.stacks && forall id :: SetBy(s.rows, Last(s, |undos|), next.rows, id)
  {
    var undone := Repeated(s, true, undos);
    UndosMove(s, undos);
    RedosMove(undone, redos);
    UndoneRedone(s.stacks, |undos|);
    forall id ensures SetBy(s.rows, Last(s, |undos|), Repeated(undone, false, redos).rows, id) {
      RedosSet(undone, redos, id);
    }
  }

  /**
   * Whatever the stored annotations have come to, k undos and then k redos give back the same live annotations exactly when every
   * annotation named in the last k commands is live as it was last named. The stacks always come back, and so do the contents.
   */
  lemma RedosUndoUndosIff(s: State, undos: seq<Clock>, redos: seq<Clock>)
    requires KnownHistory(s) && |undos| == |redos| <= |s.stacks.undo|
    ensures var next := Repeated(Repeated(s, true, undos), false, redos);
      && (LiveIds(next.rows) == LiveIds(s.rows) <==> AsMentioned(s.rows, Last(s, |undos|)))
      && next.stacks == s.stacks && SameContents(next.rows, s.rows)
  {
    UndosThenRedosSet(s, undos, redos);
    RepeatedKeepsContents(s, true, undos);
    RepeatedKeepsContents(Repeated(s, true, undos), false, redos);
    SetBack(s.rows, Last(s, |undos|), Repeated(Repeated(s, true, undos), false, redos).rows);
  }

  lemma SetBack(before: Rows, commands: seq<Command>, after: Rows)
    requires forall id :: SetBy(before, commands, after, id)
    ensures LiveIds(after) == LiveIds(before) <==> AsMentioned(before, commands)
  {
    forall id ensures (id in LiveIds(after) <==> IsLive(after, id)) && (id in LiveIds(before) <==> IsLive(before, id)) && SetBy(before, commands, after, id) {}
  }

  /** In a history whose commands lead from one live set to the next, everything is as it was last named. */
  lemma {:induction false} HistoryIsAsMentioned(s: State, lives: seq<set<string>>, k: nat, id: string)
    requires HistoryOk(s, lives) && k <= |s.stacks.undo|
    ensures var m := LastMention(s.stacks.undo[..k], id); m.Some? ==> (id in lives[k] <==> m.value)
  {
    if k > 0 {
      HistoryIsAsMentioned(s, lives, k - 1, id);
      assert EditAt(s, lives, k - 1) && s.stacks.undo[..k][..k - 1] == s.stacks.undo[..k - 1];
    }
  }

  lemma LastMentionOfPart(commands: seq<Command>, from: nat, id: string)
    requires from <= |commands| && LastMention(commands[from..], id).Some?
    ensures LastMention(commands, id) == LastMention(commands[from..], id)
    decreases from
  {
    if from > 0 {
      LastMentionTail(commands[from - 1..], id);
      assert commands[from - 1..][1..] == commands[from..];
      LastMentionOfPart(commands, from - 1, id);
    } else {
      assert commands[0..] == commands;
    }
  }

  lemma HistoryOkIsKnown(s: State, lives: seq<set<string>>)
    requires HistoryOk(s, lives)
    ensures KnownHistory(s)
  {
    var undo, redo := s.stacks.undo, s.stacks.redo;
    forall i | 0 <= i < |undo| ensures Ids(undo[i].created) <= s.rows.Keys && Ids(undo[i].deleted) <= s.rows.Keys { assert EditAt(s, lives, i); }
    forall i | 0 <= i < |redo| ensures Ids(redo[i].created) <= s.rows.Keys && Ids(redo[i].deleted) <= s.rows.Keys {
      var j := |undo| + |redo| - 1 - i;
      assert EditAt(s, lives, j) && CommandAt(s.stacks, j) == redo[i];
    }
  }

  /** k undos lead to the live annotations of k commands ago, and k redos back again. */
  lemma UndosThenRedos(s: State, lives: seq<set<string>>, undos: seq<Clock>, redos: seq<Clock>)
    requires HistoryOk(s, lives) && |undos| == |redos| <= |s.stacks.undo|
    ensures LiveIds(Repeated(s, true, undos).rows) == lives[|s.stacks.undo| - |undos|]
    ensures LiveIds(Repeated(Repeated(s, true, undos), false, redos).rows) == LiveIds(s.rows)
    ensures SameContents(Repeated(s, true, undos).rows, s.rows) && SameContents(Repeated(Repeated(s, true, undos), false, redos).rows, s.rows)
  {
    HistoryOkIsKnown(s, lives);
    UndosOk(s, lives, undos);
    RepeatedKeepsContents(s, true, undos);
    HistoryOkAsMentioned(s, lives, |undos|);
    RedosUndoUndosIff(s, undos, redos);
  }

  lemma HistoryOkAsMentioned(s: State, lives: seq<set<string>>, k: nat)
    requires HistoryOk(s, lives) && k <= |s.stacks.undo|
    ensures AsMentioned(s.rows, Last(s, k))
  {
    var n := |s.stacks.undo|;
    forall id | LastMention(Last(s, k), id).Some? ensures IsLive(s.rows, id) <==> LastMention(Last(s, k), id).value {
      LastMentionOfPart(s.stacks.undo, n - k, id);
      HistoryIsAsMentioned(s, lives, n, id);
      assert s.stacks.undo[..n] == s.stacks.undo && (IsLive(s.rows, id) <==> id in LiveIds(s.rows));
    }
  }

  /** The same annotations with the same contents, live or not. */
  ghost predicate SameContents(a: Rows, b: Rows) { a.Keys == b.Keys && forall id :: id in a ==> a[id].content == b[id].content }

  lemma WritesKeepContents(rows: Rows, c: Command, undo: bool, clock: Clock)
    requires AllKnown(rows, c)
    ensures SameContents(Written(rows, Writes(c, undo), clock), rows)
  {
    WritesKnown(rows, c, undo);
    WrittenSets(rows, Writes(c, undo), clock, "");
    forall id | id in rows ensures Written(rows, Writes(c, undo), clock)[id].content == rows[id].content {
      WrittenSets(rows, Writes(c, undo), clock, id);
    }
  }

  lemma StepKeepsContents(s: State, undo: bool, clock: Clock)
    requires KnownHistory(s)
    ensures SameContents(Stepped(s, undo, None, clock).rows, s.rows) && KnownHistory(Stepped(s, undo, None, clock))
  {
    var from := if undo then s.stacks.undo else s.stacks.redo;
    if from != [] {
      WritesKeepContents(s.rows, from[|from| - 1], undo, clock);
      SteppedMoves(s, undo, clock);
    }
  }

  lemma {:induction false} RepeatedKeepsContents(s: State, undo: bool, clocks: seq<Clock>)
    requires KnownHistory(s)
    ensures SameContents(Repeated(s, undo, clocks).rows, s.rows) && KnownHistory(Repeated(s, undo, clocks))
  {
    if clocks != [] {
      var n := |clocks| - 1;
      RepeatedKeepsContents(s, undo, clocks[..n]);
      StepKeepsContents(Repeated(s, undo, clocks[..n]), undo, clocks[n]);
    }
  }

  // ---------- new actions ----------

  /** New annotations under new ids, and live ones to delete. */
  ghost predicate Performable(s: State, deleted: seq<Note>, created: seq<Note>) {
    && (forall i :: 0 <= i < |created| ==> created[i].id !in s.rows && created[i].deletedAt.None?)
    && (forall i :: 0 <= i < |deleted| ==> IsLive(s.rows, deleted[i].id))
  }

  lemma PutSets(rows: Rows, n: Note)
    requires n.deletedAt.None?
    ensures rows[n.id := n].Keys == rows.Keys + {n.id} && LiveIds(rows[n.id := n]) == LiveIds(rows) + {n.id}
  {
  }

  lemma {:induction false} PutAllPuts(rows: Rows, notes: seq<Note>)
    requires forall i :: 0 <= i < |notes| ==> notes[i].deletedAt.None?
    ensures PutAll(rows, notes).Keys == rows.Keys + Ids(notes)
    ensures LiveIds(PutAll(rows, notes)) == LiveIds(rows) + Ids(notes)
    ensures forall id :: id in rows && id !in Ids(notes) ==> PutAll(rows, notes)[id] == rows[id]
  {
    if notes != [] {
      var n := |notes| - 1;
      PutAllPuts(rows, notes[..n]);
      IdsLast(notes);
      PutSets(PutAll(rows, notes[..n]), notes[n]);
    }
  }

  lemma MarkingDeletes(rows: Rows, deleted: seq<Note>, clock: Clock)
    requires forall i :: 0 <= i < |deleted| ==> deleted[i].id in rows
    ensures var next := Written(rows, Marks(deleted, true), clock);
      next.Keys == rows.Keys && LiveIds(next) == LiveIds(rows) - Ids(deleted)
  {
    var next := Written(rows, Marks(deleted, true), clock);
    forall id ensures IsLive(next, id) <==> id in LiveIds(rows) - Ids(deleted) {
      WrittenSets(rows, Marks(deleted, true), clock, id);
      LastWishOfMarks([], deleted, true, id);
      assert [] + Marks(deleted, true) == Marks(deleted, true);
    }
    WrittenSets(rows, Marks(deleted, true), clock, "");
  }

  lemma {:induction false} SnapshotIds(rows: Rows, notes: seq<Note>, clock: Clock)
    requires OwnIds(rows)
    ensures forall i :: 0 <= i < |notes| ==> Snapshots(rows, notes, clock)[i].id == notes[i].id
    ensures Ids(Snapshots(rows, notes, clock)) == Ids(notes)
  {
    if notes != [] {
      SnapshotIds(rows, notes[..|notes| - 1], clock);
      WrittenOwnIds(rows, Marks(notes, true), clock);
    }
    SameIds(Snapshots(rows, notes, clock), notes);
  }

  lemma SameIds(a: seq<Note>, b: seq<Note>)
    requires |a| == |b| && forall i :: 0 <= i < |a| ==> a[i].id == b[i].id
    ensures Ids(a) == Ids(b)
  {
    forall id ensures id in Ids(a) <==> id in Ids(b) {
      if id in Ids(a) { var i :| 0 <= i < |a| && a[i].id == id; assert b[i].id == id; }
      if id in Ids(b) { var i :| 0 <= i < |b| && b[i].id == id; assert a[i].id == id; }
    }
  }

  /** Rows are stored under their own id. */
  ghost predicate OwnIds(rows: Rows) { forall id :: id in rows ==> rows[id].id == id }

  lemma {:induction false} WrittenOwnIds(rows: Rows, writes: seq<Write>, clock: Clock)
    requires OwnIds(rows)
    ensures OwnIds(Written(rows, writes, clock))
  {
    if writes != [] { WrittenOwnIds(rows, writes[..|writes| - 1], clock); }
  }

  /** An action is an edit of the live annotations. */
  lemma ReplacedIsEdit(s: State, deleted: seq<Note>, created: seq<Note>, clock: Clock) returns (c: Command)
    requires Performable(s, deleted, created) && OwnIds(s.rows)
    ensures var next := Replaced(s, deleted, created, clock);
      && next.stacks == Pushed(s.stacks, c) && (c.created == [] && c.deleted == [] <==> created == [] && deleted == [])
      && IsEdit(LiveIds(s.rows), c, LiveIds(next.rows)) && AllKnown(next.rows, c) && s.rows.Keys <= next.rows.Keys
  {
    MarkingDeletes(s.rows, deleted, clock);
    var rows := Written(s.rows, Marks(deleted, true), clock);
    WrittenOwnIds(s.rows, Marks(deleted, true), clock);
    PutAllPuts(rows, created);
    SnapshotIds(s.rows, deleted, clock);
    c := Command(created, Snapshots(s.rows, deleted, clock));
    forall id | id in Ids(created) ensures id !in s.rows { var i :| 0 <= i < |created| && created[i].id == id; }
    forall id | id in Ids(deleted) ensures id in LiveIds(s.rows) { var i :| 0 <= i < |deleted| && deleted[i].id == id; }
  }

  /** An action that changed something is the newest command; the oldest goes beyond the limit. */
  lemma ReplacedOk(s: State, lives: seq<set<string>>, deleted: seq<Note>, created: seq<Note>, clock: Clock) returns (next: seq<set<string>>)
    requires HistoryOk(s, lives) && Performable(s, deleted, created) && OwnIds(s.rows)
    ensures HistoryOk(Replaced(s, deleted, created, clock), next)
    ensures created != [] || deleted != [] ==> Replaced(s, deleted, created, clock).stacks.redo == [] && Replaced(s, deleted, created, clock).stacks.undo != []
  {
    var c := ReplacedIsEdit(s, deleted, created, clock);
    var after := Replaced(s, deleted, created, clock);
    if c.created == [] && c.deleted == [] {
      assert Ids(c.created) == {} && Ids(c.deleted) == {};
      assert LiveIds(after.rows) == LiveIds(s.rows);
      next := lives;
      forall i | 0 <= i < |s.stacks.undo| + |s.stacks.redo| ensures EditAt(after, next, i) { assert EditAt(s, lives, i); }
    } else {
      next := PushedOk(s, lives, c, after);
    }
  }

  lemma PushedOk(s: State, lives: seq<set<string>>, c: Command, after: State) returns (next: seq<set<string>>)
    requires HistoryOk(s, lives) && (c.created != [] || c.deleted != []) && after.stacks == Pushed(s.stacks, c)
    requires IsEdit(LiveIds(s.rows), c, LiveIds(after.rows)) && AllKnown(after.rows, c) && s.rows.Keys <= after.rows.Keys
    ensures HistoryOk(after, next)
  {
    var n := |s.stacks.undo|;
    var all := lives[..n + 1] + [LiveIds(after.rows)];
    var cut := if n + 1 > HISTORY_LIMIT then n + 1 - HISTORY_LIMIT else 0;
    next := all[cut..];
    assert after.stacks.undo == (s.stacks.undo + [c])[cut..];
    forall i | 0 <= i < |after.stacks.undo| ensures EditAt(after, next, i) {
      GrownLink(s, lives, c, after.rows, i + cut);
      assert next[i] == all[i + cut] && next[i + 1] == all[i + cut + 1] && CommandAt(after.stacks, i) == (s.stacks.undo + [c])[i + cut];
    }
  }

  /** Command i leads from one live set to the next. */
  ghost predicate LinkAt(rows: Rows, lives: seq<set<string>>, commands: seq<Command>, i: nat)
    requires i < |commands| < |lives|
  {
    IsEdit(lives[i], commands[i], lives[i + 1]) && AllKnown(rows, commands[i])
  }

  lemma GrownLink(s: State, lives: seq<set<string>>, c: Command, rows: Rows, i: nat)
    requires i <= |s.stacks.undo|
    requires HistoryOk(s, lives) && IsEdit(LiveIds(s.rows), c, LiveIds(rows)) && AllKnown(rows, c) && s.rows.Keys <= rows.Keys
    ensures LinkAt(rows, lives[..|s.stacks.undo| + 1] + [LiveIds(rows)], s.stacks.undo + [c], i)
  {
    if i < |s.stacks.undo| { assert EditAt(s, lives, i); }
  }

  // ---------- runs ----------

  /** An action, an undo or a redo; `fails` tells how many writes succeed before one fails, if one does. */
  datatype Action =
    | Replace(deleted: seq<Note>, created: seq<Note>, clock: Clock)
    | Undo(fails: Option<nat>, clock: Clock)
    | Redo(fails: Option<nat>, clock: Clock)

  predicate Succeeds(a: Action) { a.Replace? || a.fails.None? }

  function Acted(s: State, a: Action): State {
    match a
    case Replace(deleted, created, clock) => Replaced(s, deleted, created, clock)
    case Undo(fails, clock) => Stepped(s, true, fails, clock)
    case Redo(fails, clock) => Stepped(s, false, fails, clock)
  }

  ghost predicate Possible(s: State, actions: seq<Action>) {
    if actions == [] then true
    else
      var n := |actions| - 1;
      Possible(s, actions[..n]) && (actions[n].Replace? ==> Performable(After(s, actions[..n]), actions[n].deleted, actions[n].created))
  }

  function After(s: State, actions: seq<Action>): State {
    if actions == [] then s else Acted(After(s, actions[..|actions| - 1]), actions[|actions| - 1])
  }

  lemma {:induction false} PutAllOwnIds(rows: Rows, notes: seq<Note>)
    requires OwnIds(rows)
    ensures OwnIds(PutAll(rows, notes))
  {
    if notes != [] { PutAllOwnIds(rows, notes[..|notes| - 1]); }
  }

  lemma SteppedOwnIds(s: State, undo: bool, fails: Option<nat>, clock: Clock)
    requires OwnIds(s.rows)
    ensures OwnIds(Stepped(s, undo, fails, clock).rows)
  {
    var from := if undo then s.stacks.undo else s.stacks.redo;
    if from != [] {
      var writes := Writes(from[|from| - 1], undo);
      WrittenOwnIds(s.rows, if fails.Some? && fails.value < |writes| then writes[..fails.value] else writes, clock);
    }
  }

  lemma ActedOwnIds(s: State, a: Action)
    requires OwnIds(s.rows)
    ensures OwnIds(Acted(s, a).rows)
  {
    match a {
      case Replace(deleted, created, clock) =>
        WrittenOwnIds(s.rows, Marks(deleted, true), clock);
        PutAllOwnIds(Written(s.rows, Marks(deleted, true), clock), created);
      case Undo(fails, clock) => SteppedOwnIds(s, true, fails, clock);
      case Redo(fails, clock) => SteppedOwnIds(s, false, fails, clock);
    }
  }

  lemma PartKnown(rows: Rows, c: Command, undo: bool, fails: Option<nat>, clock: Clock)
    requires AllKnown(rows, c)
    ensures var writes := Writes(c, undo);
      Written(rows, if fails.Some? && fails.value < |writes| then writes[..fails.value] else writes, clock).Keys == rows.Keys
  {
    var writes := Writes(c, undo);
    var part := if fails.Some? && fails.value < |writes| then writes[..fails.value] else writes;
    WritesKnown(rows, c, undo);
    assert forall i :: 0 <= i < |part| ==> part[i] == writes[i];
    WrittenSets(rows, part, clock, "");
  }

  lemma SteppedIsKnown(s: State, undo: bool, fails: Option<nat>, clock: Clock)
    requires KnownHistory(s)
    ensures KnownHistory(Stepped(s, undo, fails, clock))
  {
    var from := if undo then s.stacks.undo else s.stacks.redo;
    if from != [] {
      PartKnown(s.rows, from[|from| - 1], undo, fails, clock);
      MovedIsKnown(s.rows.Keys, s.stacks, undo);
    }
  }

  lemma PushedIsKnown(before: set<string>, ids: set<string>, s: Stacks, c: Command)
    requires KnownIn(before, s.undo) && KnownIn(before, s.redo) && before <= ids && Ids(c.created) <= ids && Ids(c.deleted) <= ids
    ensures KnownIn(ids, Pushed(s, c).undo) && KnownIn(ids, Pushed(s, c).redo)
  {
  }

  lemma ActedIsKnown(s: State, a: Action)
    requires KnownHistory(s) && OwnIds(s.rows) && (a.Replace? ==> Performable(s, a.deleted, a.created))
    ensures KnownHistory(Acted(s, a))
  {
    match a {
      case Replace(deleted, created, clock) =>
        var c := ReplacedIsEdit(s, deleted, created, clock);
        PushedIsKnown(s.rows.Keys, Acted(s, a).rows.Keys, s.stacks, c);
      case Undo(fails, clock) => SteppedIsKnown(s, true, fails, clock);
      case Redo(fails, clock) => SteppedIsKnown(s, false, fails, clock);
    }
  }

  /** After any run, failed undos and redos included, every annotation of the history is stored. */
  lemma {:induction false} RunIsKnown(rows: Rows, actions: seq<Action>)
    requires OwnIds(rows) && Possible(State(rows, Stacks([], [])), actions)
    ensures var e := After(State(rows, Stacks([], [])), actions); KnownHistory(e) && OwnIds(e.rows)
  {
    if actions != [] {
      var n := |actions| - 1;
      RunIsKnown(rows, actions[..n]);
      ActedOwnIds(After(State(rows, Stacks([], [])), actions[..n]), actions[n]);
      ActedIsKnown(After(State(rows, Stacks([], [])), actions[..n]), actions[n]);
    }
  }

  lemma ActedOk(s: State, lives: seq<set<string>>, a: Action) returns (next: seq<set<string>>)
    requires HistoryOk(s, lives) && OwnIds(s.rows) && Succeeds(a) && (a.Replace? ==> Performable(s, a.deleted, a.created))
    ensures HistoryOk(Acted(s, a), next)
  {
    next := lives;
    match a {
      case Replace(deleted, created, clock) => next := ReplacedOk(s, lives, deleted, created, clock);
      case Undo(_, clock) => if s.stacks.undo != [] { UndoOk(s, lives, clock); }
      case Redo(_, clock) => if s.stacks.redo != [] { RedoOk(s, lives, clock); }
    }
  }

  lemma {:induction false} RunOk(rows: Rows, actions: seq<Action>) returns (lives: seq<set<string>>)
    requires OwnIds(rows) && Possible(State(rows, Stacks([], [])), actions) && forall i :: 0 <= i < |actions| ==> Succeeds(actions[i])
    ensures HistoryOk(After(State(rows, Stacks([], [])), actions), lives)
  {
    var start := State(rows, Stacks([], []));
    if actions == [] {
      lives := [LiveIds(rows)];
    } else {
      var n := |actions| - 1;
      var before := RunOk(rows, actions[..n]);
      RunIsKnown(rows, actions[..n]);
      lives := ActedOk(After(start, actions[..n]), before, actions[n]);
    }
  }

  /** After any run of actions, undos and redos in which no write failed: k undos and then k redos give the same live annotations. */
  lemma UndosAreRedone(rows: Rows, actions: seq<Action>, undos: seq<Clock>, redos: seq<Clock>)
    requires OwnIds(rows) && Possible(State(rows, Stacks([], [])), actions) && forall i :: 0 <= i < |actions| ==> Succeeds(actions[i])
    requires |undos| == |redos| <= |After(State(rows, Stacks([], [])), actions).stacks.undo|
    ensures var e := After(State(rows, Stacks([], [])), actions);
      LiveIds(Repeated(Repeated(e, true, undos), false, redos).rows) == LiveIds(e.rows)
      && SameContents(Repeated(Repeated(e, true, undos), false, redos).rows, e.rows)
  {
    var lives := RunOk(rows, actions);
    UndosThenRedos(After(State(rows, Stacks([], [])), actions), lives, undos, redos);
  }

  /**
   * After any run, failed undos and redos included: exactly when every annotation named in the last k commands is live as it was
   * last named.
   */
  lemma UndosAreRedoneIff(rows: Rows, actions: seq<Action>, undos: seq<Clock>, redos: seq<Clock>)
    requires OwnIds(rows) && Possible(State(rows, Stacks([], [])), actions)
    requires |undos| == |redos| <= |After(State(rows, Stacks([], [])), actions).stacks.undo|
    ensures var e := After(State(rows, Stacks([], [])), actions);
      LiveIds(Repeated(Repeated(e, true, undos), false, redos).rows) == LiveIds(e.rows) <==> AsMentioned(e.rows, Last(e, |undos|))
  {
    RunIsKnown(rows, actions);
    RedosUndoUndosIff(After(State(rows, Stacks([], [])), actions), undos, redos);
  }

  /** Two annotations are added, and undoing that fails after the first; then another is added. */
  function FailedUndo(a: Note, b: Note, c: Note, clock: Clock): seq<Action> {
    [Replace([], [a, b], clock), Undo(Some(1), clock), Replace([], [c], clock)]
  }

  predicate ThreeNew(a: Note, b: Note, c: Note) {
    a.id != b.id && b.id != c.id && a.id != c.id && a.deletedAt.None? && b.deletedAt.None? && c.deletedAt.None?
  }

  /** After that, two undos and two redos bring the first annotation back, although it was not live before them. */
  lemma FailedUndoIsNotRedone(a: Note, b: Note, c: Note, clock: Clock, undos: seq<Clock>, redos: seq<Clock>)
    requires ThreeNew(a, b, c) && |undos| == |redos| == 2
    ensures var start := State(map[], Stacks([], [])); var e := After(start, FailedUndo(a, b, c, clock));
      && Possible(start, FailedUndo(a, b, c, clock)) && |e.stacks.undo| == 2
      && LiveIds(Repeated(Repeated(e, true, undos), false, redos).rows) != LiveIds(e.rows)
  {
    FailedRun(a, b, c, clock);
    RunIsKnown(map[], FailedUndo(a, b, c, clock));
    var e := After(State(map[], Stacks([], [])), FailedUndo(a, b, c, clock));
    var first, second := Command([a, b], []), Command([c], []);
    assert Last(e, 2) == [first, second] && [first, second][..1] == [first];
    assert a.id in Ids([a, b]) by { assert [a, b][0] == a; }
    assert LastMention([first], a.id) == Some(true);
    assert LastMention([first, second], a.id) == Some(true);
    RedosUndoUndosIff(e, undos, redos);
  }

  lemma FailedRun(a: Note, b: Note, c: Note, clock: Clock)
    requires ThreeNew(a, b, c)
    ensures var start := State(map[], Stacks([], [])); var e := After(start, FailedUndo(a, b, c, clock));
      && Possible(start, FailedUndo(a, b, c, clock))
      && e.stacks == Stacks([Command([a, b], []), Command([c], [])], []) && !IsLive(e.rows, a.id)
  {
    var start := State(map[], Stacks([], []));
    var s1 := Acted(start, Replace([], [a, b], clock));
    var s2 := Acted(s1, Undo(Some(1), clock));
    TwoAdded(a, b, clock);
    UndoneByHalf(s1, a, b, clock);
    OneAdded(s2, c, clock);
    AfterThree(start, Replace([], [a, b], clock), Undo(Some(1), clock), Replace([], [c], clock));
  }

  lemma UndoneByHalf(s: State, a: Note, b: Note, clock: Clock)
    requires s == State(map[][a.id := a][b.id := b], Stacks([Command([a, b], [])], [])) && a.id != b.id && a.deletedAt.None?
    ensures var next := Stepped(s, true, Some(1), clock);
      next.stacks == s.stacks && next.rows.Keys == s.rows.Keys && !IsLive(next.rows, a.id)
  {
    var writes := Writes(Command([a, b], []), true);
    assert writes[..1] == [Write(a, true)] && [Write(a, true)][..0] == [];
    assert Written(s.rows, [Write(a, true)], clock) == SetDeleted(s.rows, a, true, clock(a.id));
  }

  lemma TwoAdded(a: Note, b: Note, clock: Clock)
    ensures Replaced(State(map[], Stacks([], [])), [], [a, b], clock) == State(map[][a.id := a][b.id := b], Stacks([Command([a, b], [])], []))
  {
    assert [a, b][..1] == [a] && [a][..0] == [];
    assert Marks([], true) == [] && PutAll(map[], [a]) == map[][a.id := a];
    assert PutAll(map[], [a, b]) == PutAll(map[], [a])[b.id := b];
  }

  lemma OneAdded(s: State, c: Note, clock: Clock)
    requires |s.stacks.undo| < HISTORY_LIMIT
    ensures Replaced(s, [], [c], clock) == State(s.rows[c.id := c], Stacks(s.stacks.undo + [Command([c], [])], []))
  {
    assert [c][..0] == [] && Marks([], true) == [];
    assert PutAll(s.rows, [c]) == s.rows[c.id := c];
  }

  lemma AfterThree(s: State, a: Action, b: Action, c: Action)
    requires a.Replace? ==> Performable(s, a.deleted, a.created)
    requires b.Replace? ==> Performable(Acted(s, a), b.deleted, b.created)
    requires c.Replace? ==> Performable(Acted(Acted(s, a), b), c.deleted, c.created)
    ensures After(s, [a, b, c]) == Acted(Acted(Acted(s, a), b), c) && Possible(s, [a, b, c])
  {
    AfterOne(s, [], a);
    AfterOne(s, [a], b);
    AfterOne(s, [a, b], c);
    assert [] + [a] == [a] && [a] + [b] == [a, b] && [a, b] + [c] == [a, b, c];
  }

  lemma AfterOne(s: State, actions: seq<Action>, a: Action)
    ensures After(s, actions + [a]) == Acted(After(s, actions), a)
    ensures Possible(s, actions) && (a.Replace? ==> Performable(After(s, actions), a.deleted, a.created)) ==> Possible(s, actions + [a])
  {
    assert (actions + [a])[..|actions|] == actions;
  }

  /** And an undo right after an action gives back the live annotations there were before it. */
  lemma UndoTakesBack(rows: Rows, actions: seq<Action>, deleted: seq<Note>, created: seq<Note>, clock: Clock, later: Clock)
    requires OwnIds(rows) && Possible(State(rows, Stacks([], [])), actions) && (deleted != [] || created != [])
    requires Performable(After(State(rows, Stacks([], [])), actions), deleted, created)
    ensures var e := After(State(rows, Stacks([], [])), actions);
      && LiveIds(Stepped(Replaced(e, deleted, created, clock), true, None, later).rows) == LiveIds(e.rows)
      && ContentsStay(e.rows, Stepped(Replaced(e, deleted, created, clock), true, None, later).rows)
  {
    var e := After(State(rows, Stacks([], [])), actions);
    RunIsKnown(rows, actions);
    var c := ReplacedIsEdit(e, deleted, created, clock);
    var next := Replaced(e, deleted, created, clock);
    LastPushed(e.stacks, c);
    EditIsUndone(e.rows, next, c, later);
    ReplacedKeepsContents(e, deleted, created, clock);
  }

  /** Undoing the newest command, if it was an edit. */
  lemma EditIsUndone(before: Rows, s: State, c: Command, clock: Clock)
    requires s.stacks.undo != [] && s.stacks.undo[|s.stacks.undo| - 1] == c && AllKnown(s.rows, c) && IsEdit(LiveIds(before), c, LiveIds(s.rows))
    ensures var next := Stepped(s, true, None, clock); LiveIds(next.rows) == LiveIds(before) && SameContents(next.rows, s.rows)
  {
    CommandSets(s.rows, c, true, clock);
    WritesKeepContents(s.rows, c, true, clock);
  }

  /** All annotations are still there, with the contents they had. */
  ghost predicate ContentsStay(a: Rows, b: Rows) { forall id :: id in a ==> id in b && b[id].content == a[id].content }

  lemma ReplacedKeepsContents(s: State, deleted: seq<Note>, created: seq<Note>, clock: Clock)
    requires Performable(s, deleted, created)
    ensures ContentsStay(s.rows, Replaced(s, deleted, created, clock).rows)
  {
    var writes := Marks(deleted, true);
    var mid := Written(s.rows, writes, clock);
    WrittenSets(s.rows, writes, clock, "");
    PutAllPuts(mid, created);
    forall id | id in Ids(created) ensures id !in s.rows { var i :| 0 <= i < |created| && created[i].id == id; }
    forall id | id in s.rows ensures id in PutAll(mid, created) && PutAll(mid, created)[id].content == s.rows[id].content {
      WrittenSets(s.rows, writes, clock, id);
    }
  }

  lemma LastPushed(s: Stacks, c: Command)
    requires c.created != [] || c.deleted != []
    ensures Pushed(s, c).undo != [] && Pushed(s, c).undo[|Pushed(s, c).undo| - 1] == c
  {
  }

  // ---------- failures ----------

  lemma {:induction false} LastWishOfPrefix(writes: seq<Write>, n: nat, id: string)
    requires n <= |writes| && LastWish(writes[..n], id).Some?
    ensures LastWish(writes, id).Some?
  {
    if n < |writes| {
      assert writes[..|writes| - 1][..n] == writes[..n];
      LastWishOfPrefix(writes[..|writes| - 1], n, id);
    } else {
      assert writes[..n] == writes;
    }
  }

  /**
   * An undo or redo that fails at any write leaves the stacks as they were, and repeating it leads to the same live
   * annotations, contents included, as if it had not failed.
   */
  lemma RetryEndsTheSame(s: State, undo: bool, fails: nat, clock: Clock, again: Clock)
    requires (if undo then s.stacks.undo else s.stacks.redo) != []
    requires var from := if undo then s.stacks.undo else s.stacks.redo; AllKnown(s.rows, from[|from| - 1])
    ensures var failed := Stepped(s, undo, Some(fails), clock);
      var from := if undo then s.stacks.undo else s.stacks.redo;
      fails < |Writes(from[|from| - 1], undo)| ==>
        (failed.stacks == s.stacks
        && var retried := Stepped(failed, undo, None, again); var direct := Stepped(s, undo, None, again);
        retried.stacks == direct.stacks && SameNotes(retried.rows, direct.rows))
  {
    var from := if undo then s.stacks.undo else s.stacks.redo;
    var c := from[|from| - 1];
    var writes := Writes(c, undo);
    WritesKnown(s.rows, c, undo);
    if fails < |writes| { RetriedWrites(s.rows, writes, fails, clock, again); }
  }

  /** The same annotations with the same contents, live or not alike; only stamps may differ. */
  ghost predicate SameNotes(a: Rows, b: Rows) {
    && a.Keys == b.Keys
    && forall id :: id in a ==> SameNote(a, b, id)
  }

  predicate SameNote(a: Rows, b: Rows, id: string) {
    (IsLive(a, id) <==> IsLive(b, id)) && (id in a && id in b ==> a[id].content == b[id].content)
  }

  lemma RetriedWrites(rows: Rows, writes: seq<Write>, n: nat, clock: Clock, again: Clock)
    requires Known(rows, writes) && n <= |writes|
    ensures SameNotes(Written(Written(rows, writes[..n], clock), writes, again), Written(rows, writes, again))
  {
    var part := Written(rows, writes[..n], clock);
    WrittenSets(rows, writes[..n], clock, "");
    WrittenSets(part, writes, again, "");
    WrittenSets(rows, writes, again, "");
    forall id | id in rows ensures SameNote(Written(part, writes, again), Written(rows, writes, again), id) {
      WrittenSets(rows, writes[..n], clock, id);
      WrittenSets(part, writes, again, id);
      WrittenSets(rows, writes, again, id);
      if LastWish(writes[..n], id).Some? { LastWishOfPrefix(writes, n, id); }
    }
  }

  // ---------- as it runs ----------

  class AnnotationHistory {
    var rows: Rows
    var undo: seq<Command>
    var redo: seq<Command>

    constructor (rows: Rows)
      ensures Contents() == State(rows, Stacks([], []))
    {
      this.rows, undo, redo := rows, [], [];
    }

    ghost function Contents(): State
      reads this
    {
      State(rows, Stacks(undo, redo))
    }

    /** The newest command is on top, at most 100 are kept and there is nothing to redo; an empty command changes nothing. */
    method PushCommand(c: Command)
      modifies this`undo, this`redo
      ensures c.created == [] && c.deleted == [] ==> undo == old(undo) && redo == old(redo)
      ensures c.created != [] || c.deleted != [] ==> redo == [] && undo != [] && undo[|undo| - 1] == c
      ensures c.created != [] || c.deleted != [] ==>
        (if |old(undo)| < 100 then undo == old(undo) + [c] else undo == old(undo)[|old(undo)| - 99..] + [c])
      ensures Stacks(undo, redo) == Pushed(Stacks(old(undo), old(redo)), c)
    {
      if c.created == [] && c.deleted == [] { return; }
      undo := undo + [c];
      if |undo| > HISTORY_LIMIT { undo := undo[|undo| - HISTORY_LIMIT..]; }
      redo := [];
    }

    method MarkOne(snapshot: Note, deleted: bool, now: int) returns (current: Note)
      modifies this`rows
      ensures rows == SetDeleted(old(rows), snapshot, deleted, now)
      ensures current == NoteAt(rows, snapshot)
    {
      current := if snapshot.id in rows then rows[snapshot.id] else snapshot;
      if current.deletedAt.Some? == deleted { return; }
      var updatedAt := if now > current.updatedAt + 1 then now else current.updatedAt + 1;
      current := current.(deletedAt := if deleted then Some(updatedAt) else None, updatedAt := updatedAt);
      rows := rows[snapshot.id := current];
    }

    /** Writes the annotations of a list, until one fails; says how many writes are left before a failure. */
    method MarkAll(notes: seq<Note>, deleted: bool, fails: Option<nat>, clock: Clock) returns (left: Option<nat>, ok: bool)
      modifies this`rows
      ensures ok <==> fails.None? || fails.value >= |notes|
      ensures ok && fails.Some? ==> left == Some(fails.value - |notes|)
      ensures ok && fails.None? ==> left == None
      ensures rows == Written(old(rows), if ok then Marks(notes, deleted) else Marks(notes, deleted)[..fails.value], clock)
    {
      left, ok := fails, true;
      ghost var writes := Marks(notes, deleted);
      for i := 0 to |notes|
        invariant rows == Written(old(rows), writes[..i], clock)
        invariant fails.Some? ==> fails.value >= i && left == Some(fails.value - i)
        invariant fails.None? ==> left == None
      {
        assert writes[..i + 1][..i] == writes[..i];
        if left == Some(0) { return left, false; }
        var current := MarkOne(notes[i], deleted, clock(notes[i].id));
        if left.Some? { left := Some(left.value - 1); }
      }
      assert writes[..|notes|] == writes;
    }

    /** Deletes first, then restores; stops at the write that fails. */
    method ApplyCommand(c: Command, isUndo: bool, fails: Option<nat>, clock: Clock) returns (ok: bool)
      modifies this`rows
      ensures ok <==> fails.None? || fails.value >= |Writes(c, isUndo)|
      ensures rows == Written(old(rows), if ok then Writes(c, isUndo) else Writes(c, isUndo)[..fails.value], clock)
    {
      var toDelete, toRestore := if isUndo then c.created else c.deleted, if isUndo then c.deleted else c.created;
      var left: Option<nat>;
      left, ok := MarkAll(toDelete, true, fails, clock);
      if !ok {
        assert Writes(c, isUndo)[..fails.value] == Marks(toDelete, true)[..fails.value];
        return;
      }
      left, ok := MarkAll(toRestore, false, left, clock);
      WrittenTwice(old(rows), Marks(toDelete, true), if ok then Marks(toRestore, false) else Marks(toRestore, false)[..fails.value - |toDelete|], clock);
      if !ok { assert Writes(c, isUndo)[..fails.value] == Marks(toDelete, true) + Marks(toRestore, false)[..fails.value - |toDelete|]; }
    }

    /** Pops a command and applies it; on failure it goes back where it was. */
    method Step(isUndo: bool, fails: Option<nat>, clock: Clock) returns (done: bool)
      modifies this
      ensures Contents() == Stepped(old(Contents()), isUndo, fails, clock)
    {
      var from := if isUndo then undo else redo;
      if from == [] { return false; }
      var c := from[|from| - 1];
      if isUndo { undo := from[..|from| - 1]; } else { redo := from[..|from| - 1]; }
      done := ApplyCommand(c, isUndo, fails, clock);
      if done {
        if isUndo { redo := redo + [c]; } else { undo := undo + [c]; }
      } else {
        assert from == from[..|from| - 1] + [c];
        if isUndo { undo := undo + [c]; } else { redo := redo + [c]; }
      }
    }

    /** Deletes annotations and saves others as one action; snapshots are taken as each one is deleted. */
    method ReplaceAnnotations(deleted: seq<Note>, created: seq<Note>, clock: Clock)
      modifies this
      ensures Contents() == Replaced(old(Contents()), deleted, created, clock)
    {
      var snapshots := DeleteAll(deleted, clock);
      ghost var mid := rows;
      for i := 0 to |created|
        invariant undo == old(undo) && redo == old(redo)
        invariant rows == PutAll(mid, created[..i])
      {
        assert created[..i + 1][..i] == created[..i];
        rows := rows[created[i].id := created[i]];
      }
      assert created[..|created|] == created;
      PushCommand(Command(created, snapshots));
    }

    method DeleteAll(deleted: seq<Note>, clock: Clock) returns (snapshots: seq<Note>)
      modifies this`rows
      ensures rows == Written(old(rows), Marks(deleted, true), clock) && snapshots == Snapshots(old(rows), deleted, clock)
    {
      snapshots := [];
      for i := 0 to |deleted|
        invariant rows == Written(old(rows), Marks(deleted[..i], true), clock)
        invariant snapshots == Snapshots(old(rows), deleted[..i], clock)
      {
        assert deleted[..i + 1][..i] == deleted[..i];
        assert Marks(deleted[..i + 1], true)[..i] == Marks(deleted[..i], true);
        var snapshot := MarkOne(deleted[i], true, clock(deleted[i].id));
        snapshots := snapshots + [snapshot];
      }
      assert deleted[..|deleted|] == deleted;
    }
  }

  lemma {:induction false} WrittenTwice(rows: Rows, a: seq<Write>, b: seq<Write>, clock: Clock)
    ensures Written(Written(rows, a, clock), b, clock) == Written(rows, a + b, clock)
  {
    if b == [] {
      assert a + b == a;
    } else {
      WrittenTwice(rows, a, b[..|b| - 1], clock);
      assert (a + b)[..|a + b| - 1] == a + b[..|b| - 1];
    }
  }
}
