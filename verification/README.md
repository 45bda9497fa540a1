# Verified models of the reading app's client logic

The web client of the reading app keeps a child's documents, annotations and progress on the device and synchronises them when it can, lets a pen write over text and erases ink, reads aloud, and turns books into pages. This project models the parts of that client that must lose nothing and must never get stuck, and proves what they promise.

- **Synchronisation** (`SyncKeys`, `SyncApply`, `SyncBatch`, `SyncEngine`, `SyncProtocol`, `SyncPull`): local writes with an outbox, last-writer-wins pulls, batches, settling, and the loop around them as a state machine in which writes, other pulls, arbitrary responses and crashes come between any two atomic steps.
- **Ink** (`Geometry`, `HitTest`, `SplitStroke`, `Fragments`, `SimplifyStroke`): distances and intersections over the real numbers, the eraser's hit test, the partial eraser, and stroke simplification.
- **Read-aloud** (`SpeechMachine`, `SpeechOrder`, `SpeechEngine`, `SpeechText`, `RomanNumerals`): the speech engine with its generations, timers and watchdog under any order of events, and the order in which it reads; the spoken text with its map back to the page; roman numerals.
- **Anchoring** (`TextAnchor`, `Spans`, `TextSearch`, `Reanchor`, `AnnotationAnchor`, `Tokeniser`): strokes stored relative to words, and marks found again after the text has changed.
- **Books** (`Utf16`, `EpubText`, `EpubPages`): splitting and pagination of imported books.
- **Undo and jobs** (`History`, `ProcessingQueue`): undo and redo over stored rows, and the guard against processing jobs that crash the tab.
- **Cache keys** (`StableStringify`): the canonical JSON text.

`Options` holds the optional value all of them use. Code that updates state step by step is modelled by methods and classes proved equal to functions; what the code promises is proved about those functions, over all inputs and all runs. `dafny verify dfyconfig.toml` checks the project.

Where the code and its comments disagree the model follows the code. Four things go wrong, each with its exact condition: a page of a book can end with a title (`EpubPages.TitleEndsPageIff`), a request to process a page again can go unserved (`ProcessingQueue.RequestGoesUnservedIff`), a correction can be replaced by an older or another text (`ProcessingQueue.CorrectionIsReplacedIff`, `ProcessingQueue.CorrectionIsReadAgainIff`) or leave no text at all (`ProcessingQueue.CorrectionIsLostIff`), and redoing does not give back what an undo that failed had left (`History.RedosUndoUndosIff`).

## Model

| member | source | states |
|---|---|---|
| Geometry.NearestIsMinimum | client/src/pencil/geometry.ts:18-26 | The distance to a segment is the distance to its closest point: no point of the segment is nearer. |
| Geometry.IntersectsIffShared | client/src/pencil/geometry.ts:28-49 | The orientation test answers true exactly when the two closed segments have a common point, degenerate and collinear ones included. |
| Geometry.SegmentDistanceIsLowerBound | client/src/pencil/geometry.ts:51-55 | No pair of points of two segments is closer than their segment distance. |
| Geometry.SegmentDistanceIsAttained | client/src/pencil/geometry.ts:51-55 | Some pair of points of the two segments is exactly at that distance. |
| Geometry.BoundingBox | client/src/pencil/geometry.ts:69-83 | None for an empty polyline; otherwise the smallest box: every point is inside and each side is touched. |
| Geometry.ApartBoxes | client/src/pencil/geometry.ts:85-91 | Points of two boxes that stay apart after growing one by r are more than r apart. |
| HitTest.DistanceToPolyline | client/src/pencil/geometry.ts:57-67 | The smallest distance from a point to any point of a polyline; infinite for an empty one. |
| HitTest.PolylineDistance | client/src/pencil/geometry.ts:138-151 | The smallest distance between any two points of two polylines, with the early exit at 0. |
| HitTest.FarBoxesDoNotTouch | client/src/pencil/geometry.ts:157-164 | The bounding-box test rejects no stroke the eraser touches. |
| HitTest.HitTestStroke | client/src/pencil/geometry.ts:157-164 | A hit exactly when some point of the eraser path is within radius plus half the stroke width of some point of the stroke. |
| SplitStroke.Densify | client/src/pencil/geometry.ts:176-189 | The samples follow the stroke: its points in order, and between two of them equal steps, pressure included, no more than needed. |
| SplitStroke.DenseFollows | client/src/pencil/geometry.ts:176-189 | Every sample is a point of the stroke or the given part of the way to the next one, and no point is left out. |
| SplitStroke.DenseIsFine | client/src/pencil/geometry.ts:176-189 | No two neighbouring samples are more than maxStep apart. |
| SplitStroke.NearSegmentsSuffice | client/src/pencil/geometry.ts:200-213 | Testing only the eraser segments near the stroke box gives the same answer as the whole eraser path, for every point of that box. |
| SplitStroke.Boundary | client/src/pencil/geometry.ts:219-228 | Ten halvings end at a point outside the whole eraser path, one 1024th of the way from a point inside it. |
| SplitStroke.CutIsClose | client/src/pencil/geometry.ts:219-228 | A cut is exactly 1/1024 of the sample step away from an erased point. |
| SplitStroke.CutFragments | client/src/pencil/geometry.ts:230-245 | The fragments are the maximal runs of samples outside the eraser, in order, none dropped, repeated or reordered, with one cut at every end that touches an erased sample. |
| SplitStroke.CutStrokeOutside | client/src/pencil/geometry.ts:230-245 | Every sample and every cut of every fragment is farther than the radius from the whole eraser path. |
| SplitStroke.CutStrokeClear | client/src/pencil/geometry.ts:196-248 | Between those points too: the squared distance of every point of every remaining segment from the whole eraser path is more than the squared radius less a quarter of the squared sample step. |
| SplitStroke.DedupeMerges | client/src/pencil/geometry.ts:250-259 | Of every run of points at one place the first is left, and nothing else is dropped. |
| SplitStroke.RemainingAreParts | client/src/pencil/geometry.ts:247 | Left are exactly the fragments of two points or more that pass the length test, in order, each without repeated points. |
| SplitStroke.SplitStroke | client/src/pencil/geometry.ts:196-248 | Untouched exactly when no sample is within the radius of the whole eraser path; otherwise exactly the fragments above that are long enough, every remaining vertex strictly outside the eraser and every point between them within the bound above. |
| SimplifyStroke.MarkKept | client/src/pencil/geometry.ts:263-291 | The loop with an explicit stack ends, and keeps exactly the points the recursive algorithm keeps. |
| SimplifyStroke.GapsAreNegligible | client/src/pencil/geometry.ts:263-291 | Between two kept neighbours every dropped point is within epsilon of their segment, and its pressure within the pressure tolerance of the interpolated one. |
| SimplifyStroke.KeptStandsOut | client/src/pencil/geometry.ts:263-291 | A point inside is kept only if it is not negligible between two kept points and scores highest between them, the first of equals. |
| SimplifyStroke.Simplify | client/src/pencil/geometry.ts:263-292 | A subsequence with both ends in which everything dropped is negligible between its kept neighbours and every inner point kept stands out between two others; the points themselves when there is nothing to simplify. |
| SimplifyStroke.LargeEpsilonLeavesTwo | client/src/pencil/geometry.ts:294-303 | Once epsilon is past the size of the stroke, only its two ends are left (pressures in 0..1). |
| SimplifyStroke.CapPointCount | client/src/pencil/geometry.ts:294-303 | Doubling epsilon ends with at most maxPoints points, a subsequence with the same ends, for pressures in 0..1 and a cap of at least two; each round simplifies with twice the epsilon of the one before, and only because that one left too many. |
| SimplifyStroke.EndsAlwaysSurvive | client/src/pencil/geometry.ts:263-303 | A simplification of two or more points has at least two: a smaller cap would never be reached. |
| RomanNumerals.IntToRoman | client/src/tts/speechText.ts:61-72 | The subtraction loop writes the greedy numeral. |
| RomanNumerals.RomanToInt | client/src/tts/speechText.ts:50-59 | The sum with look-ahead, accepted only if it writes back to the same letters. |
| RomanNumerals.RomanRoundTrip | client/src/tts/speechText.ts:49-72 | Reading back the numeral of any positive number gives that number. |
| RomanNumerals.AcceptedIsCanonical | client/src/tts/speechText.ts:49-72 | A string is accepted with value n exactly when n is positive and the string is its numeral. |
| RomanNumerals.RomanIsByDigits | client/src/tts/speechText.ts:61-72 | The numeral is one M per thousand and then the usual letters of the hundreds, tens and ones digit. |
| StableStringify.SameMeaningSameText | client/src/ai/aiClient.ts:158-166 | Values that mean the same JSON, in whatever key order and with undefined properties or not, have the same text. |
| StableStringify.TextDetermines | client/src/ai/aiClient.ts:158-166 | A text, even followed by more, can be read back in one way only. |
| StableStringify.SameTextIffSameMeaning | client/src/ai/aiClient.ts:158-166 | Two values have the same cache text exactly when they mean the same JSON. |
| SyncKeys.KeyRoundTrip | shared/src/sync/keys.ts:5-17 | A primary key is found again from its outbox key exactly when it is well formed: non-empty parts, and no colon in the child id of a reading position. |
| SyncKeys.WellFormedKeysAreDistinct | shared/src/sync/keys.ts:5-17 | Two well-formed rows of a table never share an outbox key. |
| SyncKeys.IllFormedKeysCollide | client/src/sync/SyncEngine.ts:64-78 | A reading position shares its text key with another one exactly when its child or book id has a colon in it. |
| SyncApply.PullsAreAJoin | client/src/sync/SyncEngine.ts:195-217 | Unforced pulls leave the same non-page tables in any order, grouping or repetition of the same rows, when one stamp means one content. |
| SyncApply.OrderMattersIff | client/src/sync/SyncEngine.ts:195-217 | The order of two unforced pulls of one row matters exactly when they differ under one stamp and both are newer than the local row, if any. |
| SyncApply.PullsNeverOlder | client/src/sync/SyncEngine.ts:195-217 | Over any run of pulls a row is unchanged or newer, in any table, unless its key is forced. |
| SyncApply.PageKeepsItsText | client/src/sync/SyncEngine.ts:517-526 | While a page keeps its content hash, no run of pulls, forced or not, leaves it without text; its text is the local one or one received with that hash. |
| SyncApply.PullLeaves | client/src/sync/SyncEngine.ts:195-217 | For every row, forced or not: the newest copy that came, the last of equally new ones, in all its fields, the text alone perhaps the local one of the same hash; unless the local row is as new and not forced. |
| SyncApply.ForcedPullDecides | client/src/sync/SyncEngine.ts:204-214 | A forced key that a pull brings holds the newest copy of the server, older than the local row or not. |
| SyncApply.LastForcedPullDecides | client/src/sync/SyncEngine.ts:204-214 | Over any run of pulls the last forced one that brings a row decides it; later pulls only replace it by newer copies. |
| SyncBatch.GroupedIsGrouping | client/src/sync/SyncEngine.ts:225-238 | One group per key with exactly the outbox rows of that key, in the order of first appearance. |
| SyncBatch.GroupsAreInSeqOrder | client/src/sync/SyncEngine.ts:247 | Groups already are in the order of their first sequence number, so the sort changes nothing. |
| SyncBatch.BatchIsLongestPrefix | client/src/sync/SyncEngine.ts:240-275 | A batch is the longest prefix of the pushable rows, parents first, that fits both limits; never empty if one is pushable; hasMore exactly when one is left. |
| SyncBatch.ItemsOwn | client/src/sync/SyncEngine.ts:252-270 | Every item carries the row of its own key and the outbox rows of that key. |
| SyncBatch.PrivacyIsKept | client/src/sync/SyncEngine.ts:244 | What is sent of a row is the row itself, except that a page goes without its text when syncDocumentText is off; no annotation goes when syncAnnotations is off. |
| SyncBatch.BatchIsInOrder | client/src/sync/SyncEngine.ts:243-247 | A push goes through the tables parents first, and through each table oldest outbox row first. |
| SyncBatch.InvalidIsUnpushable | client/src/sync/SyncEngine.ts:225-276 | Collecting drops only outbox rows of unknown tables or without a row, and when nothing is left over it drops all of those. |
| SyncBatch.QuietRoundShrinks | client/src/sync/SyncEngine.ts:225-294 | A round without concurrent writes that finds something to push makes the outbox shorter. |
| SyncBatch.DrainedKeepsOnlyWithheld | client/src/sync/SyncEngine.ts:309-375 | Quiet rounds end, and leave only outbox rows of tables the privacy settings withhold; the tables are not touched. |
| SyncBatch.RoundsBounded | client/src/sync/SyncEngine.ts:330-375 | Draining takes at most one round more than there are outbox rows. |
| SyncEngine.LocalStore.SaveEntity | client/src/sync/SyncEngine.ts:183-193 | Afterwards the row is stored and its key is pending in the outbox, by the row it already had there or by one more at the end; nothing else moves. |
| SyncEngine.LocalStore.ApplyRemote | client/src/sync/SyncEngine.ts:195-217 | The loops leave of every row what PullLeaves says, forced keys included, and touch neither outbox nor other tables. |
| SyncEngine.LocalStore.CollectBatch | client/src/sync/SyncEngine.ts:225-276 | Grouping, the loop over tables, the cursor over found rows and the early exit give the specified batch; nothing that privacy withholds is in it, and useless outbox rows are dropped. |
| SyncEngine.LocalStore.SettleOutbox | client/src/sync/SyncEngine.ts:278-294 | Outbox rows of unchanged items go, the keys of changed ones are reported. |
| SyncEngine.CursorIsOwnPlace | client/src/sync/SyncEngine.ts:249-255 | The cursor pairs every key with its own entity although missing keys are left out of the bulk read. |
| SyncProtocol.StepKeeps | client/src/sync/SyncEngine.ts:183-391 | Every atomic step keeps the invariant of the protocol. |
| SyncProtocol.NoWriteIsLost | client/src/sync/SyncEngine.ts:183-391 | In every interleaving of writes, pulls, rounds, failures and crashes: the last version written of a row, or a newer one, was in an answered push, or the row has exactly one outbox row; unless its key was ever in a forced restore. |
| SyncProtocol.StoreNeverFallsBehind | client/src/sync/SyncEngine.ts:183-391 | Over every run the store holds the last version written or a newer one, forced keys aside. |
| SyncProtocol.SettleKeepsWrites | client/src/sync/SyncEngine.ts:278-294 | Settling drops the outbox row of a key only if the version that was answered is still the current one. |
| SyncProtocol.WriteStaysQueuedIff | client/src/sync/SyncEngine.ts:278-294 | A write that lands before settling keeps its outbox row exactly when its stamp differs from the pushed one: stamps must grow. |
| SyncProtocol.QuietProtocolRoundIsQuiet | client/src/sync/SyncEngine.ts:330-341 | A round of the protocol without interference does to the store what a quiet round is defined to do, and its items are answered. |
| SyncProtocol.QuietRunEndsDrained | client/src/sync/SyncEngine.ts:330-375 | A run of the protocol with its decisions, in which nothing happens meanwhile and the server sends no rows but may say that there is more, repeat its cursor or reject tables: if it ends before its last round, only rows of withheld tables are left. |
| SyncProtocol.OneRunDrains | client/src/sync/SyncEngine.ts:330-375 | When the server has no more to send, such a run ends, drained, within two rounds more than there are outbox rows. |
| SyncProtocol.RestoreEndsWithThePull | client/src/sync/SyncEngine.ts:351-374 | The keys to restore are forgotten only when a response ends the pull and nothing is left to push. |
| SyncProtocol.RestoreIsForgotten | client/src/sync/SyncEngine.ts:369-374 | When a response ends the pull and nothing is left to push, the keys to restore are forgotten and its cursor is stored. |
| SyncPull.CursorIsLastAccepted | client/src/sync/SyncEngine.ts:322-372 | Over every run, crashes included: each request carries the stored cursor, which is that of the last accepted response since the last restore began, and none right after it began. |
| SyncPull.RejectedIsRestored | client/src/sync/SyncEngine.ts:343-362 | A rejected row that is still as pushed is stored among the keys to restore, if no restore is under way, and the pull starts over. |
| SyncPull.RestoredRowIsServers | client/src/sync/SyncEngine.ts:335-338 | A key to restore that an answer brings holds the copy of the server once its table is applied. |
| SyncPull.NoPulledRowIsLost | client/src/sync/SyncEngine.ts:330-375 | In every interleaving of writes, pulls, rounds, failures and crashes the store holds every row of every applied response or a newer one, forced keys aside. |
| SyncPull.EveryPageIsPulledOnce | client/src/sync/SyncEngine.ts:322-375 | From a server that hands out pages by cursor a run pulls every page from its stored cursor on, once and in order, whatever is written meanwhile; after a restore begins, all from the first one with the keys to restore; ended before its last round, none is left and the keys are forgotten. |
| SpeechMachine.StepOk | client/src/tts/SpeechEngine.ts:139-502 | Every user action, timer, event and clock tick keeps the invariant of the engine. |
| SpeechMachine.SpeakKeepsItsDistance | client/src/tts/SpeechEngine.ts:326-386 | Over every run, no speak() comes less than 50 ms after any earlier cancel(). |
| SpeechMachine.CancelledIsSilent | client/src/tts/SpeechEngine.ts:346-371 | Over every run, an utterance that a cancel() followed has no effect any more, whatever event it sends and however late. |
| SpeechMachine.OnlyTheLastIsHeard | client/src/tts/SpeechEngine.ts:408-440 | Over every run, only the last utterance spoken can have an effect. |
| SpeechMachine.PlayingNeverStalls | client/src/tts/SpeechEngine.ts:160-176 | Over every run, while playing the index is valid and a speak timer of this generation is pending, or its utterance has started, or the watchdog is pending. |
| SpeechMachine.AtMostTwoAttempts | client/src/tts/SpeechEngine.ts:467-479 | Over every run, an item is tried at most twice without starting. |
| SpeechMachine.SilentItemGivesUp | client/src/tts/SpeechEngine.ts:448-479 | An item that stays silent through two watchdogs ends in the idle state with an error for that item. |
| SpeechMachine.NothingShownWhenSilent | client/src/tts/SpeechEngine.ts:346-355 | Word highlight and watchdog exist only while playing. |
| SpeechMachine.SilenceHolds | client/src/tts/SpeechEngine.ts:408-440 | Once nothing plays, waits or speaks, no event of any utterance ever spoken changes anything. |
| SpeechMachine.HaltIsSilent | client/src/tts/SpeechEngine.ts:178-186 | Stopping at any time, and pausing while playing, leave that silence. |
| SpeechMachine.ScheduleSpeaks | client/src/tts/SpeechEngine.ts:373-405 | Scheduling speech leads to playing, unless every item left has nothing to say: then the end is announced. |
| SpeechMachine.PlayPlays | client/src/tts/SpeechEngine.ts:160-176 | With a queue, play plays, unless every item from the current one on is silent. |
| SpeechMachine.SetQueueGoesOn | client/src/tts/SpeechEngine.ts:143-158 | A new queue interrupts nothing exactly when it still has the current item; otherwise speech stops at the clamped start. |
| SpeechMachine.SelectionIsSpoken | client/src/tts/SpeechEngine.ts:239-275 | A selection has just been spoken or a timer of the current generation will speak it, and the queue is not playing. |
| SpeechOrder.EndGoesToTheNext | client/src/tts/SpeechEngine.ts:388-421 | When an utterance ends the engine speaks, or has a timer on the way to, the first item after it with something to say, and announces the end if there is none. |
| SpeechOrder.PauseIsKept | client/src/tts/SpeechEngine.ts:414-421 | Before it speaks the next item it waits at least the pause between sentences, or the longer one before another block. |
| SpeechOrder.NeighboursAreNext | client/src/tts/SpeechEngine.ts:188-196 | Next and previous go one item on or back, within the queue, with one cancel if it was playing. |
| SpeechOrder.SeekGoesThere | client/src/tts/SpeechEngine.ts:198-202 | Seeking goes to the nearest place in the queue. |
| SpeechOrder.RateRestartsTheItem | client/src/tts/SpeechEngine.ts:204-211 | A new rate, clamped, says the current item again; without playing only the rate changes. |
| SpeechOrder.PlayHeadsForCurrent | client/src/tts/SpeechEngine.ts:160-176 | Play goes for the first item with something to say from the current one on. |
| SpeechOrder.SpokenIsShown | client/src/tts/SpeechEngine.ts:408-440 | A started utterance has its item shown and its failures forgotten; a word boundary has the word shown. |
| SpeechOrder.PlayingSaysTheCurrentItem | client/src/tts/SpeechEngine.ts:139-502 | Over every run, while playing with no timer pending the last utterance spoken is the text of the current item. |
| SpeechOrder.EverythingIsRead | client/src/tts/SpeechEngine.ts:160-176 | After play, in every run without user actions, failures and interruptions, the items spoken are those with something to say from the current one on, in order, none skipped or repeated, and all of them once it has stopped. |
| SpeechEngine.Player.Play | client/src/tts/SpeechEngine.ts:161-176 | Keeps the invariant: calls spaced, valid index, speech on its way while playing; and plays, unless all items left are silent. |
| SpeechEngine.Player.Pause | client/src/tts/SpeechEngine.ts:178-181 | Keeps the invariant; what was playing is paused and silent, anything else is untouched. |
| SpeechEngine.Player.Stop | client/src/tts/SpeechEngine.ts:183-186 | Keeps the invariant; afterwards everything is stopped and silent. |
| SpeechEngine.Player.SetQueue | client/src/tts/SpeechEngine.ts:143-158 | Keeps the invariant; the calls and the current item are untouched if the new queue has it, speech is stopped otherwise. |
| SpeechEngine.Player.SpeakOnce | client/src/tts/SpeechEngine.ts:239-275 | Keeps the invariant; the queue does not play and the selection is spoken or will be after the gap. |
| SpeechEngine.Player.Next | client/src/tts/SpeechEngine.ts:188-191 | Keeps the invariant and goes one item on, if there is one. |
| SpeechEngine.Player.Previous | client/src/tts/SpeechEngine.ts:193-196 | Keeps the invariant and goes one item back, or to the first. |
| SpeechEngine.Player.Seek | client/src/tts/SpeechEngine.ts:198-202 | Keeps the invariant and goes to the nearest place in the queue. |
| SpeechEngine.Player.SetRate | client/src/tts/SpeechEngine.ts:204-211 | Keeps the invariant; the rate is the clamped one, and the current item is said again if it was playing. |
| SpeechEngine.Player.OnUtterance | client/src/tts/SpeechEngine.ts:408-440 | Keeps the invariant; an event of another generation, or after silence, changes nothing; at the end of an utterance the engine goes for the next item with something to say. |
| SpeechEngine.Player.FireSpeakTimer | client/src/tts/SpeechEngine.ts:373-386 | A timer that fires no earlier than due keeps the invariant, so the call it makes is spaced. |
| SpeechEngine.Player.FireWatchdog | client/src/tts/SpeechEngine.ts:449-453 | Keeps the invariant: at most one more attempt, or the end with an error. |
| SpeechEngine.Player.OnHidden | client/src/tts/SpeechEngine.ts:511-520 | Keeps the invariant; nothing plays and no selection speaks. |
| TextSearch.BlockOrderIsByDistance | client/src/pencil/anchoring.ts:437-446 | The search order holds every block once, nearest to the origin first, the later of two equally near first. |
| TextSearch.BlockOrderLoop | client/src/pencil/anchoring.ts:437-446 | The loop ends and gives that order. |
| TextSearch.ExactMatchesLoop | client/src/pencil/anchoring.ts:448-461 | All positions where the normalised words match, in order. |
| TextSearch.JaccardLoop | client/src/pencil/anchoring.ts:469-474 | Counting common words one by one gives the size of the intersection over the size of the union, 0 for two empty sets. |
| TextSearch.BestOfIsBest | client/src/pencil/anchoring.ts:476-490 | The chosen window has Jaccard similarity of at least 0.8 and none scores higher, or as high and nearer; none is chosen only if none is similar enough. |
| TextSearch.WindowsAre | client/src/pencil/anchoring.ts:479-482 | Exactly the windows of one word fewer, as many and one more than the needle are tried, clipped to the text. |
| TextSearch.BestFuzzyLoop | client/src/pencil/anchoring.ts:476-490 | The loops over sizes and positions find that window. |
| Reanchor.SearchIsOptimal | client/src/pencil/anchoring.ts:531-554 | If a block has an exact match, the result is the closest match of the first such block by distance; otherwise the best similar window of the first block that has one; otherwise nothing. |
| Reanchor.ReanchoredIs | client/src/pencil/anchoring.ts:511-555 | Nothing on an empty page; the same offsets while the block has its hash and the text is where it was; otherwise what the search finds: the words found, and for a highlight the punctuation around them where the new text has it. |
| Reanchor.OrphanIffNothingFound | client/src/pencil/anchoring.ts:511-555 | Orphan exactly when the page is empty, or the text is not where it was and no block has an exact or a similar match. |
| Reanchor.FoundIsRange | client/src/pencil/anchoring.ts:534-554 | A moved anchor is a non-empty range of an existing block. |
| Reanchor.SurroundingsInside | client/src/pencil/anchoring.ts:492-504 | Taking in the punctuation around a match never leaves the block, although a slice may start at a negative index. |
| Reanchor.ReanchorText | client/src/pencil/anchoring.ts:511-555 | The search as it runs gives the specified place, which is as ReanchoredIs says. |
| AnnotationAnchor.ContextIsFound | client/src/pencil/anchoring.ts:71-85 | The context built at a word is found again at that word in the same text. |
| AnnotationAnchor.BuildContextLoop | client/src/pencil/anchoring.ts:71-85 | The loop builds the specified context for any offset. |
| AnnotationAnchor.ContextIsLongest | client/src/pencil/anchoring.ts:71-85 | At a word the context is the text up to the last of at most five more words that end within 120 characters, no word fewer. |
| AnnotationAnchor.MovedGoes | client/src/pencil/anchoring.ts:599-625 | An annotation disappears exactly when its text is not found; otherwise it keeps its id and is anchored where the text is, with the hash of the block and a highlight with its text. |
| AnnotationAnchor.MovedStrokeIsAnchored | client/src/pencil/anchoring.ts:610-625 | A stroke whose text has moved is anchored at a word with the context of that word. |
| AnnotationAnchor.UnchangedPageKeeps | client/src/pencil/anchoring.ts:595-625 | On the page it was made on an annotation stays as it is. |
| AnnotationAnchor.EndGoesWithItsWord | client/src/pencil/anchoring.ts:571-593 | The end of a stroke goes where its word is on the new page, and stays if the block is unchanged. |
| AnnotationAnchor.HighlightIsIdempotent | client/src/pencil/anchoring.ts:599-609 | Re-anchoring a highlight again for the same page changes nothing. |
| AnnotationAnchor.StrokeIsIdempotent | client/src/pencil/anchoring.ts:610-625 | Re-anchoring a stroke again for the same page changes nothing, if cutting a text at words keeps its words. |
| AnnotationAnchor.ReanchoringIsIdempotent | client/src/pencil/anchoring.ts:595-625 | The same for any annotation, whatever the old page given. |
| Tokeniser.SimpleIsSliceable | client/src/pencil/anchoring.ts:57-69 | A tokeniser of maximal letter runs keeps the words of a text cut at words, so the assumption on tokenisers can be met. |
| Tokeniser.SimpleReanchoringIsIdempotent | client/src/pencil/anchoring.ts:595-625 | With that tokeniser re-anchoring twice changes nothing, with no assumption left. |
| TextAnchor.FoundWord | client/src/pencil/anchoring.ts:177-187 | The word at the offset, else the last one before it, else the first of the block. |
| TextAnchor.FindWordBoxLoop | client/src/pencil/anchoring.ts:177-187 | The loop with its early exit finds that word. |
| TextAnchor.NearestWordLoop | client/src/pencil/anchoring.ts:162-175 | The nearest word box, the first of equally near ones, although the search stops inside a box. |
| TextAnchor.NearestWordIsNearest | client/src/pencil/anchoring.ts:162-175 | No word box is nearer. |
| TextAnchor.RectDistanceIsNearest | client/src/pencil/geometry.ts:98-102 | The distance to a word is that to the nearest point of its box. |
| TextAnchor.AnchorStrokeToText | client/src/pencil/anchoring.ts:241-272 | Nothing without points, words or hash; otherwise stored with the hash and context of its anchor: for one line the word nearest to the centre of the smallest box, else the words nearest to the two ends, which are on different lines. |
| TextAnchor.StrokeComesBack | client/src/pencil/anchoring.ts:241-294 | With the layout unchanged every point comes back within 0.00005 of the local font size per coordinate, pressure within 0.0005 and the width within 0.00005 em, on one line or several. |
| TextAnchor.AnchorAndResolve | client/src/pencil/anchoring.ts:241-294 | Stored and shown again in the same layout, a stroke comes back within those bounds exactly when it has points, there are words, and the block of its anchor has a hash. |
| TextAnchor.OwnWordsAreFoundIff | client/src/pencil/anchoring.ts:177-187 | Every word is found under its own block and offset exactly when offsets are distinct per block and all blocks are listed. |
| EpubText.WordRangesLoop | client/src/documents/EpubReader.ts:308-327 | The loop ends for a limit of at least 2 and gives the specified ranges. |
| EpubText.WordRangesAreCutWell | client/src/documents/EpubReader.ts:308-327 | Every range starts at a character and ends with the stretch if that fits, else at the last space within the limit, else at the limit or one before it. |
| EpubText.CutAdvancesIff | client/src/documents/EpubReader.ts:318-325 | A cut advances exactly for a limit of at least 2, or of 1 without a surrogate pair in the way: the loop ends for these. |
| EpubText.WordRangesFit | client/src/documents/EpubReader.ts:308-327 | Ranges are not empty, in order and at most limit long. |
| EpubText.WordRangesWhole | client/src/documents/EpubReader.ts:308-327 | In a text without a lone low surrogate after a pair, no range starts or ends inside a surrogate pair. |
| EpubText.CutsWholeIff | client/src/documents/EpubReader.ts:318-322 | No cut of a text, at any place and limit, splits a surrogate pair exactly when no lone low surrogate follows a pair in it. |
| EpubText.SplitKeepsText | client/src/documents/EpubReader.ts:329-349 | The pieces of a text hold all its characters in order, white space aside. |
| EpubText.SplitFits | client/src/documents/EpubReader.ts:329-349 | Pieces are in order, not empty and never longer than max; an empty text is its own piece. |
| EpubText.WellFormedIsCuttable | client/src/documents/EpubReader.ts:68-77 | A well-formed text has no lone low surrogate after a pair. |
| EpubText.SplitIsWhole | client/src/documents/EpubReader.ts:329-349 | No piece of such a text, well-formed ones included, starts or ends inside a surrogate pair. |
| EpubText.ChunksAreGreedy | client/src/documents/EpubReader.ts:338-347 | Every unit is in one chunk, in order; a chunk of several stays within the target, and the next unit would take it past. |
| EpubText.SplitIs | client/src/documents/EpubReader.ts:329-349 | A text within max is one piece; otherwise its sentences, too long ones cut at spaces, are gathered into such chunks, and these lose the white space around them. |
| EpubText.WholeTextIsLawful | client/src/documents/EpubReader.ts:333 | A segmenter that takes the whole text as one sentence meets what is assumed of segmenters. |
| EpubText.SplitLongText | client/src/documents/EpubReader.ts:329-349 | The loops over sentences and units give those pieces, which are as SplitIs says. |
| EpubPages.PagesKeepBlocks | client/src/documents/EpubReader.ts:355-394 | The pages one after the other are the blocks of the chapters one after the other. |
| EpubPages.PagesAreWellCut | client/src/documents/EpubReader.ts:350-394 | No page is empty; once a page has a paragraph no block takes it past 2500 characters or 120 blocks, nor past 1800 characters unless nearer to them; a page ends with a title only where a titled chapter follows or the book ends; every titled chapter starts a page. |
| EpubPages.PagesAreFilled | client/src/documents/EpubReader.ts:373-390 | No page is closed early: unless a titled chapter starts after it, a page with the titles carried over to the next could not have taken the block after them. |
| EpubPages.ShortBookIsOnePage | client/src/documents/EpubReader.ts:355-394 | Chapters without titles of at most 1800 characters and 120 blocks in all make at most one page. |
| EpubPages.FullPageOk | client/src/documents/EpubReader.ts:360-371 | A page closed because it is full ends with a paragraph, and the titles after it go to the next page. |
| EpubPages.PageCanEndWithTitle | client/src/documents/EpubReader.ts:350-353 | Two chapters of one title each give a page that ends with a title, although the comment says that never happens. |
| EpubPages.TitleEndsPageIff | client/src/documents/EpubReader.ts:350-394 | A page ends with a title exactly when a titled chapter, or the end of the book, follows a title. |
| EpubPages.BlocksAreSplit | client/src/documents/EpubReader.ts:382-383 | A block longer than 2500 characters becomes pieces of about 1800 of its kind; any other stays whole. |
| EpubPages.ImportLosesNothing | client/src/documents/EpubReader.ts:355-394 | From chapters to pages, splitting included, no character is lost or moved, white space aside. |
| EpubPages.Paginator.ClosePage | client/src/documents/EpubReader.ts:360-371 | The page is closed as specified and the page limit is checked. |
| EpubPages.Paginator.Add | client/src/documents/EpubReader.ts:373-390 | A block goes on this page or, where the break rule says so, on a new one. |
| EpubPages.Paginate | client/src/documents/EpubReader.ts:355-394 | An error exactly when there are more than maxPages; otherwise all the blocks in order, on pages well cut and filled. |
| SpeechText.ChosenAreApart | client/src/tts/speechText.ts:140-159 | Chosen replacements never overlap. |
| SpeechText.ChosenAreWinners | client/src/tts/speechText.ts:140-159 | Chosen is exactly what the rules win in their order: every match with something to say that overlaps no earlier winner. |
| SpeechText.EverythingIsSaid | client/src/tts/speechText.ts:160-199 | White space aside, every chosen replacement is said at its place and every character outside them as it is, in the order of the text; only a comma at the very start may be missing. |
| SpeechText.PreparedMapOk | client/src/tts/speechText.ts:141-209 | For any matches: one position per spoken character, in range and never going back; a character no rule produced is the text's own at its position, or a space for white space, and no such position is used twice. |
| SpeechText.TidiedKeepsSolid | client/src/tts/speechText.ts:181-199 | Collapsing, trimming and the comma rule lose no character that is not white space, except one comma at the start. |
| SpeechText.TidiedIsTidy | client/src/tts/speechText.ts:181-199 | One space at a time, none at either end. |
| SpeechText.KeptCharacterIsSaid | client/src/tts/speechText.ts:162-199 | A character outside every replacement, neither white space nor a comma, is said and points to itself. |
| SpeechText.LookupIsMonotone | client/src/tts/speechText.ts:201-208 | Looking up any index stays in the text and never goes back. |
| SpeechText.PrepareSpokenText | client/src/tts/speechText.ts:141-209 | The loops over text and map give the specified characters and positions. |
| SpeechText.InsideWord | client/src/tts/speechText.ts:223-231 | A letter of a prepared word points into the displayed word it is paired with, to the same letter if there is one. |
| SpeechText.BetweenWords | client/src/tts/speechText.ts:223-231 | Between two prepared words the end of the displayed word before is shown, before the first the start of the first. |
| SpeechText.AlignsIff | shared/src/text/spoken.ts:20-29 | Texts are aligned exactly when they have the same words, at least one, and the prepared one has at most 8000 characters. |
| SpeechText.DisplayIsMonotone | client/src/tts/speechText.ts:215-241 | Through both maps the position in the displayed text never goes back and stays within it. |
| SpeechText.PreparedMap | client/src/tts/speechText.ts:219-232 | The loop with its word pointer gives the position of every prepared character. |
| ProcessingQueue.AtMostTwoStarts | client/src/documents/ProcessingQueue.ts:425-601 | Whatever crashes, requests, corrections and deletions come between any read and write: at most two starts per request, aborted runs aside (a request reads and writes its job at once); a queued job has fewer than 2 attempts, a running one 1 or 2. |
| ProcessingQueue.RestsUntilAsked | client/src/documents/ProcessingQueue.ts:393-405 | A failed or finished job is left alone until the page is asked for again. |
| ProcessingQueue.TwoCrashesEndTheJob | client/src/documents/ProcessingQueue.ts:425-446 | Two runs that crash the tab end in crash_loop, and a page still waiting becomes unreadable. |
| ProcessingQueue.RequestIsServedIff | client/src/documents/ProcessingQueue.ts:461-531 | From any state: a request stays stored, and queued until a run begins for it, in every run without another request, correction, deletion or removed source, exactly when nothing is held, as it is made, that could write over it or end it unbegun. |
| ProcessingQueue.RequestGoesUnservedIff | client/src/documents/ProcessingQueue.ts:299-325 | When held copies are not newer than the stored job, a request can be overwritten or marked done without a run, and then never answers its caller, exactly when a worker has picked the job or is about to write its result, or a correction holds the job or is still to read it. |
| ProcessingQueue.SupersededRunWritesNothing | client/src/documents/ProcessingQueue.ts:494-531 | Whatever a run comes to for which a new request was made meanwhile, it leaves that request queued, unless its source was removed: then the job is deleted, the new request with it. |
| ProcessingQueue.RunEndsAs | client/src/documents/ProcessingQueue.ts:502-601 | The end of a run, outcome by outcome: done; removed; queued as if it had not begun; done with an error and the page kept; queued again with the error; or failed after a permanent error or the second attempt, with a page that is not available marked. |
| ProcessingQueue.TextStays | client/src/documents/ProcessingQueue.ts:591-599 | Over every run in which nothing is erased on purpose a page keeps a text, if no textless copy of it is held at the start. |
| ProcessingQueue.TextIsLostIff | client/src/documents/ProcessingQueue.ts:591-599 | A page with text can end without any, nothing being erased on purpose, exactly when the worker holds an older copy without text: read by a run that is still to write it, or about to be marked unreadable. |
| ProcessingQueue.CorrectionIsLostIff | client/src/documents/ProcessingQueue.ts:299-316 | A correction can leave its page without any text, nothing being erased on purpose, exactly when such a textless copy is held as it lands. |
| ProcessingQueue.CorrectionIsReplacedIff | client/src/documents/ProcessingQueue.ts:825-839 | As long as no run reads the page after a correction and nothing else is corrected, the page can stop being exactly the corrected one exactly when, as the correction lands, a run has read the page and is to write it, a run is to write another text once more with its image, or the page was read to be marked unreadable. |
| ProcessingQueue.CorrectionIsReadAgainIff | client/src/documents/ProcessingQueue.ts:603-615 | Over all runs without a new request or correction, later readings included, a correction can be replaced exactly when that is so or a run asked for explicitly may still read the page: runs nobody asked for never replace it. |
| ProcessingQueue.CorrectionCanBeOverwritten | client/src/documents/ProcessingQueue.ts:591-598 | A pending page whose last attempt fails, corrected after it was read to be marked: the correction is overwritten. |
| ProcessingQueue.JobStore.DoRecover | client/src/documents/ProcessingQueue.ts:425-446 | For every page what the state machine does in a new tab left alone; no job is left running and all attempts stay within bounds. |
| ProcessingQueue.JobStore.EnqueueExplicit | client/src/documents/ProcessingQueue.ts:461-478 | The request step of the state machine: queued with no attempts, no error and high priority, under a generation later than before and not before now; no other job changes. |
| ProcessingQueue.JobStore.PutJobIfCurrent | client/src/documents/ProcessingQueue.ts:494-500 | Written exactly when the stored generation is still the one of the run. |
| ProcessingQueue.JobStore.EndJob | client/src/documents/ProcessingQueue.ts:512-544 | Job and page end as RunEndsAs says for every outcome, and as in the state machine when nothing comes between the steps; no other page changes and all attempts stay within bounds. |
| ProcessingQueue.JobStore.HandleFailure | client/src/documents/ProcessingQueue.ts:553-601 | Done with an error, queued again, or failed with its page, by kind of failure and attempts. |
| History.SetDeletedSets | client/src/pencil/AnnotationStore.ts:78-85 | Marking sets exactly what it says, keeps the content, and strictly raises the stamp whenever it changes something. |
| History.CommandSets | client/src/pencil/AnnotationStore.ts:87-93 | Undoing makes what was created disappear and what was deleted come back; redoing the converse. |
| History.ReplacedIsEdit | client/src/pencil/AnnotationStore.ts:107-115 | An action takes its deleted annotations out of the live ones and adds its created ones. |
| History.RedosUndoUndosIff | client/src/pencil/history.ts:80-105 | Whatever the stored annotations have come to, k undos and then k redos give back the same live ones exactly when every annotation named in the last k commands is live as it was last named, created or deleted; stacks and contents always come back. |
| History.UndosAreRedoneIff | client/src/pencil/history.ts:80-105 | The same after any run of actions, undos and redos from an empty history, failed ones included. |
| History.UndosAreRedone | client/src/pencil/history.ts:80-105 | After any run in which no write failed, k undos and then k redos give the same live annotations with the same contents. |
| History.FailedUndoIsNotRedone | client/src/pencil/history.ts:86-95 | Two annotations are added, undoing that fails after the first, another is added: two undos and two redos bring the first one back. |
| History.UndosThenRedos | client/src/pencil/history.ts:80-105 | k undos lead to the live annotations of k commands ago, k redos back again; contents never change. |
| History.UndoTakesBack | client/src/pencil/history.ts:59-105 | An undo right after an action gives back the live annotations before it, with their contents. |
| History.RetryEndsTheSame | client/src/pencil/history.ts:86-95 | An undo or redo that fails at any write leaves the stacks as they were, and repeating it ends in the same annotations and contents as one that did not fail. |
| History.AnnotationHistory.PushCommand | client/src/pencil/history.ts:58-66 | An empty command changes nothing; any other goes on top of the last 99, and there is nothing to redo. |
| History.AnnotationHistory.Step | client/src/pencil/history.ts:80-96 | A command moves to the other stack, or back where it was when a write fails. |
| History.AnnotationHistory.ReplaceAnnotations | client/src/pencil/AnnotationStore.ts:107-115 | Deletes, saves and records as one command, snapshots taken as each one is deleted. |

## Left out

- SplitStroke.SplitStroke: the length below which a fragment is dropped is a predicate given by the caller, because path lengths are sums of square roots; all other distances are compared squared.
- SplitStroke.Densify: the number of samples of a segment is found by squared lengths instead of a square root.
- StableStringify.SameTextIffSameMeaning: Unicode normalisation is a function given by the caller; as in the code, keys are not normalised, and numbers are given by their texts.
- SyncKeys.KeyRoundTrip: only optionally signed digits and the empty string are numbers; JavaScript's other number texts never occur in a page key.
- SyncEngine.LocalStore.CollectBatch: the method reads all tables at one moment; reading them one after the other with writes in between is part of SyncProtocol.
- SyncProtocol.NoWriteIsLost: assumes stamps that grow with every write of a row, well-formed keys, and no row removed while its outbox row is pending; retry timers, listeners, status and the log of rejections are not part of the model.
- SyncProtocol.RestoreEndsWithThePull: that rows rejected after a restore has begun are restored in the same run is not claimed; the code does not do it.
- SpeechMachine.StepOk: time stands still within a step, listeners do not call back into the engine, and the wake lock, voices and pitch are left out.
- SpeechEngine.Player.OnUtterance: the word under a boundary event is given with the event, not found in the text.
- AnnotationAnchor.ReanchoringIsIdempotent: the real tokeniser, normalisation and hash are parameters; what is assumed of the tokeniser is met by the small one in Tokeniser.
- Reanchor.SearchIsOptimal: Jaccard scores are exact quotients, not rounded ones.
- TextAnchor.StrokeComesBack: coordinates are real numbers; the rounding to four and three decimals is modelled, floating-point error is not.
- EpubText.SplitLongText: sentence boundaries come from a segmenter given by the caller; a segmenter that takes the whole text as one sentence meets what is assumed of it.
- SpeechText.PrepareSpokenText: what the rules match is an arbitrary list of candidates in rule order; the rules' patterns are left out.
- ProcessingQueue.AtMostTwoStarts: one page and one tab; the order in which jobs are picked, deferred jobs, jobs an older version left at stage server_retry, pulls of the page from other devices and what a run does to images are left out, and a new request reads and writes its job in one step.
- ProcessingQueue.JobStore.HandleFailure: the methods of JobStore run without interleaving; what may come between their reads and writes is in the state machine.
- ProcessingQueue.JobStore.EndJob: the promises of callers waiting for a page are not part of the model; what RequestGoesUnservedIff follows instead is whether a run begins for the request.
- History.UndosAreRedone: one history key, and no failed write in the run; failed undos and redos are in UndosAreRedoneIff, rows changed from elsewhere in RedosUndoUndosIff, failures in the middle of a new action only there.
- Highlighter snapping, the original and answer spaces, French number words and number rendering of other rules: no property beyond their formulas.
- React components, the Swift app, the server, OCR and PDF engines, IndexedDB, HTTP and Web Speech themselves.
