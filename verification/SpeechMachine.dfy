module SpeechMachine {
  // The read-aloud engine as a state machine. Time stands still within a step; timers fire at or after their due time, in any
  // order; a cleared timer never fires; events of any utterance ever spoken may come at any time. `calls` and `events` record
  // what reached the synthesiser and the listeners; `attempts` counts the speak() calls for the current item since the last
  // start, seek or move, and `started` says whether the current utterance has started. The engine never reads these four.

  import opened Options

  const CANCEL_GAP_MS := 50
  const MAX_START_RETRIES := 1
  const WATCHDOG_MS := 3000
  const RATE_MIN := 0.5
  const RATE_MAX := 1.5
  const SENTENCE_PAUSE_MAX := 1500
  const PARAGRAPH_PAUSE_MAX := 3000

  /** A sentence: its id, the block it belongs to and the text prepared for speech. */
  datatype Item = Item(id: string, block: string, spoken: string)

  datatype Status = Stopped | Paused | Playing

  /** An utterance carries its text and the generation it was made in; without an item it speaks a selection. */
  datatype Utterance = Utterance(gen: nat, item: Option<Item>, said: string)

  datatype Call = Cancelled(at: int) | Spoken(at: int, utterance: Utterance)

  datatype Emitted = Ended | StartFailed(id: Option<string>) | Unsupported

  /** A pending speak: when, for which generation, and the text of a selection if it is one. */
  datatype Timer = Timer(due: int, gen: nat, once: Option<string>)

  datatype Watchdog = Watchdog(due: int, gen: nat)

  datatype UtteranceEvent = OnStart | OnEnd | OnInterrupted | OnError | OnBoundary(range: Option<(nat, nat)>)

  datatype Engine = Engine(
    supported: bool, status: Status, shownIndex: nat, shownId: Option<string>, rate: real, wordRange: Option<(nat, nat)>,
    queue: seq<Item>, index: nat, generation: nat, lastCancelAt: Option<int>, speakTimer: Option<Timer>, watchdog: Option<Watchdog>,
    startRetries: nat, onceActive: bool, sentencePause: nat, paragraphPause: nat,
    clock: int, attempts: nat, started: bool, calls: seq<Call>, events: seq<Emitted>)

  function CurrentId(e: Engine): Option<string> {
    if e.index < |e.queue| then Some(e.queue[e.index].id) else None
  }

  function ClampIndex(queue: seq<Item>, index: int): nat {
    if queue == [] || index < 0 then 0 else if index < |queue| then index else |queue| - 1
  }

  function ClampRate(rate: real): real {
    var r := if rate < RATE_MIN then RATE_MIN else if rate > RATE_MAX then RATE_MAX else rate;
    (r * 100.0 + 0.5).Floor as real / 100.0
  }

  function Clamp(x: int, max: nat): nat { if x < 0 then 0 else if x > max then max else x }

  /** How long the next speak() still has to wait for the last cancel(). */
  function GapBeforeSpeak(e: Engine): nat {
    match e.lastCancelAt
    case None => 0
    case Some(at) => if e.clock - at < CANCEL_GAP_MS then CANCEL_GAP_MS - (e.clock - at) else 0
  }

  function CancelSynth(e: Engine): Engine {
    e.(lastCancelAt := Some(e.clock), calls := e.calls + [Cancelled(e.clock)])
  }

  function ClearTimers(e: Engine): Engine { e.(speakTimer := None, watchdog := None) }

  function Show(e: Engine, status: Status): Engine {
    e.(status := status, shownIndex := e.index, shownId := CurrentId(e), wordRange := None)
  }

  function Halt(e: Engine, status: Status): Engine {
    var cleared := ClearTimers(e.(generation := e.generation + 1));
    var quiet := if e.supported then CancelSynth(cleared) else cleared;
    Show(quiet.(onceActive := false), status)
  }

  function Finish(e: Engine): Engine {
    Show(ClearTimers(e.(generation := e.generation + 1, events := e.events + [Ended])), Stopped)
  }

  function Remaining(e: Engine): nat { if e.index < |e.queue| then |e.queue| - e.index else 0 }

  function RetriesLeft(e: Engine): nat { if e.startRetries < MAX_START_RETRIES then MAX_START_RETRIES - e.startRetries else 0 }

  /** Speaks now, or when the gap after the last cancel() and the pause are over. `throws`: synth.speak() throws. */
  function ScheduleSpeak(e: Engine, pause: nat, throws: bool): Engine
    decreases Remaining(e), RetriesLeft(e), 2
  {
    var gen := e.generation + 1;
    var gap := GapBeforeSpeak(e);
    var wait := if gap > pause then gap else pause;
    if wait > 0 then e.(generation := gen, speakTimer := Some(Timer(e.clock + wait, gen, None)))
    else SpeakNow(e.(generation := gen, speakTimer := None), gen, throws)
  }

  function SpeakNow(e: Engine, gen: nat, throws: bool): Engine
    decreases Remaining(e), RetriesLeft(e), 1
  {
    if gen != e.generation || e.status != Playing then e
    else if e.index >= |e.queue| then Finish(e)
    else
      var item := e.queue[e.index];
      if item.spoken == "" then
        if e.index + 1 < |e.queue| then ScheduleSpeak(Moved(e), 0, throws)
        else Finish(e)
      else
        var spoken := Spoke(e, gen, item);
        if throws then RetryOrFail(spoken, throws)
        else spoken.(watchdog := Some(Watchdog(e.clock + WATCHDOG_MS, gen)))
  }

  function Spoke(e: Engine, gen: nat, item: Item): Engine {
    e.(calls := e.calls + [Spoken(e.clock, Utterance(gen, Some(item), item.spoken))], attempts := e.attempts + 1, started := false)
  }

  /** Cancels and tries once more, or gives up with an error. */
  function RetryOrFail(e: Engine, throws: bool): Engine
    decreases Remaining(e), RetriesLeft(e), 0
  {
    if e.startRetries < MAX_START_RETRIES then
      ScheduleSpeak(CancelSynth(e.(startRetries := e.startRetries + 1, watchdog := None)), 0, throws)
    else
      var halted := Halt(e, Stopped);
      halted.(events := halted.events + [StartFailed(CurrentId(e))])
  }

  // ---------- user actions ----------

  function Play(e: Engine, busy: bool, throws: bool): Engine {
    if !e.supported then e.(events := e.events + [Unsupported])
    else if e.status == Playing || e.queue == [] then e
    else
      ScheduleSpeak(Prepared(e, busy), 0, throws)
  }

  /** Ready to speak the current item: whatever else was being spoken is cancelled. */
  function Prepared(e: Engine, busy: bool): Engine {
    var ready := e.(index := ClampIndex(e.queue, e.index), startRetries := 0);
    var quiet := if e.onceActive || busy then CancelSynth(ready) else ready;
    Show(quiet.(onceActive := false, attempts := 0), Playing)
  }

  function Pause(e: Engine): Engine { if e.status != Playing then e else Halt(e, Paused) }

  function Stop(e: Engine): Engine {
    if e.status == Stopped && !e.onceActive && e.speakTimer == None then e else Halt(e, Stopped)
  }

  function MoveTo(e: Engine, index: nat, throws: bool): Engine {
    if e.status != Playing then Positioned(e, index)
    else if !e.supported then e
    else ScheduleSpeak(Redirected(e, index), 0, throws)
  }

  function Positioned(e: Engine, index: nat): Engine {
    var moved := e.(index := index);
    moved.(shownIndex := index, shownId := CurrentId(moved), wordRange := None)
  }

  function Silenced(e: Engine): Engine { CancelSynth(ClearTimers(e.(generation := e.generation + 1))) }

  /** Silenced, and about to speak another item. */
  function Redirected(e: Engine, index: nat): Engine {
    Silenced(e).(index := index, startRetries := 0, attempts := 0)
  }

  function Next(e: Engine, throws: bool): Engine {
    if e.index + 1 >= |e.queue| then e else MoveTo(e, e.index + 1, throws)
  }

  function Previous(e: Engine, throws: bool): Engine {
    if e.queue == [] then e else MoveTo(e, if e.index > 0 then e.index - 1 else 0, throws)
  }

  function Seek(e: Engine, index: int, throws: bool): Engine {
    if e.queue == [] then e else MoveTo(e, ClampIndex(e.queue, index), throws)
  }

  function SetRate(e: Engine, rate: real, throws: bool): Engine {
    var next := ClampRate(rate);
    if next == e.rate then e
    else if e.status == Playing then MoveTo(e.(rate := next), e.index, throws)
    else e.(rate := next)
  }

  function SetPauses(e: Engine, sentence: int, paragraph: int): Engine {
    e.(sentencePause := Clamp(sentence, SENTENCE_PAUSE_MAX), paragraphPause := Clamp(paragraph, PARAGRAPH_PAUSE_MAX))
  }

  /** The first item with an id. */
  function FindId(items: seq<Item>, id: string): (r: int)
    ensures -1 <= r < |items|
    ensures r >= 0 ==> items[r].id == id
  {
    if items == [] then -1
    else if items[0].id == id then 0
    else
      var r := FindId(items[1..], id);
      if r < 0 then -1 else r + 1
  }

  /** A new queue; speech goes on when the current item is still in it. */
  function SetQueue(e: Engine, items: seq<Item>, start: int): Engine {
    var id := CurrentId(e);
    var found := if e.status != Stopped && id.Some? then FindId(items, id.value) else -1;
    if found >= 0 then e.(queue := items, index := found, shownIndex := found, shownId := id)
    else WithQueue(if e.status != Stopped then Halt(e, Stopped) else e, items, start)
  }

  function WithQueue(e: Engine, items: seq<Item>, start: int): Engine {
    Show(e.(queue := items, index := ClampIndex(items, start)), Stopped)
  }

  /** Speaks a selection; playing is paused first. `blank`: nothing but white space was given. */
  function SpeakOnce(e: Engine, blank: bool, spoken: string, busy: bool, throws: bool): Engine {
    if !e.supported then e.(events := e.events + [Unsupported])
    else if blank then e
    else
      ScheduleSelection(if e.status == Playing then Halt(e, Paused) else if e.onceActive || busy then CancelSynth(e) else e, spoken, throws)
  }

  function ScheduleSelection(e: Engine, spoken: string, throws: bool): Engine {
    SelectionAfterGap(ClearTimers(e).(generation := e.generation + 1), spoken, throws)
  }

  function SelectionAfterGap(e: Engine, spoken: string, throws: bool): Engine {
    var wait := GapBeforeSpeak(e);
    if wait > 0 then e.(speakTimer := Some(Timer(e.clock + wait, e.generation, Some(spoken))))
    else SpeakSelection(e, e.generation, spoken, throws)
  }

  function SpeakSelection(e: Engine, gen: nat, spoken: string, throws: bool): Engine {
    if gen != e.generation || spoken == "" then e
    else e.(calls := e.calls + [Spoken(e.clock, Utterance(gen, None, spoken))], onceActive := !throws)
  }

  // ---------- timers and events ----------

  function FireSpeakTimer(e: Engine, throws: bool): Engine
    requires e.speakTimer.Some?
  {
    var t := e.speakTimer.value;
    var fired := e.(speakTimer := None);
    match t.once
    case Some(spoken) => SpeakSelection(fired, t.gen, spoken, throws)
    case None => SpeakNow(fired, t.gen, throws)
  }

  function FireWatchdog(e: Engine, throws: bool): Engine
    requires e.watchdog.Some?
  {
    var fired := e.(watchdog := None);
    if e.watchdog.value.gen != e.generation || e.status != Playing then fired else RetryOrFail(fired, throws)
  }

  /** Longer before an item of another block. */
  function PauseAfter(e: Engine, current: Item, next: Item): nat {
    if current.block == next.block then e.sentencePause else e.paragraphPause
  }

  /** On to the next item after a pause, or the end. */
  function Advance(e: Engine, item: Item, throws: bool): Engine {
    if e.index + 1 < |e.queue| then ScheduleSpeak(Moved(e), PauseAfter(e, item, e.queue[e.index + 1]), throws) else Finish(e)
  }

  function Started(e: Engine, item: Item): Engine {
    e.(watchdog := None, startRetries := 0, shownIndex := e.index, shownId := Some(item.id), wordRange := None, attempts := 0, started := true)
  }

  function Moved(e: Engine): Engine { e.(index := e.index + 1, attempts := 0) }

  function ItemEvent(e: Engine, item: Item, event: UtteranceEvent, throws: bool): Engine {
    match event
    case OnStart => Started(e, item)
    case OnEnd => Advance(e.(watchdog := None), item, throws)
    case OnInterrupted => Halt(e.(watchdog := None), Paused)
    case OnError => RetryOrFail(e.(watchdog := None), throws)
    case OnBoundary(range) => if range.Some? then e.(wordRange := range) else e
  }

  function OnceEvent(e: Engine, event: UtteranceEvent): Engine {
    if event.OnEnd? || event.OnInterrupted? || event.OnError? then e.(onceActive := false) else e
  }

  /** An event of an utterance; those of another generation are ignored. */
  function OnUtterance(e: Engine, u: Utterance, event: UtteranceEvent, throws: bool): Engine {
    if u.gen != e.generation then e
    else match u.item
      case None => OnceEvent(e, event)
      case Some(item) => ItemEvent(e, item, event, throws)
  }

  function OnHidden(e: Engine): Engine {
    if e.status == Playing then Halt(e, Paused)
    else if e.onceActive then CancelSynth(e.(generation := e.generation + 1)).(onceActive := false)
    else e
  }

  // ---------- runs ----------

  datatype Step =
    | DoPlay(busy: bool)
    | DoPause
    | DoStop
    | DoNext
    | DoPrevious
    | DoSeek(index: int)
    | DoSetRate(rate: real)
    | DoSetPauses(sentence: int, paragraph: int)
    | DoSetQueue(items: seq<Item>, start: int)
    | DoSpeakOnce(blank: bool, text: string, busy: bool)
    | SpeakTimerFires
    | WatchdogFires
    | UtteranceEvents(utterance: Utterance, event: UtteranceEvent)
    | PageHidden
    | TimePasses(ms: nat)

  predicate WasSpoken(calls: seq<Call>, u: Utterance) {
    exists i :: 0 <= i < |calls| && calls[i].Spoken? && calls[i].utterance == u
  }

  /** Timers never fire early; only utterances that were spoken have events. */
  predicate Enabled(e: Engine, step: Step) {
    match step
    case SpeakTimerFires => e.speakTimer.Some? && e.speakTimer.value.due <= e.clock
    case WatchdogFires => e.watchdog.Some? && e.watchdog.value.due <= e.clock
    case UtteranceEvents(u, _) => WasSpoken(e.calls, u)
    case _ => true
  }

  /** What the user asks for; the other steps come from outside. */
  predicate IsUsers(step: Step) {
    step.DoPlay? || step.DoPause? || step.DoStop? || step.DoNext? || step.DoPrevious? || step.DoSeek? || step.DoSetRate? || step.DoSetPauses?
    || step.DoSetQueue? || step.DoSpeakOnce?
  }

  function DoUsers(e: Engine, step: Step, throws: bool): Engine
    requires IsUsers(step)
  {
    match step
    case DoPlay(busy) => Play(e, busy, throws)
    case DoPause => Pause(e)
    case DoStop => Stop(e)
    case DoNext => Next(e, throws)
    case DoPrevious => Previous(e, throws)
    case DoSeek(index) => Seek(e, index, throws)
    case DoSetRate(rate) => SetRate(e, rate, throws)
    case DoSetPauses(sentence, paragraph) => SetPauses(e, sentence, paragraph)
    case DoSetQueue(items, start) => SetQueue(e, items, start)
    case DoSpeakOnce(blank, text, busy) => SpeakOnce(e, blank, text, busy, throws)
  }

  function DoOutside(e: Engine, step: Step, throws: bool): Engine
    requires Enabled(e, step) && !IsUsers(step)
  {
    match step
    case SpeakTimerFires => FireSpeakTimer(e, throws)
    case WatchdogFires => FireWatchdog(e, throws)
    case UtteranceEvents(u, event) => OnUtterance(e, u, event, throws)
    case PageHidden => OnHidden(e)
    case TimePasses(ms) => e.(clock := e.clock + ms)
  }

  function Do(e: Engine, step: Step, throws: bool): Engine
    requires Enabled(e, step)
  {
    if IsUsers(step) then DoUsers(e, step, throws) else DoOutside(e, step, throws)
  }

  /** Steps, each with whether synth.speak() throws in it. */
  predicate Possible(e: Engine, steps: seq<(Step, bool)>)
    decreases |steps|
  {
    steps == [] || (Enabled(e, steps[0].0) && Possible(Do(e, steps[0].0, steps[0].1), steps[1..]))
  }

  function After(e: Engine, steps: seq<(Step, bool)>): Engine
    requires Possible(e, steps)
    decreases |steps|
  {
    if steps == [] then e else After(Do(e, steps[0].0, steps[0].1), steps[1..])
  }

  function Initial(supported: bool, clock: int): Engine {
    Engine(supported, Stopped, 0, None, 1.0, None, [], 0, 0, None, None, None, 0, false, 250, 700, clock, 0, false, [], [])
  }

  // ---------- what every step keeps ----------

  /** The record of calls: times and generations in order, and never a speak() within the gap after a cancel(). */
  ghost predicate CallsOk(calls: seq<Call>, lastCancelAt: Option<int>, clock: int) {
    && (forall i, j :: 0 <= i < j < |calls| && calls[i].Spoken? && calls[j].Spoken? ==> calls[i].utterance.gen < calls[j].utterance.gen)
    && (forall i, j :: 0 <= i < j < |calls| && calls[i].Cancelled? && calls[j].Spoken? ==> calls[j].at - calls[i].at >= CANCEL_GAP_MS)
    && (forall i :: 0 <= i < |calls| && calls[i].Cancelled? ==> lastCancelAt.Some? && calls[i].at <= lastCancelAt.value)
    && (lastCancelAt.Some? ==> lastCancelAt.value <= clock)
  }

  ghost predicate GensUpTo(calls: seq<Call>, g: int) {
    forall i :: 0 <= i < |calls| && calls[i].Spoken? ==> calls[i].utterance.gen <= g
  }

  /** A cancelled utterance is of an older generation. */
  ghost predicate CancelledIsOld(calls: seq<Call>, g: nat) {
    forall i, j :: 0 <= i < j < |calls| && calls[i].Spoken? && calls[j].Cancelled? ==> calls[i].utterance.gen < g
  }

  predicate GapOver(lastCancelAt: Option<int>, at: int) { lastCancelAt.Some? ==> at - lastCancelAt.value >= CANCEL_GAP_MS }

  ghost predicate IndexOk(e: Engine) { if e.queue == [] then e.index == 0 else e.index < |e.queue| }

  /** What holds even in the middle of a step. */
  ghost predicate Base(e: Engine) {
    CallsOk(e.calls, e.lastCancelAt, e.clock) && GensUpTo(e.calls, e.generation) && IndexOk(e) && e.startRetries <= MAX_START_RETRIES
    && e.attempts <= MAX_START_RETRIES + 1
  }

  ghost predicate TimerOk(e: Engine) {
    e.speakTimer.Some? ==>
      var t := e.speakTimer.value;
      && t.gen <= e.generation
      && (t.gen == e.generation ==>
           GensUpTo(e.calls, e.generation - 1) && GapOver(e.lastCancelAt, t.due) && (t.once.None? <==> e.status == Playing))
  }

  /** The last utterance is an item of this generation. */
  ghost predicate Speaking(e: Engine) {
    exists i :: 0 <= i < |e.calls| && e.calls[i].Spoken? && e.calls[i].utterance.gen == e.generation && e.calls[i].utterance.item.Some?
  }

  /** While playing, something of the current generation is on its way. */
  ghost predicate Live(e: Engine) {
    if e.speakTimer.Some? then
      e.speakTimer.value.gen == e.generation && e.watchdog.None? && e.attempts <= e.startRetries
    else
      && Speaking(e)
      && (e.started || e.watchdog.Some?)
      && (e.watchdog.Some? ==> e.watchdog.value.gen == e.generation)
      && e.attempts <= e.startRetries + 1
  }

  ghost predicate Inv(e: Engine) {
    && Base(e) && CancelledIsOld(e.calls, e.generation) && TimerOk(e)
    && (e.status == Playing ==> e.supported && e.queue != [] && !e.onceActive && Live(e))
    && (e.status != Playing ==> !Speaking(e) && e.watchdog.None? && e.wordRange.None?)
  }

  // ---------- parts of a step ----------

  lemma CancelBase(e: Engine)
    requires Base(e)
    ensures Base(CancelSynth(e)) && !GapOver(CancelSynth(e).lastCancelAt, e.clock)
  {
  }

  lemma BumpedIsOld(calls: seq<Call>, g: nat)
    requires GensUpTo(calls, g)
    ensures CancelledIsOld(calls, g + 1) && GensUpTo(calls, g + 1)
  {
  }

  lemma HaltOk(e: Engine, status: Status)
    requires Base(e) && status != Playing
    ensures Inv(Halt(e, status)) && Halt(e, status).status == status && Halt(e, status).speakTimer.None?
  {
    var cleared := ClearTimers(e.(generation := e.generation + 1));
    CancelBase(cleared);
    var h := Halt(e, status);
    assert GensUpTo(h.calls, e.generation);
    BumpedIsOld(h.calls, e.generation);
    OldIsNotSpeaking(h);
  }

  lemma OldIsNotSpeaking(e: Engine)
    requires e.generation > 0 && GensUpTo(e.calls, e.generation - 1)
    ensures !Speaking(e)
  {
  }

  lemma FinishOk(e: Engine)
    requires Base(e) && !e.onceActive
    ensures Inv(Finish(e)) && Finish(e).status == Stopped
  {
    BumpedIsOld(e.calls, e.generation);
  }

  /** Ready to speak the item at `index` while playing: nothing pending. */
  ghost predicate ReadyToSpeak(e: Engine) {
    && Base(e) && e.supported && e.status == Playing && e.queue != [] && !e.onceActive && e.watchdog.None? && e.attempts <= e.startRetries
  }

  lemma SpokenCalls(calls: seq<Call>, lastCancelAt: Option<int>, clock: int, g: nat, u: Utterance)
    requires CallsOk(calls, lastCancelAt, clock) && GensUpTo(calls, g - 1) && GapOver(lastCancelAt, clock) && u.gen == g
    ensures var more := calls + [Spoken(clock, u)];
      CallsOk(more, lastCancelAt, clock) && GensUpTo(more, g) && CancelledIsOld(more, g) && WasSpoken(more, u)
  {
    var more := calls + [Spoken(clock, u)];
    assert more[|calls|] == Spoken(clock, u);
    forall i | 0 <= i < |calls| ensures more[i] == calls[i] {}
  }

  lemma ScheduleSpeakOk(e: Engine, pause: nat, throws: bool)
    requires ReadyToSpeak(e)
    ensures Inv(ScheduleSpeak(e, pause, throws))
    decreases Remaining(e), RetriesLeft(e), 2
  {
    BumpedIsOld(e.calls, e.generation);
    var gap := GapBeforeSpeak(e);
    if gap == 0 && pause == 0 {
      SpeakNowOk(e.(generation := e.generation + 1, speakTimer := None), throws);
    }
  }

  lemma SpeakNowOk(e: Engine, throws: bool)
    requires ReadyToSpeak(e) && e.speakTimer.None? && GensUpTo(e.calls, e.generation - 1) && GapOver(e.lastCancelAt, e.clock)
    ensures Inv(SpeakNow(e, e.generation, throws))
    decreases Remaining(e), RetriesLeft(e), 1
  {
    var item := e.queue[e.index];
    if item.spoken == "" {
      if e.index + 1 < |e.queue| {
        ScheduleSpeakOk(e.(index := e.index + 1, attempts := 0), 0, throws);
      } else {
        FinishOk(e);
      }
    } else {
      var u := Utterance(e.generation, Some(item), item.spoken);
      SpokenCalls(e.calls, e.lastCancelAt, e.clock, e.generation, u);
      var spoken := e.(calls := e.calls + [Spoken(e.clock, u)], attempts := e.attempts + 1, started := false);
      if throws { RetryOrFailOk(spoken, throws); }
    }
  }

  /** After a failed attempt: nothing pending any more. */
  ghost predicate ReadyToRetry(e: Engine) {
    && Base(e) && e.supported && e.status == Playing && e.queue != [] && !e.onceActive && e.speakTimer.None? && e.attempts <= e.startRetries + 1
  }

  lemma RetryOrFailOk(e: Engine, throws: bool)
    requires ReadyToRetry(e)
    ensures Inv(RetryOrFail(e, throws))
    decreases Remaining(e), RetriesLeft(e), 0
  {
    if e.startRetries < MAX_START_RETRIES {
      var again := e.(startRetries := e.startRetries + 1, watchdog := None);
      CancelBase(again);
      ScheduleSpeakOk(CancelSynth(again), 0, throws);
    } else {
      HaltOk(e, Stopped);
    }
  }

  // ---------- user actions keep the invariant ----------

  lemma PlayOk(e: Engine, busy: bool, throws: bool)
    requires Inv(e)
    ensures Inv(Play(e, busy, throws))
  {
    if e.supported && e.status != Playing && e.queue != [] {
      var ready := e.(index := ClampIndex(e.queue, e.index), startRetries := 0);
      CancelBase(ready);
      var quiet := if e.onceActive || busy then CancelSynth(ready) else ready;
      ScheduleSpeakOk(Show(quiet.(onceActive := false, attempts := 0), Playing), 0, throws);
    }
  }

  lemma MoveToOk(e: Engine, index: nat, throws: bool)
    requires Inv(e) && index < |e.queue|
    ensures Inv(MoveTo(e, index, throws))
  {
    if e.status == Playing {
      var bumped := ClearTimers(e.(generation := e.generation + 1));
      CancelBase(bumped);
      ScheduleSpeakOk(CancelSynth(bumped).(index := index, startRetries := 0, attempts := 0), 0, throws);
    }
  }

  lemma SetRateOk(e: Engine, rate: real, throws: bool)
    requires Inv(e)
    ensures Inv(SetRate(e, rate, throws))
  {
    var next := ClampRate(rate);
    if next != e.rate && e.status == Playing { MoveToOk(e.(rate := next), e.index, throws); }
  }

  lemma QueueKeptOk(e: Engine, items: seq<Item>, found: nat, id: Option<string>)
    requires Inv(e) && found < |items| && e.status != Stopped
    ensures Inv(e.(queue := items, index := found, shownIndex := found, shownId := id))
  {
  }

  lemma QueueReplacedOk(e: Engine, items: seq<Item>, index: nat)
    requires Inv(e) && e.status == Stopped && index == ClampIndex(items, index)
    ensures Inv(Show(e.(queue := items, index := index), Stopped))
  {
  }

  lemma SetQueueOk(e: Engine, items: seq<Item>, start: int)
    requires Inv(e)
    ensures Inv(SetQueue(e, items, start))
  {
    var id := CurrentId(e);
    var found := if e.status != Stopped && id.Some? then FindId(items, id.value) else -1;
    if found >= 0 {
      QueueKeptOk(e, items, found, id);
    } else {
      if e.status != Stopped { HaltOk(e, Stopped); }
      QueueReplacedOk(if e.status != Stopped then Halt(e, Stopped) else e, items, ClampIndex(items, start));
    }
  }

  lemma SpeakSelectionOk(e: Engine, spoken: string, throws: bool)
    requires Inv(e) && e.status != Playing && e.speakTimer.None? && GensUpTo(e.calls, e.generation - 1) && GapOver(e.lastCancelAt, e.clock)
    ensures Inv(SpeakSelection(e, e.generation, spoken, throws))
  {
    if spoken != "" {
      var u := Utterance(e.generation, None, spoken);
      SpokenCalls(e.calls, e.lastCancelAt, e.clock, e.generation, u);
      var more := e.calls + [Spoken(e.clock, u)];
      forall i | 0 <= i < |more| && more[i].Spoken? && more[i].utterance.gen == e.generation ensures more[i].utterance == u {}
    }
  }

  lemma NotSpeaking(e: Engine)
    requires GensUpTo(e.calls, e.generation - 1)
    ensures !Speaking(e)
  {
  }

  /** Silent, with nothing pending and nothing spoken in this generation yet. */
  ghost predicate Quiet(e: Engine) {
    && Base(e) && e.status != Playing && e.wordRange.None? && e.speakTimer.None? && e.watchdog.None?
    && GensUpTo(e.calls, e.generation - 1) && CancelledIsOld(e.calls, e.generation)
  }

  lemma QuietOk(e: Engine)
    requires Quiet(e)
    ensures Inv(e)
  {
    NotSpeaking(e);
  }

  lemma SelectionWaitsOk(e: Engine, due: int, spoken: string)
    requires Quiet(e) && GapOver(e.lastCancelAt, due)
    ensures Inv(e.(speakTimer := Some(Timer(due, e.generation, Some(spoken)))))
  {
    NotSpeaking(e.(speakTimer := Some(Timer(due, e.generation, Some(spoken)))));
  }

  lemma SelectionAfterGapOk(e: Engine, spoken: string, throws: bool)
    requires Quiet(e)
    ensures Inv(SelectionAfterGap(e, spoken, throws))
  {
    var gap := GapBeforeSpeak(e);
    if gap == 0 {
      QuietOk(e);
      SpeakSelectionOk(e, spoken, throws);
    } else {
      SelectionWaitsOk(e, e.clock + gap, spoken);
    }
  }

  lemma ScheduleSelectionOk(e: Engine, spoken: string, throws: bool)
    requires Base(e) && e.status != Playing && e.wordRange.None?
    ensures Inv(ScheduleSelection(e, spoken, throws))
  {
    BumpedIsQuiet(e);
    SelectionAfterGapOk(ClearTimers(e).(generation := e.generation + 1), spoken, throws);
  }

  lemma BumpedIsQuiet(e: Engine)
    requires Base(e) && e.status != Playing && e.wordRange.None?
    ensures Quiet(ClearTimers(e).(generation := e.generation + 1))
  {
    BumpedIsOld(e.calls, e.generation);
  }

  lemma SpeakOnceOk(e: Engine, blank: bool, spoken: string, busy: bool, throws: bool)
    requires Inv(e)
    ensures Inv(SpeakOnce(e, blank, spoken, busy, throws))
  {
    if e.supported && !blank {
      if e.status == Playing {
        HaltOk(e, Paused);
        ScheduleSelectionOk(Halt(e, Paused), spoken, throws);
      } else {
        CancelBase(e);
        ScheduleSelectionOk(if e.onceActive || busy then CancelSynth(e) else e, spoken, throws);
      }
    }
  }

  // ---------- timers and events keep it ----------

  lemma SpeakTimerOk(e: Engine, throws: bool)
    requires Inv(e) && Enabled(e, SpeakTimerFires)
    ensures Inv(FireSpeakTimer(e, throws))
  {
    var t := e.speakTimer.value;
    var fired := e.(speakTimer := None);
    if t.gen == e.generation {
      match t.once {
        case Some(spoken) => SpeakSelectionOk(fired, spoken, throws);
        case None => SpeakNowOk(fired, throws);
      }
    }
  }

  lemma WatchdogOk(e: Engine, throws: bool)
    requires Inv(e) && Enabled(e, WatchdogFires)
    ensures Inv(FireWatchdog(e, throws))
  {
    RetryOrFailOk(e.(watchdog := None), throws);
  }

  /** An item utterance of the current generation is the one being played. */
  lemma CurrentIsPlaying(e: Engine, u: Utterance)
    requires Inv(e) && WasSpoken(e.calls, u) && u.gen == e.generation && u.item.Some?
    ensures e.status == Playing && e.speakTimer.None?
  {
    var i :| 0 <= i < |e.calls| && e.calls[i].Spoken? && e.calls[i].utterance == u;
    assert Speaking(e);
  }

  /** The current utterance ends: the next item, or the end of the queue. */
  lemma EndedOk(e: Engine, u: Utterance, throws: bool)
    requires Inv(e) && WasSpoken(e.calls, u) && u.gen == e.generation && u.item.Some? && e.status == Playing && 0 <= e.index < |e.queue|
    ensures Inv(OnUtterance(e, u, OnEnd, throws))
  {
    var quiet := e.(watchdog := None);
    if e.index + 1 < |e.queue| {
      ScheduleSpeakOk(quiet.(index := e.index + 1, attempts := 0), PauseAfter(e, u.item.value, e.queue[e.index + 1]), throws);
    } else {
      FinishOk(quiet);
    }
  }

  lemma EventOk(e: Engine, u: Utterance, event: UtteranceEvent, throws: bool)
    requires Inv(e) && WasSpoken(e.calls, u)
    ensures Inv(OnUtterance(e, u, event, throws))
  {
    if u.gen == e.generation && u.item.Some? {
      CurrentIsPlaying(e, u);
      match event {
        case OnEnd => EndedOk(e, u, throws);
        case OnInterrupted => HaltOk(e.(watchdog := None), Paused);
        case OnError => RetryOrFailOk(e.(watchdog := None), throws);
        case _ =>
      }
    }
  }

  lemma HiddenOk(e: Engine)
    requires Inv(e)
    ensures Inv(OnHidden(e))
  {
    if e.status == Playing {
      HaltOk(e, Paused);
    } else if e.onceActive {
      CancelBase(e.(generation := e.generation + 1));
      BumpedIsOld(OnHidden(e).calls, e.generation);
    }
  }

  lemma StopOk(e: Engine)
    requires Inv(e)
    ensures Inv(Stop(e)) && Inv(Pause(e))
  {
    HaltOk(e, Stopped);
    HaltOk(e, Paused);
  }

  lemma NextOk(e: Engine, throws: bool)
    requires Inv(e)
    ensures Inv(Next(e, throws)) && Inv(Previous(e, throws))
  {
    if e.index + 1 < |e.queue| { MoveToOk(e, e.index + 1, throws); }
    if e.queue != [] { MoveToOk(e, if e.index > 0 then e.index - 1 else 0, throws); }
  }

  lemma SeekOk(e: Engine, index: int, throws: bool)
    requires Inv(e)
    ensures Inv(Seek(e, index, throws))
  {
    if e.queue != [] { MoveToOk(e, ClampIndex(e.queue, index), throws); }
  }

  lemma UsersStepOk(e: Engine, step: Step, throws: bool)
    requires Inv(e) && IsUsers(step)
    ensures Inv(DoUsers(e, step, throws))
  {
    match step {
      case DoPlay(busy) => PlayOk(e, busy, throws);
      case DoPause => StopOk(e);
      case DoStop => StopOk(e);
      case DoNext => NextOk(e, throws);
      case DoPrevious => NextOk(e, throws);
      case DoSeek(index) => SeekOk(e, index, throws);
      case DoSetRate(rate) => SetRateOk(e, rate, throws);
      case DoSetPauses(sentence, paragraph) => PausesOk(e, sentence, paragraph);
      case DoSetQueue(items, start) => SetQueueOk(e, items, start);
      case DoSpeakOnce(blank, text, busy) => SpeakOnceOk(e, blank, text, busy, throws);
    }
  }

  lemma PausesOk(e: Engine, sentence: int, paragraph: int)
    requires Inv(e)
    ensures Inv(SetPauses(e, sentence, paragraph))
  {
  }

  lemma OutsideStepOk(e: Engine, step: Step, throws: bool)
    requires Inv(e) && Enabled(e, step) && !IsUsers(step)
    ensures Inv(DoOutside(e, step, throws))
  {
    match step {
      case SpeakTimerFires => SpeakTimerOk(e, throws);
      case WatchdogFires => WatchdogOk(e, throws);
      case UtteranceEvents(u, event) => EventOk(e, u, event, throws);
      case PageHidden => HiddenOk(e);
      case TimePasses(ms) => TimeOk(e, ms);
    }
  }

  lemma StepOk(e: Engine, step: Step, throws: bool)
    requires Inv(e) && Enabled(e, step)
    ensures Inv(Do(e, step, throws))
  {
    if IsUsers(step) { UsersStepOk(e, step, throws); } else { OutsideStepOk(e, step, throws); }
  }

  lemma TimeOk(e: Engine, ms: nat)
    requires Inv(e)
    ensures Inv(e.(clock := e.clock + ms))
  {
  }

  lemma {:induction false} RunOk(e: Engine, steps: seq<(Step, bool)>)
    requires Inv(e) && Possible(e, steps)
    ensures Inv(After(e, steps))
    decreases |steps|
  {
    if steps != [] {
      StepOk(e, steps[0].0, steps[0].1);
      RunOk(Do(e, steps[0].0, steps[0].1), steps[1..]);
    }
  }

  // ---------- what a caller can rely on ----------

  /** No speak() comes less than 50 ms after an earlier cancel(). */
  ghost predicate Spaced(calls: seq<Call>) {
    forall i, j :: 0 <= i < j < |calls| && calls[i].Cancelled? && calls[j].Spoken? ==> calls[j].at >= calls[i].at + 50
  }

  /** Something of the current generation is about to speak, speaking, or watched. */
  ghost predicate OnItsWay(e: Engine) {
    || (e.speakTimer.Some? && e.speakTimer.value.gen == e.generation)
    || (Speaking(e) && (e.started || (e.watchdog.Some? && e.watchdog.value.gen == e.generation)))
  }

  /** Calls are spaced, no item is tried more than twice, and playing means a valid index and speech on its way. */
  ghost predicate Sound(e: Engine) {
    && Spaced(e.calls) && e.attempts <= MAX_START_RETRIES + 1
    && (e.status == Playing ==> e.index < |e.queue| && OnItsWay(e))
  }

  lemma InvIsSound(e: Engine)
    requires Inv(e)
    ensures Sound(e)
  {
  }

  /** Nothing is playing, pending or speaking. */
  predicate Silent(e: Engine) { e.status != Playing && e.speakTimer.None? && e.watchdog.None? && !e.onceActive }

  /** Once silent, no utterance ever spoken can change anything any more. */
  lemma SilenceHolds(e: Engine, u: Utterance, event: UtteranceEvent, throws: bool)
    requires Inv(e) && Silent(e) && WasSpoken(e.calls, u)
    ensures OnUtterance(e, u, event, throws) == e
  {
    if u.gen == e.generation && u.item.Some? { CurrentIsPlaying(e, u); }
  }

  /** Pausing while playing, and stopping at any time, leave silence. */
  lemma HaltIsSilent(e: Engine)
    requires Inv(e)
    ensures Silent(Stop(e)) && Stop(e).status == Stopped
    ensures e.status == Playing ==> Silent(Pause(e)) && Pause(e).status == Paused
  {
  }

  /** The items from the current one on have nothing to say. */
  predicate NothingToSay(e: Engine) { forall k :: e.index <= k < |e.queue| ==> e.queue[k].spoken == "" }

  /** Scheduling speech leads to playing, unless every item left is silent: then the end is announced. */
  lemma ScheduleSpeaks(e: Engine, pause: nat, throws: bool)
    requires e.status == Playing && e.index < |e.queue| && e.startRetries == 0
    ensures var r := ScheduleSpeak(e, pause, throws);
      r.status == Playing || (r.status == Stopped && NothingToSay(e) && r.events == e.events + [Ended])
    decreases Remaining(e), 1
  {
    if GapBeforeSpeak(e) == 0 && pause == 0 { SpeakNowSpeaks(e.(generation := e.generation + 1, speakTimer := None), throws); }
  }

  lemma SpeakNowSpeaks(e: Engine, throws: bool)
    requires e.status == Playing && e.index < |e.queue| && e.startRetries == 0
    ensures var r := SpeakNow(e, e.generation, throws);
      r.status == Playing || (r.status == Stopped && NothingToSay(e) && r.events == e.events + [Ended])
    decreases Remaining(e), 0
  {
    if e.queue[e.index].spoken == "" {
      if e.index + 1 < |e.queue| { ScheduleSpeaks(Moved(e), 0, throws); }
    } else if throws {
      RetryWaits(Spoke(e, e.generation, e.queue[e.index]), throws);
    }
  }

  /** A retry waits for the gap after its own cancel. */
  lemma RetryWaits(e: Engine, throws: bool)
    requires e.status == Playing && e.startRetries == 0
    ensures RetryOrFail(e, throws).status == Playing
  {
    ScheduleWaits(CancelSynth(e.(startRetries := 1, watchdog := None)), throws);
  }

  /** Play plays, unless nothing is supported or queued, or every item from the current one on is silent. */
  lemma PlayPlays(e: Engine, busy: bool, throws: bool)
    requires Inv(e) && e.supported && e.queue != []
    ensures var r := Play(e, busy, throws); r.status == Playing || (r.status == Stopped && NothingToSay(e) && r.events == e.events + [Ended])
  {
    if e.status != Playing { ScheduleSpeaks(Prepared(e, busy), 0, throws); }
  }

  /** The selection was just spoken, or a timer of this generation will speak it. */
  predicate SelectionPending(e: Engine, spoken: string) {
    || (e.speakTimer.Some? && e.speakTimer.value.once == Some(spoken) && e.speakTimer.value.gen == e.generation)
    || (e.calls != [] && e.calls[|e.calls| - 1] == Spoken(e.clock, Utterance(e.generation, None, spoken)))
  }

  /** Playing or paused at an item that the new queue has too: the position is kept. */
  predicate GoesOn(e: Engine, items: seq<Item>) {
    e.status != Stopped && CurrentId(e).Some? && exists k :: 0 <= k < |items| && items[k].id == CurrentId(e).value
  }

  /** A new queue interrupts nothing when it has the current item, and stops speech otherwise. */
  lemma SetQueueGoesOn(e: Engine, items: seq<Item>, start: int)
    requires Inv(e)
    ensures var r := SetQueue(e, items, start);
      && r.queue == items
      && (GoesOn(e, items) ==> r.status == e.status && r.calls == e.calls && CurrentId(r) == CurrentId(e))
      && (!GoesOn(e, items) ==> r.status == Stopped && r.index == ClampIndex(items, start))
  {
    if CurrentId(e).Some? { FindIdFinds(items, CurrentId(e).value); }
  }

  lemma {:induction false} FindIdFinds(items: seq<Item>, id: string)
    ensures FindId(items, id) >= 0 <==> exists k :: 0 <= k < |items| && items[k].id == id
  {
    if items != [] && items[0].id != id {
      FindIdFinds(items[1..], id);
      assert items == [items[0]] + items[1..];
      if k :| 0 <= k < |items| && items[k].id == id { assert items[1..][k - 1].id == id; }
    }
  }

  /** A selection is spoken now, or when the gap after the last cancel is over; nothing else plays. */
  lemma SelectionIsSpoken(e: Engine, spoken: string, busy: bool, throws: bool)
    requires Inv(e) && e.supported && spoken != ""
    ensures var r := SpeakOnce(e, false, spoken, busy, throws);
      r.status != Playing && SelectionPending(r, spoken)
  {
  }

  // ---------- over every run ----------

  /** No speak() is ever issued less than 50 ms after any earlier cancel(). */
  lemma SpeakKeepsItsDistance(supported: bool, clock: int, steps: seq<(Step, bool)>, i: nat, j: nat)
    requires Possible(Initial(supported, clock), steps)
    requires var calls := After(Initial(supported, clock), steps).calls; i < j < |calls| && calls[i].Cancelled? && calls[j].Spoken?
    ensures var calls := After(Initial(supported, clock), steps).calls; calls[j].at >= calls[i].at + 50
  {
    RunOk(Initial(supported, clock), steps);
  }

  /** Once a cancel() follows an utterance, none of its events has any effect, however late it comes. */
  lemma CancelledIsSilent(supported: bool, clock: int, steps: seq<(Step, bool)>, i: nat, j: nat, event: UtteranceEvent, throws: bool)
    requires Possible(Initial(supported, clock), steps)
    requires var calls := After(Initial(supported, clock), steps).calls; i < j < |calls| && calls[i].Spoken? && calls[j].Cancelled?
    ensures var e := After(Initial(supported, clock), steps); OnUtterance(e, e.calls[i].utterance, event, throws) == e
  {
    RunOk(Initial(supported, clock), steps);
  }

  /** Only the last utterance spoken can have an effect. */
  lemma OnlyTheLastIsHeard(supported: bool, clock: int, steps: seq<(Step, bool)>, i: nat, j: nat, event: UtteranceEvent, throws: bool)
    requires Possible(Initial(supported, clock), steps)
    requires var calls := After(Initial(supported, clock), steps).calls; i < j < |calls| && calls[i].Spoken? && calls[j].Spoken?
    ensures var e := After(Initial(supported, clock), steps); OnUtterance(e, e.calls[i].utterance, event, throws) == e
  {
    RunOk(Initial(supported, clock), steps);
    var e := After(Initial(supported, clock), steps);
    assert e.calls[j].utterance.gen <= e.generation;
  }

  /**
   * While playing the index is valid and speech cannot stall: a speak timer of this generation is pending, or an utterance of
   * this generation has started, or its watchdog is pending.
   */
  lemma PlayingNeverStalls(supported: bool, clock: int, steps: seq<(Step, bool)>)
    requires Possible(Initial(supported, clock), steps) && After(Initial(supported, clock), steps).status == Playing
    ensures var e := After(Initial(supported, clock), steps);
      && e.index < |e.queue|
      && ((e.speakTimer.Some? && e.speakTimer.value.gen == e.generation)
          || (Speaking(e) && (e.started || (e.watchdog.Some? && e.watchdog.value.gen == e.generation))))
  {
    RunOk(Initial(supported, clock), steps);
  }

  /** An item is never tried more than twice without starting. */
  lemma AtMostTwoAttempts(supported: bool, clock: int, steps: seq<(Step, bool)>)
    requires Possible(Initial(supported, clock), steps)
    ensures After(Initial(supported, clock), steps).attempts <= 2
  {
    RunOk(Initial(supported, clock), steps);
  }

  /** The word highlight and the watchdog exist only while playing. */
  lemma NothingShownWhenSilent(supported: bool, clock: int, steps: seq<(Step, bool)>)
    requires Possible(Initial(supported, clock), steps) && After(Initial(supported, clock), steps).status != Playing
    ensures var e := After(Initial(supported, clock), steps); e.wordRange.None? && e.watchdog.None? && !Speaking(e)
  {
    RunOk(Initial(supported, clock), steps);
  }

  /** The first failure of an item schedules another attempt, 50 ms after the cancel. */
  lemma FirstFailureRetries(e: Engine)
    requires e.startRetries == 0
    ensures RetryOrFail(e, false) == CancelSynth(e).(startRetries := 1, watchdog := None, generation := e.generation + 1,
                                                     speakTimer := Some(Timer(e.clock + CANCEL_GAP_MS, e.generation + 1, None)))
  {
    ScheduleWaits(CancelSynth(e.(startRetries := 1, watchdog := None)), false);
  }

  /** Right after a cancel() speech waits for the whole gap. */
  lemma ScheduleWaits(e: Engine, throws: bool)
    requires e.lastCancelAt == Some(e.clock)
    ensures ScheduleSpeak(e, 0, throws) == e.(generation := e.generation + 1, speakTimer := Some(Timer(e.clock + CANCEL_GAP_MS, e.generation + 1, None)))
  {
    assert GapBeforeSpeak(e) == CANCEL_GAP_MS;
  }

  /** When the timer fires the item is spoken again and watched. */
  lemma SecondAttempt(e: Engine)
    requires e.status == Playing && e.index < |e.queue| && e.queue[e.index].spoken != ""
    requires e.speakTimer.Some? && e.speakTimer.value.gen == e.generation && e.speakTimer.value.once.None?
    ensures var second := FireSpeakTimer(e, false);
      && second.watchdog == Some(Watchdog(e.clock + WATCHDOG_MS, e.generation))
      && second == e.(speakTimer := None, watchdog := second.watchdog, calls := second.calls, attempts := second.attempts, started := false)
  {
  }

  /** An item that stays silent through both watchdogs ends in the idle state with an error for that item. */
  lemma SilentItemGivesUp(e: Engine)
    requires Inv(e) && e.status == Playing && e.speakTimer.None? && e.watchdog.Some? && e.startRetries == 0
    requires e.queue[e.index].spoken != ""
    ensures var first := FireWatchdog(e.(clock := e.clock + 3000), false);
      && first.status == Playing && first.speakTimer.Some? && first.speakTimer.value.due == first.clock + 50
      && var second := FireSpeakTimer(first.(clock := first.clock + 50), false);
      && second.index == e.index && second.watchdog == Some(Watchdog(second.clock + 3000, second.generation))
      && var third := FireWatchdog(second.(clock := second.clock + 3000), false);
      third.status == Stopped && third.events == e.events + [StartFailed(Some(e.queue[e.index].id))]
  {
    FirstFailureRetries(e.(clock := e.clock + WATCHDOG_MS, watchdog := None));
    var first := FireWatchdog(e.(clock := e.clock + WATCHDOG_MS), false);
    SecondAttempt(first.(clock := first.clock + CANCEL_GAP_MS));
  }
}
