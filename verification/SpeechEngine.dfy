module SpeechEngine {
  // The read-aloud engine with its fields and methods, updated in place. Every method does to the object's state what the
  // function of the same name in SpeechMachine says. The methods a caller uses keep the invariant of the engine, so each leaves
  // the calls to the synthesiser spaced and, while playing, a valid index and speech on its way.
  import opened Options
  import opened SpeechMachine
  import opened SpeechOrder

  class Player {
    const supported: bool
    var status: Status
    var shownIndex: nat
    var shownId: Option<string>
    var rate: real
    var wordRange: Option<(nat, nat)>
    var queue: seq<Item>
    var index: nat
    var generation: nat
    var lastCancelAt: Option<int>
    var speakTimer: Option<Timer>
    var watchdog: Option<Watchdog>
    var startRetries: nat
    var onceActive: bool
    var sentencePause: nat
    var paragraphPause: nat
    // The environment: the clock, the calls that reached the synthesiser and the events that reached the listeners.
    var clock: int
    ghost var attempts: nat
    ghost var started: bool
    var calls: seq<Call>
    var events: seq<Emitted>

    constructor (supported: bool, clock: int)
      ensures State() == Initial(supported, clock) && Valid()
    {
      this.supported, this.clock := supported, clock;
      status, shownIndex, shownId, rate, wordRange := Stopped, 0, None, 1.0, None;
      queue, index, generation, lastCancelAt, speakTimer, watchdog := [], 0, 0, None, None, None;
      startRetries, onceActive, sentencePause, paragraphPause := 0, false, 250, 700;
      attempts, started, calls, events := 0, false, [], [];
    }

    ghost function State(): Engine
      reads this
    {
      Engine(supported, status, shownIndex, shownId, rate, wordRange, queue, index, generation, lastCancelAt, speakTimer, watchdog,
             startRetries, onceActive, sentencePause, paragraphPause, clock, attempts, started, calls, events)
    }

    ghost predicate Valid()
      reads this
    {
      Inv(State())
    }

    method CancelSynth()
      modifies this
      ensures State() == SpeechMachine.CancelSynth(old(State()))
    {
      lastCancelAt := Some(clock);
      calls := calls + [Cancelled(clock)];
    }

    method Show(newStatus: Status)
      modifies this
      ensures State() == SpeechMachine.Show(old(State()), newStatus)
    {
      status, shownIndex, wordRange := newStatus, index, None;
      shownId := if index < |queue| then Some(queue[index].id) else None;
    }

    method ClearTimers()
      modifies this
      ensures State() == SpeechMachine.ClearTimers(old(State()))
    {
      speakTimer, watchdog := None, None;
    }

    method Halt(newStatus: Status)
      modifies this
      ensures State() == SpeechMachine.Halt(old(State()), newStatus)
    {
      NewGeneration();
      ClearTimers();
      if supported { CancelSynth(); }
      DropSelection();
      Show(newStatus);
    }

    method NewGeneration()
      modifies this
      ensures State() == old(State()).(generation := old(generation) + 1)
    {
      generation := generation + 1;
    }

    method DropSelection()
      modifies this
      ensures State() == old(State()).(onceActive := false)
    {
      onceActive := false;
    }

    method Finish()
      modifies this
      ensures State() == SpeechMachine.Finish(old(State()))
    {
      generation := generation + 1;
      ClearTimers();
      Show(Stopped);
      events := events + [Ended];
    }

    method GapBeforeSpeak() returns (gap: nat)
      ensures gap == SpeechMachine.GapBeforeSpeak(State())
    {
      gap := 0;
      if lastCancelAt.Some? && clock - lastCancelAt.value < CANCEL_GAP_MS {
        gap := CANCEL_GAP_MS - (clock - lastCancelAt.value);
      }
    }

    method ScheduleSpeak(pause: nat, throws: bool)
      modifies this
      ensures State() == SpeechMachine.ScheduleSpeak(old(State()), pause, throws)
      decreases Remaining(State()), RetriesLeft(State()), 2
    {
      var gap := GapBeforeSpeak();
      var wait := if gap > pause then gap else pause;
      NextSpeech();
      if wait > 0 {
        SetSpeakTimer(Timer(clock + wait, generation, None));
      } else {
        SpeakNow(generation, throws);
      }
    }

    method NextSpeech()
      modifies this
      ensures State() == old(State()).(generation := old(generation) + 1, speakTimer := None)
    {
      generation, speakTimer := generation + 1, None;
    }

    method SetSpeakTimer(t: Timer)
      modifies this
      ensures State() == old(State()).(speakTimer := Some(t))
    {
      speakTimer := Some(t);
    }

    method SpeakNow(gen: nat, throws: bool)
      modifies this
      ensures State() == SpeechMachine.SpeakNow(old(State()), gen, throws)
      decreases Remaining(State()), RetriesLeft(State()), 1
    {
      if gen != generation || status != Playing { return; }
      if index >= |queue| {
        Finish();
        return;
      }
      var item := queue[index];
      if item.spoken == "" {
        if index + 1 < |queue| {
          Move();
          ScheduleSpeak(0, throws);
        } else {
          Finish();
        }
        return;
      }
      Speak(gen, item);
      if throws {
        RetryOrFail(throws);
      } else {
        watchdog := Some(Watchdog(clock + WATCHDOG_MS, gen));
      }
    }

    method Speak(gen: nat, item: Item)
      modifies this
      ensures State() == Spoke(old(State()), gen, item)
    {
      calls := calls + [Spoken(clock, Utterance(gen, Some(item), item.spoken))];
      attempts, started := attempts + 1, false;
    }

    method RetryOrFail(throws: bool)
      modifies this
      ensures State() == SpeechMachine.RetryOrFail(old(State()), throws)
      decreases Remaining(State()), RetriesLeft(State()), 0
    {
      if startRetries < MAX_START_RETRIES {
        startRetries, watchdog := startRetries + 1, None;
        CancelSynth();
        ScheduleSpeak(0, throws);
        return;
      }
      var itemId := if index < |queue| then Some(queue[index].id) else None;
      Halt(Stopped);
      events := events + [StartFailed(itemId)];
    }

    /** Starts or resumes. `busy`: the synthesiser says it is speaking or has something pending. */
    method Play(busy: bool, throws: bool)
      requires Valid()
      modifies this
      ensures Valid() && Sound(State())
      ensures supported && old(queue) != [] ==> status == Playing || (status == Stopped && events == old(events) + [Ended])
      ensures State() == SpeechMachine.Play(old(State()), busy, throws)
    {
      PlayOk(State(), busy, throws);
      InvIsSound(SpeechMachine.Play(State(), busy, throws));
      if supported && queue != [] { PlayPlays(State(), busy, throws); }
      StartPlaying(busy, throws);
    }

    method StartPlaying(busy: bool, throws: bool)
      modifies this
      ensures State() == SpeechMachine.Play(old(State()), busy, throws)
    {
      if !supported {
        events := events + [Unsupported];
        return;
      }
      if status == Playing || queue == [] { return; }
      Prepare(busy);
      ScheduleSpeak(0, throws);
    }

    method Prepare(busy: bool)
      modifies this
      ensures State() == Prepared(old(State()), busy)
    {
      StartOver();
      if onceActive || busy { CancelSynth(); }
      ForgetSelection();
      Show(Playing);
    }

    method StartOver()
      modifies this
      ensures State() == old(State()).(index := ClampIndex(old(queue), old(index)), startRetries := 0)
    {
      index, startRetries := ClampIndex(queue, index), 0;
    }

    method ForgetSelection()
      modifies this
      ensures State() == old(State()).(onceActive := false, attempts := 0)
    {
      onceActive, attempts := false, 0;
    }

    method Pause()
      requires Valid()
      modifies this
      ensures Valid() && Sound(State())
      ensures old(status) == Playing ==> status == Paused && Silent(State())
      ensures old(status) != Playing ==> State() == old(State())
      ensures State() == SpeechMachine.Pause(old(State()))
    {
      StopOk(State());
      HaltIsSilent(State());
      InvIsSound(SpeechMachine.Pause(State()));
      if status == Playing { Halt(Paused); }
    }

    method Stop()
      requires Valid()
      modifies this
      ensures Valid() && Sound(State())
      ensures status == Stopped && Silent(State())
      ensures State() == SpeechMachine.Stop(old(State()))
    {
      StopOk(State());
      HaltIsSilent(State());
      InvIsSound(SpeechMachine.Stop(State()));
      if status == Stopped && !onceActive && speakTimer == None { return; }
      Halt(Stopped);
    }

    method MoveTo(target: nat, throws: bool)
      modifies this
      ensures State() == SpeechMachine.MoveTo(old(State()), target, throws)
    {
      if status != Playing {
        Position(target);
        return;
      }
      if !supported { return; }
      Redirect(target);
      ScheduleSpeak(0, throws);
    }

    method Position(target: nat)
      modifies this
      ensures State() == Positioned(old(State()), target)
    {
      index, shownIndex, wordRange := target, target, None;
      shownId := if target < |queue| then Some(queue[target].id) else None;
    }

    method Redirect(target: nat)
      modifies this
      ensures State() == Redirected(old(State()), target)
    {
      Silence();
      index, startRetries, attempts := target, 0, 0;
    }

    method Silence()
      modifies this
      ensures State() == Silenced(old(State()))
    {
      generation := generation + 1;
      ClearTimers();
      CancelSynth();
    }

    method Next(throws: bool)
      requires Valid()
      modifies this
      ensures Valid() && Sound(State())
      ensures if old(index) + 1 < |old(queue)| then WentTo(old(State()), State(), old(index) + 1) else State() == old(State())
      ensures State() == SpeechMachine.Next(old(State()), throws)
    {
      NextOk(State(), throws);
      if queue != [] { NeighboursAreNext(State(), throws); }
      InvIsSound(SpeechMachine.Next(State(), throws));
      GoToNext(throws);
    }

    method GoToNext(throws: bool)
      modifies this
      ensures State() == SpeechMachine.Next(old(State()), throws)
    {
      if index + 1 < |queue| { MoveTo(index + 1, throws); }
    }

    method Previous(throws: bool)
      requires Valid()
      modifies this
      ensures Valid() && Sound(State())
      ensures if old(queue) != [] then WentTo(old(State()), State(), Nearest(old(queue), old(index) - 1)) else State() == old(State())
      ensures State() == SpeechMachine.Previous(old(State()), throws)
    {
      NextOk(State(), throws);
      if queue != [] { NeighboursAreNext(State(), throws); }
      InvIsSound(SpeechMachine.Previous(State(), throws));
      GoToPrevious(throws);
    }

    method GoToPrevious(throws: bool)
      modifies this
      ensures State() == SpeechMachine.Previous(old(State()), throws)
    {
      if queue != [] { MoveTo(if index > 0 then index - 1 else 0, throws); }
    }

    method Seek(target: int, throws: bool)
      requires Valid()
      modifies this
      ensures Valid() && Sound(State())
      ensures if old(queue) != [] then WentTo(old(State()), State(), Nearest(old(queue), target)) else State() == old(State())
      ensures State() == SpeechMachine.Seek(old(State()), target, throws)
    {
      SeekOk(State(), target, throws);
      if queue != [] { SeekGoesThere(State(), target, throws); }
      InvIsSound(SpeechMachine.Seek(State(), target, throws));
      GoTo(target, throws);
    }

    method GoTo(target: int, throws: bool)
      modifies this
      ensures State() == SpeechMachine.Seek(old(State()), target, throws)
    {
      if queue != [] { MoveTo(ClampIndex(queue, target), throws); }
    }

    method SetRate(newRate: real, throws: bool)
      requires Valid()
      modifies this
      ensures Valid() && Sound(State())
      ensures rate == ClampRate(newRate) && (old(status) == Playing && rate != old(rate) && old(index) < |old(queue)| ==> WentTo(old(State()), State(), old(index)))
      ensures State() == SpeechMachine.SetRate(old(State()), newRate, throws)
    {
      if ClampRate(newRate) != rate { RateRestartsTheItem(State(), newRate, throws); }
      SetRateOk(State(), newRate, throws);
      InvIsSound(SpeechMachine.SetRate(State(), newRate, throws));
      ChangeRate(newRate, throws);
    }

    method ChangeRate(newRate: real, throws: bool)
      modifies this
      ensures State() == SpeechMachine.SetRate(old(State()), newRate, throws)
    {
      var next := ClampRate(newRate);
      if next == rate { return; }
      rate := next;
      if status == Playing { MoveTo(index, throws); }
    }

    method SetPauses(sentence: int, paragraph: int)
      requires Valid()
      modifies this
      ensures Valid() && Sound(State())
      ensures State() == SpeechMachine.SetPauses(old(State()), sentence, paragraph)
    {
      PausesOk(State(), sentence, paragraph);
      InvIsSound(SpeechMachine.SetPauses(State(), sentence, paragraph));
      sentencePause, paragraphPause := Clamp(sentence, SENTENCE_PAUSE_MAX), Clamp(paragraph, PARAGRAPH_PAUSE_MAX);
    }

    method SetQueue(items: seq<Item>, start: int)
      requires Valid()
      modifies this
      ensures Valid() && Sound(State())
      ensures queue == items
      ensures old(GoesOn(State(), items)) ==> status == old(status) && calls == old(calls) && CurrentId(State()) == old(CurrentId(State()))
      ensures !old(GoesOn(State(), items)) ==> status == Stopped && index == ClampIndex(items, start)
      ensures State() == SpeechMachine.SetQueue(old(State()), items, start)
    {
      SetQueueOk(State(), items, start);
      InvIsSound(SpeechMachine.SetQueue(State(), items, start));
      SetQueueGoesOn(State(), items, start);
      ChangeQueue(items, start);
    }

    method ChangeQueue(items: seq<Item>, start: int)
      modifies this
      ensures State() == SpeechMachine.SetQueue(old(State()), items, start)
    {
      if status != Stopped && index < |queue| {
        var id := queue[index].id;
        var found := FindId(items, id);
        if found >= 0 {
          KeepPosition(items, found, id);
          return;
        }
      }
      if status != Stopped { Halt(Stopped); }
      Replace(items, start);
    }

    method KeepPosition(items: seq<Item>, found: nat, id: string)
      modifies this
      ensures State() == old(State()).(queue := items, index := found, shownIndex := found, shownId := Some(id))
    {
      queue, index := items, found;
      shownIndex, shownId := found, Some(id);
    }

    method Replace(items: seq<Item>, start: int)
      modifies this
      ensures State() == WithQueue(old(State()), items, start)
    {
      queue, index := items, ClampIndex(items, start);
      Show(Stopped);
    }

    method SpeakOnce(blank: bool, spoken: string, busy: bool, throws: bool)
      requires Valid()
      modifies this
      ensures Valid() && Sound(State())
      ensures supported && !blank && spoken != "" ==> status != Playing && SelectionPending(State(), spoken)
      ensures State() == SpeechMachine.SpeakOnce(old(State()), blank, spoken, busy, throws)
    {
      SpeakOnceOk(State(), blank, spoken, busy, throws);
      InvIsSound(SpeechMachine.SpeakOnce(State(), blank, spoken, busy, throws));
      if supported && !blank && spoken != "" { SelectionIsSpoken(State(), spoken, busy, throws); }
      StartSelection(blank, spoken, busy, throws);
    }

    method StartSelection(blank: bool, spoken: string, busy: bool, throws: bool)
      modifies this
      ensures State() == SpeechMachine.SpeakOnce(old(State()), blank, spoken, busy, throws)
    {
      if !supported {
        events := events + [Unsupported];
        return;
      }
      if blank { return; }
      if status == Playing { Halt(Paused); } else if onceActive || busy { CancelSynth(); }
      ScheduleSelection(spoken, throws);
    }

    method ScheduleSelection(spoken: string, throws: bool)
      modifies this
      ensures State() == SpeechMachine.ScheduleSelection(old(State()), spoken, throws)
    {
      ClearTimers();
      generation := generation + 1;
      var wait := GapBeforeSpeak();
      if wait > 0 {
        speakTimer := Some(Timer(clock + wait, generation, Some(spoken)));
      } else {
        SpeakSelection(generation, spoken, throws);
      }
    }

    method SpeakSelection(gen: nat, spoken: string, throws: bool)
      modifies this
      ensures State() == SpeechMachine.SpeakSelection(old(State()), gen, spoken, throws)
    {
      if gen != generation || spoken == "" { return; }
      calls := calls + [Spoken(clock, Utterance(gen, None, spoken))];
      onceActive := !throws;
    }

    method FireSpeakTimer(throws: bool)
      requires Valid() && speakTimer.Some? && speakTimer.value.due <= clock
      modifies this
      ensures Valid() && Sound(State())
      ensures State() == SpeechMachine.FireSpeakTimer(old(State()), throws)
    {
      SpeakTimerOk(State(), throws);
      InvIsSound(SpeechMachine.FireSpeakTimer(State(), throws));
      RunSpeakTimer(throws);
    }

    method RunSpeakTimer(throws: bool)
      requires speakTimer.Some?
      modifies this
      ensures State() == SpeechMachine.FireSpeakTimer(old(State()), throws)
    {
      var t := speakTimer.value;
      speakTimer := None;
      if t.once.Some? { SpeakSelection(t.gen, t.once.value, throws); } else { SpeakNow(t.gen, throws); }
    }

    method FireWatchdog(throws: bool)
      requires Valid() && watchdog.Some? && watchdog.value.due <= clock
      modifies this
      ensures Valid() && Sound(State())
      ensures State() == SpeechMachine.FireWatchdog(old(State()), throws)
    {
      WatchdogOk(State(), throws);
      InvIsSound(SpeechMachine.FireWatchdog(State(), throws));
      RunWatchdog(throws);
    }

    method RunWatchdog(throws: bool)
      requires watchdog.Some?
      modifies this
      ensures State() == SpeechMachine.FireWatchdog(old(State()), throws)
    {
      var gen := watchdog.value.gen;
      watchdog := None;
      if gen != generation || status != Playing { return; }
      RetryOrFail(throws);
    }

    method OnUtterance(u: Utterance, event: UtteranceEvent, throws: bool)
      requires Valid() && WasSpoken(calls, u)
      modifies this
      ensures Valid() && Sound(State())
      ensures u.gen != old(generation) || Silent(old(State())) ==> State() == old(State())
      ensures event.OnEnd? && u.gen == old(generation) && u.item.Some? && old(index) < |old(queue)| && !throws ==>
        HeadsFor(old(State()), old(index) + 1, State())
      ensures State() == SpeechMachine.OnUtterance(old(State()), u, event, throws)
    {
      EventOk(State(), u, event, throws);
      EventGoesOn(State(), u, event, throws);
      InvIsSound(SpeechMachine.OnUtterance(State(), u, event, throws));
      if Silent(State()) { SilenceHolds(State(), u, event, throws); }
      Hear(u, event, throws);
    }

    method Hear(u: Utterance, event: UtteranceEvent, throws: bool)
      modifies this
      ensures State() == SpeechMachine.OnUtterance(old(State()), u, event, throws)
    {
      if u.gen != generation { return; }
      match u.item
      case None => if event.OnEnd? || event.OnInterrupted? || event.OnError? { onceActive := false; }
      case Some(item) => ItemEvent(item, event, throws);
    }

    method Move()
      modifies this
      ensures State() == Moved(old(State()))
    {
      index, attempts := index + 1, 0;
    }

    method GoOn(item: Item, throws: bool)
      modifies this
      ensures State() == Advance(old(State()), item, throws)
    {
      if index + 1 < |queue| {
        var pause := if item.block == queue[index + 1].block then sentencePause else paragraphPause;
        Move();
        ScheduleSpeak(pause, throws);
      } else {
        Finish();
      }
    }

    method ItemEvent(item: Item, event: UtteranceEvent, throws: bool)
      modifies this
      ensures State() == SpeechMachine.ItemEvent(old(State()), item, event, throws)
    {
      match event
      case OnStart => ShowStarted(item);
      case OnEnd =>
        ClearWatchdog();
        GoOn(item, throws);
      case OnInterrupted =>
        ClearWatchdog();
        Halt(Paused);
      case OnError =>
        ClearWatchdog();
        RetryOrFail(throws);
      case OnBoundary(range) => if range.Some? { wordRange := range; }
    }

    method ClearWatchdog()
      modifies this
      ensures State() == old(State()).(watchdog := None)
    {
      watchdog := None;
    }

    method ShowStarted(item: Item)
      modifies this
      ensures State() == Started(old(State()), item)
    {
      ClearWatchdog();
      startRetries, attempts, started := 0, 0, true;
      ShowItem(item);
    }

    method ShowItem(item: Item)
      modifies this
      ensures State() == old(State()).(shownIndex := old(index), shownId := Some(item.id), wordRange := None)
    {
      shownIndex, shownId, wordRange := index, Some(item.id), None;
    }

    method OnHidden()
      requires Valid()
      modifies this
      ensures Valid() && Sound(State())
      ensures status != Playing && !onceActive
      ensures State() == SpeechMachine.OnHidden(old(State()))
    {
      HiddenOk(State());
      InvIsSound(SpeechMachine.OnHidden(State()));
      Hide();
    }

    method Hide()
      modifies this
      ensures State() == SpeechMachine.OnHidden(old(State()))
    {
      if status == Playing {
        Halt(Paused);
      } else if onceActive {
        generation := generation + 1;
        CancelSynth();
        onceActive := false;
      }
    }
  }
}
