module SpeechOrder {
  // What is read, and in which order: the items of the queue that have something to say, each once, none skipped, from where
  // playing starts. About the steps of SpeechMachine.
  import opened Options
  import opened SpeechMachine

  // ---------- the next item ----------

  /** The first item from k on that has something to say; the end of the queue if there is none. */
  function FirstVoiced(queue: seq<Item>, k: nat): (r: nat)
    requires k <= |queue|
    ensures k <= r <= |queue| && (forall i :: k <= i < r ==> queue[i].spoken == "") && (r < |queue| ==> queue[r].spoken != "")
    decreases |queue| - k
  {
    if k == |queue| || queue[k].spoken != "" then k else FirstVoiced(queue, k + 1)
  }

  /**
   * The engine goes for the first item from `from` on that has something to say: it has just spoken it, or a timer is set for an
   * item with nothing to say between; or, nothing being left, it has announced the end. Nothing else was said.
   */
  predicate HeadsFor(e: Engine, from: nat, r: Engine)
    requires from <= |e.queue|
  {
    var target := FirstVoiced(e.queue, from);
    && r.queue == e.queue
    && if r.status != Playing then
         r.status == Stopped && r.speakTimer.None? && target == |e.queue| && r.events == e.events + [Ended] && r.calls == e.calls
       else if r.speakTimer.Some? then
         r.speakTimer.value.gen == r.generation && r.speakTimer.value.once.None? && from <= r.index <= target && r.index < |e.queue| && r.calls == e.calls
       else
         r.index == target < |e.queue| && r.calls == e.calls + [Spoken(r.clock, Utterance(r.generation, Some(e.queue[target]), e.queue[target].spoken))]
  }

  lemma ScheduleHeads(e: Engine, pause: nat)
    requires e.status == Playing && e.index < |e.queue|
    ensures HeadsFor(e, e.index, ScheduleSpeak(e, pause, false))
    decreases Remaining(e), 1
  {
    if GapBeforeSpeak(e) == 0 && pause == 0 { SpeakNowHeads(e.(generation := e.generation + 1, speakTimer := None)); }
  }

  lemma SpeakNowHeads(e: Engine)
    requires e.status == Playing && e.index < |e.queue| && e.speakTimer.None?
    ensures HeadsFor(e, e.index, SpeakNow(e, e.generation, false))
    decreases Remaining(e), 0
  {
    if e.queue[e.index].spoken != "" {
      SpokenHeads(e);
    } else if e.index + 1 < |e.queue| {
      ScheduleHeads(Moved(e), 0);
      SkippedHeads(e);
    } else {
      EndHeads(e);
    }
  }

  lemma SpokenHeads(e: Engine)
    requires e.status == Playing && e.index < |e.queue| && e.speakTimer.None? && e.queue[e.index].spoken != ""
    ensures HeadsFor(e, e.index, SpeakNow(e, e.generation, false))
  {
  }

  lemma SkippedHeads(e: Engine)
    requires e.status == Playing && e.index + 1 < |e.queue| && e.queue[e.index].spoken == ""
    requires HeadsFor(Moved(e), e.index + 1, ScheduleSpeak(Moved(e), 0, false))
    ensures HeadsFor(e, e.index, SpeakNow(e, e.generation, false))
  {
  }

  lemma EndHeads(e: Engine)
    requires e.status == Playing && e.index + 1 == |e.queue| && e.queue[e.index].spoken == ""
    ensures HeadsFor(e, e.index, SpeakNow(e, e.generation, false))
  {
    assert FirstVoiced(e.queue, e.index + 1) == |e.queue|;
  }

  /**
   * When an utterance ends, the engine goes for the first item after it that has something to say and passes over none that has;
   * with none left it announces the end.
   */
  lemma EndGoesToTheNext(e: Engine, u: Utterance)
    requires Inv(e) && WasSpoken(e.calls, u) && u.gen == e.generation && u.item.Some?
    ensures HeadsFor(e, e.index + 1, OnUtterance(e, u, OnEnd, false))
  {
    CurrentIsPlaying(e, u);
    var quiet := e.(watchdog := None);
    if e.index + 1 < |e.queue| { ScheduleHeads(Moved(quiet), PauseAfter(e, u.item.value, e.queue[e.index + 1])); }
  }

  lemma EventGoesOn(e: Engine, u: Utterance, event: UtteranceEvent, throws: bool)
    requires Inv(e) && WasSpoken(e.calls, u)
    ensures event.OnEnd? && u.gen == e.generation && u.item.Some? && e.index < |e.queue| && !throws ==> HeadsFor(e, e.index + 1, OnUtterance(e, u, event, throws))
  {
    if event.OnEnd? && u.gen == e.generation && u.item.Some? && !throws { EndGoesToTheNext(e, u); }
  }

  /** It waits at least the pause between sentences, or the longer one before another block. */
  lemma PauseIsKept(e: Engine, u: Utterance, throws: bool)
    requires Inv(e) && WasSpoken(e.calls, u) && u.gen == e.generation && u.item.Some? && e.index + 1 < |e.queue|
    ensures var r := OnUtterance(e, u, OnEnd, throws);
      var pause := if u.item.value.block == e.queue[e.index + 1].block then e.sentencePause else e.paragraphPause;
      pause > 0 ==> r.status == Playing && r.calls == e.calls && r.index == e.index + 1 && r.speakTimer.Some? && r.speakTimer.value.due >= e.clock + pause
  {
    CurrentIsPlaying(e, u);
  }

  /** Where next, previous and seek go: the neighbour or the nearest place in the queue, kept inside it. */
  function Nearest(queue: seq<Item>, index: int): nat { if index >= |queue| then (if queue == [] then 0 else |queue| - 1) else if index < 0 then 0 else index }

  /** Moving while playing silences what is spoken with one cancel and heads for the target; otherwise it only changes the place. */
  predicate WentTo(e: Engine, r: Engine, target: nat)
    requires target < |e.queue|
  {
    if e.status != Playing then
      r == e.(index := target, shownIndex := target, shownId := Some(e.queue[target].id), wordRange := None)
    else
      HeadsFor(e.(calls := e.calls + [Cancelled(e.clock)]), target, r) && (r.status == Playing ==> r.speakTimer.Some?)
  }

  lemma MoveGoes(e: Engine, target: nat, throws: bool)
    requires Inv(e) && target < |e.queue|
    ensures WentTo(e, MoveTo(e, target, throws), target)
  {
    if e.status == Playing { ScheduleWaits(Redirected(e, target), throws); }
  }

  lemma NeighboursAreNext(e: Engine, throws: bool)
    requires Inv(e) && e.queue != []
    ensures WentTo(e, Previous(e, throws), Nearest(e.queue, e.index - 1))
    ensures if e.index + 1 < |e.queue| then WentTo(e, Next(e, throws), e.index + 1) else Next(e, throws) == e
  {
    MoveGoes(e, Nearest(e.queue, e.index - 1), throws);
    if e.index + 1 < |e.queue| { MoveGoes(e, e.index + 1, throws); }
  }

  lemma SeekGoesThere(e: Engine, index: int, throws: bool)
    requires Inv(e) && e.queue != []
    ensures WentTo(e, Seek(e, index, throws), Nearest(e.queue, index))
  {
    MoveGoes(e, Nearest(e.queue, index), throws);
  }

  /** A new rate says the current item again from its start, at that rate; without playing, only the rate changes. */
  lemma RateRestartsTheItem(e: Engine, rate: real, throws: bool)
    requires Inv(e) && ClampRate(rate) != e.rate
    ensures var r := SetRate(e, rate, throws);
      && r.rate == ClampRate(rate) && RATE_MIN <= r.rate <= RATE_MAX
      && if e.status == Playing then WentTo(e, r, e.index) else r == e.(rate := r.rate)
  {
    if e.status == Playing {
      var next := e.(rate := ClampRate(rate));
      MoveGoes(next, e.index, throws);
      ScheduleWaits(Redirected(next, e.index), throws);
    }
  }

  /** Playing starts at the current item, or at the last one if the queue has become shorter. */
  lemma PlayHeadsForCurrent(e: Engine, busy: bool)
    requires Inv(e) && e.supported && e.queue != [] && e.status != Playing
    ensures HeadsFor(e.(calls := if e.onceActive || busy then e.calls + [Cancelled(e.clock)] else e.calls), e.index, Play(e, busy, false))
  {
    ScheduleHeads(Prepared(e, busy), 0);
  }

  /** When an utterance starts its item is shown, and its attempts are over; at a word boundary the word is shown. */
  lemma SpokenIsShown(e: Engine, u: Utterance, range: (nat, nat), throws: bool)
    requires Inv(e) && WasSpoken(e.calls, u) && u.gen == e.generation && u.item.Some?
    ensures var r := OnUtterance(e, u, OnStart, throws);
      && r.shownIndex == e.index && r.shownId == Some(u.item.value.id) && r.wordRange == None && r.watchdog == None && r.startRetries == 0
      && r.queue == e.queue && r.index == e.index && r.calls == e.calls && r.status == Playing
    ensures OnUtterance(e, u, OnBoundary(Some(range)), throws) == e.(wordRange := Some(range))
  {
    CurrentIsPlaying(e, u);
  }

  // ---------- the item being spoken is the current one ----------

  /** While playing with no timer pending, the utterance of this generation is of the item at `index`. */
  ghost predicate SaysCurrent(e: Engine) {
    e.status == Playing && e.speakTimer.None? ==>
      && e.index < |e.queue|
      && exists i :: 0 <= i < |e.calls| && IsOf(e.calls[i], e.generation, e.queue[e.index].id)
  }

  predicate IsOf(call: Call, gen: nat, id: string) {
    call.Spoken? && call.utterance.gen == gen && call.utterance.item.Some? && call.utterance.item.value.id == id && call.utterance.said == call.utterance.item.value.spoken
  }

  lemma ScheduleSays(e: Engine, pause: nat, throws: bool)
    requires e.status == Playing && e.index < |e.queue|
    ensures SaysCurrent(ScheduleSpeak(e, pause, throws))
    decreases Remaining(e), RetriesLeft(e), 2
  {
    if GapBeforeSpeak(e) == 0 && pause == 0 { SpeakNowSays(e.(generation := e.generation + 1, speakTimer := None), throws); }
  }

  lemma SpeakNowSays(e: Engine, throws: bool)
    requires e.status == Playing && e.index < |e.queue|
    ensures SaysCurrent(SpeakNow(e, e.generation, throws))
    decreases Remaining(e), RetriesLeft(e), 1
  {
    var item := e.queue[e.index];
    if item.spoken == "" {
      if e.index + 1 < |e.queue| { ScheduleSays(Moved(e), 0, throws); }
    } else if throws {
      RetrySays(Spoke(e, e.generation, item), throws);
    } else {
      assert IsOf(Spoke(e, e.generation, item).calls[|e.calls|], e.generation, item.id);
    }
  }

  lemma RetrySays(e: Engine, throws: bool)
    requires e.status == Playing && e.index < |e.queue|
    ensures SaysCurrent(RetryOrFail(e, throws))
    decreases Remaining(e), RetriesLeft(e), 0
  {
    if e.startRetries < MAX_START_RETRIES { ScheduleSays(CancelSynth(e.(startRetries := e.startRetries + 1, watchdog := None)), 0, throws); }
  }

  lemma MoveSays(e: Engine, target: nat, throws: bool)
    requires Inv(e) && target < |e.queue|
    ensures SaysCurrent(MoveTo(e, target, throws))
  {
    if e.status == Playing { ScheduleSays(Redirected(e, target), 0, throws); }
  }

  lemma UsersStepSays(e: Engine, step: Step, throws: bool)
    requires Inv(e) && IsUsers(step) && SaysCurrent(e)
    ensures SaysCurrent(DoUsers(e, step, throws))
  {
    match step {
      case DoPlay(busy) => if e.supported && e.status != Playing && e.queue != [] { ScheduleSays(Prepared(e, busy), 0, throws); }
      case DoNext => NeighbourSays(e, throws);
      case DoPrevious => NeighbourSays(e, throws);
      case DoSeek(index) => if e.queue != [] { MoveSays(e, ClampIndex(e.queue, index), throws); }
      case DoSetRate(rate) => if e.status == Playing { MoveSays(e.(rate := ClampRate(rate)), e.index, throws); }
      case DoSetQueue(items, start) => SetQueueSays(e, items, start);
      case DoSpeakOnce(_, text, busy) => if e.supported && text != "" { NoItemPlays(e, step, throws); }
      case _ =>
    }
  }

  lemma NeighbourSays(e: Engine, throws: bool)
    requires Inv(e) && SaysCurrent(e)
    ensures SaysCurrent(Next(e, throws)) && SaysCurrent(Previous(e, throws))
  {
    if e.index + 1 < |e.queue| { MoveSays(e, e.index + 1, throws); }
    if e.queue != [] { MoveSays(e, if e.index > 0 then e.index - 1 else 0, throws); }
  }

  lemma NoItemPlays(e: Engine, step: Step, throws: bool)
    requires Inv(e) && step.DoSpeakOnce? && e.supported && step.text != "" && SaysCurrent(e)
    ensures SaysCurrent(DoUsers(e, step, throws))
  {
    if !step.blank { SelectionIsSpoken(e, step.text, step.busy, throws); }
  }

  lemma SetQueueSays(e: Engine, items: seq<Item>, start: int)
    requires Inv(e) && SaysCurrent(e)
    ensures SaysCurrent(SetQueue(e, items, start))
  {
    var r := SetQueue(e, items, start);
    if r.status == Playing && r.speakTimer.None? {
      SetQueueGoesOn(e, items, start);
      var i :| 0 <= i < |e.calls| && IsOf(e.calls[i], e.generation, e.queue[e.index].id);
      assert IsOf(r.calls[i], r.generation, r.queue[r.index].id);
    }
  }

  lemma EventSays(e: Engine, u: Utterance, event: UtteranceEvent, throws: bool)
    requires Inv(e) && WasSpoken(e.calls, u) && SaysCurrent(e)
    ensures SaysCurrent(OnUtterance(e, u, event, throws))
  {
    if u.gen == e.generation && u.item.Some? {
      CurrentIsPlaying(e, u);
      var quiet := e.(watchdog := None);
      match event {
        case OnEnd => if e.index + 1 < |e.queue| { ScheduleSays(Moved(quiet), PauseAfter(e, u.item.value, e.queue[e.index + 1]), throws); }
        case OnError => RetrySays(quiet, throws);
        case _ =>
      }
    }
  }

  lemma StepSays(e: Engine, step: Step, throws: bool)
    requires Inv(e) && Enabled(e, step) && SaysCurrent(e)
    ensures SaysCurrent(Do(e, step, throws))
  {
    if IsUsers(step) {
      UsersStepSays(e, step, throws);
    } else {
      match step {
        case SpeakTimerFires => if e.status == Playing { SpeakNowSays(e.(speakTimer := None), throws); }
        case WatchdogFires => if e.status == Playing { RetrySays(e.(watchdog := None), throws); }
        case UtteranceEvents(u, event) => EventSays(e, u, event, throws);
        case _ =>
      }
    }
  }

  lemma {:induction false} RunSays(e: Engine, steps: seq<(Step, bool)>)
    requires Inv(e) && SaysCurrent(e) && Possible(e, steps)
    ensures SaysCurrent(After(e, steps))
    decreases |steps|
  {
    if steps != [] {
      StepOk(e, steps[0].0, steps[0].1);
      StepSays(e, steps[0].0, steps[0].1);
      RunSays(Do(e, steps[0].0, steps[0].1), steps[1..]);
    }
  }

  /** Over every run: while playing with no timer pending, the last utterance spoken is of the current item. */
  lemma PlayingSaysTheCurrentItem(supported: bool, clock: int, steps: seq<(Step, bool)>)
    requires Possible(Initial(supported, clock), steps)
    requires var e := After(Initial(supported, clock), steps); e.status == Playing && e.speakTimer.None?
    ensures var e := After(Initial(supported, clock), steps);
      && e.index < |e.queue|
      && exists i :: 0 <= i < |e.calls| && IsOf(e.calls[i], e.generation, e.queue[e.index].id) && forall j :: i < j < |e.calls| ==> !e.calls[j].Spoken?
  {
    RunOk(Initial(supported, clock), steps);
    RunSays(Initial(supported, clock), steps);
    var e := After(Initial(supported, clock), steps);
    var i :| 0 <= i < |e.calls| && IsOf(e.calls[i], e.generation, e.queue[e.index].id);
  }

  // ---------- everything is read ----------

  /** The items that reached the synthesiser, in order. */
  function SpokenItems(calls: seq<Call>): seq<Item> {
    if calls == [] then []
    else
      var c := calls[|calls| - 1];
      SpokenItems(calls[..|calls| - 1]) + if c.Spoken? && c.utterance.item.Some? then [c.utterance.item.value] else []
  }

  /** The items of a stretch of the queue that have something to say. */
  function Voiced(queue: seq<Item>, from: nat, end: nat): seq<Item>
    requires end <= |queue|
  {
    if from >= end then [] else Voiced(queue, from, end - 1) + if queue[end - 1].spoken != "" then [queue[end - 1]] else []
  }

  lemma {:induction false} VoicedJoins(queue: seq<Item>, from: nat, mid: nat, end: nat)
    requires from <= mid <= end <= |queue|
    ensures Voiced(queue, from, mid) + Voiced(queue, mid, end) == Voiced(queue, from, end)
    decreases end
  {
    if mid < end { VoicedJoins(queue, from, mid, end - 1); }
  }

  /** Where the items not read yet begin. */
  function Unread(e: Engine): nat {
    if e.status != Playing then |e.queue| else if e.speakTimer.Some? then e.index else e.index + 1
  }

  /** After what was read before, the items read are those with something to say between two places of the queue. */
  predicate HasRead(queue: seq<Item>, before: seq<Item>, from: nat, r: Engine) {
    && r.queue == queue && from <= Unread(r) <= |queue|
    && SpokenItems(r.calls) == before + Voiced(queue, from, Unread(r))
    && (r.status != Playing ==> r.status == Stopped && r.speakTimer.None?)
  }

  lemma SpokenMore(calls: seq<Call>, c: Call)
    ensures SpokenItems(calls + [c]) == SpokenItems(calls) + if c.Spoken? && c.utterance.item.Some? then [c.utterance.item.value] else []
  {
    assert (calls + [c])[..|calls|] == calls;
  }

  lemma {:induction false} SilentUnvoiced(queue: seq<Item>, from: nat, end: nat)
    requires from <= |queue| && from <= end <= FirstVoiced(queue, from)
    ensures Voiced(queue, from, end) == []
    decreases end
  {
    if from < end { SilentUnvoiced(queue, from, end - 1); }
  }

  /** What the engine goes for is what it reads. */
  lemma HeadsReads(e: Engine, from: nat, r: Engine)
    requires from <= |e.queue| && HeadsFor(e, from, r)
    ensures HasRead(e.queue, SpokenItems(e.calls), from, r)
  {
    var target := FirstVoiced(e.queue, from);
    SilentUnvoiced(e.queue, from, target);
    if r.status == Playing && r.speakTimer.Some? {
      SilentUnvoiced(e.queue, from, r.index);
    } else if r.status == Playing {
      SpokenMore(e.calls, Spoken(r.clock, Utterance(r.generation, Some(e.queue[target]), e.queue[target].spoken)));
    }
  }

  /** Nothing but time, timers and the utterances' own starts, ends and word boundaries: no user, no failure, no interruption. */
  predicate Undisturbed(step: Step) {
    step.TimePasses? || step.SpeakTimerFires? || (step.UtteranceEvents? && (step.event.OnStart? || step.event.OnEnd? || step.event.OnBoundary?))
  }

  lemma ReadOn(queue: seq<Item>, before: seq<Item>, from: nat, mid: Engine, r: Engine)
    requires HasRead(queue, before, from, mid) && HasRead(queue, SpokenItems(mid.calls), Unread(mid), r)
    ensures HasRead(queue, before, from, r)
  {
    VoicedJoins(queue, from, Unread(mid), Unread(r));
  }

  lemma NothingRead(e: Engine, r: Engine)
    requires r.queue == e.queue && Unread(r) == Unread(e) <= |e.queue| && r.calls == e.calls && (r.status != Playing ==> r.status == Stopped && r.speakTimer.None?)
    ensures HasRead(e.queue, SpokenItems(e.calls), Unread(e), r)
  {
  }

  lemma EndReads(e: Engine, u: Utterance)
    requires Inv(e) && WasSpoken(e.calls, u) && u.gen == e.generation && u.item.Some?
    ensures HasRead(e.queue, SpokenItems(e.calls), Unread(e), OnUtterance(e, u, OnEnd, false))
  {
    CurrentIsPlaying(e, u);
    EndGoesToTheNext(e, u);
    HeadsReads(e, e.index + 1, OnUtterance(e, u, OnEnd, false));
  }

  lemma StepReads(e: Engine, step: Step)
    requires Inv(e) && Enabled(e, step) && Undisturbed(step) && (e.status != Playing ==> e.status == Stopped && e.speakTimer.None?)
    ensures HasRead(e.queue, SpokenItems(e.calls), Unread(e), Do(e, step, false))
  {
    match step {
      case TimePasses(ms) => NothingRead(e, Do(e, step, false));
      case SpeakTimerFires =>
        SpeakNowHeads(e.(speakTimer := None));
        HeadsReads(e.(speakTimer := None), e.index, Do(e, step, false));
      case UtteranceEvents(u, event) =>
        if u.gen == e.generation && u.item.Some? {
          CurrentIsPlaying(e, u);
          if event.OnEnd? { EndReads(e, u); } else { NothingRead(e, Do(e, step, false)); }
        } else {
          NothingRead(e, Do(e, step, false));
        }
    }
  }

  predicate AllUndisturbed(steps: seq<(Step, bool)>) { forall i :: 0 <= i < |steps| ==> Undisturbed(steps[i].0) && !steps[i].1 }

  lemma {:induction false} RunReads(e: Engine, steps: seq<(Step, bool)>)
    requires Inv(e) && Possible(e, steps) && AllUndisturbed(steps) && (e.status != Playing ==> e.status == Stopped && e.speakTimer.None?)
    ensures HasRead(e.queue, SpokenItems(e.calls), Unread(e), After(e, steps))
    decreases |steps|
  {
    if steps == [] {
      NothingRead(e, e);
    } else {
      assert Undisturbed(steps[0].0);
      StepOk(e, steps[0].0, false);
      StepReads(e, steps[0].0);
      RunReads(Do(e, steps[0].0, false), steps[1..]);
      ReadOn(e.queue, SpokenItems(e.calls), Unread(e), Do(e, steps[0].0, false), After(e, steps));
    }
  }

  lemma PlayReads(e: Engine, busy: bool)
    requires Inv(e) && e.supported && e.queue != [] && e.status != Playing
    ensures HasRead(e.queue, SpokenItems(e.calls), e.index, Play(e, busy, false))
  {
    SpokenMore(e.calls, Cancelled(e.clock));
    ScheduleHeads(Prepared(e, busy), 0);
    HeadsReads(Prepared(e, busy), e.index, Play(e, busy, false));
  }

  /**
   * After play, in every run without user actions, failures and interruptions: what has reached the synthesiser since are the
   * items with something to say from the current one on, in order, none skipped and none repeated, up to the one being said; and
   * all of them once the engine has stopped.
   */
  lemma EverythingIsRead(e: Engine, busy: bool, steps: seq<(Step, bool)>)
    requires Inv(e) && e.supported && e.queue != [] && e.status != Playing
    requires Possible(Play(e, busy, false), steps) && AllUndisturbed(steps)
    ensures var r := After(Play(e, busy, false), steps);
      && r.queue == e.queue && e.index <= Unread(r) <= |e.queue|
      && SpokenItems(r.calls) == SpokenItems(e.calls) + Voiced(e.queue, e.index, Unread(r))
      && (r.status != Playing ==> Unread(r) == |e.queue|)
  {
    var r := Play(e, busy, false);
    PlayReads(e, busy);
    PlayOk(e, busy, false);
    RunReads(r, steps);
    ReadOn(e.queue, SpokenItems(e.calls), e.index, r, After(r, steps));
  }
}
