module ProcessingQueue {
  // The persisted job of one page, the page itself, and the guard against crash loops. Every read and every write of the store is
  // a step of its own, and a crash, a new request, the steps of corrections and a deletion may come between any two. `starts`
  // counts the runs begun since the page was last asked for, runs that were aborted not included; the queue itself never reads it.
  import opened Options

  const MAX_JOB_ATTEMPTS := 2
  const REPROCESS_PRIORITY := 10

  datatype JobState = Queued | Running | Done | Failed

  /** A page that came with its document, or one asked for explicitly. */
  datatype Stage = Initial | Reprocess

  /** A stored job; `generation` is the time it was asked for, later for every new request. */
  datatype Job = Job(stage: Stage, state: JobState, attempts: nat, error: Option<string>, priority: nat, generation: int, updatedAt: int)

  datatype PageStatus = Pending | Available | Unreadable

  /** A stored page and its text, empty for none. */
  datatype Page = Page(status: PageStatus, text: string)

  /**
   * What a run makes of the page: the text layer of a PDF, never empty, a text read from the image, perhaps empty, or nothing, so
   * that the page waits for the home computer.
   */
  datatype Reading = PdfText(text: string) | ImageText(text: string) | HandedOver

  datatype Outcome = Succeeded | SourceRemoved | Aborted(documentThere: bool) | Threw(code: string, permanent: bool, keepPage: bool)

  // ---------- what is done to a job and its page ----------

  function NewJob(now: int): Job { Job(Initial, Queued, 0, None, 0, now, now) }

  /** An explicit request: attempts start over, under a new generation. */
  function Requested(job: Option<Job>, now: int): Job {
    var before := if job.Some? then job.value else NewJob(now);
    Job(Reprocess, Queued, 0, None, REPROCESS_PRIORITY, if now > before.generation + 1 then now else before.generation + 1, now)
  }

  /** Written before the run, so that a crash leaves a trace. */
  function Begun(job: Job, now: int): Job { job.(state := Running, attempts := job.attempts + 1, updatedAt := now) }

  /** A job found running after a reload crashed the tab; the second time it fails. */
  function Recovered(job: Job, now: int): Job {
    if job.state != Running then job
    else if job.attempts >= MAX_JOB_ATTEMPTS then job.(state := Failed, error := Some("crash_loop"), updatedAt := now)
    else job.(state := Queued, updatedAt := now)
  }

  /** What a run leaves of its job; nothing to write when its document is gone. */
  function AfterRun(job: Job, outcome: Outcome, now: int): Option<Job> {
    match outcome
    case Succeeded => Some(job.(state := Done, priority := 0, attempts := 0, error := None, updatedAt := now))
    case SourceRemoved => None
    case Aborted(there) => if there then Some(job.(state := Queued, attempts := if job.attempts > 0 then job.attempts - 1 else 0, updatedAt := now)) else None
    case Threw(code, permanent, keepPage) =>
      if keepPage then Some(job.(state := Done, priority := 0, attempts := 0, error := Some(code), updatedAt := now))
      else if !permanent && job.attempts < MAX_JOB_ATTEMPTS then Some(job.(state := Queued, error := Some(code), updatedAt := now))
      else Some(job.(state := Failed, error := Some(code), priority := 0, updatedAt := now))
  }

  /** The page as a run has read it; a missing one counts as pending. */
  function PageRead(page: Option<Page>): Page { if page.Some? then page.value else Page(Pending, "") }

  /** A page that is readable already is not processed, unless that was asked for. */
  predicate NothingToDo(job: Job, seen: Page) { job.stage == Initial && seen.status == Available }

  /** The page a run writes over the one it has read. */
  function Committed(seen: Page, reading: Reading): Page {
    match reading
    case PdfText(text) => Page(Available, text)
    case ImageText(text) => Page(Available, text)
    case HandedOver => if seen.status == Available then seen else Page(Unreadable, "")
  }

  /** The page to write once a job has failed: a copy of the stored one marked unreadable, unless that one is available. */
  function FailedPage(page: Option<Page>, recovery: bool): Option<Page> {
    match page
    case None => if recovery then None else Some(Page(Unreadable, ""))
    case Some(p) => if p.status == Available then None else Some(p.(status := Unreadable))
  }

  function PageAfterFailure(page: Option<Page>, recovery: bool): Option<Page> {
    if FailedPage(page, recovery).Some? then FailedPage(page, recovery) else page
  }

  function PageAfterRecovery(page: Option<Page>, job: Job, now: int): Option<Page> {
    if Recovered(job, now).state == Failed then PageAfterFailure(page, true) else page
  }

  predicate IsCurrent(stored: Option<Job>, generation: int) { stored.Some? && stored.value.generation == generation }

  // ---------- the machine ----------

  /** What the tab is doing with the job. */
  datatype Worker =
    | Off                                 // no tab, or it crashed
    | Loaded                              // started, not recovered yet
    | Recovering(seen: Job)               // has read a running job
    | Waiting
    | Picked(seen: Job)                   // has read a queued job
    | Started(job: Job)                   // has written it as running
    | HasRead(job: Job, page: Page)       // and has read the page
    | HasCommitted(job: Job, again: Option<Page>) // and has written the page, and will perhaps write it once more with its image
    | Writing(result: Job)                // the run is over and its generation was still stored
    | Failing(recovery: bool)             // has written the job as failed, the page is next
    | Marking(copy: Page)                 // has read the page, and made the copy that says it is unreadable

  /** `unread`: corrections that have written their page; `corrections`: copies of queued jobs they have read since. */
  datatype State = State(stored: Option<Job>, page: Option<Page>, worker: Worker, unread: nat, corrections: set<Job>, starts: nat)

  datatype Step =
    | OpenTab
    | ReadForRecovery
    | WriteRecovery(now: int)
    | Pick
    | Begin(now: int)
    | ReadPage
    | Commit(reading: Reading)
    | PutAgain
    | End(outcome: Outcome, now: int)
    | WriteJob
    | ReadFailed
    | WriteFailed
    | Request(now: int)
    | CorrectPage(text: string)
    | CorrectRead
    | CorrectWrite(seen: Job, now: int)
    | Delete
    | Crash

  predicate InRun(w: Worker) { w.Started? || w.HasRead? || w.HasCommitted? }

  predicate CanCommit(w: Worker) { w.HasRead? && !NothingToDo(w.job, w.page) }

  predicate HasSucceeded(w: Worker) { w.HasCommitted? || (w.HasRead? && NothingToDo(w.job, w.page)) }

  predicate Enabled(s: State, step: Step) {
    match step
    case OpenTab => s.worker.Off?
    case ReadForRecovery => s.worker.Loaded?
    case WriteRecovery(_) => s.worker.Recovering?
    case Pick => s.worker.Waiting? && s.stored.Some? && s.stored.value.state == Queued
    case Begin(_) => s.worker.Picked?
    case ReadPage => s.worker.Started?
    case Commit(reading) => CanCommit(s.worker) && (reading.PdfText? ==> reading.text != "")
    case PutAgain => s.worker.HasCommitted? && s.worker.again.Some?
    case End(outcome, _) => InRun(s.worker) && (outcome.SourceRemoved? ==> s.worker.Started?) && (outcome.Succeeded? ==> HasSucceeded(s.worker))
    case WriteJob => s.worker.Writing?
    case ReadFailed => s.worker.Failing?
    case WriteFailed => s.worker.Marking?
    case Request(_) => !s.worker.Off? && !s.worker.Loaded? && !s.worker.Recovering?
    case CorrectPage(_) => s.page.Some?
    case CorrectRead => s.unread > 0
    case CorrectWrite(j, _) => j in s.corrections
    case _ => true
  }

  /** A run ends: its result is written next only if the job was not asked for again meanwhile. */
  function Ended(s: State, job: Job, outcome: Outcome, now: int): State {
    var starts := if outcome.Aborted? && s.starts > 0 then s.starts - 1 else s.starts;
    var result := AfterRun(job, outcome, now);
    if outcome.SourceRemoved? then s.(stored := None, worker := Waiting, starts := starts)
    else s.(worker := if result.Some? && IsCurrent(s.stored, job.generation) then Writing(result.value) else Waiting, starts := starts)
  }

  function Do(s: State, step: Step): State
    requires Enabled(s, step)
  {
    match step
    case OpenTab => s.(worker := Loaded)
    case ReadForRecovery =>
      s.(worker := if s.stored.Some? && s.stored.value.state == Running then Recovering(s.stored.value) else Waiting)
    case WriteRecovery(now) =>
      var job := Recovered(s.worker.seen, now);
      s.(stored := Some(job), worker := if job.state == Failed then Failing(true) else Waiting)
    case Pick => s.(worker := Picked(s.stored.value))
    case Begin(now) =>
      var job := Begun(s.worker.seen, now);
      s.(stored := Some(job), worker := Started(job), starts := s.starts + 1)
    case ReadPage => s.(worker := HasRead(s.worker.job, PageRead(s.page)))
    case Commit(reading) =>
      var page := Committed(s.worker.page, reading);
      s.(page := Some(page), worker := HasCommitted(s.worker.job, if reading.PdfText? then Some(page) else None))
    case PutAgain => s.(page := s.worker.again, worker := HasCommitted(s.worker.job, None))
    case End(outcome, now) => Ended(s, s.worker.job, outcome, now)
    case WriteJob => s.(stored := Some(s.worker.result), worker := if s.worker.result.state == Failed then Failing(false) else Waiting)
    case ReadFailed =>
      var copy := FailedPage(s.page, s.worker.recovery);
      s.(worker := if copy.Some? then Marking(copy.value) else Waiting)
    case WriteFailed => s.(page := Some(s.worker.copy), worker := Waiting)
    case Request(now) => s.(stored := Some(Requested(s.stored, now)), starts := 0)
    case CorrectPage(text) => s.(page := Some(Page(Available, text)), unread := s.unread + 1)
    case CorrectRead =>
      s.(unread := s.unread - 1,
         corrections := if s.stored.Some? && s.stored.value.state == Queued then s.corrections + {s.stored.value} else s.corrections)
    case CorrectWrite(j, now) =>
      s.(stored := Some(j.(state := Done, error := None, updatedAt := now)), corrections := s.corrections - {j})
    case Delete => s.(stored := None)
    case Crash => s.(worker := Off, unread := 0, corrections := {})
  }

  predicate Possible(s: State, steps: seq<Step>)
    decreases |steps|
  {
    steps == [] || (Enabled(s, steps[0]) && Possible(Do(s, steps[0]), steps[1..]))
  }

  function After(s: State, steps: seq<Step>): State
    requires Possible(s, steps)
    decreases |steps|
  {
    if steps == [] then s else After(Do(s, steps[0]), steps[1..])
  }

  /** A page just imported: its job is queued, nothing has run. */
  predicate Imported(s: State) {
    && s.stored.Some? && s.stored.value.state == Queued && s.stored.value.attempts == 0 && s.starts == 0
    && s.worker.Off? && s.unread == 0 && s.corrections == {} && (s.page.Some? ==> PageOk(s.page.value))
  }

  // ---------- what every step keeps ----------

  predicate AttemptsOk(job: Job) {
    (job.state == Queued ==> job.attempts < MAX_JOB_ATTEMPTS) && (job.state == Running ==> 1 <= job.attempts <= MAX_JOB_ATTEMPTS)
  }

  /** A job that is queued or running has counted every start. */
  predicate Counts(job: Job, starts: nat) { AttemptsOk(job) && (job.state == Queued || job.state == Running ==> starts <= job.attempts) }

  predicate WorkerOk(w: Worker, starts: nat) {
    match w
    case Recovering(j) => j.state == Running && Counts(j, starts)
    case Picked(j) => j.state == Queued && Counts(j, starts)
    case Started(j) => j.state == Running && Counts(j, starts)
    case HasRead(j, p) => j.state == Running && Counts(j, starts) && PageOk(p)
    case HasCommitted(j, again) => j.state == Running && Counts(j, starts) && (again.Some? ==> again.value.status == Available && again.value.text != "")
    case Writing(j) => j.state != Running && Counts(j, starts)
    case Marking(p) => p.status == Unreadable && PageOk(p)
    case _ => true
  }

  /** Only an available page has text. */
  predicate PageOk(p: Page) { p.text != "" ==> p.status == Available }

  predicate Inv(s: State) {
    && s.starts <= MAX_JOB_ATTEMPTS
    && (s.stored.Some? ==> Counts(s.stored.value, s.starts))
    && WorkerOk(s.worker, s.starts)
    && (s.page.Some? ==> PageOk(s.page.value))
  }

  /** Steps of a run, from its start to its end. */
  predicate RunStep(step: Step) { step.Begin? || step.ReadPage? || step.Commit? || step.PutAgain? || step.End? }

  lemma RunStepKeeps(s: State, step: Step)
    requires Inv(s) && Enabled(s, step) && RunStep(step)
    ensures Inv(Do(s, step))
  {
  }

  lemma OtherStepKeeps(s: State, step: Step)
    requires Inv(s) && Enabled(s, step) && !RunStep(step)
    ensures Inv(Do(s, step))
  {
  }

  lemma StepKeeps(s: State, step: Step)
    requires Inv(s) && Enabled(s, step)
    ensures Inv(Do(s, step))
  {
    if RunStep(step) { RunStepKeeps(s, step); } else { OtherStepKeeps(s, step); }
  }

  lemma {:induction false} RunKeeps(s: State, steps: seq<Step>)
    requires Inv(s) && Possible(s, steps)
    ensures Inv(After(s, steps))
    decreases |steps|
  {
    if steps != [] {
      StepKeeps(s, steps[0]);
      RunKeeps(Do(s, steps[0]), steps[1..]);
    }
  }

  /**
   * Whatever crashes, requests, corrections and deletions come in between: a page is begun at most twice per request (aborted
   * runs aside), a queued job has an attempt left, and a running one is at its first or second.
   */
  lemma AtMostTwoStarts(s: State, steps: seq<Step>)
    requires Imported(s) && Possible(s, steps)
    ensures var e := After(s, steps);
      && e.starts <= 2
      && (e.stored.Some? && e.stored.value.state == Queued ==> e.stored.value.attempts < 2)
      && (e.stored.Some? && e.stored.value.state == Running ==> 1 <= e.stored.value.attempts <= 2)
  {
    RunKeeps(s, steps);
  }

  /** Neither the worker nor a correction holds a copy of the job that it could still write. */
  predicate HoldsNothing(s: State) {
    s.corrections == {} && (s.worker.Off? || s.worker.Loaded? || s.worker.Waiting? || s.worker.Failing? || s.worker.Marking?)
  }

  predicate Resting(s: State) { HoldsNothing(s) && (s.stored.Some? ==> s.stored.value.state == Failed || s.stored.value.state == Done) }

  predicate NoRequest(steps: seq<Step>) { forall i :: 0 <= i < |steps| ==> !steps[i].Request? }

  /** A job that failed or is done is left alone until the page is asked for again. */
  lemma {:induction false} RestsUntilAsked(s: State, steps: seq<Step>)
    requires Resting(s) && Possible(s, steps) && NoRequest(steps)
    ensures var e := After(s, steps); Resting(e) && (e.stored == s.stored || e.stored == None) && e.starts == s.starts
    decreases |steps|
  {
    if steps != [] {
      assert !steps[0].Request?;
      RestsUntilAsked(Do(s, steps[0]), steps[1..]);
    }
  }

  /** A page whose runs both crash ends as a crash loop, and a page still waiting for its text becomes unreadable. */
  lemma TwoCrashesEndTheJob(s: State, t1: int, t2: int, t3: int, t4: int)
    requires s.worker.Waiting? && s.stored.Some? && s.stored.value.state == Queued && s.stored.value.attempts == 0
    ensures var e := CrashedTwice(s, t1, t2, t3, t4);
      && Resting(e) && e.stored.Some? && e.stored.value.state == Failed && e.stored.value.error == Some("crash_loop")
      && e.page == PageAfterFailure(s.page, true)
  {
    var second := Restarted(Do(Do(s, Pick), Begin(t1)), t2);
    var last := Restarted(Do(Do(second, Pick), Begin(t3)), t4);
    assert last.worker == Failing(true) && last.page == s.page;
  }

  /** A crash, a new tab and its recovery. */
  function Restarted(s: State, now: int): State
    requires s.stored.Some? && s.stored.value.state == Running
  {
    Do(Do(Do(Do(s, Crash), OpenTab), ReadForRecovery), WriteRecovery(now))
  }

  /** Two runs that crash, each with its recovery, and what recovery does to the page. */
  function CrashedTwice(s: State, t1: int, t2: int, t3: int, t4: int): State
    requires s.worker.Waiting? && s.stored.Some? && s.stored.value.state == Queued && s.stored.value.attempts == 0
  {
    var second := Restarted(Do(Do(s, Pick), Begin(t1)), t2);
    var last := Restarted(Do(Do(second, Pick), Begin(t3)), t4);
    var marked := Do(last, ReadFailed);
    if marked.worker.Marking? then Do(marked, WriteFailed) else marked
  }

  // ---------- new requests ----------

  /** Steps that ask again, take the job away, or correct the page. */
  predicate Disturbs(step: Step) { step.Request? || step.CorrectPage? || step.Delete? || (step.End? && step.outcome.SourceRemoved?) }

  predicate Undisturbed(steps: seq<Step>) { forall i :: 0 <= i < |steps| ==> !Disturbs(steps[i]) }

  /** A run of the job under this generation begins on the way. */
  predicate BeginsOn(s: State, steps: seq<Step>, generation: int)
    requires Possible(s, steps)
    decreases |steps|
  {
    steps != []
    && ((steps[0].Begin? && s.worker.seen.generation == generation) || BeginsOn(Do(s, steps[0]), steps[1..], generation))
  }

  /** The request of this generation is stored, and still queued unless a run has begun for it. */
  predicate Served(stored: Option<Job>, generation: int, begun: bool) {
    IsCurrent(stored, generation) && (stored.value.state == Queued || begun)
  }

  /** An undisturbed run after which the request is gone, or over without ever having been begun: its caller is never answered. */
  ghost predicate CanGoUnserved(s: State, generation: int) {
    exists steps :: Possible(s, steps) && Undisturbed(steps) && !Served(After(s, steps).stored, generation, BeginsOn(s, steps, generation))
  }

  /** Nothing is held that could write over the request, or end it before a run has begun for it. */
  predicate Clear(s: State, generation: int, begun: bool) {
    && Served(s.stored, generation, begun)
    && s.corrections == {} && s.unread == 0
    && (s.worker.Picked? ==> s.worker.seen.generation == generation)
    && (s.worker.Recovering? ==> s.worker.seen.generation == generation && begun)
    && (s.worker.Writing? ==> s.worker.result.generation == generation && (begun || s.worker.result.state == Queued))
    && (InRun(s.worker) && s.worker.job.generation == generation ==> begun)
  }

  lemma {:induction false} ClearIsServed(s: State, steps: seq<Step>, generation: int, begun: bool)
    requires Possible(s, steps) && Undisturbed(steps) && Inv(s) && Clear(s, generation, begun)
    ensures Served(After(s, steps).stored, generation, begun || BeginsOn(s, steps, generation))
    decreases |steps|
  {
    if steps != [] {
      assert !Disturbs(steps[0]);
      StepKeeps(s, steps[0]);
      var now := begun || (steps[0].Begin? && s.worker.seen.generation == generation);
      ClearStays(s, steps[0], generation, begun);
      ClearIsServed(Do(s, steps[0]), steps[1..], generation, now);
    }
  }

  lemma ClearStays(s: State, step: Step, generation: int, begun: bool)
    requires Enabled(s, step) && !Disturbs(step) && Inv(s) && Clear(s, generation, begun)
    ensures Clear(Do(s, step), generation, begun || (step.Begin? && s.worker.seen.generation == generation))
  {
  }

  /** Two steps, none of them the beginning of a run for this request, after which it is not served. */
  lemma TwoStepsLose(s: State, first: Step, second: Step, generation: int)
    requires Enabled(s, first) && Enabled(Do(s, first), second) && !Disturbs(first) && !Disturbs(second) && !first.Begin? && !second.Begin?
    requires !Served(Do(Do(s, first), second).stored, generation, false)
    ensures CanGoUnserved(s, generation)
  {
    var steps := [first, second];
    Prepend(Do(s, first), second, []);
    Prepend(s, first, [second]);
    assert steps == [first] + [second] && [second] == [second] + [];
    assert steps[1..] == [second] && [second][1..] == [];
    assert !BeginsOn(Do(s, first), [second], generation);
    assert !BeginsOn(s, steps, generation);
  }

  lemma OneStepLoses(s: State, step: Step, generation: int)
    requires Enabled(s, step) && !Disturbs(step) && (step.Begin? ==> s.worker.seen.generation != generation)
    requires !Served(Do(s, step).stored, generation, false)
    ensures CanGoUnserved(s, generation)
  {
    var steps := [step];
    Prepend(s, step, []);
    assert steps[1..] == [] && steps == [step] + [];
    assert !BeginsOn(s, steps, generation);
  }

  /**
   * A request is served by every run without another request, correction, deletion or removed source exactly when nothing is
   * held, as it is made, that could write over it or end it unbegun.
   */
  lemma RequestIsServedIff(s: State, now: int)
    requires Inv(s) && Enabled(s, Request(now))
    ensures var asked := Do(s, Request(now)); var generation := asked.stored.value.generation;
      CanGoUnserved(asked, generation) <==> !Clear(asked, generation, false)
  {
    var asked := Do(s, Request(now));
    var generation := asked.stored.value.generation;
    if Clear(asked, generation, false) {
      StepKeeps(s, Request(now));
      forall steps | Possible(asked, steps) && Undisturbed(steps)
        ensures Served(After(asked, steps).stored, generation, BeginsOn(asked, steps, generation))
      {
        ClearIsServed(asked, steps, generation, false);
      }
    } else {
      UnclearIsLost(asked, generation, now);
    }
  }

  lemma UnclearIsLost(asked: State, generation: int, now: int)
    requires Served(asked.stored, generation, false) && !asked.worker.Recovering? && !Clear(asked, generation, false)
    ensures CanGoUnserved(asked, generation)
  {
    if asked.corrections != {} {
      var j :| j in asked.corrections;
      OneStepLoses(asked, CorrectWrite(j, now), generation);
    } else if asked.unread > 0 {
      TwoStepsLose(asked, CorrectRead, CorrectWrite(asked.stored.value, now), generation);
    } else if asked.worker.Picked? {
      OneStepLoses(asked, Begin(now), generation);
    } else if asked.worker.Writing? {
      OneStepLoses(asked, WriteJob, generation);
    } else {
      TwoStepsLose(asked, End(Threw("failed", true, false), now), WriteJob, generation);
    }
  }

  /** All copies of the job, the running one included, were asked for no later than the stored one. */
  predicate CopiesNotNewer(s: State) {
    s.stored.Some?
    && (s.worker.Picked? || s.worker.Recovering? ==> s.worker.seen.generation <= s.stored.value.generation)
    && (s.worker.Writing? ==> s.worker.result.generation <= s.stored.value.generation)
    && (InRun(s.worker) ==> s.worker.job.generation <= s.stored.value.generation)
    && forall j :: j in s.corrections ==> j.generation <= s.stored.value.generation
  }

  /**
   * Where copies are not newer, a request can go unserved exactly when a worker has picked the job or is about to write its
   * result, or a correction holds the job or is still to read it.
   */
  lemma RequestGoesUnservedIff(s: State, now: int)
    requires Inv(s) && Enabled(s, Request(now)) && CopiesNotNewer(s)
    ensures var asked := Do(s, Request(now));
      CanGoUnserved(asked, asked.stored.value.generation) <==> s.worker.Picked? || s.worker.Writing? || s.corrections != {} || s.unread > 0
  {
    RequestIsServedIff(s, now);
  }

  /** A request made while the job runs is not taken for that run: whatever comes of it, unless the source is gone, writes nothing. */
  lemma SupersededRunWritesNothing(s: State, now: int, outcome: Outcome, later: int)
    requires CopiesNotNewer(s) && InRun(s.worker) && Enabled(s, Request(now)) && Enabled(s, End(outcome, later)) && !outcome.SourceRemoved?
    ensures var asked := Do(s, Request(now)); var e := Do(asked, End(outcome, later));
      e.stored == asked.stored && e.stored.value.state == Queued && e.worker.Waiting?
  {
  }

  // ---------- the text of the page ----------

  predicate HasText(s: State) { s.page.Some? && s.page.value.text != "" }

  /** The worker holds a copy of the page that has no text, and may still write it over the stored one. */
  predicate HoldsBlank(w: Worker) { (CanCommit(w) && w.page.text == "") || w.Marking? }

  /** A reading that found no text, or a correction that removes it: the text goes on purpose. */
  predicate Erases(step: Step) { (step.Commit? && step.reading == ImageText("")) || (step.CorrectPage? && step.text == "") }

  predicate ErasesNothing(steps: seq<Step>) { forall i :: 0 <= i < |steps| ==> !Erases(steps[i]) }

  lemma {:induction false} TextStays(s: State, steps: seq<Step>)
    requires Inv(s) && HasText(s) && !HoldsBlank(s.worker) && Possible(s, steps) && ErasesNothing(steps)
    ensures HasText(After(s, steps))
    decreases |steps|
  {
    if steps != [] {
      assert !Erases(steps[0]);
      StepKeeps(s, steps[0]);
      TextStays(Do(s, steps[0]), steps[1..]);
    }
  }

  /** A run in which nothing is erased on purpose, and yet the page ends without text. */
  ghost predicate TextCanBeLost(s: State) {
    exists steps :: Possible(s, steps) && ErasesNothing(steps) && !HasText(After(s, steps))
  }

  lemma OneStepErases(s: State, step: Step)
    requires Enabled(s, step) && !Erases(step) && !HasText(Do(s, step))
    ensures TextCanBeLost(s)
  {
    var steps := [step];
    assert steps[1..] == [] && Possible(Do(s, step), []);
    assert After(s, steps) == After(Do(s, step), []) == Do(s, step);
  }

  /**
   * The text of a page can be lost, nothing being erased on purpose, exactly when the worker holds an older copy of the page
   * without text: read before a run that is still to write it, or about to be marked unreadable.
   */
  lemma TextIsLostIff(s: State)
    requires Inv(s) && HasText(s)
    ensures TextCanBeLost(s) <==> HoldsBlank(s.worker)
  {
    if HoldsBlank(s.worker) {
      OneStepErases(s, if s.worker.Marking? then WriteFailed else Commit(HandedOver));
    } else {
      forall steps | Possible(s, steps) && ErasesNothing(steps) ensures HasText(After(s, steps)) { TextStays(s, steps); }
    }
  }

  /** A correction keeps a text in the page, over all runs in which nothing is erased, exactly when no such copy is held as it lands. */
  lemma CorrectionIsLostIff(s: State, text: string)
    requires Inv(s) && Enabled(s, CorrectPage(text)) && text != ""
    ensures TextCanBeLost(Do(s, CorrectPage(text))) <==> HoldsBlank(s.worker)
  {
    StepKeeps(s, CorrectPage(text));
    TextIsLostIff(Do(s, CorrectPage(text)));
  }

  // ---------- corrections ----------

  predicate HasPage(s: State, text: string) { s.page == Some(Page(Available, text)) }

  /** The worker is about to write the page without reading it again. */
  predicate HoldsOther(w: Worker, text: string) {
    CanCommit(w) || w.Marking? || (w.HasCommitted? && w.again.Some? && w.again != Some(Page(Available, text)))
  }

  /** Steps that do not read the page for a run, and correct nothing. */
  predicate ReadsNothing(step: Step) { !step.ReadPage? && !step.CorrectPage? }

  /** Steps that neither ask for the page nor correct it. */
  predicate AsksNothing(step: Step) { !step.Request? && !step.CorrectPage? }

  /** A run of the allowed steps after which the page is not exactly this text any more. */
  ghost predicate CanBeReplaced(s: State, text: string, allowed: Step -> bool) {
    exists steps :: Possible(s, steps) && (forall i :: 0 <= i < |steps| ==> allowed(steps[i])) && !HasPage(After(s, steps), text)
  }

  lemma ReplacedNow(s: State, text: string, allowed: Step -> bool)
    requires !HasPage(s, text)
    ensures CanBeReplaced(s, text, allowed)
  {
    var steps: seq<Step> := [];
    assert Possible(s, steps) && After(s, steps) == s;
  }

  lemma ReplacedLater(s: State, step: Step, text: string, allowed: Step -> bool)
    requires Enabled(s, step) && allowed(step) && CanBeReplaced(Do(s, step), text, allowed)
    ensures CanBeReplaced(s, text, allowed)
  {
    var rest :| Possible(Do(s, step), rest) && (forall i :: 0 <= i < |rest| ==> allowed(rest[i])) && !HasPage(After(Do(s, step), rest), text);
    Prepend(s, step, rest);
    assert forall i :: 0 <= i < |[step] + rest| ==> allowed(([step] + rest)[i]);
  }

  lemma HeldIsWritten(s: State, text: string, allowed: Step -> bool)
    requires Inv(s) && HoldsOther(s.worker, text)
    requires forall step: Step :: step.Commit? || step.PutAgain? || step.WriteFailed? ==> allowed(step)
    ensures CanBeReplaced(s, text, allowed)
  {
    var step := if s.worker.Marking? then WriteFailed else if s.worker.HasRead? then Commit(ImageText(text + "?")) else PutAgain;
    ReplacedNow(Do(s, step), text, allowed);
    ReplacedLater(s, step, text, allowed);
  }

  lemma {:induction false} CorrectedStays(s: State, steps: seq<Step>, text: string)
    requires Possible(s, steps) && (forall i :: 0 <= i < |steps| ==> ReadsNothing(steps[i])) && HasPage(s, text) && !HoldsOther(s.worker, text)
    ensures HasPage(After(s, steps), text)
    decreases |steps|
  {
    if steps != [] {
      assert ReadsNothing(steps[0]);
      CorrectedStays(Do(s, steps[0]), steps[1..], text);
    }
  }

  /**
   * Over all runs in which no run reads the page after a correction and nothing else is corrected, the page stays exactly as
   * corrected unless, as the correction lands, a run has read the page and is still to write it, a run is to write another text
   * once more with its image, or the page has been read to be marked unreadable.
   */
  lemma CorrectionIsReplacedIff(s: State, text: string)
    requires Inv(s) && Enabled(s, CorrectPage(text))
    ensures CanBeReplaced(Do(s, CorrectPage(text)), text, ReadsNothing) <==> HoldsOther(s.worker, text)
  {
    var corrected := Do(s, CorrectPage(text));
    StepKeeps(s, CorrectPage(text));
    if HoldsOther(s.worker, text) {
      HeldIsWritten(corrected, text, ReadsNothing);
    } else {
      forall steps | Possible(corrected, steps) && (forall i :: 0 <= i < |steps| ==> ReadsNothing(steps[i]))
        ensures HasPage(After(corrected, steps), text)
      {
        CorrectedStays(corrected, steps, text);
      }
    }
  }

  /** A job asked for explicitly that recovery or the queue will run again. */
  predicate RunsAgain(job: Job) {
    job.stage == Reprocess && (job.state == Queued || (job.state == Running && job.attempts < MAX_JOB_ATTEMPTS))
  }

  /** The generation is stored, or may be stored again by a correction. */
  predicate CanBeCurrent(s: State, generation: int) {
    IsCurrent(s.stored, generation) || exists j :: j in s.corrections && j.generation == generation
  }

  /** A run that was asked for explicitly may still read the page. */
  predicate MayReadAgain(s: State) {
    || (s.stored.Some? && RunsAgain(s.stored.value))
    || ((s.worker.Recovering? || s.worker.Picked?) && RunsAgain(s.worker.seen))
    || (s.worker.Writing? && RunsAgain(s.worker.result))
    || (s.worker.Started? && s.worker.job.stage == Reprocess)
    || (InRun(s.worker) && s.worker.job.stage == Reprocess && CanBeCurrent(s, s.worker.job.generation))
  }

  lemma StartedReplaces(s: State, text: string)
    requires Inv(s) && HasPage(s, text) && s.worker.Started? && s.worker.job.stage == Reprocess
    ensures CanBeReplaced(s, text, AsksNothing)
  {
    StepKeeps(s, ReadPage);
    HeldIsWritten(Do(s, ReadPage), text, AsksNothing);
    ReplacedLater(s, ReadPage, text, AsksNothing);
  }

  lemma PickedReplaces(s: State, text: string)
    requires Inv(s) && HasPage(s, text) && s.worker.Picked? && s.worker.seen.stage == Reprocess
    ensures CanBeReplaced(s, text, AsksNothing)
  {
    StepKeeps(s, Begin(0));
    StartedReplaces(Do(s, Begin(0)), text);
    ReplacedLater(s, Begin(0), text, AsksNothing);
  }

  lemma QueuedReplaces(s: State, text: string)
    requires Inv(s) && HasPage(s, text) && s.worker.Waiting? && s.stored.Some? && s.stored.value.state == Queued && s.stored.value.stage == Reprocess
    ensures CanBeReplaced(s, text, AsksNothing)
  {
    StepKeeps(s, Pick);
    PickedReplaces(Do(s, Pick), text);
    ReplacedLater(s, Pick, text, AsksNothing);
  }

  lemma RecoveredReplaces(s: State, text: string)
    requires Inv(s) && HasPage(s, text) && s.worker.Recovering? && RunsAgain(s.worker.seen)
    ensures CanBeReplaced(s, text, AsksNothing)
  {
    StepKeeps(s, WriteRecovery(0));
    QueuedReplaces(Do(s, WriteRecovery(0)), text);
    ReplacedLater(s, WriteRecovery(0), text, AsksNothing);
  }

  /** After a crash and a new tab the stored job is run. */
  lemma StoredReplaces(s: State, text: string)
    requires Inv(s) && HasPage(s, text) && s.stored.Some? && RunsAgain(s.stored.value)
    ensures CanBeReplaced(s, text, AsksNothing)
  {
    var off := Do(s, Crash);
    StepKeeps(s, Crash);
    var loaded := Do(off, OpenTab);
    StepKeeps(off, OpenTab);
    StepKeeps(loaded, ReadForRecovery);
    var found := Do(loaded, ReadForRecovery);
    if found.worker.Waiting? { QueuedReplaces(found, text); } else { RecoveredReplaces(found, text); }
    ReplacedLater(loaded, ReadForRecovery, text, AsksNothing);
    ReplacedLater(off, OpenTab, text, AsksNothing);
    ReplacedLater(s, Crash, text, AsksNothing);
  }

  lemma WritingReplaces(s: State, text: string)
    requires Inv(s) && HasPage(s, text) && s.worker.Writing? && RunsAgain(s.worker.result)
    ensures CanBeReplaced(s, text, AsksNothing)
  {
    StepKeeps(s, WriteJob);
    QueuedReplaces(Do(s, WriteJob), text);
    ReplacedLater(s, WriteJob, text, AsksNothing);
  }

  /** A run that is aborted queues its job again, if its generation is the stored one. */
  lemma AbortedReplaces(s: State, text: string)
    requires Inv(s) && HasPage(s, text) && InRun(s.worker) && s.worker.job.stage == Reprocess && IsCurrent(s.stored, s.worker.job.generation)
    ensures CanBeReplaced(s, text, AsksNothing)
  {
    StepKeeps(s, End(Aborted(true), 0));
    WritingReplaces(Do(s, End(Aborted(true), 0)), text);
    ReplacedLater(s, End(Aborted(true), 0), text, AsksNothing);
  }

  lemma MayReadReplaces(s: State, text: string)
    requires Inv(s) && HasPage(s, text) && MayReadAgain(s)
    ensures CanBeReplaced(s, text, AsksNothing)
  {
    if s.stored.Some? && RunsAgain(s.stored.value) {
      StoredReplaces(s, text);
    } else if s.worker.Recovering? {
      RecoveredReplaces(s, text);
    } else if s.worker.Picked? {
      PickedReplaces(s, text);
    } else if s.worker.Writing? {
      WritingReplaces(s, text);
    } else if s.worker.Started? {
      StartedReplaces(s, text);
    } else if IsCurrent(s.stored, s.worker.job.generation) {
      AbortedReplaces(s, text);
    } else {
      var j :| j in s.corrections && j.generation == s.worker.job.generation;
      StepKeeps(s, CorrectWrite(j, 0));
      AbortedReplaces(Do(s, CorrectWrite(j, 0)), text);
      ReplacedLater(s, CorrectWrite(j, 0), text, AsksNothing);
    }
  }

  lemma NoRunReads(s: State, step: Step, text: string)
    requires Inv(s) && Enabled(s, step) && AsksNothing(step) && HasPage(s, text) && !HoldsOther(s.worker, text) && !MayReadAgain(s)
    ensures HasPage(Do(s, step), text) && !HoldsOther(Do(s, step).worker, text) && !MayReadAgain(Do(s, step))
  {
  }

  lemma {:induction false} NoRunReplaces(s: State, steps: seq<Step>, text: string)
    requires Inv(s) && Possible(s, steps) && (forall i :: 0 <= i < |steps| ==> AsksNothing(steps[i]))
    requires HasPage(s, text) && !HoldsOther(s.worker, text) && !MayReadAgain(s)
    ensures HasPage(After(s, steps), text)
    decreases |steps|
  {
    if steps != [] {
      assert AsksNothing(steps[0]);
      StepKeeps(s, steps[0]);
      NoRunReads(s, steps[0], text);
      NoRunReplaces(Do(s, steps[0]), steps[1..], text);
    }
  }

  /**
   * Over all runs without a new request or another correction, later readings of the page included, a correction can be replaced
   * exactly when its page may be written without being read again, or a run asked for before it may still read the page: runs
   * nobody asked for leave it alone.
   */
  lemma CorrectionIsReadAgainIff(s: State, text: string)
    requires Inv(s) && Enabled(s, CorrectPage(text))
    ensures CanBeReplaced(Do(s, CorrectPage(text)), text, AsksNothing) <==> HoldsOther(s.worker, text) || MayReadAgain(s)
  {
    var corrected := Do(s, CorrectPage(text));
    StepKeeps(s, CorrectPage(text));
    if HoldsOther(s.worker, text) {
      HeldIsWritten(corrected, text, AsksNothing);
    } else if MayReadAgain(s) {
      MayReadReplaces(corrected, text);
    } else {
      forall steps | Possible(corrected, steps) && (forall i :: 0 <= i < |steps| ==> AsksNothing(steps[i]))
        ensures HasPage(After(corrected, steps), text)
      {
        NoRunReplaces(corrected, steps, text);
      }
    }
  }

  /** A pending page whose last attempt fails: corrected after it was read to be marked, it loses the correction. */
  lemma CorrectionCanBeOverwritten(job: Job, text: string, now: int)
    requires job.state == Queued && job.attempts == 1 && text != ""
    ensures var s := State(Some(job), Some(Page(Pending, "")), Waiting, 0, {}, 1);
      var steps := [Pick, Begin(now), ReadPage, End(Threw("failed", false, false), now), WriteJob, ReadFailed, CorrectPage(text), WriteFailed];
      Possible(s, steps) && After(s, steps).page == Some(Page(Unreadable, ""))
  {
    var s := State(Some(job), Some(Page(Pending, "")), Waiting, 0, {}, 1);
    var fails := End(Threw("failed", false, false), now);
    var s3 := Do(Do(Do(s, Pick), Begin(now)), ReadPage);
    FailureLate(s3, text, now);
    var late := [fails, WriteJob, ReadFailed, CorrectPage(text), WriteFailed];
    Prepend(Do(Do(s, Pick), Begin(now)), ReadPage, late);
    Prepend(Do(s, Pick), Begin(now), [ReadPage] + late);
    Prepend(s, Pick, [Begin(now), ReadPage] + late);
    assert [Pick] + ([Begin(now), ReadPage] + late) == [Pick, Begin(now), ReadPage, fails, WriteJob, ReadFailed, CorrectPage(text), WriteFailed];
    assert [Begin(now)] + ([ReadPage] + late) == [Begin(now), ReadPage] + late;
  }

  /** From the run's end on. */
  lemma FailureLate(s: State, text: string, now: int)
    requires s.worker.HasRead? && s.worker.job.attempts == 2 && IsCurrent(s.stored, s.worker.job.generation) && s.page == Some(Page(Pending, ""))
    ensures var steps := [End(Threw("failed", false, false), now), WriteJob, ReadFailed, CorrectPage(text), WriteFailed];
      Possible(s, steps) && After(s, steps).page == Some(Page(Unreadable, ""))
  {
    var fails := End(Threw("failed", false, false), now);
    var s6 := Do(Do(Do(s, fails), WriteJob), ReadFailed);
    assert s6.worker == Marking(Page(Unreadable, ""));
    Prepend(Do(s6, CorrectPage(text)), WriteFailed, []);
    Prepend(s6, CorrectPage(text), [WriteFailed]);
    Prepend(Do(Do(s, fails), WriteJob), ReadFailed, [CorrectPage(text), WriteFailed]);
    Prepend(Do(s, fails), WriteJob, [ReadFailed, CorrectPage(text), WriteFailed]);
    Prepend(s, fails, [WriteJob, ReadFailed, CorrectPage(text), WriteFailed]);
  }

  lemma Prepend(s: State, step: Step, rest: seq<Step>)
    requires Enabled(s, step) && Possible(Do(s, step), rest)
    ensures Possible(s, [step] + rest) && After(s, [step] + rest) == After(Do(s, step), rest)
  {
    assert ([step] + rest)[1..] == rest;
  }

  // ---------- as it runs ----------

  /** The steps of the worker alone, one after the other, until it waits or its run goes on. */
  function Settled(s: State, now: int): State
    decreases if s.worker.Loaded? then 5 else if s.worker.Recovering? then 4 else if s.worker.Writing? then 3 else if s.worker.Failing? then 2 else if s.worker.Marking? then 1 else 0
  {
    match s.worker
    case Loaded => Settled(Do(s, ReadForRecovery), now)
    case Recovering(_) => Settled(Do(s, WriteRecovery(now)), now)
    case Writing(_) => Settled(Do(s, WriteJob), now)
    case Failing(_) => Settled(Do(s, ReadFailed), now)
    case Marking(_) => Settled(Do(s, WriteFailed), now)
    case _ => s
  }

  lemma EndSettles(s: State, outcome: Outcome, now: int)
    requires InRun(s.worker) && s.starts == 0 && Enabled(s, End(outcome, now)) && !outcome.SourceRemoved?
    ensures var result := AfterRun(s.worker.job, outcome, now); var e := Settled(Do(s, End(outcome, now)), now);
      if result.Some? && IsCurrent(s.stored, s.worker.job.generation) then
        e == s.(stored := result, page := if result.value.state == Failed then PageAfterFailure(s.page, false) else s.page, worker := Waiting)
      else e == s.(worker := Waiting)
  {
    var ended := Do(s, End(outcome, now));
    if ended.worker.Writing? {
      var written := Do(ended, WriteJob);
      if written.worker.Failing? { FailureSettles(written, now); }
    }
  }

  /** A page that could not be read: an available one stays, a missing one is made, any other is marked. */
  predicate IsMarked(before: Option<Page>, after: Option<Page>) {
    match before
    case None => after == Some(Page(Unreadable, ""))
    case Some(p) => after == Some(if p.status == Available then p else Page(Unreadable, p.text))
  }

  /** What the end of a run leaves of its job and page, if the job is still the one it began. */
  predicate IsEndOf(job: Job, page: Option<Page>, outcome: Outcome, now: int, left: Option<Job>, pageLeft: Option<Page>) {
    match outcome
    case Succeeded => left == Some(Job(job.stage, Done, 0, None, 0, job.generation, now)) && pageLeft == page
    case SourceRemoved => left == None && pageLeft == page
    case Aborted(_) => // as if the run had not begun
      left == Some(Job(job.stage, Queued, if job.attempts == 0 then 0 else job.attempts - 1, job.error, job.priority, job.generation, now)) && pageLeft == page
    case Threw(code, permanent, keepPage) =>
      if keepPage then left == Some(Job(job.stage, Done, 0, Some(code), 0, job.generation, now)) && pageLeft == page
      else if permanent || job.attempts >= 2 then left == Some(Job(job.stage, Failed, job.attempts, Some(code), 0, job.generation, now)) && IsMarked(page, pageLeft)
      else left == Some(Job(job.stage, Queued, job.attempts, Some(code), job.priority, job.generation, now)) && pageLeft == page
  }

  /** A run whose document is gone leaves nothing; one whose job was asked for again, or is gone, leaves job and page as they are. */
  lemma RunEndsAs(s: State, outcome: Outcome, now: int)
    requires InRun(s.worker) && s.starts == 0 && Enabled(s, End(outcome, now))
    ensures var job := s.worker.job; var e := Settled(Do(s, End(outcome, now)), now);
      && e.worker.Waiting?
      && (outcome.SourceRemoved? || (IsCurrent(s.stored, job.generation) && outcome != Aborted(false)) ==> IsEndOf(job, s.page, outcome, now, e.stored, e.page))
      && ((!outcome.SourceRemoved? && !IsCurrent(s.stored, job.generation)) || outcome == Aborted(false) ==> e.stored == s.stored && e.page == s.page)
  {
    if !outcome.SourceRemoved? { EndSettles(s, outcome, now); }
  }

  /** A job written as failed: its page is marked. */
  lemma FailureSettles(s: State, now: int)
    requires s.worker.Failing?
    ensures Settled(s, now) == s.(page := PageAfterFailure(s.page, s.worker.recovery), worker := Waiting)
  {
    var read := Do(s, ReadFailed);
    if read.worker.Marking? { assert Settled(read, now) == Do(read, WriteFailed); }
  }

  lemma RecoverySettles(s: State, now: int)
    requires s.worker.Loaded?
    ensures Settled(s, now) ==
      if s.stored.Some? && s.stored.value.state == Running then
        s.(stored := Some(Recovered(s.stored.value, now)), page := PageAfterRecovery(s.page, s.stored.value, now), worker := Waiting)
      else s.(worker := Waiting)
  {
    var found := Do(s, ReadForRecovery);
    if found.worker.Recovering? {
      var written := Do(found, WriteRecovery(now));
      assert Settled(found, now) == Settled(written, now);
      if written.worker.Failing? { FailureSettles(written, now); }
    } else {
      assert Settled(found, now) == found;
    }
  }

  datatype JobKey = JobKey(documentId: string, pageIndex: nat)

  /** The jobs and pages of the device. */
  class JobStore {
    var jobs: map<JobKey, Job>
    var pages: map<JobKey, Page>

    constructor ()
      ensures Valid() && jobs == map[] && pages == map[]
    {
      jobs, pages := map[], map[];
    }

    /** Every job has the attempts its state allows. */
    ghost predicate Valid()
      reads this
    {
      forall k :: k in jobs ==> AttemptsOk(jobs[k])
    }

    /** The machine of one page, with this worker and nothing in between. */
    function View(k: JobKey, w: Worker): State
      reads this
    {
      State(if k in jobs then Some(jobs[k]) else None, PageOf(k), w, 0, {}, 0)
    }

    function PageOf(k: JobKey): Option<Page>
      reads this
    {
      if k in pages then Some(pages[k]) else None
    }

    /** Recovery does for every page what the machine does in a new tab, and leaves no job running. */
    method DoRecover(now: int)
      requires Valid()
      modifies this
      ensures Valid() && jobs.Keys == old(jobs).Keys
      ensures forall k :: View(k, Waiting) == Settled(old(View(k, Loaded)), now)
      ensures forall k :: k in jobs ==> jobs[k].state != Running
    {
      var running := set k | k in jobs && jobs[k].state == Running;
      var rest := running;
      while rest != {}
        invariant rest <= running && jobs.Keys == old(jobs).Keys
        invariant forall k :: k in old(jobs) ==> k in jobs && jobs[k] == if k in running && k !in rest then Recovered(old(jobs)[k], now) else old(jobs)[k]
        invariant forall k :: k in running && k !in rest ==> PageOf(k) == PageAfterRecovery(old(PageOf(k)), old(jobs)[k], now)
        invariant forall k :: k !in running || k in rest ==> PageOf(k) == old(PageOf(k))
        decreases rest
      {
        var k :| k in rest;
        RecoverOne(k, now);
        rest := rest - {k};
      }
      forall k ensures View(k, Waiting) == Settled(old(View(k, Loaded)), now) { RecoverySettles(old(View(k, Loaded)), now); }
    }

    method RecoverOne(k: JobKey, now: int)
      requires k in jobs && jobs[k].state == Running
      modifies this
      ensures jobs == old(jobs)[k := Recovered(old(jobs)[k], now)]
      ensures PageOf(k) == PageAfterRecovery(old(PageOf(k)), old(jobs)[k], now)
      ensures forall x :: x != k ==> PageOf(x) == old(PageOf(x))
    {
      var job := jobs[k];
      if job.attempts >= MAX_JOB_ATTEMPTS {
        jobs := jobs[k := job.(state := Failed, error := Some("crash_loop"), updatedAt := now)];
        if k in pages && pages[k].status != Available { pages := pages[k := pages[k].(status := Unreadable)]; }
      } else {
        jobs := jobs[k := job.(state := Queued, updatedAt := now)];
      }
    }

    /** An explicit request: whatever the job was, it is queued with all its attempts, and later than before. */
    method EnqueueExplicit(k: JobKey, now: int)
      requires Valid()
      modifies this`jobs
      ensures Valid() && View(k, Waiting) == Do(old(View(k, Waiting)), Request(now)) && jobs - {k} == old(jobs) - {k}
      ensures k in jobs && jobs[k].state == Queued && jobs[k].attempts == 0 && jobs[k].error == None && jobs[k].priority == REPROCESS_PRIORITY
      ensures jobs[k].generation >= now && (k in old(jobs) ==> jobs[k].generation > old(jobs)[k].generation)
    {
      var job := if k in jobs then jobs[k] else NewJob(now);
      var generation := if now > job.generation + 1 then now else job.generation + 1;
      jobs := jobs[k := Job(Reprocess, Queued, 0, None, REPROCESS_PRIORITY, generation, now)];
      assert jobs - {k} == old(jobs) - {k};
    }

    /** Writes the job unless an explicit request replaced it. */
    method PutJobIfCurrent(k: JobKey, job: Job, generation: int) returns (written: bool)
      requires Valid() && AttemptsOk(job)
      modifies this`jobs
      ensures Valid()
      ensures written <==> k in old(jobs) && old(jobs)[k].generation == generation
      ensures jobs == if written then old(jobs)[k := job] else old(jobs)
    {
      if k !in jobs || jobs[k].generation != generation { return false; }
      jobs := jobs[k := job];
      written := true;
    }

    /** The end of a run does what the machine does when nothing comes between its steps, and touches no other page. */
    method EndJob(k: JobKey, job: Job, outcome: Outcome, now: int)
      requires Valid() && AttemptsOk(job) && job.state == Running
      modifies this
      ensures Valid()
      ensures forall w: Worker :: InRun(w) && w.job == job && Enabled(old(View(k, w)), End(outcome, now)) ==>
        View(k, Waiting) == Settled(Do(old(View(k, w)), End(outcome, now)), now)
      ensures outcome.SourceRemoved? || (IsCurrent(old(View(k, Waiting)).stored, job.generation) && outcome != Aborted(false)) ==>
        IsEndOf(job, old(PageOf(k)), outcome, now, View(k, Waiting).stored, PageOf(k))
      ensures jobs - {k} == old(jobs) - {k} && forall x :: x != k ==> PageOf(x) == old(PageOf(x))
    {
      match outcome
      case SourceRemoved => jobs := jobs - {k};
      case Succeeded =>
        var done := job.(state := Done, priority := 0, attempts := 0, error := None, updatedAt := now);
        var written := PutJobIfCurrent(k, done, job.generation);
      case Aborted(there) =>
        if there {
          var counted: int := job.attempts - 1;
          var queued := job.(state := Queued, attempts := if counted > 0 then counted else 0, updatedAt := now);
          var written := PutJobIfCurrent(k, queued, job.generation);
        }
      case Threw(code, permanent, keepPage) => HandleFailure(k, job, code, permanent, keepPage, now);
      assert jobs - {k} == old(jobs) - {k};
      RunEndsAs(old(View(k, if outcome.SourceRemoved? then Started(job) else HasCommitted(job, None))), outcome, now);
      if !outcome.SourceRemoved? {
        forall w: Worker | InRun(w) && w.job == job && Enabled(old(View(k, w)), End(outcome, now))
          ensures View(k, Waiting) == Settled(Do(old(View(k, w)), End(outcome, now)), now)
        {
          EndSettles(old(View(k, w)), outcome, now);
        }
      }
    }

    method HandleFailure(k: JobKey, job: Job, code: string, permanent: bool, keepPage: bool, now: int)
      requires Valid() && AttemptsOk(job) && job.state == Running
      modifies this
      ensures Valid()
      ensures var result := AfterRun(job, Threw(code, permanent, keepPage), now).value;
        var current := k in old(jobs) && old(jobs)[k].generation == job.generation;
        && jobs == (if current then old(jobs)[k := result] else old(jobs))
        && PageOf(k) == (if current && result.state == Failed then PageAfterFailure(old(PageOf(k)), false) else old(PageOf(k)))
        && (!current ==> pages == old(pages))
      ensures forall x :: x != k ==> PageOf(x) == old(PageOf(x))
    {
      if keepPage {
        var kept := job.(state := Done, priority := 0, attempts := 0, error := Some(code), updatedAt := now);
        var written := PutJobIfCurrent(k, kept, job.generation);
        return;
      }
      if !permanent && job.attempts < MAX_JOB_ATTEMPTS {
        var retry := job.(state := Queued, error := Some(code), updatedAt := now);
        var written := PutJobIfCurrent(k, retry, job.generation);
        return;
      }
      var failed := job.(state := Failed, error := Some(code), priority := 0, updatedAt := now);
      var written := PutJobIfCurrent(k, failed, job.generation);
      if !written { return; }
      if k !in pages {
        pages := pages[k := Page(Unreadable, "")];
      } else if pages[k].status != Available {
        pages := pages[k := pages[k].(status := Unreadable)];
      }
    }
  }
}
