/**
 * Starting an event-loop thread (src/thread/thread.cpp, src/thread/eventThread.cpp) as interleaved
 * steps of the creating thread and the new thread.  A critical section is one step, taken when its
 * mutex is free; a wait releases the mutex and sleeps until a notify, or wakes by itself
 * (spuriously).  The new thread keeps the base-class mutex from the moment its wait is over.
 */
module ThreadStart {
  import opened Wrappers

  /** The thread that creates the object, starts it and asks for its loop. */
  datatype Creator =
    | Created          // the constructor has returned, start() comes next
    | Started          // start() has returned, getEventLoopInThread() comes next
    | AsleepForLoop    // in condition.wait, mutex released
    | WokenForLoop     // notified or spuriously woken, about to take the mutex again
    | Returned(loop: Option<nat>)

  /** The new thread. */
  datatype Worker =
    | Begun            // beginRun before its critical section
    | AsleepForStart
    | WokenForStart
    | InRun            // the loop object exists on this thread's stack, not published
    | Looping          // published and running

  datatype State = State(started: bool, loop: Option<nat>, creator: Creator, worker: Worker)

  datatype Step =
    | Start            // start(): set the flag and notify
    | CheckStarted     // beginRun: the while test, at first or after a wake-up
    | Publish(id: nat) // run(): store the loop and notify
    | CheckLoop        // getEventLoopInThread: the if test
    | TakeLoop         // the wait returns and the field is read
    | SpuriousWorker
    | SpuriousCreator

  const INIT := State(false, None, Created, Begun)

  predicate Legal(s: State, step: Step) {
    match step
    case Start => s.creator.Created? // the mutex is free: the worker keeps it only once started
    case CheckStarted => s.worker.Begun? || s.worker.WokenForStart?
    case Publish(_) => s.worker.InRun?
    case CheckLoop => s.creator.Started?
    case TakeLoop => s.creator.WokenForLoop?
    case SpuriousWorker => s.worker.AsleepForStart?
    case SpuriousCreator => s.creator.AsleepForLoop?
  }

  function Next(s: State, step: Step): State
    requires Legal(s, step)
  {
    match step
    case Start =>
      s.(started := true, creator := Started,
         worker := if s.worker.AsleepForStart? then WokenForStart else s.worker)
    case CheckStarted => s.(worker := if s.started then InRun else AsleepForStart)
    case Publish(id) =>
      s.(loop := Some(id), worker := Looping,
         creator := if s.creator.AsleepForLoop? then WokenForLoop else s.creator)
    case CheckLoop => s.(creator := if s.loop.None? then AsleepForLoop else Returned(s.loop))
    case TakeLoop => s.(creator := Returned(s.loop))
    case SpuriousWorker => s.(worker := WokenForStart)
    case SpuriousCreator => s.(creator := WokenForLoop)
  }

  predicate LegalRun(s: State, steps: seq<Step>)
    decreases |steps|
  {
    steps == [] || (Legal(s, steps[0]) && LegalRun(Next(s, steps[0]), steps[1..]))
  }

  function Run(s: State, steps: seq<Step>): State
    requires LegalRun(s, steps)
    decreases |steps|
  {
    if steps == [] then s else Run(Next(s, steps[0]), steps[1..])
  }

  /** run() begins only after start(); nobody sleeps on a condition that is already true. */
  predicate Safe(s: State) {
    && (s.worker.InRun? || s.worker.Looping? ==> s.started)
    && (s.started <==> !s.creator.Created?)
    && (s.loop.Some? <==> s.worker.Looping?)
    && (s.worker.AsleepForStart? ==> !s.started)
    && (s.creator.AsleepForLoop? ==> s.loop.None?)
    && (s.creator.Returned? && s.creator.loop.Some? ==> s.creator.loop == s.loop)
  }

  lemma {:induction false} SafeHolds(s: State, steps: seq<Step>)
    requires Safe(s) && LegalRun(s, steps)
    ensures Safe(Run(s, steps))
    decreases |steps|
  {
    if steps != [] {
      SafeHolds(Next(s, steps[0]), steps[1..]);
    }
  }

  // ------------------------------------------------------------ what is returned

  /** The creator has not been woken too early, nor taken the field too early. */
  predicate WokenForReason(s: State) {
    s.creator.WokenForLoop? || s.creator.Returned? ==>
      s.loop.Some? && (s.creator.Returned? ==> s.creator.loop == s.loop)
  }

  lemma {:induction false} WokenForReasonHolds(s: State, steps: seq<Step>)
    requires Safe(s) && WokenForReason(s) && LegalRun(s, steps) && SpuriousCreator !in steps
    ensures WokenForReason(Run(s, steps))
    decreases |steps|
  {
    if steps != [] {
      assert steps[0] in steps;
      WokenForReasonHolds(Next(s, steps[0]), steps[1..]);
    }
  }

  /** As long as the creator's own wait does not wake spuriously, the loop that is returned is the
      published one, whatever the wait of the new thread does. */
  lemma LoopIsNotNull(steps: seq<Step>)
    requires LegalRun(INIT, steps) && SpuriousCreator !in steps
    requires Run(INIT, steps).creator.Returned?
    ensures var s := Run(INIT, steps); s.loop.Some? && s.creator.loop == s.loop && s.started
  {
    SafeHolds(INIT, steps);
    WokenForReasonHolds(INIT, steps);
  }

  /** The wait of the creator returns, and the field is read, before anything is published. */
  predicate TakenUnpublished(steps: seq<Step>) {
    exists i :: 0 <= i < |steps| && steps[i].TakeLoop? && NonePublished(steps[..i])
  }

  predicate NonePublished(steps: seq<Step>) {
    forall k :: 0 <= k < |steps| ==> !steps[k].Publish?
  }

  lemma TakenUnpublishedFirst(steps: seq<Step>)
    requires steps != []
    ensures TakenUnpublished(steps) <==>
            !steps[0].Publish? && (steps[0].TakeLoop? || TakenUnpublished(steps[1..]))
  {
    if TakenUnpublished(steps) {
      var i :| 0 <= i < |steps| && steps[i].TakeLoop? && NonePublished(steps[..i]);
      if i > 0 {
        assert !steps[..i][0].Publish? && steps[1..][i - 1].TakeLoop?;
        assert steps[1..][..i - 1] == steps[..i][1..];
      }
    }
    if !steps[0].Publish? && steps[0].TakeLoop? {
      assert NonePublished(steps[..0]);
    } else if !steps[0].Publish? && TakenUnpublished(steps[1..]) {
      var i :| 0 <= i < |steps| - 1 && steps[1..][i].TakeLoop? && NonePublished(steps[1..][..i]);
      assert steps[..i + 1] == [steps[0]] + steps[1..][..i];
      assert steps[i + 1].TakeLoop?;
    }
  }

  lemma {:induction false} NullIff(s: State, steps: seq<Step>)
    requires Safe(s) && LegalRun(s, steps) && Run(s, steps).creator.Returned?
    ensures s.creator.Returned? ==> Run(s, steps).creator == s.creator
    ensures !s.creator.Returned? ==>
              (Run(s, steps).creator.loop.None? <==> s.loop.None? && TakenUnpublished(steps))
    decreases |steps|
  {
    if steps != [] {
      TakenUnpublishedFirst(steps);
      NullIff(Next(s, steps[0]), steps[1..]);
    }
  }

  /**
   * The condition is looked at once, not in a loop.  Of all runs in which getEventLoopInThread has
   * returned, null was returned by exactly those whose wait was over before the loop was published.
   */
  lemma NullIffTakenUnpublished(steps: seq<Step>)
    requires LegalRun(INIT, steps) && Run(INIT, steps).creator.Returned?
    ensures var s := Run(INIT, steps);
            && (s.creator.loop.None? <==> TakenUnpublished(steps))
            && (!TakenUnpublished(steps) ==> s.loop.Some? && s.creator.loop == s.loop)
  {
    SafeHolds(INIT, steps);
    NullIff(INIT, steps);
  }

  /** One spurious wake-up is enough to return null. */
  lemma SpuriousWakeUpReturnsNull()
    ensures var steps := [Start, CheckLoop, SpuriousCreator, TakeLoop];
            LegalRun(INIT, steps) && Run(INIT, steps).creator == Returned(None)
  {
  }

  /** The new thread's wait is in a loop and takes a spurious wake-up; the creator's wait gets away
      with one if the loop is published before the field is read. */
  lemma SpuriousWakeUpsMayPass(id: nat)
    ensures var worker := [CheckStarted, SpuriousWorker, Start, CheckStarted, Publish(id), CheckLoop];
            LegalRun(INIT, worker) && Run(INIT, worker).creator == Returned(Some(id))
    ensures var creator := [Start, CheckLoop, SpuriousCreator, CheckStarted, Publish(id), TakeLoop];
            LegalRun(INIT, creator) && Run(INIT, creator).creator == Returned(Some(id))
  {
    var asleep, woken := State(true, None, WokenForLoop, Begun), State(true, None, Started, WokenForStart);
    ThreeSteps(woken, CheckStarted, Publish(id), CheckLoop, []);
    ThreeSteps(INIT, CheckStarted, SpuriousWorker, Start, [CheckStarted, Publish(id), CheckLoop] + []);
    ThreeSteps(asleep, CheckStarted, Publish(id), TakeLoop, []);
    ThreeSteps(INIT, Start, CheckLoop, SpuriousCreator, [CheckStarted, Publish(id), TakeLoop] + []);
    assert [CheckStarted, SpuriousWorker, Start] + ([CheckStarted, Publish(id), CheckLoop] + [])
        == [CheckStarted, SpuriousWorker, Start, CheckStarted, Publish(id), CheckLoop];
    assert [Start, CheckLoop, SpuriousCreator] + ([CheckStarted, Publish(id), TakeLoop] + [])
        == [Start, CheckLoop, SpuriousCreator, CheckStarted, Publish(id), TakeLoop];
  }

  lemma FirstStep(s: State, step: Step, rest: seq<Step>)
    requires Legal(s, step) && LegalRun(Next(s, step), rest)
    ensures LegalRun(s, [step] + rest) && Run(s, [step] + rest) == Run(Next(s, step), rest)
  {
    assert ([step] + rest)[1..] == rest;
  }

  lemma ThreeSteps(s: State, a: Step, b: Step, c: Step, rest: seq<Step>)
    requires Legal(s, a) && Legal(Next(s, a), b) && Legal(Next(Next(s, a), b), c)
    requires LegalRun(Next(Next(Next(s, a), b), c), rest)
    ensures LegalRun(s, [a, b, c] + rest)
    ensures Run(s, [a, b, c] + rest) == Run(Next(Next(Next(s, a), b), c), rest)
  {
    FirstStep(Next(Next(s, a), b), c, rest);
    FirstStep(Next(s, a), b, [c] + rest);
    FirstStep(s, a, [b] + ([c] + rest));
    assert [a, b, c] + rest == [a] + ([b] + ([c] + rest));
  }

  // ------------------------------------------------------------ progress

  predicate Done(s: State) {
    s.creator.Returned? && s.worker.Looping?
  }

  predicate IsSpurious(step: Step) {
    step.SpuriousWorker? || step.SpuriousCreator?
  }

  /** Steps still to come, at most, if nothing wakes spuriously. */
  function Distance(s: State): nat {
    (match s.creator
     case Created => 4
     case Started => 3
     case AsleepForLoop => 2
     case WokenForLoop => 1
     case Returned(_) => 0)
    + (match s.worker
       case Begun => 4
       case AsleepForStart => 3
       case WokenForStart => 2
       case InRun => 1
       case Looping => 0)
  }

  /** The new thread has not been woken too early. */
  predicate WokenForStartOnly(s: State) {
    s.worker.WokenForStart? ==> s.started
  }

  /** Every proper step comes closer to the end, whichever thread takes it. */
  lemma StepsComeCloser(s: State, step: Step)
    requires Safe(s) && WokenForStartOnly(s) && Legal(s, step) && !IsSpurious(step)
    ensures Distance(Next(s, step)) < Distance(s)
  {
  }

  /** No state is stuck before the end: some thread can take a proper step. */
  lemma NoDeadlock(s: State, id: nat) returns (step: Step)
    requires Safe(s) && !Done(s)
    ensures Legal(s, step) && !IsSpurious(step)
  {
    if s.creator.Created? {
      step := Start;
    } else if s.creator.Started? {
      step := CheckLoop;
    } else if s.creator.WokenForLoop? {
      step := TakeLoop;
    } else if s.worker.InRun? {
      step := Publish(id);
    } else {
      step := CheckStarted;
    }
  }

  predicate Proper(steps: seq<Step>) {
    forall i :: 0 <= i < |steps| ==> !IsSpurious(steps[i])
  }

  lemma {:induction false} ProperRunsAreShort(s: State, steps: seq<Step>)
    requires Safe(s) && WokenForStartOnly(s) && LegalRun(s, steps) && Proper(steps)
    ensures |steps| + Distance(Run(s, steps)) <= Distance(s)
    decreases |steps|
  {
    if steps != [] {
      StepsComeCloser(s, steps[0]);
      ProperRunsAreShort(Next(s, steps[0]), steps[1..]);
    }
  }

  /**
   * Every run that only a spurious wake-up could continue has reached the end, with the published
   * loop in the hands of the creator unless its wait woke spuriously; without any spurious wake-up
   * that takes eight steps at most.
   */
  lemma StartAlwaysCompletes(steps: seq<Step>)
    requires LegalRun(INIT, steps)
    requires forall step: Step :: Legal(Run(INIT, steps), step) ==> IsSpurious(step)
    ensures var s := Run(INIT, steps);
            && Done(s) && s.loop.Some?
            && (SpuriousCreator !in steps ==> s.creator == Returned(s.loop))
    ensures Proper(steps) ==> |steps| <= 8
  {
    SafeHolds(INIT, steps);
    if Proper(steps) {
      ProperRunsAreShort(INIT, steps);
    }
    if !Done(Run(INIT, steps)) {
      var step := NoDeadlock(Run(INIT, steps), 0);
    } else if SpuriousCreator !in steps {
      LoopIsNotNull(steps);
    }
  }
}
