/**
 * When the expiry handler comes to an end (src/timer/timerQueue.cpp:47-85).  The second loop re-keys
 * the entries it fires, so its end depends on the intervals: in every reachable state it can end,
 * and is bounded, if and only if every recurring timer was added with a positive interval.
 */
module HandlerEnds {
  import opened OrderedQueue
  import opened Timers
  import opened Scheduler
  import opened ArmingRule
  import opened TimerHistory

  /** No key is further ahead of the clock than the interval of its timer. */
  ghost predicate QueueWithin(q: Queue, clock: nat) {
    forall i :: 0 <= i < |q| ==> q[i].key <= clock + q[i].val.interval
  }

  ghost predicate KeysWithin(s: State) {
    QueueWithin(s.recurring, s.clock) && (s.phase.Idle? || s.clock < CLOCK_LIMIT_MS)
  }

  lemma InsertWithin(q: Queue, e: Item<Job>, clock: nat)
    requires QueueWithin(q, clock) && e.key <= clock + e.val.interval
    ensures QueueWithin(Insert(q, e), clock)
  {
    InsertContents(q, e);
    var r := Insert(q, e);
    forall i | 0 <= i < |r| ensures r[i].key <= clock + r[i].val.interval {
      assert r[i] in r;
    }
  }

  lemma KeysWithinStep(s: State, step: Step)
    requires KeysWithin(s) && Legal(s, step)
    ensures KeysWithin(Next(s, step))
  {
    RecurringView(s, step);
    match step
    case AddRecurring(_, _, reading) => InsertWithin(s.recurring, NewEntry(step), reading);
    case FireRecurring(_, renewed) => InsertWithin(s.recurring[1..], Renewed(s, step), renewed);
    case _ =>
  }

  lemma {:induction false} KeysWithinHolds(s: State, steps: seq<Step>)
    requires KeysWithin(s) && LegalRun(s, steps)
    ensures KeysWithin(Run(s, steps))
    decreases |steps|
  {
    if steps != [] {
      KeysWithinStep(s, steps[0]);
      KeysWithinHolds(Next(s, steps[0]), steps[1..]);
    }
  }

  /** A recurring timer of interval 0 is always due. */
  lemma DueIffNotPositive(s: State)
    requires KeysWithin(s)
    ensures ZeroIntervalDue(s) <==> !IntervalsPositive(s.recurring)
  {
  }

  // ------------------------------------------------------------ the condition on the additions

  /** Every call of addRecurringTimer so far had a positive interval. */
  predicate AllPositive(added: seq<Job>) {
    forall job <- added :: job.interval > 0
  }

  lemma SameElements<T>(a: seq<T>, b: seq<T>, x: T)
    requires multiset(a) == multiset(b)
    ensures x in a <==> x in b
  {
    assert x in a <==> x in multiset(a);
  }

  lemma PositiveJobs(q: Queue)
    ensures IntervalsPositive(q) <==> AllPositive(Jobs(q))
  {
    forall i | 0 <= i < |q| ensures q[i].val in Jobs(q) {
      assert Jobs(q)[i] == q[i].val;
    }
  }

  lemma PositiveIffAdded(s: State)
    requires RecurringKept(s.recurringAdded, s.recurring)
    ensures IntervalsPositive(s.recurring) <==> AllPositive(s.recurringAdded)
  {
    PositiveJobs(s.recurring);
    forall job: Job ensures job in s.recurringAdded <==> job in Jobs(s.recurring) {
      SameElements(s.recurringAdded, Jobs(s.recurring), job);
    }
  }

  /** What every reachable state keeps. */
  lemma Reachable(clock: nat, before: seq<Step>)
    requires LegalRun(Init(clock), before)
    ensures var s := Run(Init(clock), before);
            && GoodQueues(s) && KeysWithin(s)
            && (IntervalsPositive(s.recurring) <==> AllPositive(s.recurringAdded))
            && (ZeroIntervalDue(s) <==> !IntervalsPositive(s.recurring))
  {
    var s := Run(Init(clock), before);
    GoodAtEnd(Init(clock), before);
    KeysWithinHolds(Init(clock), before);
    ReachableInv(clock, before);
    PositiveIffAdded(s);
    DueIffNotPositive(s);
  }

  // ------------------------------------------------------------ the second loop

  /** These iterations of the second loop, and then its exit at this reading. */
  predicate Ends(s: State, steps: seq<Step>, at: nat) {
    LegalRun(s, steps) && AllFireRecurring(steps, CLOCK_LIMIT_MS) && Legal(Run(s, steps), EndRecurring(at))
  }

  ghost predicate PassCanEnd(s: State) {
    exists steps, at :: Ends(s, steps, at)
  }

  ghost predicate NoPassLonger(s: State, horizon: nat, n: nat) {
    forall steps :: LegalRun(s, steps) && AllFireRecurring(steps, horizon) ==> |steps| <= n
  }

  /** All passes whose readings stay at or below the horizon have a common bound. */
  ghost predicate PassIsBounded(s: State, horizon: nat) {
    exists n: nat :: NoPassLonger(s, horizon, n)
  }

  /** With positive intervals the loop ends even while the clock stands still. */
  lemma {:induction false} FrozenPass(s: State) returns (steps: seq<Step>)
    requires s.phase.FiringRecurring? && s.clock < CLOCK_LIMIT_MS && IntervalsPositive(s.recurring)
    ensures LegalRun(s, steps) && AllFireRecurring(steps, s.clock)
    ensures Run(s, steps).clock == s.clock && Legal(Run(s, steps), EndRecurring(s.clock))
    decreases WorkLeft(s.recurring, s.clock)
  {
    if NothingDue(s.recurring, s.clock) {
      steps := [];
    } else {
      var step := FireRecurring(s.clock, s.clock);
      FireReducesWork(s, step, s.clock);
      FireKeepsIntervals(s, step);
      var rest := FrozenPass(Next(s, step));
      steps := [step] + rest;
      assert steps[1..] == rest;
    }
  }

  /** With a due timer of interval 0 there are passes of every length, even under a frozen clock. */
  lemma {:induction false} LongPass(s: State, n: nat) returns (steps: seq<Step>)
    requires GoodQueues(s) && s.phase.FiringRecurring? && s.clock < CLOCK_LIMIT_MS && ZeroIntervalDue(s)
    ensures |steps| == n && LegalRun(s, steps) && AllFireRecurring(steps, s.clock)
    decreases n
  {
    if n == 0 {
      steps := [];
    } else {
      var step := FireRecurring(s.clock, s.clock);
      HeadIsDue(s);
      QueuesStayGood(s, step);
      ZeroIntervalStaysDue(s, step);
      var rest := LongPass(Next(s, step), n - 1);
      steps := [step] + rest;
      assert steps[1..] == rest;
    }
  }

  lemma HeadIsDue(s: State)
    requires GoodQueues(s) && ZeroIntervalDue(s)
    ensures s.recurring != [] && s.recurring[0].key <= s.clock
  {
    var i :| 0 <= i < |s.recurring| && s.recurring[i].val.interval == 0 && s.recurring[i].key <= s.clock;
    assert s.recurring[0].key <= s.recurring[i].key;
  }

  /**
   * In every reachable state in front of the second loop: the loop can end, and is bounded while the
   * readings stay below a horizon, if and only if no recurring timer was added with interval 0.
   */
  lemma PassEndsIff(clock: nat, before: seq<Step>, horizon: nat)
    requires LegalRun(Init(clock), before) && Run(Init(clock), before).phase.FiringRecurring?
    requires Run(Init(clock), before).clock <= horizon < CLOCK_LIMIT_MS
    ensures var s := Run(Init(clock), before);
            && (PassCanEnd(s) <==> AllPositive(s.recurringAdded))
            && (PassIsBounded(s, horizon) <==> AllPositive(s.recurringAdded))
  {
    var s := Run(Init(clock), before);
    Reachable(clock, before);
    if IntervalsPositive(s.recurring) {
      PositiveEnds(s, horizon);
    } else {
      ZeroNeverEnds(s, horizon);
    }
  }

  lemma PositiveEnds(s: State, horizon: nat)
    requires s.phase.FiringRecurring? && s.clock < CLOCK_LIMIT_MS && IntervalsPositive(s.recurring)
    ensures PassCanEnd(s) && PassIsBounded(s, horizon)
  {
    var steps := FrozenPass(s);
    assert Ends(s, steps, s.clock);
    forall pass | LegalRun(s, pass) && AllFireRecurring(pass, horizon)
      ensures |pass| <= WorkLeft(s.recurring, horizon)
    {
      RecurringPassEnds(s, pass, horizon);
    }
    assert NoPassLonger(s, horizon, WorkLeft(s.recurring, horizon));
  }

  lemma ZeroNeverEnds(s: State, horizon: nat)
    requires GoodQueues(s) && s.phase.FiringRecurring? && ZeroIntervalDue(s)
    requires s.clock <= horizon && s.clock < CLOCK_LIMIT_MS
    ensures !PassCanEnd(s) && !PassIsBounded(s, horizon)
  {
    forall steps, at ensures !Ends(s, steps, at) {
      if Ends(s, steps, at) {
        ZeroIntervalNeverEnds(s, steps, at);
      }
    }
    forall n: nat ensures !NoPassLonger(s, horizon, n) {
      var steps := LongPass(s, n + 1);
      assert AllFireRecurring(steps, horizon);
    }
  }

  // ------------------------------------------------------------ the whole handler

  /** The steps of one complete run of the expiry handler. */
  ghost predicate IsPass(steps: seq<Step>) {
    && |steps| >= 2 && steps[0].Begin? && steps[|steps| - 1].Rearm?
    && forall i :: 0 < i < |steps| - 1 ==> HandlerStep(steps[i])
  }

  lemma ShapeOfPass(begin: Step, first: seq<Step>, second: seq<Step>, end: Step)
    requires begin.Begin? && end.Rearm? && AllHandlerSteps(first) && AllHandlerSteps(second)
    ensures IsPass([begin] + first + second + [end])
  {
  }

  ghost predicate HandlerCanEnd(s: State) {
    exists steps :: LegalRun(s, steps) && IsPass(steps)
  }

  /** With a due timer of interval 0 the handler never gets to its closing arming. */
  lemma {:induction false} NeverRearms(s: State, steps: seq<Step>)
    requires GoodQueues(s) && (s.phase.FiringOnce? || s.phase.FiringRecurring?) && ZeroIntervalDue(s)
    requires LegalRun(s, steps) && AllHandlerSteps(steps)
    ensures Run(s, steps).phase.FiringOnce? || Run(s, steps).phase.FiringRecurring?
    decreases |steps|
  {
    if steps != [] {
      var step, t := steps[0], Next(s, steps[0]);
      HeadIsDue(s);
      QueuesStayGood(s, step);
      if step.FireRecurring? {
        ZeroIntervalStaysDue(s, step);
      } else {
        StillDue(s, step);
      }
      NeverRearms(t, steps[1..]);
    }
  }

  lemma StillDue(s: State, step: Step)
    requires ZeroIntervalDue(s) && Legal(s, step) && !step.FireRecurring? && !step.AddRecurring?
    ensures ZeroIntervalDue(Next(s, step))
  {
    RecurringView(s, step);
  }

  /** The first loop ends even while the clock stands still. */
  lemma {:induction false} FrozenOnce(s: State) returns (steps: seq<Step>)
    requires s.phase.FiringOnce? && s.clock < CLOCK_LIMIT_MS
    ensures LegalRun(s, steps) && AllHandlerSteps(steps)
    ensures var t := Run(s, steps);
            t.phase.FiringRecurring? && t.clock == s.clock && t.recurring == s.recurring
    decreases |s.once|
  {
    if NothingDue(s.once, s.clock) {
      steps := [EndOnce(s.clock)];
      assert steps[1..] == [] && LegalRun(Next(s, steps[0]), []);
    } else {
      var step := FireOnce(s.clock);
      var rest := FrozenOnce(Next(s, step));
      steps := [step] + rest;
      assert steps[1..] == rest;
    }
  }

  /** The four parts of a pass, put together. */
  lemma JoinPass(s: State, begin: Step, first: seq<Step>, second: seq<Step>, rearm: Step)
    requires begin.Begin? && rearm.Rearm? && AllHandlerSteps(first) && AllHandlerSteps(second)
    requires Legal(s, begin) && LegalRun(Next(s, begin), first)
    requires LegalRun(Run(Next(s, begin), first), second + [rearm])
    ensures HandlerCanEnd(s)
  {
    var rest := first + (second + [rearm]);
    RunJoin(Next(s, begin), first, second + [rearm]);
    BeginWith(s, begin, rest);
    ShapeOfPass(begin, first, second, rearm);
    FourParts([begin], first, second, [rearm]);
  }

  lemma FourParts<T>(a: seq<T>, b: seq<T>, c: seq<T>, d: seq<T>)
    ensures a + (b + (c + d)) == a + b + c + d
  {
  }

  lemma BeginWith(s: State, begin: Step, rest: seq<Step>)
    requires Legal(s, begin) && LegalRun(Next(s, begin), rest)
    ensures LegalRun(s, [begin] + rest)
  {
    assert ([begin] + rest)[1..] == rest;
  }

  lemma PositiveHandlerEnds(s: State)
    requires s.phase.Idle? && s.clock < CLOCK_LIMIT_MS && IntervalsPositive(s.recurring)
    ensures HandlerCanEnd(s)
  {
    var begin, rearm, exit := Begin(s.clock), Rearm(s.clock), EndRecurring(s.clock);
    assert Legal(s, begin);
    var t := Next(s, begin);
    var first := FrozenOnce(t);
    var u := Run(t, first);
    var fires := FrozenPass(u);
    RunSnoc(u, fires, exit);
    RunSnoc(u, fires + [exit], rearm);
    JoinPass(s, begin, first, fires + [exit], rearm);
  }

  lemma ZeroHandlerNeverEnds(s: State, steps: seq<Step>)
    requires GoodQueues(s) && ZeroIntervalDue(s) && LegalRun(s, steps)
    ensures !IsPass(steps)
  {
    if IsPass(steps) {
      var n := |steps| - 1;
      var middle := steps[1..n];
      assert steps[1..] == middle + [steps[n]];
      StillDue(s, steps[0]);
      QueuesStayGood(s, steps[0]);
      var t := Next(s, steps[0]);
      RunJoin(t, middle, [steps[n]]);
      NeverRearms(t, middle);
    }
  }

  /**
   * In every reachable state in which timers can be added: the expiry handler can run to its end if
   * and only if no call of addRecurringTimer so far had interval 0.
   */
  lemma HandlerEndsIff(clock: nat, before: seq<Step>)
    requires LegalRun(Init(clock), before)
    requires Run(Init(clock), before).phase.Idle? && Run(Init(clock), before).clock < CLOCK_LIMIT_MS
    ensures var s := Run(Init(clock), before);
            && (HandlerCanEnd(s) <==> AllPositive(s.recurringAdded))
            && (HandlerCanEnd(s) <==> IntervalsPositive(s.recurring))
  {
    var s := Run(Init(clock), before);
    Reachable(clock, before);
    if IntervalsPositive(s.recurring) {
      PositiveHandlerEnds(s);
    } else {
      forall steps | LegalRun(s, steps) ensures !IsPass(steps) {
        ZeroHandlerNeverEnds(s, steps);
      }
    }
  }
}
