/**
 * When the single timerfd covers the earliest deadline of the two queues.
 *
 * The rule holds over every run exactly as long as each arming reads the clock no later than the
 * deadline it arms for; the subtraction of src/timer/timer.cpp:63 is unsigned, so a later reading
 * asks for a delay of about 2^64 ms.
 */
module ArmingRule {
  import opened Wrappers
  import opened Widths
  import opened OrderedQueue
  import opened Timers
  import opened Scheduler

  ghost predicate HasKey(q: Queue, d: nat) {
    exists i :: 0 <= i < |q| && q[i].key == d
  }

  ghost predicate NoneBefore(q: Queue, d: nat) {
    forall i :: 0 <= i < |q| ==> d <= q[i].key
  }

  /** d is the smallest key of the two queues together. */
  ghost predicate Earliest(a: Queue, b: Queue, d: nat) {
    (HasKey(a, d) || HasKey(b, d)) && NoneBefore(a, d) && NoneBefore(b, d)
  }

  /** Whatever is pending, the timerfd expires at its deadline or at most the floor after it. */
  ghost predicate Covered(s: State) {
    forall d: nat :: Earliest(s.once, s.recurring, d) ==>
      s.armed.Some? && d <= s.armed.value <= d + ARM_FLOOR_MS
  }

  /** The arming of this step, if it makes one, reads the clock no later than its deadline. */
  predicate InTime(s: State, step: Step) {
    ArmedFor(s, step).Some? ==> ArmingReading(step) <= ArmedFor(s, step).value
  }

  predicate AllInTime(s: State, steps: seq<Step>)
    requires LegalRun(s, steps)
    decreases |steps|
  {
    steps == [] || (InTime(s, steps[0]) && AllInTime(Next(s, steps[0]), steps[1..]))
  }

  /** Covered in every state of the run in which the handler is not at work. */
  ghost predicate CoveredThroughout(s: State, steps: seq<Step>)
    requires LegalRun(s, steps)
    decreases |steps|
  {
    && (s.phase.Idle? ==> Covered(s))
    && (steps != [] ==> CoveredThroughout(Next(s, steps[0]), steps[1..]))
  }

  ghost predicate GoodQueue(q: Queue) {
    Sorted(q) && forall i :: 0 <= i < |q| ==>
      q[i].key < CLOCK_LIMIT_MS + U32_LIMIT && q[i].val.interval < U32_LIMIT
  }

  ghost predicate GoodQueues(s: State) {
    GoodQueue(s.once) && GoodQueue(s.recurring)
  }

  lemma InsertGood(q: Queue, e: Item<Job>)
    requires GoodQueue(q) && e.key < CLOCK_LIMIT_MS + U32_LIMIT && e.val.interval < U32_LIMIT
    ensures GoodQueue(Insert(q, e))
  {
    InsertSorted(q, e);
    InsertContents(q, e);
    var r := Insert(q, e);
    forall i | 0 <= i < |r|
      ensures r[i].key < CLOCK_LIMIT_MS + U32_LIMIT && r[i].val.interval < U32_LIMIT
    {
      assert r[i] in r;
    }
  }

  /** Both maps stay sorted through every step, re-keying included. */
  lemma QueuesStayGood(s: State, step: Step)
    requires GoodQueues(s) && Legal(s, step)
    ensures GoodQueues(Next(s, step))
  {
    OnceView(s, step);
    RecurringView(s, step);
    match step
    case AddOnce(_, _, _) => InsertGood(s.once, NewEntry(step));
    case AddRecurring(_, _, _) => InsertGood(s.recurring, NewEntry(step));
    case FireRecurring(_, _) => InsertGood(s.recurring[1..], Renewed(s, step));
    case _ =>
  }

  lemma {:induction false} GoodAtEnd(s: State, steps: seq<Step>)
    requires LegalRun(s, steps) && GoodQueues(s)
    ensures GoodQueues(Run(s, steps))
    decreases |steps|
  {
    if steps != [] {
      QueuesStayGood(s, steps[0]);
      GoodAtEnd(Next(s, steps[0]), steps[1..]);
    }
  }

  /** The head the handler compares for is the minimum over both maps, not only of the heads. */
  lemma HeadIsEarliest(once: Queue, recurring: Queue, d: nat)
    requires Sorted(once) && Sorted(recurring)
    ensures EarliestHead(once, recurring) == Some(d) <==> Earliest(once, recurring, d)
  {
  }

  lemma InsertHead(q: Queue, e: Item<Job>)
    ensures Insert(q, e)[0] == if q == [] || e.key < q[0].key then e else q[0]
  {
  }

  /** A queue that asks for an arming holds nothing earlier than the new deadline. */
  lemma NeedResetMeansNoneBefore(q: Queue, d: nat)
    requires Sorted(q) && NeedReset(q, d)
    ensures NoneBefore(q, d)
  {
  }

  /** A queue that declines holds an entry that is not later, besides the new timer itself. */
  lemma DeclineMeansEarlierEntry(q: Queue, d: nat)
    requires Sorted(q) && !NeedReset(q, d)
    ensures q[0].key < d || (CountKey(q, d) > 1 && q[0].key == d)
  {
    CountKeyPositive(q, d);
  }

  /** The deadline is before everything its own map held, and after nothing in the other map, where
      at most one timer shares it. */
  ghost predicate NewMinimum<T>(own: seq<Item<T>>, other: seq<Item<T>>, d: nat) {
    && (forall i :: 0 <= i < |own| ==> d < own[i].key)
    && (forall i :: 0 <= i < |other| ==> d <= other[i].key)
    && (forall i, j :: 0 <= i < j < |other| ==> !(other[i].key == d && other[j].key == d))
  }

  lemma {:induction false} CountAtMostOne<T>(q: seq<Item<T>>, key: nat)
    ensures CountKey(q, key) <= 1 <==>
            forall i, j :: 0 <= i < j < |q| ==> !(q[i].key == key && q[j].key == key)
  {
    if q != [] {
      var t := q[1..];
      CountAtMostOne(t, key);
      CountKeyPositive(t, key);
      if CountKey(q, key) <= 1 {
        forall i, j | 0 <= i < j < |q| ensures !(q[i].key == key && q[j].key == key) {
          assert q[j] == t[j - 1] && (i > 0 ==> q[i] == t[i - 1]);
        }
      } else if CountKey(t, key) > 1 {
        var i, j :| 0 <= i < j < |t| && t[i].key == key && t[j].key == key;
        assert q[i + 1].key == key && q[j + 1].key == key;
      } else {
        var j :| 0 <= j < |t| && t[j].key == key;
        assert q[0].key == key && q[j + 1].key == key;
      }
    }
  }

  /** The map that holds the new timer asks for an arming if and only if it held nothing as early. */
  lemma OwnMapAsksIff(own: Queue, e: Item<Job>)
    requires Sorted(own)
    ensures NeedReset(Insert(own, e), e.key) <==> forall i :: 0 <= i < |own| ==> e.key < own[i].key
  {
    InsertHead(own, e);
    CountKeyInsert(own, e, e.key);
    CountKeyPositive(own, e.key);
  }

  lemma OtherMapAsksIff(other: Queue, d: nat)
    requires Sorted(other)
    ensures NeedReset(other, d) <==>
            && (forall i :: 0 <= i < |other| ==> d <= other[i].key)
            && (forall i, j :: 0 <= i < j < |other| ==> !(other[i].key == d && other[j].key == d))
  {
    CountAtMostOne(other, d);
  }

  lemma BothAskIff(own: Queue, other: Queue, e: Item<Job>)
    requires Sorted(own) && Sorted(other)
    ensures NeedReset(Insert(own, e), e.key) && NeedReset(other, e.key) <==> NewMinimum(own, other, e.key)
  {
    OwnMapAsksIff(own, e);
    OtherMapAsksIff(other, e.key);
  }

  /** The map that an addition inserts into. */
  function OwnMap(s: State, step: Step): Queue {
    if step.AddOnce? then s.once else s.recurring
  }

  function OtherMap(s: State, step: Step): Queue {
    if step.AddOnce? then s.recurring else s.once
  }

  lemma AddArmsIff(s: State, step: Step)
    requires GoodQueues(s) && (step.AddOnce? || step.AddRecurring?)
    ensures AddArms(s, step) <==> NewMinimum(OwnMap(s, step), OtherMap(s, step), NewEntry(step).key)
  {
    var e := NewEntry(step);
    BothAskIff(OwnMap(s, step), OtherMap(s, step), e);
    if step.AddOnce? {
      assert OnceAfterAdd(s, step) == Insert(OwnMap(s, step), e) && RecurringAfterAdd(s, step) == OtherMap(s, step);
    } else {
      assert RecurringAfterAdd(s, step) == Insert(OwnMap(s, step), e) && OnceAfterAdd(s, step) == OtherMap(s, step);
    }
  }

  /** Exactly when an addition arms the timerfd, and for what; otherwise it leaves it alone. */
  lemma AdditionArmsIff(s: State, step: Step)
    requires GoodQueues(s) && Legal(s, step) && (step.AddOnce? || step.AddRecurring?)
    ensures var d := step.start + step.job.interval;
            Next(s, step).armed
            == if NewMinimum(OwnMap(s, step), OtherMap(s, step), d) then
                 Some(step.reading + ArmingDelay(d, step.reading))
               else s.armed
  {
    AddArmsIff(s, step);
  }

  /**
   * The maps are asked separately, so one timer in the other map with the same deadline does not
   * keep an addition from arming again; less than the floor before the deadline that moves the
   * expiry behind it, and the older timer runs late.
   */
  lemma TieAcrossMapsMovesExpiry(s: State, step: Step, d: nat)
    requires GoodQueues(s) && Legal(s, step) && step.AddRecurring? && step.start + step.job.interval == d
    requires |s.once| == 1 && s.once[0].key == d && s.recurring == []
    requires s.armed == Some(d) && d - ARM_FLOOR_MS < step.reading <= d
    ensures Next(s, step).armed == Some(step.reading + ARM_FLOOR_MS)
    ensures d < Next(s, step).armed.value <= d + ARM_FLOOR_MS
  {
    AdditionArmsIff(s, step);
    ArmingDelayExact(d, step.reading);
  }

  /** Skipping the arming never hides a new minimum: the old minimum is still the minimum. */
  lemma SkipKeepsEarliest(own: Queue, other: Queue, e: Item<Job>, d: nat)
    requires Sorted(own) && Sorted(other)
    requires !(NeedReset(Insert(own, e), e.key) && NeedReset(other, e.key))
    requires Earliest(Insert(own, e), other, d)
    ensures Earliest(own, other, d)
  {
    InsertSorted(own, e);
    InsertHead(own, e);
    InsertContents(own, e);
    var q := Insert(own, e);
    forall i | 0 <= i < |own| ensures d <= own[i].key {
      assert own[i] in q;
      var j :| 0 <= j < |q| && q[j] == own[i];
    }
    if HasKey(q, d) {
      var j :| 0 <= j < |q| && q[j].key == d;
      assert q[j] in q;
      if q[j] in own {
        var i :| 0 <= i < |own| && own[i] == q[j];
        assert HasKey(own, d);
      } else {
        NewKeyWasThere(own, other, e);
      }
    }
  }

  lemma NewKeyWasThere(own: Queue, other: Queue, e: Item<Job>)
    requires Sorted(own) && Sorted(other)
    requires !(NeedReset(Insert(own, e), e.key) && NeedReset(other, e.key))
    requires NoneBefore(Insert(own, e), e.key) && NoneBefore(other, e.key)
    ensures HasKey(own, e.key) || HasKey(other, e.key)
  {
    InsertSorted(own, e);
    if !NeedReset(other, e.key) {
      DeclineMeansEarlierEntry(other, e.key);
      assert other[0].key == e.key;
    } else {
      DeclineMeansEarlierEntry(Insert(own, e), e.key);
      CountKeyInsert(own, e, e.key);
      CountKeyPositive(own, e.key);
    }
  }

  /** Arming happens only for a deadline that is the new minimum of both queues. */
  lemma ArmedForIsEarliest(s: State, step: Step)
    requires GoodQueues(s) && Legal(s, step) && ArmedFor(s, step).Some?
    ensures Earliest(Next(s, step).once, Next(s, step).recurring, ArmedFor(s, step).value)
  {
    QueuesStayGood(s, step);
    var t, d := Next(s, step), ArmedFor(s, step).value;
    if step.Rearm? {
      HeadIsEarliest(s.once, s.recurring, d);
    } else {
      NeedResetMeansNoneBefore(t.once, d);
      NeedResetMeansNoneBefore(t.recurring, d);
      var own := if step.AddOnce? then s.once else s.recurring;
      var e := Item(d, step.job);
      InsertContents(own, e);
      assert e in Insert(own, e);
      var i :| 0 <= i < |Insert(own, e)| && Insert(own, e)[i] == e;
      assert HasKey(Insert(own, e), d);
    }
  }

  lemma EarliestIsUnique(a: Queue, b: Queue, d: nat, e: nat)
    requires Earliest(a, b, d) && Earliest(a, b, e)
    ensures d == e
  {
  }

  /** After an arming the timerfd covers the queues if and only if the reading was in time. */
  lemma ArmingCovers(s: State, step: Step)
    requires GoodQueues(s) && Legal(s, step) && ArmedFor(s, step).Some?
    ensures Covered(Next(s, step)) <==> InTime(s, step)
  {
    var t, d, r := Next(s, step), ArmedFor(s, step).value, ArmingReading(step);
    ArmedForIsEarliest(s, step);
    ArmingDelayExact(d, r);
    assert t.armed == Some(r + ArmingDelay(d, r));
    forall e: nat | Earliest(t.once, t.recurring, e) ensures e == d {
      EarliestIsUnique(t.once, t.recurring, d, e);
    }
  }

  /** An addition that skips the arming leaves the timerfd covering the queues. */
  lemma SkipCovers(s: State, step: Step)
    requires GoodQueues(s) && Legal(s, step) && Covered(s)
    requires (step.AddOnce? || step.AddRecurring?) && ArmedFor(s, step).None?
    ensures Covered(Next(s, step))
  {
    var t, e := Next(s, step), Item(step.start + step.job.interval, step.job);
    forall d: nat | Earliest(t.once, t.recurring, d) ensures Earliest(s.once, s.recurring, d) {
      if step.AddOnce? {
        SkipKeepsEarliest(s.once, s.recurring, e, d);
      } else {
        SkipKeepsEarliest(s.recurring, s.once, e, d);
      }
    }
  }

  /** One step: the timerfd covers the queues afterwards if and only if the step was in time. */
  lemma CoveredIffInTime(s: State, step: Step)
    requires GoodQueues(s) && Legal(s, step) && (s.phase.Idle? ==> Covered(s))
    ensures Next(s, step).phase.Idle? ==> (Covered(Next(s, step)) <==> InTime(s, step))
    ensures !Next(s, step).phase.Idle? ==> InTime(s, step)
  {
    match step
    case AddOnce(_, _, _) => if ArmedFor(s, step).Some? { ArmingCovers(s, step); } else { SkipCovers(s, step); }
    case AddRecurring(_, _, _) => if ArmedFor(s, step).Some? { ArmingCovers(s, step); } else { SkipCovers(s, step); }
    case Rearm(_) => if ArmedFor(s, step).Some? { ArmingCovers(s, step); }
    case _ =>
  }

  /**
   * The arming rule over every run: the timerfd covers the earliest deadline in every state in
   * which the handler is not at work, if and only if every arming was in time.
   */
  lemma {:induction false} ArmingInvariant(s: State, steps: seq<Step>)
    requires LegalRun(s, steps)
    requires GoodQueues(s) && (s.phase.Idle? ==> Covered(s))
    ensures CoveredThroughout(s, steps) <==> AllInTime(s, steps)
    decreases |steps|
  {
    if steps != [] {
      var t := Next(s, steps[0]);
      QueuesStayGood(s, steps[0]);
      CoveredIffInTime(s, steps[0]);
      if InTime(s, steps[0]) {
        ArmingInvariant(t, steps[1..]);
      } else {
        assert t.phase.Idle? && !Covered(t);
        assert !CoveredThroughout(t, steps[1..]);
      }
    }
  }

  lemma {:induction false} CoveredAtEnd(s: State, steps: seq<Step>)
    requires LegalRun(s, steps) && CoveredThroughout(s, steps)
    ensures Run(s, steps).phase.Idle? ==> Covered(Run(s, steps))
    decreases |steps|
  {
    if steps != [] {
      CoveredAtEnd(Next(s, steps[0]), steps[1..]);
    }
  }

  /** A timer of interval 0 and one millisecond between two clock readings already miss the rule:
      the timerfd is set 2^64 ms late. */
  lemma LateArmingIsPossible()
    ensures var steps := [AddOnce(Job(0, 0), 5, 6)];
            && LegalRun(Init(5), steps)
            && Run(Init(5), steps).armed == Some(5 + U64_LIMIT)
            && !CoveredThroughout(Init(5), steps)
  {
    var s, step := Init(5), AddOnce(Job(0, 0), 5, 6);
    ArmingDelayExact(5, 6);
    var e := Item(5, Job(0, 0));
    assert Insert(s.once, e) == [e];
    assert CountKey([e], 5) == 1 + CountKey([e][1..], 5);
    assert Legal(s, step);
    var t := Next(s, step);
    assert [step][1..] == [] && LegalRun(t, []);
    assert HasKey(t.once, 5) by { assert t.once[0].key == 5; }
    assert Earliest(t.once, t.recurring, 5);
  }

  /** Armed at 85 for 105, armed again at 100 for the same deadline: the expiry moves to 115. */
  lemma TieAcrossMapsIsPossible()
    ensures var steps := [AddOnce(Job(0, 20), 85, 85), AddRecurring(Job(1, 5), 100, 100)];
            LegalRun(Init(85), steps) && Run(Init(85), steps).armed == Some(115)
  {
    var s, a, b := Init(85), AddOnce(Job(0, 20), 85, 85), AddRecurring(Job(1, 5), 100, 100);
    BothAskIff(s.once, s.recurring, NewEntry(a));
    assert Legal(s, a);
    var t := Next(s, a);
    AdditionArmsIff(s, a);
    ArmingDelayExact(105, 85);
    assert t.once == [NewEntry(a)];
    QueuesStayGood(s, a);
    BothAskIff(t.recurring, t.once, NewEntry(b));
    assert Legal(t, b);
    TieAcrossMapsMovesExpiry(t, b, 105);
    RunSnoc(s, [], a);
    RunSnoc(s, [a], b);
    assert [] + [a] == [a] && [a] + [b] == [a, b];
  }

  // ------------------------------------------------- an expiry always finds work

  predicate HandlerStep(step: Step) {
    step.FireOnce? || step.EndOnce? || step.FireRecurring? || step.EndRecurring?
  }

  predicate AllHandlerSteps(steps: seq<Step>) {
    forall step <- steps :: HandlerStep(step)
  }

  function Fired(s: State): nat {
    |s.onceLog| + |s.recurringLog|
  }

  /** More than n firings are logged, or a loop still has a due timer in front of it. */
  ghost predicate FiredOrDue(s: State, n: nat) {
    || Fired(s) > n
    || (s.phase.FiringOnce? && ((s.once != [] && s.once[0].key <= s.clock)
                                || (s.recurring != [] && s.recurring[0].key <= s.clock)))
    || (s.phase.FiringRecurring? && s.recurring != [] && s.recurring[0].key <= s.clock)
  }

  lemma {:induction false} FiredOrDueHolds(s: State, steps: seq<Step>, n: nat)
    requires LegalRun(s, steps) && AllHandlerSteps(steps)
    requires n <= Fired(s) && FiredOrDue(s, n)
    ensures FiredOrDue(Run(s, steps), n)
    decreases |steps|
  {
    if steps != [] {
      FiredOrDueHolds(Next(s, steps[0]), steps[1..], n);
    }
  }

  /**
   * No expiry is in vain: if timers are pending and the handler starts once the covered timerfd
   * has expired, at least one timer fires before the handler re-arms.
   */
  lemma ExpiryFiresSomething(s: State, instant: nat, steps: seq<Step>)
    requires GoodQueues(s) && s.phase.Idle? && Covered(s) && (s.once != [] || s.recurring != [])
    requires s.armed.Some? && s.armed.value <= instant && Legal(s, Begin(instant))
    requires LegalRun(Next(s, Begin(instant)), steps) && AllHandlerSteps(steps)
    requires Run(Next(s, Begin(instant)), steps).phase.Rearming?
    ensures Fired(Run(Next(s, Begin(instant)), steps)) > Fired(s)
  {
    var d := EarliestHead(s.once, s.recurring).value;
    HeadIsEarliest(s.once, s.recurring, d);
    FiredOrDueHolds(Next(s, Begin(instant)), steps, Fired(s));
  }
}
