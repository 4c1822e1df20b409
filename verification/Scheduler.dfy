/**
 * The timer scheduler (src/timer/timerQueue.cpp) as a step machine on values, and what holds over
 * every run of it.  One step is one iteration of a loop of the expiry handler, one addition of a
 * timer, or one arming; the clock readings a step consumes are its parameters.  The class
 * TimerQueue is proved to take exactly these steps.
 */
module Scheduler {
  import opened Wrappers
  import opened Widths
  import opened OrderedQueue
  import opened Timers

  /** A timer as the scheduler sees it: its identity and its interval in ms. */
  datatype Job = Job(id: nat, interval: nat)
  type Queue = seq<Item<Job>>

  /** The callback of the entry ran when the loop had read the clock as `at`. */
  datatype Firing = Firing(item: Item<Job>, at: nat)

  /** Where the expiry handler is; timers are added only while it is not running (mutex). */
  datatype Phase = Idle | FiringOnce | FiringRecurring | Rearming

  datatype State = State(
    once: Queue,
    recurring: Queue,
    armed: Option<nat>,        // instant at which the one-shot timerfd becomes readable
    clock: nat,                // latest reading, in ms
    phase: Phase,
    onceAdded: seq<Item<Job>>, // history: every one-shot entry ever added, in order
    recurringAdded: seq<Job>,  // history: every recurring timer ever added, in order
    onceLog: seq<Firing>,      // history: firings of one-shot timers, in order
    recurringLog: seq<Firing>) // history: firings of recurring timers, in order

  datatype Step =
    | AddOnce(job: Job, start: nat, reading: nat)
    | AddRecurring(job: Job, start: nat, reading: nat)
    | Begin(instant: nat)                 // the handler starts and reads the timerfd
    | FireOnce(at: nat)                   // one iteration of the first loop
    | EndOnce(at: nat)                    // its exit
    | FireRecurring(at: nat, renewed: nat) // one iteration of the second loop
    | EndRecurring(at: nat)
    | Rearm(armReading: nat)

  function Init(clock: nat): State {
    State([], [], None, clock, Idle, [], [], [], [])
  }

  /** Does adding a timer with deadline d, already inserted in its own queue, need an arming? */
  predicate NeedReset(q: Queue, d: nat) {
    q == [] || (q[0].key >= d && CountKey(q, d) <= 1)
  }

  /** Head of the queue the handler arms for: the recurring one only if strictly earlier. */
  function EarliestHead(once: Queue, recurring: Queue): Option<nat> {
    if once == [] && recurring == [] then None
    else if once == [] then Some(recurring[0].key)
    else if recurring == [] then Some(once[0].key)
    else if recurring[0].key < once[0].key then Some(recurring[0].key)
    else Some(once[0].key)
  }

  /** A loop leaves when its queue is empty or the head is later than the reading. */
  predicate NothingDue(q: Queue, at: nat) {
    q == [] || q[0].key > at
  }

  predicate FreshJob(s: State, job: Job) {
    && job.interval < U32_LIMIT
    && (forall e <- s.onceAdded :: e.val.id != job.id)
    && (forall j <- s.recurringAdded :: j.id != job.id)
  }

  function OnceAfterAdd(s: State, step: Step): Queue
    requires step.AddOnce? || step.AddRecurring?
  {
    if step.AddOnce? then Insert(s.once, Item(step.start + step.job.interval, step.job)) else s.once
  }

  function RecurringAfterAdd(s: State, step: Step): Queue
    requires step.AddOnce? || step.AddRecurring?
  {
    if step.AddRecurring? then Insert(s.recurring, Item(step.start + step.job.interval, step.job))
    else s.recurring
  }

  predicate AddArms(s: State, step: Step)
    requires step.AddOnce? || step.AddRecurring?
  {
    var d := step.start + step.job.interval;
    NeedReset(OnceAfterAdd(s, step), d) && NeedReset(RecurringAfterAdd(s, step), d)
  }

  /** The deadline a step arms the timerfd for, if it arms it at all. */
  function ArmedFor(s: State, step: Step): Option<nat> {
    match step
    case AddOnce(job, start, _) => if AddArms(s, step) then Some(start + job.interval) else None
    case AddRecurring(job, start, _) => if AddArms(s, step) then Some(start + job.interval) else None
    case Rearm(_) => EarliestHead(s.once, s.recurring)
    case _ => None
  }

  /** The clock reading of that arming. */
  function ArmingReading(step: Step): nat {
    match step
    case AddOnce(_, _, reading) => reading
    case AddRecurring(_, _, reading) => reading
    case Rearm(reading) => reading
    case _ => 0
  }

  function Arm(armed: Option<nat>, d: Option<nat>, reading: nat): Option<nat> {
    if d.None? then armed else Some(reading + ArmingDelay(d.value, reading))
  }

  predicate LegalAdd(s: State, step: Step) {
    && (step.AddOnce? || step.AddRecurring?) && s.phase.Idle? && FreshJob(s, step.job)
    && s.clock <= step.start <= step.reading < CLOCK_LIMIT_MS
    && (AddArms(s, step) || step.reading == step.start)
  }

  predicate LegalBegin(s: State, step: Step) {
    step.Begin? && s.phase.Idle? && s.clock <= step.instant < CLOCK_LIMIT_MS
  }

  /** A loop that leaves on an empty queue reads no clock. */
  predicate LegalOnceLoop(s: State, step: Step) {
    && (step.FireOnce? || step.EndOnce?) && s.phase.FiringOnce?
    && s.clock <= step.at < CLOCK_LIMIT_MS && (step.EndOnce? <==> NothingDue(s.once, step.at))
    && (s.once != [] || step.at == s.clock)
  }

  predicate LegalRecurringLoop(s: State, step: Step) {
    && (step.FireRecurring? || step.EndRecurring?) && s.phase.FiringRecurring?
    && s.clock <= step.at < CLOCK_LIMIT_MS
    && (step.EndRecurring? <==> NothingDue(s.recurring, step.at))
    && (s.recurring != [] || step.at == s.clock)
    && (step.EndRecurring? || step.at <= step.renewed < CLOCK_LIMIT_MS)
  }

  predicate LegalRearm(s: State, step: Step) {
    && step.Rearm? && s.phase.Rearming? && s.clock <= step.armReading < CLOCK_LIMIT_MS
    && (EarliestHead(s.once, s.recurring).Some? || step.armReading == s.clock)
  }

  predicate Legal(s: State, step: Step) {
    || LegalAdd(s, step)
    || LegalBegin(s, step)
    || LegalOnceLoop(s, step)
    || LegalRecurringLoop(s, step)
    || LegalRearm(s, step)
  }

  function Next(s: State, step: Step): State
    requires Legal(s, step)
  {
    match step
    case AddOnce(job, start, reading) =>
      s.(once := OnceAfterAdd(s, step), clock := reading,
         armed := Arm(s.armed, ArmedFor(s, step), reading),
         onceAdded := s.onceAdded + [Item(start + job.interval, job)])
    case AddRecurring(job, start, reading) =>
      s.(recurring := RecurringAfterAdd(s, step), clock := reading,
         armed := Arm(s.armed, ArmedFor(s, step), reading),
         recurringAdded := s.recurringAdded + [job])
    case Begin(instant) =>
      s.(phase := FiringOnce, clock := instant,
         armed := if s.armed.Some? && s.armed.value <= instant then None else s.armed)
    case FireOnce(at) =>
      s.(once := s.once[1..], onceLog := s.onceLog + [Firing(s.once[0], at)], clock := at)
    case EndOnce(at) => s.(phase := FiringRecurring, clock := at)
    case FireRecurring(at, renewed) =>
      var job := s.recurring[0].val;
      s.(recurring := Insert(s.recurring, Item(renewed + job.interval, job))[1..],
         recurringLog := s.recurringLog + [Firing(s.recurring[0], at)], clock := renewed)
    case EndRecurring(at) => s.(phase := Rearming, clock := at)
    case Rearm(reading) =>
      s.(phase := Idle, clock := reading, armed := Arm(s.armed, ArmedFor(s, step), reading))
  }

  /** The entry an addition inserts. */
  function NewEntry(step: Step): Item<Job>
    requires step.AddOnce? || step.AddRecurring?
  {
    Item(step.start + step.job.interval, step.job)
  }

  /** The entry under which a fired recurring timer is kept. */
  function Renewed(s: State, step: Step): Item<Job>
    requires step.FireRecurring? && s.recurring != []
  {
    Item(step.renewed + s.recurring[0].val.interval, s.recurring[0].val)
  }

  /** An addition, written out: what makes it legal and the state it leaves. */
  lemma AddOnceStep(s: State, step: Step, armed: Option<nat>)
    requires step.AddOnce? && s.phase.Idle? && FreshJob(s, step.job)
    requires s.clock <= step.start <= step.reading < CLOCK_LIMIT_MS
    requires if NeedReset(Insert(s.once, NewEntry(step)), NewEntry(step).key)
                && NeedReset(s.recurring, NewEntry(step).key) then
               armed == Some(step.reading + ArmingDelay(NewEntry(step).key, step.reading))
             else armed == s.armed && step.reading == step.start
    ensures Legal(s, step)
    ensures Next(s, step)
         == s.(once := Insert(s.once, NewEntry(step)), armed := armed, clock := step.reading,
               onceAdded := s.onceAdded + [NewEntry(step)])
  {
  }

  lemma AddRecurringStep(s: State, step: Step, armed: Option<nat>)
    requires step.AddRecurring? && s.phase.Idle? && FreshJob(s, step.job)
    requires s.clock <= step.start <= step.reading < CLOCK_LIMIT_MS
    requires if NeedReset(s.once, NewEntry(step).key)
                && NeedReset(Insert(s.recurring, NewEntry(step)), NewEntry(step).key) then
               armed == Some(step.reading + ArmingDelay(NewEntry(step).key, step.reading))
             else armed == s.armed && step.reading == step.start
    ensures Legal(s, step)
    ensures Next(s, step)
         == s.(recurring := Insert(s.recurring, NewEntry(step)), armed := armed, clock := step.reading,
               recurringAdded := s.recurringAdded + [step.job])
  {
  }

  /** What a step does to the one-shot timers. */
  lemma OnceView(s: State, step: Step)
    requires Legal(s, step)
    ensures var t := Next(s, step);
            match step
            case AddOnce(_, _, _) =>
              && t.onceAdded == s.onceAdded + [NewEntry(step)] && t.once == Insert(s.once, NewEntry(step))
              && t.onceLog == s.onceLog
            case FireOnce(at) =>
              && s.once != [] && t.onceAdded == s.onceAdded && t.once == s.once[1..]
              && t.onceLog == s.onceLog + [Firing(s.once[0], at)]
            case _ => t.onceAdded == s.onceAdded && t.once == s.once && t.onceLog == s.onceLog
  {
  }

  /** What a step does to the recurring timers: inserting the new key before erasing the old one
      leaves the same map as erasing first, because the renewed key is never the earlier one. */
  lemma RecurringView(s: State, step: Step)
    requires Legal(s, step)
    ensures var t := Next(s, step);
            match step
            case AddRecurring(job, _, _) =>
              && t.recurringAdded == s.recurringAdded + [job]
              && t.recurring == Insert(s.recurring, NewEntry(step)) && t.recurringLog == s.recurringLog
            case FireRecurring(at, _) =>
              && s.recurring != [] && t.recurringAdded == s.recurringAdded
              && t.recurring == Insert(s.recurring[1..], Renewed(s, step))
              && t.recurringLog == s.recurringLog + [Firing(s.recurring[0], at)]
            case _ =>
              && t.recurringAdded == s.recurringAdded && t.recurring == s.recurring
              && t.recurringLog == s.recurringLog
  {
  }

  /** Every step of the run is legal where it is taken. */
  predicate LegalRun(s: State, steps: seq<Step>)
    decreases |steps|
  {
    steps == [] || (Legal(s, steps[0]) && LegalRun(Next(s, steps[0]), steps[1..]))
  }

  function Run(s: State, steps: seq<Step>): State
    requires LegalRun(s, steps)
    decreases |steps|
  {
    if steps == [] then s else Run(Next(s, steps[0]), steps[1..])
  }

  /** A run is a run of its first part, followed by a run of the second from where that ends. */
  lemma {:induction false} RunJoin(s: State, a: seq<Step>, b: seq<Step>)
    ensures LegalRun(s, a + b) <==> LegalRun(s, a) && LegalRun(Run(s, a), b)
    ensures LegalRun(s, a + b) ==> Run(s, a + b) == Run(Run(s, a), b)
    decreases |a|
  {
    if a == [] {
      assert a + b == b;
    } else {
      assert (a + b)[1..] == a[1..] + b;
      if Legal(s, a[0]) {
        RunJoin(Next(s, a[0]), a[1..], b);
      }
    }
  }

  /** A run can be extended by a step that is legal where it ends. */
  lemma RunSnoc(s: State, steps: seq<Step>, step: Step)
    requires LegalRun(s, steps) && Legal(Run(s, steps), step)
    ensures LegalRun(s, steps + [step])
    ensures Run(s, steps + [step]) == Next(Run(s, steps), step)
  {
    assert [step][1..] == [] && LegalRun(Next(Run(s, steps), step), []);
    RunJoin(s, steps, [step]);
  }
}
