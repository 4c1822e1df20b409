/**
 * The class TimerQueue (src/timer/timerQueue.cpp): two multimaps of shared, mutable Timer objects
 * under keys computed from them, and the timerfd both of them share.
 *
 * Each method is proved to take steps of the machine in Scheduler, and Valid() says that the
 * object's state is where its trace of steps leads, so the theorems about runs in ArmingRule and
 * TimerHistory hold of every object.
 */
module TimerQueues {
  import opened Wrappers
  import opened Widths
  import opened OrderedQueue
  import opened Timers
  import opened Scheduler
  import opened ArmingRule
  import opened TimerHistory
  import opened HandlerEnds

  /** The kernel's one-shot timer; instants are clock readings in ms. */
  class TimerFd {
    ghost var expiry: Option<nat>

    constructor ()
      ensures expiry == None
    {
      expiry := None;
    }

    /** timerfd_settime with a relative value; the zero value disarms. */
    ghost method SetTime(value: Timespec, now: nat)
      modifies this
      ensures expiry == if value == Timespec(0, 0) then None else Some(now + value.Millis())
    {
      expiry := if value == Timespec(0, 0) then None else Some(now + value.Millis());
    }

    /** A read after the expiry uses it up; a read before it fails and changes nothing. */
    ghost method Read(now: nat)
      modifies this
      ensures expiry == if old(expiry).Some? && old(expiry).value <= now then None else old(expiry)
    {
      expiry := if expiry.Some? && expiry.value <= now then None else expiry;
    }
  }

  type TimerMap = seq<Item<Timer>>

  ghost function JobOf(t: Timer): Job {
    Job(t.id, t.intervalMs)
  }

  ghost function View(q: TimerMap): Queue {
    seq(|q|, i requires 0 <= i < |q| => Item(q[i].key, JobOf(q[i].val)))
  }

  /** Every key is the deadline its Timer object computes at this moment. */
  ghost predicate Coherent(q: TimerMap, timers: set<Timer>)
    reads timers
  {
    forall i :: 0 <= i < |q| ==>
      && q[i].val in timers && q[i].val.Valid()
      && q[i].key == q[i].val.Deadline()
  }

  /** Each object sits in one entry only. */
  ghost predicate Separate(q: TimerMap) {
    forall i, j :: 0 <= i < j < |q| ==> q[i].val != q[j].val
  }

  ghost predicate Absent(q: TimerMap, timer: Timer) {
    forall i :: 0 <= i < |q| ==> q[i].val != timer
  }

  ghost predicate Disjoint(p: TimerMap, q: TimerMap) {
    forall i, j :: 0 <= i < |p| && 0 <= j < |q| ==> p[i].val != q[j].val
  }

  lemma {:induction false} ViewInsert(q: TimerMap, e: Item<Timer>)
    ensures View(Insert(q, e)) == Insert(View(q), Item(e.key, JobOf(e.val)))
  {
    if q == [] || e.key < q[0].key {
      assert View([e] + q) == [Item(e.key, JobOf(e.val))] + View(q);
    } else {
      ViewInsert(q[1..], e);
      assert View(q)[1..] == View(q[1..]);
      assert View([q[0]] + Insert(q[1..], e)) == [View(q)[0]] + View(Insert(q[1..], e));
    }
  }

  lemma {:induction false} ViewCount(q: TimerMap, key: nat)
    ensures CountKey(q, key) == CountKey(View(q), key)
  {
    if q != [] {
      assert View(q)[1..] == View(q[1..]);
      ViewCount(q[1..], key);
    }
  }

  lemma NewMinimumView(own: TimerMap, other: TimerMap, d: nat)
    ensures NewMinimum(View(own), View(other), d) <==> NewMinimum(own, other, d)
  {
    assert forall i :: 0 <= i < |own| ==> View(own)[i].key == own[i].key;
    assert forall i :: 0 <= i < |other| ==> View(other)[i].key == other[i].key;
  }

  /** Whether both maps ask for an arming once the new entry is in its own. */
  lemma MapsAskIff(origin: nat, trace: seq<Step>, s: State, own: TimerMap, other: TimerMap, e: Item<Job>)
    requires Traced(origin, trace, s)
    requires (View(own) == s.once && View(other) == s.recurring) || (View(own) == s.recurring && View(other) == s.once)
    ensures NeedReset(Insert(View(own), e), e.key) && NeedReset(View(other), e.key)
            <==> NewMinimum(own, other, e.key)
  {
    GoodAtEnd(Init(origin), trace);
    BothAskIff(View(own), View(other), e);
    NewMinimumView(own, other, e.key);
  }

  /** An entry of its own map that is not later keeps an addition from arming. */
  lemma EarlierEntryDeclines(own: TimerMap, other: TimerMap, d: nat)
    ensures (exists i :: 0 <= i < |own| && own[i].key <= d) ==> !NewMinimum(own, other, d)
  {
  }

  lemma InsertMembers(q: TimerMap, e: Item<Timer>, i: nat)
    requires i < |Insert(q, e)|
    ensures Insert(q, e)[i] == e || exists k :: 0 <= k < |q| && q[k] == Insert(q, e)[i]
  {
    InsertContents(q, e);
    assert Insert(q, e)[i] in multiset(Insert(q, e));
  }

  lemma {:induction false} InsertSeparate(q: TimerMap, e: Item<Timer>)
    requires Separate(q) && Absent(q, e.val)
    ensures Separate(Insert(q, e))
  {
    if q != [] && q[0].key <= e.key {
      InsertSeparate(q[1..], e);
      var r := Insert(q[1..], e);
      forall i | 0 <= i < |r| ensures q[0].val != r[i].val {
        InsertMembers(q[1..], e, i);
      }
    }
  }

  lemma InsertCoherent(q: TimerMap, e: Item<Timer>, timers: set<Timer>)
    requires Coherent(q, timers) && e.val in timers && e.val.Valid()
    requires e.key == e.val.Deadline()
    ensures Coherent(Insert(q, e), timers)
  {
  }

  lemma DisjointInsert(p: TimerMap, q: TimerMap, e: Item<Timer>)
    requires Disjoint(p, q) && Absent(q, e.val)
    ensures Disjoint(Insert(p, e), q)
  {
  }

  lemma InsertDisjoint(p: TimerMap, q: TimerMap, e: Item<Timer>)
    requires Disjoint(p, q) && Absent(p, e.val)
    ensures Disjoint(p, Insert(q, e))
  {
  }

  /** The state is the one that the trace of steps reaches from the start. */
  ghost predicate Traced(origin: nat, trace: seq<Step>, s: State) {
    LegalRun(Init(origin), trace) && Run(Init(origin), trace) == s
  }

  lemma TracedStep(origin: nat, trace: seq<Step>, s: State, step: Step)
    requires Traced(origin, trace, s) && Legal(s, step)
    ensures Traced(origin, trace + [step], Next(s, step))
  {
    RunSnoc(Init(origin), trace, step);
  }

  lemma TracedAddOnce(origin: nat, trace: seq<Step>, s: State, step: Step, armed: Option<nat>)
    requires Traced(origin, trace, s)
    requires step.AddOnce? && s.phase.Idle? && FreshJob(s, step.job)
    requires s.clock <= step.start <= step.reading < CLOCK_LIMIT_MS
    requires if NeedReset(Insert(s.once, NewEntry(step)), NewEntry(step).key)
                && NeedReset(s.recurring, NewEntry(step).key) then
               armed == Some(step.reading + ArmingDelay(NewEntry(step).key, step.reading))
             else armed == s.armed && step.reading == step.start
    ensures Traced(origin, trace + [step],
                   s.(once := Insert(s.once, NewEntry(step)), armed := armed, clock := step.reading,
                      onceAdded := s.onceAdded + [NewEntry(step)]))
  {
    AddOnceStep(s, step, armed);
    TracedStep(origin, trace, s, step);
  }

  lemma TracedAddRecurring(origin: nat, trace: seq<Step>, s: State, step: Step, armed: Option<nat>)
    requires Traced(origin, trace, s)
    requires step.AddRecurring? && s.phase.Idle? && FreshJob(s, step.job)
    requires s.clock <= step.start <= step.reading < CLOCK_LIMIT_MS
    requires if NeedReset(s.once, NewEntry(step).key)
                && NeedReset(Insert(s.recurring, NewEntry(step)), NewEntry(step).key) then
               armed == Some(step.reading + ArmingDelay(NewEntry(step).key, step.reading))
             else armed == s.armed && step.reading == step.start
    ensures Traced(origin, trace + [step],
                   s.(recurring := Insert(s.recurring, NewEntry(step)), armed := armed,
                      clock := step.reading, recurringAdded := s.recurringAdded + [step.job]))
  {
    AddRecurringStep(s, step, armed);
    TracedStep(origin, trace, s, step);
  }

  lemma TracedBegin(origin: nat, trace: seq<Step>, s: State, instant: nat)
    requires Traced(origin, trace, s)
    requires s.phase.Idle? && s.clock <= instant < CLOCK_LIMIT_MS
    ensures Traced(origin, trace + [Begin(instant)],
                   s.(phase := FiringOnce, clock := instant,
                      armed := if s.armed.Some? && s.armed.value <= instant then None else s.armed))
  {
    TracedStep(origin, trace, s, Begin(instant));
  }

  lemma TracedFireOnce(origin: nat, trace: seq<Step>, s: State, at: nat)
    requires Traced(origin, trace, s)
    requires s.phase.FiringOnce? && s.clock <= at < CLOCK_LIMIT_MS && s.once != [] && s.once[0].key <= at
    ensures Traced(origin, trace + [FireOnce(at)],
                   s.(once := s.once[1..], onceLog := s.onceLog + [Firing(s.once[0], at)], clock := at))
  {
    TracedStep(origin, trace, s, FireOnce(at));
  }

  lemma TracedEndOnce(origin: nat, trace: seq<Step>, s: State, at: nat)
    requires Traced(origin, trace, s)
    requires s.phase.FiringOnce? && s.clock <= at < CLOCK_LIMIT_MS
    requires if s.once == [] then at == s.clock else s.once[0].key > at
    ensures Traced(origin, trace + [EndOnce(at)], s.(phase := FiringRecurring, clock := at))
  {
    TracedStep(origin, trace, s, EndOnce(at));
  }

  lemma TracedEndRecurring(origin: nat, trace: seq<Step>, s: State, at: nat)
    requires Traced(origin, trace, s)
    requires s.phase.FiringRecurring? && s.clock <= at < CLOCK_LIMIT_MS
    requires if s.recurring == [] then at == s.clock else s.recurring[0].key > at
    ensures Traced(origin, trace + [EndRecurring(at)], s.(phase := Rearming, clock := at))
  {
    TracedStep(origin, trace, s, EndRecurring(at));
  }

  lemma TracedRearm(origin: nat, trace: seq<Step>, s: State, reading: nat)
    requires Traced(origin, trace, s)
    requires s.phase.Rearming? && s.clock <= reading < CLOCK_LIMIT_MS
    requires EarliestHead(s.once, s.recurring).None? ==> reading == s.clock
    ensures Traced(origin, trace + [Rearm(reading)],
                   s.(phase := Idle, clock := reading,
                      armed := Arm(s.armed, EarliestHead(s.once, s.recurring), reading)))
  {
    TracedStep(origin, trace, s, Rearm(reading));
  }

  class TimerQueue {
    const clock: Clock
    const timerFd: TimerFd
    var onceTimers: TimerMap
    var recurringTimers: TimerMap
    ghost const origin: nat
    ghost var trace: seq<Step>
    ghost var model: State
    ghost var nextId: nat

    ghost var timers: set<Timer> // every Timer object this queue has created

    /** Keys match their objects, and no object sits in two entries. */
    ghost predicate Structured()
      reads this, timers
    {
      && Coherent(onceTimers, timers) && Coherent(recurringTimers, timers)
      && Separate(onceTimers) && Separate(recurringTimers) && Disjoint(onceTimers, recurringTimers)
    }

    /** The fields agree with the machine state, at every step of every method. */
    ghost predicate Consistent()
      reads this, clock, timerFd, timers
    {
      && clock.Valid() && model.clock <= clock.Now()
      && model.armed == timerFd.expiry
      && model.once == View(onceTimers) && model.recurring == View(recurringTimers)
      && Structured()
      && Traced(origin, trace, model)
    }

    /** Identities are never used twice. */
    ghost predicate IdsBelow()
      reads this
    {
      && (forall e <- model.onceAdded :: e.val.id < nextId)
      && (forall j <- model.recurringAdded :: j.id < nextId)
    }

    /** What holds at every public boundary. */
    ghost predicate Valid()
      reads this, clock, timerFd, timers
    {
      Consistent() && model.phase.Idle? && model.clock == clock.Now() && IdsBelow()
    }

    constructor (clock: Clock, timerFd: TimerFd)
      requires clock.Valid() && timerFd.expiry == None
      ensures Valid() && this.clock == clock && this.timerFd == timerFd
      ensures origin == clock.Now() && trace == [] && timers == {}
    {
      this.clock := clock;
      this.timerFd := timerFd;
      onceTimers := [];
      recurringTimers := [];
      origin := clock.Now();
      trace := [];
      model := Init(clock.Now());
      nextId := 0;
      timers := {};
    }

    method NeedResetTimer(queue: TimerMap, timer: Timer) returns (need: bool)
      requires timer.Valid()
      ensures need == NeedReset(View(queue), timer.Deadline())
    {
      if queue == [] {
        return true;
      }
      var deadline := timer.GetTimeOutMSecond();
      if queue[0].key < deadline {
        return false;
      }
      ViewCount(queue, deadline);
      if CountKey(queue, deadline) > 1 {
        return false;
      }
      return true;
    }

    method ResetTimerFor(timer: Timer)
      requires timer.Valid() && clock.Valid()
      modifies clock, timerFd
      ensures clock.Valid() && old(clock.Now()) <= clock.Now()
      ensures timerFd.expiry
           == Some(clock.Now() + ArmingDelay(timer.Deadline(), clock.Now()))
    {
      var value := timer.GetTimeInterval(clock);
      timerFd.SetTime(value, clock.Now());
    }

    /** Chooses by the timeouts the head objects compute now, not by their keys. */
    method ResetTimer()
      requires clock.Valid() && Coherent(onceTimers, timers) && Coherent(recurringTimers, timers)
      modifies clock, timerFd
      ensures clock.Valid() && old(clock.Now()) <= clock.Now()
      ensures timerFd.expiry
           == Arm(old(timerFd.expiry), EarliestHead(View(onceTimers), View(recurringTimers)), clock.Now())
      ensures onceTimers == [] && recurringTimers == [] ==> clock.Now() == old(clock.Now())
    {
      if onceTimers == [] {
        if recurringTimers != [] {
          ResetTimerFor(recurringTimers[0].val);
        }
      } else {
        if recurringTimers == [] {
          ResetTimerFor(onceTimers[0].val);
        } else {
          var first, second := recurringTimers[0].val, onceTimers[0].val;
          var firstTimeout := first.GetTimeOutMSecond();
          var secondTimeout := second.GetTimeOutMSecond();
          if firstTimeout < secondTimeout {
            ResetTimerFor(first);
          } else {
            ResetTimerFor(second);
          }
        }
      }
    }

    /** Arms for a new timer if both queues ask for it. */
    method ArmForNew(timer: Timer)
      requires timer.Valid() && clock.Valid()
      modifies clock, timerFd
      ensures clock.Valid() && old(clock.Now()) <= clock.Now()
      ensures var d := timer.Deadline();
              if NeedReset(View(onceTimers), d) && NeedReset(View(recurringTimers), d) then
                timerFd.expiry == Some(clock.Now() + ArmingDelay(d, clock.Now()))
              else timerFd.expiry == old(timerFd.expiry) && clock.Now() == old(clock.Now())
    {
      var needed := NeedResetTimer(onceTimers, timer);
      if needed {
        needed := NeedResetTimer(recurringTimers, timer);
      }
      if needed {
        ResetTimerFor(timer);
      }
    }

    /** onceTimers.insert(deadline, timer) */
    method InsertOnce(timer: Timer)
      requires Structured() && timer.Valid() && timer !in timers
      modifies this`onceTimers, this`timers
      ensures Structured() && timers == old(timers) + {timer}
      ensures onceTimers == Insert(old(onceTimers), Item(timer.Deadline(), timer))
      ensures View(onceTimers)
           == Insert(View(old(onceTimers)), Item(timer.Deadline(), JobOf(timer)))
    {
      var deadline := timer.GetTimeOutMSecond();
      var e := Item(deadline, timer);
      ViewInsert(onceTimers, e);
      InsertSeparate(onceTimers, e);
      DisjointInsert(onceTimers, recurringTimers, e);
      timers := timers + {timer};
      InsertCoherent(onceTimers, e, timers);
      onceTimers := Insert(onceTimers, e);
    }

    /** recurringTimers.insert(deadline, timer) */
    method InsertRecurring(timer: Timer)
      requires Structured() && timer.Valid() && timer !in timers
      modifies this`recurringTimers, this`timers
      ensures Structured() && timers == old(timers) + {timer}
      ensures recurringTimers == Insert(old(recurringTimers), Item(timer.Deadline(), timer))
      ensures View(recurringTimers)
           == Insert(View(old(recurringTimers)), Item(timer.Deadline(), JobOf(timer)))
    {
      var deadline := timer.GetTimeOutMSecond();
      var e := Item(deadline, timer);
      ViewInsert(recurringTimers, e);
      InsertSeparate(recurringTimers, e);
      InsertDisjoint(onceTimers, recurringTimers, e);
      timers := timers + {timer};
      InsertCoherent(recurringTimers, e, timers);
      recurringTimers := Insert(recurringTimers, e);
    }

    /** The machine state before an addition is recorded. */
    ghost predicate BeforeRecord(step: Step)
      requires step.AddOnce? || step.AddRecurring?
      reads this, clock, timerFd, timers
    {
      && clock.Valid() && Structured() && Traced(origin, trace, model) && IdsBelow()
      && model.phase.Idle? && FreshJob(model, step.job) && step.job.id == nextId
      && model.clock <= step.start <= step.reading == clock.Now()
      && (if NeedReset(View(onceTimers), NewEntry(step).key)
             && NeedReset(View(recurringTimers), NewEntry(step).key) then
            timerFd.expiry == Some(step.reading + ArmingDelay(NewEntry(step).key, step.reading))
          else timerFd.expiry == model.armed && step.reading == step.start)
    }

    ghost method RecordAddOnce(step: Step)
      requires step.AddOnce? && BeforeRecord(step)
      requires View(onceTimers) == Insert(model.once, NewEntry(step))
      requires View(recurringTimers) == model.recurring
      modifies this`model, this`trace, this`nextId
      ensures Valid() && trace == old(trace) + [step]
    {
      TracedAddOnce(origin, trace, model, step, timerFd.expiry);
      trace := trace + [step];
      model := model.(once := View(onceTimers), armed := timerFd.expiry, clock := clock.Now(),
                      onceAdded := model.onceAdded + [NewEntry(step)]);
      nextId := nextId + 1;
    }

    ghost method RecordAddRecurring(step: Step)
      requires step.AddRecurring? && BeforeRecord(step)
      requires View(recurringTimers) == Insert(model.recurring, NewEntry(step))
      requires View(onceTimers) == model.once
      modifies this`model, this`trace, this`nextId
      ensures Valid() && trace == old(trace) + [step]
    {
      TracedAddRecurring(origin, trace, model, step, timerFd.expiry);
      trace := trace + [step];
      model := model.(recurring := View(recurringTimers), armed := timerFd.expiry,
                      clock := clock.Now(), recurringAdded := model.recurringAdded + [step.job]);
      nextId := nextId + 1;
    }

    /** Between the insertion of a timer and the decision whether to arm for it. */
    ghost predicate Inserted(timer: Timer, start: nat)
      reads this, clock, timerFd, timers, timer
    {
      && clock.Valid() && Structured() && Traced(origin, trace, model) && IdsBelow()
      && timer.Valid() && timer.Deadline() == start + timer.intervalMs && timer.id == nextId
      && model.phase.Idle? && model.armed == timerFd.expiry
      && model.clock <= start == clock.Now()
    }

    method FinishAddOnce(timer: Timer) returns (ghost step: Step)
      requires Inserted(timer, clock.Now())
      requires View(onceTimers) == Insert(model.once, Item(timer.Deadline(), JobOf(timer)))
      requires View(recurringTimers) == model.recurring
      modifies this`model, this`trace, this`nextId, clock, timerFd
      ensures Valid() && trace == old(trace) + [step]
      ensures step.AddOnce? && step.job == JobOf(timer)
      ensures if NeedReset(View(onceTimers), timer.Deadline()) && NeedReset(View(recurringTimers), timer.Deadline())
              then timerFd.expiry == Some(clock.Now() + ArmingDelay(timer.Deadline(), clock.Now()))
              else timerFd.expiry == old(timerFd.expiry)
    {
      ghost var start := clock.Now();
      ArmForNew(timer);
      step := AddOnce(JobOf(timer), start, clock.Now());
      RecordAddOnce(step);
    }

    method FinishAddRecurring(timer: Timer) returns (ghost step: Step)
      requires Inserted(timer, clock.Now())
      requires View(recurringTimers) == Insert(model.recurring, Item(timer.Deadline(), JobOf(timer)))
      requires View(onceTimers) == model.once
      modifies this`model, this`trace, this`nextId, clock, timerFd
      ensures Valid() && trace == old(trace) + [step]
      ensures step.AddRecurring? && step.job == JobOf(timer)
      ensures if NeedReset(View(onceTimers), timer.Deadline()) && NeedReset(View(recurringTimers), timer.Deadline())
              then timerFd.expiry == Some(clock.Now() + ArmingDelay(timer.Deadline(), clock.Now()))
              else timerFd.expiry == old(timerFd.expiry)
    {
      ghost var start := clock.Now();
      ArmForNew(timer);
      step := AddRecurring(JobOf(timer), start, clock.Now());
      RecordAddRecurring(step);
    }

    /** Adds a one-shot timer; the step records the readings the call made. */
    method AddOnceTimer(interval: nat) returns (timer: Timer, ghost step: Step)
      requires Valid() && interval < U32_LIMIT
      modifies this, clock, timerFd
      ensures Valid() && fresh(timer) && timer.intervalMs == interval
      ensures timers == old(timers) + {timer}
      ensures step.AddOnce? && step.job == JobOf(timer) && trace == old(trace) + [step]
      ensures onceTimers == Insert(old(onceTimers), Item(timer.Deadline(), timer))
      ensures recurringTimers == old(recurringTimers)
      ensures timerFd.expiry
           == if NewMinimum(old(onceTimers), old(recurringTimers), timer.Deadline()) then
                Some(clock.Now() + ArmingDelay(timer.Deadline(), clock.Now()))
              else old(timerFd.expiry)
      ensures (exists i :: 0 <= i < |old(onceTimers)| && old(onceTimers)[i].key <= timer.Deadline()) ==>
                timerFd.expiry == old(timerFd.expiry)
    {
      timer := new Timer(interval, clock, nextId);
      MapsAskIff(origin, trace, model, onceTimers, recurringTimers, Item(timer.Deadline(), JobOf(timer)));
      EarlierEntryDeclines(onceTimers, recurringTimers, timer.Deadline());
      InsertOnce(timer);
      step := FinishAddOnce(timer);
    }

    method AddRecurringTimer(interval: nat) returns (timer: Timer, ghost step: Step)
      requires Valid() && interval < U32_LIMIT
      modifies this, clock, timerFd
      ensures Valid() && fresh(timer) && timer.intervalMs == interval
      ensures timers == old(timers) + {timer}
      ensures step.AddRecurring? && step.job == JobOf(timer) && trace == old(trace) + [step]
      ensures recurringTimers == Insert(old(recurringTimers), Item(timer.Deadline(), timer))
      ensures onceTimers == old(onceTimers)
      ensures timerFd.expiry
           == if NewMinimum(old(recurringTimers), old(onceTimers), timer.Deadline()) then
                Some(clock.Now() + ArmingDelay(timer.Deadline(), clock.Now()))
              else old(timerFd.expiry)
      ensures (exists i :: 0 <= i < |old(recurringTimers)| && old(recurringTimers)[i].key <= timer.Deadline()) ==>
                timerFd.expiry == old(timerFd.expiry)
    {
      timer := new Timer(interval, clock, nextId);
      MapsAskIff(origin, trace, model, recurringTimers, onceTimers, Item(timer.Deadline(), JobOf(timer)));
      EarlierEntryDeclines(recurringTimers, onceTimers, timer.Deadline());
      InsertRecurring(timer);
      step := FinishAddRecurring(timer);
    }

    /** The handler is in this phase and has just read or kept the clock. */
    ghost predicate At(phase: Phase)
      reads this, clock, timerFd, timers
    {
      Consistent() && IdsBelow() && model.phase == phase && model.clock == clock.Now()
    }

    method BeginPass()
      requires Valid()
      modifies this`model, this`trace, clock, timerFd
      ensures At(FiringOnce) && trace == old(trace) + [Begin(clock.Now())]
      ensures model.recurring == old(model.recurring)
    {
      var instant := clock.Read();
      timerFd.Read(instant.Millis());
      TracedBegin(origin, trace, model, clock.Now());
      trace := trace + [Begin(clock.Now())];
      model := model.(phase := FiringOnce, clock := clock.Now(), armed := timerFd.expiry);
    }

    /** Runs the callback of the first one-shot timer and erases its entry. */
    method FireOnceHead()
      requires Consistent() && IdsBelow() && model.phase.FiringOnce?
      requires onceTimers != [] && onceTimers[0].key <= clock.Now()
      modifies this`onceTimers, this`model, this`trace
      ensures At(FiringOnce) && trace == old(trace) + [FireOnce(clock.Now())]
      ensures onceTimers == old(onceTimers)[1..]
      ensures model.recurring == old(model.recurring)
    {
      var at := clock.last.Millis();
      TracedFireOnce(origin, trace, model, at);
      model := model.(once := model.once[1..], clock := at,
                      onceLog := model.onceLog + [Firing(model.once[0], at)]);
      trace := trace + [FireOnce(at)];
      onceTimers := onceTimers[1..];
      assert View(onceTimers) == model.once;
    }

    ghost method EndOnceLoop()
      requires Consistent() && IdsBelow() && model.phase.FiringOnce?
      requires if onceTimers == [] then clock.Now() == model.clock else onceTimers[0].key > clock.Now()
      modifies this`model, this`trace
      ensures At(FiringRecurring) && trace == old(trace) + [EndOnce(clock.Now())]
      ensures model.recurring == old(model.recurring)
    {
      TracedEndOnce(origin, trace, model, clock.Now());
      model := model.(phase := FiringRecurring, clock := clock.Now());
      trace := trace + [EndOnce(clock.Now())];
    }

    /** The loop over the one-shot timers. */
    method RunOnceTimers() returns (ghost steps: seq<Step>)
      requires At(FiringOnce)
      modifies this`onceTimers, this`model, this`trace, clock
      ensures At(FiringRecurring) && trace == old(trace) + steps
      ensures AllHandlerSteps(steps) && model.recurring == old(model.recurring)
    {
      steps := [];
      while onceTimers != []
        invariant At(FiringOnce) && trace == old(trace) + steps && AllHandlerSteps(steps)
        invariant model.recurring == old(model.recurring)
        decreases |onceTimers|
      {
        var reading := clock.Read();
        if onceTimers[0].key > reading.Millis() {
          break;
        }
        FireOnceHead();
        steps := steps + [FireOnce(clock.Now())];
      }
      EndOnceLoop();
      steps := steps + [EndOnce(clock.Now())];
    }

    /**
     * One iteration of the second loop: the callback runs, the object takes a new start reading
     * while its old key is still in the map, the new key is inserted, and only then is the old
     * entry erased through the iterator.
     */
    method RenewHead()
      requires Consistent() && IdsBelow() && model.phase.FiringRecurring?
      requires recurringTimers != [] && recurringTimers[0].key <= clock.Now()
      modifies this`recurringTimers, this`model, this`trace, clock, (recurringTimers[0].val as Timer)`now
      ensures At(FiringRecurring)
      ensures trace == old(trace) + [FireRecurring(old(clock.Now()), clock.Now())]
      ensures Legal(old(model), FireRecurring(old(clock.Now()), clock.Now()))
      ensures model == Next(old(model), FireRecurring(old(clock.Now()), clock.Now()))
    {
      ghost var at := clock.Now();
      var timer := recurringTimers[0].val;
      timer.Update(clock);
      ghost var rest := recurringTimers[1..];
      assert Coherent(rest, timers);
      var deadline := timer.GetTimeOutMSecond();
      var e := Item(deadline, timer);
      ViewInsert(recurringTimers, e);
      InsertSeparate(rest, e);
      InsertCoherent(rest, e, timers);
      InsertDisjoint(onceTimers, rest, e);
      recurringTimers := Insert(recurringTimers, e);
      assert recurringTimers[1..] == Insert(rest, e);
      recurringTimers := recurringTimers[1..];
      RecordRenewal(at, deadline);
    }

    ghost method RecordRenewal(at: nat, deadline: nat)
      requires clock.Valid() && Structured() && Traced(origin, trace, model) && IdsBelow()
      requires model.armed == timerFd.expiry && model.once == View(onceTimers)
      requires model.phase.FiringRecurring? && model.clock <= at <= clock.Now()
      requires model.recurring != [] && model.recurring[0].key <= at
      requires deadline == clock.Now() + model.recurring[0].val.interval
      requires View(recurringTimers) == Insert(model.recurring, Item(deadline, model.recurring[0].val))[1..]
      modifies this`model, this`trace
      ensures At(FiringRecurring) && trace == old(trace) + [FireRecurring(at, clock.Now())]
      ensures Legal(old(model), FireRecurring(at, clock.Now()))
      ensures model == Next(old(model), FireRecurring(at, clock.Now()))
    {
      TracedStep(origin, trace, model, FireRecurring(at, clock.Now()));
      model := Next(model, FireRecurring(at, clock.Now()));
      trace := trace + [FireRecurring(at, clock.Now())];
    }

    ghost method EndRecurringLoop()
      requires Consistent() && IdsBelow() && model.phase.FiringRecurring?
      requires if recurringTimers == [] then clock.Now() == model.clock
               else recurringTimers[0].key > clock.Now()
      modifies this`model, this`trace
      ensures At(Rearming) && trace == old(trace) + [EndRecurring(clock.Now())]
    {
      TracedEndRecurring(origin, trace, model, clock.Now());
      model := model.(phase := Rearming, clock := clock.Now());
      trace := trace + [EndRecurring(clock.Now())];
    }

    /** The loop over the recurring timers; it ends because every interval is positive. */
    method RunRecurringTimers() returns (ghost steps: seq<Step>)
      requires At(FiringRecurring) && IntervalsPositive(model.recurring)
      modifies this`recurringTimers, this`model, this`trace, clock, timers
      ensures At(Rearming) && trace == old(trace) + steps && AllHandlerSteps(steps)
    {
      steps := [];
      while recurringTimers != []
        invariant At(FiringRecurring) && IntervalsPositive(model.recurring)
        invariant trace == old(trace) + steps && AllHandlerSteps(steps)
        decreases WorkLeft(model.recurring, CLOCK_LIMIT_MS)
      {
        ghost var before := model;
        var reading := clock.Read();
        if recurringTimers[0].key > reading.Millis() {
          break;
        }
        RenewHead();
        ghost var step := FireRecurring(reading.Millis(), clock.Now());
        FireReducesWork(before, step, CLOCK_LIMIT_MS);
        FireKeepsIntervals(before, step);
        steps := steps + [step];
      }
      EndRecurringLoop();
      steps := steps + [EndRecurring(clock.Now())];
    }

    method RearmAfterPass()
      requires At(Rearming)
      modifies this`model, this`trace, clock, timerFd
      ensures Valid() && trace == old(trace) + [Rearm(clock.Now())]
    {
      ResetTimer();
      TracedRearm(origin, trace, model, clock.Now());
      trace := trace + [Rearm(clock.Now())];
      model := model.(phase := Idle, clock := clock.Now(), armed := timerFd.expiry);
    }

    /**
     * The expiry handler.  It can end if and only if the recurring intervals are positive (see
     * HandlerOfObjectEndsIff); its whole effect is the pass of steps it appends.
     */
    method TimerHandle() returns (ghost steps: seq<Step>)
      requires Valid() && IntervalsPositive(model.recurring)
      modifies this, clock, timerFd, timers
      ensures Valid() && IsPass(steps) && trace == old(trace) + steps
      ensures timers == old(timers)
    {
      BeginPass();
      ghost var begin := Begin(clock.Now());
      ghost var first := RunOnceTimers();
      ghost var second := RunRecurringTimers();
      RearmAfterPass();
      steps := [begin] + first + second + [Rearm(clock.Now())];
      ShapeOfPass(begin, first, second, Rearm(clock.Now()));
      assert trace == old(trace) + steps;
    }
  }

  // ------------------------------------------- what the theorems say of every object

  /** While timers are pending, the timerfd of the object is set for the earliest deadline that its
      Timer objects compute, or at most the floor after it, if every arming so far was in time. */
  lemma PendingTimersAreCovered(queue: TimerQueue) returns (earliest: nat)
    requires queue.Valid() && AllInTime(Init(queue.origin), queue.trace)
    requires queue.onceTimers != [] || queue.recurringTimers != []
    ensures forall i :: 0 <= i < |queue.onceTimers| ==> earliest <= queue.onceTimers[i].val.Deadline()
    ensures forall i :: 0 <= i < |queue.recurringTimers| ==> earliest <= queue.recurringTimers[i].val.Deadline()
    ensures (queue.onceTimers != [] && earliest == queue.onceTimers[0].val.Deadline())
            || (queue.recurringTimers != [] && earliest == queue.recurringTimers[0].val.Deadline())
    ensures queue.timerFd.expiry.Some?
    ensures earliest <= queue.timerFd.expiry.value <= earliest + ARM_FLOOR_MS
  {
    var start, s := Init(queue.origin), queue.model;
    ArmingInvariant(start, queue.trace);
    CoveredAtEnd(start, queue.trace);
    GoodAtEnd(start, queue.trace);
    earliest := EarliestHead(s.once, s.recurring).value;
    HeadIsEarliest(s.once, s.recurring, earliest);
    assert forall i :: 0 <= i < |queue.onceTimers| ==> s.once[i].key == queue.onceTimers[i].key;
    assert forall i :: 0 <= i < |queue.recurringTimers| ==> s.recurring[i].key == queue.recurringTimers[i].key;
  }

  /** A one-shot timer that is still in the map has never fired, under any deadline. */
  lemma PendingOnceHasNotFired(queue: TimerQueue, i: nat, k: nat)
    requires queue.Valid() && i < |queue.onceTimers| && k < |queue.model.onceLog|
    ensures queue.model.onceLog[k].item.val.id != queue.onceTimers[i].val.id
  {
    var s := queue.model;
    var e, f := s.once[i], s.onceLog[k].item;
    OnceInvHolds(Init(queue.origin), queue.trace);
    OnceTimersFireExactlyOnce(queue.origin, queue.trace, e);
    assert Items(s.onceLog)[k] == f;
    assert e in multiset(s.once) && f in multiset(Items(s.onceLog));
    assert e in multiset(s.onceAdded) && f in multiset(s.onceAdded);
    var a :| 0 <= a < |s.onceAdded| && s.onceAdded[a] == e;
    var b :| 0 <= b < |s.onceAdded| && s.onceAdded[b] == f;
    assert e.val.id == f.val.id ==> a == b;
  }

  /** The recurring map holds the recurring timers ever added and nothing else, one entry each, and
      the firings of each timer are at least its interval apart. */
  lemma RecurringTimersAreKept(queue: TimerQueue)
    requires queue.Valid()
    ensures multiset(queue.model.recurringAdded) == multiset(Jobs(View(queue.recurringTimers)))
    ensures forall i, j :: 0 <= i < j < |queue.recurringTimers| ==>
              queue.recurringTimers[i].val != queue.recurringTimers[j].val
    ensures Spaced(queue.model.recurringLog)
  {
    ReachableInv(queue.origin, queue.trace);
  }

  /** What TimerHandle requires is exactly what its end depends on: the handler of an object can run
      to its end if and only if no timer in its recurring map has interval 0. */
  lemma HandlerOfObjectEndsIff(queue: TimerQueue)
    requires queue.Valid()
    ensures HandlerCanEnd(queue.model) <==>
            forall i :: 0 <= i < |queue.recurringTimers| ==> queue.recurringTimers[i].val.intervalMs > 0
    ensures HandlerCanEnd(queue.model) <==> IntervalsPositive(queue.model.recurring)
  {
    HandlerEndsIff(queue.origin, queue.trace);
    assert forall i :: 0 <= i < |queue.recurringTimers| ==>
        queue.model.recurring[i].val.interval == queue.recurringTimers[i].val.intervalMs;
  }
}
