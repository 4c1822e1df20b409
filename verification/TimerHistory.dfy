/**
 * What every run of the scheduler does to the timers: one-shot timers fire once and not early,
 * recurring timers survive and keep their distance, and a pass of the recurring loop ends.
 */
module TimerHistory {
  import opened OrderedQueue
  import opened Timers
  import opened Scheduler
  import opened ArmingRule

  function Items(log: seq<Firing>): seq<Item<Job>> {
    seq(|log|, i requires 0 <= i < |log| => log[i].item)
  }

  function Jobs(q: Queue): seq<Job> {
    seq(|q|, i requires 0 <= i < |q| => q[i].val)
  }

  // ------------------------------------------------------------ the one-shot ledger

  /** Added one-shot entries are exactly the pending ones and the fired ones. */
  ghost predicate OnceLedger(added: seq<Item<Job>>, pending: Queue, log: seq<Firing>) {
    multiset(added) == multiset(pending) + multiset(Items(log))
  }

  ghost predicate OnceDistinct(s: State) {
    forall i, j :: 0 <= i < j < |s.onceAdded| ==> s.onceAdded[i].val.id != s.onceAdded[j].val.id
  }

  predicate NotEarly(log: seq<Firing>) {
    forall i :: 0 <= i < |log| ==> log[i].item.key <= log[i].at
  }

  lemma LedgerAfterAdd(added: seq<Item<Job>>, q: Queue, log: seq<Firing>, e: Item<Job>)
    requires OnceLedger(added, q, log)
    ensures OnceLedger(added + [e], Insert(q, e), log)
  {
    InsertContents(q, e);
  }

  lemma LedgerAfterFire(added: seq<Item<Job>>, q: Queue, log: seq<Firing>, at: nat)
    requires q != [] && OnceLedger(added, q, log)
    ensures OnceLedger(added, q[1..], log + [Firing(q[0], at)])
  {
    assert q == [q[0]] + q[1..];
    assert Items(log + [Firing(q[0], at)]) == Items(log) + [q[0]];
  }

  lemma OnceLedgerStep(s: State, step: Step)
    requires OnceLedger(s.onceAdded, s.once, s.onceLog) && Legal(s, step)
    ensures OnceLedger(Next(s, step).onceAdded, Next(s, step).once, Next(s, step).onceLog)
  {
    OnceView(s, step);
    if step.AddOnce? {
      LedgerAfterAdd(s.onceAdded, s.once, s.onceLog, NewEntry(step));
    } else if step.FireOnce? {
      LedgerAfterFire(s.onceAdded, s.once, s.onceLog, step.at);
    }
  }

  lemma OnceDistinctStep(s: State, step: Step)
    requires OnceDistinct(s) && Legal(s, step)
    ensures OnceDistinct(Next(s, step))
  {
  }

  ghost predicate OnceInv(s: State) {
    && OnceLedger(s.onceAdded, s.once, s.onceLog)
    && OnceDistinct(s) && NotEarly(s.onceLog) && NotEarly(s.recurringLog)
  }

  lemma OnceInvStep(s: State, step: Step)
    requires OnceInv(s) && Legal(s, step)
    ensures OnceInv(Next(s, step))
  {
    OnceLedgerStep(s, step);
    OnceDistinctStep(s, step);
  }

  lemma {:induction false} OnceInvHolds(s: State, steps: seq<Step>)
    requires OnceInv(s) && LegalRun(s, steps)
    ensures OnceInv(Run(s, steps))
    decreases |steps|
  {
    if steps != [] {
      OnceInvStep(s, steps[0]);
      OnceInvHolds(Next(s, steps[0]), steps[1..]);
    }
  }

  lemma {:induction false} DistinctMeansOnce<T>(a: seq<T>, x: T)
    requires forall i, j :: 0 <= i < j < |a| ==> a[i] != a[j]
    ensures multiset(a)[x] <= 1
  {
    if a != [] {
      var n := |a| - 1;
      assert a == a[..n] + [a[n]];
      DistinctMeansOnce(a[..n], x);
      assert a[n] !in a[..n];
    }
  }

  /**
   * Every one-shot timer ever added is pending or fired, never both and never fired twice, and no
   * firing is earlier than its deadline (start reading plus interval).
   */
  lemma OnceTimersFireExactlyOnce(clock: nat, steps: seq<Step>, e: Item<Job>)
    requires LegalRun(Init(clock), steps)
    ensures var s := Run(Init(clock), steps);
            && NotEarly(s.onceLog)
            && multiset(s.onceAdded)[e] <= 1
            && multiset(s.once)[e] + multiset(Items(s.onceLog))[e] == multiset(s.onceAdded)[e]
  {
    OnceInvHolds(Init(clock), steps);
    DistinctMeansOnce(Run(Init(clock), steps).onceAdded, e);
  }

  predicate AllFireOnce(steps: seq<Step>) {
    forall i :: 0 <= i < |steps| ==> steps[i].FireOnce?
  }

  /** One pass of the first loop, up to and without its exit. */
  lemma {:induction false} OncePass(s: State, steps: seq<Step>)
    requires LegalRun(s, steps) && AllFireOnce(steps)
    ensures |steps| <= |s.once|
    ensures Run(s, steps).once == s.once[|steps|..]
    ensures Items(Run(s, steps).onceLog) == Items(s.onceLog) + s.once[..|steps|]
    decreases |steps|
  {
    if steps != [] {
      var t := Next(s, steps[0]);
      OnceView(s, steps[0]);
      OncePass(t, steps[1..]);
      assert Items(t.onceLog) == Items(s.onceLog) + [s.once[0]];
      assert s.once[..|steps|] == [s.once[0]] + t.once[..|steps| - 1];
      assert t.once[|steps| - 1..] == s.once[|steps|..];
    }
  }

  /**
   * A pass fires a prefix of the queue, in deadline order with ties in insertion order, and stops
   * where everything left is later than the reading that ended the loop.
   */
  lemma OncePassFiresAllDue(s: State, steps: seq<Step>, at: nat)
    requires GoodQueues(s) && LegalRun(s, steps) && AllFireOnce(steps)
    requires Legal(Run(s, steps), EndOnce(at))
    ensures |steps| <= |s.once| && Run(s, steps).once == s.once[|steps|..]
    ensures Items(Run(s, steps).onceLog) == Items(s.onceLog) + s.once[..|steps|]
    ensures forall i :: 0 <= i < |s.once| ==> (s.once[i].key <= at <==> i < |steps|)
  {
    OncePass(s, steps);
    var n, t := |steps|, Run(s, steps);
    forall i | n <= i < |s.once| ensures at < s.once[i].key {
      assert t.once[0] == s.once[n];
    }
    FiredKeysAreBelowClock(s, steps);
  }

  lemma {:induction false} FiredKeysAreBelowClock(s: State, steps: seq<Step>)
    requires LegalRun(s, steps) && AllFireOnce(steps)
    ensures s.clock <= Run(s, steps).clock
    ensures |steps| <= |s.once|
    ensures forall i :: 0 <= i < |steps| ==> s.once[i].key <= Run(s, steps).clock
    decreases |steps|
  {
    if steps != [] {
      var t := Next(s, steps[0]);
      OnceView(s, steps[0]);
      FiredKeysAreBelowClock(t, steps[1..]);
      assert forall i :: 0 < i < |steps| ==> s.once[i] == t.once[i - 1];
    }
  }

  // ------------------------------------------------------------ recurring timers

  /** The recurring timers pending are the ones ever added: re-keying loses and doubles none. */
  ghost predicate RecurringKept(added: seq<Job>, q: Queue) {
    multiset(added) == multiset(Jobs(q))
  }

  ghost predicate RecurringDistinct(s: State) {
    forall i, j :: 0 <= i < j < |s.recurringAdded| ==> s.recurringAdded[i].id != s.recurringAdded[j].id
  }

  ghost predicate LogKnown(s: State) {
    forall i :: 0 <= i < |s.recurringLog| ==> s.recurringLog[i].item.val in s.recurringAdded
  }

  /** Consecutive firings of one timer are at least its interval apart. */
  ghost predicate Spaced(log: seq<Firing>) {
    forall i, j :: 0 <= i < j < |log| && log[i].item.val == log[j].item.val ==>
      log[i].at + log[j].item.val.interval <= log[j].at
  }

  /** A pending recurring timer is due no sooner than an interval after each of its firings. */
  ghost predicate KeysAhead(log: seq<Firing>, q: Queue) {
    forall i, j :: 0 <= i < |log| && 0 <= j < |q| && log[i].item.val == q[j].val ==>
      log[i].at + q[j].val.interval <= q[j].key
  }

  ghost predicate RecurringInv(s: State) {
    && RecurringKept(s.recurringAdded, s.recurring) && RecurringDistinct(s) && LogKnown(s)
    && Spaced(s.recurringLog) && KeysAhead(s.recurringLog, s.recurring)
  }

  lemma {:induction false} JobsInsert(q: Queue, e: Item<Job>)
    ensures multiset(Jobs(Insert(q, e))) == multiset(Jobs(q)) + multiset{e.val}
  {
    if q == [] || e.key < q[0].key {
      assert Jobs([e] + q) == [e.val] + Jobs(q);
    } else {
      JobsInsert(q[1..], e);
      assert Jobs(q) == [q[0].val] + Jobs(q[1..]);
      assert Jobs([q[0]] + Insert(q[1..], e)) == [q[0].val] + Jobs(Insert(q[1..], e));
    }
  }

  lemma AdditionKeepsJobs(added: seq<Job>, q: Queue, e: Item<Job>)
    requires RecurringKept(added, q)
    ensures RecurringKept(added + [e.val], Insert(q, e))
  {
    JobsInsert(q, e);
  }

  lemma RenewalKeepsJobs(added: seq<Job>, q: Queue, e: Item<Job>)
    requires q != [] && q[0].val == e.val && RecurringKept(added, q)
    ensures RecurringKept(added, Insert(q[1..], e))
  {
    JobsInsert(q[1..], e);
    assert Jobs(q) == [q[0].val] + Jobs(q[1..]);
  }

  lemma RecurringKeptStep(s: State, step: Step)
    requires RecurringKept(s.recurringAdded, s.recurring) && Legal(s, step)
    ensures RecurringKept(Next(s, step).recurringAdded, Next(s, step).recurring)
  {
    RecurringView(s, step);
    if step.AddRecurring? {
      AdditionKeepsJobs(s.recurringAdded, s.recurring, NewEntry(step));
    } else if step.FireRecurring? {
      RenewalKeepsJobs(s.recurringAdded, s.recurring, Renewed(s, step));
    }
  }

  lemma AddedDistinctStep(s: State, step: Step)
    requires RecurringDistinct(s) && LogKnown(s) && RecurringKept(s.recurringAdded, s.recurring) && Legal(s, step)
    ensures RecurringDistinct(Next(s, step)) && LogKnown(Next(s, step))
  {
    var t := Next(s, step);
    if step.AddRecurring? {
      forall i, j | 0 <= i < j < |t.recurringAdded|
        ensures t.recurringAdded[i].id != t.recurringAdded[j].id
      {
        assert t.recurringAdded[i] == s.recurringAdded[i] && s.recurringAdded[i] in s.recurringAdded;
      }
    } else if step.FireRecurring? {
      HeadIsKnown(s);
    }
  }

  lemma HeadIsKnown(s: State)
    requires RecurringKept(s.recurringAdded, s.recurring) && s.recurring != []
    ensures s.recurring[0].val in s.recurringAdded
  {
    assert Jobs(s.recurring)[0] in multiset(Jobs(s.recurring));
    assert s.recurring[0].val in multiset(s.recurringAdded);
  }

  /** Each recurring timer sits in exactly one entry. */
  lemma OneEntryEach(s: State, i: nat, j: nat)
    requires RecurringKept(s.recurringAdded, s.recurring) && RecurringDistinct(s) && i < j < |s.recurring|
    ensures s.recurring[i].val != s.recurring[j].val
  {
    DistinctMeansOnce(s.recurringAdded, s.recurring[i].val);
    OnceMeansDistinct(Jobs(s.recurring), i, j);
  }

  lemma OnceMeansDistinct<T>(a: seq<T>, i: nat, j: nat)
    requires i < j < |a| && multiset(a)[a[i]] <= 1
    ensures a[i] != a[j]
  {
    assert a == a[..j] + [a[j]] + a[j + 1..];
    assert a[..j][i] in multiset(a[..j]);
  }

  /** Firing the head at or after its key keeps the log spaced. */
  lemma SpacedAfterFire(log: seq<Firing>, q: Queue, at: nat)
    requires Spaced(log) && KeysAhead(log, q) && q != [] && q[0].key <= at
    ensures Spaced(log + [Firing(q[0], at)])
  {
  }

  lemma KeysAheadAfterFire(log: seq<Firing>, q: Queue, at: nat, e: Item<Job>)
    requires KeysAhead(log, q) && q != [] && q[0].key <= at && q[0].val == e.val
    requires at + e.val.interval <= e.key
    requires forall j :: 0 < j < |q| ==> q[j].val != q[0].val
    ensures KeysAhead(log + [Firing(q[0], at)], Insert(q[1..], e))
  {
    var n, t, r := |log|, log + [Firing(q[0], at)], Insert(q[1..], e);
    InsertContents(q[1..], e);
    forall i, j | 0 <= i <= n && 0 <= j < |r| && t[i].item.val == r[j].val
      ensures t[i].at + r[j].val.interval <= r[j].key
    {
      assert r[j] in r;
      if r[j] == e {
        assert i < n ==> log[i].at + q[0].val.interval <= q[0].key;
      } else {
        assert r[j] in q[1..];
        var k :| 0 < k < |q| && q[k] == r[j];
        assert i < n && t[i] == log[i];
      }
    }
  }

  lemma SpacingFire(s: State, step: Step)
    requires RecurringInv(s) && Legal(s, step) && step.FireRecurring?
    ensures Spaced(Next(s, step).recurringLog)
    ensures KeysAhead(Next(s, step).recurringLog, Next(s, step).recurring)
  {
    RecurringView(s, step);
    forall j | 0 < j < |s.recurring| ensures s.recurring[j].val != s.recurring[0].val {
      OneEntryEach(s, 0, j);
    }
    SpacedAfterFire(s.recurringLog, s.recurring, step.at);
    KeysAheadAfterFire(s.recurringLog, s.recurring, step.at, Renewed(s, step));
  }

  lemma SpacingAdd(s: State, step: Step)
    requires RecurringInv(s) && Legal(s, step) && step.AddRecurring?
    ensures KeysAhead(Next(s, step).recurringLog, Next(s, step).recurring)
  {
    var t, e := Next(s, step), NewEntry(step);
    InsertContents(s.recurring, e);
    forall i, j | 0 <= i < |t.recurringLog| && 0 <= j < |t.recurring|
                  && t.recurringLog[i].item.val == t.recurring[j].val
      ensures t.recurringLog[i].at + t.recurring[j].val.interval <= t.recurring[j].key
    {
      assert t.recurring[j] in t.recurring;
      assert s.recurringLog[i].item.val in s.recurringAdded;
      if t.recurring[j] in s.recurring {
        var k :| 0 <= k < |s.recurring| && s.recurring[k] == t.recurring[j];
      }
    }
  }

  lemma RecurringInvStep(s: State, step: Step)
    requires RecurringInv(s) && Legal(s, step)
    ensures RecurringInv(Next(s, step))
  {
    RecurringKeptStep(s, step);
    AddedDistinctStep(s, step);
    match step
    case FireRecurring(_, _) => SpacingFire(s, step);
    case AddRecurring(_, _, _) => SpacingAdd(s, step);
    case _ =>
  }

  /** Over every run: no recurring timer is lost, and firings of one timer keep their distance. */
  lemma {:induction false} RecurringInvHolds(s: State, steps: seq<Step>)
    requires RecurringInv(s) && LegalRun(s, steps)
    ensures RecurringInv(Run(s, steps))
    decreases |steps|
  {
    if steps != [] {
      RecurringInvStep(s, steps[0]);
      RecurringInvHolds(Next(s, steps[0]), steps[1..]);
    }
  }

  /** Every state that a run from the start reaches keeps the recurring invariant. */
  lemma ReachableInv(clock: nat, steps: seq<Step>)
    requires LegalRun(Init(clock), steps)
    ensures RecurringInv(Run(Init(clock), steps))
  {
    RecurringInvHolds(Init(clock), steps);
  }

  lemma ReachableSpaced(clock: nat, before: seq<Step>, steps: seq<Step>)
    requires LegalRun(Init(clock), before) && LegalRun(Run(Init(clock), before), steps)
    ensures Spaced(Run(Run(Init(clock), before), steps).recurringLog)
  {
    ReachableInv(clock, before);
    RecurringInvHolds(Run(Init(clock), before), steps);
  }

  /** The log only grows, by firings read between the two clocks and not before their keys. */
  lemma {:induction false} LogGrows(s: State, steps: seq<Step>)
    requires LegalRun(s, steps)
    ensures s.clock <= Run(s, steps).clock
    ensures s.recurringLog <= Run(s, steps).recurringLog
    ensures forall i :: |s.recurringLog| <= i < |Run(s, steps).recurringLog| ==>
              && s.clock <= Run(s, steps).recurringLog[i].at <= Run(s, steps).clock
              && Run(s, steps).recurringLog[i].item.key <= Run(s, steps).recurringLog[i].at
    decreases |steps|
  {
    if steps != [] {
      LogGrows(Next(s, steps[0]), steps[1..]);
    }
  }

  /** Firings of a timer among the log entries from `from` up to but not including `to`. */
  function FiringsOf(log: seq<Firing>, from: nat, to: nat, job: Job): nat
    requires from <= to <= |log|
  {
    if from == to then 0
    else FiringsOf(log, from, to - 1, job) + if log[to - 1].item.val == job then 1 else 0
  }

  lemma {:induction false} SpacedFirings(log: seq<Firing>, from: nat, to: nat, job: Job, lo: nat)
    returns (last: nat)
    requires from <= to <= |log| && Spaced(log) && FiringsOf(log, from, to, job) > 0
    requires forall i :: from <= i < to ==> lo <= log[i].at
    ensures from <= last < to && log[last].item.val == job
    ensures lo + (FiringsOf(log, from, to, job) - 1) * job.interval <= log[last].at
  {
    var n := to - 1;
    var m := FiringsOf(log, from, n, job);
    if log[n].item.val != job {
      last := SpacedFirings(log, from, n, job, lo);
    } else if m == 0 {
      last := n;
    } else {
      last := n;
      var k := SpacedFirings(log, from, n, job, lo);
      assert log[k].at + job.interval <= log[n].at;
      assert m * job.interval == (m - 1) * job.interval + job.interval;
    }
  }

  lemma MulMonotone(a: nat, b: nat, d: nat)
    requires a <= b
    ensures a * d <= b * d
  {
  }

  lemma BoundByDivision(n: nat, d: nat, x: nat)
    requires d > 0 && n * d <= x
    ensures n <= x / d
  {
    if n > x / d {
      MulMonotone(x / d + 1, n, d);
    }
  }

  /** How often a timer of this interval can fire within so many milliseconds. */
  function MaxFirings(elapsed: nat, interval: nat): nat
    requires interval > 0
  {
    1 + elapsed / interval
  }

  /** Spaced firings within a window of time. */
  lemma WindowBound(log: seq<Firing>, from: nat, job: Job, lo: nat, hi: nat)
    requires from <= |log| && Spaced(log) && job.interval > 0 && lo <= hi
    requires forall i :: from <= i < |log| ==> lo <= log[i].at <= hi
    ensures FiringsOf(log, from, |log|, job) <= MaxFirings(hi - lo, job.interval)
  {
    if FiringsOf(log, from, |log|, job) > 0 {
      var last := SpacedFirings(log, from, |log|, job, lo);
      BoundByDivision(FiringsOf(log, from, |log|, job) - 1, job.interval, hi - lo);
    }
  }

  /**
   * However late and however often the handler runs, between two clock readings a recurring timer
   * fires at most 1 + elapsed / interval times; so at most once while the clock stands still.
   */
  lemma FiringsAreBounded(clock: nat, before: seq<Step>, steps: seq<Step>, job: Job)
    requires LegalRun(Init(clock), before) && LegalRun(Run(Init(clock), before), steps)
    requires job.interval > 0
    ensures var s, t := Run(Init(clock), before), Run(Run(Init(clock), before), steps);
            && s.clock <= t.clock && |s.recurringLog| <= |t.recurringLog|
            && FiringsOf(t.recurringLog, |s.recurringLog|, |t.recurringLog|, job)
               <= MaxFirings(t.clock - s.clock, job.interval)
  {
    var s := Run(Init(clock), before);
    LogGrows(s, steps);
    ReachableSpaced(clock, before, steps);
    WindowBound(Run(s, steps).recurringLog, |s.recurringLog|, job, s.clock, Run(s, steps).clock);
  }

  // ------------------------------------------------------------ termination of a pass

  /** Work left for a recurring pass whose readings stay at or below the horizon. */
  function WorkLeft(q: Queue, horizon: nat): nat {
    if q == [] then 0
    else (if q[0].key <= horizon then horizon + 1 - q[0].key else 0) + WorkLeft(q[1..], horizon)
  }

  lemma {:induction false} WorkLeftInsert(q: Queue, e: Item<Job>, horizon: nat)
    ensures WorkLeft(Insert(q, e), horizon)
         == WorkLeft(q, horizon) + if e.key <= horizon then horizon + 1 - e.key else 0
  {
    if q == [] || e.key < q[0].key {
      assert Insert(q, e)[1..] == q;
    } else {
      assert Insert(q, e)[1..] == Insert(q[1..], e);
      WorkLeftInsert(q[1..], e, horizon);
    }
  }

  lemma FireReducesWork(s: State, step: Step, horizon: nat)
    requires Legal(s, step) && step.FireRecurring? && step.renewed <= horizon
    requires s.recurring[0].val.interval > 0
    ensures WorkLeft(Next(s, step).recurring, horizon) < WorkLeft(s.recurring, horizon)
  {
    RecurringView(s, step);
    WorkLeftInsert(s.recurring[1..], Renewed(s, step), horizon);
  }

  ghost predicate IntervalsPositive(q: Queue) {
    forall i :: 0 <= i < |q| ==> q[i].val.interval > 0
  }

  lemma FireKeepsIntervals(s: State, step: Step)
    requires Legal(s, step) && step.FireRecurring? && IntervalsPositive(s.recurring)
    ensures IntervalsPositive(Next(s, step).recurring)
  {
    RecurringView(s, step);
    InsertContents(s.recurring[1..], Renewed(s, step));
    var q := Next(s, step).recurring;
    forall i | 0 <= i < |q| ensures q[i].val.interval > 0 {
      assert q[i] in q;
      if q[i] in s.recurring[1..] {
        var k :| 0 <= k < |s.recurring| - 1 && s.recurring[1..][k] == q[i];
        assert s.recurring[k + 1] == q[i];
      }
    }
  }

  /** Iterations of the second loop whose readings do not pass the horizon. */
  predicate AllFireRecurring(steps: seq<Step>, horizon: nat) {
    forall i :: 0 <= i < |steps| ==> steps[i].FireRecurring? && steps[i].renewed <= horizon
  }

  /** With positive intervals a pass under a bounded clock has a bounded number of iterations. */
  lemma {:induction false} RecurringPassEnds(s: State, steps: seq<Step>, horizon: nat)
    requires IntervalsPositive(s.recurring) && LegalRun(s, steps)
    requires AllFireRecurring(steps, horizon)
    ensures |steps| + WorkLeft(Run(s, steps).recurring, horizon) <= WorkLeft(s.recurring, horizon)
    decreases |steps|
  {
    if steps != [] {
      FireReducesWork(s, steps[0], horizon);
      FireKeepsIntervals(s, steps[0]);
      RecurringPassEnds(Next(s, steps[0]), steps[1..], horizon);
    }
  }

  /** The entry was fired since the log had this length. */
  ghost predicate FiredSince(log: seq<Firing>, from: nat, e: Item<Job>) {
    exists k :: from <= k < |log| && log[k].item == e
  }

  lemma {:induction false} EntryStaysOrFires(s: State, steps: seq<Step>, e: Item<Job>, horizon: nat)
    requires LegalRun(s, steps) && AllFireRecurring(steps, horizon) && e in s.recurring
    ensures e in Run(s, steps).recurring || FiredSince(Run(s, steps).recurringLog, |s.recurringLog|, e)
    decreases |steps|
  {
    if steps != [] {
      var t, u := Next(s, steps[0]), Run(s, steps);
      RecurringView(s, steps[0]);
      LogGrows(t, steps[1..]);
      if e == s.recurring[0] {
        assert u.recurringLog[|s.recurringLog|] == t.recurringLog[|s.recurringLog|];
      } else {
        assert s.recurring == [s.recurring[0]] + s.recurring[1..];
        InsertContents(s.recurring[1..], Renewed(s, steps[0]));
        EntryStaysOrFires(t, steps[1..], e, horizon);
      }
    }
  }

  /**
   * A complete second loop fires exactly the entries it finds that are due at the reading that ended
   * it, each at least once, and leaves none due at that reading, the renewed ones included.
   */
  lemma RecurringPassFiresAllDue(s: State, steps: seq<Step>, at: nat)
    requires GoodQueues(s) && LegalRun(s, steps) && AllFireRecurring(steps, CLOCK_LIMIT_MS)
    requires Legal(Run(s, steps), EndRecurring(at))
    ensures forall e :: e in s.recurring ==>
              (e.key <= at <==> FiredSince(Run(s, steps).recurringLog, |s.recurringLog|, e))
    ensures forall e :: e in Run(s, steps).recurring ==> at < e.key
  {
    var t := Run(s, steps);
    GoodAtEnd(s, steps);
    LogGrows(s, steps);
    forall e | e in t.recurring ensures at < e.key {
      var i :| 0 <= i < |t.recurring| && t.recurring[i] == e;
      assert t.recurring[0].key <= t.recurring[i].key;
    }
    forall e | e in s.recurring
      ensures e.key <= at <==> FiredSince(t.recurringLog, |s.recurringLog|, e)
    {
      EntryStaysOrFires(s, steps, e, CLOCK_LIMIT_MS);
    }
  }

  /** A recurring timer of interval 0 that is due. */
  ghost predicate ZeroIntervalDue(s: State) {
    exists i :: 0 <= i < |s.recurring| && s.recurring[i].val.interval == 0 && s.recurring[i].key <= s.clock
  }

  lemma ZeroIntervalStaysDue(s: State, step: Step)
    requires ZeroIntervalDue(s) && Legal(s, step) && step.FireRecurring?
    ensures ZeroIntervalDue(Next(s, step))
  {
    var i :| 0 <= i < |s.recurring| && s.recurring[i].val.interval == 0 && s.recurring[i].key <= s.clock;
    RecurringView(s, step);
    var t, e := Next(s, step), Renewed(s, step);
    InsertContents(s.recurring[1..], e);
    var w := if i == 0 then e else s.recurring[i];
    assert i > 0 ==> s.recurring[i] == s.recurring[1..][i - 1];
    assert w in t.recurring;
    var j :| 0 <= j < |t.recurring| && t.recurring[j] == w;
  }

  /** Such a timer is all it takes: added, and due when the handler reaches its second loop. */
  lemma ZeroIntervalIsReachable(start: nat, instant: nat)
    requires start <= instant < CLOCK_LIMIT_MS
    ensures var steps := [AddRecurring(Job(0, 0), start, start), Begin(instant), EndOnce(instant)];
            && LegalRun(Init(start), steps)
            && ZeroIntervalDue(Run(Init(start), steps)) && Run(Init(start), steps).phase.FiringRecurring?
  {
    var s, add := Init(start), AddRecurring(Job(0, 0), start, start);
    InsertContents(s.recurring, NewEntry(add));
    assert Legal(s, add);
    var t := Next(s, add);
    assert Legal(t, Begin(instant));
    var u := Next(t, Begin(instant));
    assert Legal(u, EndOnce(instant));
    RunThree(s, add, Begin(instant), EndOnce(instant));
    var v := Next(u, EndOnce(instant));
    assert v.recurring[0] == NewEntry(add);
  }

  lemma RunThree(s: State, a: Step, b: Step, c: Step)
    requires Legal(s, a) && Legal(Next(s, a), b) && Legal(Next(Next(s, a), b), c)
    ensures LegalRun(s, [a, b, c]) && Run(s, [a, b, c]) == Next(Next(Next(s, a), b), c)
  {
    assert [a, b, c] == [a, b] + [c] && [a, b] == [a] + [b] && [a] == [] + [a];
    RunSnoc(s, [], a);
    RunSnoc(s, [a], b);
    RunSnoc(s, [a, b], c);
  }

  /** With one due timer of interval 0 the loop of the pass has no exit, whatever the clock does. */
  lemma {:induction false} ZeroIntervalNeverEnds(s: State, steps: seq<Step>, at: nat)
    requires GoodQueues(s) && s.phase.FiringRecurring? && ZeroIntervalDue(s)
    requires LegalRun(s, steps) && AllFireRecurring(steps, CLOCK_LIMIT_MS)
    ensures !Legal(Run(s, steps), EndRecurring(at))
    decreases |steps|
  {
    if steps == [] {
      var i :| 0 <= i < |s.recurring| && s.recurring[i].val.interval == 0 && s.recurring[i].key <= s.clock;
      assert s.recurring[0].key <= s.recurring[i].key;
    } else {
      QueuesStayGood(s, steps[0]);
      ZeroIntervalStaysDue(s, steps[0]);
      ZeroIntervalNeverEnds(Next(s, steps[0]), steps[1..], at);
    }
  }
}
