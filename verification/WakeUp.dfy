/**
 * The callback queue between threads (src/event/eventfd.cpp) as interleaved atomic steps: any
 * number of posters push under the lock and then write the eventfd; the loop thread reads the
 * eventfd, swaps the queue out under the lock and runs the batch.  Callbacks may post again.
 */
module WakeUp {
  import opened Wrappers

  /** A callback: its identity, and what it posts while it runs. */
  datatype Callback = Callback(id: nat, posts: seq<Post>)

  /** An argument of post: std::function may be empty. */
  datatype Post = Empty | Function(callback: Callback)

  /** The largest value an eventfd counter takes; a write that would pass it fails. */
  const COUNTER_MAX: nat := 0xFFFF_FFFF_FFFF_FFFE

  datatype LoopPc =
    | Waiting                                   // in epoll_wait
    | Woken                                     // the eventfd was reported, read() comes next
    | Drained                                   // after read(), before the swap
    | Running(rest: seq<Callback>)              // at the head of the batch loop
    | InCallback(todo: seq<Post>, rest: seq<Callback>) // a callback of the batch runs
    | Signalling(todo: seq<Post>, rest: seq<Callback>) // it pushed and must still write

  datatype State = State(
    queue: seq<Callback>,
    counter: nat,
    between: set<nat>,       // posters that have pushed and not yet written the eventfd
    pc: LoopPc,
    posted: seq<Callback>,   // history: non-empty callbacks in the order of their pushes
    executed: seq<Callback>) // history: callbacks in the order in which they were started

  datatype Step =
    | Push(poster: nat, post: Post)
    | Signal(poster: nat)
    | Wake
    | Drain
    | Swap
    | Start
    | PostInside   // the running callback posts its next function: the push
    | SignalInside // and the write
    | Return       // the running callback returns
    | EndBatch

  const INIT := State([], 0, {}, Waiting, [], [])

  function Signalled(counter: nat): nat {
    if counter < COUNTER_MAX then counter + 1 else counter
  }

  predicate Legal(s: State, step: Step) {
    match step
    case Push(p, _) => p !in s.between
    case Signal(p) => p in s.between
    case Wake => s.pc.Waiting? && s.counter > 0
    case Drain => s.pc.Woken?
    case Swap => s.pc.Drained?
    case Start => s.pc.Running? && s.pc.rest != []
    case PostInside => s.pc.InCallback? && s.pc.todo != []
    case SignalInside => s.pc.Signalling?
    case Return => s.pc.InCallback? && s.pc.todo == []
    case EndBatch => s.pc.Running? && s.pc.rest == []
  }

  function Next(s: State, step: Step): State
    requires Legal(s, step)
  {
    match step
    case Push(p, Empty) => s // an empty function is refused before anything is locked
    case Push(p, Function(c)) =>
      s.(queue := s.queue + [c], posted := s.posted + [c], between := s.between + {p})
    case Signal(p) => s.(counter := Signalled(s.counter), between := s.between - {p})
    case Wake => s.(pc := Woken)
    case Drain => s.(pc := Drained, counter := 0)
    case Swap => s.(pc := Running(s.queue), queue := [])
    case Start =>
      s.(pc := InCallback(s.pc.rest[0].posts, s.pc.rest[1..]), executed := s.executed + [s.pc.rest[0]])
    case PostInside =>
      if s.pc.todo[0].Empty? then s.(pc := InCallback(s.pc.todo[1..], s.pc.rest))
      else s.(pc := Signalling(s.pc.todo[1..], s.pc.rest), queue := s.queue + [s.pc.todo[0].callback],
              posted := s.posted + [s.pc.todo[0].callback])
    case SignalInside =>
      s.(counter := Signalled(s.counter), pc := InCallback(s.pc.todo, s.pc.rest))
    case Return => s.(pc := Running(s.pc.rest))
    case EndBatch => s.(pc := Waiting)
  }

  predicate LegalRun(s: State, steps: seq<Step>)
    decreases |steps|
  {
    steps == [] || (Legal(s, steps[0]) && LegalRun(Next(s, steps[0]), steps[1..]))
  }

  function Run(s: State, steps: seq<Step>): State
    requires LegalRun(s, steps)
    decreases |steps|
  {
    if steps == [] then s else Run(Next(s, steps[0]), steps[1..])
  }

  /** Two runs, the second from where the first ends, are one run. */
  lemma {:induction false} RunConcat(s: State, a: seq<Step>, b: seq<Step>)
    requires LegalRun(s, a) && LegalRun(Run(s, a), b)
    ensures LegalRun(s, a + b) && Run(s, a + b) == Run(Run(s, a), b)
    decreases |a|
  {
    if a == [] {
      assert a + b == b;
    } else {
      assert (a + b)[1..] == a[1..] + b;
      RunConcat(Next(s, a[0]), a[1..], b);
    }
  }

  /** The callbacks of the current batch that have not been started. */
  function Batch(pc: LoopPc): seq<Callback> {
    if pc.Running? || pc.InCallback? || pc.Signalling? then pc.rest else []
  }

  // ------------------------------------------------------------ safety

  /** A waiting callback always has a wake-up on its way to the loop. */
  predicate NoLostWakeUp(s: State) {
    s.queue != [] ==> s.counter > 0 || s.between != {} || s.pc.Drained? || s.pc.Signalling?
  }

  /** Started, still in the batch, still in the queue: nothing lost, doubled or reordered. */
  predicate InOrder(s: State) {
    s.executed + Batch(s.pc) + s.queue == s.posted
  }

  ghost predicate Inv(s: State) {
    NoLostWakeUp(s) && InOrder(s)
  }

  lemma NoLostWakeUpStep(s: State, step: Step)
    requires NoLostWakeUp(s) && Legal(s, step)
    ensures NoLostWakeUp(Next(s, step))
  {
  }

  lemma InOrderStep(s: State, step: Step)
    requires InOrder(s) && Legal(s, step)
    ensures InOrder(Next(s, step))
  {
  }

  /** Over every interleaving: no wake-up is lost, and callbacks run once each, in push order. */
  lemma {:induction false} InvHolds(s: State, steps: seq<Step>)
    requires Inv(s) && LegalRun(s, steps)
    ensures Inv(Run(s, steps))
    decreases |steps|
  {
    if steps != [] {
      NoLostWakeUpStep(s, steps[0]);
      InOrderStep(s, steps[0]);
      InvHolds(Next(s, steps[0]), steps[1..]);
    }
  }

  /** Every reachable state has executed a prefix of what was posted, in the order of the pushes. */
  lemma ExecutedIsPrefixOfPosted(steps: seq<Step>)
    requires LegalRun(INIT, steps)
    ensures NoLostWakeUp(Run(INIT, steps))
    ensures Run(INIT, steps).executed <= Run(INIT, steps).posted
  {
    InvHolds(INIT, steps);
    var s := Run(INIT, steps);
    assert s.executed + Batch(s.pc) + s.queue == s.executed + (Batch(s.pc) + s.queue);
  }

  /** Whatever runs meanwhile, only the swap decides what a batch contains. */
  lemma {:induction false} BatchIsFixed(s: State, steps: seq<Step>)
    requires LegalRun(s, steps) && Swap !in steps
    ensures Run(s, steps).executed + Batch(Run(s, steps).pc) == s.executed + Batch(s.pc)
    decreases |steps|
  {
    if steps != [] {
      if steps[0].Start? {
        assert s.pc.rest == [s.pc.rest[0]] + s.pc.rest[1..];
      }
      assert steps[0] in steps;
      BatchIsFixed(Next(s, steps[0]), steps[1..]);
    }
  }

  /** From a swap to the end of its batch exactly the queue of that moment is executed: what is
      posted meanwhile, even by the batch itself, waits for a later batch. */
  lemma BatchExecutesTheSwappedQueue(s: State, steps: seq<Step>)
    requires Legal(s, Swap) && LegalRun(Next(s, Swap), steps) && Swap !in steps
    requires Legal(Run(Next(s, Swap), steps), EndBatch)
    ensures Run(Next(s, Swap), steps).executed == s.executed + s.queue
  {
    BatchIsFixed(Next(s, Swap), steps);
  }

  // ------------------------------------------------------------ progress

  /** The step the loop thread takes on its own, if it is not blocked. */
  function LoopStep(s: State): Option<Step> {
    match s.pc
    case Waiting => if s.counter > 0 then Some(Wake) else None
    case Woken => Some(Drain)
    case Drained => Some(Swap)
    case Running(rest) => Some(if rest == [] then EndBatch else Start)
    case InCallback(todo, _) => Some(if todo == [] then Return else PostInside)
    case Signalling(_, _) => Some(SignalInside)
  }

  /** Work in a callback: itself, and everything it will post. */
  function Work(c: Callback): nat
    decreases c
  {
    2 + PostsWork(c.posts)
  }

  function PostWork(p: Post): nat
    decreases p
  {
    if p.Empty? then 8 else 8 + Work(p.callback)
  }

  function PostsWork(posts: seq<Post>): nat
    decreases posts
  {
    if posts == [] then 0 else PostWork(posts[0]) + PostsWork(posts[1..])
  }

  function QueueWork(q: seq<Callback>): nat {
    if q == [] then 0 else Work(q[0]) + QueueWork(q[1..])
  }

  lemma {:induction false} QueueWorkSnoc(q: seq<Callback>, c: Callback)
    ensures QueueWork(q + [c]) == QueueWork(q) + Work(c)
  {
    if q == [] {
      assert [c][1..] == [];
    } else {
      assert (q + [c])[1..] == q[1..] + [c];
      QueueWorkSnoc(q[1..], c);
    }
  }

  function PcWork(s: State): nat {
    var pending := if s.counter > 0 then 5 else 0;
    match s.pc
    case Waiting => pending
    case Woken => 4
    case Drained => 3 + pending
    case Running(rest) => 2 + pending + QueueWork(rest)
    case InCallback(todo, rest) => 3 + pending + PostsWork(todo) + QueueWork(rest)
    case Signalling(todo, rest) => 9 + pending + PostsWork(todo) + QueueWork(rest)
  }

  /** An upper bound on the steps the loop still takes if nobody else posts. */
  function Potential(s: State): nat {
    PcWork(s) + QueueWork(s.queue)
  }

  lemma LoopStepLowersPotential(s: State)
    requires LoopStep(s).Some?
    ensures Legal(s, LoopStep(s).value)
    ensures Potential(Next(s, LoopStep(s).value)) < Potential(s)
    ensures Next(s, LoopStep(s).value).between == s.between
  {
    match LoopStep(s).value
    case PostInside =>
      assert PostsWork(s.pc.todo) == PostWork(s.pc.todo[0]) + PostsWork(s.pc.todo[1..]);
      if s.pc.todo[0].Function? {
        QueueWorkSnoc(s.queue, s.pc.todo[0].callback);
      }
    case Start => assert QueueWork(s.pc.rest) == Work(s.pc.rest[0]) + QueueWork(s.pc.rest[1..]);
    case _ =>
  }

  /** The loop thread alone, until it blocks. */
  function Settle(s: State): (steps: seq<Step>)
    decreases Potential(s)
  {
    if LoopStep(s).None? then []
    else
      LoopStepLowersPotential(s);
      var step := LoopStep(s).value;
      [step] + Settle(Next(s, step))
  }

  lemma {:induction false} SettleRuns(s: State)
    requires Inv(s)
    ensures LegalRun(s, Settle(s)) && |Settle(s)| <= Potential(s)
    ensures var t := Run(s, Settle(s));
            LoopStep(t).None? && t.between == s.between && s.posted <= t.posted && Inv(t)
    decreases Potential(s)
  {
    if LoopStep(s).Some? {
      LoopStepLowersPotential(s);
      var step := LoopStep(s).value;
      var t := Next(s, step);
      NoLostWakeUpStep(s, step);
      InOrderStep(s, step);
      SettleRuns(t);
      assert Settle(s)[1..] == Settle(t);
    }
  }

  /** With no poster between push and write, the loop blocks only when nothing is left. */
  lemma BlockedMeansDone(t: State)
    requires Inv(t) && LoopStep(t).None? && t.between == {}
    ensures t.pc.Waiting? && t.counter == 0 && t.queue == [] && t.executed == t.posted
  {
  }

  /**
   * Delivery: once the posters are past their writes, the loop on its own executes everything that
   * was posted, exactly once and in push order, within a bounded number of steps, and only then
   * does it block; re-posting callbacks included.
   */
  lemma EverythingIsDelivered(before: seq<Step>)
    requires LegalRun(INIT, before) && Run(INIT, before).between == {}
    ensures var s := Run(INIT, before);
            && LegalRun(s, Settle(s)) && |Settle(s)| <= Potential(s)
            && (var t := Run(s, Settle(s));
                && t.pc.Waiting? && t.counter == 0 && t.queue == []
                && t.executed == t.posted && s.posted <= t.posted)
  {
    InvHolds(INIT, before);
    SettleRuns(Run(INIT, before));
    BlockedMeansDone(Run(Run(INIT, before), Settle(Run(INIT, before))));
  }
}
