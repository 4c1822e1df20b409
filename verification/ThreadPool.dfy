/** The pool of event loops (src/thread/eventThreadPool.cpp). */
module ThreadPools {
  import opened Wrappers
  import opened Widths
  import opened ThreadStart

  /** The index the next call uses: incremented in 16 bits, then brought back into the pool. */
  function NextIndex(index: nat, size: nat): nat {
    if (index + 1) % U16_LIMIT >= size then 0 else (index + 1) % U16_LIMIT
  }

  function IndexAfter(index: nat, size: nat, calls: nat): nat {
    if calls == 0 then index else NextIndex(IndexAfter(index, size, calls - 1), size)
  }

  /** Calls until the index is back where it was; a 16-bit index reaches no more loops than that. */
  function Round(size: nat): nat {
    if size < U16_LIMIT then size else U16_LIMIT
  }

  /** Within one round the index walks up to the end of the pool and on from its start. */
  lemma {:induction false} IndexWalksRound(index: nat, size: nat, calls: nat)
    requires index < Round(size) && calls <= Round(size)
    ensures IndexAfter(index, size, calls)
         == if index + calls < Round(size) then index + calls else index + calls - Round(size)
  {
    if calls > 0 {
      IndexWalksRound(index, size, calls - 1);
    }
  }

  /** Among the calls of one round each loop that the index can reach is chosen exactly once, and
      then all repeats. */
  lemma EachLoopOnce(index: nat, size: nat, target: nat) returns (call: nat)
    requires index < Round(size) && target < Round(size)
    ensures 1 <= call <= Round(size) && IndexAfter(index, size, call) == target
    ensures forall other :: 1 <= other <= Round(size) && IndexAfter(index, size, other) == target ==>
              other == call
    ensures IndexAfter(index, size, Round(size)) == index
  {
    call := if target > index then target - index else target + Round(size) - index;
    IndexWalksRound(index, size, Round(size));
    forall other | 1 <= other <= Round(size)
      ensures IndexAfter(index, size, other) == target <==> other == call
    {
      IndexWalksRound(index, size, other);
    }
  }

  /** A run of the start handshake to the point where getEventLoopInThread has returned. */
  predicate Handshake(run: seq<Step>) {
    LegalRun(INIT, run) && Run(INIT, run).creator.Returned?
  }

  /** What getEventLoopInThread returned. */
  function LoopOf(run: seq<Step>): Option<nat>
    requires Handshake(run)
  {
    Run(INIT, run).creator.loop
  }

  /** What the handshakes returned, in order. */
  function Loops(runs: seq<seq<Step>>): (loops: seq<Option<nat>>)
    requires forall i :: 0 <= i < |runs| ==> Handshake(runs[i])
    ensures |loops| == |runs|
  {
    seq(|runs|, i requires 0 <= i < |runs| && Handshake(runs[i]) => LoopOf(runs[i]))
  }

  /** An entry of the pool is null exactly where the creator's wait was over before the loop was
      published, and is the thread's own loop everywhere else. */
  lemma PoolEntryIsNullIff(runs: seq<seq<Step>>, i: nat)
    requires i < |runs| && forall k :: 0 <= k < |runs| ==> Handshake(runs[k])
    ensures Loops(runs)[i].None? <==> TakenUnpublished(runs[i])
    ensures !TakenUnpublished(runs[i]) ==> Loops(runs)[i] == Run(INIT, runs[i]).loop
  {
    NullIffTakenUnpublished(runs[i]);
  }

  /** Handshakes in which no creator's wait wakes spuriously fill the pool with the threads' own
      loops, none of them null. */
  lemma PoolHasNoNull(runs: seq<seq<Step>>)
    requires forall i :: 0 <= i < |runs| ==> Handshake(runs[i]) && SpuriousCreator !in runs[i]
    ensures forall i :: 0 <= i < |runs| ==> Loops(runs)[i].Some? && Loops(runs)[i] == Run(INIT, runs[i]).loop
  {
    forall i | 0 <= i < |runs|
      ensures Loops(runs)[i].Some? && Loops(runs)[i] == Run(INIT, runs[i]).loop
    {
      LoopIsNotNull(runs[i]);
    }
  }

  class EventThreadPool {
    const mainLoop: nat
    var started: bool
    var threadNum: nat
    var threadIndex: nat
    var eventLoopPoll: seq<Option<nat>> // loop pointers; None is null

    ghost predicate Valid()
      reads this
    {
      && threadNum < U16_LIMIT && threadIndex < U16_LIMIT
      && (if eventLoopPoll == [] then threadIndex == 0 else threadIndex < |eventLoopPoll|)
    }

    constructor (loop: nat)
      ensures Valid() && mainLoop == loop && eventLoopPoll == [] && !started
    {
      mainLoop := loop;
      started := false;
      threadNum := 0;
      threadIndex := 0;
      eventLoopPoll := [];
    }

    method SetThreadNum(num: nat)
      requires Valid() && num < U16_LIMIT
      modifies this`threadNum
      ensures Valid() && threadNum == num
    {
      threadNum := num;
    }

    /** Starts threadNum threads one after the other, each through its handshake, and appends the
        loops they returned. */
    method Init(runs: seq<seq<Step>>)
      requires Valid() && |runs| == threadNum
      requires forall i :: 0 <= i < |runs| ==> Handshake(runs[i])
      modifies this`started, this`eventLoopPoll
      ensures Valid() && started && eventLoopPoll == old(eventLoopPoll) + Loops(runs)
    {
      var i := 0;
      while i < threadNum
        invariant 0 <= i <= threadNum
        invariant eventLoopPoll == old(eventLoopPoll) + Loops(runs)[..i]
      {
        var loop := LoopOf(runs[i]); // thread->getEventLoopInThread()
        assert Loops(runs)[..i + 1] == Loops(runs)[..i] + [loop];
        eventLoopPoll := eventLoopPoll + [loop];
        i := i + 1;
      }
      assert Loops(runs)[..threadNum] == Loops(runs);
      started := true;
    }

    method GetOneLoopFromPool() returns (loop: Option<nat>)
      requires Valid()
      modifies this`threadIndex
      ensures Valid()
      ensures eventLoopPoll == [] ==> loop == Some(mainLoop) && threadIndex == old(threadIndex)
      ensures eventLoopPoll != [] ==>
                && threadIndex == NextIndex(old(threadIndex), |eventLoopPoll|)
                && loop == eventLoopPoll[threadIndex]
    {
      if eventLoopPoll == [] {
        return Some(mainLoop);
      }
      threadIndex := (threadIndex + 1) % U16_LIMIT;
      if threadIndex >= |eventLoopPoll| {
        threadIndex := 0;
      }
      loop := eventLoopPoll[threadIndex];
    }
  }
}
