/**
 * The class EventFD (src/event/eventfd.cpp), one uncontended call at a time.  Its methods take the
 * steps of the machine in WakeUp, which covers every interleaving of them.
 */
module EventFds {
  import opened WakeUp

  ghost predicate Traced(trace: seq<Step>, s: State) {
    LegalRun(INIT, trace) && Run(INIT, trace) == s
  }

  /** The non-empty functions among the posts, in order. */
  function Functions(posts: seq<Post>): seq<Callback> {
    if posts == [] then []
    else (if posts[0].Function? then [posts[0].callback] else []) + Functions(posts[1..])
  }

  /** Everything the callbacks of a batch post while they run, in order. */
  function PostedBy(batch: seq<Callback>): seq<Callback> {
    if batch == [] then [] else Functions(batch[0].posts) + PostedBy(batch[1..])
  }

  lemma MoveFirst(done: seq<Callback>, batch: seq<Callback>)
    requires batch != []
    ensures done + [batch[0]] + batch[1..] == done + batch
  {
  }

  lemma PostFirst(queue: seq<Callback>, batch: seq<Callback>)
    requires batch != []
    ensures queue + Functions(batch[0].posts) + PostedBy(batch[1..]) == queue + PostedBy(batch)
  {
  }

  class EventFd {
    var callbacks: seq<Callback>
    ghost var counter: nat // the kernel's eventfd counter
    ghost var trace: seq<Step>
    ghost var model: State

    ghost predicate Valid()
      reads this
    {
      Traced(trace, model) && model.queue == callbacks && model.counter == counter
    }

    constructor ()
      ensures Valid() && trace == []
    {
      callbacks := [];
      counter := 0;
      trace := [];
      model := INIT;
    }

    ghost method Take(step: Step)
      requires Traced(trace, model) && Legal(model, step)
      modifies this`trace, this`model
      ensures Traced(trace, model) && trace == old(trace) + [step]
      ensures model == Next(old(model), step)
    {
      assert LegalRun(Next(model, step), []) && [step][1..] == [];
      RunConcat(INIT, trace, [step]);
      trace := trace + [step];
      model := Next(model, step);
    }

    /** The critical section of a push by this poster. */
    method AtomicPushBack(poster: nat, callback: Callback)
      requires Valid() && poster !in model.between
      modifies this`callbacks, this`trace, this`model
      ensures Valid() && callbacks == old(callbacks) + [callback]
      ensures trace == old(trace) + [Push(poster, Function(callback))]
      ensures model == Next(old(model), Push(poster, Function(callback)))
    {
      callbacks := callbacks + [callback];
      Take(Push(poster, Function(callback)));
    }

    /** An empty function changes nothing; any other is queued first and signalled second. */
    method PostImpl(poster: nat, post: Post)
      requires Valid() && poster !in model.between
      modifies this
      ensures Valid() && model.between == old(model.between) && model.pc == old(model.pc)
      ensures callbacks == old(callbacks) + Functions([post])
      ensures post.Empty? ==> trace == old(trace) && counter == old(counter)
      ensures post.Function? ==> trace == old(trace) + [Push(poster, post), Signal(poster)]
      ensures post.Function? ==> counter == if old(counter) < COUNTER_MAX then old(counter) + 1 else old(counter)
    {
      assert Functions([post][1..]) == [];
      if post.Empty? {
        return;
      }
      AtomicPushBack(poster, post.callback);
      counter := Signalled(counter);
      Take(Signal(poster));
      assert model.between == old(model.between);
    }

    method AtomicPopAll() returns (extracted: seq<Callback>)
      requires Valid() && model.pc.Drained?
      modifies this`callbacks, this`trace, this`model
      ensures Valid() && extracted == old(callbacks) && callbacks == []
      ensures trace == old(trace) + [Swap] && model == Next(old(model), Swap)
    {
      extracted := [];
      callbacks, extracted := extracted, callbacks;
      Take(Swap);
    }

    /** The callback at work posts what it has to post, through the same queue. */
    method Execute(callback: Callback)
      requires Valid() && model.pc == InCallback(callback.posts, Batch(model.pc))
      modifies this
      ensures Valid() && model.pc == Running(old(Batch(model.pc)))
      ensures model.executed == old(model.executed) && model.between == old(model.between)
      ensures callbacks == old(callbacks) + Functions(callback.posts)
      ensures if Functions(callback.posts) == [] then counter == old(counter) else counter > 0
    {
      var todo := callback.posts;
      ghost var rest := Batch(model.pc);
      while todo != []
        invariant Valid() && model.pc == InCallback(todo, rest)
        invariant model.executed == old(model.executed) && model.between == old(model.between)
        invariant old(callbacks) + Functions(callback.posts) == callbacks + Functions(todo)
        invariant |Functions(todo)| <= |Functions(callback.posts)|
        invariant if |Functions(todo)| == |Functions(callback.posts)| then counter == old(counter)
                  else counter > 0
        decreases |todo|
      {
        if todo[0].Function? {
          callbacks := callbacks + [todo[0].callback];
        }
        Take(PostInside);
        if todo[0].Function? {
          counter := Signalled(counter);
          Take(SignalInside);
        }
        todo := todo[1..];
      }
      Take(Return);
    }

    method PopAndExecuteFirstCallback(batch: seq<Callback>) returns (rest: seq<Callback>)
      requires Valid() && batch != [] && model.pc == Running(batch)
      modifies this
      ensures Valid() && rest == batch[1..] && model.pc == Running(rest)
      ensures model.executed == old(model.executed) + [batch[0]] && model.between == old(model.between)
      ensures callbacks == old(callbacks) + Functions(batch[0].posts)
      ensures if Functions(batch[0].posts) == [] then counter == old(counter) else counter > 0
    {
      var callback := batch[0];
      rest := batch[1..];
      Take(Start);
      Execute(callback);
    }

    /** Runs the queue of this moment, each callback once and in order; new posts stay queued. */
    method ExecuteCallbacks()
      requires Valid() && model.pc.Drained? && counter == 0
      modifies this
      ensures Valid() && model.pc.Waiting? && model.between == old(model.between)
      ensures model.executed == old(model.executed) + old(callbacks)
      ensures callbacks == PostedBy(old(callbacks))
      ensures counter > 0 <==> callbacks != []
    {
      var batch := AtomicPopAll();
      ghost var all := batch;
      while batch != []
        invariant Valid() && model.pc == Running(batch) && model.between == old(model.between)
        invariant model.executed + batch == old(model.executed) + all
        invariant callbacks + PostedBy(batch) == PostedBy(all)
        invariant counter > 0 <==> callbacks != []
        decreases |batch|
      {
        MoveFirst(model.executed, batch);
        PostFirst(callbacks, batch);
        batch := PopAndExecuteFirstCallback(batch);
      }
      Take(EndBatch);
    }

    /** The read callback of the eventfd. */
    method HandleEvents()
      requires Valid() && model.pc.Woken?
      modifies this
      ensures Valid() && model.pc.Waiting? && model.between == old(model.between)
      ensures model.executed == old(model.executed) + old(callbacks)
      ensures callbacks == PostedBy(old(callbacks))
      ensures counter > 0 <==> callbacks != []
    {
      counter := 0;
      Take(Drain);
      ExecuteCallbacks();
    }
  }

  /** Whatever calls an object has seen: the callbacks it started, the rest of its batch and its
      queue are what was posted, in order, and a waiting callback has a wake-up on its way. */
  lemma NothingIsLost(queue: EventFd)
    requires queue.Valid()
    ensures queue.model.executed + Batch(queue.model.pc) + queue.callbacks == queue.model.posted
    ensures queue.callbacks != [] && queue.model.pc.Waiting? && queue.model.between == {} ==>
              queue.counter > 0
  {
    InvHolds(INIT, queue.trace);
  }
}
