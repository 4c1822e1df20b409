/**
 * What registering, deleting and dispatching do to the two sides of the registry
 * (src/event/eventCtrl.cpp:27-105), descriptor by descriptor.
 */
module Registration {
  import opened Wrappers
  import opened Registry

  /** An addition enters the object and its mask under its descriptor, on each side only if that side
      does not know the descriptor, and touches no other descriptor. */
  lemma AddRegisters<E>(s: State<E>, e: E)
    requires e in s.events
    ensures var t, w := Exec(s, Add(e)), s.events[e];
            && t.events == s.events && w.fd in t.pool && w.fd in t.interest
            && t.pool[w.fd] == (if w.fd in s.pool then s.pool[w.fd] else Some(e))
            && t.interest[w.fd] == (if w.fd in s.interest then s.interest[w.fd] else w.mask)
            && SameElsewhere(s, t, w.fd)
  {
  }

  /** The two sides agree with before for every other descriptor. */
  ghost predicate SameElsewhere<E>(s: State<E>, t: State<E>, fd: int) {
    && (forall other :: other != fd ==> (other in t.pool <==> other in s.pool))
    && (forall other :: other != fd && other in s.pool ==> t.pool[other] == s.pool[other])
    && (forall other :: other != fd ==> (other in t.interest <==> other in s.interest))
    && (forall other :: other != fd && other in s.interest ==> t.interest[other] == s.interest[other])
  }

  /** A deletion by object takes its descriptor off both sides. */
  lemma DeleteUnregisters<E>(s: State<E>, e: E)
    requires e in s.events
    ensures var t, fd := Exec(s, Delete(e)), s.events[e].fd;
            t.events == s.events && fd !in t.pool && fd !in t.interest && SameElsewhere(s, t, fd)
  {
  }

  /** A deletion by descriptor does the same if the descriptor is registered, and nothing otherwise. */
  lemma DeleteFdUnregisters<E>(s: State<E>, fd: int)
    ensures var t := Exec(s, DeleteFd(fd));
            && t.events == s.events && fd !in t.pool && SameElsewhere(s, t, fd)
            && (fd in s.pool ==> fd !in t.interest) && (fd !in s.pool ==> t == s)
  {
  }

  /** A script of one command is the command. */
  lemma ScriptOfOne<E>(s: State<E>, cmd: Command<E>)
    requires Known(s.events.Keys, cmd)
    ensures KnownScript(s.events.Keys, [cmd]) && RunScript(s, [cmd]) == Exec(s, cmd)
  {
    ExecKeepsEvents(s, cmd);
    assert [cmd][1..] == [];
  }

  // ------------------------------------------------------------ deleted events are not called

  /** An entry holds an object of that descriptor, or null. */
  ghost predicate WellKeyed<E>(s: State<E>) {
    forall fd :: fd in s.pool && s.pool[fd].Some? ==>
      s.pool[fd].value in s.events && s.events[s.pool[fd].value].fd == fd
  }

  lemma {:induction false} WellKeyedHolds<E>(s: State<E>, script: Script<E>)
    requires WellKeyed(s) && KnownScript(s.events.Keys, script)
    ensures WellKeyed(RunScript(s, script))
    ensures forall e :: e in s.events ==> RunScript(s, script).events[e].fd == s.events[e].fd
    decreases |script|
  {
    if script != [] {
      ExecKeepsEvents(s, script[0]);
      WellKeyedHolds(Exec(s, script[0]), script[1..]);
    }
  }

  /** The command takes the object out of the registry, by itself or by its descriptor. */
  predicate Deletes<E>(s: State<E>, cmd: Command<E>, e: E)
    requires e in s.events
  {
    cmd == Delete(e) || cmd == DeleteFd(s.events[e].fd)
  }

  lemma DeletionTakesEffect<E>(s: State<E>, cmd: Command<E>, e: E)
    requires WellKeyed(s) && e in s.events && Deletes(s, cmd, e)
    ensures !RegisteredObject(Exec(s, cmd), e)
  {
    var fd := s.events[e].fd;
    DeleteUnregisters(s, e);
    DeleteFdUnregisters(s, fd);
  }

  /** A script that deletes the object and does not add it again leaves it unregistered, whatever
      else it does before and after. */
  lemma DeletedStaysOut<E>(s: State<E>, before: Script<E>, cmd: Command<E>, after: Script<E>, e: E)
    requires WellKeyed(s) && e in s.events && Deletes(s, cmd, e) && !Adds(after, e)
    requires KnownScript(s.events.Keys, before) && KnownScript(s.events.Keys, after)
    ensures KnownScript(s.events.Keys, before + [cmd] + after)
    ensures !RegisteredObject(RunScript(s, before + [cmd] + after), e)
  {
    WellKeyedHolds(s, before);
    var t := RunScript(s, before);
    ScriptOfOne(t, cmd);
    RunScriptThree(s, before, [cmd], after);
    DeletionTakesEffect(t, cmd, e);
    ScriptRegisters(Exec(t, cmd), after, e);
  }

  /**
   * Once the handler of one report has deleted an object and not added it again, no later report of
   * the same batch calls it, as long as no later handler adds it.
   */
  lemma DeletedIsNotCalled<E>(s: State<E>, r: Ready<E>, before: Script<E>, cmd: Command<E>,
                              after: Script<E>, later: seq<Ready<E>>, e: E)
    requires WellKeyed(s) && e in s.events && Deletes(s, cmd, e) && !Adds(after, e)
    requires KnownReady(s.events.Keys, r) && KnownBatch(s.events.Keys, later)
    requires KnownScript(s.events.Keys, before) && KnownScript(s.events.Keys, after)
    requires r.fd in s.pool && s.pool[r.fd].Some?
    requires HandlerScript(s.events[s.pool[r.fd].value].installed, r) == before + [cmd] + after
    requires forall i :: 0 <= i < |later| ==> !ReadyAdds(later[i], e)
    ensures e !in Called(Dispatch(s, r), later)
  {
    DeletedStaysOut(s, before, cmd, after, e);
    assert Dispatch(s, r) == RunScript(s, before + [cmd] + after);
    UnregisteredIsNotCalled(Dispatch(s, r), later, e);
  }

  /** The registered object of a report is called, and it is the first. */
  lemma RegisteredIsCalled<E>(s: State<E>, r: Ready<E>, later: seq<Ready<E>>, e: E)
    requires KnownReady(s.events.Keys, r) && KnownBatch(s.events.Keys, later)
    requires r.fd in s.pool && s.pool[r.fd] == Some(e)
    ensures KnownBatch(s.events.Keys, [r] + later)
    ensures Called(s, [r] + later) == [e] + Called(Dispatch(s, r), later)
  {
    assert ([r] + later)[1..] == later;
  }

  // ------------------------------------------------------------ a batch, report by report

  /** A report for a registered object runs what its handler calls, a report for anything else takes
      the descriptor off both sides. */
  lemma DispatchEffect<E>(s: State<E>, r: Ready<E>)
    requires WellKeyed(s) && KnownReady(s.events.Keys, r)
    ensures r.fd in s.pool && s.pool[r.fd].Some? ==>
              && KnownScript(s.events.Keys, Scripts(r, Calls(s.events[s.pool[r.fd].value].installed, r.revents)))
              && Dispatch(s, r)
              == RunScript(s, Scripts(r, Calls(s.events[s.pool[r.fd].value].installed, r.revents)))
    ensures !(r.fd in s.pool && s.pool[r.fd].Some?) ==>
              && r.fd !in Dispatch(s, r).pool && r.fd !in Dispatch(s, r).interest
              && Dispatch(s, r).events == s.events && SameElsewhere(s, Dispatch(s, r), r.fd)
  {
    if r.fd in s.pool && s.pool[r.fd].Some? {
      HandlerScriptKnown(s.events.Keys, s.events[s.pool[r.fd].value].installed, r);
    }
  }

  /** Every report of a batch is dispatched, in the state the earlier ones leave. */
  lemma {:induction false} DispatchAllSnoc<E>(s: State<E>, batch: seq<Ready<E>>, r: Ready<E>)
    requires KnownBatch(s.events.Keys, batch) && KnownReady(s.events.Keys, r)
    ensures KnownBatch(s.events.Keys, batch + [r])
    ensures DispatchAll(s, batch + [r]) == Dispatch(DispatchAll(s, batch), r)
    decreases |batch|
  {
    if batch == [] {
      assert [] + [r] == [r] && [r][1..] == [];
    } else {
      assert (batch + [r])[1..] == batch[1..] + [r];
      DispatchAllSnoc(Dispatch(s, batch[0]), batch[1..], r);
    }
  }
}
