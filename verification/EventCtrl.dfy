/**
 * The classes Event, EventCtrl and Epoll (src/event/event.cpp, src/event/eventCtrl.cpp,
 * src/event/epoll.cpp): mutable Event objects, the registry of pointers to them and the interest
 * list.  Every method is proved to do what the corresponding command of Registry does.
 */
module EventCtrls {
  import opened Wrappers
  import opened Registry

  /** The kernel's interest list; additions fail for a known, the rest for an unknown descriptor. */
  class Epoll {
    var interest: map<int, bv32>

    constructor ()
      ensures interest == map[]
    {
      interest := map[];
    }

    method AddEvent(event: Event) returns (ok: bool)
      modifies this
      ensures ok <==> event.fd !in old(interest)
      ensures interest == if ok then old(interest)[event.fd := event.events] else old(interest)
    {
      ok := event.fd !in interest;
      if ok {
        interest := interest[event.fd := event.events];
      }
    }

    method ModifyEvent(event: Event) returns (ok: bool)
      modifies this
      ensures ok <==> event.fd in old(interest)
      ensures interest == if ok then old(interest)[event.fd := event.events] else old(interest)
    {
      ok := event.fd in interest;
      if ok {
        interest := interest[event.fd := event.events];
      }
    }

    method RemoveFd(fd: int) returns (ok: bool)
      modifies this
      ensures ok <==> fd in old(interest)
      ensures interest == old(interest) - {fd}
    {
      ok := fd in interest;
      interest := interest - {fd};
    }
  }

  /** Without an error the handler is three parts, each of which may call one callback. */
  lemma HandleInParts(s: State<Event>, installed: Installed, r: Ready<Event>)
    requires KnownReady(s.events.Keys, r) && !Has(r.revents, EPOLLERR)
    ensures var a, b, c := HangUpCalls(installed, r.revents), ReadCalls(installed, r.revents),
                           WriteCalls(installed, r.revents);
            && KnownScript(s.events.Keys, Scripts(r, a)) && KnownScript(s.events.Keys, Scripts(r, b))
            && KnownScript(s.events.Keys, Scripts(r, c))
            && Scripts(r, a) == (if a == [] then [] else r.onHangUp)
            && Scripts(r, b) == (if b == [] then [] else r.onRead)
            && Scripts(r, c) == (if c == [] then [] else r.onWrite)
            && KnownScript(s.events.Keys, HandlerScript(installed, r))
            && RunScript(s, HandlerScript(installed, r))
            == RunScript(RunScript(RunScript(s, Scripts(r, a)), Scripts(r, b)), Scripts(r, c))
  {
    var a, b, c := HangUpCalls(installed, r.revents), ReadCalls(installed, r.revents),
                   WriteCalls(installed, r.revents);
    HandlerInParts(installed, r);
    OneCall(r, HangUpRead);
    OneCall(r, Read);
    OneCall(r, Write);
    ScriptsKnown(s.events.Keys, r, a);
    ScriptsKnown(s.events.Keys, r, b);
    ScriptsKnown(s.events.Keys, r, c);
    RunScriptThree(s, Scripts(r, a), Scripts(r, b), Scripts(r, c));
  }

  class Event {
    const loop: EventCtrl
    const fd: int
    const installed: Installed
    var events: bv32

    constructor (loop: EventCtrl, fd: int, installed: Installed)
      ensures this.loop == loop && this.fd == fd && this.installed == installed && events == 0
    {
      this.loop := loop;
      this.fd := fd;
      this.installed := installed;
      events := 0;
    }

    ghost predicate Valid()
      reads this, loop, loop.epoll, loop.universe
    {
      loop.Valid() && this in loop.universe
    }

    /** Assigns the mask and calls update(), which goes through the loop by descriptor. */
    method Store(mask: bv32)
      requires Valid()
      modifies this`events, loop.epoll
      ensures Valid() && events == mask
      ensures loop.View() == SetMask(old(loop.View()), this, mask)
      ensures fd in loop.eventPool && loop.eventPool[fd] == this && fd in old(loop.epoll.interest) ==>
                loop.epoll.interest == old(loop.epoll.interest)[fd := events]
      ensures fd !in loop.eventPool ==> loop.epoll.interest == old(loop.epoll.interest)
    {
      ghost var before := loop.View();
      events := mask;
      assert loop.View() == before.(events := before.events[this := before.events[this].(mask := mask)]);
      loop.ModifyFd(fd);
    }

    /** The change of the mask and the update that the three enable methods have in common. */
    method Change(flags: bv32, on: bool)
      requires Valid()
      modifies this`events, loop.epoll
      ensures Valid() && events == Toggled(old(events), flags, on)
      ensures loop.View() == Exec(old(loop.View()), Command.Enable(this, flags, on))
      ensures fd in loop.eventPool && loop.eventPool[fd] == this && fd in old(loop.epoll.interest) ==>
                loop.epoll.interest == old(loop.epoll.interest)[fd := events]
    {
      if on {
        Store(events | flags);
      } else {
        Store(events & !flags);
      }
    }

    /** enableReading, enableWriting and enableErrorEvent, for the flags of each: sets or clears those
        flags and no others, and tells epoll. */
    method Enable(flags: bv32, on: bool)
      requires Valid()
      modifies this`events, loop.epoll
      ensures Valid()
      ensures loop.View() == Exec(old(loop.View()), Command.Enable(this, flags, on))
      ensures HasBits(events, flags, on) && KeepsOthers(old(events), events, flags)
      ensures fd in loop.eventPool && loop.eventPool[fd] == this && fd in old(loop.epoll.interest) ==>
                loop.epoll.interest == old(loop.epoll.interest)[fd := events]
    {
      TogglingSetsOrClears(events, flags, on);
      TogglingKeepsOthers(events, flags, on);
      Change(flags, on);
    }

    method DisableAll()
      requires Valid()
      modifies this`events, loop.epoll
      ensures Valid()
      ensures loop.View() == Exec(old(loop.View()), Command.DisableAll(this))
      ensures events == 0
      ensures fd in loop.eventPool && loop.eventPool[fd] == this && fd in old(loop.epoll.interest) ==>
                loop.epoll.interest == old(loop.epoll.interest)[fd := 0]
    {
      Store(0);
    }

    method RemoveFromLoop()
      requires Valid()
      modifies loop`eventPool, loop.epoll
      ensures Valid()
      ensures loop.View() == Exec(old(loop.View()), Command.DeleteFd(fd))
      ensures loop.eventPool == old(loop.eventPool) - {fd}
      ensures fd in old(loop.eventPool) ==> loop.epoll.interest == old(loop.epoll.interest) - {fd}
    {
      loop.DeleteFd(fd);
    }

    /** Calls a callback if it is installed. */
    method Invoke(present: bool, script: Script<Event>)
      requires Valid() && KnownScript(loop.universe, script)
      modifies loop`eventPool, loop.epoll, loop.universe`events
      ensures Valid() && loop.universe == old(loop.universe)
      ensures loop.View() == RunScript(old(loop.View()), if present then script else [])
    {
      if present {
        loop.RunScript(script);
      }
    }

    /** Calls the callbacks a report asks for; each may run any script of registry commands. */
    method Handle(r: Ready<Event>)
      requires Valid() && KnownReady(loop.universe, r)
      modifies loop`eventPool, loop.epoll, loop.universe`events
      ensures loop.Valid() && KnownScript(loop.universe, HandlerScript(installed, r))
      ensures loop.View() == RunScript(old(loop.View()), HandlerScript(installed, r))
    {
      HandlerScriptKnown(loop.universe, installed, r);
      OneCall(r, Error);
      if Has(r.revents, EPOLLERR) {
        Invoke(installed.error, r.onError);
        return;
      }
      HandleInParts(loop.View(), installed, r);
      if Has(r.revents, EPOLLHUP) && !Has(r.revents, EPOLLIN) {
        Invoke(installed.read, r.onHangUp);
      }
      if Has(r.revents, EPOLLIN | EPOLLPRI | EPOLLRDHUP) {
        Invoke(installed.read, r.onRead);
      }
      if Has(r.revents, EPOLLOUT) {
        Invoke(installed.write, r.onWrite);
      }
    }
  }

  class EventCtrl {
    const epoll: Epoll
    var eventPool: map<int, Event?>
    ghost var universe: set<Event> // every Event object created for this loop

    ghost predicate Valid()
      reads this, epoll, universe
    {
      && (forall e <- universe :: e.loop == this)
      && (forall fd :: fd in eventPool && eventPool[fd] != null ==>
            eventPool[fd] in universe && eventPool[fd].fd == fd)
    }

    constructor ()
      ensures Valid() && universe == {} && fresh(epoll)
      ensures View() == State(map[], map[], map[])
    {
      epoll := new Epoll();
      eventPool := map[];
      universe := {};
    }

    ghost function View(): State<Event>
      reads this, epoll, universe
    {
      State(map e | e in universe :: Watch(e.fd, e.events, e.installed),
            map fd | fd in eventPool :: if eventPool[fd] == null then None else Some(eventPool[fd] as Event),
            epoll.interest)
    }

    method AddEvent(event: Event)
      requires Valid() && event in universe
      modifies this`eventPool, epoll
      ensures Valid() && View() == Exec(old(View()), Add(event))
      ensures eventPool == if event.fd in old(eventPool) then old(eventPool) else old(eventPool)[event.fd := event]
      ensures epoll.interest == if event.fd in old(epoll.interest) then old(epoll.interest)
                                else old(epoll.interest)[event.fd := event.events]
    {
      if event.fd !in eventPool {
        eventPool := eventPool[event.fd := event];
      }
      var _ := epoll.AddEvent(event);
    }

    method DeleteEvent(event: Event)
      requires Valid() && event in universe
      modifies this`eventPool, epoll
      ensures Valid() && View() == Exec(old(View()), Delete(event))
      ensures eventPool == old(eventPool) - {event.fd}
      ensures epoll.interest == old(epoll.interest) - {event.fd}
    {
      var _ := epoll.RemoveFd(event.fd);
      eventPool := eventPool - {event.fd};
    }

    method DeleteFd(fd: int)
      requires Valid()
      modifies this`eventPool, epoll
      ensures Valid() && View() == Exec(old(View()), Command.DeleteFd(fd))
      ensures eventPool == old(eventPool) - {fd}
      ensures epoll.interest == if fd in old(eventPool) then old(epoll.interest) - {fd} else old(epoll.interest)
    {
      if fd in eventPool {
        var _ := epoll.RemoveFd(fd);
        eventPool := eventPool - {fd};
      }
    }

    method ModifyEvent(event: Event)
      requires Valid() && event in universe
      modifies epoll
      ensures Valid() && View() == Exec(old(View()), Modify(event))
      ensures epoll.interest
           == if event.fd in eventPool && event.fd in old(epoll.interest) then
                old(epoll.interest)[event.fd := event.events]
              else old(epoll.interest)
    {
      if event.fd in eventPool {
        var _ := epoll.ModifyEvent(event);
      }
    }

    /** Event::update arrives here: the mask that counts is the registered object's. */
    method ModifyFd(fd: int)
      requires Valid()
      modifies epoll
      ensures Valid() && View() == Exec(old(View()), Command.ModifyFd(fd))
      ensures epoll.interest
           == if fd in eventPool && eventPool[fd] != null && fd in old(epoll.interest) then
                old(epoll.interest)[fd := eventPool[fd].events]
              else old(epoll.interest)
    {
      if fd in eventPool {
        var event := eventPool[fd];
        if event != null {
          var _ := epoll.ModifyEvent(event);
        }
      }
    }

    method Execute(cmd: Command<Event>)
      requires Valid() && Known(universe, cmd)
      modifies this`eventPool, epoll, universe`events
      ensures Valid() && View() == Exec(old(View()), cmd)
    {
      match cmd
      case Add(e) => AddEvent(e);
      case Delete(e) => DeleteEvent(e);
      case DeleteFd(fd) => DeleteFd(fd);
      case Modify(e) => ModifyEvent(e);
      case ModifyFd(fd) => ModifyFd(fd);
      case Enable(e, flags, on) => e.Enable(flags, on);
      case DisableAll(e) => e.DisableAll();
      case Close(fd) => var _ := epoll.RemoveFd(fd);
    }

    /** What a callback does: any finite script of commands. */
    method RunScript(script: Script<Event>)
      requires Valid() && KnownScript(universe, script)
      modifies this`eventPool, epoll, universe`events
      ensures Valid() && View() == Registry.RunScript(old(View()), script)
    {
      var i := 0;
      while i < |script|
        invariant 0 <= i <= |script| && Valid() && universe == old(universe)
        invariant Registry.RunScript(View(), script[i..]) == Registry.RunScript(old(View()), script)
      {
        Execute(script[i]);
        i := i + 1;
      }
    }

    /** The body of the dispatch loop; indexing the map makes a null entry for an unknown fd. */
    method DispatchOne(r: Ready<Event>)
      requires Valid() && KnownReady(universe, r)
      modifies this`eventPool, epoll, universe`events
      ensures Valid() && View() == Dispatch(old(View()), r)
      ensures r.fd in old(eventPool) && old(eventPool)[r.fd] != null ==>
                && KnownScript(universe, Scripts(r, Calls(old(eventPool)[r.fd].installed, r.revents)))
                && View() == Registry.RunScript(old(View()),
                                                Scripts(r, Calls(old(eventPool)[r.fd].installed, r.revents)))
      ensures !(r.fd in old(eventPool) && old(eventPool)[r.fd] != null) ==>
                eventPool == old(eventPool) - {r.fd} && epoll.interest == old(epoll.interest) - {r.fd}
    {
      if r.fd !in eventPool {
        eventPool := eventPool[r.fd := null];
      }
      var event := eventPool[r.fd];
      if event != null {
        event.Handle(r);
      } else {
        DeleteFd(r.fd);
      }
    }

    /** epoll_wait reports an error or some of the descriptors of interest, at most as many as
        are registered; with nothing registered it always reports an error. */
    method WaitAndRunHandler(reported: Option<seq<Ready<Event>>>)
      requires Valid()
      requires reported.Some? ==> |reported.value| <= |eventPool| && KnownBatch(universe, reported.value)
      modifies this`eventPool, epoll, universe`events
      ensures Valid()
      ensures View() == if reported.None? then old(View()) else DispatchAll(old(View()), reported.value)
      ensures Agreement(old(View())) && (reported.Some? ==> HarmlessBatch(old(View()), reported.value)) ==>
                Agreement(View())
    {
      if reported.None? {
        return;
      }
      var activeEvents := reported.value;
      var i := 0;
      while i < |activeEvents|
        invariant 0 <= i <= |activeEvents| && Valid() && universe == old(universe)
        invariant DispatchAll(View(), activeEvents[i..]) == DispatchAll(old(View()), activeEvents)
      {
        DispatchOne(activeEvents[i]);
        i := i + 1;
      }
      if Agreement(old(View())) && HarmlessBatch(old(View()), reported.value) {
        AgreementThroughDispatch(old(View()), reported.value);
      }
    }
  }
}
