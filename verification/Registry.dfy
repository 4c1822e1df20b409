/**
 * The event registry and the epoll interest set (src/event/eventCtrl.cpp, src/event/event.cpp) on
 * values.  A callback is an arbitrary finite script of registry commands, supplied anew for every
 * call, so the theorems quantify over every behaviour of the handlers during a dispatch.
 */
module Registry {
  import opened Wrappers

  const EPOLLIN: bv32 := 0x001
  const EPOLLPRI: bv32 := 0x002
  const EPOLLOUT: bv32 := 0x004
  const EPOLLERR: bv32 := 0x008
  const EPOLLHUP: bv32 := 0x010
  const EPOLLRDHUP: bv32 := 0x2000

  const READ_FLAG: bv32 := EPOLLIN | EPOLLPRI
  const WRITE_FLAG: bv32 := EPOLLOUT
  const ERROR_FLAG: bv32 := EPOLLERR

  predicate Has(events: bv32, flags: bv32) {
    events & flags != 0
  }

  /** Which callbacks an Event object has. */
  datatype Installed = Installed(read: bool, write: bool, error: bool)

  /** The state of an Event object. */
  datatype Watch = Watch(fd: int, mask: bv32, installed: Installed)

  datatype Command<E> =
    | Add(event: E)
    | Delete(event: E)
    | DeleteFd(fd: int)
    | Modify(event: E)
    | ModifyFd(fd: int)
    | Enable(event: E, flags: bv32, on: bool) // enableReading, enableWriting, enableErrorEvent
    | DisableAll(event: E)
    | Close(fd: int)                          // the program closes the descriptor itself

  type Script<E> = seq<Command<E>>

  /** One report of epoll_wait, and what each callback would do if it were called for it. */
  datatype Ready<E> = Ready(fd: int, revents: bv32,
                            onHangUp: Script<E>, onRead: Script<E>, onWrite: Script<E>, onError: Script<E>)

  datatype State<!E> = State(
    events: map<E, Watch>,        // every Event object and its fields
    pool: map<int, Option<E>>,    // eventPool; None is a null pointer
    interest: map<int, bv32>)     // the kernel's interest list

  /** An Event named by a command exists. */
  predicate Known<E>(events: set<E>, cmd: Command<E>) {
    cmd.Add? || cmd.Delete? || cmd.Modify? || cmd.Enable? || cmd.DisableAll? ==> cmd.event in events
  }

  predicate KnownScript<E>(events: set<E>, script: Script<E>) {
    forall i :: 0 <= i < |script| ==> Known(events, script[i])
  }

  /** EPOLL_CTL_MOD with the mask of the registered object; nothing for an unknown or null entry. */
  function Refresh<E>(s: State<E>, fd: int): State<E> {
    if fd in s.pool && s.pool[fd].Some? && s.pool[fd].value in s.events && fd in s.interest then
      s.(interest := s.interest[fd := s.events[s.pool[fd].value].mask])
    else s
  }

  function Toggled(mask: bv32, flags: bv32, on: bool): bv32 {
    if on then mask | flags else mask & !flags
  }

  /** The bits of the flags are all set, or all clear. */
  predicate HasBits(mask: bv32, flags: bv32, on: bool) {
    mask & flags == if on then flags else 0
  }

  /** The bits other than those of the flags are as before. */
  predicate KeepsOthers(before: bv32, after: bv32, flags: bv32) {
    after & !flags == before & !flags
  }

  /** Enabling sets the given bits, disabling clears them. */
  lemma TogglingSetsOrClears(mask: bv32, flags: bv32, on: bool)
    ensures HasBits(Toggled(mask, flags, on), flags, on)
  {
  }

  lemma OrKeepsOthers(mask: bv32, flags: bv32)
    ensures (mask | flags) & !flags == mask & !flags
  {
  }

  lemma AndKeepsOthers(mask: bv32, flags: bv32)
    ensures (mask & !flags) & !flags == mask & !flags
  {
  }

  /** Neither changes any other bit. */
  lemma TogglingKeepsOthers(mask: bv32, flags: bv32, on: bool)
    ensures KeepsOthers(mask, Toggled(mask, flags, on), flags)
  {
    if on {
      OrKeepsOthers(mask, flags);
      assert Toggled(mask, flags, on) == mask | flags;
    } else {
      AndKeepsOthers(mask, flags);
      assert Toggled(mask, flags, on) == mask & !flags;
    }
  }

  /** The bits of the three kinds of interest. */
  predicate IsKind(flags: bv32) {
    flags == READ_FLAG || flags == WRITE_FLAG || flags == ERROR_FLAG
  }

  lemma SameWithin(before: bv32, after: bv32, kind: bv32, other: bv32)
    requires after & !kind == before & !kind && other & kind == 0
    ensures after & other == before & other
  {
  }

  /** The kinds have their epoll bits, and changing only the bits of one leaves those of the others. */
  lemma KindsAreSeparate(before: bv32, after: bv32, kind: bv32, other: bv32)
    requires IsKind(kind) && IsKind(other) && kind != other
    requires KeepsOthers(before, after, kind)
    ensures READ_FLAG == 0x3 && WRITE_FLAG == 0x4 && ERROR_FLAG == 0x8
    ensures after & other == before & other
  {
    KindsShareNoBit(kind, other);
    SameWithin(before, after, kind, other);
  }

  lemma KindsShareNoBit(kind: bv32, other: bv32)
    requires IsKind(kind) && IsKind(other) && kind != other
    ensures other & kind == 0
  {
  }

  function SetMask<E>(s: State<E>, e: E, mask: bv32): State<E>
    requires e in s.events
  {
    Refresh(s.(events := s.events[e := s.events[e].(mask := mask)]), s.events[e].fd)
  }

  function Drop<E>(s: State<E>, fd: int): State<E> {
    s.(pool := s.pool - {fd}, interest := s.interest - {fd})
  }

  function Exec<E>(s: State<E>, cmd: Command<E>): State<E>
    requires Known(s.events.Keys, cmd)
  {
    match cmd
    case Add(e) =>
      var w := s.events[e];
      s.(pool := if w.fd in s.pool then s.pool else s.pool[w.fd := Some(e)],
         interest := if w.fd in s.interest then s.interest else s.interest[w.fd := w.mask])
    case Delete(e) => Drop(s, s.events[e].fd)
    case DeleteFd(fd) => if fd in s.pool then Drop(s, fd) else s
    case Modify(e) =>
      var w := s.events[e];
      if w.fd in s.pool && w.fd in s.interest then s.(interest := s.interest[w.fd := w.mask]) else s
    case ModifyFd(fd) => Refresh(s, fd)
    case Enable(e, flags, on) => SetMask(s, e, Toggled(s.events[e].mask, flags, on))
    case DisableAll(e) => SetMask(s, e, 0)
    case Close(fd) => s.(interest := s.interest - {fd})
  }

  lemma ExecKeepsEvents<E>(s: State<E>, cmd: Command<E>)
    requires Known(s.events.Keys, cmd)
    ensures Exec(s, cmd).events.Keys == s.events.Keys
    ensures forall e :: e in s.events ==> Exec(s, cmd).events[e].fd == s.events[e].fd
    ensures forall e :: e in s.events ==> Exec(s, cmd).events[e].installed == s.events[e].installed
  {
  }

  function RunScript<E>(s: State<E>, script: Script<E>): (t: State<E>)
    requires KnownScript(s.events.Keys, script)
    ensures t.events.Keys == s.events.Keys
    decreases |script|
  {
    if script == [] then s
    else
      ExecKeepsEvents(s, script[0]);
      RunScript(Exec(s, script[0]), script[1..])
  }

  lemma {:induction false} RunScriptConcat<E>(s: State<E>, a: Script<E>, b: Script<E>)
    requires KnownScript(s.events.Keys, a) && KnownScript(s.events.Keys, b)
    ensures KnownScript(s.events.Keys, a + b)
    ensures RunScript(s, a + b) == RunScript(RunScript(s, a), b)
    decreases |a|
  {
    if a == [] {
      assert a + b == b;
    } else {
      ExecKeepsEvents(s, a[0]);
      assert (a + b)[1..] == a[1..] + b;
      RunScriptConcat(Exec(s, a[0]), a[1..], b);
    }
  }

  lemma RunScriptThree<E>(s: State<E>, a: Script<E>, b: Script<E>, c: Script<E>)
    requires KnownScript(s.events.Keys, a) && KnownScript(s.events.Keys, b) && KnownScript(s.events.Keys, c)
    ensures KnownScript(s.events.Keys, a + b + c)
    ensures RunScript(s, a + b + c) == RunScript(RunScript(RunScript(s, a), b), c)
  {
    RunScriptConcat(s, a, b);
    RunScriptConcat(s, a + b, c);
  }

  /** A call that Event::handle makes: the read callback in two places, write and error in one. */
  datatype Call = HangUpRead | Read | Write | Error

  function HangUpCalls(installed: Installed, revents: bv32): seq<Call> {
    if Has(revents, EPOLLHUP) && !Has(revents, EPOLLIN) && installed.read then [HangUpRead] else []
  }

  function ReadCalls(installed: Installed, revents: bv32): seq<Call> {
    if Has(revents, EPOLLIN | EPOLLPRI | EPOLLRDHUP) && installed.read then [Read] else []
  }

  function WriteCalls(installed: Installed, revents: bv32): seq<Call> {
    if Has(revents, EPOLLOUT) && installed.write then [Write] else []
  }

  /** The calls that Event::handle makes for a report, in order. */
  function Calls(installed: Installed, revents: bv32): seq<Call> {
    if Has(revents, EPOLLERR) then (if installed.error then [Error] else [])
    else HangUpCalls(installed, revents) + ReadCalls(installed, revents) + WriteCalls(installed, revents)
  }

  function ScriptOf<E>(r: Ready<E>, call: Call): Script<E> {
    match call
    case HangUpRead => r.onHangUp
    case Read => r.onRead
    case Write => r.onWrite
    case Error => r.onError
  }

  function Scripts<E>(r: Ready<E>, calls: seq<Call>): Script<E> {
    if calls == [] then [] else ScriptOf(r, calls[0]) + Scripts(r, calls[1..])
  }

  /** What Event::handle makes of a report: the scripts of the callbacks it calls, in order. */
  function HandlerScript<E>(installed: Installed, r: Ready<E>): Script<E> {
    Scripts(r, Calls(installed, r.revents))
  }

  lemma {:induction false} ScriptsConcat<E>(r: Ready<E>, a: seq<Call>, b: seq<Call>)
    ensures Scripts(r, a + b) == Scripts(r, a) + Scripts(r, b)
  {
    if a == [] {
      assert a + b == b;
    } else {
      assert (a + b)[1..] == a[1..] + b;
      ScriptsConcat(r, a[1..], b);
    }
  }

  lemma OneCall<E>(r: Ready<E>, call: Call)
    ensures Scripts(r, [call]) == ScriptOf(r, call)
  {
    assert Scripts(r, [call]) == ScriptOf(r, call) + Scripts(r, [call][1..]);
  }

  lemma HandlerInParts<E>(installed: Installed, r: Ready<E>)
    requires !Has(r.revents, EPOLLERR)
    ensures HandlerScript(installed, r)
         == Scripts(r, HangUpCalls(installed, r.revents)) + Scripts(r, ReadCalls(installed, r.revents))
            + Scripts(r, WriteCalls(installed, r.revents))
  {
    var a, b := HangUpCalls(installed, r.revents), ReadCalls(installed, r.revents);
    ScriptsConcat(r, a, b);
    ScriptsConcat(r, a + b, WriteCalls(installed, r.revents));
  }

  predicate KnownReady<E>(events: set<E>, r: Ready<E>) {
    && KnownScript(events, r.onHangUp) && KnownScript(events, r.onRead)
    && KnownScript(events, r.onWrite) && KnownScript(events, r.onError)
  }

  lemma {:induction false} ScriptsKnown<E>(events: set<E>, r: Ready<E>, calls: seq<Call>)
    requires KnownReady(events, r)
    ensures KnownScript(events, Scripts(r, calls))
  {
    if calls != [] {
      ScriptsKnown(events, r, calls[1..]);
      assert KnownScript(events, ScriptOf(r, calls[0]));
    }
  }

  lemma HandlerScriptKnown<E>(events: set<E>, installed: Installed, r: Ready<E>)
    requires KnownReady(events, r)
    ensures KnownScript(events, HandlerScript(installed, r))
  {
    ScriptsKnown(events, r, Calls(installed, r.revents));
  }

  /** The registered object for this descriptor, looked up when its report is reached. */
  function Target<E>(s: State<E>, fd: int): Option<E> {
    if fd in s.pool then s.pool[fd] else None
  }

  /** One iteration of the dispatch loop.  eventPool[fd] makes a null entry for an unknown fd. */
  function Dispatch<E>(s: State<E>, r: Ready<E>): (t: State<E>)
    requires KnownReady(s.events.Keys, r)
    ensures t.events.Keys == s.events.Keys
  {
    var target := Target(s, r.fd);
    if target.Some? && target.value in s.events then
      HandlerScriptKnown(s.events.Keys, s.events[target.value].installed, r);
      RunScript(s, HandlerScript(s.events[target.value].installed, r))
    else Drop(s.(pool := s.pool[r.fd := None]), r.fd)
  }

  predicate KnownBatch<E>(events: set<E>, batch: seq<Ready<E>>) {
    forall i :: 0 <= i < |batch| ==> KnownReady(events, batch[i])
  }

  function DispatchAll<E>(s: State<E>, batch: seq<Ready<E>>): (t: State<E>)
    requires KnownBatch(s.events.Keys, batch)
    ensures t.events.Keys == s.events.Keys
    decreases |batch|
  {
    if batch == [] then s else DispatchAll(Dispatch(s, batch[0]), batch[1..])
  }

  /** The objects whose handler the batch calls, in order. */
  function Called<E>(s: State<E>, batch: seq<Ready<E>>): seq<E>
    requires KnownBatch(s.events.Keys, batch)
    decreases |batch|
  {
    if batch == [] then []
    else (if Target(s, batch[0].fd).Some? then [Target(s, batch[0].fd).value] else [])
         + Called(Dispatch(s, batch[0]), batch[1..])
  }

  // ------------------------------------------------------------ agreement

  /** Same descriptors on both sides, no null pointer, and every interest is the object's mask. */
  ghost predicate Agreement<E>(s: State<E>) {
    && s.pool.Keys == s.interest.Keys
    && (forall fd :: fd in s.pool ==>
          && s.pool[fd].Some? && s.pool[fd].value in s.events
          && s.events[s.pool[fd].value].fd == fd
          && s.interest[fd] == s.events[s.pool[fd].value].mask)
  }

  /** Commands that can break the agreement: modifying through an object that is not the one
      registered for its descriptor, and closing a descriptor that is still registered. */
  predicate Harmless<E>(s: State<E>, cmd: Command<E>)
    requires Known(s.events.Keys, cmd)
  {
    match cmd
    case Modify(e) =>
      var fd := s.events[e].fd;
      fd in s.pool && s.pool[fd].Some? && s.pool[fd].value in s.events ==>
        s.events[s.pool[fd].value].mask == s.events[e].mask
    case Close(fd) => fd !in s.pool
    case _ => true
  }

  lemma AddAgrees<E>(s: State<E>, e: E)
    requires Agreement(s) && e in s.events
    ensures Agreement(Exec(s, Add(e)))
  {
  }

  lemma SetMaskAgrees<E>(s: State<E>, e: E, mask: bv32)
    requires Agreement(s) && e in s.events
    ensures Agreement(SetMask(s, e, mask))
  {
  }

  lemma ModifyAgreesIff<E>(s: State<E>, e: E)
    requires Agreement(s) && e in s.events
    ensures Agreement(Exec(s, Modify(e))) <==> Harmless(s, Modify(e))
  {
  }

  lemma CloseAgreesIff<E>(s: State<E>, fd: int)
    requires Agreement(s)
    ensures Agreement(Exec(s, Close(fd))) <==> Harmless(s, Close(fd))
  {
  }

  /** A command keeps the agreement if and only if it is harmless where it is executed. */
  lemma AgreementIffHarmless<E>(s: State<E>, cmd: Command<E>)
    requires Agreement(s) && Known(s.events.Keys, cmd)
    ensures Agreement(Exec(s, cmd)) <==> Harmless(s, cmd)
  {
    match cmd
    case Add(e) => AddAgrees(s, e);
    case Enable(e, flags, on) => SetMaskAgrees(s, e, Toggled(s.events[e].mask, flags, on));
    case DisableAll(e) => SetMaskAgrees(s, e, 0);
    case Modify(e) => ModifyAgreesIff(s, e);
    case Close(fd) => CloseAgreesIff(s, fd);
    case _ =>
  }

  /** One modify through a second object for a registered descriptor breaks the agreement. */
  lemma WrongModifyBreaks()
    ensures var s := State(map[0 := Watch(5, READ_FLAG, Installed(true, true, true)),
                               1 := Watch(5, WRITE_FLAG, Installed(true, true, true))],
                           map[5 := Some(0)], map[5 := READ_FLAG]);
            Agreement(s) && !Agreement(Exec(s, Modify(1)))
  {
  }

  predicate HarmlessScript<E>(s: State<E>, script: Script<E>)
    requires KnownScript(s.events.Keys, script)
    decreases |script|
  {
    script == []
    || (Harmless(s, script[0])
        && (ExecKeepsEvents(s, script[0]); HarmlessScript(Exec(s, script[0]), script[1..])))
  }

  lemma {:induction false} ScriptKeepsAgreement<E>(s: State<E>, script: Script<E>)
    requires Agreement(s) && KnownScript(s.events.Keys, script) && HarmlessScript(s, script)
    ensures Agreement(RunScript(s, script))
    decreases |script|
  {
    if script != [] {
      AgreementIffHarmless(s, script[0]);
      ExecKeepsEvents(s, script[0]);
      ScriptKeepsAgreement(Exec(s, script[0]), script[1..]);
    }
  }

  /** Agreement before the script and after each of its commands. */
  ghost predicate AgreesThroughout<E>(s: State<E>, script: Script<E>)
    requires KnownScript(s.events.Keys, script)
    decreases |script|
  {
    && Agreement(s)
    && (script != [] ==>
          (ExecKeepsEvents(s, script[0]); AgreesThroughout(Exec(s, script[0]), script[1..])))
  }

  /** A script never breaks the agreement if and only if each command is harmless where it runs. */
  lemma {:induction false} ScriptAgreesIff<E>(s: State<E>, script: Script<E>)
    requires Agreement(s) && KnownScript(s.events.Keys, script)
    ensures AgreesThroughout(s, script) <==> HarmlessScript(s, script)
    decreases |script|
  {
    if script != [] {
      AgreementIffHarmless(s, script[0]);
      ExecKeepsEvents(s, script[0]);
      if Harmless(s, script[0]) {
        ScriptAgreesIff(Exec(s, script[0]), script[1..]);
      }
    }
  }

  /** Every script the batch really runs is harmless where it runs. */
  predicate HarmlessBatch<E>(s: State<E>, batch: seq<Ready<E>>)
    requires KnownBatch(s.events.Keys, batch)
    decreases |batch|
  {
    batch == []
    || (&& (var target := Target(s, batch[0].fd);
            target.Some? && target.value in s.events ==>
              (HandlerScriptKnown(s.events.Keys, s.events[target.value].installed, batch[0]);
               HarmlessScript(s, HandlerScript(s.events[target.value].installed, batch[0]))))
        && HarmlessBatch(Dispatch(s, batch[0]), batch[1..]))
  }

  /**
   * Whatever the handlers add, remove and toggle while a batch is dispatched, the registry and the
   * interest list agree afterwards and no null entry is left behind.
   */
  lemma {:induction false} AgreementThroughDispatch<E>(s: State<E>, batch: seq<Ready<E>>)
    requires Agreement(s) && KnownBatch(s.events.Keys, batch) && HarmlessBatch(s, batch)
    ensures Agreement(DispatchAll(s, batch))
    decreases |batch|
  {
    if batch != [] {
      var r := batch[0];
      var target := Target(s, r.fd);
      if target.Some? {
        HandlerScriptKnown(s.events.Keys, s.events[target.value].installed, r);
        ScriptKeepsAgreement(s, HandlerScript(s.events[target.value].installed, r));
      } else {
        var t := Dispatch(s, r);
        assert t.pool == s.pool && t.interest == s.interest;
      }
      AgreementThroughDispatch(Dispatch(s, r), batch[1..]);
    }
  }

  /** Agreement throughout every script that the batch really runs, and between them. */
  ghost predicate BatchAgreesThroughout<E>(s: State<E>, batch: seq<Ready<E>>)
    requires KnownBatch(s.events.Keys, batch)
    decreases |batch|
  {
    && Agreement(s)
    && (batch != [] ==>
          && (var target := Target(s, batch[0].fd);
              target.Some? && target.value in s.events ==>
                (HandlerScriptKnown(s.events.Keys, s.events[target.value].installed, batch[0]);
                 AgreesThroughout(s, HandlerScript(s.events[target.value].installed, batch[0]))))
          && BatchAgreesThroughout(Dispatch(s, batch[0]), batch[1..]))
  }

  /** No handler ever breaks the agreement if and only if each command that runs is harmless. */
  lemma {:induction false} BatchAgreesIff<E>(s: State<E>, batch: seq<Ready<E>>)
    requires Agreement(s) && KnownBatch(s.events.Keys, batch)
    ensures BatchAgreesThroughout(s, batch) <==> HarmlessBatch(s, batch)
    decreases |batch|
  {
    if batch != [] {
      var r, target := batch[0], Target(s, batch[0].fd);
      if target.Some? {
        var script := HandlerScript(s.events[target.value].installed, r);
        HandlerScriptKnown(s.events.Keys, s.events[target.value].installed, r);
        ScriptAgreesIff(s, script);
        if HarmlessScript(s, script) {
          ScriptKeepsAgreement(s, script);
          BatchAgreesIff(Dispatch(s, r), batch[1..]);
        }
      } else {
        var t := Dispatch(s, r);
        assert t.pool == s.pool && t.interest == s.interest;
        BatchAgreesIff(t, batch[1..]);
      }
    }
  }

  /** Event objects only ever ask for a refresh of their descriptor (Event::update). */
  predicate OrdinaryScript<E>(script: Script<E>) {
    forall i :: 0 <= i < |script| ==> !script[i].Modify? && !script[i].Close?
  }

  predicate OrdinaryReady<E>(r: Ready<E>) {
    && OrdinaryScript(r.onHangUp) && OrdinaryScript(r.onRead)
    && OrdinaryScript(r.onWrite) && OrdinaryScript(r.onError)
  }

  lemma {:induction false} OrdinaryIsHarmless<E>(s: State<E>, script: Script<E>)
    requires KnownScript(s.events.Keys, script) && OrdinaryScript(script)
    ensures HarmlessScript(s, script)
    decreases |script|
  {
    if script != [] {
      ExecKeepsEvents(s, script[0]);
      OrdinaryIsHarmless(Exec(s, script[0]), script[1..]);
    }
  }

  lemma {:induction false} ScriptsOrdinary<E>(r: Ready<E>, calls: seq<Call>)
    requires OrdinaryReady(r)
    ensures OrdinaryScript(Scripts(r, calls))
  {
    if calls != [] {
      ScriptsOrdinary(r, calls[1..]);
      assert OrdinaryScript(ScriptOf(r, calls[0]));
    }
  }

  /** For handlers that add, delete, refresh and toggle in any way, nothing else is needed. */
  lemma {:induction false} OrdinaryHandlersAgree<E>(s: State<E>, batch: seq<Ready<E>>)
    requires Agreement(s) && KnownBatch(s.events.Keys, batch)
    requires forall i :: 0 <= i < |batch| ==> OrdinaryReady(batch[i])
    ensures Agreement(DispatchAll(s, batch))
    decreases |batch|
  {
    if batch != [] {
      var r := batch[0];
      var target := Target(s, r.fd);
      if target.Some? {
        var calls := Calls(s.events[target.value].installed, r.revents);
        var script := Scripts(r, calls);
        HandlerScriptKnown(s.events.Keys, s.events[target.value].installed, r);
        ScriptsOrdinary(r, calls);
        OrdinaryIsHarmless(s, script);
        ScriptKeepsAgreement(s, script);
      } else {
        var t := Dispatch(s, r);
        assert t.pool == s.pool && t.interest == s.interest;
      }
      OrdinaryHandlersAgree(Dispatch(s, r), batch[1..]);
    }
  }

  // ------------------------------------------------------------ who is called

  ghost predicate RegisteredObject<E>(s: State<E>, e: E) {
    exists fd :: fd in s.pool && s.pool[fd] == Some(e)
  }

  ghost predicate Adds<E>(script: Script<E>, e: E) {
    exists i :: 0 <= i < |script| && script[i] == Add(e)
  }

  ghost predicate ReadyAdds<E>(r: Ready<E>, e: E) {
    Adds(r.onHangUp, e) || Adds(r.onRead, e) || Adds(r.onWrite, e) || Adds(r.onError, e)
  }

  lemma {:induction false} ScriptRegisters<E>(s: State<E>, script: Script<E>, e: E)
    requires KnownScript(s.events.Keys, script) && !RegisteredObject(s, e) && !Adds(script, e)
    ensures !RegisteredObject(RunScript(s, script), e)
    decreases |script|
  {
    if script != [] {
      ExecKeepsEvents(s, script[0]);
      var t := Exec(s, script[0]);
      assert script[0] != Add(e);
      forall fd | fd in t.pool ensures t.pool[fd] != Some(e) {
        assert fd in s.pool ==> s.pool[fd] != Some(e);
      }
      forall i | 0 <= i < |script| - 1 ensures script[1..][i] != Add(e) {
        assert script[i + 1] != Add(e);
      }
      ScriptRegisters(t, script[1..], e);
    }
  }

  lemma {:induction false} ScriptsAdd<E>(r: Ready<E>, calls: seq<Call>, e: E)
    requires !ReadyAdds(r, e)
    ensures !Adds(Scripts(r, calls), e)
  {
    if calls != [] {
      ScriptsAdd(r, calls[1..], e);
      var first, rest := ScriptOf(r, calls[0]), Scripts(r, calls[1..]);
      assert !Adds(first, e);
      forall i | 0 <= i < |first + rest| ensures (first + rest)[i] != Add(e) {
        assert i >= |first| ==> (first + rest)[i] == rest[i - |first|];
      }
    }
  }

  /** An object that is not registered when a point of the batch is reached, and that no later
      handler adds, is not called from there on. */
  lemma {:induction false} UnregisteredIsNotCalled<E>(s: State<E>, batch: seq<Ready<E>>, e: E)
    requires KnownBatch(s.events.Keys, batch) && !RegisteredObject(s, e)
    requires forall i :: 0 <= i < |batch| ==> !ReadyAdds(batch[i], e)
    ensures e !in Called(s, batch)
    decreases |batch|
  {
    if batch != [] {
      var r := batch[0];
      var t := Dispatch(s, r);
      var target := Target(s, r.fd);
      if target.Some? && target.value in s.events {
        HandlerScriptKnown(s.events.Keys, s.events[target.value].installed, r);
        assert !ReadyAdds(r, e);
        ScriptsAdd(r, Calls(s.events[target.value].installed, r.revents), e);
        ScriptRegisters(s, HandlerScript(s.events[target.value].installed, r), e);
      }
      assert !RegisteredObject(t, e);
      UnregisteredIsNotCalled(t, batch[1..], e);
    }
  }

  // ------------------------------------------------------------ Event::handle

  /** Where a call stands in Event::handle. */
  function Place(call: Call): nat {
    match call
    case Error => 0
    case HangUpRead => 1
    case Read => 2
    case Write => 3
  }

  /** Bit by bit, which callbacks a report calls; each once at most, in the order of the code. */
  lemma CallsExactly(installed: Installed, revents: bv32)
    ensures revents & EPOLLERR != 0 ==>
              Calls(installed, revents) == if installed.error then [Error] else []
    ensures revents & EPOLLERR == 0 ==>
              && Error !in Calls(installed, revents)
              && (HangUpRead in Calls(installed, revents) <==>
                  installed.read && revents & EPOLLHUP != 0 && revents & EPOLLIN == 0)
              && (Read in Calls(installed, revents) <==>
                  && installed.read
                  && (revents & EPOLLIN != 0 || revents & EPOLLPRI != 0 || revents & EPOLLRDHUP != 0))
              && (Write in Calls(installed, revents) <==> installed.write && revents & EPOLLOUT != 0)
    ensures forall i, j :: 0 <= i < j < |Calls(installed, revents)| ==>
              Place(Calls(installed, revents)[i]) < Place(Calls(installed, revents)[j])
  {
    MaskOfThree(revents);
  }

  /** Each call runs the script of its own callback. */
  lemma CallsRunTheirScripts<E>(r: Ready<E>)
    ensures Scripts(r, [HangUpRead]) == r.onHangUp && Scripts(r, [Read]) == r.onRead
    ensures Scripts(r, [Write]) == r.onWrite && Scripts(r, [Error]) == r.onError
  {
    OneCall(r, HangUpRead);
    OneCall(r, Read);
    OneCall(r, Write);
    OneCall(r, Error);
  }

  /** The report asks for the read callback in both places where Event::handle can call it. */
  predicate AsksTwice(revents: bv32) {
    && revents & EPOLLERR == 0 && revents & EPOLLHUP != 0 && revents & EPOLLIN == 0
    && (revents & EPOLLPRI != 0 || revents & EPOLLRDHUP != 0)
  }

  lemma MaskOfThree(revents: bv32)
    ensures Has(revents, EPOLLIN | EPOLLPRI | EPOLLRDHUP) <==>
            revents & EPOLLIN != 0 || revents & EPOLLPRI != 0 || revents & EPOLLRDHUP != 0
  {
  }

  /**
   * Event::handle calls the read callback twice for one report exactly when the callback is
   * installed and the peer has hung up without input pending while urgent data or a half-close is
   * reported too.  Then both scripts run, one behind the other; without a read callback neither
   * does, whatever they are.
   */
  lemma ReadCalledTwiceIff<E>(installed: Installed, r: Ready<E>)
    ensures HangUpRead in Calls(installed, r.revents) && Read in Calls(installed, r.revents)
            <==> installed.read && AsksTwice(r.revents)
    ensures installed.read && AsksTwice(r.revents) ==>
              HandlerScript(installed, r)
              == r.onHangUp + r.onRead + Scripts(r, WriteCalls(installed, r.revents))
    ensures !installed.read ==>
              HangUpRead !in Calls(installed, r.revents) && Read !in Calls(installed, r.revents)
  {
    MaskOfThree(r.revents);
    if installed.read && AsksTwice(r.revents) {
      HandlerInParts(installed, r);
      OneCall(r, HangUpRead);
      OneCall(r, Read);
    }
  }

  /** A peer that has hung up and half-closed, as one report of epoll says it. */
  lemma HungUpPeerIsReadTwice<E>(installed: Installed, r: Ready<E>)
    requires installed.read && r.revents == EPOLLHUP | EPOLLRDHUP
    ensures HandlerScript(installed, r) == r.onHangUp + r.onRead
  {
    ReadCalledTwiceIff(installed, r);
  }
}
