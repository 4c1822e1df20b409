/**
 * A TCP connection (src/net/tcp/tcpConnect.cpp) as a step machine on values: what the program
 * sends, buffers and reports under every outcome of the system calls.
 *
 * The guard at the head of writeEvent is a parameter: AsWritten is the program's
 * `if (event->isWriting()) return`, Meant is the negation of it, which the code below it needs.
 */
module Connection {
  import opened Wrappers
  import opened Widths
  import opened Framing
  import opened Buffers

  const EINVAL: int := 22
  const EWOULDBLOCK: int := 11
  const EPIPE: int := 32
  const ECONNRESET: int := 104
  const ENOTCONN: int := 107

  datatype Phase = Disconnected | Connecting | Connected | Disconnecting

  datatype Guard = AsWritten | Meant

  /** Result of a send: the number of bytes taken by the kernel, or an error number. */
  datatype SendResult = Sent(n: nat) | SendError(error: int)

  datatype State = State(
    phase: Phase,
    writing: bool,           // interest in write events
    unread: seq<byte>,       // writeBuf
    writeIndex: nat,         // 32-bit write index of writeBuf
    readBuf: seq<byte>,      // readBuf
    readBufIndex: nat,       // 32-bit write index of readBuf
    accepted: seq<byte>,     // history: payloads of write that were not refused
    sent: seq<byte>,         // history: bytes taken by the kernel
    received: seq<byte>,     // history: bytes the kernel delivered
    taken: seq<byte>,        // history: bytes the message callback took out of readBuf
    completions: nat,        // history: reports that everything is written
    connects: nat,           // history: calls of connectedHandle
    closes: nat)             // history: reports that the connection closed

  const INIT := State(Disconnected, false, [], 0, [], 0, [], [], [], [], 0, 0, 0)

  datatype Step =
    | Connect
    | Write(data: seq<byte>, result: SendResult)
    | WriteEvent(drained: SendResult, errno: int) // errno as it stands when a send takes 0 bytes
    | ReadEvent(input: Received)
    | Take(n: nat)                                // the user takes bytes out of readBuf
    | ErrorEvent
    | ShutdownWrite

  predicate IsFault(error: int) {
    error == EPIPE || error == ECONNRESET || error == ENOTCONN || error == EINVAL
  }

  /** A write goes straight to the socket only if nothing is waiting in front of it. */
  predicate Direct(s: State) {
    !s.writing && s.unread == []
  }

  /** Bytes of this write that the kernel takes at once. */
  function TakenAtOnce(s: State, data: seq<byte>, result: SendResult): nat {
    if Direct(s) && result.Sent? then result.n else 0
  }

  predicate Refused(s: State, result: SendResult) {
    Direct(s) && result.SendError? && IsFault(result.error)
  }

  /** Does the write event get past the guard? */
  predicate Passes(guard: Guard, s: State) {
    if guard.AsWritten? then !s.writing else s.writing
  }

  function Closed(s: State): State {
    if s.phase.Disconnected? then s else s.(phase := Disconnected, closes := s.closes + 1)
  }

  predicate Legal(s: State, step: Step) {
    match step
    case Write(data, result) => Direct(s) && result.Sent? ==> result.n <= |data|
    case WriteEvent(result, _) => result.Sent? ==> result.n <= |s.unread|
    case Take(n) => n <= |s.readBuf|
    case _ => true
  }

  /** The 32-bit write indices do not wrap in this step. */
  predicate Fits(s: State, step: Step)
    requires Legal(s, step)
  {
    match step
    case Write(data, result) =>
      s.phase.Disconnected? || Refused(s, result)
      || s.writeIndex + |data| - TakenAtOnce(s, data, result) < U32_LIMIT
    case ReadEvent(input) => input.Bytes? ==> s.readBufIndex + |input.data| < U32_LIMIT
    case _ => true
  }

  function AfterWrite(s: State, data: seq<byte>, result: SendResult): State
    requires Legal(s, Write(data, result))
  {
    if s.phase.Disconnected? || Refused(s, result) then s
    else
      var n := TakenAtOnce(s, data, result);
      s.(accepted := s.accepted + data, sent := s.sent + data[..n], unread := s.unread + data[n..],
         writeIndex := s.writeIndex + |data| - n,
         writing := s.writing || n < |data|,
         completions := if Direct(s) && result == Sent(|data|) then s.completions + 1 else s.completions)
  }

  function AfterWriteEvent(guard: Guard, s: State, result: SendResult, errno: int): State
    requires Legal(s, WriteEvent(result, errno))
  {
    if !Passes(guard, s) then s
    else if result.Sent? && result.n > 0 then
      var n := result.n;
      var rest := s.unread[n..];
      s.(sent := s.sent + s.unread[..n], unread := rest,
         writeIndex := if rest == [] then 0 else s.writeIndex,
         writing := s.writing && rest != [],
         completions := if rest == [] then s.completions + 1 else s.completions)
    else
      var error := if result.Sent? then errno else result.error;
      if error == EWOULDBLOCK then s else Closed(s)
  }

  function Next(guard: Guard, s: State, step: Step): State
    requires Legal(s, step)
  {
    match step
    case Connect => s.(phase := Connected, connects := s.connects + 1)
    case Write(data, result) => AfterWrite(s, data, result)
    case WriteEvent(result, errno) => AfterWriteEvent(guard, s, result, errno)
    case ReadEvent(Bytes(data)) =>
      if data == [] then Closed(s)
      else s.(readBuf := s.readBuf + data, readBufIndex := s.readBufIndex + |data|,
              received := s.received + data)
    case ReadEvent(Failed(error)) => if error == EWOULDBLOCK then s else Closed(s)
    case Take(n) =>
      s.(taken := s.taken + s.readBuf[..n], readBuf := s.readBuf[n..],
         readBufIndex := if n == |s.readBuf| then 0 else s.readBufIndex)
    case ErrorEvent => Closed(s)
    case ShutdownWrite => if s.phase.Connected? then s.(phase := Disconnecting) else s
  }

  predicate LegalRun(guard: Guard, s: State, steps: seq<Step>)
    decreases |steps|
  {
    steps == [] || (Legal(s, steps[0]) && LegalRun(guard, Next(guard, s, steps[0]), steps[1..]))
  }

  function Run(guard: Guard, s: State, steps: seq<Step>): State
    requires LegalRun(guard, s, steps)
    decreases |steps|
  {
    if steps == [] then s else Run(guard, Next(guard, s, steps[0]), steps[1..])
  }

  // ------------------------------------------------------------ what one step does

  /** A send is tried only if no write event is awaited and nothing is buffered, and it fails with one
      of the four errors after which the program drops the payload. */
  predicate SendFails(s: State, result: SendResult) {
    && !s.writing && s.unread == []
    && result.SendError?
    && (result.error == 32 || result.error == 104 || result.error == 107 || result.error == 22)
  }

  /** A payload is accepted if and only if the connection is not disconnected and the send does not
      fail with one of the four errors; otherwise nothing changes. */
  lemma WriteAcceptedIff(guard: Guard, s: State, data: seq<byte>, result: SendResult)
    requires Legal(s, Write(data, result)) && data != []
    ensures var t := Next(guard, s, Write(data, result));
            && (t.accepted == s.accepted + data <==> !s.phase.Disconnected? && !SendFails(s, result))
            && (s.phase.Disconnected? || SendFails(s, result) ==> t == s)
  {
    assert |s.accepted + data| > |s.accepted|;
  }

  /** What becomes of an accepted payload: behind what is buffered, or split by what the kernel takes;
      completion is reported at once only if it takes everything. */
  lemma AcceptedGoes(guard: Guard, s: State, data: seq<byte>, result: SendResult)
    requires Legal(s, Write(data, result)) && !s.phase.Disconnected? && !SendFails(s, result)
    ensures var t := Next(guard, s, Write(data, result));
            if !s.writing && s.unread == [] && result.Sent? then
              && t.sent == s.sent + data[..result.n] && t.unread == data[result.n..]
              && (t.writing <==> result.n < |data|)
              && t.completions == s.completions + (if result.n == |data| then 1 else 0)
            else
              && t.sent == s.sent && t.unread == s.unread + data && (data != [] ==> t.writing)
              && t.completions == s.completions
  {
    if !s.writing && s.unread == [] && result.Sent? {
      assert s.unread + data[result.n..] == data[result.n..];
    }
  }

  /** A full socket costs nothing: the payload is buffered and a write event awaited. */
  lemma BlockedSendIsBuffered(guard: Guard, s: State, data: seq<byte>)
    requires !s.phase.Disconnected? && data != []
    ensures Legal(s, Write(data, SendError(11)))
    ensures var t := Next(guard, s, Write(data, SendError(11)));
            t.unread == s.unread + data && t.writing && t.sent == s.sent && t.accepted == s.accepted + data
  {
    AcceptedGoes(guard, s, data, SendError(11));
    WriteAcceptedIff(guard, s, data, SendError(11));
  }

  /** The event closes a connection: an error event, an end of stream, a failed read other than
      would-block, or a write event past its guard that takes no byte for a reason other than
      would-block. */
  predicate IsClosing(guard: Guard, s: State, step: Step) {
    || step.ErrorEvent?
    || (step.ReadEvent? && step.input == Bytes([]))
    || (step.ReadEvent? && step.input.Failed? && step.input.error != 11)
    || (&& step.WriteEvent? && s.writing == guard.Meant?
        && ((step.drained.Sent? && step.drained.n == 0 && step.errno != 11)
            || (step.drained.SendError? && step.drained.error != 11)))
  }

  /** A step reports a close, and leaves the connection disconnected, if and only if it is one of
      these and the connection was not disconnected before. */
  lemma ClosesIff(guard: Guard, s: State, step: Step)
    requires Legal(s, step)
    ensures var t := Next(guard, s, step);
            && t.closes == s.closes + (if IsClosing(guard, s, step) && !s.phase.Disconnected? then 1 else 0)
            && (t.phase.Disconnected? <==>
                if s.phase.Disconnected? then !step.Connect? else IsClosing(guard, s, step))
  {
  }

  /** The phase otherwise changes only by connecting and by shutting down a connected connection. */
  lemma PhaseChanges(guard: Guard, s: State, step: Step)
    requires Legal(s, step) && !IsClosing(guard, s, step)
    ensures Next(guard, s, step).phase
         == if step.Connect? then Connected
            else if step.ShutdownWrite? && s.phase.Connected? then Disconnecting
            else s.phase
  {
  }

  /** What arrives goes behind what was not taken yet; nothing else touches the receiving side but
      the callback that takes bytes. */
  lemma ReadDelivers(guard: Guard, s: State, step: Step)
    requires Legal(s, step)
    ensures var t := Next(guard, s, step);
            match step
            case ReadEvent(Bytes(data)) => t.readBuf == s.readBuf + data && t.received == s.received + data
            case Take(n) => t.taken == s.taken + s.readBuf[..n] && t.readBuf == s.readBuf[n..]
            case _ => t.readBuf == s.readBuf && t.received == s.received && t.taken == s.taken
  {
    if step == ReadEvent(Bytes([])) {
      assert s.readBuf + [] == s.readBuf && s.received + [] == s.received;
    }
  }

  // ------------------------------------------------------------ the two byte streams

  /** What was sent and what is still buffered is what was accepted, in order; what was taken out
      and what is still buffered is what was received. */
  predicate Conserved(s: State) {
    s.sent + s.unread == s.accepted && s.taken + s.readBuf == s.received
  }

  /** Conservation, and write interest is on exactly while something is buffered. */
  predicate StreamsKept(s: State) {
    Conserved(s) && (s.writing <==> s.unread != [])
  }

  lemma WriteConserves(s: State, data: seq<byte>, result: SendResult)
    requires Conserved(s) && Legal(s, Write(data, result))
    ensures Conserved(AfterWrite(s, data, result))
  {
  }

  lemma WriteEventConserves(guard: Guard, s: State, result: SendResult, errno: int)
    requires Conserved(s) && Legal(s, WriteEvent(result, errno))
    ensures Conserved(AfterWriteEvent(guard, s, result, errno))
  {
  }

  lemma ConservedStep(guard: Guard, s: State, step: Step)
    requires Conserved(s) && Legal(s, step)
    ensures Conserved(Next(guard, s, step))
  {
    match step
    case Write(data, result) => WriteConserves(s, data, result);
    case WriteEvent(result, errno) => WriteEventConserves(guard, s, result, errno);
    case ReadEvent(Bytes(data)) => assert s.taken + (s.readBuf + data) == s.taken + s.readBuf + data;
    case Take(n) => assert s.taken + s.readBuf[..n] + s.readBuf[n..] == s.taken + s.readBuf;
    case _ =>
  }

  lemma StreamsKeptStep(guard: Guard, s: State, step: Step)
    requires StreamsKept(s) && Legal(s, step)
    ensures StreamsKept(Next(guard, s, step))
  {
    ConservedStep(guard, s, step);
  }

  /** Stream conservation over every run, under either reading of the guard. */
  lemma {:induction false} StreamsAreConserved(guard: Guard, s: State, steps: seq<Step>)
    requires StreamsKept(s) && LegalRun(guard, s, steps)
    ensures StreamsKept(Run(guard, s, steps))
    decreases |steps|
  {
    if steps != [] {
      StreamsKeptStep(guard, s, steps[0]);
      StreamsAreConserved(guard, Next(guard, s, steps[0]), steps[1..]);
    }
  }

  // ------------------------------------------------------------ draining

  /** A write event sends something if and only if it passes the guard with bytes buffered and the
      kernel takes some; with the guard as written that never happens. */
  lemma WriteEventSendsIff(guard: Guard, s: State, result: SendResult, errno: int)
    requires StreamsKept(s) && Legal(s, WriteEvent(result, errno))
    ensures AfterWriteEvent(guard, s, result, errno).sent != s.sent
            <==> guard.Meant? && result.Sent? && result.n > 0
  {
  }

  /** Once a byte is buffered, the program as written sends nothing more in any continuation; the
      buffer only grows. */
  lemma {:induction false} NothingIsSentAsWritten(s: State, steps: seq<Step>)
    requires StreamsKept(s) && s.unread != [] && LegalRun(AsWritten, s, steps)
    ensures Run(AsWritten, s, steps).sent == s.sent
    ensures s.unread <= Run(AsWritten, s, steps).unread
    decreases |steps|
  {
    if steps != [] {
      StreamsKeptStep(AsWritten, s, steps[0]);
      NothingIsSentAsWritten(Next(AsWritten, s, steps[0]), steps[1..]);
    }
  }

  /** A run that shows it: the kernel takes the first of two bytes, then is ready for the second. */
  lemma SecondByteIsStuck()
    ensures var steps := [Connect, Write([1, 2], Sent(1)), WriteEvent(Sent(1), 0)];
            && LegalRun(AsWritten, INIT, steps)
            && Run(AsWritten, INIT, steps).sent == [1] && Run(AsWritten, INIT, steps).unread == [2]
            && LegalRun(Meant, INIT, steps)
            && Run(Meant, INIT, steps).sent == [1, 2] && Run(Meant, INIT, steps).unread == []
  {
  }

  /** Write events in which the kernel takes at least one byte each. */
  predicate Productive(steps: seq<Step>) {
    forall i :: 0 <= i < |steps| ==>
      steps[i].WriteEvent? && steps[i].drained.Sent? && steps[i].drained.n > 0
  }

  /**
   * With the guard as meant, productive write events empty the buffer in at most as many events as
   * it has bytes; interest is dropped and completion reported by the event that empties it and by
   * no earlier one.
   */
  lemma {:induction false} ProductiveEventsDrain(s: State, steps: seq<Step>)
    requires StreamsKept(s) && LegalRun(Meant, s, steps) && Productive(steps)
    ensures var t := Run(Meant, s, steps);
            && |steps| + |t.unread| <= |s.unread|
            && (t.writing <==> t.unread != [])
            && t.completions == s.completions + (if s.unread != [] && t.unread == [] then 1 else 0)
            && t.phase == s.phase && t.closes == s.closes
    decreases |steps|
  {
    if steps != [] {
      StreamsKeptStep(Meant, s, steps[0]);
      ProductiveEventsDrain(Next(Meant, s, steps[0]), steps[1..]);
    }
  }

  // ------------------------------------------------------------ close at most once

  predicate ClosesBounded(s: State) {
    s.closes + (if s.phase.Disconnected? then 0 else 1) <= s.connects
  }

  /** The close callback runs at most once for every connectedHandle. */
  lemma {:induction false} ClosesAtMostOnce(guard: Guard, s: State, steps: seq<Step>)
    requires ClosesBounded(s) && LegalRun(guard, s, steps)
    ensures ClosesBounded(Run(guard, s, steps))
    decreases |steps|
  {
    if steps != [] {
      ClosesAtMostOnce(guard, Next(guard, s, steps[0]), steps[1..]);
    }
  }
}
