/**
 * The class TcpConnect (src/net/tcp/tcpConnect.cpp) with its two Buffer objects.  The results of
 * the system calls are parameters; every method is proved to take a step of Connection with the
 * guard as written.  All user callbacks are in tail position, so a callback that writes to the
 * connection again is a further call of the same methods.
 */
module TcpConnects {
  import opened Widths
  import opened Framing
  import opened Buffers
  import opened Connection
  import AddressText

  /** What a write leaves in the buffer. */
  lemma WriteBuffersRest(s: State, data: seq<byte>, result: SendResult)
    requires Legal(s, Step.Write(data, result)) && !s.phase.Disconnected?
    ensures var t, n := AfterWrite(s, data, result), TakenAtOnce(s, data, result);
            && t.phase == s.phase && t.readBuf == s.readBuf && t.readBufIndex == s.readBufIndex
            && t.closes == s.closes && t.connects == s.connects
            && (if Refused(s, result) || n == |data| then
                  t.unread == s.unread && t.writeIndex == s.writeIndex && t.writing == s.writing
                else
                  && t.unread == s.unread + data[n..] && t.writeIndex == s.writeIndex + |data[n..]|
                  && t.writing)
  {
  }

  /** Taking bytes out of what was received, by the bytes themselves. */
  lemma TakeSplits(s: State, data: seq<byte>, rest: seq<byte>)
    requires Conserved(s) && ClosesBounded(s) && data + rest == s.readBuf
    ensures Legal(s, Step.Take(|data|))
    ensures var t := Next(AsWritten, s, Step.Take(|data|));
            && Conserved(t) && ClosesBounded(t)
            && t == s.(taken := s.taken + data, readBuf := rest,
                       readBufIndex := if rest == [] then 0 else s.readBufIndex)
  {
    ConservedStep(AsWritten, s, Step.Take(|data|));
    assert data == s.readBuf[..|data|] && rest == s.readBuf[|data|..];
  }

  class TcpConnect {
    const peer: AddressText.SockAddr
    const name: string
    const readBuf: Buffer
    const writeBuf: Buffer
    var phase: Phase
    var writing: bool     // event->isWriting()
    var reading: bool     // event->isReading()
    var errorWatch: bool  // interest in error events
    var writeShut: bool   // the socket's write side has been shut down
    ghost var model: State

    /** The fields are those of this state of the machine. */
    ghost predicate Agrees(s: State)
      requires readBuf.Valid() && writeBuf.Valid()
      reads this, readBuf, writeBuf
    {
      && s.phase == phase && s.writing == writing
      && s.unread == writeBuf.Unread() && s.writeIndex == writeBuf.writeIndex
      && s.readBuf == readBuf.Unread() && s.readBufIndex == readBuf.writeIndex
      && Conserved(s) && ClosesBounded(s)
    }

    ghost predicate Valid()
      reads this, readBuf, writeBuf
    {
      && peer.Valid() && name == AddressText.Print(peer)
      && readBuf != writeBuf && readBuf.Valid() && writeBuf.Valid()
      && Agrees(model)
    }

    ghost method Record(next: State)
      requires peer.Valid() && name == AddressText.Print(peer)
      requires readBuf != writeBuf && readBuf.Valid() && writeBuf.Valid() && Agrees(next)
      modifies this`model
      ensures Valid() && model == next
    {
      model := next;
    }

    constructor (addr: AddressText.SockAddr, size: nat)
      requires addr.Valid() && size < U32_LIMIT
      ensures Valid() && model == INIT && fresh(readBuf) && fresh(writeBuf)
      ensures !reading && !errorWatch && !writeShut && peer == addr
    {
      peer := addr;
      var text := AddressText.IpToString(addr);
      name := text;
      var input := new Buffer(size);
      var output := new Buffer(size);
      readBuf, writeBuf := input, output;
      phase := Disconnected;
      writing, reading, errorWatch, writeShut := false, false, false, false;
      model := INIT;
    }

    method ConnectedHandle()
      requires Valid()
      modifies this
      ensures Valid() && model == Next(AsWritten, old(model), Connect)
      ensures phase == Connected && reading && errorWatch && writeShut == old(writeShut)
    {
      phase := Connected;
      reading := true;
      errorWatch := true;
      model := Next(AsWritten, model, Connect);
    }

    method CloseEvent()
      requires Valid()
      modifies this`phase, this`model
      ensures Valid() && model == Closed(old(model)) && phase == Disconnected
      ensures model.closes == old(model.closes) + if old(phase) == Disconnected then 0 else 1
    {
      if phase == Disconnected {
        return;
      }
      phase := Disconnected;
      model := Closed(model);
    }

    method ErrorEvent()
      requires Valid()
      modifies this`phase, this`model
      ensures Valid() && model == Next(AsWritten, old(model), Step.ErrorEvent)
    {
      CloseEvent();
    }

    /** Only a connection that is connected shuts its socket's write side down. */
    method ShutdownWrite()
      requires Valid()
      modifies this`phase, this`writeShut, this`model
      ensures writeShut == (old(writeShut) || old(phase) == Connected)
      ensures phase == if old(phase) == Connected then Disconnecting else old(phase)
      ensures Valid() && model == Next(AsWritten, old(model), Step.ShutdownWrite)
    {
      if phase == Connected {
        phase := Disconnecting;
        writeShut := true;
      }
      model := Next(AsWritten, model, Step.ShutdownWrite);
    }

    /** The first half of write: the attempt to send at once, if nothing is waiting in front. */
    method SendAtOnce(data: seq<byte>, result: SendResult) returns (n: nat, faultError: bool)
      requires Valid() && Legal(model, Step.Write(data, result))
      ensures n == TakenAtOnce(model, data, result) && faultError == Refused(model, result)
      ensures n == (if !writing && writeBuf.Unread() == [] && result.Sent? then result.n else 0)
      ensures faultError == SendFails(model, result)
    {
      n := 0;
      faultError := false;
      var empty := writeBuf.IsEmpty();
      if !writing && empty {
        if result.Sent? {
          n := result.n;
        } else if result.error != EWOULDBLOCK && IsFault(result.error) {
          faultError := true;
        }
      }
    }

    /** The second half: the rest goes to the buffer, and interest in write events on. */
    method BufferRest(rest: seq<byte>, ghost next: State)
      requires Valid() && rest != [] && Conserved(next) && ClosesBounded(next)
      requires next.unread == model.unread + rest && next.writeIndex == model.writeIndex + |rest|
      requires next.writing && next.phase == model.phase
      requires next.readBuf == model.readBuf && next.readBufIndex == model.readBufIndex
      modifies this`writing, this`model, writeBuf
      ensures Valid() <==> next.writeIndex < U32_LIMIT
      ensures Valid() ==> model == next
    {
      writeBuf.Append(rest);
      if !writing {
        writing := true;
      }
      model := next;
    }

    /** Sends at once what the kernel takes and buffers the rest, or buffers everything behind what
        is already waiting.  It is the step as long as the 32-bit index of writeBuf does not wrap. */
    method Write(data: seq<byte>, result: SendResult)
      requires Valid() && Legal(model, Step.Write(data, result))
      modifies this`writing, this`model, writeBuf
      ensures Valid() <==> Fits(old(model), Step.Write(data, result))
      ensures Valid() ==> model == Next(AsWritten, old(model), Step.Write(data, result))
    {
      if phase == Disconnected {
        return;
      }
      ghost var next := Next(AsWritten, model, Step.Write(data, result));
      ConservedStep(AsWritten, model, Step.Write(data, result));
      WriteBuffersRest(model, data, result);
      var n, faultError := SendAtOnce(data, result);
      var remaining := |data| - n;
      if !faultError && remaining > 0 {
        BufferRest(data[n..], next);
      } else {
        model := next;
      }
    }

    /** What the kernel took leaves the buffer; interest in write events goes with the last byte. */
    method ClearSent(n: nat, ghost next: State)
      requires Valid() && n <= |model.unread| && Conserved(next) && ClosesBounded(next)
      requires next.unread == model.unread[n..] && next.phase == model.phase
      requires next.writeIndex == if next.unread == [] then 0 else model.writeIndex
      requires next.writing == (model.writing && next.unread != [])
      requires next.readBuf == model.readBuf && next.readBufIndex == model.readBufIndex
      modifies this`writing, this`model, writeBuf
      ensures Valid() && model == next
    {
      writeBuf.ClearReadIndex(n);
      assert writeBuf.Unread() == next.unread;
      model := next;
      var empty := writeBuf.IsEmpty();
      if empty {
        writing := false;
      }
    }

    /** The write event with the guard of line 88 as it stands. */
    method WriteEvent(result: SendResult, errno: int)
      requires Valid() && Legal(model, Step.WriteEvent(result, errno))
      modifies this`writing, this`phase, this`model, writeBuf
      ensures Valid() && model == Next(AsWritten, old(model), Step.WriteEvent(result, errno))
    {
      ghost var next := Next(AsWritten, model, Step.WriteEvent(result, errno));
      ConservedStep(AsWritten, model, Step.WriteEvent(result, errno));
      if writing {
        return;
      }
      if result.Sent? && result.n > 0 {
        ClearSent(result.n, next);
      } else {
        var error := if result.Sent? then errno else result.error;
        if error == EWOULDBLOCK {
          return;
        }
        CloseEvent();
      }
    }

    /** Appends what arrived to readBuf and hands it to the message callback; an end of stream or an
        error other than would-block closes. */
    method ReadEvent(input: Received)
      requires Valid() && (input.Bytes? ==> |input.data| <= readBuf.ReadCapacity())
      modifies this`phase, this`model, readBuf
      ensures Valid() <==> Fits(old(model), Step.ReadEvent(input))
      ensures Valid() ==> model == Next(AsWritten, old(model), Step.ReadEvent(input))
    {
      ghost var before := model;
      ConservedStep(AsWritten, before, Step.ReadEvent(input));
      var n, errno := readBuf.ReadFromIO(input);
      if n > 0 {
        model := Next(AsWritten, before, Step.ReadEvent(input));
      } else if n == 0 {
        assert before.readBuf + [] == before.readBuf;
        CloseEvent();
      } else {
        if errno == EWOULDBLOCK {
          return;
        }
        CloseEvent();
      }
    }

    /** What a message callback does with readBuf: it takes bytes out from the front. */
    method TakeInput(len: nat) returns (data: seq<byte>)
      requires Valid() && len <= |readBuf.Unread()|
      modifies this`model, readBuf
      ensures Valid() && data + readBuf.Unread() == old(readBuf.Unread())
      ensures model == Next(AsWritten, old(model), Step.Take(len)) && model.taken == old(model.taken) + data
    {
      var n: nat;
      n, data := readBuf.ReadBytes(len);
      TakeSplits(model, data, readBuf.Unread());
      Record(Next(AsWritten, model, Step.Take(len)));
    }
  }
}
