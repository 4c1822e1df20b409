/**
 * What findCRLF and retrieveUntil (src/net/tcp/buffer.cpp:181-202) are for: a message callback that
 * takes the complete lines out of a Buffer object whenever bytes have arrived.
 */
module LineReader {
  import opened Wrappers
  import opened Widths
  import opened Framing
  import opened Buffers

  /** Taking the first line moves it from the lines still to come to those handed out. */
  lemma LineTaken(lines: seq<seq<byte>>, s: seq<byte>, k: nat)
    requires FirstCrlf(s) == Some(k)
    ensures lines + Split(s).complete == lines + [s[..k]] + Split(s[k + 2..]).complete
    ensures Split(s).rest == Split(s[k + 2..]).rest
  {
    SplitFirst(s, k);
  }

  /** Copies the bytes before a CRLF that was found and retrieves past it. */
  method TakeLine(buffer: Buffer, crlf: nat) returns (line: seq<byte>)
    requires buffer.Valid() && FirstCrlf(buffer.Unread()) == Some(crlf)
    modifies buffer
    ensures buffer.Valid() && buffer.writeIndex <= old(buffer.writeIndex)
    ensures line == old(buffer.Unread())[..crlf] && buffer.Unread() == old(buffer.Unread())[crlf + 2..]
  {
    line := buffer.buffer[buffer.readIndex..buffer.readIndex + crlf];
    buffer.RetrieveUntil(buffer.readIndex + crlf + 2);
  }

  /** Finds the first CRLF and retrieves past it, until there is none. */
  method RetrieveLines(buffer: Buffer) returns (lines: seq<seq<byte>>)
    requires buffer.Valid()
    modifies buffer
    ensures buffer.Valid() && buffer.writeIndex <= old(buffer.writeIndex)
    ensures Lines(lines, buffer.Unread()) == Split(old(buffer.Unread()))
  {
    lines := [];
    ghost var all := Split(buffer.Unread());
    var crlf := buffer.FindCRLF();
    while crlf.Some?
      invariant buffer.Valid() && buffer.writeIndex <= old(buffer.writeIndex)
      invariant crlf == FirstCrlf(buffer.Unread())
      invariant Split(buffer.Unread()).rest == all.rest
      invariant lines + Split(buffer.Unread()).complete == all.complete
      decreases |buffer.Unread()|
    {
      LineTaken(lines, buffer.Unread(), crlf.value);
      var line := TakeLine(buffer, crlf.value);
      lines := lines + [line];
      crlf := buffer.FindCRLF();
    }
  }

  lemma FeedNext(lines: seq<seq<byte>>, pending: seq<byte>, chunks: seq<seq<byte>>, i: nat)
    requires i < |chunks|
    ensures |Concat(chunks[i..])| == |chunks[i]| + |Concat(chunks[i + 1..])|
    ensures var now := Split(pending + chunks[i]);
            var all, later := Feed(pending, chunks[i..]), Feed(now.rest, chunks[i + 1..]);
            lines + all.complete == lines + now.complete + later.complete && all.rest == later.rest
  {
    assert chunks[i..][1..] == chunks[i + 1..];
  }

  /**
   * Chunks arrive one after the other and the complete lines are taken after each: however the bytes
   * were cut, the lines handed out and the bytes left are those of the whole input.
   */
  method FeedChunks(buffer: Buffer, chunks: seq<seq<byte>>) returns (lines: seq<seq<byte>>)
    requires buffer.Valid() && buffer.Unread() == []
    requires buffer.writeIndex + |Concat(chunks)| < U32_LIMIT
    modifies buffer
    ensures buffer.Valid()
    ensures Lines(lines, buffer.Unread()) == Split(Concat(chunks))
  {
    lines := [];
    FramingIgnoresChunking(chunks, chunks);
    ghost var all := Split(Concat(chunks));
    assert chunks[0..] == chunks;
    var i := 0;
    while i < |chunks|
      invariant 0 <= i <= |chunks| && buffer.Valid()
      invariant buffer.writeIndex + |Concat(chunks[i..])| < U32_LIMIT
      invariant lines + Feed(buffer.Unread(), chunks[i..]).complete == all.complete
      invariant Feed(buffer.Unread(), chunks[i..]).rest == all.rest
    {
      FeedNext(lines, buffer.Unread(), chunks, i);
      buffer.Append(chunks[i]);
      var now := RetrieveLines(buffer);
      lines := lines + now;
      i := i + 1;
    }
  }
}
