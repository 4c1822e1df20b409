/** Lines ended by CRLF in a stream of bytes (src/net/tcp/buffer.cpp:181-202), on values. */
module Framing {
  import opened Wrappers

  newtype byte = x: int | 0 <= x < 256

  const CR: byte := 13
  const LF: byte := 10

  predicate CrlfAt(s: seq<byte>, k: nat) {
    k + 1 < |s| && s[k] == CR && s[k + 1] == LF
  }

  /** The two bytes are 13 and 10, in this order. */
  lemma CrlfBytes(s: seq<byte>, k: nat)
    requires k + 2 <= |s|
    ensures CrlfAt(s, k) <==> s[k..k + 2] == [13, 10]
  {
    assert s[k..k + 2] == [s[k], s[k + 1]];
  }

  ghost predicate NoCrlf(s: seq<byte>) {
    forall k: nat :: !CrlfAt(s, k)
  }

  /** Position of the first CRLF. */
  function FirstCrlf(s: seq<byte>): (r: Option<nat>)
    ensures r.Some? ==> CrlfAt(s, r.value)
  {
    if |s| < 2 then None
    else if CrlfAt(s, 0) then Some(0)
    else
      var r := FirstCrlf(s[1..]);
      if r.None? then None else Some(r.value + 1)
  }

  /** A hit is a CRLF with none before it; no hit means that there is none at all. */
  lemma {:induction false} FirstCrlfIsFirst(s: seq<byte>)
    ensures match FirstCrlf(s)
            case Some(k) => CrlfAt(s, k) && forall i: nat :: i < k ==> !CrlfAt(s, i)
            case None => NoCrlf(s)
  {
    if |s| >= 2 && !CrlfAt(s, 0) {
      FirstCrlfIsFirst(s[1..]);
      assert forall i: nat :: i > 0 ==> (CrlfAt(s, i) <==> CrlfAt(s[1..], i - 1));
    }
  }

  /** A hit stays where it is however much is appended. */
  lemma {:induction false} HitIsStable(a: seq<byte>, b: seq<byte>)
    requires FirstCrlf(a).Some?
    ensures FirstCrlf(a + b) == FirstCrlf(a)
  {
    if !CrlfAt(a, 0) {
      assert (a + b)[1..] == a[1..] + b;
      HitIsStable(a[1..], b);
    }
  }

  /** Complete lines, and the incomplete rest. */
  datatype Lines = Lines(complete: seq<seq<byte>>, rest: seq<byte>)

  /** Finding the first CRLF and retrieving past it, until none is left. */
  function Split(s: seq<byte>): Lines
    decreases |s|
  {
    if FirstCrlf(s).None? then Lines([], s)
    else
      var k := FirstCrlf(s).value;
      var tail := Split(s[k + 2..]);
      Lines([s[..k]] + tail.complete, tail.rest)
  }

  /** The bytes the lines came from. */
  function Unsplit(lines: seq<seq<byte>>, rest: seq<byte>): seq<byte> {
    if lines == [] then rest else lines[0] + [CR, LF] + Unsplit(lines[1..], rest)
  }

  /** Nothing is lost. */
  lemma {:induction false} SplitLosesNothing(s: seq<byte>)
    ensures Unsplit(Split(s).complete, Split(s).rest) == s
    decreases |s|
  {
    if FirstCrlf(s).Some? {
      var k := FirstCrlf(s).value;
      var tail := Split(s[k + 2..]);
      SplitLosesNothing(s[k + 2..]);
      assert ([s[..k]] + tail.complete)[1..] == tail.complete;
      assert s == s[..k] + [CR, LF] + s[k + 2..];
    }
  }

  lemma {:induction false} RestIsIncomplete(s: seq<byte>)
    ensures FirstCrlf(Split(s).rest).None?
    decreases |s|
  {
    if FirstCrlf(s).Some? {
      RestIsIncomplete(s[FirstCrlf(s).value + 2..]);
    }
  }

  lemma PrefixHasNoCrlf(s: seq<byte>, k: nat)
    requires k <= |s| && forall i: nat :: i < k ==> !CrlfAt(s, i)
    ensures NoCrlf(s[..k])
  {
    forall i: nat ensures !CrlfAt(s[..k], i) {
      assert CrlfAt(s[..k], i) ==> CrlfAt(s, i) && i < k;
    }
  }

  ghost predicate AllWithoutCrlf(lines: seq<seq<byte>>) {
    forall i :: 0 <= i < |lines| ==> NoCrlf(lines[i])
  }

  /** No line contains a CRLF, and neither does the rest. */
  lemma {:induction false} LinesAreMinimal(s: seq<byte>)
    ensures NoCrlf(Split(s).rest) && AllWithoutCrlf(Split(s).complete)
    decreases |s|
  {
    FirstCrlfIsFirst(s);
    if FirstCrlf(s).Some? {
      var k := FirstCrlf(s).value;
      LinesAreMinimal(s[k + 2..]);
      PrefixHasNoCrlf(s, k);
      SplitFirst(s, k);
    }
  }

  /** Split takes the first line, if there is one, and goes on behind its CRLF. */
  lemma SplitFirst(s: seq<byte>, k: nat)
    requires FirstCrlf(s) == Some(k)
    ensures Split(s) == Lines([s[..k]] + Split(s[k + 2..]).complete, Split(s[k + 2..]).rest)
  {
  }

  /** The lines of the first part, then those of its rest continued by the second part. */
  function Continue(first: Lines, b: seq<byte>): Lines {
    var second := Split(first.rest + b);
    Lines(first.complete + second.complete, second.rest)
  }

  /** What arrives later only concerns the rest. */
  lemma {:induction false} SplitAppend(a: seq<byte>, b: seq<byte>)
    ensures Split(a + b) == Continue(Split(a), b)
    decreases |a|
  {
    if FirstCrlf(a).Some? {
      var k := FirstCrlf(a).value;
      HitIsStable(a, b);
      SplitAppend(a[k + 2..], b);
      ContinueBehindLine(a, b, k);
    }
  }

  lemma ContinueCons(line: seq<byte>, tail: Lines, b: seq<byte>)
    ensures Continue(Lines([line] + tail.complete, tail.rest), b)
         == Lines([line] + Continue(tail, b).complete, Continue(tail, b).rest)
  {
  }

  lemma ContinueBehindLine(a: seq<byte>, b: seq<byte>, k: nat)
    requires FirstCrlf(a) == Some(k) && FirstCrlf(a + b) == Some(k)
    requires Split(a[k + 2..] + b) == Continue(Split(a[k + 2..]), b)
    ensures Split(a + b) == Continue(Split(a), b)
  {
    SplitFirst(a, k);
    SplitFirst(a + b, k);
    assert (a + b)[..k] == a[..k] && (a + b)[k + 2..] == a[k + 2..] + b;
    ContinueCons(a[..k], Split(a[k + 2..]), b);
  }

  function Concat(chunks: seq<seq<byte>>): seq<byte> {
    if chunks == [] then [] else chunks[0] + Concat(chunks[1..])
  }

  /** The chunks arrive one after the other; all complete lines are taken after each of them. */
  function Feed(pending: seq<byte>, chunks: seq<seq<byte>>): Lines
    decreases |chunks|
  {
    if chunks == [] then Lines([], pending)
    else
      var now := Split(pending + chunks[0]);
      var later := Feed(now.rest, chunks[1..]);
      Lines(now.complete + later.complete, later.rest)
  }

  lemma {:induction false} FeedFrom(pending: seq<byte>, chunks: seq<seq<byte>>)
    requires FirstCrlf(pending).None?
    ensures Feed(pending, chunks) == Split(pending + Concat(chunks))
    decreases |chunks|
  {
    if chunks == [] {
      assert pending + [] == pending;
    } else {
      var a, b := pending + chunks[0], Concat(chunks[1..]);
      RestIsIncomplete(a);
      FeedFrom(Split(a).rest, chunks[1..]);
      calc {
        Feed(pending, chunks);
      == { FeedStep(pending, chunks); }
        Continue(Split(a), b);
      == { SplitAppend(a, b); }
        Split(a + b);
      == { ConcatFirst(pending, chunks); }
        Split(pending + Concat(chunks));
      }
    }
  }

  lemma ConcatFirst(pending: seq<byte>, chunks: seq<seq<byte>>)
    requires chunks != []
    ensures pending + Concat(chunks) == pending + chunks[0] + Concat(chunks[1..])
  {
  }

  lemma FeedStep(pending: seq<byte>, chunks: seq<seq<byte>>)
    requires chunks != []
    requires var rest := Split(pending + chunks[0]).rest;
             Feed(rest, chunks[1..]) == Split(rest + Concat(chunks[1..]))
    ensures Feed(pending, chunks) == Continue(Split(pending + chunks[0]), Concat(chunks[1..]))
  {
  }

  /** However the same bytes are cut into chunks, the same lines and the same rest come out. */
  lemma FramingIgnoresChunking(chunks: seq<seq<byte>>, others: seq<seq<byte>>)
    requires Concat(chunks) == Concat(others)
    ensures Feed([], chunks) == Feed([], others) == Split(Concat(chunks))
  {
    FeedFrom([], chunks);
    FeedFrom([], others);
    assert [] + Concat(chunks) == Concat(chunks);
  }
}
