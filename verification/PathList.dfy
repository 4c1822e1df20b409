/** The colon-separated path list (src/plugin/pluginCreator.cpp:84-110). */
module PathList {
  import opened Text

  function NonEmpty(pieces: seq<string>): seq<string> {
    if pieces == [] then []
    else (if pieces[0] == [] then [] else [pieces[0]]) + NonEmpty(pieces[1..])
  }

  /** The non-empty pieces between colons. */
  function Paths(s: string): seq<string> {
    NonEmpty(SplitOn(s, ':'))
  }

  lemma {:induction false} NonEmptyConcat(a: seq<string>, b: seq<string>)
    ensures NonEmpty(a + b) == NonEmpty(a) + NonEmpty(b)
  {
    if a == [] {
      assert a + b == b;
    } else {
      assert (a + b)[1..] == a[1..] + b;
      NonEmptyConcat(a[1..], b);
    }
  }

  /** A colon between two lists of paths concatenates the lists. */
  lemma PathsAtColon(a: string, b: string)
    ensures Paths(a + [':'] + b) == Paths(a) + Paths(b)
  {
    SplitAtSeparator(a, b, ':');
    NonEmptyConcat(SplitOn(a, ':'), SplitOn(b, ':'));
  }

  lemma PathsWithoutColon(s: string)
    requires ':' !in s
    ensures Paths(s) == if s == [] then [] else [s]
  {
    SplitWithout(s, ':');
    assert NonEmpty([s]) == (if s == [] then [] else [s]) + NonEmpty([s][1..]);
  }

  predicate ProperPaths(paths: seq<string>) {
    forall i :: 0 <= i < |paths| ==> paths[i] != [] && ':' !in paths[i]
  }

  lemma {:induction false} NonEmptyIsProper(pieces: seq<string>)
    requires forall i :: 0 <= i < |pieces| ==> ':' !in pieces[i]
    ensures ProperPaths(NonEmpty(pieces))
  {
    if pieces != [] {
      NonEmptyIsProper(pieces[1..]);
    }
  }

  /** No path in the result is empty or contains a colon. */
  lemma PathsAreProper(s: string)
    ensures ProperPaths(Paths(s))
  {
    PiecesAreFree(s, ':');
    NonEmptyIsProper(SplitOn(s, ':'));
  }

  /** Splitting inverts joining on every list of proper paths. */
  lemma {:induction false} PathsInvertJoin(paths: seq<string>)
    requires ProperPaths(paths)
    ensures Paths(Join(paths, ':')) == paths
  {
    if |paths| <= 1 {
      PathsWithoutColon(Join(paths, ':'));
    } else {
      PathsInvertJoin(paths[1..]);
      PathsAtColon(paths[0], Join(paths[1..], ':'));
      PathsWithoutColon(paths[0]);
    }
  }

  /** Passing a colon with nothing but a piece before it. */
  lemma PathsFirst(s: string, i: nat)
    requires i < |s| && s[i] == ':' && ':' !in s[..i]
    ensures Paths(s) == (if s[..i] == [] then [] else [s[..i]]) + Paths(s[i + 1..])
  {
    assert s == s[..i] + [':'] + s[i + 1..];
    PathsAtColon(s[..i], s[i + 1..]);
    PathsWithoutColon(s[..i]);
  }

  predicate NoColonIn(str: string, from: nat, to: nat)
    requires to <= |str|
  {
    forall k :: from <= k < to ==> str[k] != ':'
  }

  /** The list after a piece: empty pieces are skipped. */
  function WithPiece(ret: seq<string>, piece: string): seq<string> {
    if piece == [] then ret else ret + [piece]
  }

  lemma PathsFrom(ret: seq<string>, str: string, previous: nat, i: nat)
    requires previous <= i < |str| && str[i] == ':' && NoColonIn(str, previous, i)
    ensures ret + Paths(str[previous..]) == WithPiece(ret, str[previous..i]) + Paths(str[i + 1..])
  {
    assert str[previous..i] == str[previous..][..i - previous];
    assert str[i + 1..] == str[previous..][i - previous + 1..];
    PathsFirst(str[previous..], i - previous);
  }

  lemma LastPath(ret: seq<string>, str: string, previous: nat)
    requires previous <= |str| && NoColonIn(str, previous, |str|)
    ensures ret + Paths(str[previous..]) == WithPiece(ret, str[previous..|str|])
  {
    assert str[previous..|str|] == str[previous..];
    PathsWithoutColon(str[previous..]);
  }

  /** Takes the characters between two positions as a path, unless there are none. */
  method PushCandidate(ret: seq<string>, str: string, from: nat, to: nat) returns (pushed: seq<string>)
    requires from <= to <= |str|
    ensures pushed == WithPiece(ret, str[from..to])
  {
    var candidate := str[from..to];
    pushed := if candidate != [] then ret + [candidate] else ret;
  }

  method ColonSeparatedStringToPaths(str: string) returns (ret: seq<string>)
    ensures ret == Paths(str)
    ensures ProperPaths(ret)
  {
    ret := [];
    var previous := 0;
    var i := 0;
    ghost var all, tail := Paths(str), Paths(str);
    assert str[0..] == str;
    while i < |str|
      invariant 0 <= previous <= i <= |str| && NoColonIn(str, previous, i)
      invariant tail == Paths(str[previous..]) && ret + tail == all
    {
      if str[i] == ':' {
        PathsFrom(ret, str, previous, i);
        ret := PushCandidate(ret, str, previous, i);
        previous := i + 1;
        tail := Paths(str[previous..]);
      }
      i := i + 1;
    }
    LastPath(ret, str, previous);
    if previous != |str| {
      ret := PushCandidate(ret, str, previous, |str|);
    }
    PathsAreProper(str);
  }
}
