/** Splitting and joining of strings at a separator, and decimal numbers. */
module Text {
  import opened Wrappers

  /** Puts a character in front of the first piece. */
  function Prepend(c: char, pieces: seq<string>): (r: seq<string>)
    requires pieces != []
    ensures |r| == |pieces|
  {
    [[c] + pieces[0]] + pieces[1..]
  }

  /** The pieces between the separators, empty ones included. */
  function SplitOn(s: string, sep: char): (pieces: seq<string>)
    ensures pieces != []
  {
    if s == [] then [[]]
    else if s[0] == sep then [[]] + SplitOn(s[1..], sep)
    else Prepend(s[0], SplitOn(s[1..], sep))
  }

  function Join(pieces: seq<string>, sep: char): string {
    if pieces == [] then []
    else if |pieces| == 1 then pieces[0]
    else pieces[0] + [sep] + Join(pieces[1..], sep)
  }

  lemma {:induction false} SplitWithout(s: string, sep: char)
    requires sep !in s
    ensures SplitOn(s, sep) == [s]
  {
    if s != [] {
      SplitWithout(s[1..], sep);
      assert [s[0]] + s[1..] == s;
    }
  }

  lemma PrependConcat(c: char, a: seq<string>, b: seq<string>)
    requires a != []
    ensures Prepend(c, a + b) == Prepend(c, a) + b
  {
  }

  lemma SplitCons(c: char, s: string, sep: char)
    ensures SplitOn([c] + s, sep)
         == if c == sep then [[]] + SplitOn(s, sep) else Prepend(c, SplitOn(s, sep))
  {
  }

  /** A separator between two strings separates their pieces. */
  lemma {:induction false} SplitAtSeparator(a: string, b: string, sep: char)
    ensures SplitOn(a + [sep] + b, sep) == SplitOn(a, sep) + SplitOn(b, sep)
  {
    if a == [] {
      assert a + [sep] + b == [sep] + b;
      SplitCons(sep, b, sep);
    } else {
      var rest := a[1..] + [sep] + b;
      assert a + [sep] + b == [a[0]] + rest;
      SplitCons(a[0], rest, sep);
      SplitAtSeparator(a[1..], b, sep);
      if a[0] == sep {
        assert [[]] + (SplitOn(a[1..], sep) + SplitOn(b, sep)) == SplitOn(a, sep) + SplitOn(b, sep);
      } else {
        PrependConcat(a[0], SplitOn(a[1..], sep), SplitOn(b, sep));
      }
    }
  }

  lemma {:induction false} PiecesAreFree(s: string, sep: char)
    ensures forall i :: 0 <= i < |SplitOn(s, sep)| ==> sep !in SplitOn(s, sep)[i]
  {
    if s != [] {
      PiecesAreFree(s[1..], sep);
      var tail := SplitOn(s[1..], sep);
      forall i | 0 <= i < |SplitOn(s, sep)| ensures sep !in SplitOn(s, sep)[i] {
        if s[0] != sep && i > 0 {
          assert SplitOn(s, sep)[i] == tail[i];
        }
      }
    }
  }

  /** Splitting inverts joining for every non-empty list of pieces without the separator. */
  lemma {:induction false} SplitInvertsJoin(pieces: seq<string>, sep: char)
    requires pieces != [] && forall i :: 0 <= i < |pieces| ==> sep !in pieces[i]
    ensures SplitOn(Join(pieces, sep), sep) == pieces
  {
    SplitWithout(pieces[0], sep);
    if |pieces| > 1 {
      SplitInvertsJoin(pieces[1..], sep);
      SplitAtSeparator(pieces[0], Join(pieces[1..], sep), sep);
      assert [pieces[0]] + pieces[1..] == pieces;
    }
  }

  lemma {:induction false} JoinIsFree(pieces: seq<string>, sep: char, c: char)
    requires c != sep && forall i :: 0 <= i < |pieces| ==> c !in pieces[i]
    ensures c !in Join(pieces, sep)
  {
    if |pieces| > 1 {
      JoinIsFree(pieces[1..], sep, c);
    }
  }

  /** First position of a character at or after `from` (std::string::find). */
  function IndexOf(s: string, c: char, from: nat): (r: Option<nat>)
    requires from <= |s|
    ensures r.Some? ==> from <= r.value < |s| && s[r.value] == c && c !in s[from..r.value]
    ensures r.None? ==> c !in s[from..]
    decreases |s| - from
  {
    if from == |s| then None
    else if s[from] == c then Some(from)
    else IndexOf(s, c, from + 1)
  }

  lemma {:induction false} IndexOfFirst(a: string, c: char, b: string, from: nat)
    requires from <= |a| && c !in a
    ensures IndexOf(a + [c] + b, c, from) == Some(|a|)
    decreases |a| - from
  {
    var s := a + [c] + b;
    if from < |a| {
      assert s[from] == a[from] && a[from] in a;
      IndexOfFirst(a, c, b, from + 1);
    } else {
      assert s[from] == c;
    }
  }

  // ------------------------------------------------------------ decimal numbers

  const DIGITS: string := "0123456789"

  predicate IsDigit(c: char) {
    '0' <= c <= '9'
  }

  function DigitValue(c: char): nat
    requires IsDigit(c)
  {
    c as int - '0' as int
  }

  /** operator<< of an unsigned number. */
  function PrintNat(n: nat): (s: string)
    ensures s != [] && forall i :: 0 <= i < |s| ==> IsDigit(s[i])
  {
    if n < 10 then [DIGITS[n]] else PrintNat(n / 10) + [DIGITS[n % 10]]
  }

  /** Value of the longest prefix of digits, on top of what was read before. */
  function LeadingValue(s: string, before: nat): nat
    decreases |s|
  {
    if s == [] || !IsDigit(s[0]) then before
    else LeadingValue(s[1..], before * 10 + DigitValue(s[0]))
  }

  lemma {:induction false} LeadingValueSnoc(s: string, d: char, before: nat)
    requires IsDigit(d) && forall i :: 0 <= i < |s| ==> IsDigit(s[i])
    ensures LeadingValue(s + [d], before) == LeadingValue(s, before) * 10 + DigitValue(d)
    decreases |s|
  {
    if s == [] {
      assert [d][1..] == [];
    } else {
      assert (s + [d])[1..] == s[1..] + [d];
      LeadingValueSnoc(s[1..], d, before * 10 + DigitValue(s[0]));
    }
  }

  lemma {:induction false} PrintedValue(n: nat)
    ensures LeadingValue(PrintNat(n), 0) == n
  {
    if n < 10 {
      assert [DIGITS[n]][1..] == [];
    } else {
      PrintedValue(n / 10);
      LeadingValueSnoc(PrintNat(n / 10), DIGITS[n % 10], 0);
    }
  }

  predicate IsSpace(c: char) {
    c == ' ' || '\t' <= c <= '\r'
  }

  function SkipSpace(s: string): string {
    if s != [] && IsSpace(s[0]) then SkipSpace(s[1..]) else s
  }

  const INT_LIMIT: nat := 0x8000_0000

  /** std::stoi: white space, a sign, digits, and whatever follows; None where it throws. */
  function StoI(text: string): Option<int> {
    var s := SkipSpace(text);
    var negative := s != [] && s[0] == '-';
    var digits := if s != [] && (s[0] == '-' || s[0] == '+') then s[1..] else s;
    if digits == [] || !IsDigit(digits[0]) then None
    else
      var v: int := LeadingValue(digits, 0);
      if negative then (if v <= INT_LIMIT then Some(-v) else None)
      else if v < INT_LIMIT then Some(v) else None
  }

  lemma StoIOfPrinted(n: nat)
    ensures StoI(PrintNat(n)) == if n < INT_LIMIT then Some(n as int) else None
  {
    PrintedValue(n);
    assert IsDigit(PrintNat(n)[0]);
  }

  /** No number but 0 is printed with a leading zero. */
  lemma {:induction false} NoLeadingZero(n: nat)
    ensures PrintNat(n)[0] == '0' <==> n == 0
    ensures n == 0 ==> PrintNat(n) == "0"
  {
    if n >= 10 {
      NoLeadingZero(n / 10);
      assert PrintNat(n)[0] == PrintNat(n / 10)[0];
    }
  }

  /** The characters that isspace accepts: space, tab, line feed, vertical tab, form feed, return. */
  lemma SpaceCharacters(c: char)
    ensures IsSpace(c) <==> c as int in [32, 9, 10, 11, 12, 13]
  {
  }

  lemma StoISkipsSpace(c: char, s: string)
    requires IsSpace(c)
    ensures StoI([c] + s) == StoI(s)
  {
    assert ([c] + s)[1..] == s;
  }

  /** One sign may stand in front; a negative number may be as low as -2^31. */
  lemma StoIOfSigned(n: nat)
    ensures var negated: int := -(n as int);
            StoI(['-'] + PrintNat(n)) == if n <= 0x8000_0000 then Some(negated) else None
    ensures StoI(['+'] + PrintNat(n)) == StoI(PrintNat(n))
  {
    PrintedValue(n);
    assert (['-'] + PrintNat(n))[1..] == PrintNat(n) && (['+'] + PrintNat(n))[1..] == PrintNat(n);
    assert IsDigit(PrintNat(n)[0]);
  }

  lemma {:induction false} LeadingValueStops(s: string, rest: string, before: nat)
    requires rest == [] || !IsDigit(rest[0])
    requires forall i :: 0 <= i < |s| ==> IsDigit(s[i])
    ensures LeadingValue(s + rest, before) == LeadingValue(s, before)
    decreases |s|
  {
    if s == [] {
      assert s + rest == rest;
    } else {
      assert (s + rest)[1..] == s[1..] + rest;
      LeadingValueStops(s[1..], rest, before * 10 + DigitValue(s[0]));
    }
  }

  /** What follows the digits is not looked at. */
  lemma StoIIgnoresRest(n: nat, rest: string)
    requires rest == [] || !IsDigit(rest[0])
    ensures StoI(PrintNat(n) + rest) == StoI(PrintNat(n))
  {
    var s := PrintNat(n);
    LeadingValueStops(s, rest, 0);
    assert (s + rest)[0] == s[0] && IsDigit(s[0]);
    assert SkipSpace(s + rest) == s + rest && SkipSpace(s) == s;
  }

  /** Without a digit behind the white space and the sign there is no number. */
  lemma StoIRejects(s: string)
    requires s == [] || !IsSpace(s[0])
    requires s == [] || !(IsDigit(s[0]) || ((s[0] == '-' || s[0] == '+') && |s| > 1 && IsDigit(s[1])))
    ensures StoI(s) == None
  {
  }

  lemma JoinPrepend(c: char, pieces: seq<string>, sep: char)
    requires pieces != []
    ensures Join(Prepend(c, pieces), sep) == [c] + Join(pieces, sep)
  {
    var first := [c] + pieces[0];
    assert Prepend(c, pieces)[1..] == pieces[1..];
    if |pieces| > 1 {
      assert first + [sep] + Join(pieces[1..], sep) == [c] + (pieces[0] + [sep] + Join(pieces[1..], sep));
    }
  }

  lemma JoinBehindEmpty(pieces: seq<string>, sep: char)
    requires pieces != []
    ensures Join([[]] + pieces, sep) == [sep] + Join(pieces, sep)
  {
    assert ([[]] + pieces)[1..] == pieces;
  }

  /** Every string is the join of its pieces. */
  lemma {:induction false} JoinInvertsSplit(s: string, sep: char)
    ensures Join(SplitOn(s, sep), sep) == s
  {
    if s != [] {
      JoinInvertsSplit(s[1..], sep);
      if s[0] == sep {
        JoinBehindEmpty(SplitOn(s[1..], sep), sep);
      } else {
        JoinPrepend(s[0], SplitOn(s[1..], sep), sep);
      }
      assert s == [s[0]] + s[1..];
    }
  }
}
