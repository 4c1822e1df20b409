/**
 * IPv4 socket addresses as text (src/net/tcp/socketOperation.cpp:129-237), on a little-endian
 * host: printing walks the address bytes in memory, parsing builds a base-256 number.
 */
module AddressText {
  import opened Wrappers
  import opened Widths
  import opened Text

  /** sockaddr_in: both fields as the integers stored in memory. */
  datatype SockAddr = SockAddr(port: nat, addr: nat) {
    predicate Valid() {
      port < U16_LIMIT && addr < U32_LIMIT
    }
  }

  /** The bytes of s_addr in memory order. */
  function Octets(addr: nat): (os: seq<nat>)
    ensures |os| == 4 && AllOctets(os)
  {
    [addr % 256, addr / 256 % 256, addr / 0x1_0000 % 256, addr / 0x100_0000 % 256]
  }

  predicate AllOctets(os: seq<nat>) {
    forall i :: 0 <= i < |os| ==> os[i] <= 255
  }

  /** htons and ntohs. */
  function SwapBytes(port: nat): (r: nat)
    requires port < U16_LIMIT
    ensures r < U16_LIMIT
  {
    port % 256 * 256 + port / 256
  }

  lemma SwapTwice(port: nat)
    requires port < U16_LIMIT
    ensures SwapBytes(SwapBytes(port)) == port
  {
  }

  // ------------------------------------------------------------ printing

  function Texts(os: seq<nat>): (texts: seq<string>)
    ensures |texts| == |os| && forall i :: 0 <= i < |os| ==> texts[i] == PrintNat(os[i])
  {
    seq(|os|, i requires 0 <= i < |os| => PrintNat(os[i]))
  }

  function PrintOctets(addr: nat): string {
    Join(Texts(Octets(addr)), '.')
  }

  function Print(a: SockAddr): string
    requires a.Valid()
  {
    PrintOctets(a.addr) + [':'] + PrintNat(SwapBytes(a.port))
  }

  lemma JoinPrinted(stream: string, texts: seq<string>, i: nat)
    requires i < |texts|
    ensures stream + Join(texts[i..], '.')
         == stream + texts[i] + if i + 1 < |texts| then ['.'] + Join(texts[i + 1..], '.') else []
  {
  }

  /** The loop of ipToString over the address bytes. */
  method PrintBytes(addrArray: seq<nat>) returns (stream: string)
    requires |addrArray| == 4
    ensures stream == Join(Texts(addrArray), '.')
  {
    stream := "";
    ghost var texts := Texts(addrArray);
    var i := 0;
    assert texts[0..] == texts;
    while i < 4
      invariant 0 <= i <= 4
      invariant if i < 4 then stream + Join(texts[i..], '.') == Join(texts, '.')
                else stream == Join(texts, '.')
    {
      JoinPrinted(stream, texts, i);
      stream := stream + PrintNat(addrArray[i]);
      if i != 3 {
        ghost var printed, rest := stream, Join(texts[i + 1..], '.');
        stream := stream + ['.'];
        assert printed + (['.'] + rest) == stream + rest;
      }
      i := i + 1;
    }
  }

  /** ((port << 8) & 0xffff) | (port >> 8); the two parts share no bit, so the sum is the same. */
  lemma ShiftedBytes(port: nat)
    requires port < U16_LIMIT
    ensures port * 256 % U16_LIMIT + port / 256 == SwapBytes(port)
  {
  }

  method IpToString(a: SockAddr) returns (stream: string)
    requires a.Valid()
    ensures stream == Print(a)
  {
    stream := PrintBytes(Octets(a.addr));
    ShiftedBytes(a.port);
    stream := stream + [':'] + PrintNat(a.port * 256 % U16_LIMIT + a.port / 256);
  }

  // ------------------------------------------------------------ parsing

  /** stringToInt<uint16_t>: the int is truncated to 16 bits, not range-checked. */
  function StringToU16(s: string): (r: Option<nat>)
    ensures r.Some? ==> r.value < U16_LIMIT
  {
    match StoI(s)
    case None => None
    case Some(v) => Some(v % U16_LIMIT)
  }

  predicate IsOctetText(s: string) {
    StringToU16(s).Some? && StringToU16(s).value <= 255
  }

  function OctetValue(s: string): (v: nat)
    requires IsOctetText(s)
    ensures v <= 255
  {
    StringToU16(s).value
  }

  predicate AllOctetTexts(ip: seq<string>) {
    forall i :: 0 <= i < |ip| ==> IsOctetText(ip[i])
  }

  function Values(ip: seq<string>): (os: seq<nat>)
    requires AllOctetTexts(ip)
    ensures |os| == |ip| && AllOctets(os) && forall i :: 0 <= i < |ip| ==> os[i] == OctetValue(ip[i])
  {
    seq(|ip|, i requires 0 <= i < |ip| => OctetValue(ip[i]))
  }

  /** The number whose base-256 digits these are. */
  function Fold(os: seq<nat>): nat {
    if os == [] then 0 else Fold(os[..|os| - 1]) * 256 + os[|os| - 1]
  }

  lemma FoldSnoc(os: seq<nat>, last: nat)
    ensures Fold(os + [last]) == Fold(os) * 256 + last
  {
  }

  lemma FoldFour(os: seq<nat>)
    requires |os| == 4
    ensures Fold(os) == ((os[0] * 256 + os[1]) * 256 + os[2]) * 256 + os[3]
    ensures AllOctets(os) ==> Fold(os) < U32_LIMIT
  {
    FoldSnoc([], os[0]);
    FoldSnoc([os[0]], os[1]);
    FoldSnoc([os[0], os[1]], os[2]);
    FoldSnoc([os[0], os[1], os[2]], os[3]);
    assert [] + [os[0]] == [os[0]] && [os[0]] + [os[1]] == [os[0], os[1]];
    assert [os[0], os[1]] + [os[2]] == [os[0], os[1], os[2]] && [os[0], os[1], os[2]] + [os[3]] == os;
  }

  /** The address part: four pieces between dots, each an octet; the fold is stored as it is. */
  function ParseAddr(s: string, port: nat): Option<SockAddr>
    requires port < U16_LIMIT
  {
    var ip := SplitOn(s, '.');
    if |ip| == 4 && AllOctetTexts(ip) then Some(SockAddr(SwapBytes(port), Fold(Values(ip)))) else None
  }

  /** Address and port, separated by the first colon. */
  function Parse(s: string): Option<SockAddr> {
    match IndexOf(s, ':', 0)
    case None => None
    case Some(pos) =>
      match StringToU16(s[pos + 1..])
      case None => None
      case Some(port) => ParseAddr(s[..pos], port)
  }

  method StringToInt(s: string) returns (ok: bool, num: nat)
    ensures ok == StringToU16(s).Some? && (ok ==> num == StringToU16(s).value)
  {
    var v := StoI(s);
    if v.None? {
      return false, 0;
    }
    return true, v.value % U16_LIMIT;
  }

  /** One piece more: from `first` up to the next dot. */
  lemma SplitNext(s: string, first: nat, last: nat)
    requires first <= last < |s| && s[last] == '.' && '.' !in s[first..last]
    ensures SplitOn(s[first..], '.') == [s[first..last]] + SplitOn(s[last + 1..], '.')
  {
    assert s[first..] == s[first..last] + ['.'] + s[last + 1..];
    SplitAtSeparator(s[first..last], s[last + 1..], '.');
    SplitWithout(s[first..last], '.');
  }

  lemma MovePiece(ip: seq<string>, piece: string, tail: seq<string>)
    ensures ip + ([piece] + tail) == ip + [piece] + tail
  {
  }

  method SplitDots(addr: string) returns (ip: seq<string>)
    ensures ip == SplitOn(addr, '.')
  {
    ip := [];
    var first := 0;
    ghost var all, tail := SplitOn(addr, '.'), SplitOn(addr, '.');
    assert addr[0..] == addr;
    while true
      invariant 0 <= first <= |addr|
      invariant tail == SplitOn(addr[first..], '.') && ip + tail == all
      decreases |addr| - first
    {
      var last := IndexOf(addr, '.', first);
      if last.None? {
        SplitWithout(addr[first..], '.');
        ip := ip + [addr[first..]];
        break;
      }
      var piece := addr[first..last.value];
      SplitNext(addr, first, last.value);
      tail := SplitOn(addr[last.value + 1..], '.');
      MovePiece(ip, piece, tail);
      ip := ip + [piece];
      first := last.value + 1;
    }
  }

  method ReadOctets(ip: seq<string>) returns (ok: bool, addrArray: seq<nat>)
    ensures ok == AllOctetTexts(ip) && (ok ==> addrArray == Values(ip))
  {
    addrArray := [];
    var i := 0;
    while i < |ip|
      invariant 0 <= i <= |ip| && |addrArray| == i
      invariant forall k :: 0 <= k < i ==> IsOctetText(ip[k]) && addrArray[k] == OctetValue(ip[k])
    {
      var valid, num := StringToInt(ip[i]);
      if !valid {
        return false, addrArray;
      }
      if num > 255 {
        return false, addrArray;
      }
      addrArray := addrArray + [num];
      i := i + 1;
    }
    return true, addrArray;
  }

  /** The 32-bit shifts lose nothing. */
  method ShiftTogether(addrArray: seq<nat>) returns (addr32: nat)
    requires |addrArray| == 4 && AllOctets(addrArray)
    ensures addr32 == Fold(addrArray) < U32_LIMIT
  {
    addr32 := 0;
    var i := 0;
    while i < 4
      invariant 0 <= i <= 4 && addr32 == Fold(addrArray[..i])
      invariant addr32 < if i == 0 then 1 else if i == 1 then 0x100 else if i == 2 then 0x1_0000
                         else if i == 3 then 0x100_0000 else U32_LIMIT
    {
      assert addrArray[..i + 1][..i] == addrArray[..i];
      addr32 := addr32 * 256 % U32_LIMIT + addrArray[i]; // <<= 8, then |=
      i := i + 1;
    }
    assert addrArray[..4] == addrArray;
  }

  method ToAddrIpv4(addr: string, port: nat) returns (ok: bool, addrIn: SockAddr)
    requires port < U16_LIMIT
    ensures ok == ParseAddr(addr, port).Some? && (ok ==> addrIn == ParseAddr(addr, port).value)
    ensures ok ==> addrIn.Valid()
  {
    addrIn := SockAddr(0, 0);
    var ip := SplitDots(addr);
    if |ip| != 4 {
      return false, addrIn;
    }
    var addrArray;
    ok, addrArray := ReadOctets(ip);
    if !ok {
      return false, addrIn;
    }
    var addr32 := ShiftTogether(addrArray);
    return true, SockAddr(SwapBytes(port), addr32);
  }

  method ToAddrPortIpv4(addrIp: string) returns (ok: bool, addrIn: SockAddr)
    ensures ok == Parse(addrIp).Some? && (ok ==> addrIn == Parse(addrIp).value)
    ensures ok ==> addrIn.Valid()
  {
    addrIn := SockAddr(0, 0);
    var pos := IndexOf(addrIp, ':', 0);
    if pos.None? {
      return false, addrIn;
    }
    var valid, port := StringToInt(addrIp[pos.value + 1..]);
    if !valid {
      return false, addrIn;
    }
    ok, addrIn := ToAddrIpv4(addrIp[..pos.value], port);
  }

  // ------------------------------------------------------------ round trips

  /** The address with its bytes in the opposite order in memory. */
  function Mirrored(addr: nat): nat {
    Fold(Octets(addr))
  }

  lemma MirroredOctets(addr: nat)
    requires addr < U32_LIMIT
    ensures Mirrored(addr) < U32_LIMIT
    ensures var os := Octets(addr); Octets(Mirrored(addr)) == [os[3], os[2], os[1], os[0]]
  {
    var os := Octets(addr);
    FoldFour(os);
    OctetsOfNumber(os[3], os[2], os[1], os[0]);
  }

  lemma LastDigit(rest: nat, digit: nat)
    requires digit <= 255
    ensures (rest * 256 + digit) / 256 == rest && (rest * 256 + digit) % 256 == digit
  {
  }

  lemma DivideAgain(n: nat)
    ensures n / 0x1_0000 == n / 256 / 256 && n / 0x100_0000 == n / 256 / 256 / 256
  {
  }

  /** Four octets are the digits of the number they make. */
  lemma OctetsOfNumber(a: nat, b: nat, c: nat, d: nat)
    requires a <= 255 && b <= 255 && c <= 255 && d <= 255
    ensures Octets(((d * 256 + c) * 256 + b) * 256 + a) == [a, b, c, d]
  {
    LastDigit((d * 256 + c) * 256 + b, a);
    LastDigit(d * 256 + c, b);
    LastDigit(d, c);
    DivideAgain(((d * 256 + c) * 256 + b) * 256 + a);
  }

  lemma FromOctets(addr: nat)
    requires addr < U32_LIMIT
    ensures var os := Octets(addr); addr == ((os[3] * 256 + os[2]) * 256 + os[1]) * 256 + os[0]
  {
    var q := addr / 256;
    var r := q / 256;
    assert addr / 0x1_0000 == r && addr / 0x100_0000 == r / 256 && r / 256 % 256 == r / 256;
    assert addr == q * 256 + addr % 256 && q == r * 256 + q % 256 && r == r / 256 * 256 + r % 256;
  }

  /** Mirroring twice is the identity; mirroring once is, if and only if the octets read the same
      in both directions. */
  lemma MirroredIsInvolution(addr: nat)
    requires addr < U32_LIMIT
    ensures Mirrored(Mirrored(addr)) == addr
    ensures Mirrored(addr) == addr <==> Octets(addr)[0] == Octets(addr)[3] && Octets(addr)[1] == Octets(addr)[2]
  {
    var os := Octets(addr);
    MirroredOctets(addr);
    FromOctets(addr);
    FoldFour(os);
    FoldFour([os[3], os[2], os[1], os[0]]);
  }

  /** The parser accepts the text of a number as an octet by its lowest 16 bits. */
  lemma PrintedU16(n: nat)
    ensures StringToU16(PrintNat(n)) == if n < INT_LIMIT then Some(n % U16_LIMIT) else None
    ensures IsOctetText(PrintNat(n)) <==> n < INT_LIMIT && n % U16_LIMIT <= 255
  {
    StoIOfPrinted(n);
  }

  lemma DigitsOnly(n: nat, c: char)
    requires !IsDigit(c)
    ensures c !in PrintNat(n)
  {
  }

  /** The printed octets are octet texts of their own values, without dots and colons. */
  lemma TextsOfOctets(os: seq<nat>)
    requires AllOctets(os)
    ensures AllOctetTexts(Texts(os)) && Values(Texts(os)) == os
    ensures forall i :: 0 <= i < |os| ==> '.' !in Texts(os)[i] && ':' !in Texts(os)[i]
  {
    var texts := Texts(os);
    forall i | 0 <= i < |os|
      ensures '.' !in texts[i] && ':' !in texts[i]
      ensures IsOctetText(texts[i]) && OctetValue(texts[i]) == os[i]
    {
      DigitsOnly(os[i], '.');
      DigitsOnly(os[i], ':');
      PrintedU16(os[i]);
    }
    assert Values(texts) == os;
  }

  /** The first colon is the one before the port. */
  lemma ParseParts(host: string, port: string)
    requires ':' !in host && StringToU16(port).Some?
    ensures Parse(host + [':'] + port) == ParseAddr(host, StringToU16(port).value)
  {
    var s := host + [':'] + port;
    IndexOfFirst(host, ':', port, 0);
    assert s[..|host|] == host && s[|host| + 1..] == port;
  }

  lemma ParseJoined(texts: seq<string>, port: string)
    requires |texts| == 4 && AllOctetTexts(texts) && StringToU16(port).Some?
    requires forall i :: 0 <= i < 4 ==> '.' !in texts[i] && ':' !in texts[i]
    ensures Parse(Join(texts, '.') + [':'] + port)
         == Some(SockAddr(SwapBytes(StringToU16(port).value), Fold(Values(texts))))
  {
    JoinIsFree(texts, '.', ':');
    ParseParts(Join(texts, '.'), port);
    SplitInvertsJoin(texts, '.');
  }

  lemma ParseText(os: seq<nat>, portText: string, port: nat)
    requires |os| == 4 && AllOctets(os) && StringToU16(portText) == Some(port)
    ensures Parse(Join(Texts(os), '.') + [':'] + portText) == Some(SockAddr(SwapBytes(port), Fold(os)))
  {
    TextsOfOctets(os);
    ParseJoined(Texts(os), portText);
  }

  lemma SmallU16(s: string, v: nat)
    requires StoI(s) == Some(v as int) && v < U16_LIMIT
    ensures StringToU16(s) == Some(v)
  {
  }

  lemma PrintedPort(port: nat)
    requires port < U16_LIMIT
    ensures StringToU16(PrintNat(port)) == Some(port)
  {
    StoIOfPrinted(port);
    SmallU16(PrintNat(port), port);
  }

  /** The text of an address, in its two parts. */
  lemma PrintParts(a: SockAddr) returns (os: seq<nat>, port: string)
    requires a.Valid()
    ensures os == Octets(a.addr) && Print(a) == Join(Texts(os), '.') + [':'] + port
    ensures StringToU16(port) == Some(SwapBytes(a.port))
  {
    os, port := Octets(a.addr), PrintNat(SwapBytes(a.port));
    PrintedPort(SwapBytes(a.port));
  }

  /**
   * Parsing what was printed restores the port and every octet, but mirrored: the fold is stored
   * without htonl.
   */
  lemma ParsePrinted(a: SockAddr)
    requires a.Valid()
    ensures Parse(Print(a)) == Some(SockAddr(a.port, Mirrored(a.addr)))
  {
    var os, port := PrintParts(a);
    ParseText(os, port, SwapBytes(a.port));
    SwapTwice(a.port);
  }

  /** So the round trip returns the same address exactly for the palindromic ones. */
  lemma RoundTripIff(a: SockAddr)
    requires a.Valid()
    ensures Parse(Print(a)) == Some(a)
            <==> Octets(a.addr)[0] == Octets(a.addr)[3] && Octets(a.addr)[1] == Octets(a.addr)[2]
  {
    ParsePrinted(a);
    MirroredIsInvolution(a.addr);
  }

  /** The address printed as 127.0.0.1 comes back as another one. */
  lemma LoopbackIsMirrored(a: SockAddr)
    requires a.Valid() && a.addr == 0x0100_007F
    ensures Octets(a.addr) == [127, 0, 0, 1] && Parse(Print(a)) != Some(a)
  {
    OctetsOfNumber(127, 0, 0, 1);
    assert ((1 * 256 + 0) * 256 + 0) * 256 + 127 == 0x0100_007F;
    RoundTripIff(a);
  }

  /** And printing and parsing twice returns every address. */
  lemma TwoRoundTrips(a: SockAddr)
    requires a.Valid()
    ensures var b := Parse(Print(a));
            b.Some? && b.value.Valid() && Parse(Print(b.value)) == Some(a)
  {
    ParsePrinted(a);
    MirroredOctets(a.addr);
    ParsePrinted(SockAddr(a.port, Mirrored(a.addr)));
    MirroredIsInvolution(a.addr);
  }

  /** Different addresses have different names. */
  lemma PrintIsInjective(a: SockAddr, b: SockAddr)
    requires a.Valid() && b.Valid() && Print(a) == Print(b)
    ensures a == b
  {
    ParsePrinted(a);
    ParsePrinted(b);
    MirroredIsInvolution(a.addr);
    MirroredIsInvolution(b.addr);
  }

  // ------------------------------------------------------------ what is accepted, what is printed

  /** Two bytes in memory, first and second, are the integer second * 256 + first on this host, and
      the port first * 256 + second in network order. */
  lemma PortBytes(first: nat, second: nat)
    requires first <= 255 && second <= 255
    ensures SwapBytes(second * 256 + first) == first * 256 + second
  {
    LastDigit(second, first);
  }

  /** A text without a colon is rejected. */
  lemma ParseNeedsColon(s: string)
    requires ':' !in s
    ensures Parse(s) == None
  {
    assert s[0..] == s;
  }

  /**
   * Any other text is a part before its first colon and a part after it, and the part before it is
   * its pieces joined by dots.  It is accepted if and only if there are four pieces, each an octet
   * text, and the part after the colon starts with a number; and then the octets are the digits of
   * the address, the first one the highest, and the port is stored in network order.
   */
  lemma ParseIff(pieces: seq<string>, port: string)
    requires pieces != [] && forall i :: 0 <= i < |pieces| ==> '.' !in pieces[i] && ':' !in pieces[i]
    ensures var s := Join(pieces, '.') + [':'] + port;
            && (Parse(s).Some? <==>
                  && StringToU16(port).Some? && |pieces| == 4
                  && forall i :: 0 <= i < 4 ==> StringToU16(pieces[i]).Some? && StringToU16(pieces[i]).value <= 255)
            && (Parse(s).Some? ==>
                  var v := Values(pieces);
                  && Parse(s).value.addr == ((v[0] * 256 + v[1]) * 256 + v[2]) * 256 + v[3]
                  && Parse(s).value.port == SwapBytes(StringToU16(port).value))
  {
    var host := Join(pieces, '.');
    JoinIsFree(pieces, '.', ':');
    SplitInvertsJoin(pieces, '.');
    IndexOfFirst(host, ':', port, 0);
    var s := host + [':'] + port;
    assert s[..|host|] == host && s[|host| + 1..] == port;
    if |pieces| == 4 && AllOctetTexts(pieces) {
      FoldFour(Values(pieces));
    }
  }

  /** Every text with a colon has that form. */
  lemma EveryTextHasParts(s: string) returns (pieces: seq<string>, port: string)
    requires ':' in s
    ensures pieces != [] && s == Join(pieces, '.') + [':'] + port
    ensures forall i :: 0 <= i < |pieces| ==> '.' !in pieces[i] && ':' !in pieces[i]
  {
    var pos := IndexOf(s, ':', 0);
    assert s[0..] == s;
    var host := s[..pos.value];
    assert host == s[0..pos.value];
    pieces, port := SplitOn(host, '.'), s[pos.value + 1..];
    JoinInvertsSplit(host, '.');
    PiecesAreFree(host, '.');
    PiecesStayFree(host, '.', ':');
    assert s == host + [':'] + port;
  }

  lemma {:induction false} PiecesStayFree(s: string, sep: char, c: char)
    requires c !in s
    ensures forall i :: 0 <= i < |SplitOn(s, sep)| ==> c !in SplitOn(s, sep)[i]
  {
    if s != [] {
      PiecesStayFree(s[1..], sep, c);
    }
  }

  /** One address in full: 127.0.0.1, port 8080, whose network order reads 0x901F on this host. */
  lemma PrintedLoopback(a: SockAddr)
    requires a == SockAddr(0x901F, 0x0100_007F)
    ensures a.Valid() && Print(a) == "127.0.0.1:8080"
  {
    OctetsOfNumber(127, 0, 0, 1);
    assert ((1 * 256 + 0) * 256 + 0) * 256 + 127 == 0x0100_007F;
    PortBytes(0x1F, 0x90);
    PrintedLiterals();
    var texts := Texts(Octets(a.addr));
    assert texts == ["127", "0", "0", "1"];
    assert texts[1..] == ["0", "0", "1"] && ["0", "0", "1"][1..] == ["0", "1"] && ["0", "1"][1..] == ["1"];
    assert Join(texts, '.') == "127.0.0.1";
  }

  lemma PrintedLiterals()
    ensures PrintNat(0) == "0" && PrintNat(1) == "1" && PrintNat(127) == "127" && PrintNat(8080) == "8080"
  {
    assert PrintNat(12) == PrintNat(1) + "2";
    assert PrintNat(80) == PrintNat(8) + "0";
    assert PrintNat(808) == PrintNat(80) + "8";
  }

  /** A negative number is an octet or a port by its lowest 16 bits, too. */
  lemma NegativeU16(n: nat)
    requires 0 < n < U16_LIMIT
    ensures StringToU16(['-'] + PrintNat(n)) == Some(U16_LIMIT - n)
  {
    StoIOfSigned(n);
  }
}
