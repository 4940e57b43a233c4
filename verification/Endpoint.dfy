/** Endpoints: an address and a port, and their text. */
module Endpoint {
  import opened Wrappers
  import opened Text
  import opened Ip

  datatype Endpoint = V4(address: nat, port: nat) | V6(words: seq<nat>, port: nat)

  predicate IsEndpoint(e: Endpoint) {
    && e.port < 0x1_0000
    && match e
       case V4(a, _) => a < 0x1_0000_0000
       case V6(w, _) => IsWords(w)
  }

  /** How `parse` ends; `Throws` stands for an exception that leaves the noexcept function, `Undefined` for the
      access in front of an empty text. */
  datatype Result = Parsed(endpoint: Endpoint) | BadFormat | Throws | Undefined

  /** `to_string`. */
  function EndpointText(e: Endpoint): string {
    (match e
     case V4(a, _) => V4Text(a)
     case V6(w, _) => V6Text(w))
    + if e.port != 0 then ":" + Numeral(e.port, 10) else ""
  }

  /** The end of `parse`: an address without a port. */
  function ParseBare(address: string): Result {
    match ParseV6(address)
    case Some(w) => Parsed(V6(w, 0))
    case None =>
      match ParseV4(address)
      case Some(a) => Parsed(V4(a, 0))
      case None => BadFormat
  }

  /** An address in front of the last colon, with the port behind it. */
  function ParseWithPort(ip: string, port: nat): Option<Endpoint>
    requires ip != ""
  {
    if ip[|ip| - 1] == ']' && ip[0] == '[' then
      match ParseV6(CStr(ip[1..|ip| - 1]))
      case Some(w) => Some(V6(w, port))
      case None => None
    else
      match ParseV4(CStr(ip))
      case Some(a) => Some(V4(a, port))
      case None => None
  }

  function ParseEndpoint(address: string): Result {
    var separator := FindLast(address, ':');
    if separator.None? || address[|address| - 1] == ']' then ParseBare(address)
    else
      var ip := address[..separator.value];
      match Stoul(CStr(address[separator.value + 1..]))
      case None => Throws
      case Some(port) =>
        if port >= 0x1_0000 then ParseBare(address)
        else if ip == "" then Undefined
        else
          match ParseWithPort(ip, port)
          case Some(e) => Parsed(e)
          case None => ParseBare(address)
  }

  /** `endpoint::parse`, which blanks out the closing bracket of its copy of the address. */
  method Parse(address: string) returns (r: Result)
    ensures r == ParseEndpoint(address)
  {
    hide Stoul, ParseV6, ParseV4, PtonV4, PtonV6;
    var portSeparator := FindLast(address, ':');
    if portSeparator.Some? && address[|address| - 1] != ']' {
      var port := Stoul(CStr(address[portSeparator.value + 1..]));
      if port.None? {
        return Throws;
      }
      if port.value <= 0xFFFF {
        var ipAddr := address[..portSeparator.value];
        if ipAddr == "" {
          return Undefined;
        }
        if ipAddr[|ipAddr| - 1] == ']' && ipAddr[0] == '[' {
          ghost var inner := ipAddr[1..|ipAddr| - 1];
          ipAddr := ipAddr[|ipAddr| - 1 := '\0'];
          CutAtNul(inner, ipAddr[1..]);
          var ip := ParseV6(CStr(ipAddr[1..]));
          if ip.Some? {
            return Parsed(V6(ip.value, port.value));
          }
        } else {
          var ipv4 := ParseV4(CStr(ipAddr));
          if ipv4.Some? {
            return Parsed(V4(ipv4.value, port.value));
          }
        }
      }
    }
    var ipv6 := ParseV6(address);
    if ipv6.Some? {
      return Parsed(V6(ipv6.value, 0));
    }
    var ipv4 := ParseV4(address);
    if ipv4.Some? {
      return Parsed(V4(ipv4.value, 0));
    }
    return BadFormat;
  }

  /** A NUL at the end does not change a C string. */
  lemma CutAtNul(s: string, t: string)
    requires t == s + "\0"
    ensures CStr(t) == CStr(s)
  {
    if '\0' in s {
      CharIsFound(s, '\0');
      var i := Find(s, "\0", 0).value;
      assert t[i..i + 1] == s[i..i + 1];
      forall j | 0 <= j < i
        ensures !At(t, "\0", j)
      {
        assert t[j..j + 1] == s[j..j + 1] && !At(s, "\0", j);
      }
      FindIs(t, "\0", 0, i);
      assert t[..i] == s[..i];
    } else {
      FindChar(s, '\0', "");
      assert s + ['\0'] + "" == t;
      CStrWhole(s);
      assert t[..|s|] == s;
    }
  }

  // ---------------------------------------------------------------------------------------
  // The round trip

  lemma LastColon(a: string, b: string)
    requires ':' !in b
    ensures FindLast(a + ":" + b, ':') == Some(|a|)
  {
    hide FindLast;
    var s := a + ":" + b;
    assert s[|a|] == ':';
    assert forall j :: |a| < j < |s| ==> s[j] in b;
  }

  lemma PortText(port: nat)
    requires port < 0x1_0000
    ensures var p := Numeral(port, 10);
            && ':' !in p && p[|p| - 1] != ']' && CStr(p) == p && Stoul(p) == Some(port)
  {
    var p := Numeral(port, 10);
    NumeralCanonical(port, 10);
    assert p[|p| - 1] in p;
    CStrWhole(p);
    StoulReadsDecimal(port, "");
    assert p + "" == p;
  }

  /** What is split off a printed endpoint with a port. */
  lemma SplitPort(ip: string, port: nat)
    requires port < 0x1_0000 && ip != "" && ParseWithPort(ip, port).Some?
    ensures ParseEndpoint(ip + ":" + Numeral(port, 10)) == Parsed(ParseWithPort(ip, port).value)
  {
    hide Numeral, Stoul, ParseWithPort, ParseBare, CStr;
    var p := Numeral(port, 10);
    var s := ip + ":" + p;
    PortText(port);
    LastColon(ip, p);
    assert s[..|ip|] == ip && s[|ip| + 1..] == p && s[|s| - 1] == p[|p| - 1];
  }

  /** The IPv6 parser rejects dotted text. */
  lemma DottedIsNotV6(s: string)
    requires ':' !in s && '[' !in s && '\0' !in s
    ensures ParseV6(s) == None
  {
    CStrWhole(s);
    NoChar(s, ':');
    forall i: nat ensures !At(s, "::", i) {
      if i + 2 <= |s| {
        assert s[i..i + 2][0] == s[i];
      }
    }
    assert Find(s, "::", 0) == None;
    assert Split(s, ':') == [s];
    OnePieceIsShort(s);
  }

  lemma OnePieceIsShort(s: string)
    ensures Groups([s], true).Some? ==> |Groups([s], true).value| <= 2
  {
    assert [s][1..] == [];
  }

  lemma V4WithoutPort(a: nat)
    requires a < 0x1_0000_0000
    ensures ParseEndpoint(V4Text(a)) == Parsed(V4(a, 0))
  {
    hide V4Text, ParseV6, PtonV4;
    var s := V4Text(a);
    V4Chars(a);
    V4RoundTrip(a);
    CStrWhole(s);
    DottedIsNotV6(s);
  }

  lemma V4WithPort(a: nat, port: nat)
    requires a < 0x1_0000_0000 && port < 0x1_0000
    ensures ParseEndpoint(V4Text(a) + ":" + Numeral(port, 10)) == Parsed(V4(a, port))
  {
    hide V4Text, PtonV4, ParseEndpoint, Numeral;
    var s := V4Text(a);
    V4Chars(a);
    V4RoundTrip(a);
    CStrWhole(s);
    assert s[|s| - 1] in s;
    SplitPort(s, port);
  }

  lemma V6WithoutPort(w: seq<nat>)
    requires IsWords(w)
    ensures ParseEndpoint(V6Text(w)) == Parsed(V6(w, 0))
  {
    hide V6Body, ParseV6;
    V6RoundTrip(w);
  }

  lemma V6WithPort(w: seq<nat>, port: nat)
    requires IsWords(w) && port < 0x1_0000
    ensures ParseEndpoint(V6Text(w) + ":" + Numeral(port, 10)) == Parsed(V6(w, port))
  {
    hide V6Body, ParseV6, ParseEndpoint, Numeral;
    var s := V6Text(w);
    V6RoundTrip(w);
    BodyChars(w);
    assert s[1..|s| - 1] == V6Body(w);
    CStrWhole(V6Body(w));
    SplitPort(s, port);
  }

  /** The round trip: `parse` reads every printed endpoint as it was, with and without brackets, with and
      without a port. */
  lemma EndpointRoundTrip(e: Endpoint)
    requires IsEndpoint(e)
    ensures ParseEndpoint(EndpointText(e)) == Parsed(e)
  {
    hide V4Text, V6Text, ParseEndpoint, Numeral;
    match e
    case V4(a, port) =>
      if port == 0 {
        V4WithoutPort(a);
        assert V4Text(a) + "" == V4Text(a);
      } else {
        V4WithPort(a, port);
        assert V4Text(a) + ":" + Numeral(port, 10) == V4Text(a) + (":" + Numeral(port, 10));
      }
    case V6(w, port) =>
      if port == 0 {
        V6WithoutPort(w);
        assert V6Text(w) + "" == V6Text(w);
      } else {
        V6WithPort(w, port);
        assert V6Text(w) + ":" + Numeral(port, 10) == V6Text(w) + (":" + Numeral(port, 10));
      }
  }

  /** The port is printed behind the address, after a colon and in decimal, exactly if it is not zero. */
  lemma EndpointTextIs(e: Endpoint)
    requires IsEndpoint(e)
    ensures var host := match e case V4(a, _) => V4Text(a) case V6(w, _) => V6Text(w);
            if e.port == 0 then EndpointText(e) == host
            else exists tail ::
              EndpointText(e) == host + ":" + tail && IsNumeral(tail, 10) && tail[0] != '0' && Value(tail, 10) == e.port
  {
    hide V4Text, V6Text, Numeral, Value;
    var host := match e case V4(a, _) => V4Text(a) case V6(w, _) => V6Text(w);
    if e.port == 0 {
      assert host + "" == host;
    } else {
      var tail := Numeral(e.port, 10);
      NumeralValue(e.port, 10);
      NumeralCanonical(e.port, 10);
      assert host + (":" + tail) == host + ":" + tail;
    }
  }

  // ---------------------------------------------------------------------------------------
  // Texts that `parse` does not survive

  /** The text is split at its last colon, and no bracket closes it. */
  predicate CutAtColon(address: string, ip: string, tail: string) {
    address == ip + ":" + tail && ':' !in tail && (tail == "" || tail[|tail| - 1] != ']')
  }

  lemma ParseCut(address: string, ip: string, tail: string)
    requires CutAtColon(address, ip, tail)
    ensures var port, r := Stoul(CStr(tail)), ParseEndpoint(address);
            && (r == Throws <==> port == None)
            && (r == Undefined <==> ip == "" && port.Some? && port.value < 0x1_0000)
  {
    hide Stoul, ParseV4, ParseV6, ParseWithPort, CStr;
    LastColon(ip, tail);
    assert address[..|ip|] == ip && address[|ip| + 1..] == tail;
    assert address[|address| - 1] == if tail == "" then ':' else tail[|tail| - 1];
  }

  /** What is read in a text with a number behind its last colon.  A number that is no port leaves the address
      that the whole text is, with port 0; else an address in front of the colon, IPv6 in brackets and IPv4
      without, is read with exactly that port, and failing that the whole text once more. */
  lemma PortIsExact(ip: string, tail: string, n: nat)
    requires ':' !in tail && (tail == "" || tail[|tail| - 1] != ']') && ip != "" && Stoul(CStr(tail)) == Some(n)
    ensures var address := ip + ":" + tail;
            var whole := match ParseV6(address)
                         case Some(w) => Parsed(V6(w, 0))
                         case None =>
                           match ParseV4(address)
                           case Some(a) => Parsed(V4(a, 0))
                           case None => BadFormat;
            var inside := if ip[0] == '[' && ip[|ip| - 1] == ']' then ParseV6(CStr(ip[1..|ip| - 1])) else None;
            var dotted := if ip[0] == '[' && ip[|ip| - 1] == ']' then None else ParseV4(CStr(ip));
            ParseEndpoint(address) == if n >= 0x1_0000 then whole
                                      else if inside.Some? then Parsed(V6(inside.value, n))
                                      else if dotted.Some? then Parsed(V4(dotted.value, n))
                                      else whole
  {
    hide Stoul, ParseV4, ParseV6, CStr;
    var address := ip + ":" + tail;
    LastColon(ip, tail);
    assert address[..|ip|] == ip && address[|ip| + 1..] == tail;
    assert address[|address| - 1] == if tail == "" then ':' else tail[|tail| - 1];
  }

  /** And in a text without a colon, or one that a bracket closes, no port is looked for. */
  lemma NoPortIsRead(address: string)
    requires ':' !in address || address[|address| - 1] == ']'
    ensures ParseEndpoint(address) == match ParseV6(address)
                                      case Some(w) => Parsed(V6(w, 0))
                                      case None =>
                                        match ParseV4(address)
                                        case Some(a) => Parsed(V4(a, 0))
                                        case None => BadFormat
  {
    hide ParseV4, ParseV6, Stoul;
  }

  /** For example, a number that is too large makes no port, not even modulo 65536. */
  lemma LargePortIsBad(a: nat, n: nat)
    requires a < 0x1_0000_0000 && 0x1_0000 <= n < ULONG_LIMIT
    ensures ParseEndpoint(V4Text(a) + ":" + Numeral(n, 10)) == BadFormat
  {
    var ip, tail := V4Text(a), Numeral(n, 10);
    hide Numeral, V4Text, ParseV6, ParseV4, Stoul, ParseEndpoint;
    V4Chars(a);
    NumeralCanonical(n, 10);
    CStrWhole(tail);
    assert tail[|tail| - 1] in tail;
    StoulReadsDecimal(n, "");
    assert tail + "" == tail;
    PortIsExact(ip, tail, n);
    NotAnAddress(ip, tail);
  }

  /** A text with a single colon is no address at all. */
  lemma NotAnAddress(ip: string, tail: string)
    requires ':' !in ip && '[' !in ip && '\0' !in ip && '\0' !in tail && ':' !in tail && ip != ""
    ensures ParseV6(ip + ":" + tail) == None && ParseV4(ip + ":" + tail) == None
  {
    hide Split, Groups, PtonV4;
    var s := ip + ":" + tail;
    CStrWhole(s);
    OneColon(ip, tail);
    assert s == Join([ip, tail], ':') by { assert [ip, tail][1..] == [tail]; }
    SplitUndoesJoin([ip, tail], ':');
    FewGroups([ip, tail], true);
    assert s[|ip|] == ':' && ':' in s;
    if PtonV4(s).Some? {
      V4Iff(s, PtonV4(s).value);
      V4Chars(PtonV4(s).value);
    }
  }

  lemma OneColon(ip: string, tail: string)
    requires ':' !in ip && ':' !in tail
    ensures Find(ip + ":" + tail, "::", 0) == None
  {
    var s := ip + ":" + tail;
    forall i: nat
      ensures !At(s, "::", i)
    {
      if i + 2 <= |s| {
        assert s[i..i + 2][0] == s[i] && s[i..i + 2][1] == s[i + 1];
      }
    }
  }

  lemma {:induction false} FewGroups(pieces: seq<string>, dotted: bool)
    ensures Groups(pieces, dotted).Some? ==> |Groups(pieces, dotted).value| <= |pieces| + 1
  {
    hide ParseGroup, PtonV4;
    if pieces != [] {
      FewGroups(pieces[1..], dotted);
    }
  }

  lemma CutOrNot(address: string) returns (ip: string, tail: string)
    ensures CutAtColon(address, ip, tail) || ParseEndpoint(address) == ParseBare(address)
  {
    hide ParseBare, Stoul, CStr;
    var separator := FindLast(address, ':');
    ip, tail := "", "";
    if separator.Some? {
      ip, tail := address[..separator.value], address[separator.value + 1..];
      assert address == ip + ":" + tail;
    }
  }

  /** An exception leaves `parse` exactly if no number that fits 64 bits follows the last colon, unless a
      bracket closes the text. */
  lemma ThrowsExactly(address: string)
    ensures ParseEndpoint(address) == Throws <==>
              exists ip, tail :: CutAtColon(address, ip, tail) && !StartsWithNumber(CStr(tail))
  {
    hide ParseEndpoint, Stoul, CStr, CutAtColon, StartsWithNumber;
    var ip, tail := CutOrNot(address);
    if CutAtColon(address, ip, tail) {
      ParseCut(address, ip, tail);
      StoulIff(CStr(tail));
    }
    forall ip, tail | CutAtColon(address, ip, tail)
      ensures ParseEndpoint(address) == Throws <==> !StartsWithNumber(CStr(tail))
    {
      ParseCut(address, ip, tail);
      StoulIff(CStr(tail));
    }
  }

  /** What `parse` does is undefined exactly if its text is a colon and a port, unless a bracket closes the text. */
  lemma UndefinedExactly(address: string)
    ensures ParseEndpoint(address) == Undefined <==>
              exists tail ::
                CutAtColon(address, "", tail) && Stoul(CStr(tail)).Some? && Stoul(CStr(tail)).value < 0x1_0000
  {
    hide ParseEndpoint, Stoul, CStr, CutAtColon;
    var ip, tail := CutOrNot(address);
    if CutAtColon(address, ip, tail) {
      ParseCut(address, ip, tail);
    }
    forall tail | CutAtColon(address, "", tail)
      ensures ParseEndpoint(address) == Undefined <==> Stoul(CStr(tail)).Some? && Stoul(CStr(tail)).value < 0x1_0000
    {
      ParseCut(address, "", tail);
    }
  }

  /** `parse` reads a printed IPv6 address without its brackets exactly if a decimal digit follows the
      last colon; otherwise the exception leaves it. */
  lemma BareV6Iff(w: seq<nat>)
    requires IsWords(w)
    ensures var g := LastGroup(w);
            ParseEndpoint(V6Body(w)) == if g != "" && IsDigit(g[0]) then Parsed(V6(w, 0)) else Throws
  {
    hide V6Body, LastGroup, ParseWithPort, ParseV6, ParseV4, Stoul;
    var body, g := V6Body(w), LastGroup(w);
    var a := BodyEnds(w);
    BodyChars(w);
    V6RoundTrip(w);
    LastColon(a, g);
    assert body[..|a|] == a && body[|a| + 1..] == g && body[|body| - 1] in body;
    assert forall c <- a :: c in body;
    assert forall c <- g :: c in body;
    CStrWhole(g);
    StoulOfGroup(w);
    assert a[|a| - 1] in a;
    if Stoul(g).Some? {
      NoDotsIsNotV4(a, Stoul(g).value);
    }
  }

  /** A text without dots and brackets is no address in front of a port. */
  lemma NoDotsIsNotV4(s: string, port: nat)
    requires s != "" && '.' !in s && '\0' !in s && s[|s| - 1] != ']'
    ensures ParseWithPort(s, port) == None
  {
    CStrWhole(s);
    NoChar(s, '.');
    assert Split(s, '.') == [s];
  }

  /** Hexadecimal digits as a decimal port: those in front of the first letter, if any. */
  lemma StoulOfGroup(w: seq<nat>)
    requires IsWords(w)
    ensures var g := LastGroup(w);
            if g != "" && IsDigit(g[0]) then Stoul(g).Some? && Stoul(g).value < 0x1_0000 else Stoul(g) == None
  {
    hide Numeral, LastGroup;
    var g := LastGroup(w);
    LastGroupShape(w);
    HexStoul(g);
  }

  lemma LastGroupShape(w: seq<nat>)
    requires IsWords(w)
    ensures |LastGroup(w)| <= 4 && forall c <- LastGroup(w) :: IsLowerHex(c)
  {
    hide Numeral, ZeroRun;
    GroupRoundTrip(w[7]);
  }

  lemma HexStoul(g: string)
    requires |g| <= 4 && forall c <- g :: IsLowerHex(c)
    ensures if g != "" && IsDigit(g[0]) then Stoul(g).Some? && Stoul(g).value < 0x1_0000 else Stoul(g) == None
  {
    assert g != "" ==> g[0] in g;
    assert SkipSpaces(g) == g;
    var digits, rest := CutDigits(g);
    hide Value, Digits, SkipSpaces, IsNumeral;
    if digits != "" {
      FewDigits(digits);
      assert digits[0] == g[0];
      assert IsDecimal("", "", digits, rest) && "" + ("" + digits + rest) == g;
      hide IsDecimal, Stoul;
      StoulOfDecimal("", "", digits, rest);
    }
  }

  lemma FewDigits(digits: string)
    requires IsNumeral(digits, 10) && |digits| <= 4
    ensures Value(digits, 10) < 10000
  {
    ValueBound(digits, 10);
    PowersOfTen(|digits|);
  }

  lemma PowersOfTen(k: nat)
    requires k <= 4
    ensures Pow(10, k) <= 10000
  {
    assert Pow(10, 1) == 10 && Pow(10, 2) == 100 && Pow(10, 3) == 1000 && Pow(10, 4) == 10000 by {
      assert Pow(10, 2) == 10 * Pow(10, 1) && Pow(10, 3) == 10 * Pow(10, 2) && Pow(10, 4) == 10 * Pow(10, 3);
    }
  }

  /** Two such texts: the link-local prefix, and a port alone. */
  lemma BadTexts()
    ensures ParseEndpoint("fe80::") == Throws
    ensures ParseEndpoint(":80") == Undefined
  {
    hide ParseEndpoint, CStr, Stoul;
    assert CutAtColon("fe80::", "fe80:", "") && CutAtColon(":80", "", "80");
    ParseCut("fe80::", "fe80:", "");
    ParseCut(":80", "", "80");
    CStrWhole("");
    NoNumber();
    assert Numeral(80, 10) == "80" by {
      assert Numeral(8, 10) == "8";
    }
    PortText(80);
  }

  lemma NoNumber()
    ensures Stoul("") == None
  {
  }

  // ---------------------------------------------------------------------------------------
  // Socket addresses

  /** The socket address is that of the endpoint. */
  ghost predicate Holds(storage: SocketAddress, e: Endpoint)
    reads storage, storage.address4, storage.address6
  {
    && storage.port == e.port
    && match e
       case V4(a, _) => storage.family == AF_INET && storage.address4[..] == Octets(a)
       case V6(w, _) => storage.family == AF_INET6 && storage.address6[..] == BytesOf(w)
  }

  /** `fill`. */
  method Fill(e: Endpoint, storage: SocketAddress)
    requires IsEndpoint(e) && storage.Valid()
    modifies storage, storage.address4, storage.address6
    ensures storage.Valid() && Holds(storage, e)
    ensures e.V6? ==> storage.scope == 0
    ensures e.V4? ==> storage.scope == old(storage.scope)
  {
    match e {
      case V4(a, port) =>
        V4Fill(a, storage);
        storage.port := port;
      case V6(w, port) =>
        V6Fill(w, storage);
        storage.port := port;
        storage.scope := 0;
    }
  }

  /** The constructor from a socket address, which takes every family but AF_INET for IPv6.  It gives the
      only endpoint whose address this is, so it undoes `fill`. */
  method FromStorage(storage: SocketAddress) returns (e: Endpoint)
    requires storage.Valid()
    ensures IsEndpoint(e) && (e.V4? <==> storage.family == AF_INET)
    ensures storage.family != AF_OTHER ==> Holds(storage, e)
    ensures forall d :: IsEndpoint(d) && Holds(storage, d) ==> d == e
    ensures e.V6? ==> e.port == storage.port && BytesOf(e.words) == storage.address6[..]
  {
    if storage.family == AF_INET {
      var a := V4FromBytes(storage.address4[..]);
      e := V4(a, storage.port);
      forall d | IsEndpoint(d) && Holds(storage, d)
        ensures d == e
      {
        OctetsBack(d.address);
        OctetsBack(a);
      }
    } else {
      var w := V6FromBytes(storage.address6[..]);
      e := V6(w, storage.port);
      forall d | IsEndpoint(d) && Holds(storage, d)
        ensures d == e
      {
        BytesDetermineWords(d.words, w);
      }
    }
  }
}
