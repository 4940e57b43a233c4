/** IP addresses and their text.

    `inet_pton` is given by its specification: section 2.2 of RFC 4291 for IPv6, and the rule for
    IPv4address in section 3.2.2 of RFC 3986 for IPv4. */
module Ip {
  import opened Wrappers
  import opened Text

  // ---------------------------------------------------------------------------------------
  // IPv4

  /** The octets of an address, as shifting and masking give them. */
  function Octets(address: nat): (o: seq<nat>)
    ensures |o| == 4 && forall i :: 0 <= i < 4 ==> o[i] < 0x100
  {
    [address / 0x100_0000 % 0x100, address / 0x1_0000 % 0x100, address / 0x100 % 0x100, address % 0x100]
  }

  function V4Text(address: nat): string {
    var o := Octets(address);
    Join([Numeral(o[0], 10), Numeral(o[1], 10), Numeral(o[2], 10), Numeral(o[3], 10)], '.')
  }

  /** dec-octet: a number up to 255 without leading zeros. */
  function ParseOctet(s: string): Option<nat> {
    if IsNumeral(s, 10) && |s| <= 3 && (s[0] == '0' ==> |s| == 1) && Value(s, 10) < 0x100 then Some(Value(s, 10))
    else None
  }

  function V4FromPieces(pieces: seq<string>): Option<nat> {
    if |pieces| != 4 then None
    else
      match (ParseOctet(pieces[0]), ParseOctet(pieces[1]), ParseOctet(pieces[2]), ParseOctet(pieces[3]))
      case (Some(a), Some(b), Some(c), Some(d)) => Some(((a * 0x100 + b) * 0x100 + c) * 0x100 + d)
      case _ => None
  }

  /** `inet_pton(AF_INET, ...)`. */
  function PtonV4(s: string): Option<nat> {
    V4FromPieces(Split(s, '.'))
  }

  /** A C string ends at its first NUL. */
  function CStr(s: string): string {
    Before(s, Find(s, "\0", 0))
  }

  /** `v4::parse`. */
  function ParseV4(address: string): Option<nat> {
    PtonV4(CStr(address))
  }

  /** `v4::to_string`. */
  method V4ToString(address: nat) returns (text: string)
    ensures text == V4Text(address)
  {
    var o := Octets(address);
    text := Numeral(o[0], 10) + "." + Numeral(o[1], 10) + "." + Numeral(o[2], 10) + "." + Numeral(o[3], 10);
    V4TextIs(address);
  }

  lemma V4TextIs(address: nat)
    ensures var o := Octets(address);
            var digits := [Numeral(o[0], 10), Numeral(o[1], 10), Numeral(o[2], 10), Numeral(o[3], 10)];
            V4Text(address) == digits[0] + "." + digits[1] + "." + digits[2] + "." + digits[3]
  {
    hide Numeral;
    var o := Octets(address);
    var a, b, c, d := Numeral(o[0], 10), Numeral(o[1], 10), Numeral(o[2], 10), Numeral(o[3], 10);
    assert [a, b, c, d][1..] == [b, c, d] && [b, c, d][1..] == [c, d] && [c, d][1..] == [d];
    assert Join([c, d], '.') == c + "." + d;
    assert Join([b, c, d], '.') == b + "." + (c + "." + d);
  }

  lemma OctetRoundTrip(n: nat)
    requires n < 0x100
    ensures ParseOctet(Numeral(n, 10)) == Some(n)
    ensures '.' !in Numeral(n, 10) && ':' !in Numeral(n, 10) && '\0' !in Numeral(n, 10)
    ensures '[' !in Numeral(n, 10) && ']' !in Numeral(n, 10)
  {
    NumeralValue(n, 10);
    NumeralCanonical(n, 10);
    assert Pow(10, 3) == 1000 by {
      assert Pow(10, 1) == 10 * Pow(10, 0) && Pow(10, 2) == 10 * Pow(10, 1);
    }
    NumeralLength(n, 10, 3);
  }

  /** Reading a printed IPv4 address gives the address back. */
  lemma V4RoundTrip(address: nat)
    requires address < 0x1_0000_0000
    ensures PtonV4(V4Text(address)) == Some(address)
  {
    var o := Octets(address);
    hide Numeral, ParseOctet, Split, Join, Octets;
    var p := [Numeral(o[0], 10), Numeral(o[1], 10), Numeral(o[2], 10), Numeral(o[3], 10)];
    forall i | 0 <= i < 4
      ensures '.' !in p[i] && ParseOctet(p[i]) == Some(o[i])
    {
      OctetRoundTrip(o[i]);
    }
    SplitUndoesJoin(p, '.');
    OctetsBack(address);
  }

  lemma OctetsBack(address: nat)
    requires address < 0x1_0000_0000
    ensures var o := Octets(address);
            ((o[0] * 0x100 + o[1]) * 0x100 + o[2]) * 0x100 + o[3] == address
  {
    Shifts(address);
    assert address / 0x100_0000 < 0x100;
  }

  lemma FromOctets(a: nat, b: nat, c: nat, d: nat)
    requires a < 0x100 && b < 0x100 && c < 0x100 && d < 0x100
    ensures var n := ((a * 0x100 + b) * 0x100 + c) * 0x100 + d;
            n < 0x1_0000_0000 && Octets(n) == [a, b, c, d]
  {
    var ab := a * 0x100 + b;
    var abc := ab * 0x100 + c;
    LastByte(a, b);
    LastByte(ab, c);
    LastByte(abc, d);
    Shifts(abc * 0x100 + d);
  }

  lemma LastByte(high: nat, low: nat)
    requires low < 0x100
    ensures (high * 0x100 + low) / 0x100 == high && (high * 0x100 + low) % 0x100 == low
  {
  }

  lemma Shifts(n: nat)
    ensures n / 0x1_0000 == n / 0x100 / 0x100 && n / 0x100_0000 == n / 0x1_0000 / 0x100
  {
  }

  /** The four pieces of the printed text are decimal, the highest byte first; and `inet_pton` reads no other
      text as that address. */
  lemma V4Iff(s: string, address: nat)
    ensures PtonV4(s) == Some(address) <==> address < 0x1_0000_0000 && s == V4Text(address)
    ensures address < 0x1_0000_0000 ==>
              var p := Split(V4Text(address), '.');
              && |p| == 4 && (forall i :: 0 <= i < 4 ==> IsNumeral(p[i], 10))
              && Value(p[0], 10) * 0x100_0000 + Value(p[1], 10) * 0x1_0000 + Value(p[2], 10) * 0x100 + Value(p[3], 10)
              == address
  {
    hide Numeral, Split, Join, Octets, Value;
    if address < 0x1_0000_0000 {
      V4RoundTrip(address);
      V4Pieces(V4Text(address), address);
    }
    if PtonV4(s) == Some(address) {
      V4Pieces(s, address);
    }
  }

  lemma V4Pieces(s: string, address: nat)
    requires PtonV4(s) == Some(address)
    ensures address < 0x1_0000_0000 && s == V4Text(address)
    ensures var p := Split(s, '.');
            && |p| == 4 && (forall i :: 0 <= i < 4 ==> IsNumeral(p[i], 10))
            && Value(p[0], 10) * 0x100_0000 + Value(p[1], 10) * 0x1_0000 + Value(p[2], 10) * 0x100 + Value(p[3], 10)
            == address
  {
    hide Numeral, Split, Join, Octets, Value;
    var p := Split(s, '.');
    forall i | 0 <= i < 4
      ensures IsNumeral(p[i], 10) && Numeral(Value(p[i], 10), 10) == p[i] && Value(p[i], 10) < 0x100
    {
      assert ParseOctet(p[i]).Some?;
      NumeralIsOnly(p[i]);
    }
    var a, b, c, d := Value(p[0], 10), Value(p[1], 10), Value(p[2], 10), Value(p[3], 10);
    FromOctets(a, b, c, d);
    JoinUndoesSplit(s, '.');
    assert p == [p[0], p[1], p[2], p[3]];
  }

  lemma V4Chars(address: nat)
    ensures var t := V4Text(address);
            ':' !in t && '\0' !in t && '[' !in t && ']' !in t && t != ""
  {
    hide Numeral;
    var o := Octets(address);
    forall i | 0 <= i < 4
      ensures var n := Numeral(o[i], 10); ':' !in n && '\0' !in n && '[' !in n && ']' !in n
    {
      OctetRoundTrip(o[i]);
    }
    V4TextIs(address);
  }

  // ---------------------------------------------------------------------------------------
  // IPv6: printing

  predicate IsWords(w: seq<nat>) {
    |w| == 8 && forall i :: 0 <= i < 8 ==> w[i] < 0x1_0000
  }

  datatype Zeros = Zeros(index: nat, length: nat)

  /** How many zero words there are from a position on. */
  function ZerosAt(w: seq<nat>, i: nat): (n: nat)
    requires i <= |w|
    ensures i + n <= |w|
    decreases |w| - i
  {
    if i < |w| && w[i] == 0 then 1 + ZerosAt(w, i + 1) else 0
  }

  /** The search of `to_string` for a run of zeros, from position `i` on. */
  function Search(w: seq<nat>, i: nat, best: Zeros): Zeros
    decreases |w| - i
  {
    if i >= |w| then best
    else if w[i] == 0 then
      var n := ZerosAt(w, i);
      Search(w, i + n + 1, if n > best.length then Zeros(i, n) else best)
    else
      Search(w, i + 1, best)
  }

  function ZeroRun(w: seq<nat>): Zeros {
    Search(w, 0, Zeros(0, 0))
  }

  /** The output loop of `to_string`, from position `i` on. */
  function Rest(w: seq<nat>, i: nat, z: Zeros): string
    decreases |w| - i
  {
    if i >= |w| then ""
    else if i == z.index && z.length > 1 then "::" + Rest(w, i + z.length, z)
    else
      Numeral(w[i], 16) + (if i < |w| - 1 && (i + 1 != z.index || z.length <= 1) then ":" else "") + Rest(w, i + 1, z)
  }

  function V6Body(w: seq<nat>): string {
    Rest(w, 0, ZeroRun(w))
  }

  function V6Text(w: seq<nat>): string {
    "[" + V6Body(w) + "]"
  }

  /** The first loops of `v6::to_string`. */
  method FindZeros(word: seq<nat>) returns (zeroIndex: nat, zeroLength: nat)
    requires IsWords(word)
    ensures Zeros(zeroIndex, zeroLength) == ZeroRun(word)
  {
    zeroLength, zeroIndex := 0, 0;
    var i := 0;
    while i < 8
      invariant 0 <= i <= 9
      invariant Search(word, i, Zeros(zeroIndex, zeroLength)) == ZeroRun(word)
      decreases 9 - i
    {
      if word[i] == 0 {
        var start := i;
        while i < 8 && word[i] == 0
          invariant start <= i <= 8
          invariant ZerosAt(word, start) == i - start + ZerosAt(word, i)
        {
          i := i + 1;
        }
        if i - start > zeroLength {
          zeroLength := i - start;
          zeroIndex := start;
        }
      }
      i := i + 1;
    }
  }

  /** `v6::to_string`. */
  method V6ToString(word: seq<nat>) returns (text: string)
    requires IsWords(word)
    ensures text == V6Text(word)
  {
    hide Numeral, ZeroRun, IsNumeral, Rest;
    text := "[";
    var zeroIndex, zeroLength := FindZeros(word);
    ghost var z := Zeros(zeroIndex, zeroLength);
    var i := 0;
    while i < 8
      invariant 0 <= i
      invariant text + Rest(word, i, z) == "[" + V6Body(word)
      decreases 8 - i
    {
      RestIs(word, i, z);
      if i == zeroIndex && zeroLength > 1 {
        text := text + "::";
        i := i + zeroLength;
      } else {
        text := text + Numeral(word[i], 16);
        if i < 7 && (i + 1 != zeroIndex || zeroLength <= 1) {
          text := text + ":";
        }
        i := i + 1;
      }
    }
    RestIs(word, i, z);
    text := text + "]";
  }

  /** One round of the output loop. */
  lemma RestIs(w: seq<nat>, i: nat, z: Zeros)
    ensures i >= |w| ==> Rest(w, i, z) == ""
    ensures i < |w| && i == z.index && z.length > 1 ==> Rest(w, i, z) == "::" + Rest(w, i + z.length, z)
    ensures i < |w| && !(i == z.index && z.length > 1) ==>
              var colon := if i < |w| - 1 && (i + 1 != z.index || z.length <= 1) then ":" else "";
              Rest(w, i, z) == Numeral(w[i], 16) + colon + Rest(w, i + 1, z)
  {
    hide Numeral;
  }

  // ---------------------------------------------------------------------------------------
  // The run of zeros

  ghost predicate IsRun(w: seq<nat>, i: nat, n: nat) {
    i + n <= |w| && forall j :: i <= j < i + n ==> w[j] == 0
  }

  /** The leftmost of the longest runs among those that start before `limit`. */
  ghost predicate IsBest(w: seq<nat>, limit: nat, z: Zeros) {
    && IsRun(w, z.index, z.length)
    && (z.length > 0 ==> z.index < limit)
    && (forall i: nat, n: nat :: IsRun(w, i, n) && 0 < n && i < limit ==>
          n < z.length || (n == z.length && z.index <= i))
  }

  lemma {:induction false} ZerosAtIsRun(w: seq<nat>, i: nat)
    requires i <= |w|
    ensures IsRun(w, i, ZerosAt(w, i))
    ensures forall n: nat :: IsRun(w, i, n) ==> n <= ZerosAt(w, i)
    ensures i + ZerosAt(w, i) < |w| ==> w[i + ZerosAt(w, i)] != 0
    decreases |w| - i
  {
    if i < |w| && w[i] == 0 {
      ZerosAtIsRun(w, i + 1);
      forall n: nat | IsRun(w, i, n)
        ensures n <= ZerosAt(w, i)
      {
        if n > 0 {
          assert IsRun(w, i + 1, n - 1);
        }
      }
    } else {
      forall n: nat | IsRun(w, i, n)
        ensures n == 0
      {
        assert n > 0 ==> i < |w|;
      }
    }
  }

  lemma {:induction false} SearchFindsBest(w: seq<nat>, i: nat, best: Zeros)
    requires IsBest(w, i, best)
    ensures IsBest(w, |w|, Search(w, i, best))
    decreases |w| - i
  {
    if i >= |w| {
    } else if w[i] == 0 {
      var n := ZerosAt(w, i);
      var next := if n > best.length then Zeros(i, n) else best;
      ZerosAtIsRun(w, i);
      forall j: nat, k: nat | IsRun(w, j, k) && 0 < k && j < i + n + 1
        ensures k < next.length || (k == next.length && next.index <= j)
      {
        if i <= j {
          assert w[j] == 0;
          assert IsRun(w, i, j - i + k) by {
            assert forall m :: i <= m < j ==> w[m] == 0;
          }
        }
      }
      SearchFindsBest(w, i + n + 1, next);
    } else {
      forall j: nat, k: nat | IsRun(w, j, k) && 0 < k && j < i + 1
        ensures k < best.length || (k == best.length && best.index <= j)
      {
        assert w[i] != 0;
      }
      SearchFindsBest(w, i + 1, best);
    }
  }

  /** The search finds the leftmost of the longest runs of zeros. */
  lemma ZeroRunIsLeftmostLongest(w: seq<nat>)
    ensures var z := ZeroRun(w);
            && IsRun(w, z.index, z.length)
            && (forall i: nat, n: nat :: IsRun(w, i, n) ==> n <= z.length)
            && (forall i: nat, n: nat :: IsRun(w, i, n) && n == z.length > 0 ==> z.index <= i)
  {
    SearchFindsBest(w, 0, Zeros(0, 0));
    var z := ZeroRun(w);
    forall i: nat, n: nat | IsRun(w, i, n)
      ensures n <= z.length && (n == z.length > 0 ==> z.index <= i)
    {
      if n > 0 {
        assert i < |w|;
      }
    }
  }

  // ---------------------------------------------------------------------------------------
  // IPv6: reading

  /** One group: one to four hexadecimal digits. */
  function ParseGroup(s: string): Option<nat> {
    if IsNumeral(s, 16) && |s| <= 4 then Some(Value(s, 16)) else None
  }

  /** Groups as words; the last piece may be an IPv4 address if `dotted`, which counts for two words. */
  function Groups(pieces: seq<string>, dotted: bool): Option<seq<nat>> {
    if pieces == [] then Some([])
    else if |pieces| == 1 && dotted && '.' in pieces[0] then
      match PtonV4(pieces[0])
      case Some(a) => Some([a / 0x1_0000, a % 0x1_0000])
      case None => None
    else
      match (ParseGroup(pieces[0]), Groups(pieces[1..], dotted))
      case (Some(g), Some(rest)) => Some([g] + rest)
      case _ => None
  }

  function GroupsOf(s: string, dotted: bool): Option<seq<nat>> {
    if s == "" then Some([]) else Groups(Split(s, ':'), dotted)
  }

  function Zeroes(n: nat): seq<nat> {
    seq(n, i => 0)
  }

  /** `inet_pton(AF_INET6, ...)`: eight groups, or fewer around one `::`, which stands for one or more
      groups of zeros. */
  function PtonV6(s: string): Option<seq<nat>> {
    match Find(s, "::", 0)
    case None =>
      (match GroupsOf(s, true)
       case Some(w) => if |w| == 8 then Some(w) else None
       case None => None)
    case Some(i) =>
      match (GroupsOf(s[..i], false), GroupsOf(s[i + 2..], true))
      case (Some(l), Some(r)) => if |l| + |r| <= 7 then Some(l + Zeroes(8 - |l| - |r|) + r) else None
      case _ => None
  }

  /** `v6::parse`, as far as the words. */
  function ParseV6(address: string): Option<seq<nat>> {
    if |address| < 2 then None
    else
      var bracketed := address[0] == '[' && address[|address| - 1] == ']';
      var cut := if bracketed then PtonV6(CStr(address[1..|address| - 1])) else None;
      if cut.Some? then cut else PtonV6(CStr(address))
  }

  // ---------------------------------------------------------------------------------------
  // The printed form

  function HexGroups(w: seq<nat>): (g: seq<string>)
    ensures |g| == |w|
  {
    seq(|w|, i requires 0 <= i < |w| => Numeral(w[i], 16))
  }

  function Plain(w: seq<nat>): string {
    Join(HexGroups(w), ':')
  }

  lemma PlainNil()
    ensures Plain([]) == ""
  {
    assert HexGroups([]) == [];
  }

  lemma PlainCons(w: seq<nat>)
    requires w != []
    ensures Plain(w) == Numeral(w[0], 16) + if |w| == 1 then "" else ":" + Plain(w[1..])
  {
    hide Numeral;
    assert HexGroups(w)[1..] == HexGroups(w[1..]);
  }

  lemma {:induction false} RestIsPlain(w: seq<nat>, i: nat, z: Zeros)
    requires i <= |w| && (z.length <= 1 || i > z.index)
    ensures Rest(w, i, z) == Plain(w[i..])
    decreases |w| - i
  {
    hide Numeral;
    if i == |w| {
      assert Plain([]) == "";
    } else {
      RestIsPlain(w, i + 1, z);
      PlainCons(w[i..]);
      assert w[i..][1..] == w[i + 1..];
      if i + 1 == |w| {
        assert Plain(w[i + 1..]) == "";
      }
    }
  }

  lemma {:induction false} RestIsCompressed(w: seq<nat>, i: nat, z: Zeros)
    requires i <= z.index && z.length > 1 && z.index + z.length <= |w|
    ensures Rest(w, i, z) == Plain(w[i..z.index]) + "::" + Plain(w[z.index + z.length..])
    decreases |w| - i
  {
    hide Numeral, Plain;
    PlainNil();
    if i == z.index {
      RestIsPlain(w, i + z.length, z);
      assert w[i..z.index] == [];
    } else {
      RestIsCompressed(w, i + 1, z);
      PlainCons(w[i..z.index]);
      assert w[i..z.index][1..] == w[i + 1..z.index];
      if i + 1 == z.index {
        assert w[i + 1..z.index] == [];
      }
    }
  }

  /** What is printed: all groups, or those around the longest run if it has two words or more. */
  lemma BodyIs(w: seq<nat>)
    requires IsWords(w)
    ensures ZeroRun(w).index + ZeroRun(w).length <= |w|
    ensures var z := ZeroRun(w);
            V6Body(w) == if z.length > 1 then Plain(w[..z.index]) + "::" + Plain(w[z.index + z.length..]) else Plain(w)
  {
    ZeroRunIsLeftmostLongest(w);
    var z := ZeroRun(w);
    if z.length > 1 {
      RestIsCompressed(w, 0, z);
    } else {
      RestIsPlain(w, 0, z);
      assert w[0..] == w;
    }
  }

  /** A printed group is one to four lower-case digits without leading zeros, and reads back. */
  lemma GroupRoundTrip(n: nat)
    requires n < 0x1_0000
    ensures var g := Numeral(n, 16);
            && ParseGroup(g) == Some(n) && 1 <= |g| <= 4
            && (forall c <- g :: IsLowerHex(c)) && (g[0] == '0' ==> g == "0")
            && ':' !in g && '.' !in g
  {
    NumeralValue(n, 16);
    NumeralCanonical(n, 16);
    assert Pow(16, 4) == 0x1_0000 by {
      assert Pow(16, 1) == 16 * Pow(16, 0) && Pow(16, 2) == 16 * Pow(16, 1) && Pow(16, 3) == 16 * Pow(16, 2);
    }
    NumeralLength(n, 16, 4);
  }

  ghost predicate AreWords(w: seq<nat>) {
    forall i :: 0 <= i < |w| ==> w[i] < 0x1_0000
  }

  /** Colons stand alone in the groups, and neither first nor last. */
  lemma {:induction false} PlainShape(w: seq<nat>)
    requires AreWords(w)
    ensures var s := Plain(w);
            && (s == "" <==> w == [])
            && (s != "" ==> IsLowerHex(s[0]) && IsLowerHex(s[|s| - 1]))
            && (forall c <- s :: IsLowerHex(c) || c == ':')
            && (forall i: nat :: !At(s, "::", i))
  {
    hide Numeral;
    if w == [] {
      assert HexGroups(w) == [];
    } else {
      var s, g := Plain(w), Numeral(w[0], 16);
      PlainCons(w);
      GroupRoundTrip(w[0]);
      assert g[|g| - 1] in g && g[0] in g;
      PlainShape(w[1..]);
      if |w| == 1 {
        assert s == g;
        NoDoubleAlone(g);
      } else {
        assert s == g + ":" + Plain(w[1..]);
        NoDoubleJoin(g, Plain(w[1..]));
      }
    }
  }

  lemma NoDoubleAlone(g: string)
    requires ':' !in g
    ensures forall i: nat :: !At(g, "::", i)
  {
    forall i: nat ensures !At(g, "::", i) {
      if i + 2 <= |g| {
        assert g[i..i + 2][0] == g[i];
      }
    }
  }

  lemma NoDoubleJoin(g: string, rest: string)
    requires ':' !in g && rest != "" && rest[0] != ':' && forall i: nat :: !At(rest, "::", i)
    ensures forall i: nat :: !At(g + ":" + rest, "::", i)
  {
    var t := g + ":" + rest;
    forall i: nat ensures !At(t, "::", i) {
      if i <= |g| && i + 2 <= |t| {
        assert t[i..i + 2][0] == t[i] && t[i..i + 2][1] == t[i + 1];
      } else if i > |g| {
        AtLater(g + ":", rest, "::", i - |g| - 1);
      }
    }
  }

  lemma {:induction false} GroupsUndoHex(w: seq<nat>, dotted: bool)
    requires AreWords(w)
    ensures Groups(HexGroups(w), dotted) == Some(w)
  {
    hide Numeral, ParseGroup;
    if w != [] {
      GroupRoundTrip(w[0]);
      assert HexGroups(w)[1..] == HexGroups(w[1..]);
      GroupsUndoHex(w[1..], dotted);
      assert w == [w[0]] + w[1..];
    } else {
      assert HexGroups(w) == [];
    }
  }

  lemma GroupsOfPlain(w: seq<nat>, dotted: bool)
    requires AreWords(w)
    ensures GroupsOf(Plain(w), dotted) == Some(w)
  {
    hide Numeral, Groups, Split, Join;
    PlainShape(w);
    if w != [] {
      forall g | g in HexGroups(w)
        ensures ':' !in g
      {
        var i :| 0 <= i < |w| && HexGroups(w)[i] == g;
        GroupRoundTrip(w[i]);
      }
      SplitUndoesJoin(HexGroups(w), ':');
      GroupsUndoHex(w, dotted);
    }
  }

  /** Groups joined by colons are one for each word, in their order. */
  lemma PlainPieces(w: seq<nat>)
    requires AreWords(w)
    ensures w == [] ==> Plain(w) == ""
    ensures w != [] ==>
              var p := Split(Plain(w), ':');
              |p| == |w| && forall i :: 0 <= i < |p| ==> IsNumeral(p[i], 16) && Value(p[i], 16) == w[i]
  {
    hide Numeral, Split, Join, Value, ParseGroup;
    if w == [] {
      PlainNil();
    } else {
      var p := HexGroups(w);
      forall i | 0 <= i < |w|
        ensures ':' !in p[i] && IsNumeral(p[i], 16) && Value(p[i], 16) == w[i]
      {
        GroupRoundTrip(w[i]);
        NumeralValue(w[i], 16);
      }
      SplitUndoesJoin(p, ':');
    }
  }

  /** The last group may be an IPv4 address, which stands for two words, the higher first. */
  lemma MappedV4(address: nat)
    requires address < 0x1_0000_0000
    ensures PtonV6("::ffff:" + V4Text(address)) == Some([0, 0, 0, 0, 0, 0xffff, address / 0x1_0000, address % 0x1_0000])
  {
    hide Split, PtonV4, V4Text, Join;
    var t := V4Text(address);
    var s := "::ffff:" + t;
    V4RoundTrip(address);
    V4Chars(address);
    HasDot(address);
    FindIs(s, "::", 0, 0);
    assert s[..0] == "" && s[2..] == "ffff:" + t;
    assert ["ffff", t][1..] == [t];
    assert "ffff:" + t == Join(["ffff", t], ':') by { TwoJoined("ffff", t); }
    SplitUndoesJoin(["ffff", t], ':');
    GroupFFFF();
    assert [t][1..] == [];
    var high, low := address / 0x1_0000, address % 0x1_0000;
    assert Groups([t], true) == Some([high, low]);
    assert [0xffff] + [high, low] == [0xffff, high, low];
    assert [] + Zeroes(5) + [0xffff, high, low] == [0, 0, 0, 0, 0, 0xffff, high, low];
  }

  lemma TwoJoined(a: string, b: string)
    ensures Join([a, b], ':') == a + ":" + b
  {
    assert [a, b][1..] == [b];
  }

  lemma GroupFFFF()
    ensures ParseGroup("ffff") == Some(0xffff)
  {
    GroupRoundTrip(0xffff);
    assert Numeral(0xffff, 16) == "ffff" by {
      assert Numeral(15, 16) == "f" && Numeral(0xff, 16) == "ff" && Numeral(0xfff, 16) == "fff";
    }
  }

  lemma HasDot(address: nat)
    ensures '.' in V4Text(address)
  {
    hide Numeral;
    V4TextIs(address);
  }

  /** The double colon of a compressed address is found, and there is no other. */
  lemma DoubleColon(l: seq<nat>, r: seq<nat>)
    requires AreWords(l) && AreWords(r)
    ensures var s := Plain(l) + "::" + Plain(r);
            && Find(s, "::", 0) == Some(|Plain(l)|)
            && (forall i: nat :: At(s, "::", i) <==> i == |Plain(l)|)
  {
    hide Plain;
    PlainShape(l);
    PlainShape(r);
    OneDouble(Plain(l), Plain(r));
    FindIs(Plain(l) + "::" + Plain(r), "::", 0, |Plain(l)|);
  }

  lemma OneDouble(a: string, b: string)
    requires !Contains(a, "::") && !Contains(b, "::")
    requires (a == "" || a[|a| - 1] != ':') && (b == "" || b[0] != ':')
    ensures forall i: nat :: At(a + "::" + b, "::", i) <==> i == |a|
  {
    var s := a + "::" + b;
    assert s[|a|..|a| + 2] == "::";
    forall i: nat | i != |a|
      ensures !At(s, "::", i)
    {
      if i + 1 < |a| {
        assert !At(a, "::", i);
        assert (a + ("::" + b))[i..i + 2] == a[i..i + 2] && s == a + ("::" + b);
      } else if i + 1 == |a| {
        assert s[i..i + 2][0] == a[i];
      } else if i == |a| + 1 {
        assert b != "" ==> s[i..i + 2][1] == b[0];
      } else {
        AtLater(a + "::", b, "::", i - |a| - 2);
      }
    }
  }

  /** Reading a printed IPv6 address gives the address back, without its brackets. */
  lemma PtonUndoesBody(w: seq<nat>)
    requires IsWords(w)
    ensures PtonV6(V6Body(w)) == Some(w)
  {
    hide Plain, ZeroRun, GroupsOf, V6Body;
    var z := ZeroRun(w);
    ZeroRunIsLeftmostLongest(w);
    BodyIs(w);
    if z.length > 1 {
      var l, r := w[..z.index], w[z.index + z.length..];
      DoubleColon(l, r);
      GroupsOfPlain(l, false);
      GroupsOfPlain(r, true);
      var s := Plain(l) + "::" + Plain(r);
      assert s[..|Plain(l)|] == Plain(l) && s[|Plain(l)| + 2..] == Plain(r);
      assert w == l + Zeroes(z.length) + r;
    } else {
      PlainShape(w);
      assert Find(Plain(w), "::", 0) == None;
      GroupsOfPlain(w, true);
    }
  }

  lemma BodyChars(w: seq<nat>)
    requires IsWords(w)
    ensures (forall c <- V6Body(w) :: IsLowerHex(c) || c == ':') && |V6Body(w)| >= 2
  {
    hide Plain, ZeroRun, V6Body;
    ZeroRunIsLeftmostLongest(w);
    BodyIs(w);
    var z := ZeroRun(w);
    if z.length > 1 {
      PlainShape(w[..z.index]);
      PlainShape(w[z.index + z.length..]);
    } else {
      PlainShape(w);
      PlainCons(w);
    }
  }

  lemma CStrWhole(s: string)
    requires '\0' !in s
    ensures CStr(s) == s
  {
    NoChar(s, '\0');
  }

  /** The round trip: for all eight-word addresses, `v6::parse` reads what `v6::to_string` printed, and
      also reads it without the brackets. */
  lemma V6RoundTrip(w: seq<nat>)
    requires IsWords(w)
    ensures ParseV6(V6Text(w)) == Some(w)
    ensures ParseV6(V6Body(w)) == Some(w)
  {
    hide PtonV6, V6Body;
    var body, text := V6Body(w), V6Text(w);
    BodyChars(w);
    PtonUndoesBody(w);
    assert text[1..|text| - 1] == body;
    CStrWhole(body);
    assert body[0] in body;
  }

  /** At most four lower-case digits, without leading zeros. */
  predicate IsCanonicalGroup(g: string) {
    0 < |g| <= 4 && (g[0] == '0' ==> g == "0") && forall c <- g :: IsLowerHex(c)
  }

  /** The canonical form of RFC 5952: the run that is left out is the leftmost of the longest ones and is
      left out whole (4.2.1, 4.2.3); `::` occurs exactly if there is a run of two words or more, and
      then once (4.2.2); digits are lower case (4.3); groups have no leading zeros (4.1); and the whole
      is in brackets (section 6). */
  lemma V6Canonical(w: seq<nat>)
    requires IsWords(w)
    ensures var z, body := ZeroRun(w), V6Body(w);
            && V6Text(w) == "[" + body + "]"
            && IsRun(w, z.index, z.length)
            && (forall i: nat, n: nat :: IsRun(w, i, n) ==> n < z.length || (n == z.length && (n == 0 || z.index <= i)))
            && (z.length > 1 ==> body == Plain(w[..z.index]) + "::" + Plain(w[z.index + z.length..]))
            && (z.length <= 1 ==> body == Plain(w))
            && (forall i, j :: 0 <= i < j < |body| && At(body, "::", i) ==> !At(body, "::", j))
            && (Contains(body, "::") <==> exists i: nat :: IsRun(w, i, 2))
            && (forall i :: 0 <= i < 8 ==> IsCanonicalGroup(Numeral(w[i], 16)))
  {
    hide Plain, ZeroRun, V6Body, Numeral;
    var z, body := ZeroRun(w), V6Body(w);
    ZeroRunIsLeftmostLongest(w);
    BodyIs(w);
    forall i | 0 <= i < 8
      ensures IsCanonicalGroup(Numeral(w[i], 16))
    {
      GroupRoundTrip(w[i]);
    }
    hide IsCanonicalGroup;
    if z.length > 1 {
      DoubleColon(w[..z.index], w[z.index + z.length..]);
      assert IsRun(w, z.index, 2);
      assert At(body, "::", |Plain(w[..z.index])|);
    } else {
      PlainShape(w);
    }
  }

  /** The text behind the last colon of a printed address. */
  function LastGroup(w: seq<nat>): string
    requires IsWords(w)
  {
    var z := ZeroRun(w);
    if z.length > 1 && z.index + z.length == 8 then "" else Numeral(w[7], 16)
  }

  lemma {:induction false} PlainEnds(w: seq<nat>) returns (a: string)
    requires |w| > 1
    ensures Plain(w) == a + ":" + Numeral(w[|w| - 1], 16)
  {
    hide Plain, Numeral;
    PlainCons(w);
    PlainCons(w[1..]);
    a := Numeral(w[0], 16);
    if |w| > 2 {
      var b := PlainEnds(w[1..]);
      a := a + ":" + b;
    }
  }

  lemma BodyEnds(w: seq<nat>) returns (a: string)
    requires IsWords(w)
    ensures V6Body(w) == a + ":" + LastGroup(w) && a != "" && ':' !in LastGroup(w)
  {
    hide Plain, Numeral, ZeroRun, V6Body;
    ZeroRunIsLeftmostLongest(w);
    BodyIs(w);
    GroupRoundTrip(w[7]);
    var z := ZeroRun(w);
    if z.length <= 1 {
      a := PlainEnds(w);
      PlainShape(w);
      assert Plain(w)[0] != ':';
    } else {
      var l, r := w[..z.index], w[z.index + z.length..];
      a := Plain(l) + ":";
      if r == [] {
        PlainNil();
        assert V6Body(w) == a + ":" + "";
      } else if |r| == 1 {
        PlainCons(r);
        assert V6Body(w) == a + ":" + Numeral(w[7], 16);
      } else {
        var b := PlainEnds(r);
        a := Plain(l) + "::" + b;
        assert V6Body(w) == a + ":" + Numeral(w[7], 16);
      }
    }
  }

  // ---------------------------------------------------------------------------------------
  // The bytes of an address

  predicate IsOctets(b: seq<nat>) {
    |b| == 16 && forall i :: 0 <= i < 16 ==> b[i] < 0x100
  }

  /** The bytes of the words in network order. */
  function BytesOf(w: seq<nat>): (b: seq<nat>)
    ensures |b| == 2 * |w|
  {
    seq(2 * |w|, i requires 0 <= i < 2 * |w| => if i % 2 == 0 then w[i / 2] / 0x100 else w[i / 2] % 0x100)
  }

  /** The constructor of `v6` from sixteen bytes. */
  method V6FromBytes(address: seq<nat>) returns (word: seq<nat>)
    requires IsOctets(address)
    ensures IsWords(word) && BytesOf(word) == address
    ensures forall i :: 0 <= i < 8 ==> word[i] == address[2 * i] * 0x100 + address[2 * i + 1]
  {
    word := [];
    for i := 0 to 8
      invariant |word| == i
      invariant forall j :: 0 <= j < i ==> word[j] == address[2 * j] * 0x100 + address[2 * j + 1]
    {
      word := word + [address[2 * i] * 0x100 + address[2 * i + 1]];
    }
  }

  /** The part of a socket address that the code reads and writes, its addresses as bytes in network order. */
  class SocketAddress {
    var family: Family
    var port: nat
    var scope: nat
    const address4: array<nat>
    const address6: array<nat>

    ghost predicate Valid()
      reads this, address4, address6
    {
      && port < 0x1_0000 && IsOctets(address6[..])
      && address4.Length == 4 && forall i :: 0 <= i < 4 ==> address4[i] < 0x100
    }

    constructor ()
      ensures Valid() && fresh(address4) && fresh(address6)
    {
      family, port, scope := AF_OTHER, 0, 0;
      address4, address6 := new nat[4](_ => 0), new nat[16](_ => 0);
    }
  }

  datatype Family = AF_INET | AF_INET6 | AF_OTHER

  /** `v4::fill`. */
  method V4Fill(address: nat, storage: SocketAddress)
    requires address < 0x1_0000_0000 && storage.Valid()
    modifies storage`family, storage.address4
    ensures storage.Valid() && storage.family == AF_INET && storage.address4[..] == Octets(address)
    ensures storage.address6[..] == old(storage.address6[..])
  {
    hide Octets;
    storage.family := AF_INET;
    var bytes, o := storage.address4, Octets(address);
    bytes[0], bytes[1], bytes[2], bytes[3] := o[0], o[1], o[2], o[3];
    assert bytes[..] == o;
    assert storage.address6[..] == old(storage.address6[..]);
  }

  /** The IPv4 address of four bytes in network order. */
  method V4FromBytes(bytes: seq<nat>) returns (address: nat)
    requires |bytes| == 4 && forall i :: 0 <= i < 4 ==> bytes[i] < 0x100
    ensures address < 0x1_0000_0000 && Octets(address) == bytes
  {
    hide Octets;
    address := ((bytes[0] * 0x100 + bytes[1]) * 0x100 + bytes[2]) * 0x100 + bytes[3];
    FromOctets(bytes[0], bytes[1], bytes[2], bytes[3]);
  }

  lemma BytesAreOctets(w: seq<nat>)
    requires IsWords(w)
    ensures IsOctets(BytesOf(w))
  {
    forall i | 0 <= i < 16
      ensures BytesOf(w)[i] < 0x100
    {
      assert w[i / 2] < 0x1_0000;
    }
  }

  /** `v6::fill`. */
  method V6Fill(word: seq<nat>, storage: SocketAddress)
    requires IsWords(word) && storage.Valid()
    modifies storage`family, storage.address6
    ensures storage.Valid() && storage.family == AF_INET6 && storage.address6[..] == BytesOf(word)
    ensures forall i :: 0 <= i < 8 ==> storage.address6[2 * i] * 0x100 + storage.address6[2 * i + 1] == word[i]
    ensures storage.address4[..] == old(storage.address4[..])
  {
    storage.family := AF_INET6;
    var bytes := storage.address6;
    for i := 0 to 8
      invariant forall j :: 0 <= j < 2 * i ==> bytes[j] == BytesOf(word)[j]
      invariant storage.family == AF_INET6
    {
      bytes[2 * i] := word[i] / 0x100;
      bytes[2 * i + 1] := word[i] % 0x100;
    }
    assert bytes[..] == BytesOf(word);
    BytesAreOctets(word);
    BytesAre(word);
    assert forall j :: 0 <= j < 16 ==> bytes[j] == BytesOf(word)[j];
    assert storage.address4[..] == old(storage.address4[..]);
  }

  /** The higher byte of each word comes first. */
  lemma BytesAre(w: seq<nat>)
    requires IsWords(w)
    ensures |BytesOf(w)| == 16
    ensures forall i :: 0 <= i < 8 ==>
              var b := BytesOf(w); b[2 * i] < 0x100 && b[2 * i + 1] < 0x100 && b[2 * i] * 0x100 + b[2 * i + 1] == w[i]
  {
    forall i | 0 <= i < 8
      ensures var b := BytesOf(w); b[2 * i] < 0x100 && b[2 * i + 1] < 0x100 && b[2 * i] * 0x100 + b[2 * i + 1] == w[i]
    {
      assert BytesOf(w)[2 * i] == w[i] / 0x100 && BytesOf(w)[2 * i + 1] == w[i] % 0x100;
      assert w[i] < 0x1_0000;
    }
  }

  /** Bytes determine words. */
  lemma BytesDetermineWords(v: seq<nat>, w: seq<nat>)
    requires IsWords(v) && IsWords(w) && BytesOf(v) == BytesOf(w)
    ensures v == w
  {
    forall i | 0 <= i < 8
      ensures v[i] == w[i]
    {
      assert BytesOf(v)[2 * i] == v[i] / 0x100 && BytesOf(v)[2 * i + 1] == v[i] % 0x100;
      assert BytesOf(w)[2 * i] == w[i] / 0x100 && BytesOf(w)[2 * i + 1] == w[i] % 0x100;
    }
  }
}
