/** Percent coding.  Text is a sequence of bytes, here characters below 256. */
module Encoding {
  import opened Wrappers
  import opened Text

  predicate IsBytes(s: string) {
    forall i :: 0 <= i < |s| ==> s[i] as int < 256
  }

  /** The unreserved characters of section 2.3 of RFC 3986. */
  predicate Unreserved(c: char) {
    '0' <= c <= '9' || 'A' <= c <= 'Z' || 'a' <= c <= 'z' || c == '-' || c == '_' || c == '.' || c == '~'
  }

  /** The value of a byte as a signed `char`. */
  function Signed(c: char): int {
    if c as int < 128 then c as int else c as int - 256
  }

  /** `to_hex`: the digit for the low four bits of `code`, in two's complement. */
  function ToHex(code: int): char {
    DigitChar(code % 16)
  }

  /** `from_hex`, as a byte: a digit, or whatever the arithmetic makes of another character. */
  function FromHex(c: char): (v: nat)
    ensures v < 256
  {
    var lower := if 'A' <= c <= 'Z' then Signed(c) + 32 else Signed(c);
    (if IsDigit(c) then c as int - '0' as int else lower - 'a' as int + 10) % 256
  }

  predicate Odd(n: nat) {
    n % 2 == 1
  }

  /** Bitwise or of four bits. */
  function OrNibble(a: nat, b: nat): (r: nat)
    ensures r < 16
  {
    (if Odd(a / 8) || Odd(b / 8) then 8 else 0) + (if Odd(a / 4) || Odd(b / 4) then 4 else 0)
    + (if Odd(a / 2) || Odd(b / 2) then 2 else 0) + (if Odd(a) || Odd(b) then 1 else 0)
  }

  /** `high << 4 | low`, narrowed to a byte. */
  function Combine(high: nat, low: nat): (c: char)
    requires high < 256 && low < 256
    ensures c as int < 256
  {
    (OrNibble(high % 16, low / 16) * 16 + low % 16) as char
  }

  /** One byte, coded. */
  function Escape(c: char): string {
    if Unreserved(c) then [c] else ['%', ToHex(Signed(c) / 16), ToHex(Signed(c) % 16)]
  }

  function EscapeAll(s: string): string {
    if s == "" then "" else Escape(s[0]) + EscapeAll(s[1..])
  }

  /** What `url_encode` returns: the coded text, and a NUL. */
  function UrlEncode(s: string): string {
    EscapeAll(s) + "\0"
  }

  /** What `url_decode` returns.  A percent sign without two characters behind it is dropped. */
  function UrlDecode(s: string): string {
    if s == "" then ""
    else if s[0] == '%' then
      if |s| > 2 then [Combine(FromHex(s[1]), FromHex(s[2]))] + UrlDecode(s[3..]) else UrlDecode(s[1..])
    else
      [if s[0] == '+' then ' ' else s[0]] + UrlDecode(s[1..])
  }

  lemma EscapeNothing()
    ensures EscapeAll("") == ""
  {
  }

  lemma EscapeFrom(s: string, i: nat)
    requires i < |s|
    ensures EscapeAll(s[i..]) == Escape(s[i]) + EscapeAll(s[i + 1..])
  {
    assert s[i..][1..] == s[i + 1..];
  }

  /** What `url_decode` appends for the character at `i`, and how many characters it takes. */
  function Decoded(s: string, i: nat): string
    requires i < |s|
  {
    if s[i] != '%' then [if s[i] == '+' then ' ' else s[i]]
    else if i + 2 < |s| then [Combine(FromHex(s[i + 1]), FromHex(s[i + 2]))]
    else ""
  }

  function Taken(s: string, i: nat): (n: nat)
    requires i < |s|
    ensures 0 < n <= |s| - i
  {
    if s[i] == '%' && i + 2 < |s| then 3 else 1
  }

  lemma DecodeFrom(s: string, i: nat)
    requires i < |s|
    ensures UrlDecode(s[i..]) == Decoded(s, i) + UrlDecode(s[i + Taken(s, i)..])
  {
    hide Combine, FromHex;
    var left := s[i..];
    assert left[0] == s[i] && left[1..] == s[i + 1..];
    if i + 2 < |s| {
      assert left[1] == s[i + 1] && left[2] == s[i + 2] && left[3..] == s[i + 3..];
    }
  }

  lemma DecodeNothing()
    ensures UrlDecode("") == ""
  {
  }

  /** `url_encode`. */
  method Encode(url: string) returns (result: string)
    ensures result == UrlEncode(url)
  {
    hide ToHex, Unreserved, EscapeAll;
    result := "";
    for i := 0 to |url|
      invariant result + EscapeAll(url[i..]) == EscapeAll(url)
    {
      EscapeFrom(url, i);
      var ch := url[i];
      if Unreserved(ch) {
        result := result + [ch];
      } else {
        result := result + ['%'];
        result := result + [ToHex(Signed(ch) / 16)];
        result := result + [ToHex(Signed(ch) % 16)];
      }
    }
    assert url[|url|..] == "";
    EscapeNothing();
    result := result + "\0";
  }

  /** `url_decode`. */
  method Decode(url: string) returns (result: string)
    ensures result == UrlDecode(url)
  {
    hide Combine, FromHex, UrlDecode;
    result := "";
    var it := 0;
    while it != |url|
      invariant 0 <= it <= |url|
      invariant result + UrlDecode(url[it..]) == UrlDecode(url)
    {
      DecodeFrom(url, it);
      var ch := url[it];
      if ch == '%' {
        var partOne, partTwo := it + 1, it + 2;
        if partOne != |url| && partTwo != |url| {
          result := result + [Combine(FromHex(url[partOne]), FromHex(url[partTwo]))];
          it := it + 2;
        }
      } else if ch == '+' {
        result := result + " ";
      } else {
        result := result + [ch];
      }
      it := it + 1;
    }
    assert url[it..] == "";
    DecodeNothing();
  }

  // ---------------------------------------------------------------------------------------

  lemma OrWithZero(a: nat)
    requires a < 16
    ensures OrNibble(a, 0) == a
  {
    assert a == 8 * (a / 8) + a % 8;
    assert a / 4 == 2 * (a / 8) + a % 8 / 4;
    assert a / 2 == 2 * (a / 4) + a % 4 / 2;
    assert a == 2 * (a / 2) + a % 2;
  }

  lemma FromToHex(d: nat)
    requires d < 16
    ensures FromHex(DigitChar(d)) == d
  {
  }

  /** A coded byte decodes to itself, bytes above 127 included. */
  lemma ByteRoundTrip(c: char)
    requires c as int < 256
    ensures Combine(FromHex(ToHex(Signed(c) / 16)), FromHex(ToHex(Signed(c) % 16))) == c
  {
    hide FromHex, OrNibble, DigitChar;
    var n := c as int;
    assert (Signed(c) / 16) % 16 == n / 16;
    assert Signed(c) % 16 % 16 == n % 16;
    FromToHex(n / 16);
    FromToHex(n % 16);
    OrWithZero(n / 16);
  }

  lemma {:induction false} DecodeEscaped(s: string, rest: string)
    requires IsBytes(s)
    ensures UrlDecode(EscapeAll(s) + rest) == s + UrlDecode(rest)
  {
    hide Escape, UrlDecode;
    if s == "" {
      assert EscapeAll(s) + rest == rest;
      assert s + UrlDecode(rest) == UrlDecode(rest);
    } else {
      var more := EscapeAll(s[1..]) + rest;
      assert EscapeAll(s) + rest == Escape(s[0]) + more;
      DecodeEscaped(s[1..], rest);
      DecodeOne(s[0], more);
      assert [s[0]] + (s[1..] + UrlDecode(rest)) == s + UrlDecode(rest);
    }
  }

  lemma DecodeOne(c: char, rest: string)
    requires c as int < 256
    ensures UrlDecode(Escape(c) + rest) == [c] + UrlDecode(rest)
  {
    var e := Escape(c);
    var t := e + rest;
    if Unreserved(c) {
      assert t[1..] == rest;
    } else {
      ByteRoundTrip(c);
      assert t[3..] == rest && t[1] == e[1] && t[2] == e[2];
    }
  }

  /** Decoding undoes coding, for every byte string, up to the NUL that the encoder appends. */
  lemma DecodeUndoesEncode(s: string)
    requires IsBytes(s)
    ensures UrlDecode(UrlEncode(s)) == s + "\0"
  {
    DecodeEscaped(s, "\0");
    assert "\0"[1..] == "";
    assert UrlDecode("\0") == "\0";
  }

  /** A pair of hexadecimal digits, of either case, decodes to the byte it denotes. */
  lemma HexPair(a: char, b: char)
    requires DigitValue(a).Some? && DigitValue(b).Some?
    ensures Combine(FromHex(a), FromHex(b)) as int == 16 * DigitValue(a).value + DigitValue(b).value
  {
    hide FromHex, OrNibble, DigitValue;
    FromHexIs(a);
    FromHexIs(b);
    OrWithZero(DigitValue(a).value);
  }

  lemma FromHexIs(c: char)
    requires DigitValue(c).Some?
    ensures FromHex(c) == DigitValue(c).value < 16
  {
  }

  function SpaceForPlus(s: string): (r: string)
    ensures |r| == |s|
  {
    seq(|s|, i requires 0 <= i < |s| => if s[i] == '+' then ' ' else s[i])
  }

  /** Outside of percent triples only the plus sign changes, into a space; a percent sign with fewer than
      two characters behind it disappears. */
  lemma {:induction false} DecodeWithoutTriples(s: string)
    requires '%' !in s
    ensures UrlDecode(s) == SpaceForPlus(s)
    ensures UrlDecode(s + "%") == SpaceForPlus(s)
    ensures forall c :: c != '%' ==> UrlDecode(s + ['%', c]) == SpaceForPlus(s + [c])
  {
    hide Combine, FromHex;
    if s == "" {
      assert "%"[1..] == "";
      forall c | c != '%'
        ensures UrlDecode(s + ['%', c]) == SpaceForPlus(s + [c])
      {
        assert s + ['%', c] == ['%', c] && ['%', c][1..] == [c] && [c][1..] == "";
        assert s + [c] == [c];
      }
    } else {
      DecodeWithoutTriples(s[1..]);
      assert SpaceForPlus(s) == SpaceForPlus(s[..1]) + SpaceForPlus(s[1..]);
      assert (s + "%")[1..] == s[1..] + "%";
      forall c | c != '%'
        ensures UrlDecode(s + ['%', c]) == SpaceForPlus(s + [c])
      {
        assert (s + ['%', c])[1..] == s[1..] + ['%', c];
        assert (s + [c])[1..] == s[1..] + [c];
        assert SpaceForPlus(s + [c]) == SpaceForPlus((s + [c])[..1]) + SpaceForPlus((s + [c])[1..]);
      }
    }
  }

  /** Unreserved characters, and percent triples as in section 2.1 of RFC 3986, in lower case. */
  predicate IsPercentCoded(t: string) {
    t == ""
    || (Unreserved(t[0]) && IsPercentCoded(t[1..]))
    || (|t| > 2 && t[0] == '%' && IsLowerHex(t[1]) && IsLowerHex(t[2]) && IsPercentCoded(t[3..]))
  }

  /** All that precedes the NUL is percent coded, and no shorter than the text. */
  lemma {:induction false} EncodeIsPercentCoded(s: string)
    requires IsBytes(s)
    ensures var t := UrlEncode(s);
            t[|t| - 1] == '\0' && IsPercentCoded(t[..|t| - 1]) && |t| > |s|
  {
    assert UrlEncode(s)[..|UrlEncode(s)| - 1] == EscapeAll(s);
    EscapedIsPercentCoded(s);
  }

  lemma {:induction false} EscapedIsPercentCoded(s: string)
    requires IsBytes(s)
    ensures IsPercentCoded(EscapeAll(s)) && |EscapeAll(s)| >= |s|
  {
    if s != "" {
      EscapedIsPercentCoded(s[1..]);
      var e, t := Escape(s[0]), EscapeAll(s);
      if Unreserved(s[0]) {
        assert t[1..] == EscapeAll(s[1..]);
      } else {
        assert t[3..] == EscapeAll(s[1..]) && t[0] == e[0] && t[1] == e[1] && t[2] == e[2];
        LowerHexDigit(Signed(s[0]) / 16);
        LowerHexDigit(Signed(s[0]) % 16);
      }
    }
  }

  lemma LowerHexDigit(code: int)
    ensures IsLowerHex(ToHex(code))
  {
    var d := code % 16;
    assert 0 <= d < 16;
  }

  /** A percent-coded text has no other characters than these. */
  lemma {:induction false} PercentCodedChars(t: string)
    requires IsPercentCoded(t)
    ensures forall c <- t :: Unreserved(c) || c == '%'
  {
    if t != "" {
      if Unreserved(t[0]) && IsPercentCoded(t[1..]) {
        PercentCodedChars(t[1..]);
        assert t == [t[0]] + t[1..];
      } else {
        PercentCodedChars(t[3..]);
        assert t == t[..3] + t[3..];
      }
    }
  }

  /** A triple with hexadecimal digits of either case is read as the byte it denotes, wherever it stands in
      front. */
  lemma DecodeTriple(a: char, b: char, rest: string)
    requires DigitValue(a).Some? && DigitValue(b).Some?
    ensures UrlDecode(['%', a, b] + rest)
         == [(16 * DigitValue(a).value + DigitValue(b).value) as char] + UrlDecode(rest)
  {
    hide DigitValue, FromHex, Combine;
    HexPair(a, b);
    var t := ['%', a, b] + rest;
    assert t[1] == a && t[2] == b && t[3..] == rest;
  }

  /** Each byte is coded by itself, wherever it stands: an unreserved one as itself, any other as a percent sign
      and its two digits in lower case. */
  lemma EncodeOne(before: string, c: char, after: string)
    requires IsBytes(before + [c] + after)
    ensures EscapeAll(before + [c] + after) == EscapeAll(before) + EscapeAll([c]) + EscapeAll(after)
    ensures Unreserved(c) ==> EscapeAll([c]) == [c]
    ensures !Unreserved(c) ==>
              var t := EscapeAll([c]);
              && |t| == 3 && t[0] == '%' && IsLowerHex(t[1]) && IsLowerHex(t[2])
              && DigitValue(t[1]).Some? && DigitValue(t[2]).Some?
              && 16 * DigitValue(t[1]).value + DigitValue(t[2]).value == c as int
  {
    hide EscapeAll, Escape, DigitValue;
    EscapeAppend(before + [c], after);
    EscapeAppend(before, [c]);
    assert (before + [c] + after)[|before|] == c;
    EscapeLone(c);
    EscapeIs(c);
  }

  lemma EscapeLone(c: char)
    ensures EscapeAll([c]) == Escape(c)
  {
    hide Escape;
    assert [c][1..] == "";
    EscapeNothing();
  }

  lemma EscapeIs(c: char)
    requires c as int < 256
    ensures Unreserved(c) ==> Escape(c) == [c]
    ensures !Unreserved(c) ==>
              var t := Escape(c);
              && |t| == 3 && t[0] == '%' && IsLowerHex(t[1]) && IsLowerHex(t[2])
              && DigitValue(t[1]).Some? && DigitValue(t[2]).Some?
              && 16 * DigitValue(t[1]).value + DigitValue(t[2]).value == c as int
  {
    hide DigitChar, DigitValue, Unreserved, IsLowerHex;
    Nibbles(c);
    hide Signed;
    LowerHexDigit(Signed(c) / 16);
    LowerHexDigit(Signed(c) % 16);
    DigitRoundTrip(c as int / 16);
    DigitRoundTrip(c as int % 16);
  }

  lemma Nibbles(c: char)
    requires c as int < 256
    ensures (Signed(c) / 16) % 16 == c as int / 16 < 16 && Signed(c) % 16 % 16 == c as int % 16
  {
  }

  lemma {:induction false} EscapeAppend(s: string, t: string)
    ensures EscapeAll(s + t) == EscapeAll(s) + EscapeAll(t)
  {
    hide Escape;
    if s == "" {
      assert s + t == t;
    } else {
      assert (s + t)[1..] == s[1..] + t;
      EscapeAppend(s[1..], t);
    }
  }

  /** Any other two characters behind a percent sign are used up too, for some one byte. */
  lemma DecodeAnyTriple(a: char, b: char, rest: string)
    ensures var t := UrlDecode(['%', a, b] + rest); |t| == 1 + |UrlDecode(rest)| && t[1..] == UrlDecode(rest)
  {
    hide FromHex, Combine;
    assert (['%', a, b] + rest)[3..] == rest;
  }
}
