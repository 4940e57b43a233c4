/** Searching in text, and numbers as text. */
module Text {
  import opened Wrappers

  // ---------------------------------------------------------------------------------------
  // Searching.  A search that fails gives None, which stands for npos.

  predicate At(s: string, pat: string, i: nat) {
    i + |pat| <= |s| && s[i..i + |pat|] == pat
  }

  /** The first occurrence of `pat` that does not start before `from`. */
  function Find(s: string, pat: string, from: nat): (r: Option<nat>)
    ensures r.Some? ==> from <= r.value && At(s, pat, r.value)
    ensures r.Some? ==> forall i :: from <= i < r.value ==> !At(s, pat, i)
    ensures r.None? ==> forall i :: from <= i ==> !At(s, pat, i)
    decreases |s| - from
  {
    if from + |pat| > |s| then None
    else if At(s, pat, from) then Some(from)
    else Find(s, pat, from + 1)
  }

  /** The last occurrence of a character. */
  function FindLast(s: string, c: char): (r: Option<nat>)
    ensures r.Some? ==> r.value < |s| && s[r.value] == c && forall i :: r.value < i < |s| ==> s[i] != c
    ensures r.None? ==> c !in s
  {
    if s == "" then None
    else if s[|s| - 1] == c then Some(|s| - 1)
    else FindLast(s[..|s| - 1], c)
  }

  /** `npos + k`, for a `k` above zero, wraps around to `k - 1`. */
  function Plus(pos: Option<nat>, k: nat): nat
    requires k > 0
  {
    match pos
    case Some(i) => i + k
    case None => k - 1
  }

  /** `s.substr(0, pos)`, for a position that a search in `s` gave. */
  function Before(s: string, pos: Option<nat>): string
    requires pos.Some? ==> pos.value <= |s|
  {
    match pos
    case Some(i) => s[..i]
    case None => s
  }

  ghost predicate Contains(s: string, pat: string) {
    exists i: nat :: At(s, pat, i)
  }

  lemma FindIs(s: string, pat: string, from: nat, i: nat)
    requires from <= i && At(s, pat, i) && forall j :: from <= j < i ==> !At(s, pat, j)
    ensures Find(s, pat, from) == Some(i)
  {
    var r := Find(s, pat, from);
    assert !(r.Some? && r.value < i);
  }

  lemma AtLater(a: string, b: string, pat: string, i: nat)
    ensures At(a + b, pat, |a| + i) <==> At(b, pat, i)
  {
    if |a| + i + |pat| <= |a + b| {
      assert (a + b)[|a| + i..|a| + i + |pat|] == b[i..i + |pat|];
    }
  }

  lemma FindNone(s: string, pat: string)
    ensures Find(s, pat, 0) == None <==> !Contains(s, pat)
  {
  }

  /** The first occurrence of a character in a text whose beginning does not contain it. */
  lemma FindChar(a: string, c: char, b: string)
    requires c !in a
    ensures Find(a + [c] + b, [c], 0) == Some(|a|)
  {
    var s := a + [c] + b;
    assert s[|a|..|a| + 1] == [c];
    forall j | 0 <= j < |a|
      ensures !At(s, [c], j)
    {
      assert s[j..j + 1][0] == a[j];
    }
    FindIs(s, [c], 0, |a|);
  }

  lemma CharIsFound(s: string, c: char)
    requires c in s
    ensures Find(s, [c], 0).Some?
  {
    var i :| 0 <= i < |s| && s[i] == c;
    assert s[i..i + 1] == [c];
    assert At(s, [c], i);
  }

  lemma NoChar(s: string, c: char)
    requires c !in s
    ensures Find(s, [c], 0) == None && !Contains(s, [c])
  {
    forall i: nat ensures !At(s, [c], i) {
      if i < |s| {
        assert s[i..i + 1][0] == s[i];
      }
    }
  }

  // ---------------------------------------------------------------------------------------
  // Splitting

  /** The pieces of a text between the occurrences of a character. */
  function Split(s: string, c: char): (pieces: seq<string>)
    ensures pieces != []
    decreases |s|
  {
    match Find(s, [c], 0)
    case None => [s]
    case Some(i) => [s[..i]] + Split(s[i + 1..], c)
  }

  function Join(pieces: seq<string>, c: char): string {
    if pieces == [] then ""
    else if |pieces| == 1 then pieces[0]
    else pieces[0] + [c] + Join(pieces[1..], c)
  }

  ghost predicate Free(pieces: seq<string>, c: char) {
    forall p <- pieces :: c !in p
  }

  lemma {:induction false} JoinUndoesSplit(s: string, c: char)
    ensures Join(Split(s, c), c) == s && Free(Split(s, c), c)
    decreases |s|
  {
    match Find(s, [c], 0)
    case None =>
      forall i | 0 <= i < |s| ensures s[i] != c {
        assert !At(s, [c], i);
      }
    case Some(i) =>
      forall j | 0 <= j < i ensures s[j] != c {
        assert !At(s, [c], j);
      }
      JoinUndoesSplit(s[i + 1..], c);
      assert Split(s, c)[1..] == Split(s[i + 1..], c);
      assert s == s[..i] + s[i..i + 1] + s[i + 1..];
  }

  lemma {:induction false} SplitUndoesJoin(pieces: seq<string>, c: char)
    requires pieces != [] && Free(pieces, c)
    ensures Split(Join(pieces, c), c) == pieces
  {
    var s := Join(pieces, c);
    assert pieces[0] in pieces;
    if |pieces| == 1 {
      NoChar(pieces[0], c);
      assert pieces == [pieces[0]];
    } else {
      var rest := Join(pieces[1..], c);
      FindChar(pieces[0], c, rest);
      assert s[..|pieces[0]|] == pieces[0] && s[|pieces[0]| + 1..] == rest;
      SplitUndoesJoin(pieces[1..], c);
      assert pieces == [pieces[0]] + pieces[1..];
    }
  }

  // ---------------------------------------------------------------------------------------
  // Numbers

  function DigitChar(d: nat): (c: char)
    requires d < 16
  {
    "0123456789abcdef"[d]
  }

  function DigitValue(c: char): (v: Option<nat>)
    ensures v.Some? ==> v.value < 16
  {
    if '0' <= c <= '9' then Some(c as nat - '0' as nat)
    else if 'a' <= c <= 'f' then Some(c as nat - 'a' as nat + 10)
    else if 'A' <= c <= 'F' then Some(c as nat - 'A' as nat + 10)
    else None
  }

  lemma DigitRoundTrip(d: nat)
    requires d < 16
    ensures DigitValue(DigitChar(d)) == Some(d)
  {
  }

  predicate IsBase(base: nat) {
    base == 10 || base == 16
  }

  /** Digits of the base, most significant first. */
  predicate IsNumeral(s: string, base: nat) {
    s != "" && forall c <- s :: DigitValue(c).Some? && DigitValue(c).value < base
  }

  /** A number in lower-case digits without leading zeros, as an output stream prints it. */
  function Numeral(n: nat, base: nat): (s: string)
    requires IsBase(base)
    ensures IsNumeral(s, base) && |s| > 0
  {
    if n < base then [DigitChar(n)] else Numeral(n / base, base) + [DigitChar(n % base)]
  }

  function Value(s: string, base: nat): nat
    requires s == "" || IsNumeral(s, base)
  {
    if s == "" then 0
    else Value(s[..|s| - 1], base) * base + DigitValue(s[|s| - 1]).value
  }

  lemma {:induction false} NumeralValue(n: nat, base: nat)
    requires IsBase(base)
    ensures Value(Numeral(n, base), base) == n
  {
    if n < base {
      ValueSnoc("", n, base);
      assert Numeral(n, base) == "" + [DigitChar(n)];
    } else {
      NumeralValue(n / base, base);
      ValueSnoc(Numeral(n / base, base), n % base, base);
      DivMod(n, base);
    }
  }

  lemma ValueSnoc(s: string, d: nat, base: nat)
    requires IsBase(base) && d < base && (s == "" || IsNumeral(s, base))
    ensures IsNumeral(s + [DigitChar(d)], base)
    ensures Value(s + [DigitChar(d)], base) == Value(s, base) * base + d
  {
    hide DigitChar, DigitValue;
    var t := s + [DigitChar(d)];
    DigitRoundTrip(d);
    forall c | c in t
      ensures DigitValue(c).Some? && DigitValue(c).value < base
    {
      assert c in s || c == DigitChar(d);
    }
    ValueIs(t, s, base);
  }

  lemma ValueIs(t: string, s: string, base: nat)
    requires IsNumeral(t, base) && s == t[..|t| - 1]
    ensures s == "" || IsNumeral(s, base)
    ensures Value(t, base) == Value(s, base) * base + DigitValue(t[|t| - 1]).value
  {
    assert forall c <- s :: c in t;
  }

  lemma DivMod(n: nat, base: nat)
    requires IsBase(base)
    ensures n == (n / base) * base + n % base
  {
    if base == 10 {
      assert n == (n / 10) * 10 + n % 10;
    } else {
      assert n == (n / 16) * 16 + n % 16;
    }
  }

  /** No leading zero, and only lower-case digits. */
  lemma {:induction false} NumeralCanonical(n: nat, base: nat)
    requires IsBase(base)
    ensures Numeral(n, base)[0] == '0' ==> n == 0 && Numeral(n, base) == "0"
    ensures forall c <- Numeral(n, base) :: '0' <= c <= '9' || (base == 16 && 'a' <= c <= 'f')
  {
    if n >= base {
      NumeralCanonical(n / base, base);
    }
  }

  /** The digits are those of ASCII, of either case. */
  lemma DigitsAre(d: nat)
    requires d < 16
    ensures DigitChar(d) as int == if d < 10 then '0' as int + d else 'a' as int + d - 10
    ensures forall c: char :: DigitValue(c) == if '0' <= c <= '9' then Some(c as nat - '0' as nat)
                                               else if 'a' <= c <= 'f' then Some(c as nat - 'a' as nat + 10)
                                               else if 'A' <= c <= 'F' then Some(c as nat - 'A' as nat + 10)
                                               else None
  {
  }

  lemma {:induction false} ValuePositive(s: string)
    requires IsNumeral(s, 10) && s[0] != '0'
    ensures Value(s, 10) > 0
  {
    var init := s[..|s| - 1];
    assert s[0] in s && s[|s| - 1] in s;
    if init != "" {
      assert forall c <- init :: c in s;
      ValuePositive(init);
    }
  }

  /** Only one decimal text without leading zeros denotes a number: the printed one. */
  lemma {:induction false} NumeralIsOnly(s: string)
    requires IsNumeral(s, 10) && (s[0] == '0' ==> |s| == 1)
    ensures Numeral(Value(s, 10), 10) == s
  {
    hide DigitChar, DigitValue;
    var init, last := s[..|s| - 1], s[|s| - 1];
    assert last in s && s == init + [last];
    DigitIsOnly(last);
    ValueIs(s, init, 10);
    var d := DigitValue(last).value;
    if init == "" {
      assert Value("", 10) == 0;
    } else {
      hide Value, Numeral;
      ValuePositive(init);
      NumeralIsOnly(init);
      NumeralNext(Value(init, 10), d);
    }
  }

  lemma DigitIsOnly(c: char)
    requires DigitValue(c).Some? && DigitValue(c).value < 10
    ensures DigitChar(DigitValue(c).value) == c
  {
  }

  lemma NumeralNext(n: nat, d: nat)
    requires n > 0 && d < 10
    ensures Numeral(n * 10 + d, 10) == Numeral(n, 10) + [DigitChar(d)]
  {
    hide DigitChar;
    assert (n * 10 + d) / 10 == n && (n * 10 + d) % 10 == d;
  }

  function Pow(base: nat, k: nat): nat {
    if k == 0 then 1 else base * Pow(base, k - 1)
  }

  lemma {:induction false} NumeralLength(n: nat, base: nat, k: nat)
    requires IsBase(base) && k > 0 && n < Pow(base, k)
    ensures |Numeral(n, base)| <= k
    decreases k
  {
    if n >= base {
      assert k > 1;
      assert n / base < Pow(base, k - 1);
      NumeralLength(n / base, base, k - 1);
    }
  }

  // ---------------------------------------------------------------------------------------
  // std::stoul

  const ULONG_LIMIT := 0x1_0000_0000_0000_0000

  predicate IsSpace(c: char) {
    c == ' ' || '\t' <= c <= '\r'
  }

  predicate IsDigit(c: char) {
    '0' <= c <= '9'
  }

  function SkipSpaces(s: string): string {
    if s != "" && IsSpace(s[0]) then SkipSpaces(s[1..]) else s
  }

  /** The digits at the beginning of a text. */
  function Digits(s: string): (d: string)
    ensures d == "" || IsNumeral(d, 10)
    ensures d <= s
  {
    if s != "" && IsDigit(s[0]) then [s[0]] + Digits(s[1..]) else ""
  }

  /** `std::stoul`: spaces, a sign, digits, and then anything; None if it throws. */
  function Stoul(s: string): Option<nat> {
    var t := SkipSpaces(s);
    var negative := t != "" && t[0] == '-';
    var digits := Digits(if t != "" && (t[0] == '-' || t[0] == '+') then t[1..] else t);
    if digits == "" || Value(digits, 10) >= ULONG_LIMIT then None
    else if negative then Some((ULONG_LIMIT - Value(digits, 10)) % ULONG_LIMIT)
    else Some(Value(digits, 10))
  }

  lemma {:induction false} DigitsOf(d: string, rest: string)
    requires d == "" || IsNumeral(d, 10)
    requires rest == "" || !IsDigit(rest[0])
    ensures Digits(d + rest) == d
  {
    if d == "" {
      assert d + rest == rest;
    } else {
      assert d[0] in d;
      assert (d + rest)[1..] == d[1..] + rest;
      assert forall c <- d[1..] :: c in d;
      DigitsOf(d[1..], rest);
    }
  }

  predicate IsLowerHex(c: char) {
    '0' <= c <= '9' || 'a' <= c <= 'f'
  }

  predicate AllSpaces(s: string) {
    forall c <- s :: IsSpace(c)
  }

  /** A text that begins with a decimal number: spaces, a sign or none, digits, and then anything else. */
  predicate IsDecimal(spaces: string, sign: string, digits: string, rest: string) {
    && AllSpaces(spaces) && (sign == "" || sign == "+" || sign == "-")
    && IsNumeral(digits, 10) && (rest == "" || !IsDigit(rest[0]))
  }

  lemma {:induction false} SkipThem(spaces: string, t: string)
    requires AllSpaces(spaces) && (t == "" || !IsSpace(t[0]))
    ensures SkipSpaces(spaces + t) == t
  {
    if spaces == "" {
      assert spaces + t == t;
    } else {
      assert (spaces + t)[1..] == spaces[1..] + t;
      assert forall c <- spaces[1..] :: c in spaces;
      SkipThem(spaces[1..], t);
    }
  }

  /** `stoul` reads the number that a text begins with, and throws if that is too large; a minus sign
      negates it modulo 2^64. */
  lemma StoulOfDecimal(spaces: string, sign: string, digits: string, rest: string)
    requires IsDecimal(spaces, sign, digits, rest)
    ensures var n, r := Value(digits, 10), Stoul(spaces + (sign + digits + rest));
            r == if n >= ULONG_LIMIT then None
                 else if sign == "-" then Some((ULONG_LIMIT - n) % ULONG_LIMIT)
                 else Some(n)
  {
    hide Value, Digits, SkipSpaces;
    var t := sign + digits + rest;
    assert digits[0] in digits && IsDigit(digits[0]);
    assert t[0] == if sign == "" then digits[0] else sign[0];
    SkipThem(spaces, t);
    DigitsOf(digits, rest);
    if sign == "" {
      assert t == digits + rest;
    } else {
      assert t[1..] == digits + rest;
    }
  }

  /** A text that begins with a number that fits. */
  ghost predicate StartsWithNumber(s: string) {
    exists spaces, sign, digits, rest ::
      && IsDecimal(spaces, sign, digits, rest) && s == spaces + (sign + digits + rest)
      && Value(digits, 10) < ULONG_LIMIT
  }

  /** Any other text makes it throw. */
  lemma StoulIff(s: string)
    ensures Stoul(s).Some? <==> StartsWithNumber(s)
  {
    if StartsWithNumber(s) {
      var spaces, sign, digits, rest :|
        && IsDecimal(spaces, sign, digits, rest) && s == spaces + (sign + digits + rest)
        && Value(digits, 10) < ULONG_LIMIT;
      StoulOfDecimal(spaces, sign, digits, rest);
    }
    if Stoul(s).Some? {
      StoulReads(s);
    }
  }

  lemma StoulReads(s: string)
    requires Stoul(s).Some?
    ensures StartsWithNumber(s)
  {
    hide Value, SkipSpaces, Digits, AllSpaces, IsNumeral, IsDigit;
    var spaces, t := CutSpaces(s);
    var sign := if t != "" && (t[0] == '-' || t[0] == '+') then [t[0]] else "";
    var digits, rest := CutDigits(t[|sign|..]);
    assert digits != "" by {
      assert t[0..] == t;
    }
    assert t == sign + digits + rest;
    assert IsDecimal(spaces, sign, digits, rest);
  }

  lemma {:induction false} CutSpaces(s: string) returns (spaces: string, t: string)
    ensures AllSpaces(spaces) && s == spaces + t && t == SkipSpaces(s)
  {
    if s != "" && IsSpace(s[0]) {
      spaces, t := CutSpaces(s[1..]);
      spaces := [s[0]] + spaces;
    } else {
      spaces, t := "", s;
    }
  }

  lemma {:induction false} CutDigits(s: string) returns (digits: string, rest: string)
    ensures s == digits + rest && digits == Digits(s) && (rest == "" || !IsDigit(rest[0]))
  {
    if s != "" && IsDigit(s[0]) {
      digits, rest := CutDigits(s[1..]);
      digits := [s[0]] + digits;
    } else {
      digits, rest := "", s;
    }
  }

  /** `stoul` reads a printed number, whatever follows it. */
  lemma StoulReadsDecimal(n: nat, rest: string)
    requires n < ULONG_LIMIT && (rest == "" || !IsDigit(rest[0]))
    ensures Stoul(Numeral(n, 10) + rest) == Some(n)
  {
    hide Numeral, Value, Stoul;
    var d := Numeral(n, 10);
    NumeralValue(n, 10);
    StoulOfDecimal("", "", d, rest);
    assert "" + ("" + d + rest) == d + rest;
  }

  lemma {:induction false} ValueBound(s: string, base: nat)
    requires IsBase(base) && (s == "" || IsNumeral(s, base))
    ensures Value(s, base) < Pow(base, |s|)
  {
    if s != "" {
      var init := s[..|s| - 1];
      assert forall c <- init :: c in s;
      assert s[|s| - 1] in s;
      ValueBound(init, base);
      assert Value(init, base) * base + base <= Pow(base, |init|) * base;
    }
  }
}
