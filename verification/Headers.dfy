/** Header fields: a multimap from keys to values, its text, and reading it back. */
module Headers {
  import opened Wrappers
  import opened Text

  /** How a parse ends; `Throws` stands for an exception that leaves a noexcept function. */
  datatype Outcome<+T> = Ok(value: T) | Invalid | Throws

  datatype Header = Header(key: string, value: string)

  const LINE_END := "\r\n"

  // ---------------------------------------------------------------------------------------
  // std::multimap: ordered by key, equal keys in the order of their insertion

  predicate Less(a: string, b: string) {
    b != "" && (a == "" || a[0] < b[0] || (a[0] == b[0] && Less(a[1..], b[1..])))
  }

  lemma {:induction false} LessTransitive(a: string, b: string, c: string)
    requires !Less(b, a) && !Less(c, b)
    ensures !Less(c, a)
  {
    if a != "" && b != "" && c != "" && a[0] == b[0] == c[0] {
      LessTransitive(a[1..], b[1..], c[1..]);
    }
  }

  lemma {:induction false} LessAsymmetric(a: string, b: string)
    ensures !(Less(a, b) && Less(b, a))
    ensures !Less(a, b) && !Less(b, a) ==> a == b
  {
    if a != "" && b != "" && a[0] == b[0] {
      LessAsymmetric(a[1..], b[1..]);
      assert a == [a[0]] + a[1..] && b == [b[0]] + b[1..];
    }
  }

  /** The order is that of the first difference, by the codes of the characters; a prefix comes first. */
  lemma {:induction false} LessIs(a: string, b: string)
    ensures Less(a, b) <==> exists k: nat :: k <= |a| && k < |b| && a[..k] == b[..k] && (k == |a| || a[k] < b[k])
  {
    if Less(a, b) {
      if a == "" || a[0] < b[0] {
        assert a[..0] == b[..0];
      } else {
        var c, d := a[1..], b[1..];
        LessIs(c, d);
        var k: nat :| k <= |c| && k < |d| && c[..k] == d[..k] && (k == |c| || c[k] < d[k]);
        assert a[..k + 1] == [a[0]] + c[..k] && b[..k + 1] == [b[0]] + d[..k];
      }
    }
    forall k: nat | k <= |a| && k < |b| && a[..k] == b[..k] && (k == |a| || a[k] < b[k])
      ensures Less(a, b)
    {
      if k > 0 {
        assert a[0] == a[..k][0] == b[..k][0] == b[0];
        assert a[1..][..k - 1] == a[..k][1..] == b[..k][1..] == b[1..][..k - 1];
        LessIs(a[1..], b[1..]);
      }
    }
  }

  predicate Sorted(m: seq<Header>) {
    forall i, j :: 0 <= i < j < |m| ==> !Less(m[j].key, m[i].key)
  }

  /** `emplace`: behind the last entry whose key is not greater. */
  function Insert(m: seq<Header>, h: Header): seq<Header> {
    if m == [] || Less(h.key, m[0].key) then [h] + m else [m[0]] + Insert(m[1..], h)
  }

  /** The values of a key, in their order. */
  function Values(m: seq<Header>, key: string): seq<string> {
    if m == [] then []
    else (if m[0].key == key then [m[0].value] else []) + Values(m[1..], key)
  }

  function AddAll(m: seq<Header>, adds: seq<Header>): seq<Header>
    decreases |adds|
  {
    if adds == [] then m else AddAll(Insert(m, adds[0]), adds[1..])
  }

  lemma {:induction false} InsertKeepsSorted(m: seq<Header>, h: Header)
    requires Sorted(m)
    ensures Sorted(Insert(m, h))
    ensures forall e :: e in Insert(m, h) <==> e in m || e == h
  {
    if m == [] {
    } else if Less(h.key, m[0].key) {
      LessAsymmetric(h.key, m[0].key);
      forall e | e in m
        ensures !Less(e.key, h.key)
      {
        LessAsymmetric(e.key, e.key);
        assert !Less(e.key, m[0].key);
        LessTransitive(h.key, m[0].key, e.key);
      }
    } else {
      InsertKeepsSorted(m[1..], h);
      assert forall e <- m[1..] :: !Less(e.key, m[0].key);
      assert m == [m[0]] + m[1..];
    }
  }

  lemma {:induction false} NoValues(m: seq<Header>, key: string)
    requires forall h <- m :: h.key != key
    ensures Values(m, key) == []
  {
    if m != [] {
      assert m[0] in m;
      NoValues(m[1..], key);
    }
  }

  lemma ValuesOne(m: seq<Header>, key: string)
    requires m != []
    ensures Values(m, key) == (if m[0].key == key then [m[0].value] else []) + Values(m[1..], key)
  {
  }

  lemma {:induction false} ValuesOfInsert(m: seq<Header>, h: Header, key: string)
    requires Sorted(m)
    ensures Values(Insert(m, h), key) == Values(m, key) + if h.key == key then [h.value] else []
  {
    if m == [] {
      assert Insert(m, h)[1..] == [];
    } else if Less(h.key, m[0].key) {
      assert ([h] + m)[1..] == m;
      ValuesOne([h] + m, key);
      if h.key == key {
        KeyIsNew(m, h.key);
        NoValues(m, key);
      }
    } else {
      ValuesOfInsert(m[1..], h, key);
      var n, rest := Insert(m, h), Insert(m[1..], h);
      assert n[0] == m[0] && n[1..] == rest;
      hide Insert, Less, Sorted, Values;
      ValuesOne(n, key);
      ValuesOne(m, key);
    }
  }

  lemma KeyIsNew(m: seq<Header>, key: string)
    requires Sorted(m) && m != [] && Less(key, m[0].key)
    ensures forall e <- m :: e.key != key
  {
    forall e | e in m
      ensures e.key != key
    {
      LessAsymmetric(e.key, m[0].key);
      LessAsymmetric(e.key, e.key);
    }
  }

  lemma {:induction false} ValuesAppend(a: seq<Header>, b: seq<Header>, key: string)
    ensures Values(a + b, key) == Values(a, key) + Values(b, key)
  {
    if a == [] {
      assert a + b == b;
    } else {
      assert (a + b)[0] == a[0] && (a + b)[1..] == a[1..] + b;
      ValuesOne(a + b, key);
      ValuesOne(a, key);
      hide Values;
      ValuesAppend(a[1..], b, key);
    }
  }

  /** After any adds, the map is in key order and gives for every key the values added for it, in the
      order of the adds. */
  lemma {:induction false} MapIsStable(m: seq<Header>, adds: seq<Header>, key: string)
    requires Sorted(m)
    ensures Sorted(AddAll(m, adds))
    ensures Values(AddAll(m, adds), key) == Values(m + adds, key)
    decreases |adds|
  {
    if adds == [] {
      assert m + adds == m;
    } else {
      hide Insert, Sorted, Less;
      var n := Insert(m, adds[0]);
      InsertKeepsSorted(m, adds[0]);
      MapIsStable(n, adds[1..], key);
      ValuesOfInsert(m, adds[0], key);
      ValuesAppend(n, adds[1..], key);
      ValuesAppend(m, adds, key);
      ValuesOne(adds, key);
    }
  }

  lemma {:induction false} InsertLast(m: seq<Header>, h: Header)
    requires forall e <- m :: !Less(h.key, e.key)
    ensures Insert(m, h) == m + [h]
  {
    if m != [] {
      assert m[0] in m;
      InsertLast(m[1..], h);
      assert m == [m[0]] + m[1..];
    }
  }

  lemma {:induction false} AddSorted(m: seq<Header>, adds: seq<Header>)
    requires Sorted(m + adds)
    ensures AddAll(m, adds) == m + adds
    decreases |adds|
  {
    if adds == [] {
      assert m + adds == m;
    } else {
      var all := m + adds;
      assert all[|m|] == adds[0];
      forall e | e in m
        ensures !Less(adds[0].key, e.key)
      {
        var i :| 0 <= i < |m| && m[i] == e;
        assert all[i] == e;
      }
      InsertLast(m, adds[0]);
      assert m + [adds[0]] + adds[1..] == all;
      AddSorted(m + [adds[0]], adds[1..]);
    }
  }

  // ---------------------------------------------------------------------------------------
  // Text

  function Line(h: Header): string {
    h.key + ": " + h.value
  }

  function SerializeAll(m: seq<Header>): string {
    if m == [] then "" else Line(m[0]) + LINE_END + SerializeAll(m[1..])
  }

  /** One header line. */
  function ParseLine(line: string): Outcome<Header> {
    var colon := Find(line, ":", 0);
    if colon.None? then Invalid
    else if colon.value + 2 > |line| then Throws
    else Ok(Header(line[..colon.value], line[colon.value + 2..]))
  }

  /** The headers that `create` adds, in their order. */
  function ParseAll(text: string): Outcome<seq<Header>>
    decreases |text|
  {
    if text == "" then Ok([])
    else
      var pos := Find(text, LINE_END, 0);
      match ParseLine(Before(text, pos))
      case Invalid => Invalid
      case Throws => Throws
      case Ok(h) =>
        if pos.None? then Ok([h])
        else
          Prepend([h], ParseAll(text[pos.value + 2..]))
  }

  function Prepend(done: seq<Header>, o: Outcome<seq<Header>>): Outcome<seq<Header>> {
    match o
    case Ok(rest) => Ok(done + rest)
    case Invalid => Invalid
    case Throws => Throws
  }

  lemma PrependNone(done: seq<Header>, o: Outcome<seq<Header>>)
    ensures Prepend([], o) == o && Prepend(done, Ok([])) == Ok(done)
  {
    assert done + [] == done;
    assert o.Ok? ==> [] + o.value == o.value;
  }

  /** What is read behind the first line. */
  function Behind(text: string): Outcome<seq<Header>> {
    var pos := Find(text, LINE_END, 0);
    if pos.None? then Ok([]) else ParseAll(text[pos.value + 2..])
  }

  function FirstOf(text: string): string {
    Before(text, Find(text, LINE_END, 0))
  }

  lemma ParseOnce(text: string)
    requires text != ""
    ensures match ParseLine(FirstOf(text))
            case Invalid => ParseAll(text) == Invalid
            case Throws => ParseAll(text) == Throws
            case Ok(h) => ParseAll(text) == Prepend([h], Behind(text))
  {
    hide Find, ParseLine;
    assert forall h: Header :: [h] + [] == [h];
  }

  /** One round of the parse loop, behind the headers that are done. */
  lemma ParseMore(done: seq<Header>, text: string)
    requires text != ""
    ensures var o := Prepend(done, ParseAll(text));
            match ParseLine(FirstOf(text))
            case Invalid => o == Invalid
            case Throws => o == Throws
            case Ok(h) => o == Prepend(done + [h], Behind(text))
  {
    hide ParseLine, ParseAll, Behind, FirstOf;
    ParseOnce(text);
    if ParseLine(FirstOf(text)).Ok? {
      PrependTwice(done, [ParseLine(FirstOf(text)).value], Behind(text));
    }
  }

  lemma PrependTwice(a: seq<Header>, b: seq<Header>, o: Outcome<seq<Header>>)
    ensures Prepend(a, Prepend(b, o)) == Prepend(a + b, o)
  {
    assert o.Ok? ==> a + (b + o.value) == a + b + o.value;
  }

  class HeaderMap {
    var headers: seq<Header>

    constructor ()
      ensures headers == []
    {
      headers := [];
    }

    /** `add`. */
    method Add(key: string, value: string)
      modifies this
      ensures headers == Insert(old(headers), Header(key, value))
    {
      headers := Insert(headers, Header(key, value));
    }

    /** `get`. */
    method Get(key: string) returns (out: seq<string>)
      ensures out == Values(headers, key)
    {
      out := [];
      for i := 0 to |headers|
        invariant out + Values(headers[i..], key) == Values(headers, key)
      {
        if headers[i].key == key {
          out := out + [headers[i].value];
        }
        assert headers[i..][1..] == headers[i + 1..];
      }
    }

    /** `serialize`. */
    method Serialize() returns (out: string)
      ensures out == SerializeAll(headers)
    {
      out := "";
      for i := 0 to |headers|
        invariant out + SerializeAll(headers[i..]) == SerializeAll(headers)
      {
        assert headers[i..][1..] == headers[i + 1..];
        out := out + (headers[i].key + ": " + headers[i].value + LINE_END);
      }
    }

    /** `create`: adds a header for each line; `built` only counts if the outcome is `Ok`. */
    static method Create(text: string) returns (built: HeaderMap, outcome: Outcome<()>)
      ensures fresh(built)
      ensures match ParseAll(text)
              case Ok(adds) => outcome == Ok(()) && built.headers == AddAll([], adds)
              case Invalid => outcome == Invalid
              case Throws => outcome == Throws
    {
      hide AddAll, Insert, Prepend, ParseAll, Find;
      built := new HeaderMap();
      var left := text;
      ghost var done: seq<Header> := [];
      PrependNone([], ParseAll(text));
      assert AddAll([], done) == [] by { EmptyAdds([]); }
      while left != ""
        invariant fresh(built) && built.headers == AddAll([], done)
        invariant ParseAll(text) == Prepend(done, ParseAll(left))
        decreases |left|
      {
        ParseMore(done, left);
        var pos := Find(left, LINE_END, 0);
        var view := Before(left, pos);
        var headerPos := Find(view, ":", 0);
        if headerPos.None? {
          return built, Invalid;
        }
        if headerPos.value + 2 > |view| {
          return built, Throws;
        }
        built.Add(view[..headerPos.value], view[headerPos.value + 2..]);
        ghost var h := Header(view[..headerPos.value], view[headerPos.value + 2..]);
        AddAllSnoc([], done, h);
        done := done + [h];
        left := left[Plus(pos, 2)..];
        if pos.None? {
          PrependNone(done, Invalid);
          return built, Ok(());
        }
      }
      EmptyText();
      PrependNone(done, Invalid);
      return built, Ok(());
    }
  }

  lemma EmptyText()
    ensures ParseAll("") == Ok([])
  {
  }

  lemma EmptyAdds(m: seq<Header>)
    ensures AddAll(m, []) == m
  {
  }

  lemma {:induction false} AddAllSnoc(m: seq<Header>, adds: seq<Header>, h: Header)
    ensures AddAll(m, adds + [h]) == Insert(AddAll(m, adds), h)
    decreases |adds|
  {
    if adds == [] {
      assert adds + [h] == [h] && [h][1..] == [];
    } else {
      assert (adds + [h])[1..] == adds[1..] + [h];
      AddAllSnoc(Insert(m, adds[0]), adds[1..], h);
    }
  }

  // ---------------------------------------------------------------------------------------
  // Reading back

  ghost predicate NoBreak(s: string) {
    !Contains(s, LINE_END)
  }

  ghost predicate WellFormed(h: Header) {
    ':' !in h.key && NoBreak(h.key) && NoBreak(h.value)
  }

  ghost predicate AllWellFormed(m: seq<Header>) {
    forall h <- m :: WellFormed(h)
  }

  /** In text that starts with a line without a break, the first break ends that line. */
  lemma FirstBreak(line: string, rest: string)
    requires NoBreak(line)
    ensures Find(line + LINE_END + rest, LINE_END, 0) == Some(|line|)
    ensures forall i :: 0 <= i < |line| ==> !At(line + LINE_END + rest, LINE_END, i)
  {
    var s := line + LINE_END + rest;
    assert s[|line|..|line| + 2] == LINE_END;
    forall i | 0 <= i < |line|
      ensures !At(s, LINE_END, i)
    {
      if i + 2 <= |line| {
        assert s[i..i + 2] == line[i..i + 2];
        assert !At(line, LINE_END, i);
      } else {
        assert s[i..i + 2][1] == '\r';
      }
    }
    FindIs(s, LINE_END, 0, |line|);
  }

  /** Putting together two texts without breaks makes no break, unless it joins the two characters of one. */
  lemma NoBreakJoin(a: string, b: string)
    requires NoBreak(a) && NoBreak(b)
    requires a == "" || b == "" || a[|a| - 1] != '\r' || b[0] != '\n'
    ensures NoBreak(a + b)
  {
    var s := a + b;
    forall i: nat
      ensures !At(s, LINE_END, i)
    {
      if i + 2 <= |a| {
        assert s[i..i + 2] == a[i..i + 2];
        assert !At(a, LINE_END, i);
      } else if i >= |a| && i + 2 <= |s| {
        assert s[i..i + 2] == b[i - |a|..i - |a| + 2];
        assert !At(b, LINE_END, i - |a|);
      } else if i + 2 <= |s| {
        assert s[i..i + 2][0] == a[|a| - 1] && s[i..i + 2][1] == b[0];
      }
    }
  }

  lemma NoReturn(s: string)
    requires '\r' !in s
    ensures NoBreak(s)
  {
    forall i: nat
      ensures !At(s, LINE_END, i)
    {
      if i + 2 <= |s| {
        assert s[i..i + 2][0] == s[i];
      }
    }
  }

  lemma LineHasNoBreak(h: Header)
    requires WellFormed(h)
    ensures NoBreak(Line(h))
    ensures ParseLine(Line(h)) == Ok(h)
  {
    NoChar(": ", '\r');
    assert NoBreak(": ") by {
      forall i: nat ensures !At(": ", LINE_END, i) {
      }
    }
    NoBreakJoin(h.key, ": ");
    NoBreakJoin(h.key + ": ", h.value);
    assert h.key + ": " + h.value == h.key + [':'] + (" " + h.value);
    FindChar(h.key, ':', " " + h.value);
    assert Line(h)[..|h.key|] == h.key && Line(h)[|h.key| + 2..] == h.value;
  }

  lemma ParseOneMore(h: Header, rest: string)
    requires WellFormed(h)
    ensures ParseAll(Line(h) + LINE_END + rest) == Prepend([h], ParseAll(rest))
    ensures ParseAll(Line(h)) == Ok([h])
  {
    var line := Line(h);
    LineHasNoBreak(h);
    FirstBreak(line, rest);
    FindNone(line, LINE_END);
    var s := line + LINE_END + rest;
    assert s[..|line|] == line && s[|line| + 2..] == rest;
    assert line != "" && s != "";
  }

  /** Reading the text of a header map gives the headers of the map, in its order. */
  lemma {:induction false} ParseUndoesSerialize(m: seq<Header>)
    requires AllWellFormed(m)
    ensures ParseAll(SerializeAll(m)) == Ok(m)
  {
    hide ParseAll, WellFormed, Line;
    if m == [] {
      EmptyText();
    } else {
      assert m[0] in m;
      ParseOneMore(m[0], SerializeAll(m[1..]));
      ParseUndoesSerialize(m[1..]);
      assert m == [m[0]] + m[1..];
    }
  }

  /** The text without the break at its end. */
  function Trimmed(m: seq<Header>): string
    requires m != []
  {
    Line(m[0]) + if |m| == 1 then "" else LINE_END + Trimmed(m[1..])
  }

  lemma {:induction false} TrimmedIs(m: seq<Header>)
    requires m != []
    ensures SerializeAll(m) == Trimmed(m) + LINE_END
  {
    if |m| == 1 {
      assert SerializeAll(m[1..]) == "";
    } else {
      TrimmedIs(m[1..]);
    }
  }

  lemma {:induction false} ParseUndoesTrimmed(m: seq<Header>)
    requires m != [] && AllWellFormed(m)
    ensures ParseAll(Trimmed(m)) == Ok(m)
  {
    hide ParseAll;
    assert m[0] in m && m == [m[0]] + m[1..];
    if |m| == 1 {
      ParseOneMore(m[0], "");
      assert Trimmed(m) == Line(m[0]) && m == [m[0]];
    } else {
      ParseOneMore(m[0], Trimmed(m[1..]));
      ParseUndoesTrimmed(m[1..]);
      assert Trimmed(m) == Line(m[0]) + LINE_END + Trimmed(m[1..]);
    }
  }

  /** The round trip: `create` rebuilds the same map from its text, equal keys in their order, with or
      without the final break. */
  lemma HeaderMapRoundTrip(m: seq<Header>)
    requires Sorted(m) && AllWellFormed(m)
    ensures ParseAll(SerializeAll(m)) == Ok(m) && AddAll([], m) == m
    ensures m != [] ==> SerializeAll(m) == Trimmed(m) + LINE_END && ParseAll(Trimmed(m)) == Ok(m)
  {
    ParseUndoesSerialize(m);
    assert [] + m == m;
    AddSorted([], m);
    if m != [] {
      TrimmedIs(m);
      ParseUndoesTrimmed(m);
    }
  }

  // ---------------------------------------------------------------------------------------
  // Any text

  /** The lines of a text: its pieces between the breaks, without an empty one at the end. */
  function Lines(text: string): seq<string>
    decreases |text|
  {
    if text == "" then []
    else
      match Find(text, LINE_END, 0)
      case None => [text]
      case Some(i) => [text[..i]] + Lines(text[i + 2..])
  }

  function Unlines(lines: seq<string>): string {
    if lines == [] then "" else lines[0] + LINE_END + Unlines(lines[1..])
  }

  /** No line has a break in it, and the lines make up the text, but for the break that the last one may lack. */
  lemma {:induction false} LinesMakeText(text: string)
    ensures forall line <- Lines(text) :: NoBreak(line)
    ensures var whole := Unlines(Lines(text)); whole == text || whole == text + LINE_END
    decreases |text|
  {
    if text != "" {
      OneLine(text);
      LinesCons(text);
      hide Find, NoBreak, Lines, Unlines, FirstOf;
      var pos := Find(text, LINE_END, 0);
      var rest := if pos.None? then "" else text[pos.value + 2..];
      LinesMakeText(rest);
      UnlinesCons(FirstOf(text), Lines(rest));
      if pos.None? {
        NoLines();
        assert FirstOf(text) + LINE_END + "" == text + LINE_END;
      }
    }
  }

  lemma NoLines()
    ensures Lines("") == [] && Unlines([]) == ""
  {
  }

  /** The first line has no break in it, and is what precedes the first break. */
  lemma OneLine(text: string)
    ensures NoBreak(FirstOf(text))
    ensures match Find(text, LINE_END, 0)
            case None => FirstOf(text) == text
            case Some(i) => text == FirstOf(text) + LINE_END + text[i + 2..]
  {
    match Find(text, LINE_END, 0)
    case None => FindNone(text, LINE_END);
    case Some(i) =>
      BreaksLater(text, i);
      assert text[i..i + 2] == LINE_END;
  }

  lemma UnlinesCons(line: string, lines: seq<string>)
    ensures Unlines([line] + lines) == line + LINE_END + Unlines(lines)
  {
    assert ([line] + lines)[1..] == lines;
  }

  lemma BreaksLater(text: string, i: nat)
    requires i <= |text| && forall j :: 0 <= j < i ==> !At(text, LINE_END, j)
    ensures NoBreak(text[..i])
  {
    forall j: nat
      ensures !At(text[..i], LINE_END, j)
    {
      if j + 2 <= i {
        assert text[..i][j..j + 2] == text[j..j + 2] && !At(text, LINE_END, j);
      }
    }
  }

  /** A line whose first colon is its last character. */
  predicate EndsAtColon(line: string) {
    line != "" && line[|line| - 1] == ':' && ':' !in line[..|line| - 1]
  }

  predicate GoodLine(line: string) {
    ':' in line && !EndsAtColon(line)
  }

  /** The key ends at the first colon; the value follows the character behind the colon, whatever that is. */
  predicate IsHeaderOf(h: Header, line: string) {
    ':' !in h.key && |h.key| + 2 <= |line| && h.key + ":" <= line && h.value == line[|h.key| + 2..]
  }

  lemma ParseLineOutcome(line: string)
    ensures match ParseLine(line)
            case Ok(h) => GoodLine(line) && IsHeaderOf(h, line)
            case Throws => EndsAtColon(line)
            case Invalid => ':' !in line
  {
    if ':' !in line {
      NoChar(line, ':');
    } else {
      CharIsFound(line, ':');
      var colon := Find(line, ":", 0).value;
      assert line[colon] == line[colon..colon + 1][0] == ':';
      forall i | 0 <= i < colon
        ensures line[i] != ':'
      {
        assert line[i..i + 1][0] == line[i] && !At(line, ":", i);
      }
    }
  }

  /** The first line that is not good. */
  function FirstBad(lines: seq<string>): (r: Option<string>)
    ensures match r
            case None => forall line <- lines :: GoodLine(line)
            case Some(bad) =>
              && !GoodLine(bad)
              && exists i :: 0 <= i < |lines| && lines[i] == bad && forall j :: 0 <= j < i ==> GoodLine(lines[j])
  {
    if lines == [] then None
    else if !GoodLine(lines[0]) then Some(lines[0])
    else FirstBad(lines[1..])
  }

  /** What `create` makes of any text.  It succeeds exactly if every line has a colon and no line ends at its
      first one, and reads one header from each line; it throws exactly if the first line that is not good
      ends at its first colon; else the first line that is not good makes it fail. */
  lemma CreateOutcome(text: string)
    ensures var lines := Lines(text);
            match ParseAll(text)
            case Ok(adds) =>
              && (forall line <- lines :: GoodLine(line))
              && |adds| == |lines| && forall i :: 0 <= i < |adds| ==> IsHeaderOf(adds[i], lines[i])
            case Throws =>
              exists i :: 0 <= i < |lines| && EndsAtColon(lines[i]) && forall j :: 0 <= j < i ==> GoodLine(lines[j])
            case Invalid =>
              exists i :: 0 <= i < |lines| && ':' !in lines[i] && forall j :: 0 <= j < i ==> GoodLine(lines[j])
    ensures ParseAll(text).Ok? <==> FirstBad(Lines(text)) == None
    ensures ParseAll(text) == Throws <==> FirstBad(Lines(text)).Some? && EndsAtColon(FirstBad(Lines(text)).value)
  {
    CreateFollowsLines(text);
    hide ParseAll, Lines, IsHeaderOf, EndsAtColon, FirstBad;
    var lines := Lines(text);
    var bad := FirstBad(lines);
    if bad.Some? {
      var i :| 0 <= i < |lines| && lines[i] == bad.value && forall j :: 0 <= j < i ==> GoodLine(lines[j]);
    }
  }

  /** An outcome is what the lines ask for. */
  ghost predicate Follows(o: Outcome<seq<Header>>, lines: seq<string>) {
    match FirstBad(lines)
    case None => o.Ok? && |o.value| == |lines| && forall i :: 0 <= i < |lines| ==> IsHeaderOf(o.value[i], lines[i])
    case Some(bad) => o == if EndsAtColon(bad) then Throws else Invalid
  }

  lemma FollowsCons(line: string, o: Outcome<seq<Header>>, lines: seq<string>)
    requires Follows(o, lines)
    ensures match ParseLine(line)
            case Invalid => Follows(Invalid, [line] + lines)
            case Throws => Follows(Throws, [line] + lines)
            case Ok(h) => Follows(Prepend([h], o), [line] + lines)
  {
    hide IsHeaderOf, ParseLine;
    ParseLineOutcome(line);
    BadCons(line, lines);
  }

  lemma BadCons(line: string, lines: seq<string>)
    ensures FirstBad([line] + lines) == if GoodLine(line) then FirstBad(lines) else Some(line)
  {
    assert ([line] + lines)[1..] == lines;
  }

  lemma {:induction false} CreateFollowsLines(text: string)
    ensures Follows(ParseAll(text), Lines(text))
    decreases |text|
  {
    if text != "" {
      LinesCons(text);
      ParseOnce(text);
      hide Follows, Lines, ParseAll, ParseLine, Find, Prepend;
      var pos := Find(text, LINE_END, 0);
      var rest := if pos.None? then "" else text[pos.value + 2..];
      CreateFollowsLines(rest);
      EmptyText();
      FollowsCons(FirstOf(text), ParseAll(rest), Lines(rest));
    }
  }

  lemma LinesCons(text: string)
    requires text != ""
    ensures var pos := Find(text, LINE_END, 0);
            Lines(text) == [FirstOf(text)] + Lines(if pos.None? then "" else text[pos.value + 2..])
  {
    hide Find;
  }

  /** The lines of printed headers are in front of those of the text behind them. */
  lemma {:induction false} LinesBehind(m: seq<Header>, text: string)
    requires AllWellFormed(m)
    ensures FirstBad(Lines(SerializeAll(m) + text)) == FirstBad(Lines(text))
  {
    if m == [] {
      assert SerializeAll(m) + text == text;
    } else {
      hide Lines, FirstBad, ParseLine, WellFormed, NoBreak, Line, GoodLine, SerializeAll;
      var first, more := Line(m[0]), SerializeAll(m[1..]) + text;
      assert m[0] in m;
      LineHasNoBreak(m[0]);
      ParseLineOutcome(first);
      SerializeCons(m, text);
      FirstLine(first, LINE_END + more);
      LinesBehind(m[1..], text);
      BadCons(first, Lines(more));
    }
  }

  /** The printed text has one line for each entry: the key, a colon, a space, and the value. */
  lemma {:induction false} PrintedLines(m: seq<Header>)
    requires AllWellFormed(m)
    ensures var lines := Lines(SerializeAll(m));
            |lines| == |m| && forall i :: 0 <= i < |m| ==> lines[i] == m[i].key + ": " + m[i].value
  {
    if m != [] {
      var rest := SerializeAll(m[1..]);
      assert m[0] in m;
      LineHasNoBreak(m[0]);
      assert SerializeAll(m) == Line(m[0]) + (LINE_END + rest);
      FirstLine(Line(m[0]), LINE_END + rest);
      assert (LINE_END + rest)[2..] == rest;
      hide Lines, SerializeAll;
      PrintedLines(m[1..]);
    }
  }

  /** Reading any well-formed header lines gives a map in key order, with the values of each key in the order of
      the lines; if the lines are in that order already, it gives just them. */
  lemma ReadsHeaders(m: seq<Header>)
    requires m != [] && AllWellFormed(m)
    ensures ParseAll(Trimmed(m)) == Ok(m) && Sorted(AddAll([], m)) && (Sorted(m) ==> AddAll([], m) == m)
    ensures forall key :: Values(AddAll([], m), key) == Values(m, key)
  {
    hide Trimmed, ParseAll, AddAll, Values, Sorted;
    ParseUndoesTrimmed(m);
    SortedAlready(m);
    forall key
      ensures Sorted(AddAll([], m)) && Values(AddAll([], m), key) == Values(m, key)
    {
      NothingIsSorted();
      MapIsStable([], m, key);
      assert [] + m == m;
    }
    assert Sorted(AddAll([], m)) by {
      NothingIsSorted();
      MapIsStable([], m, "");
    }
  }

  lemma NothingIsSorted()
    ensures Sorted([])
  {
  }

  lemma SortedAlready(m: seq<Header>)
    ensures Sorted(m) ==> AddAll([], m) == m
  {
    assert [] + m == m;
    if Sorted(m) {
      AddSorted([], m);
    }
  }

  lemma SerializeCons(m: seq<Header>, text: string)
    requires m != []
    ensures var rest := LINE_END + (SerializeAll(m[1..]) + text);
            && SerializeAll(m) + text == Line(m[0]) + rest
            && rest[2..] == SerializeAll(m[1..]) + text && LINE_END <= rest
  {
    hide Line;
  }

  lemma FirstLine(line: string, rest: string)
    requires NoBreak(line) && line + rest != "" && (rest == "" || LINE_END <= rest)
    ensures Lines(line + rest) == [line] + Lines(if rest == "" then "" else rest[2..])
  {
    var s := line + rest;
    if rest == "" {
      assert s == line;
      FindNone(line, LINE_END);
    } else {
      assert s == line + LINE_END + rest[2..];
      FirstBreak(line, rest[2..]);
      assert s[..|line|] == line && s[|line| + 2..] == rest[2..];
    }
  }

  /** So behind any well-formed headers, a line without a colon makes `create` fail, and a line that ends at
      its first colon makes it throw, whatever follows the line. */
  lemma BadLine(m: seq<Header>, line: string, rest: string)
    requires AllWellFormed(m) && NoBreak(line) && line + rest != ""
    requires rest == "" || LINE_END <= rest
    ensures ':' !in line ==> ParseAll(SerializeAll(m) + (line + rest)) == Invalid
    ensures EndsAtColon(line) ==> ParseAll(SerializeAll(m) + (line + rest)) == Throws
  {
    hide ParseAll, Lines, FirstBad, NoBreak;
    CreateFollowsLines(SerializeAll(m) + (line + rest));
    LinesBehind(m, line + rest);
    FirstLine(line, rest);
    BadCons(line, Lines(if rest == "" then "" else rest[2..]));
  }
}
