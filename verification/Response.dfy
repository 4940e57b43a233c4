/** HTTP responses: printing, and reading the head back. */
module Response {
  import opened Wrappers
  import opened Text
  import opened Headers
  import opened Message

  const UINT32_LIMIT := 0x1_0000_0000

  datatype Head = Head(version: string, code: nat, headers: seq<Header>)

  function StatusLine(version: string, code: nat): string {
    version + " " + Numeral(code, 10) + " OK"
  }

  function ContentLength(content: string): Header {
    Header("Content-Length", Numeral(|content|, 10))
  }

  /** What `create` makes of a text. */
  function ParseResponse(text: string): Outcome<Head> {
    match SplitHead(text)
    case None => Invalid
    case Some(s) =>
      var version := Before(s.line, FirstSpace(s.line));
      match Stoul(Middle(s.line, FirstSpace(s.line), SecondSpace(s.line)))
      case None => Throws
      case Some(code) =>
        match ParseAll(s.headers)
        case Ok(adds) => Ok(Head(version, code % UINT32_LIMIT, AddAll([], adds)))
        case Invalid => Invalid
        case Throws => Throws
  }

  class Response {
    var version: string
    var code: nat
    var content: string
    const headers: HeaderMap

    constructor ()
      ensures version == "HTTP/1.1" && code == 200 && content == ""
      ensures fresh(headers) && headers.headers == []
    {
      version, code, content := "HTTP/1.1", 200, "";
      headers := new HeaderMap();
    }

    constructor Of(version: string, code: nat, headers: HeaderMap)
      ensures this.version == version && this.code == code && content == "" && this.headers == headers
    {
      this.version, this.code, content := version, code, "";
      this.headers := headers;
    }

    /** `serialize`; the header it adds stays in the response. */
    method Serialize() returns (out: string)
      modifies headers
      ensures headers.headers == Insert(old(headers.headers), ContentLength(content))
      ensures out == Compose(StatusLine(version, code), headers.headers, content)
    {
      headers.Add("Content-Length", Numeral(|content|, 10));
      out := version + " " + Numeral(code, 10) + " OK" + LINE_END;
      var fields := headers.Serialize();
      out := out + fields;
      out := out + LINE_END;
      out := out + content;
    }

    /** `create`. */
    static method Create(text: string) returns (r: Response, outcome: Outcome<()>)
      ensures match ParseResponse(text)
              case Ok(head) =>
                && outcome == Ok(()) && r.content == ""
                && Head(r.version, r.code, r.headers.headers) == head
              case Invalid => outcome == Invalid
              case Throws => outcome == Throws
    {
      hide Find, ParseAll, AddAll, Stoul;
      r := new Response();
      var pos := Find(text, BLOCK_END, 0);
      var view := Before(text, pos);
      var httpPos := Find(view, LINE_END, 0);
      if httpPos.None? {
        return r, Invalid;
      }
      var line := view[..httpPos.value];
      var versionPos := FirstSpace(line);
      var codePos := SecondSpace(line);
      var code := Stoul(Middle(line, versionPos, codePos));
      if code.None? {
        return r, Throws;
      }
      var built, parsed := HeaderMap.Create(view[httpPos.value + 2..]);
      if parsed != Ok(()) {
        return r, parsed;
      }
      r := new Response.Of(Before(line, versionPos), code.value % UINT32_LIMIT, built);
      outcome := Ok(());
    }
  }

  lemma NumeralIsPlain(n: nat)
    ensures ' ' !in Numeral(n, 10) && '\r' !in Numeral(n, 10) && NoBreak(Numeral(n, 10))
  {
    NumeralCanonical(n, 10);
    NoReturn(Numeral(n, 10));
  }

  lemma StatusLineParts(version: string, code: nat)
    requires ' ' !in version && NoBreak(version) && code < UINT32_LIMIT
    ensures var line := StatusLine(version, code);
            && NoBreak(line)
            && Before(line, FirstSpace(line)) == version
            && Stoul(Middle(line, FirstSpace(line), SecondSpace(line))) == Some(code)
  {
    hide Numeral, Stoul;
    var digits := Numeral(code, 10);
    var line := StatusLine(version, code);
    NumeralIsPlain(code);
    ThreeWords(version, digits, "OK");
    assert line == version + " " + digits + " " + "OK";
    StoulReadsDecimal(code, "");
    assert digits + "" == digits;
    NoReturn(" " + digits + " OK");
    NoBreakJoin(version, " " + digits + " OK");
    assert line == version + (" " + digits + " OK");
  }

  lemma ContentLengthIsWellFormed(content: string)
    ensures WellFormed(ContentLength(content))
  {
    NumeralIsPlain(|content|);
    NoReturn("Content-Length");
  }

  lemma ParseComposed(version: string, code: nat, headers: seq<Header>, content: string)
    requires ' ' !in version && NoBreak(version) && code < UINT32_LIMIT
    requires headers != [] && Sorted(headers) && AllWellFormed(headers)
    ensures ParseResponse(Compose(StatusLine(version, code), headers, content)) == Ok(Head(version, code, headers))
  {
    hide SplitHead, ParseAll, Compose, Stoul, StatusLine, Trimmed, Sorted, AllWellFormed;
    StatusLineParts(version, code);
    SplitUndoesCompose(StatusLine(version, code), headers, content);
    HeaderMapRoundTrip(headers);
  }

  /** The round trip: reading a printed response gives back its version, its status, and all its headers
      together with the length of its content, for any content at all. */
  lemma ResponseRoundTrip(version: string, code: nat, headers: seq<Header>, content: string)
    requires ' ' !in version && NoBreak(version) && code < UINT32_LIMIT
    requires Sorted(headers) && AllWellFormed(headers)
    ensures var all := Insert(headers, ContentLength(content));
            ParseResponse(Compose(StatusLine(version, code), all, content)) == Ok(Head(version, code, all))
    ensures forall key :: Values(Insert(headers, ContentLength(content)), key)
                       == Values(headers, key) + if key == "Content-Length" then [Numeral(|content|, 10)] else []
  {
    hide ParseResponse, Compose, StatusLine, WellFormed, Insert, Values, Sorted;
    var all := Insert(headers, ContentLength(content));
    InsertKeepsSorted(headers, ContentLength(content));
    ContentLengthIsWellFormed(content);
    assert ContentLength(content) in all;
    ParseComposed(version, code, all, content);
    forall key
      ensures Values(all, key)
           == Values(headers, key) + if key == "Content-Length" then [Numeral(|content|, 10)] else []
    {
      ValuesOfInsert(headers, ContentLength(content), key);
    }
  }

  /** The text that `create` takes for the status. */
  function StatusWord(line: string): string {
    Middle(line, FirstSpace(line), SecondSpace(line))
  }

  /** What becomes of any text: reading it throws exactly if its head splits, and either no number that fits
      64 bits stands at the place of the status or the header lines throw; it succeeds exactly if the head
      splits, such a number stands there, and every header line is good. */
  lemma CreateResponseOutcome(text: string)
    ensures ParseResponse(text) == Throws <==>
              && SplitHead(text).Some?
              && var s := SplitHead(text).value;
                 var bad := FirstBad(Lines(s.headers));
                 !StartsWithNumber(StatusWord(s.line)) || (bad.Some? && EndsAtColon(bad.value))
    ensures ParseResponse(text).Ok? <==>
              && SplitHead(text).Some?
              && var s := SplitHead(text).value;
                 StartsWithNumber(StatusWord(s.line)) && FirstBad(Lines(s.headers)) == None
  {
    hide SplitHead, Stoul, ParseAll, Lines, FirstBad;
    if SplitHead(text).Some? {
      var s := SplitHead(text).value;
      StoulIff(StatusWord(s.line));
      CreateOutcome(s.headers);
    }
  }

  /** Reading any first line, in a message with well-formed header lines: the version is its first word, and the
      status is the number that its second word begins with, modulo 2^32, whatever the reason behind it. */
  lemma StatusLineReads(version: string, word: string, reason: string, headers: seq<Header>, content: string)
    requires ' ' !in version && ' ' !in word && NoBreak(version + " " + word + " " + reason)
    requires headers != [] && AllWellFormed(headers)
    ensures var r := ParseResponse(Compose(version + " " + word + " " + reason, headers, content));
            match Stoul(word)
            case None => r == Throws
            case Some(n) => r.Ok? && r.value.version == version && r.value.code == n % 0x1_0000_0000
                            && (Sorted(headers) ==> r.value.headers == headers)
                            && forall key :: Values(r.value.headers, key) == Values(headers, key)
  {
    hide SplitHead, ParseAll, Compose, Stoul, Trimmed, Sorted, AllWellFormed, AddAll, Values;
    var line := version + " " + word + " " + reason;
    ThreeWords(version, word, reason);
    SplitUndoesCompose(line, headers, content);
    ReadsHeaders(headers);
  }

  /** Without a second space the reason is missing; without any, the whole line is version and status. */
  lemma ShortStatusLineReads(version: string, word: string, headers: seq<Header>, content: string)
    requires ' ' !in version && ' ' !in word && NoBreak(version + " " + word) && NoBreak(word)
    requires headers != [] && AllWellFormed(headers)
    ensures var r := ParseResponse(Compose(version + " " + word, headers, content));
            match Stoul(word)
            case None => r == Throws
            case Some(n) => r == Ok(Head(version, n % 0x1_0000_0000, AddAll([], headers)))
    ensures var r := ParseResponse(Compose(word, headers, content));
            match Stoul(word)
            case None => r == Throws
            case Some(n) => r == Ok(Head(word, n % 0x1_0000_0000, AddAll([], headers)))
  {
    hide SplitHead, ParseAll, Compose, Stoul, Trimmed, Sorted, AllWellFormed, AddAll, Values;
    TwoWords(version, word);
    OneWord(word);
    SplitUndoesCompose(version + " " + word, headers, content);
    SplitUndoesCompose(word, headers, content);
    ReadsHeaders(headers);
  }

  /** The printed response: version, decimal status and "OK" in the first line, the headers and the decimal
      length of the content, one to a line, a blank line, and the content. */
  lemma ResponseText(version: string, code: nat, headers: seq<Header>, content: string)
    requires ' ' !in version && NoBreak(version) && code < UINT32_LIMIT && AllWellFormed(headers)
    ensures var all := Insert(headers, ContentLength(content));
            var text := Compose(StatusLine(version, code), all, content);
            && Find(text, "\r\n\r\n", 0).Some?
            && var n := Find(text, "\r\n\r\n", 0).value;
               && text[n + 4..] == content
               && var lines := Lines(text[..n] + "\r\n");
                  && |lines| == |all| + 1
                  && lines[0] == version + " " + Numeral(code, 10) + " OK"
                  && (forall i :: 0 <= i < |all| ==> lines[i + 1] == all[i].key + ": " + all[i].value)
    ensures ContentLength(content) == Header("Content-Length", Numeral(|content|, 10))
  {
    hide Insert, Find, Lines, WellFormed, Numeral, Compose, NoBreak;
    InsertHas(headers, ContentLength(content));
    ContentLengthIsWellFormed(content);
    StatusLineParts(version, code);
    ComposedLines(StatusLine(version, code), Insert(headers, ContentLength(content)), content);
  }

  lemma {:induction false} InsertHas(m: seq<Header>, h: Header)
    ensures forall e :: e in Insert(m, h) <==> e in m || e == h
  {
    hide Less;
    if m != [] {
      InsertHas(m[1..], h);
      assert m == [m[0]] + m[1..];
    }
  }

  /** A head without any header line is rejected. */
  lemma NoHeadersIsInvalid(line: string, content: string)
    requires NoBreak(line)
    ensures ParseResponse(Compose(line, [], content)) == Invalid
  {
    SplitUndoesCompose(line, [], content);
  }
}
