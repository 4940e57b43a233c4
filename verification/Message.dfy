/** What requests and responses share: a first line, header lines, a blank line, and the content. */
module Message {
  import opened Wrappers
  import opened Text
  import opened Headers

  const BLOCK_END := "\r\n\r\n"

  datatype Parts = Parts(line: string, headers: string)

  /** Cuts off the content, and the first line from the header lines; None if there is no break between
      the first line and the end of the head. */
  function SplitHead(text: string): Option<Parts> {
    var view := Before(text, Find(text, BLOCK_END, 0));
    var linePos := Find(view, LINE_END, 0);
    if linePos.None? then None
    else Some(Parts(view[..linePos.value], view[linePos.value + 2..]))
  }

  /** The text of a message. */
  function Compose(line: string, headers: seq<Header>, content: string): string {
    line + LINE_END + SerializeAll(headers) + LINE_END + content
  }

  lemma BlockStartsWithBreak(s: string, i: nat)
    ensures At(s, BLOCK_END, i) <==> At(s, LINE_END, i) && At(s, LINE_END, i + 2)
  {
    if At(s, BLOCK_END, i) {
      assert s[i..i + 2] == s[i..i + 4][..2] && s[i + 2..i + 4] == s[i..i + 4][2..];
    }
    if At(s, LINE_END, i) && At(s, LINE_END, i + 2) {
      assert s[i..i + 4] == s[i..i + 2] + s[i + 2..i + 4];
    }
  }

  /** The end of the head is not found inside a line, nor at its end if another line follows. */
  lemma NoBlockInLine(line: string, rest: string, i: nat)
    requires NoBreak(line) && i < |line| + 2 && (i == |line| ==> !At(rest, LINE_END, 0))
    ensures !At(line + LINE_END + rest, BLOCK_END, i)
  {
    var s := line + LINE_END + rest;
    BlockStartsWithBreak(s, i);
    FirstBreak(line, rest);
    AtLater(line + LINE_END, rest, LINE_END, 0);
    if i == |line| + 1 && i + 2 <= |s| {
      assert s[i..i + 2][0] == '\n';
    }
  }

  lemma LinesDoNotBreakFirst(h: Header, rest: string)
    requires WellFormed(h)
    ensures !At(Line(h) + LINE_END + rest, LINE_END, 0)
  {
    LineHasNoBreak(h);
    FirstBreak(Line(h), rest);
  }

  /** The end of the head is where the last header line ends. */
  lemma {:induction false} FindBlockEnd(line: string, headers: seq<Header>, content: string)
    requires NoBreak(line) && AllWellFormed(headers)
    ensures var n := |line| + |SerializeAll(headers)|;
            Find(Compose(line, headers, content), BLOCK_END, 0) == Some(n)
    decreases |headers|
  {
    hide At, NoBreak, Line;
    var text := Compose(line, headers, content);
    if headers == [] {
      assert text == line + LINE_END + LINE_END + content;
      BlockAtOnce(line, content);
    } else {
      var next, more := Line(headers[0]), SerializeAll(headers[1..]);
      var rest := Compose(next, headers[1..], content);
      assert headers[0] in headers;
      LineHasNoBreak(headers[0]);
      assert text == line + LINE_END + rest;
      assert rest == next + LINE_END + (more + LINE_END + content);
      LinesDoNotBreakFirst(headers[0], more + LINE_END + content);
      FindBlockEnd(next, headers[1..], content);
      BlockAfterLine(line, rest, |next| + |more|);
    }
  }

  lemma BlockAtOnce(line: string, content: string)
    requires NoBreak(line)
    ensures Find(line + LINE_END + LINE_END + content, BLOCK_END, 0) == Some(|line|)
  {
    var text := line + LINE_END + (LINE_END + content);
    assert text == line + LINE_END + LINE_END + content;
    forall i | 0 <= i < |line|
      ensures !At(text, BLOCK_END, i)
    {
      NoBlockInLine(line, LINE_END + content, i);
    }
    assert text[|line|..|line| + 4] == BLOCK_END;
    FindIs(text, BLOCK_END, 0, |line|);
  }

  lemma BlockAfterLine(line: string, rest: string, n: nat)
    requires NoBreak(line) && !At(rest, LINE_END, 0) && Find(rest, BLOCK_END, 0) == Some(n)
    ensures Find(line + LINE_END + rest, BLOCK_END, 0) == Some(|line| + 2 + n)
  {
    hide At, NoBreak, Find;
    var s := line + LINE_END + rest;
    AtLater(line + LINE_END, rest, BLOCK_END, n);
    forall i | 0 <= i < |line| + 2 + n
      ensures !At(s, BLOCK_END, i)
    {
      if i < |line| + 2 {
        NoBlockInLine(line, rest, i);
      } else {
        var j: nat := i - |line| - 2;
        AtLater(line + LINE_END, rest, BLOCK_END, j);
        assert !At(rest, BLOCK_END, j);
      }
    }
    FindIs(s, BLOCK_END, 0, |line| + 2 + n);
  }

  /** The head of a composed message splits into its first line and its header lines, whatever the
      content; but without any header line it does not split. */
  lemma SplitUndoesCompose(line: string, headers: seq<Header>, content: string)
    requires NoBreak(line) && AllWellFormed(headers)
    ensures SplitHead(Compose(line, headers, content))
         == if headers == [] then None else Some(Parts(line, Trimmed(headers)))
  {
    hide Find, WellFormed;
    FindBlockEnd(line, headers, content);
    FindNone(line, LINE_END);
    if headers == [] {
      assert Compose(line, headers, content)[..|line|] == line;
    } else {
      TrimmedIs(headers);
      hide Trimmed, SerializeAll;
      CutHead(line, Trimmed(headers), content);
      FirstBreak(line, Trimmed(headers));
    }
  }

  lemma CutHead(line: string, fields: string, content: string)
    ensures var text := line + LINE_END + (fields + LINE_END) + LINE_END + content;
            var view := line + LINE_END + fields;
            && text[..|view|] == view
            && view[..|line|] == line && view[|line| + 2..] == fields
  {
  }

  /** The middle of three words separated by spaces. */
  function Middle(line: string, first: Option<nat>, second: Option<nat>): string
    requires first.Some? ==> first.value < |line|
    requires second.Some? ==> first.Some? && first.value < second.value <= |line|
  {
    if second.Some? then line[first.value + 1..second.value] else line[Plus(first, 1)..]
  }

  /** The positions of the first two spaces of a line. */
  function FirstSpace(line: string): (p: Option<nat>)
    ensures p.Some? ==> p.value < |line|
  {
    Find(line, " ", 0)
  }

  function SecondSpace(line: string): (p: Option<nat>)
    ensures p.Some? ==> FirstSpace(line).Some? && FirstSpace(line).value < p.value < |line|
  {
    Find(line, " ", Plus(FirstSpace(line), 1))
  }

  lemma ThreeWords(a: string, b: string, c: string)
    requires ' ' !in a && ' ' !in b
    ensures var line := a + " " + b + " " + c;
            && FirstSpace(line) == Some(|a|) && SecondSpace(line) == Some(|a| + 1 + |b|)
            && line[..|a|] == a && Middle(line, FirstSpace(line), SecondSpace(line)) == b
            && line[|a| + 1 + |b| + 1..] == c
  {
    var line := a + " " + b + " " + c;
    hide Find;
    assert line == a + [' '] + (b + " " + c);
    FindChar(a, ' ', b + " " + c);
    var n := |a| + 1 + |b|;
    assert line[n..n + 1] == " ";
    forall i | |a| + 1 <= i < n
      ensures !At(line, " ", i)
    {
      assert line[i..i + 1][0] == b[i - |a| - 1];
    }
    FindIs(line, " ", |a| + 1, n);
  }

  lemma TwoWords(a: string, b: string)
    requires ' ' !in a && ' ' !in b
    ensures var line := a + " " + b;
            && FirstSpace(line) == Some(|a|) && SecondSpace(line) == None
            && line[..|a|] == a && Middle(line, FirstSpace(line), None) == b
  {
    var line := a + " " + b;
    assert line == a + [' '] + b;
    FindChar(a, ' ', b);
    forall i: nat | |a| + 1 <= i
      ensures !At(line, " ", i)
    {
      if i < |line| {
        assert line[i..i + 1][0] == b[i - |a| - 1];
      }
    }
  }

  lemma OneWord(line: string)
    requires ' ' !in line
    ensures FirstSpace(line) == None && SecondSpace(line) == None && Middle(line, None, None) == line
  {
    NoChar(line, ' ');
  }

  /** A composed message is its first line, then the header lines, then a blank line, then its content: the
      content is what follows the first blank line. */
  lemma ComposedParts(line: string, headers: seq<Header>, content: string)
    requires NoBreak(line) && AllWellFormed(headers)
    ensures var text := Compose(line, headers, content);
            && Find(text, "\r\n\r\n", 0).Some?
            && var n := Find(text, "\r\n\r\n", 0).value;
               && text[n + 4..] == content
               && text[..n] + "\r\n" == line + "\r\n" + SerializeAll(headers)
  {
    hide Find, SerializeAll;
    var text, n := Compose(line, headers, content), |line| + |SerializeAll(headers)|;
    FindBlockEnd(line, headers, content);
    var head := line + LINE_END + SerializeAll(headers);
    assert text == head + (LINE_END + content) && |head| == n + 2;
    BlockStartsWithBreak(text, n);
    assert text[n..n + 2] == LINE_END;
    assert text[..n + 2] == head && text[..n + 2] == text[..n] + text[n..n + 2];
    assert text[n + 4..] == content;
  }

  /** So its lines up to the blank one are the first line and one for each header. */
  lemma ComposedLines(line: string, headers: seq<Header>, content: string)
    requires NoBreak(line) && AllWellFormed(headers)
    ensures var text := Compose(line, headers, content);
            && Find(text, "\r\n\r\n", 0).Some?
            && var n := Find(text, "\r\n\r\n", 0).value;
               && text[n + 4..] == content
               && var lines := Lines(text[..n] + "\r\n");
                  && |lines| == |headers| + 1 && lines[0] == line
                  && (forall i :: 0 <= i < |headers| ==> lines[i + 1] == headers[i].key + ": " + headers[i].value)
  {
    hide Find, SerializeAll, Lines, WellFormed, NoBreak, Compose;
    var fields := SerializeAll(headers);
    ComposedParts(line, headers, content);
    PrintedLines(headers);
    assert line + "\r\n" + fields == line + (LINE_END + fields) && (LINE_END + fields)[2..] == fields;
    FirstLine(line, LINE_END + fields);
  }
}
