/** HTTP requests: printing, and reading back, with the parameters in the query of the path. */
module Request {
  import opened Wrappers
  import opened Text
  import opened Encoding
  import opened Headers
  import opened Message

  // ---------------------------------------------------------------------------------------
  // Methods

  datatype Method = GET | HEAD | POST | PUT | DELETE | TRACE | OPTIONS | CONNECT | PATCH

  function MethodName(m: Method): string {
    match m
    case GET => "GET"
    case HEAD => "HEAD"
    case POST => "POST"
    case PUT => "PUT"
    case DELETE => "DELETE"
    case TRACE => "TRACE"
    case OPTIONS => "OPTIONS"
    case CONNECT => "CONNECT"
    case PATCH => "PATCH"
  }

  /** An unknown name counts as GET. */
  function MethodOf(name: string): Method {
    if name == "GET" then GET
    else if name == "HEAD" then HEAD
    else if name == "POST" then POST
    else if name == "PUT" then PUT
    else if name == "DELETE" then DELETE
    else if name == "TRACE" then TRACE
    else if name == "OPTIONS" then OPTIONS
    else if name == "CONNECT" then CONNECT
    else if name == "PATCH" then PATCH
    else GET
  }

  /** Every method is found under its name; any other text is taken for GET. */
  lemma MethodRoundTrip(m: Method, name: string)
    ensures MethodOf(MethodName(m)) == m
    ensures MethodOf(name) == m && m != GET ==> name == MethodName(m)
    ensures ' ' !in MethodName(m) && '\r' !in MethodName(m)
    ensures MethodOf("GET") == GET && MethodOf("HEAD") == HEAD && MethodOf("POST") == POST && MethodOf("PUT") == PUT
    ensures MethodOf("DELETE") == DELETE && MethodOf("TRACE") == TRACE && MethodOf("OPTIONS") == OPTIONS
    ensures MethodOf("CONNECT") == CONNECT && MethodOf("PATCH") == PATCH
  {
    assert |MethodName(HEAD)| == 4 && |MethodName(POST)| == 4 && |MethodName(PUT)| == 3;
    assert MethodName(HEAD)[0] == 'H' && MethodName(POST)[0] == 'P';
    assert MethodName(PUT)[0] == 'P' && MethodName(GET)[0] == 'G';
    assert |MethodName(DELETE)| == 6 && |MethodName(TRACE)| == 5 && |MethodName(OPTIONS)| == 7;
    assert |MethodName(CONNECT)| == 7 && |MethodName(PATCH)| == 5;
    assert MethodName(TRACE)[0] == 'T' && MethodName(PATCH)[0] == 'P';
    assert MethodName(CONNECT)[0] == 'C' && MethodName(OPTIONS)[0] == 'O';
  }

  // ---------------------------------------------------------------------------------------
  // The query

  type Parameters = map<string, string>

  /** The key of a segment is what precedes its first equals sign, undecoded. */
  function KeyOf(segment: string): string {
    Before(segment, Find(segment, "=", 0))
  }

  function ValueOf(segment: string): string {
    match Find(segment, "=", 0)
    case None => ""
    case Some(i) => segment[i + 1..]
  }

  function Assign(params: Parameters, segment: string): Parameters {
    params[KeyOf(segment) := UrlDecode(ValueOf(segment))]
  }

  /** The query loop of `create`. */
  function ParseQuery(args: string, params: Parameters): Parameters
    decreases |args|
  {
    if args == "" then params
    else
      var separator := Find(args, "&", 0);
      var p := Assign(params, Before(args, separator));
      if separator.None? then p else ParseQuery(args[separator.value + 1..], p)
  }

  /** The segments of a query: its pieces between the ampersands, without an empty one at the end. */
  function Segments(args: string): seq<string> {
    var pieces := Split(args, '&');
    if pieces[|pieces| - 1] == "" then pieces[..|pieces| - 1] else pieces
  }

  function AssignAll(params: Parameters, segments: seq<string>): Parameters {
    if segments == [] then params
    else Assign(AssignAll(params, segments[..|segments| - 1]), segments[|segments| - 1])
  }

  lemma {:induction false} AssignAllFirst(params: Parameters, s: string, rest: seq<string>)
    ensures AssignAll(params, [s] + rest) == AssignAll(Assign(params, s), rest)
  {
    hide Assign;
    if rest == [] {
      assert [s] + rest == [s] && [s][..0] == [];
    } else {
      var init := rest[..|rest| - 1];
      assert ([s] + rest)[..|rest|] == [s] + init;
      AssignAllFirst(params, s, init);
    }
  }

  lemma {:induction false} QueryIsSegments(args: string, params: Parameters)
    ensures ParseQuery(args, params) == AssignAll(params, Segments(args))
    decreases |args|
  {
    hide Segments, Assign, Find, Split, AssignAll;
    if args == "" {
      NoSegments(params);
    } else {
      match Find(args, "&", 0)
      case None => OneSegment(args, params);
      case Some(i) =>
        var rest, p := args[i + 1..], Assign(params, args[..i]);
        SegmentsCons(args, i);
        QueryIsSegments(rest, p);
        AssignAllFirst(params, args[..i], Segments(rest));
    }
  }

  lemma NoSegments(params: Parameters)
    ensures Segments("") == [] && AssignAll(params, []) == params
  {
    NoChar("", '&');
    assert Split("", '&') == [""];
  }

  lemma OneSegment(args: string, params: Parameters)
    requires args != "" && Find(args, "&", 0) == None
    ensures AssignAll(params, Segments(args)) == Assign(params, args)
  {
    hide Find, Assign;
    assert Segments(args) == [args] && [args][..0] == [];
  }

  lemma SegmentsCons(args: string, i: nat)
    requires Find(args, "&", 0) == Some(i)
    ensures Segments(args) == [args[..i]] + Segments(args[i + 1..])
  {
    hide Find;
    var pieces, more := Split(args, '&'), Split(args[i + 1..], '&');
    assert pieces == [args[..i]] + more;
    assert pieces[..|pieces| - 1] == [args[..i]] + more[..|more| - 1];
  }

  /** The segments make up the query, but for an ampersand at its end; none contains one. */
  lemma SegmentsMakeQuery(args: string)
    ensures forall s <- Segments(args) :: '&' !in s
    ensures args == Join(Segments(args), '&') || args == Join(Segments(args), '&') + "&"
    ensures var segments := Segments(args);
            segments != [] && segments[|segments| - 1] == "" ==> args == Join(segments, '&') + "&"
  {
    hide Split;
    JoinUndoesSplit(args, '&');
    var pieces := Split(args, '&');
    if pieces[|pieces| - 1] == "" {
      var init := pieces[..|pieces| - 1];
      assert pieces == init + [""];
      if init == [] {
        assert pieces == [""];
      } else {
        JoinSnoc(init);
      }
    }
  }

  lemma {:induction false} JoinSnoc(pieces: seq<string>)
    requires pieces != []
    ensures Join(pieces + [""], '&') == Join(pieces, '&') + "&"
  {
    var all := pieces + [""];
    assert all[0] == pieces[0] && all[1..] == pieces[1..] + [""];
    if |pieces| == 1 {
      assert all[1..] == [""];
    } else {
      JoinSnoc(pieces[1..]);
    }
  }

  /** The key of a segment ends at its first equals sign, and the value is all behind that. */
  lemma SegmentParts(key: string, value: string)
    requires '=' !in key
    ensures KeyOf(key + "=" + value) == key && ValueOf(key + "=" + value) == value
    ensures KeyOf(key) == key && ValueOf(key) == ""
  {
    FindChar(key, '=', value);
    assert key + ['='] + value == key + "=" + value;
    NoChar(key, '=');
  }

  lemma {:induction false} LastAssignmentWins(segments: seq<string>, key: string)
    ensures var m := AssignAll(map[], segments);
            && (key in m <==> exists s <- segments :: KeyOf(s) == key)
            && (forall i :: 0 <= i < |segments| && KeyOf(segments[i]) == key
                            && (forall j :: i < j < |segments| ==> KeyOf(segments[j]) != key)
                            ==> key in m && m[key] == UrlDecode(ValueOf(segments[i])))
  {
    hide KeyOf, ValueOf, UrlDecode;
    if segments != [] {
      var init, last := segments[..|segments| - 1], segments[|segments| - 1];
      LastAssignmentWins(init, key);
      assert segments == init + [last];
      assert forall s :: s in segments <==> s in init || s == last;
      forall i | 0 <= i < |segments| && KeyOf(segments[i]) == key
                 && (forall j :: i < j < |segments| ==> KeyOf(segments[j]) != key)
        ensures key in AssignAll(map[], segments) && AssignAll(map[], segments)[key] == UrlDecode(ValueOf(segments[i]))
      {
        if i < |init| {
          assert segments[i] == init[i] && KeyOf(segments[|segments| - 1]) != key;
          assert forall j :: i < j < |init| ==> init[j] == segments[j];
        }
      }
    }
  }

  /** Any query is read as its segments: a key is there if a segment has it, with the decoded value of the
      last such segment. */
  lemma QueryIsLastWins(args: string, key: string)
    ensures var m, segments := ParseQuery(args, map[]), Segments(args);
            && (key in m <==> exists s <- segments :: KeyOf(s) == key)
            && (forall i :: 0 <= i < |segments| && KeyOf(segments[i]) == key
                            && (forall j :: i < j < |segments| ==> KeyOf(segments[j]) != key)
                            ==> key in m && m[key] == UrlDecode(ValueOf(segments[i])))
  {
    QueryIsSegments(args, map[]);
    LastAssignmentWins(Segments(args), key);
  }

  // ---------------------------------------------------------------------------------------
  // Requests

  datatype Data = Data(verb: Method, path: string, version: string, headers: seq<Header>, parameters: Parameters)

  /** The path without its query, and the parameters of the query. */
  function CutQuery(path: string): (string, Parameters) {
    match Find(path, "?", 0)
    case None => (path, map[])
    case Some(i) => (path[..i], ParseQuery(path[i + 1..], map[]))
  }

  /** What `create` makes of a text. */
  function ParseRequest(text: string): Outcome<Data> {
    match SplitHead(text)
    case None => Invalid
    case Some(s) =>
      var first, second := FirstSpace(s.line), SecondSpace(s.line);
      match ParseAll(s.headers)
      case Invalid => Invalid
      case Throws => Throws
      case Ok(adds) =>
        var (path, parameters) := CutQuery(Middle(s.line, first, second));
        Ok(Data(MethodOf(Before(s.line, first)), path, s.line[Plus(second, 1)..], AddAll([], adds), parameters))
  }

  function QueryText(order: seq<string>, parameters: Parameters): string
    requires forall k <- order :: k in parameters
  {
    if order == [] then ""
    else QueryText(order[..|order| - 1], parameters) + Pair(order[|order| - 1], parameters)
  }

  function Pair(key: string, parameters: Parameters): string
    requires key in parameters
  {
    UrlEncode(key) + "=" + UrlEncode(parameters[key])
  }

  function RequestLine(verb: Method, target: string, version: string): string {
    MethodName(verb) + " " + target + " " + version
  }

  /** The path, and the parameters if there are any, in some order of the unordered map. */
  function Target(path: string, order: seq<string>, parameters: Parameters): string
    requires forall k <- order :: k in parameters
  {
    path + if order == [] then "" else "?" + QueryText(order, parameters)
  }

  /** An enumeration of the keys. */
  ghost predicate IsOrder(order: seq<string>, parameters: Parameters) {
    && (forall k :: k in order <==> k in parameters)
    && (forall i, j :: 0 <= i < j < |order| ==> order[i] != order[j])
  }

  class Request {
    var verb: Method
    var version: string
    var path: string
    var parameters: Parameters
    const headers: HeaderMap

    constructor ()
      ensures verb == GET && version == "HTTP/1.1" && path == "" && parameters == map[]
      ensures fresh(headers) && headers.headers == []
    {
      verb, version, path, parameters := GET, "HTTP/1.1", "", map[];
      headers := new HeaderMap();
    }

    constructor Of(verb: Method, path: string, version: string, headers: HeaderMap)
      ensures this.verb == verb && this.path == path && this.version == version
      ensures this.headers == headers && parameters == map[]
    {
      this.verb, this.path, this.version := verb, path, version;
      this.headers, parameters := headers, map[];
    }

    /** `serialize`; `order` is the order in which the parameters were met. */
    method Serialize() returns (out: string)
      ensures exists order :: IsOrder(order, parameters)
                && out == Compose(RequestLine(verb, Target(path, order, parameters), version), headers.headers, "")
    {
      ghost var order: seq<string> := [];
      hide MethodName, SerializeAll, QueryText;
      out := MethodName(verb) + " " + path;
      if |parameters| > 0 {
        out := out + "?";
        var query := SerializeQuery();
        order :| IsOrder(order, parameters) && query == QueryText(order, parameters);
        out := out + query;
        assert order != [] by {
          var k :| k in parameters;
          assert k in order;
        }
      } else {
        assert parameters == map[];
      }
      ghost var target := Target(path, order, parameters);
      assert out == MethodName(verb) + " " + target;
      out := out + " " + version + LINE_END;
      var fields := headers.Serialize();
      out := out + fields;
      out := out + LINE_END;
      assert out == Compose(RequestLine(verb, target, version), headers.headers, "");
    }

    /** The loop of `serialize` over the parameters: each pair, with nothing in between. */
    method SerializeQuery() returns (out: string)
      ensures exists order :: IsOrder(order, parameters) && out == QueryText(order, parameters)
    {
      hide UrlEncode;
      out := "";
      ghost var order: seq<string> := [];
      var left := parameters.Keys;
      while left != {}
        invariant left <= parameters.Keys
        invariant forall k :: k in order <==> k in parameters.Keys - left
        invariant forall i, j :: 0 <= i < j < |order| ==> order[i] != order[j]
        invariant out == QueryText(order, parameters)
        decreases |left|
      {
        var key :| key in left;
        var a := Encode(key);
        var b := Encode(parameters[key]);
        assert (order + [key])[..|order|] == order;
        assert forall i :: 0 <= i < |order| ==> order[i] in order;
        order := order + [key];
        out := out + (a + "=" + b);
        left := left - {key};
      }
    }

    /** `create`. */
    static method Create(text: string) returns (r: Request, outcome: Outcome<()>)
      ensures fresh(r)
      ensures match ParseRequest(text)
              case Ok(data) =>
                outcome == Ok(()) && Data(r.verb, r.path, r.version, r.headers.headers, r.parameters) == data
              case Invalid => outcome == Invalid
              case Throws => outcome == Throws
    {
      hide Find, ParseAll, AddAll, ParseQuery;
      r := new Request();
      var pos := Find(text, BLOCK_END, 0);
      var view := Before(text, pos);
      var httpPos := Find(view, LINE_END, 0);
      if httpPos.None? {
        return r, Invalid;
      }
      var line := view[..httpPos.value];
      var first, second := FirstSpace(line), SecondSpace(line);
      var built, parsed := HeaderMap.Create(view[httpPos.value + 2..]);
      if parsed != Ok(()) {
        return r, parsed;
      }
      r := new Request.Of(MethodOf(Before(line, first)), Middle(line, first, second), line[Plus(second, 1)..], built);
      r.ReadQuery();
      outcome := Ok(());
    }

    /** The end of `create`: moves the query of the path into the parameters. */
    method ReadQuery()
      requires parameters == map[]
      modifies `path, `parameters
      ensures (path, parameters) == CutQuery(old(path))
    {
      hide Assign;
      var argDelim := Find(path, "?", 0);
      if argDelim.Some? {
        var args := path[argDelim.value + 1..];
        ghost var goal := ParseQuery(args, map[]);
        while args != ""
          invariant path == old(path) && ParseQuery(args, parameters) == goal
          decreases |args|
        {
          var separatorPos := Find(args, "&", 0);
          var data := Before(args, separatorPos);
          parameters := Assign(parameters, data);
          args := args[Plus(separatorPos, 1)..];
          if separatorPos.None? {
            break;
          }
        }
        assert parameters == goal;
        path := path[..argDelim.value];
      }
    }
  }

  /** What becomes of any text: reading it throws exactly if its head splits and its header lines throw, and
      succeeds exactly if its head splits and every header line is good. */
  lemma CreateRequestOutcome(text: string)
    ensures ParseRequest(text) == Throws <==>
              && SplitHead(text).Some?
              && var bad := FirstBad(Lines(SplitHead(text).value.headers)); bad.Some? && EndsAtColon(bad.value)
    ensures ParseRequest(text).Ok? <==>
              SplitHead(text).Some? && FirstBad(Lines(SplitHead(text).value.headers)) == None
  {
    hide SplitHead, ParseAll, Lines, FirstBad;
    if SplitHead(text).Some? {
      CreateOutcome(SplitHead(text).value.headers);
    }
  }

  // ---------------------------------------------------------------------------------------
  // The round trip

  /** Paths and versions that fit into a request line, and bytes in keys and values. */
  ghost predicate Printable(d: Data) {
    && ' ' !in d.path && '?' !in d.path && NoBreak(d.path) && NoBreak(d.version)
    && Sorted(d.headers) && AllWellFormed(d.headers)
    && (forall k <- d.parameters :: IsBytes(k) && IsBytes(d.parameters[k]))
  }

  predicate Plain(s: string) {
    forall c <- s :: Unreserved(c) || c == '%' || c == '\0' || c == '='
  }

  lemma EncodedIsPlain(s: string)
    requires IsBytes(s)
    ensures Plain(UrlEncode(s)) && '=' !in UrlEncode(s) && |UrlEncode(s)| > |s|
  {
    var t := UrlEncode(s);
    EncodeIsPercentCoded(s);
    PercentCodedChars(t[..|t| - 1]);
    assert t == t[..|t| - 1] + ['\0'];
  }

  lemma {:induction false} QueryIsPlain(order: seq<string>, parameters: Parameters)
    requires forall k <- order :: k in parameters && IsBytes(k) && IsBytes(parameters[k])
    ensures Plain(QueryText(order, parameters))
  {
    if order != [] {
      var init, last := order[..|order| - 1], order[|order| - 1];
      assert last in order && forall k <- init :: k in order;
      QueryIsPlain(init, parameters);
      EncodedIsPlain(last);
      EncodedIsPlain(parameters[last]);
    }
  }

  /** What the decoder makes of printed pairs: keys, equals signs and values, with a NUL behind each key
      and each value. */
  function Smear(order: seq<string>, parameters: Parameters): string
    requires forall k <- order :: k in parameters
  {
    if order == [] then ""
    else
      var last := order[|order| - 1];
      Smear(order[..|order| - 1], parameters) + last + "\0=" + parameters[last] + "\0"
  }

  lemma {:induction false} QueryFirst(order: seq<string>, parameters: Parameters)
    requires order != [] && forall k <- order :: k in parameters
    ensures QueryText(order, parameters) == Pair(order[0], parameters) + QueryText(order[1..], parameters)
  {
    hide Pair;
    var init, last := order[..|order| - 1], order[|order| - 1];
    if init == [] {
      assert order == [last] && order[1..] == [];
    } else {
      QueryFirst(init, parameters);
      assert order[1..][..|order| - 2] == init[1..] && order[1..][|order| - 2] == last;
    }
  }

  lemma DecodeCoded(s: string, rest: string)
    requires IsBytes(s)
    ensures UrlDecode(UrlEncode(s) + rest) == s + "\0" + UrlDecode(rest)
  {
    assert UrlEncode(s) + rest == EscapeAll(s) + ("\0" + rest);
    DecodeEscaped(s, "\0" + rest);
    assert ("\0" + rest)[1..] == rest;
  }

  lemma DecodeEquals(rest: string)
    ensures UrlDecode("=" + rest) == "=" + UrlDecode(rest)
  {
    assert ("=" + rest)[1..] == rest;
  }

  lemma {:induction false} DecodeQuery(order: seq<string>, parameters: Parameters, rest: string)
    requires forall k <- order :: k in parameters && IsBytes(k) && IsBytes(parameters[k])
    ensures UrlDecode(QueryText(order, parameters) + rest) == Smear(order, parameters) + UrlDecode(rest)
  {
    hide UrlDecode, UrlEncode;
    if order == [] {
      assert QueryText(order, parameters) + rest == rest;
    } else {
      var init, last := order[..|order| - 1], order[|order| - 1];
      assert last in order && forall k <- init :: k in order;
      var value := UrlEncode(parameters[last]) + rest;
      assert QueryText(order, parameters) + rest == QueryText(init, parameters) + (UrlEncode(last) + ("=" + value));
      DecodeQuery(init, parameters, UrlEncode(last) + ("=" + value));
      DecodePair(last, parameters[last], rest);
    }
  }

  lemma DecodePair(key: string, value: string, rest: string)
    requires IsBytes(key) && IsBytes(value)
    ensures UrlDecode(UrlEncode(key) + ("=" + (UrlEncode(value) + rest)))
         == key + "\0=" + value + "\0" + UrlDecode(rest)
  {
    hide UrlDecode, UrlEncode;
    DecodeCoded(key, "=" + (UrlEncode(value) + rest));
    DecodeEquals(UrlEncode(value) + rest);
    DecodeCoded(value, rest);
    assert key + "\0" + ("=" + (value + "\0" + UrlDecode(rest))) == key + "\0=" + value + "\0" + UrlDecode(rest);
  }

  /** As no ampersand separates the pairs, the query is read as one parameter: its key is the coded form of
      the first key, with the NUL of the encoder, and its value is the first value, a NUL, and all other
      pairs run together. */
  lemma QueryReadsOneKey(order: seq<string>, parameters: Parameters)
    requires order != [] && forall k <- order :: k in parameters && IsBytes(k) && IsBytes(parameters[k])
    ensures ParseQuery(QueryText(order, parameters), map[])
         == map[UrlEncode(order[0]) := parameters[order[0]] + "\0" + Smear(order[1..], parameters)]
  {
    hide QueryText, UrlEncode, UrlDecode, Plain, Smear;
    assert order[0] in order && forall k <- order[1..] :: k in order;
    var q, key := QueryText(order, parameters), UrlEncode(order[0]);
    var value := UrlEncode(parameters[order[0]]) + QueryText(order[1..], parameters);
    QueryFirst(order, parameters);
    assert q == key + ['='] + value;
    QueryIsPlain(order, parameters);
    EncodedIsPlain(order[0]);
    PlainIsSafe(q);
    OneParameter(q, key, value);
    DecodeCoded(parameters[order[0]], QueryText(order[1..], parameters));
    DecodeQuery(order[1..], parameters, "");
    DecodeNothing();
    assert QueryText(order[1..], parameters) + "" == QueryText(order[1..], parameters);
    assert Smear(order[1..], parameters) + "" == Smear(order[1..], parameters);
  }

  lemma OneParameter(q: string, key: string, value: string)
    requires '&' !in q && '=' !in key && q == key + ['='] + value
    ensures ParseQuery(q, map[]) == map[key := UrlDecode(value)]
  {
    hide UrlDecode;
    NoChar(q, '&');
    FindChar(key, '=', value);
    assert q[..|key|] == key && q[|key| + 1..] == value;
  }

  lemma PlainIsSafe(s: string)
    requires Plain(s)
    ensures ' ' !in s && '?' !in s && '\r' !in s && '&' !in s
  {
  }

  lemma TargetFits(d: Data, order: seq<string>)
    requires Printable(d) && IsOrder(order, d.parameters)
    ensures var target := Target(d.path, order, d.parameters);
            ' ' !in target && NoBreak(target)
  {
    hide UrlEncode, QueryText, NoBreak;
    if order != [] {
      var query := QueryText(order, d.parameters);
      QueryIsPlain(order, d.parameters);
      PlainIsSafe(query);
      NoReturn("?" + query);
      NoBreakJoin(d.path, "?" + query);
    } else {
      assert d.path + "" == d.path;
    }
  }

  lemma RequestLineFits(d: Data, target: string)
    requires ' ' !in target && NoBreak(target) && NoBreak(d.version)
    ensures var line := RequestLine(d.verb, target, d.version);
            && NoBreak(line)
            && MethodOf(Before(line, FirstSpace(line))) == d.verb
            && Middle(line, FirstSpace(line), SecondSpace(line)) == target
            && line[Plus(SecondSpace(line), 1)..] == d.version
  {
    hide NoBreak;
    var name := MethodName(d.verb);
    MethodRoundTrip(d.verb, name);
    ThreeWords(name, target, d.version);
    NoReturn(name + " ");
    NoReturn(" ");
    NoBreakJoin(name + " ", target);
    NoBreakJoin(name + " " + target, " ");
    NoBreakJoin(name + " " + target + " ", d.version);
  }

  /** With parameters, the query is never read back as it was. */
  lemma CutQueryOfTarget(d: Data, order: seq<string>)
    requires Printable(d) && IsOrder(order, d.parameters)
    ensures CutQuery(Target(d.path, order, d.parameters)) == (d.path, d.parameters) <==> d.parameters == map[]
  {
    hide UrlEncode, QueryText;
    var target := Target(d.path, order, d.parameters);
    if order == [] {
      assert target == d.path;
      NoChar(d.path, '?');
      assert d.parameters.Keys == {};
    } else {
      var query := QueryText(order, d.parameters);
      assert target == d.path + ['?'] + query;
      FindChar(d.path, '?', query);
      assert target[|d.path| + 1..] == query;
      assert order[0] in order;
      QueryReadsOneKey(order, d.parameters);
      EncodedIsPlain(order[0]);
      assert order[0] in d.parameters.Keys && order[0] != UrlEncode(order[0]);
    }
  }

  /** The round trip: a printed request reads back as it was exactly if it has a header and has no
      parameters. */
  lemma RequestRoundTripIff(d: Data, order: seq<string>)
    requires Printable(d) && IsOrder(order, d.parameters)
    ensures var line := RequestLine(d.verb, Target(d.path, order, d.parameters), d.version);
            ParseRequest(Compose(line, d.headers, "")) == Ok(d) <==> d.headers != [] && d.parameters == map[]
  {
    hide Compose, RequestLine, SplitHead, ParseAll, CutQuery, Target, AddAll, Trimmed;
    var target := Target(d.path, order, d.parameters);
    var line := RequestLine(d.verb, target, d.version);
    TargetFits(d, order);
    RequestLineFits(d, target);
    SplitUndoesCompose(line, d.headers, "");
    if d.headers != [] {
      HeaderMapRoundTrip(d.headers);
      CutQueryOfTarget(d, order);
    }
  }

  // ---------------------------------------------------------------------------------------
  // Reading any request

  /** What is read in a target without a question mark, and in one with. */
  lemma TargetReads(path: string, query: string)
    requires '?' !in path
    ensures CutQuery(path) == (path, map[])
    ensures CutQuery(path + "?" + query) == (path, ParseQuery(query, map[]))
  {
    hide ParseQuery;
    NoChar(path, '?');
    var target := path + "?" + query;
    assert target == path + ['?'] + query;
    FindChar(path, '?', query);
    assert target[..|path|] == path && target[|path| + 1..] == query;
  }

  /** Reading any first line of three words: method, target and version. */
  lemma RequestLineReads(name: string, target: string, version: string, headers: seq<Header>, content: string)
    requires ' ' !in name && ' ' !in target && NoBreak(name + " " + target + " " + version)
    requires headers != [] && AllWellFormed(headers)
    ensures var (path, parameters) := CutQuery(target);
            var r := ParseRequest(Compose(name + " " + target + " " + version, headers, content));
            r == Ok(Data(MethodOf(name), path, version, AddAll([], headers), parameters))
  {
    hide SplitHead, ParseAll, Compose, Trimmed, Sorted, AllWellFormed, AddAll, Values, CutQuery, MethodOf;
    ThreeWords(name, target, version);
    SplitUndoesCompose(name + " " + target + " " + version, headers, content);
    ReadsHeaders(headers);
  }

  /** Without a second space the whole line counts as the version; without any, as everything. */
  lemma ShortRequestLineReads(name: string, target: string, headers: seq<Header>, content: string)
    requires ' ' !in name && ' ' !in target && NoBreak(name + " " + target) && NoBreak(target)
    requires headers != [] && AllWellFormed(headers)
    ensures var (path, parameters) := CutQuery(target);
            && ParseRequest(Compose(name + " " + target, headers, content))
            == Ok(Data(MethodOf(name), path, name + " " + target, AddAll([], headers), parameters))
            && ParseRequest(Compose(target, headers, content))
            == Ok(Data(MethodOf(target), path, target, AddAll([], headers), parameters))
  {
    hide SplitHead, ParseAll, Compose, Trimmed, Sorted, AllWellFormed, AddAll, Values, CutQuery, MethodOf;
    TwoWords(name, target);
    OneWord(target);
    SplitUndoesCompose(name + " " + target, headers, content);
    SplitUndoesCompose(target, headers, content);
    ReadsHeaders(headers);
  }

  /** A request with any query: reading it gives its method, its path, its version and its headers, and for its
      parameters the last-wins map of the segments of the query. */
  lemma QueryOfRequestReads(verb: Method, path: string, query: string, version: string, headers: seq<Header>)
    requires '?' !in path && ' ' !in path && ' ' !in query
    requires NoBreak(path + "?" + query) && NoBreak(version) && headers != [] && AllWellFormed(headers)
    ensures var r := ParseRequest(Compose(RequestLine(verb, path + "?" + query, version), headers, ""));
            && r.Ok? && r.value.verb == verb && r.value.path == path && r.value.version == version
            && (Sorted(headers) ==> r.value.headers == headers)
            && (forall key :: Values(r.value.headers, key) == Values(headers, key))
            && var segments := Segments(query);
               && (forall key :: key in r.value.parameters <==> exists s <- segments :: KeyOf(s) == key)
               && (forall i :: 0 <= i < |segments|
                               && (forall j :: i < j < |segments| ==> KeyOf(segments[j]) != KeyOf(segments[i]))
                               ==> r.value.parameters[KeyOf(segments[i])] == UrlDecode(ValueOf(segments[i])))
  {
    hide ParseRequest, Compose, CutQuery, ParseQuery, Segments, KeyOf, ValueOf, UrlDecode, AddAll, Values, Sorted;
    var target, name := path + "?" + query, MethodName(verb);
    RequestLineFits(Data(verb, path, version, headers, map[]), target);
    MethodRoundTrip(verb, name);
    RequestLineReads(name, target, version, headers, "");
    TargetReads(path, query);
    ReadsHeaders(headers);
    forall key
      ensures key in ParseQuery(query, map[]) <==> exists s <- Segments(query) :: KeyOf(s) == key
    {
      QueryIsLastWins(query, key);
    }
    var segments := Segments(query);
    forall i | 0 <= i < |segments| && (forall j :: i < j < |segments| ==> KeyOf(segments[j]) != KeyOf(segments[i]))
      ensures KeyOf(segments[i]) in ParseQuery(query, map[])
      ensures ParseQuery(query, map[])[KeyOf(segments[i])] == UrlDecode(ValueOf(segments[i]))
    {
      QueryIsLastWins(query, KeyOf(segments[i]));
    }
  }

  /** A printed request with parameters reads back with its method, path, version and headers, and with one
      parameter that all are run together in. */
  lemma PrintedParametersRead(d: Data, order: seq<string>)
    requires Printable(d) && IsOrder(order, d.parameters) && order != [] && d.headers != []
    ensures ParseRequest(Compose(RequestLine(d.verb, Target(d.path, order, d.parameters), d.version), d.headers, ""))
         == Ok(d.(parameters := map[
              UrlEncode(order[0]) := d.parameters[order[0]] + "\0" + Smear(order[1..], d.parameters)]))
  {
    hide ParseRequest, Compose, CutQuery, ParseQuery, UrlEncode, QueryText, Smear, AddAll, Sorted, NoBreak;
    var target, name := Target(d.path, order, d.parameters), MethodName(d.verb);
    TargetFits(d, order);
    RequestLineFits(d, target);
    MethodRoundTrip(d.verb, name);
    RequestLineReads(name, target, d.version, d.headers, "");
    assert target == d.path + "?" + QueryText(order, d.parameters);
    TargetReads(d.path, QueryText(order, d.parameters));
    QueryReadsOneKey(order, d.parameters);
    ReadsHeaders(d.headers);
  }
}
