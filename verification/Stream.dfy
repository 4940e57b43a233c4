/** The retry loops of the TCP socket, over a connection that is a first-in first-out pipe of bytes.

    What the kernel answers is left open: how many bytes it takes or hands out, when it would block,
    and how a completion ends. */
module Stream {
  import opened Sequences

  type Byte = nat

  /** Where a coroutine is: in its loop, waiting for a completion, or done. */
  datatype Progress = Running | Waiting | Success | Closed

  /** The result of `send` or `recv` (`again` is EINPROGRESS or EWOULDBLOCK), or the end of a wait. */
  datatype Answer = Transferred(result: int, again: bool) | Completed(success: bool)

  function Moved(a: Answer): nat {
    if a.Transferred? && a.result > 0 then a.result else 0
  }

  predicate Failed(a: Answer) {
    if a.Transferred? then a.result < 0 && !a.again else !a.success
  }

  // ---------------------------------------------------------------------------------------
  // write

  datatype Writer = Writer(buffer: seq<Byte>, sent: nat, progress: Progress) {
    ghost predicate Valid() {
      && sent <= |buffer|
      && (progress == Success ==> sent == |buffer|)
      && (progress == Running || progress == Waiting ==> sent < |buffer|)
    }

    /** The answers the kernel can give. */
    predicate Accepts(a: Answer) {
      match progress
      case Running => a.Transferred? && a.result <= |buffer| - sent
      case Waiting => a.Completed?
      case _ => false
    }

    function Step(a: Answer): Writer
      requires Accepts(a)
    {
      if Failed(a) then this.(progress := Closed)
      else if a.Completed? then this.(progress := Running)
      else
        var n := sent + Moved(a);
        Writer(buffer, n, if n < |buffer| then Waiting else Success)
    }

    /** The bytes handed over with an answer. */
    function Handed(a: Answer): seq<Byte>
      requires Accepts(a) && sent <= |buffer|
    {
      if progress == Running then buffer[sent..sent + Moved(a)] else []
    }
  }

  function StartWriter(buffer: seq<Byte>): Writer {
    Writer(buffer, 0, if buffer == [] then Success else Running)
  }

  // ---------------------------------------------------------------------------------------
  // read_exactly

  datatype Reader = Reader(size: nat, got: seq<Byte>, progress: Progress) {
    ghost predicate Valid() {
      && |got| <= size
      && (progress == Success ==> |got| == size)
      && (progress == Running || progress == Waiting ==> |got| < size)
    }

    /** The answers the kernel can give, with `available` bytes in the pipe. */
    predicate Accepts(a: Answer, available: nat) {
      match progress
      case Running => a.Transferred? && a.result <= size - |got| && a.result <= available
      case Waiting => a.Completed?
      case _ => false
    }

    /** `read` returns as soon as it has some bytes, and `read_exactly` calls it again until it has all. */
    function Step(a: Answer, bytes: seq<Byte>): Reader
      requires |bytes| == Moved(a)
    {
      if Failed(a) then this.(progress := Closed)
      else if a.Completed? then this.(progress := Running)
      else if Moved(a) == 0 then this.(progress := Waiting)
      else Reader(size, got + bytes, if |got + bytes| == size then Success else Running)
    }
  }

  function StartReader(size: nat): Reader {
    Reader(size, [], if size == 0 then Success else Running)
  }

  // ---------------------------------------------------------------------------------------
  // Both ends

  /** `stream` is all that was ever handed over, of which the first `taken` bytes were taken out. */
  datatype Link = Link(writer: Writer, reader: Reader, stream: seq<Byte>, taken: nat)

  datatype Event = AtWriter(answer: Answer) | AtReader(answer: Answer)

  predicate Possible(l: Link, e: Event) {
    match e
    case AtWriter(a) => l.writer.Accepts(a) && l.writer.sent <= |l.writer.buffer|
    case AtReader(a) => l.taken <= |l.stream| && l.reader.Accepts(a, |l.stream| - l.taken)
  }

  function Next(l: Link, e: Event): Link
    requires Possible(l, e)
  {
    match e
    case AtWriter(a) => l.(writer := l.writer.Step(a), stream := l.stream + l.writer.Handed(a))
    case AtReader(a) =>
      var n := Moved(a);
      l.(reader := l.reader.Step(a, l.stream[l.taken..l.taken + n]), taken := l.taken + n)
  }

  ghost predicate Runs(l: Link, events: seq<Event>)
    decreases |events|
  {
    events != [] ==> Possible(l, events[0]) && Runs(Next(l, events[0]), events[1..])
  }

  ghost function After(l: Link, events: seq<Event>): Link
    requires Runs(l, events)
    decreases |events|
  {
    if events == [] then l else After(Next(l, events[0]), events[1..])
  }

  /** A connection whose pipe holds what was handed over earlier, all but the first `taken` bytes. */
  function StartLink(buffer: seq<Byte>, size: nat, earlier: seq<Byte>, taken: nat): Link {
    Link(StartWriter(buffer), StartReader(size), earlier, taken)
  }

  /** What the two loops keep: the writer has handed over exactly its first `sent` bytes, and the reader
      has filled its buffer with exactly the next bytes of the stream. */
  ghost predicate Inv(l: Link, buffer: seq<Byte>, size: nat, earlier: seq<Byte>, taken: nat) {
    && l.writer.Valid() && l.writer.buffer == buffer
    && l.reader.Valid() && l.reader.size == size
    && l.stream == earlier + buffer[..l.writer.sent]
    && taken <= l.taken == taken + |l.reader.got| <= |l.stream|
    && l.reader.got == l.stream[taken..l.taken]
  }

  lemma StepKeepsInv(l: Link, e: Event, buffer: seq<Byte>, size: nat, earlier: seq<Byte>, taken: nat)
    requires Inv(l, buffer, size, earlier, taken) && Possible(l, e)
    ensures Inv(Next(l, e), buffer, size, earlier, taken)
  {
    var n := Next(l, e);
    match e
    case AtWriter(a) =>
      assert buffer[..l.writer.sent] + l.writer.Handed(a) == buffer[..n.writer.sent];
      assert n.stream[taken..l.taken] == l.stream[taken..l.taken];
    case AtReader(a) =>
      assert l.stream[taken..l.taken] + l.stream[l.taken..n.taken] == l.stream[taken..n.taken];
  }

  lemma {:induction false} RunKeepsInv(l: Link, events: seq<Event>, buffer: seq<Byte>, size: nat,
                                       earlier: seq<Byte>, taken: nat)
    requires Inv(l, buffer, size, earlier, taken) && Runs(l, events)
    ensures Inv(After(l, events), buffer, size, earlier, taken)
    decreases |events|
  {
    if events != [] {
      StepKeepsInv(l, events[0], buffer, size, earlier, taken);
      RunKeepsInv(Next(l, events[0]), events[1..], buffer, size, earlier, taken);
    }
  }

  /** Stream integrity, for every interleaving of partial sends and receives: what was handed over is
      `buffer[..sent]`, what was filled is the next part of the stream, and if both ends succeed on an
      empty pipe with the same size, the buffers are equal. */
  lemma StreamIntegrity(buffer: seq<Byte>, size: nat, earlier: seq<Byte>, taken: nat, events: seq<Event>)
    requires taken <= |earlier| && Runs(StartLink(buffer, size, earlier, taken), events)
    ensures var l := After(StartLink(buffer, size, earlier, taken), events);
            && l.writer.sent <= |buffer| && l.stream == earlier + buffer[..l.writer.sent]
            && |l.reader.got| <= size && l.reader.got <= l.stream[taken..]
            && (l.writer.progress == Success ==> l.writer.sent == |buffer|)
            && (l.reader.progress == Success ==> |l.reader.got| == size)
            && (l.writer.progress == l.reader.progress == Success && size == |buffer| && taken == |earlier| ==>
                  l.reader.got == buffer)
  {
    var s := StartLink(buffer, size, earlier, taken);
    assert earlier + buffer[..0] == earlier && earlier[taken..taken] == [];
    RunKeepsInv(s, events, buffer, size, earlier, taken);
    var l := After(s, events);
    assert l.reader.got == l.stream[taken..][..|l.reader.got|];
    if l.writer.progress == l.reader.progress == Success && size == |buffer| && taken == |earlier| {
      assert buffer[..|buffer|] == buffer;
    }
  }

  // ---------------------------------------------------------------------------------------
  // The loops

  class Pipe {
    var stream: seq<Byte>
    var taken: nat

    constructor ()
      ensures stream == [] && taken == 0
    {
      stream, taken := [], 0;
    }
  }

  ghost predicate WriterRuns(w: Writer, answers: seq<Answer>)
    decreases |answers|
  {
    answers != [] ==> w.Accepts(answers[0]) && WriterRuns(w.Step(answers[0]), answers[1..])
  }

  ghost function WriterAfter(w: Writer, answers: seq<Answer>): Writer
    requires WriterRuns(w, answers)
    decreases |answers|
  {
    if answers == [] then w else WriterAfter(w.Step(answers[0]), answers[1..])
  }

  /** The bytes that moved, by the kernel's answers. */
  function Total(answers: seq<Answer>): nat {
    if answers == [] then 0
    else Total(Init(answers)) + match Last(answers)
                                case Transferred(result, _) => if result > 0 then result else 0
                                case Completed(_) => 0
  }

  /** An answer that ends a transfer in failure: an error that is not "try again", or a failed completion. */
  predicate Ends(a: Answer) {
    match a
    case Transferred(result, again) => result < 0 && !again
    case Completed(success) => !success
  }

  /** The answers that a writer of `size` bytes can get: transfers and completions in turn, starting with a
      transfer, none of more than what is left, and nothing behind a failure or behind the last byte. */
  ghost predicate WriterTrace(size: nat, answers: seq<Answer>) {
    forall i: nat :: i < |answers| ==> WriterFits(size, answers[..i], answers[i])
  }

  ghost predicate WriterFits(size: nat, before: seq<Answer>, a: Answer) {
    && Total(before) < size && (before != [] ==> !Ends(Last(before)))
    && if |before| % 2 == 0 then a.Transferred? && a.result <= size - Total(before) else a.Completed?
  }

  /** The answers that a reader of `size` bytes can get, with `available` bytes to come: a completion exactly behind
      a transfer of nothing, else a transfer of no more than what is left and what there is. */
  ghost predicate ReaderTrace(size: nat, available: nat, answers: seq<Answer>) {
    forall i: nat :: i < |answers| ==> ReaderFits(size, available, answers[..i], answers[i])
  }

  ghost predicate ReaderFits(size: nat, available: nat, before: seq<Answer>, a: Answer) {
    && Total(before) < size && (before != [] ==> !Ends(Last(before)))
    && if before != [] && Last(before).Transferred? && Last(before).result <= 0 then a.Completed?
       else a.Transferred? && a.result <= size - Total(before) && a.result <= available - Total(before)
  }

  lemma WriterTraceSnoc(size: nat, init: seq<Answer>, a: Answer)
    ensures WriterTrace(size, init + [a]) <==> WriterTrace(size, init) && WriterFits(size, init, a)
  {
    hide WriterFits;
    var all := init + [a];
    assert all[..|init|] == init && all[|init|] == a;
    assert forall i: nat :: i < |init| ==> all[..i] == init[..i] && all[i] == init[i];
    if WriterTrace(size, all) {
      assert forall i: nat :: i < |init| ==> WriterFits(size, all[..i], all[i]);
    }
  }

  lemma ReaderTraceSnoc(size: nat, available: nat, init: seq<Answer>, a: Answer)
    ensures ReaderTrace(size, available, init + [a])
       <==> ReaderTrace(size, available, init) && ReaderFits(size, available, init, a)
  {
    hide ReaderFits;
    var all := init + [a];
    assert all[..|init|] == init && all[|init|] == a;
    assert forall i: nat :: i < |init| ==> all[..i] == init[..i] && all[i] == init[i];
    if ReaderTrace(size, available, all) {
      assert forall i: nat :: i < |init| ==> ReaderFits(size, available, all[..i], all[i]);
    }
  }

  lemma TotalSnoc(init: seq<Answer>, a: Answer)
    ensures Total(init + [a]) == Total(init) + Moved(a)
  {
    assert Init(init + [a]) == init;
  }

  lemma {:induction false} WriterSnoc(w: Writer, init: seq<Answer>, a: Answer)
    ensures WriterRuns(w, init + [a]) <==> WriterRuns(w, init) && WriterAfter(w, init).Accepts(a)
    ensures WriterRuns(w, init + [a]) ==> WriterAfter(w, init + [a]) == WriterAfter(w, init).Step(a)
    decreases |init|
  {
    if init == [] {
      assert init + [a] == [a] && [a][1..] == [];
    } else {
      assert (init + [a])[1..] == init[1..] + [a];
      if w.Accepts(init[0]) {
        WriterSnoc(w.Step(init[0]), init[1..], a);
      }
    }
  }

  /** What a writer makes of answers. */
  ghost predicate WriterIs(w: Writer, buffer: seq<Byte>, answers: seq<Answer>) {
    && w.buffer == buffer && w.sent == Total(answers) <= |buffer|
    && (w.progress == Closed <==> answers != [] && Ends(Last(answers)))
    && (w.progress == Success <==> w.sent == |buffer|)
    && (w.progress == Waiting <==> w.sent < |buffer| && |answers| % 2 == 1 && !Ends(Last(answers)))
  }

  lemma WriterGoesOn(w: Writer, buffer: seq<Byte>, init: seq<Answer>, a: Answer)
    requires WriterIs(w, buffer, init)
    ensures w.Accepts(a) <==> WriterFits(|buffer|, init, a)
    ensures w.Accepts(a) ==> WriterIs(w.Step(a), buffer, init + [a])
  {
    TotalSnoc(init, a);
    hide Total;
  }

  /** A run of a writer is a trace, and the writer is closed exactly if the last answer is a failure, done exactly
      if all bytes moved, and waits exactly after a transfer that leaves some; it counts the bytes that moved. */
  lemma {:induction false} WriterOutcome(buffer: seq<Byte>, answers: seq<Answer>)
    ensures WriterRuns(StartWriter(buffer), answers) <==> WriterTrace(|buffer|, answers)
    ensures WriterRuns(StartWriter(buffer), answers) ==>
              WriterIs(WriterAfter(StartWriter(buffer), answers), buffer, answers)
  {
    if answers != [] {
      hide WriterRuns, WriterAfter, WriterTrace, WriterIs, WriterFits;
      var init, a := Init(answers), Last(answers);
      WriterOutcome(buffer, init);
      assert answers == init + [a];
      WriterSnoc(StartWriter(buffer), init, a);
      WriterTraceSnoc(|buffer|, init, a);
      if WriterRuns(StartWriter(buffer), init) {
        WriterGoesOn(WriterAfter(StartWriter(buffer), init), buffer, init, a);
      }
    }
  }

  /** The same, answer by answer. */
  lemma WriterMeans(buffer: seq<Byte>, answers: seq<Answer>)
    requires WriterRuns(StartWriter(buffer), answers)
    ensures var w := WriterAfter(StartWriter(buffer), answers);
            && w.sent == Total(answers) && (w.progress == Success <==> w.sent == |buffer|)
            && (w.progress == Closed <==>
                  exists a <- answers :: if a.Transferred? then a.result < 0 && !a.again else !a.success)
            && (w.progress == Waiting <==>
                  && w.progress != Closed && w.sent < |buffer|
                  && answers != [] && answers[|answers| - 1].Transferred?)
  {
    hide WriterRuns, WriterAfter, Total, WriterTrace, Ends;
    WriterOutcome(buffer, answers);
    forall i: nat | i < |answers|
      ensures i + 1 < |answers| ==> !Ends(answers[i])
      ensures answers[i].Transferred? <==> i % 2 == 0
    {
      WriterTraceAt(|buffer|, answers, i);
    }
    EndsSomewhere(answers);
  }

  lemma WriterTraceAt(size: nat, answers: seq<Answer>, i: nat)
    requires WriterTrace(size, answers) && i < |answers|
    ensures i + 1 < |answers| ==> !Ends(answers[i])
    ensures answers[i].Transferred? <==> i % 2 == 0
  {
    hide Total, Ends;
    assert WriterFits(size, answers[..i], answers[i]);
    if i + 1 < |answers| {
      assert WriterFits(size, answers[..i + 1], answers[i + 1]);
      assert Last(answers[..i + 1]) == answers[i];
    }
  }

  /** Only the last answer can be a failure. */
  lemma EndsSomewhere(answers: seq<Answer>)
    requires forall i: nat :: i + 1 < |answers| ==> !Ends(answers[i])
    ensures answers != [] && Ends(Last(answers)) <==>
              exists a <- answers :: if a.Transferred? then a.result < 0 && !a.again else !a.success
  {
    forall a <- answers | Ends(a)
      ensures a == Last(answers)
    {
      var i :| 0 <= i < |answers| && answers[i] == a;
    }
    if answers != [] && Ends(Last(answers)) {
      assert Last(answers) in answers;
    }
  }

  lemma StoppedWriter(w: Writer, answers: seq<Answer>)
    requires WriterRuns(w, answers) && answers != [] && Failed(answers[0])
    ensures answers[1..] == [] && WriterAfter(w, answers) == w.(progress := Closed)
  {
    assert w.Step(answers[0]) == w.(progress := Closed);
    assert WriterRuns(w.(progress := Closed), answers[1..]);
  }

  lemma WriterCons(w: Writer, answers: seq<Answer>, i: nat)
    requires i < |answers| && WriterRuns(w, answers[i..])
    ensures w.Accepts(answers[i])
    ensures WriterRuns(w.Step(answers[i]), answers[i + 1..])
    ensures WriterAfter(w, answers[i..]) == WriterAfter(w.Step(answers[i]), answers[i + 1..])
    ensures Failed(answers[i]) ==> WriterAfter(w, answers[i..]) == w.(progress := Closed)
  {
    var left := answers[i..];
    assert left[0] == answers[i] && left[1..] == answers[i + 1..];
    if Failed(answers[i]) {
      StoppedWriter(w, left);
    }
  }

  lemma HandOver(stream: seq<Byte>, buffer: seq<Byte>, sent: nat, n: nat)
    requires sent + n <= |buffer|
    ensures stream + buffer[..sent] + buffer[sent..sent + n] == stream + buffer[..sent + n]
  {
  }

  lemma WriterEnds(w: Writer, answers: seq<Answer>, i: nat)
    requires i <= |answers| && WriterRuns(w, answers[i..]) && (i == |answers| || w.progress == Success)
    ensures WriterAfter(w, answers[i..]) == w
  {
  }

  /** `tcp_socket::write`, as far as the kernel's answers go: it follows the steps of `Writer`, and hands
      over exactly the part of the buffer that it counts as sent. */
  method Write(pipe: Pipe, buffer: seq<Byte>, answers: seq<Answer>) returns (sent: nat, progress: Progress)
    requires WriterRuns(StartWriter(buffer), answers)
    modifies pipe
    ensures Writer(buffer, sent, progress) == WriterAfter(StartWriter(buffer), answers)
    ensures sent <= |buffer| && pipe.stream == old(pipe.stream) + buffer[..sent] && pipe.taken == old(pipe.taken)
    ensures progress == Success <==> sent == |buffer|
    ensures sent == Total(answers)
    ensures progress == Closed <==>
              exists a <- answers :: if a.Transferred? then a.result < 0 && !a.again else !a.success
    ensures progress == Waiting <==>
              && progress != Closed && sent < |buffer|
              && answers != [] && answers[|answers| - 1].Transferred?
  {
    hide Total;
    ghost var closed := exists a <- answers :: if a.Transferred? then a.result < 0 && !a.again else !a.success;
    ghost var goal := WriterAfter(StartWriter(buffer), answers);
    assert goal.sent == Total(answers) && (goal.progress == Closed <==> closed)
        && (goal.progress == Success <==> goal.sent == |buffer|)
        && (goal.progress == Waiting <==> !closed && goal.sent < |buffer|
                                          && answers != [] && answers[|answers| - 1].Transferred?) by {
      WriterMeans(buffer, answers);
    }
    sent, progress := 0, Running;
    var i := 0;
    assert pipe.stream + buffer[..0] == pipe.stream;
    hide WriterRuns, WriterAfter;
    while sent < |buffer|
      invariant 0 <= i <= |answers| && sent <= |buffer|
      invariant progress == Running && pipe.taken == old(pipe.taken)
      invariant pipe.stream == old(pipe.stream) + buffer[..sent]
      invariant var w := Writer(buffer, sent, if sent < |buffer| then Running else Success);
                WriterRuns(w, answers[i..]) && WriterAfter(w, answers[i..]) == goal
      decreases |answers| - i
    {
      ghost var w := Writer(buffer, sent, Running);
      if i == |answers| {
        WriterEnds(w, answers, i);
        return sent, Running;
      }
      WriterCons(w, answers, i);
      var result := answers[i].result;
      if result < 0 && !answers[i].again {
        return sent, Closed;
      } else if result > 0 {
        HandOver(old(pipe.stream), buffer, sent, result);
        pipe.stream := pipe.stream + buffer[sent..sent + result];
        sent := sent + result;
      }
      i := i + 1;
      if sent < |buffer| {
        ghost var waiting := Writer(buffer, sent, Waiting);
        if i == |answers| {
          WriterEnds(waiting, answers, i);
          return sent, Waiting;
        }
        WriterCons(waiting, answers, i);
        if !answers[i].success {
          return sent, Closed;
        }
        i := i + 1;
      }
    }
    progress := Success;
    WriterEnds(Writer(buffer, sent, Success), answers, i);
  }

  ghost predicate ReaderRuns(r: Reader, stream: seq<Byte>, taken: nat, answers: seq<Answer>)
    decreases |answers|
  {
    && taken <= |stream|
    && (answers != [] ==>
          && r.Accepts(answers[0], |stream| - taken)
          && var n := taken + Moved(answers[0]);
             ReaderRuns(r.Step(answers[0], stream[taken..n]), stream, n, answers[1..]))
  }

  ghost function ReaderAfter(r: Reader, stream: seq<Byte>, taken: nat, answers: seq<Answer>): Reader
    requires ReaderRuns(r, stream, taken, answers)
    decreases |answers|
  {
    if answers == [] then r
    else
      var n := taken + Moved(answers[0]);
      ReaderAfter(r.Step(answers[0], stream[taken..n]), stream, n, answers[1..])
  }

  /** Whether a run of a reader can go on. */
  lemma {:induction false} ReaderSnocRuns(r: Reader, stream: seq<Byte>, taken: nat, init: seq<Answer>, a: Answer)
    requires taken <= |stream|
    ensures ReaderRuns(r, stream, taken, init) ==> taken + Total(init) <= |stream|
    ensures ReaderRuns(r, stream, taken, init + [a]) <==>
              && ReaderRuns(r, stream, taken, init)
              && ReaderAfter(r, stream, taken, init).Accepts(a, |stream| - taken - Total(init))
    decreases |init|
  {
    ReaderCons(r, stream, taken, init + [a]);
    if init == [] {
      LoneAnswer(a);
    } else {
      ConsSnoc(init, a);
      TotalFirst(init);
      ReaderCons(r, stream, taken, init);
      hide Total, ReaderRuns, ReaderAfter;
      if r.Accepts(init[0], |stream| - taken) {
        var n := taken + Moved(init[0]);
        ReaderSnocRuns(r.Step(init[0], stream[taken..n]), stream, n, init[1..], a);
      }
    }
  }

  /** And what the last answer of a run makes of it. */
  lemma {:induction false} ReaderSnoc(r: Reader, stream: seq<Byte>, taken: nat, init: seq<Answer>, a: Answer)
    requires taken <= |stream| && ReaderRuns(r, stream, taken, init + [a]) && ReaderRuns(r, stream, taken, init)
    ensures var at := taken + Total(init);
            && at + Moved(a) <= |stream|
            && ReaderAfter(r, stream, taken, init + [a])
            == ReaderAfter(r, stream, taken, init).Step(a, stream[at..at + Moved(a)])
    decreases |init|
  {
    ReaderCons(r, stream, taken, init + [a]);
    if init == [] {
      LoneAnswer(a);
    } else {
      ConsSnoc(init, a);
      TotalFirst(init);
      ReaderCons(r, stream, taken, init);
      hide Total, ReaderRuns, ReaderAfter;
      var n := taken + Moved(init[0]);
      ReaderSnoc(r.Step(init[0], stream[taken..n]), stream, n, init[1..], a);
    }
  }

  lemma LoneAnswer(a: Answer)
    ensures [] + [a] == [a] && [a][1..] == []
  {
  }

  lemma ConsSnoc(init: seq<Answer>, a: Answer)
    requires init != []
    ensures (init + [a])[0] == init[0] && (init + [a])[1..] == init[1..] + [a]
  {
  }

  lemma ReaderCons(r: Reader, stream: seq<Byte>, taken: nat, answers: seq<Answer>)
    requires taken <= |stream| && answers != []
    ensures ReaderRuns(r, stream, taken, answers) <==>
              && r.Accepts(answers[0], |stream| - taken)
              && var n := taken + Moved(answers[0]);
                 ReaderRuns(r.Step(answers[0], stream[taken..n]), stream, n, answers[1..])
    ensures ReaderRuns(r, stream, taken, answers) ==>
              var n := taken + Moved(answers[0]);
              ReaderAfter(r, stream, taken, answers)
              == ReaderAfter(r.Step(answers[0], stream[taken..n]), stream, n, answers[1..])
  {
  }

  lemma {:induction false} TotalFirst(answers: seq<Answer>)
    requires answers != []
    ensures Total(answers) == Moved(answers[0]) + Total(answers[1..])
  {
    if |answers| == 1 {
      assert Init(answers) == [] && answers[1..] == [];
    } else {
      TotalFirst(Init(answers));
      assert Init(answers)[1..] == Init(answers[1..]);
    }
  }

  /** What a reader makes of answers. */
  ghost predicate ReaderIs(r: Reader, size: nat, answers: seq<Answer>) {
    && r.size == size && |r.got| == Total(answers) <= size
    && (r.progress == Closed <==> answers != [] && Ends(Last(answers)))
    && (r.progress == Success <==> |r.got| == size)
    && (r.progress == Waiting <==>
          answers != [] && Last(answers).Transferred? && Last(answers).result <= 0 && !Ends(Last(answers)))
  }

  lemma ReaderAccepts(r: Reader, size: nat, available: nat, init: seq<Answer>, a: Answer)
    requires ReaderIs(r, size, init) && Total(init) <= available
    ensures r.Accepts(a, available - Total(init)) <==> ReaderFits(size, available, init, a)
  {
    hide Total;
  }

  lemma ReaderGoesOn(r: Reader, size: nat, available: nat, init: seq<Answer>, a: Answer, bytes: seq<Byte>)
    requires ReaderIs(r, size, init) && |bytes| == Moved(a) && r.Accepts(a, available)
    ensures ReaderIs(r.Step(a, bytes), size, init + [a])
  {
    TotalSnoc(init, a);
    hide Total;
  }

  /** A run of a reader is a trace, and the reader is closed exactly if the last answer is a failure, done exactly
      if all bytes moved, and waits exactly after a transfer of nothing; it has as many bytes as moved. */
  lemma {:induction false} ReaderOutcome(size: nat, stream: seq<Byte>, taken: nat, answers: seq<Answer>)
    requires taken <= |stream|
    ensures ReaderRuns(StartReader(size), stream, taken, answers) <==> ReaderTrace(size, |stream| - taken, answers)
    ensures ReaderRuns(StartReader(size), stream, taken, answers) ==>
              ReaderIs(ReaderAfter(StartReader(size), stream, taken, answers), size, answers)
  {
    if answers != [] {
      hide ReaderRuns, ReaderAfter, ReaderTrace, ReaderIs, ReaderFits, StartReader, Total, Moved;
      var init, a, start := Init(answers), Last(answers), StartReader(size);
      var at := taken + Total(init);
      ReaderOutcome(size, stream, taken, init);
      assert answers == init + [a];
      ReaderSnocRuns(start, stream, taken, init, a);
      ReaderTraceSnoc(size, |stream| - taken, init, a);
      if ReaderRuns(start, stream, taken, init) {
        var r := ReaderAfter(start, stream, taken, init);
        ReaderAccepts(r, size, |stream| - taken, init, a);
        if ReaderRuns(start, stream, taken, answers) {
          ReaderSnoc(start, stream, taken, init, a);
          ReaderGoesOn(r, size, |stream| - at, init, a, stream[at..at + Moved(a)]);
        }
      }
    }
  }

  /** The same, answer by answer. */
  lemma ReaderMeans(size: nat, stream: seq<Byte>, taken: nat, answers: seq<Answer>)
    requires ReaderRuns(StartReader(size), stream, taken, answers)
    ensures var r := ReaderAfter(StartReader(size), stream, taken, answers);
            && |r.got| == Total(answers) && (r.progress == Success <==> |r.got| == size)
            && (r.progress == Closed <==>
                  exists a <- answers :: if a.Transferred? then a.result < 0 && !a.again else !a.success)
            && (r.progress == Waiting <==>
                  && r.progress != Closed
                  && answers != [] && answers[|answers| - 1].Transferred? && answers[|answers| - 1].result <= 0)
  {
    assert taken <= |stream|;
    hide ReaderRuns, ReaderAfter, Total, ReaderTrace, Ends;
    ReaderOutcome(size, stream, taken, answers);
    forall i: nat | i + 1 < |answers|
      ensures !Ends(answers[i])
    {
      ReaderTraceAt(size, |stream| - taken, answers, i);
    }
    EndsSomewhere(answers);
    assert answers != [] && Last(answers).Transferred? ==> Last(answers) == answers[|answers| - 1];
  }

  lemma ReaderTraceAt(size: nat, available: nat, answers: seq<Answer>, i: nat)
    requires ReaderTrace(size, available, answers) && i + 1 < |answers|
    ensures !Ends(answers[i])
  {
    hide Total, Ends;
    assert ReaderFits(size, available, answers[..i + 1], answers[i + 1]);
    assert Last(answers[..i + 1]) == answers[i];
  }

  lemma StoppedReader(r: Reader, stream: seq<Byte>, taken: nat, answers: seq<Answer>)
    requires ReaderRuns(r, stream, taken, answers) && answers != [] && Failed(answers[0])
    ensures answers[1..] == [] && ReaderAfter(r, stream, taken, answers) == r.(progress := Closed)
  {
    var n := taken + Moved(answers[0]);
    assert r.Step(answers[0], stream[taken..n]) == r.(progress := Closed);
    assert ReaderRuns(r.(progress := Closed), stream, n, answers[1..]);
  }

  /** `tcp_socket::read_exactly`, with the loop of `read` inside, as far as the kernel's answers go: it
      follows the steps of `Reader`, and fills its buffer with exactly what it takes out of the pipe.  On
      success it returns `value`, which is 0 and not the number of bytes. */
  method ReadExactly(pipe: Pipe, size: nat, answers: seq<Answer>)
    returns (got: seq<Byte>, progress: Progress, value: nat)
    requires ReaderRuns(StartReader(size), pipe.stream, pipe.taken, answers)
    modifies pipe
    ensures Reader(size, got, progress) == ReaderAfter(StartReader(size), old(pipe.stream), old(pipe.taken), answers)
    ensures pipe.stream == old(pipe.stream) && pipe.taken == old(pipe.taken) + |got| <= |pipe.stream|
    ensures got == pipe.stream[old(pipe.taken)..pipe.taken]
    ensures (progress == Success <==> |got| == size) && (progress == Success ==> value == 0)
    ensures |got| == Total(answers)
    ensures progress == Closed <==>
              exists a <- answers :: if a.Transferred? then a.result < 0 && !a.again else !a.success
    ensures progress == Waiting <==>
              && progress != Closed
              && answers != [] && answers[|answers| - 1].Transferred? && answers[|answers| - 1].result <= 0
  {
    hide Total;
    ReaderMeans(size, pipe.stream, pipe.taken, answers);
    got, progress, value := [], Running, 0;
    var i := 0;
    ghost var goal := ReaderAfter(StartReader(size), pipe.stream, pipe.taken, answers);
    while |got| != size
      invariant 0 <= i <= |answers| && |got| <= size && progress == Running
      invariant pipe.stream == old(pipe.stream) && pipe.taken == old(pipe.taken) + |got| <= |pipe.stream|
      invariant got == pipe.stream[old(pipe.taken)..pipe.taken]
      invariant var r := Reader(size, got, if |got| < size then Running else Success);
                && ReaderRuns(r, pipe.stream, pipe.taken, answers[i..])
                && ReaderAfter(r, pipe.stream, pipe.taken, answers[i..]) == goal
      decreases |answers| - i
    {
      ghost var left := answers[i..];
      if i == |answers| {
        return got, Running, 0;
      }
      assert left[0] == answers[i] && left[1..] == answers[i + 1..];
      var result := answers[i].result;
      if result < 0 && !answers[i].again {
        StoppedReader(Reader(size, got, Running), pipe.stream, pipe.taken, left);
        return got, Closed, 0;
      }
      i := i + 1;
      if result > 0 {
        var bytes := pipe.stream[pipe.taken..pipe.taken + result];
        pipe.taken := pipe.taken + result;
        got := got + bytes;
      } else {
        if i == |answers| {
          return got, Waiting, 0;
        }
        ghost var rest := answers[i..];
        assert rest[0] == answers[i] && rest[1..] == answers[i + 1..];
        if !answers[i].success {
          StoppedReader(Reader(size, got, Waiting), pipe.stream, pipe.taken, rest);
          return got, Closed, 0;
        }
        i := i + 1;
      }
    }
    progress := Success;
    assert answers[i..] == [];
  }
}
