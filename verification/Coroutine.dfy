/** What a tree of awaiting coroutines does, written down twice.

    `Exec` is the direct reading: an await runs its child to the end, on the spot, and goes on
    with the child's value.  `Step` is what one call of `one_step` does to a suspended task.
    The lemmas of this module say that stepping means the same as direct execution. */
module Coroutine {
  import opened Sequences

  type Value = int
  type Locals = seq<Value>

  /** What a coroutine does to the outside world.  `StartTimer` and `Register` are the two ways
      in which an awaitable leaves a wake-up behind before it suspends; a registration that the
      kernel did not accept is one that never comes. */
  datatype Action = Effect(code: int) | StartTimer(delay: int) | Register(fd: int, accepted: bool)

  /** The body of a coroutine from a point on: a finite program over the frame's locals.
      Every value that reaches the frame (the outcome of an action, the value of an awaited
      child) is appended to its locals. */
  datatype Prog =
    | Return(value: Locals -> Value)
    | Act(action: Locals -> Action, next: Prog)
    | Branch(cond: Locals -> bool, yes: Prog, no: Prog)
    | Mark(waiting: bool, next: Prog)                            // wait() and cancel_wait()
    | Suspend(next: Prog)                                        // co_await std::suspend_always
    | Await(args: Locals -> Locals, child: Prog, next: Prog)     // co_await of a fresh task
    | AwaitReady(ready: Locals -> Value, next: Prog)             // co_await of a finished task
    | Spawn(args: Locals -> Locals, body: Prog, next: Prog)      // a new task for the reactor

  /** A suspended frame: where it will go on, and its locals. */
  datatype Code = Code(prog: Prog, locals: Locals) {
    function Receive(v: Value): Code {
      Code(prog, locals + [v])
    }
  }

  datatype Event = Did(action: Action) | Spawned(task: Code)

  type History = seq<Event>

  /** The outside world: the outcome of an action, which may depend on everything the task
      has done so far (the action itself included). */
  type World = History -> Value

  // ---------------------------------------------------------------------------------------
  // Direct execution

  datatype Run = Run(value: Value, history: History)

  /** Runs `prog` to its end, awaited children included.  Suspension points and marks mean
      nothing here. */
  ghost function Exec(world: World, prog: Prog, locals: Locals, history: History): Run
    decreases prog
  {
    match prog
    case Return(f) => Run(f(locals), history)
    case Act(f, next) =>
      var h := history + [Did(f(locals))];
      Exec(world, next, locals + [world(h)], h)
    case Branch(f, yes, no) => Exec(world, if f(locals) then yes else no, locals, history)
    case Mark(_, next) => Exec(world, next, locals, history)
    case Suspend(next) => Exec(world, next, locals, history)
    case Await(f, child, next) =>
      var r := Exec(world, child, f(locals), history);
      Exec(world, next, locals + [r.value], r.history)
    case AwaitReady(f, next) => Exec(world, next, locals + [f(locals)], history)
    case Spawn(f, body, next) => Exec(world, next, locals, history + [Spawned(Code(body, f(locals)))])
  }

  // ---------------------------------------------------------------------------------------
  // Stepping

  /** How the resumption of one frame ends. */
  datatype Pause =
    | Returned(value: Value, history: History, waiting: bool)
    | Suspended(code: Code, history: History, waiting: bool)
    | Awaiting(code: Code, child: Code, history: History, waiting: bool)

  /** One resumption of one frame: up to its next suspension point or its return. */
  function Resume(world: World, prog: Prog, locals: Locals, history: History, waiting: bool): (p: Pause)
    ensures history <= p.history
    decreases prog
  {
    match prog
    case Return(f) => Returned(f(locals), history, waiting)
    case Act(f, next) =>
      var h := history + [Did(f(locals))];
      Resume(world, next, locals + [world(h)], h, waiting)
    case Branch(f, yes, no) => Resume(world, if f(locals) then yes else no, locals, history, waiting)
    case Mark(w, next) => Resume(world, next, locals, history, w)
    case Suspend(next) => Suspended(Code(next, locals), history, waiting)
    case Await(f, child, next) => Awaiting(Code(next, locals), Code(child, f(locals)), history, waiting)
    case AwaitReady(f, next) => Resume(world, next, locals + [f(locals)], history, waiting)
    case Spawn(f, body, next) => Resume(world, next, locals, history + [Spawned(Code(body, f(locals)))], waiting)
  }

  /** A task between two steps: the innermost frame, and the frames awaiting it, the root first.
      `outers` frames resume once the value of the frame they await is appended to their locals. */
  datatype Conf =
    | Running(leaf: Code, outers: seq<Code>, history: History, waiting: bool)
    | Finished(value: Value, history: History, waiting: bool)

  function Start(code: Code): Conf {
    Running(code, [], [], false)
  }

  function Wake(c: Conf): Conf {
    c.(waiting := false)
  }

  /** One call of `one_step`: the innermost frame is resumed; as long as frames return, the frame
      that awaited is resumed in turn, unless the task has been marked waiting. */
  function Step(world: World, c: Conf): (d: Conf)
    requires c.Running?
    ensures c.history <= d.history
    decreases |c.outers|
  {
    match Resume(world, c.leaf.prog, c.leaf.locals, c.history, c.waiting)
    case Suspended(code, h, w) => Running(code, c.outers, h, w)
    case Awaiting(code, child, h, w) => Running(child, c.outers + [code], h, w)
    case Returned(v, h, w) =>
      if c.outers == [] then
        Finished(v, h, w)
      else
        var popped := Running(Last(c.outers).Receive(v), Init(c.outers), h, w);
        if w then popped else Step(world, popped)
  }

  // ---------------------------------------------------------------------------------------
  // Stepping means direct execution

  /** The direct execution of what is left of a suspended task. */
  ghost function Rest(world: World, leaf: Code, outers: seq<Code>, history: History): Run
    decreases |outers|
  {
    var r := Exec(world, leaf.prog, leaf.locals, history);
    if outers == [] then r
    else Rest(world, Last(outers).Receive(r.value), Init(outers), r.history)
  }

  ghost function Meaning(world: World, c: Conf): Run {
    match c
    case Running(leaf, outers, h, _) => Rest(world, leaf, outers, h)
    case Finished(v, h, _) => Run(v, h)
  }

  /** A resumption leaves the value and the final history of the frame as they were. */
  lemma {:induction false} ResumeKeepsExec(world: World, prog: Prog, locals: Locals, history: History, waiting: bool)
    ensures Exec(world, prog, locals, history)
         == match Resume(world, prog, locals, history, waiting)
            case Returned(v, h, _) => Run(v, h)
            case Suspended(code, h, _) => Exec(world, code.prog, code.locals, h)
            case Awaiting(code, child, h, _) =>
              var r := Exec(world, child.prog, child.locals, h);
              Exec(world, code.prog, code.locals + [r.value], r.history)
    decreases prog
  {
    match prog
    case Return(_) =>
    case Act(f, next) =>
      var h := history + [Did(f(locals))];
      ResumeKeepsExec(world, next, locals + [world(h)], h, waiting);
    case Branch(f, yes, no) => ResumeKeepsExec(world, if f(locals) then yes else no, locals, history, waiting);
    case Mark(w, next) => ResumeKeepsExec(world, next, locals, history, w);
    case Suspend(_) =>
    case Await(_, _, _) =>
    case AwaitReady(f, next) => ResumeKeepsExec(world, next, locals + [f(locals)], history, waiting);
    case Spawn(f, body, next) =>
      ResumeKeepsExec(world, next, locals, history + [Spawned(Code(body, f(locals)))], waiting);
  }

  /** The refinement step: a step changes neither the value the task will return nor the actions
      it will have performed, in their order. */
  lemma {:induction false} StepKeepsMeaning(world: World, c: Conf)
    requires c.Running?
    ensures Meaning(world, Step(world, c)) == Meaning(world, c)
    decreases |c.outers|
  {
    ResumeKeepsExec(world, c.leaf.prog, c.leaf.locals, c.history, c.waiting);
    match Resume(world, c.leaf.prog, c.leaf.locals, c.history, c.waiting)
    case Suspended(_, _, _) =>
    case Awaiting(code, child, h, _) =>
      var outers := c.outers + [code];
      assert Last(outers) == code && Init(outers) == c.outers;
      var r := Exec(world, child.prog, child.locals, h);
      assert Rest(world, child, outers, h) == Rest(world, code.Receive(r.value), c.outers, r.history);
    case Returned(v, h, w) =>
      if c.outers != [] && !w {
        StepKeepsMeaning(world, Running(Last(c.outers).Receive(v), Init(c.outers), h, w));
      }
  }

  /** Once the innermost frame has left the task in state kWait, the step does nothing more, even if
      the frame returned to one that awaited it. */
  lemma WaitingEndsStep(world: World, c: Conf)
    requires c.Running?
    ensures var p := Resume(world, c.leaf.prog, c.leaf.locals, c.history, c.waiting);
            p.waiting ==> var d := Step(world, c);
                          && d.waiting && d.history == p.history
                          && (d.Finished? <==> p.Returned? && c.outers == [])
  {
  }

  // ---------------------------------------------------------------------------------------
  // Stepping ends

  /** The number of instructions of a program, those of the tasks it awaits or spawns included. */
  ghost function Size(prog: Prog): (n: nat)
    ensures n > 0
  {
    match prog
    case Return(_) => 1
    case Act(_, next) => 1 + Size(next)
    case Branch(_, yes, no) => 1 + Size(yes) + Size(no)
    case Mark(_, next) => 1 + Size(next)
    case Suspend(next) => 1 + Size(next)
    case Await(_, child, next) => 1 + Size(child) + Size(next)
    case AwaitReady(_, next) => 1 + Size(next)
    case Spawn(_, body, next) => 1 + Size(body) + Size(next)
  }

  ghost function SizeAll(codes: seq<Code>): nat {
    if codes == [] then 0 else SizeAll(Init(codes)) + Size(Last(codes).prog)
  }

  /** The instructions that a suspended task has left. */
  ghost function Left(c: Conf): nat {
    match c
    case Running(leaf, outers, _, _) => Size(leaf.prog) + SizeAll(outers)
    case Finished(_, _, _) => 0
  }

  /** The instructions of the tasks spawned in a stretch of history. */
  ghost function SpawnSize(h: History): nat {
    if h == [] then 0 else SpawnSize(Init(h)) + EventSize(Last(h))
  }

  ghost function EventSize(e: Event): nat {
    match e
    case Spawned(c) => Size(c.prog)
    case Did(_) => 0
  }

  /** What a step of a task adds to its history. */
  function Added(c: Conf, d: Conf): History
    requires c.history <= d.history
  {
    d.history[|c.history|..]
  }

  lemma {:induction false} SpawnSizeAppend(g: History, h: History)
    ensures SpawnSize(g + h) == SpawnSize(g) + SpawnSize(h)
  {
    if h == [] {
      assert g + h == g;
    } else {
      assert Init(g + h) == g + Init(h);
      SpawnSizeAppend(g, Init(h));
    }
  }

  /** Cuts the first event off what was added to `history`. */
  lemma SplitSpawns(history: History, e: Event, all: History)
    requires history + [e] <= all
    ensures SpawnSize(all[|history|..]) == EventSize(e) + SpawnSize(all[|history| + 1..])
  {
    assert all[|history|..] == [e] + all[|history| + 1..];
    SpawnSizeAppend([e], all[|history| + 1..]);
    assert Init([e]) == [] && SpawnSize([e]) == SpawnSize([]) + EventSize(e);
  }

  lemma AddedInParts(c: Conf, popped: Conf, d: Conf)
    requires c.history <= popped.history <= d.history
    ensures Added(c, d) == Added(c, popped) + Added(popped, d)
    ensures SpawnSize(Added(c, d)) == SpawnSize(Added(c, popped)) + SpawnSize(Added(popped, d))
  {
    SpawnSizeAppend(Added(c, popped), Added(popped, d));
  }

  /** What a pause leaves to be done in the frame, and in the child it awaits. */
  ghost function PauseSize(p: Pause): nat {
    match p
    case Returned(_, _, _) => 0
    case Suspended(code, _, _) => Size(code.prog)
    case Awaiting(code, child, _, _) => Size(code.prog) + Size(child.prog)
  }

  lemma {:induction false} ResumeShrinks(world: World, prog: Prog, locals: Locals, history: History, waiting: bool)
    ensures var p := Resume(world, prog, locals, history, waiting);
            PauseSize(p) + SpawnSize(p.history[|history|..]) < Size(prog)
    decreases prog
  {
    assert SpawnSize([]) == 0;
    hide SpawnSize;
    var p := Resume(world, prog, locals, history, waiting);
    match prog
    case Return(_) => assert p.history[|history|..] == [];
    case Act(f, next) =>
      hide PauseSize;
      var h := history + [Did(f(locals))];
      ResumeShrinks(world, next, locals + [world(h)], h, waiting);
      SplitSpawns(history, Did(f(locals)), p.history);
    case Branch(f, yes, no) => ResumeShrinks(world, if f(locals) then yes else no, locals, history, waiting);
    case Mark(w, next) => ResumeShrinks(world, next, locals, history, w);
    case Suspend(_) => assert p.history[|history|..] == [];
    case Await(_, _, _) => assert p.history[|history|..] == [];
    case AwaitReady(f, next) => ResumeShrinks(world, next, locals + [f(locals)], history, waiting);
    case Spawn(f, body, next) =>
      hide PauseSize;
      var e := Spawned(Code(body, f(locals)));
      ResumeShrinks(world, next, locals, history + [e], waiting);
      SplitSpawns(history, e, p.history);
  }

  /** Every step uses up instructions: what the task has left, and what it handed to new tasks, is
      strictly less than what it had left before. */
  lemma {:induction false} StepShrinks(world: World, c: Conf)
    requires c.Running?
    ensures var d := Step(world, c);
            Left(d) + SpawnSize(Added(c, d)) < Left(c)
    decreases |c.outers|
  {
    ResumeShrinks(world, c.leaf.prog, c.leaf.locals, c.history, c.waiting);
    match Resume(world, c.leaf.prog, c.leaf.locals, c.history, c.waiting)
    case Suspended(_, _, _) =>
    case Awaiting(code, _, _, _) => assert Init(c.outers + [code]) == c.outers;
    case Returned(v, h, w) =>
      if c.outers != [] && !w {
        var popped := Running(Last(c.outers).Receive(v), Init(c.outers), h, w);
        StepShrinks(world, popped);
        assert Step(world, c) == Step(world, popped);
        AddedInParts(c, popped, Step(world, popped));
      }
  }

  // ---------------------------------------------------------------------------------------
  // The refinement

  /** What the driver does with a task: wake it whenever it waits, and step it until it is done. */
  ghost function Drive(world: World, c: Conf): Conf
    decreases Left(c)
  {
    if c.Finished? then c
    else
      StepShrinks(world, Wake(c));
      Drive(world, Step(world, Wake(c)))
  }

  lemma {:induction false} DriveKeepsMeaning(world: World, c: Conf)
    ensures var d := Drive(world, c);
            d.Finished? && Run(d.value, d.history) == Meaning(world, c)
    decreases Left(c)
  {
    if c.Running? {
      StepShrinks(world, Wake(c));
      StepKeepsMeaning(world, Wake(c));
      DriveKeepsMeaning(world, Step(world, Wake(c)));
    }
  }

  /** Refinement: for every coroutine tree and every world, stepping a fresh task until it is done
      performs exactly the actions of the direct execution, in that order, and ends with the value
      that the root returns. */
  lemma DriveIsExec(world: World, code: Code)
    ensures var d := Drive(world, Start(code));
            d.Finished? && Run(d.value, d.history) == Exec(world, code.prog, code.locals, [])
  {
    DriveKeepsMeaning(world, Start(code));
  }

  // ---------------------------------------------------------------------------------------
  // Disciplined waiting

  /** The discipline every awaitable of the library follows: a frame suspends in state kWait
      exactly when it has left one wake-up behind since it was last resumed, and it neither
      awaits, nor returns, with one outstanding.  `waiting` is the state of the task and `armed`
      says whether a timer or a registration was made since the last suspension. */
  ghost predicate Disciplined(prog: Prog, waiting: bool, armed: bool)
    decreases prog
  {
    match prog
    case Return(_) => !waiting && !armed
    case Act(f, next) =>
      // whether an action arms the task may depend on the locals it is computed from
      && (forall l :: f(l).Effect? ==> Disciplined(next, waiting, armed))
      && (forall l :: !f(l).Effect? ==> !armed && Disciplined(next, waiting, true))
    case Branch(_, yes, no) => Disciplined(yes, waiting, armed) && Disciplined(no, waiting, armed)
    case Mark(w, next) => Disciplined(next, w, armed)
    case Suspend(next) => waiting == armed && Disciplined(next, false, false)
    case Await(_, child, next) =>
      !waiting && !armed && Disciplined(child, false, false) && Disciplined(next, false, false)
    case AwaitReady(_, next) => Disciplined(next, waiting, armed)
    case Spawn(_, body, next) => Disciplined(body, false, false) && Disciplined(next, waiting, armed)
  }

  ghost predicate DisciplinedCode(c: Code) {
    Disciplined(c.prog, false, false)
  }

  ghost predicate DisciplinedConf(c: Conf) {
    match c
    case Running(leaf, outers, _, _) => DisciplinedCode(leaf) && forall o <- outers :: DisciplinedCode(o)
    case Finished(_, _, w) => !w
  }

  /** `sleep::await_suspend` and the waiting part of the socket loops keep the discipline. */
  function SleepFor(delay: Locals -> int, next: Prog): Prog {
    Mark(true, Act(l => StartTimer(delay(l)), Suspend(next)))
  }

  /** Asks the kernel, and goes on in the same way whatever it answers. */
  function RegisterFor(fd: Locals -> int, next: Prog): Prog {
    Act(l => Effect(fd(l)), Act(l => Register(fd(l), l != [] && Last(l) == 0), next))
  }

  function WaitFor(fd: Locals -> int, next: Prog): Prog {
    Mark(true, RegisterFor(fd, Suspend(next)))
  }

  /** The order used by `connect`: register first, then mark. */
  function RegisterThenWait(fd: Locals -> int, next: Prog): Prog {
    RegisterFor(fd, Mark(true, Suspend(next)))
  }

  lemma AwaitablesAreDisciplined(delay: Locals -> int, fd: Locals -> int, next: Prog)
    requires Disciplined(next, false, false)
    ensures Disciplined(SleepFor(delay, next), false, false)
    ensures Disciplined(WaitFor(fd, next), false, false)
    ensures Disciplined(RegisterThenWait(fd, next), false, false)
  {
    var t := (l: Locals) => StartTimer(delay(l));
    assert forall l :: t(l).StartTimer?;
    assert Disciplined(Act(t, Suspend(next)), true, false);
    RegisterArms(fd, Suspend(next), true);
    RegisterArms(fd, Mark(true, Suspend(next)), false);
  }

  lemma RegisterArms(fd: Locals -> int, next: Prog, waiting: bool)
    requires Disciplined(next, waiting, true)
    ensures Disciplined(RegisterFor(fd, next), waiting, false)
  {
    var e := (l: Locals) => Effect(fd(l));
    var r := (l: Locals) => Register(fd(l), l != [] && Last(l) == 0);
    assert forall l :: e(l).Effect? && r(l).Register?;
    assert Disciplined(Act(r, next), waiting, false);
  }

  predicate Arms(e: Event) {
    e.Did? && !e.action.Effect?
  }

  function Arming(h: History): nat {
    if h == [] then 0 else Arming(Init(h)) + if Arms(Last(h)) then 1 else 0
  }

  ghost predicate DisciplinedEvents(h: History) {
    forall e <- h :: e.Spawned? ==> DisciplinedCode(e.task)
  }

  lemma {:induction false} ArmingAppend(h: History, g: History)
    ensures Arming(h + g) == Arming(h) + Arming(g)
  {
    if g == [] {
      assert h + g == h;
    } else {
      assert Init(h + g) == h + Init(g);
      ArmingAppend(h, Init(g));
    }
  }

  lemma ActDisciplined(f: Locals -> Action, next: Prog, locals: Locals, waiting: bool, armed: bool)
    requires Disciplined(Act(f, next), waiting, armed)
    ensures Disciplined(next, waiting, armed || !f(locals).Effect?)
    ensures !f(locals).Effect? ==> !armed
  {
    if f(locals).Effect? {
      assert Disciplined(next, waiting, armed);
    } else {
      assert Disciplined(next, waiting, true);
    }
  }

  /** A pause of a disciplined frame that was resumed with `history`. */
  ghost predicate KeepsDiscipline(p: Pause, history: History, armed: bool)
    requires history <= p.history
  {
    && Arming(p.history[|history|..]) + (if armed then 1 else 0) == (if p.waiting then 1 else 0)
    && DisciplinedEvents(p.history[|history|..])
    && match p
       case Returned(_, _, _) => !p.waiting
       case Suspended(code, _, _) => DisciplinedCode(code)
       case Awaiting(code, child, _, _) => !p.waiting && DisciplinedCode(code) && DisciplinedCode(child)
  }

  lemma {:induction false} ResumeKeepsDiscipline(world: World, prog: Prog, locals: Locals, history: History,
                                                 waiting: bool, armed: bool)
    requires Disciplined(prog, waiting, armed)
    ensures KeepsDiscipline(Resume(world, prog, locals, history, waiting), history, armed)
    decreases prog
  {
    var p := Resume(world, prog, locals, history, waiting);
    match prog
    case Return(_) => assert p.history[|history|..] == [];
    case Act(f, next) =>
      var e := Did(f(locals));
      var h := history + [e];
      ActDisciplined(f, next, locals, waiting, armed);
      hide Disciplined, KeepsDiscipline;
      ResumeKeepsDiscipline(world, next, locals + [world(h)], h, waiting, armed || !f(locals).Effect?);
      EventKeepsDiscipline(p, history, e, armed);
    case Branch(f, yes, no) =>
      hide KeepsDiscipline;
      ResumeKeepsDiscipline(world, if f(locals) then yes else no, locals, history, waiting, armed);
    case Mark(w, next) =>
      hide KeepsDiscipline;
      ResumeKeepsDiscipline(world, next, locals, history, w, armed);
    case Suspend(_) => assert p.history[|history|..] == [];
    case Await(_, _, _) => assert p.history[|history|..] == [];
    case AwaitReady(f, next) =>
      hide KeepsDiscipline;
      ResumeKeepsDiscipline(world, next, locals + [f(locals)], history, waiting, armed);
    case Spawn(f, body, next) =>
      hide KeepsDiscipline;
      var e := Spawned(Code(body, f(locals)));
      ResumeKeepsDiscipline(world, next, locals, history + [e], waiting, armed);
      EventKeepsDiscipline(p, history, e, armed);
  }

  lemma EventKeepsDiscipline(p: Pause, history: History, e: Event, armed: bool)
    requires history + [e] <= p.history && KeepsDiscipline(p, history + [e], armed || Arms(e))
    requires Arms(e) ==> !armed
    requires e.Spawned? ==> DisciplinedCode(e.task)
    ensures KeepsDiscipline(p, history, armed)
  {
    hide DisciplinedCode;
    var more := p.history[|history| + 1..];
    assert p.history[|history|..] == [e] + more;
    ArmingAppend([e], more);
    assert Init([e]) == [] && Arming([e]) == Arming([]) + if Arms(e) then 1 else 0;
  }

  /** A step of a disciplined task: it ends in state kWait exactly when it left behind one timer
      or registration, it leaves at most one, it never pops a frame while waiting, and the
      task, and the tasks it spawned, stay disciplined. */
  lemma {:induction false} StepKeepsDiscipline(world: World, c: Conf)
    requires c.Running? && !c.waiting && DisciplinedConf(c)
    ensures var d := Step(world, c);
            && Arming(Added(c, d)) == (if d.waiting then 1 else 0)
            && DisciplinedConf(d) && DisciplinedEvents(Added(c, d))
    decreases |c.outers|
  {
    ResumeKeepsDiscipline(world, c.leaf.prog, c.leaf.locals, c.history, false, false);
    match Resume(world, c.leaf.prog, c.leaf.locals, c.history, false)
    case Suspended(_, _, _) =>
    case Awaiting(_, _, _, _) =>
    case Returned(v, h, w) =>
      if c.outers != [] {
        var popped := Running(Last(c.outers).Receive(v), Init(c.outers), h, w);
        assert Last(c.outers) in c.outers;
        assert forall o <- Init(c.outers) :: o in c.outers;
        StepKeepsDiscipline(world, popped);
        assert Step(world, c) == Step(world, popped);
        AddedInParts(c, popped, Step(world, popped));
        ArmingAppend(h[|c.history|..], Added(popped, Step(world, popped)));
      }
  }

  // ---------------------------------------------------------------------------------------
  // Where a step ends

  /** What the task had done at each suspension point that the direct execution of `prog` passes: at each
      `co_await std::suspend_always`, and where each fresh child is awaited. */
  ghost function Stops(world: World, prog: Prog, locals: Locals, history: History): seq<History>
    decreases prog
  {
    match prog
    case Return(_) => []
    case Act(f, next) =>
      var h := history + [Did(f(locals))];
      Stops(world, next, locals + [world(h)], h)
    case Branch(f, yes, no) => Stops(world, if f(locals) then yes else no, locals, history)
    case Mark(_, next) => Stops(world, next, locals, history)
    case Suspend(next) => [history] + Stops(world, next, locals, history)
    case Await(f, child, next) =>
      var r := Exec(world, child, f(locals), history);
      [history] + Stops(world, child, f(locals), history) + Stops(world, next, locals + [r.value], r.history)
    case AwaitReady(f, next) => Stops(world, next, locals + [f(locals)], history)
    case Spawn(f, body, next) => Stops(world, next, locals, history + [Spawned(Code(body, f(locals)))])
  }

  /** The same for what is left of a suspended task. */
  ghost function StopsLeft(world: World, leaf: Code, outers: seq<Code>, history: History): seq<History>
    decreases |outers|
  {
    var r := Exec(world, leaf.prog, leaf.locals, history);
    Stops(world, leaf.prog, leaf.locals, history)
    + if outers == [] then [] else StopsLeft(world, Last(outers).Receive(r.value), Init(outers), r.history)
  }

  ghost function StopsOf(world: World, c: Conf): seq<History> {
    match c
    case Running(leaf, outers, h, _) => StopsLeft(world, leaf, outers, h)
    case Finished(_, _, _) => []
  }

  /** A resumption ends at the first suspension point of the frame, and only there or with its return. */
  lemma {:induction false} ResumeStops(world: World, prog: Prog, locals: Locals, history: History, waiting: bool)
    ensures Stops(world, prog, locals, history)
         == match Resume(world, prog, locals, history, waiting)
            case Returned(_, _, _) => []
            case Suspended(code, h, _) => [h] + Stops(world, code.prog, code.locals, h)
            case Awaiting(code, child, h, _) =>
              var r := Exec(world, child.prog, child.locals, h);
              [h] + Stops(world, child.prog, child.locals, h)
              + Stops(world, code.prog, code.locals + [r.value], r.history)
    decreases prog
  {
    hide Exec;
    match prog
    case Return(_) =>
    case Act(f, next) =>
      var h := history + [Did(f(locals))];
      ResumeStops(world, next, locals + [world(h)], h, waiting);
    case Branch(f, yes, no) => ResumeStops(world, if f(locals) then yes else no, locals, history, waiting);
    case Mark(w, next) => ResumeStops(world, next, locals, history, w);
    case Suspend(_) =>
    case Await(_, _, _) =>
    case AwaitReady(f, next) => ResumeStops(world, next, locals + [f(locals)], history, waiting);
    case Spawn(f, body, next) =>
      ResumeStops(world, next, locals, history + [Spawned(Code(body, f(locals)))], waiting);
  }

  /** A step of a disciplined task goes exactly as far as its next suspension point, through all frames that
      return on the way: if there is none left it finishes the task; else it ends with what the task has
      done there, and the suspension points behind it are those that are left. */
  lemma {:induction false} StepStops(world: World, c: Conf)
    requires c.Running? && !c.waiting && DisciplinedConf(c)
    ensures var d, stops := Step(world, c), StopsOf(world, c);
            && (d.Finished? <==> stops == [])
            && (stops != [] ==> d.history == stops[0] && StopsOf(world, d) == stops[1..])
    decreases |c.outers|
  {
    hide Exec, Stops, Resume, Disciplined;
    ResumeStops(world, c.leaf.prog, c.leaf.locals, c.history, false);
    ResumeKeepsExec(world, c.leaf.prog, c.leaf.locals, c.history, false);
    ResumeKeepsDiscipline(world, c.leaf.prog, c.leaf.locals, c.history, false, false);
    match Resume(world, c.leaf.prog, c.leaf.locals, c.history, false)
    case Suspended(code, h, _) =>
      StopsNext(world, h, code, c.outers);
    case Awaiting(code, child, h, _) =>
      var outers := c.outers + [code];
      assert Last(outers) == code && Init(outers) == c.outers;
      var r := Exec(world, child.prog, child.locals, h);
      assert StopsLeft(world, child, outers, h)
          == Stops(world, child.prog, child.locals, h) + StopsLeft(world, code.Receive(r.value), c.outers, r.history);
      assert StopsOf(world, c) == [h] + StopsLeft(world, child, outers, h);
    case Returned(v, h, w) =>
      if c.outers != [] {
        var popped := Running(Last(c.outers).Receive(v), Init(c.outers), h, w);
        assert Last(c.outers) in c.outers && forall o <- Init(c.outers) :: o in c.outers;
        StepStops(world, popped);
        assert StopsOf(world, c) == StopsOf(world, popped);
      }
  }

  lemma StopsNext(world: World, h: History, code: Code, outers: seq<Code>)
    ensures var r, stops := Exec(world, code.prog, code.locals, h), Stops(world, code.prog, code.locals, h);
            var more := if outers == [] then []
                        else StopsLeft(world, Last(outers).Receive(r.value), Init(outers), r.history);
            [h] + stops + more == [h] + StopsLeft(world, code, outers, h)
  {
  }

  /** How often the driver steps a task. */
  ghost function StepsTaken(world: World, c: Conf): nat
    decreases Left(c)
  {
    if c.Finished? then 0
    else
      StepShrinks(world, Wake(c));
      1 + StepsTaken(world, Step(world, Wake(c)))
  }

  /** A disciplined task is done after one step more than it has suspension points left. */
  lemma {:induction false} StepsAreStops(world: World, c: Conf)
    requires c.Running? && DisciplinedConf(c)
    ensures StepsTaken(world, c) == |StopsOf(world, c)| + 1
    decreases Left(c)
  {
    StepShrinks(world, Wake(c));
    StepStops(world, Wake(c));
    StepKeepsDiscipline(world, Wake(c));
    assert StopsOf(world, Wake(c)) == StopsOf(world, c);
    var d := Step(world, Wake(c));
    if d.Running? {
      StepsAreStops(world, d);
    }
  }

  /** What the step of `sleep` leaves behind: the timer, with the delay that was asked for, and the task waiting
      in front of what follows. */
  lemma SleepStep(world: World, delay: Locals -> int, next: Prog, locals: Locals)
    ensures var d, h := Step(world, Start(Code(SleepFor(delay, next), locals))), [Did(StartTimer(delay(locals)))];
            d == Running(Code(next, locals + [world(h)]), [], h, true)
  {
    var h := [Did(StartTimer(delay(locals)))];
    assert [] + h == h;
    ResumeAct(world, l => StartTimer(delay(l)), Suspend(next), locals, [], true);
  }

  /** What the step of the waiting part of a socket loop leaves behind: the kernel was asked to watch the
      descriptor, which it does if it answered zero, and the task waits whatever it answered. */
  lemma WaitStep(world: World, fd: Locals -> int, next: Prog, locals: Locals)
    requires forall answer :: fd(locals + [answer]) == fd(locals)
    ensures var d, asked := Step(world, Start(Code(WaitFor(fd, next), locals))), [Did(Effect(fd(locals)))];
            var h := [Did(Effect(fd(locals))), Did(Register(fd(locals), world(asked) == 0))];
            d == Running(Code(next, locals + [world(asked)] + [world(h)]), [], h, true)
  {
    var asked := [Did(Effect(fd(locals)))];
    var more := locals + [world(asked)];
    assert [] + asked == asked && Last(more) == world(asked);
    var register := Act(l => Register(fd(l), l != [] && Last(l) == 0), Suspend(next));
    ResumeAct(world, l => Effect(fd(l)), register, locals, [], true);
    ResumeAct(world, register.action, Suspend(next), more, asked, true);
    assert register.action(more) == Register(fd(locals), world(asked) == 0);
    var registered := Did(Register(fd(locals), world(asked) == 0));
    assert asked + [Did(register.action(more))] == [Did(Effect(fd(locals))), registered];
  }

  lemma ResumeAct(world: World, f: Locals -> Action, next: Prog, locals: Locals, history: History, waiting: bool)
    ensures var p, h := Resume(world, Act(f, next), locals, history, waiting), history + [Did(f(locals))];
            p == Resume(world, next, locals + [world(h)], h, waiting)
  {
  }
}
