/** The pointer machine behind `one_step`: coroutine frames on the heap, linked by their inner and
    outer handles, driven from the root. */
module TaskChain {
  import opened Sequences
  import opened Wrappers
  import opened Coroutine

  datatype ScheduleType = kDone | kRun | kWait

  /** A coroutine frame with its promise.  `awaited` is the task object that the frame is
      suspended on, through which `await_resume` reads the value of the child. */
  class Frame {
    var prog: Prog
    var locals: Locals
    var awaited: Frame?
    var value: Option<Value>      // m_value; the frame is done once it is set
    var inner: Frame?             // m_inner_handle
    var outer: Frame?             // m_outer_handle
    ghost const depth: nat        // how many frames were suspended above it when it was created

    constructor (code: Code, ghost depth: nat)
      ensures this.depth == depth
      ensures prog == code.prog && locals == code.locals
      ensures awaited == null && value == None && inner == null && outer == null
    {
      prog, locals := code.prog, code.locals;
      awaited, value, inner, outer := null, None, null, null;
      this.depth := depth;
    }
  }

  class Task {
    const world: World
    const root: Frame
    var waiting: bool             // m_state, which is kRun or kWait between steps
    var history: History
    ghost var chain: seq<Frame>   // the frames reachable from the root by inner handles
    ghost var outers: seq<Code>   // where the frames above the last one will go on
    ghost var frames: set<Frame>  // all frames the task ever had

    /** The i-th frame of the chain is suspended on the next one; the two are each other's inner and
        outer frame. */
    ghost predicate Hooked(i: nat)
      requires i + 1 < |chain| && |outers| == |chain| - 1 && chain[i] in frames && chain[i + 1] in frames
      reads this, frames
    {
      var f, g := chain[i], chain[i + 1];
      && f.inner == g && g.outer == f && f.awaited == g && f.value == None
      && f.depth == i && g.depth == i + 1
      && outers[i] == Code(f.prog, f.locals)
    }

    /** The frames from the root on form a finite chain: inner and outer handles are inverse to each
        other, only the last frame has no inner handle, and no frame above the last one is done.
        (Depths grow along the chain, so no frame occurs in it twice.) */
    ghost predicate Linked()
      reads this, frames
    {
      && |chain| == |outers| + 1 && chain[0] == root && root.depth == 0
      && (forall f <- chain :: f in frames)
      && root.outer == null && Last(chain).inner == null
      && (forall i: nat {:trigger Hooked(i)} :: i < |outers| ==> Hooked(i))
    }

    /** The last frame is suspended on nothing, or on a child that is done; only the root may be done. */
    ghost predicate Valid()
      reads this, frames
    {
      && Linked()
      && LeafReady(Last(chain))
      && (|chain| > 1 ==> root.value == None && Last(chain).value == None)
    }

    /** As `Valid`, but the last frame has returned and has not been taken off the chain yet. */
    ghost predicate LeafReturned(f: Frame)
      reads this, frames
    {
      Linked() && f == Last(chain) && f.awaited == null && f.value.Some?
    }

    ghost predicate LeafReady(leaf: Frame)
      requires leaf in frames
      reads this, frames
    {
      leaf.awaited != null ==> leaf.awaited in frames && leaf.awaited.value.Some?
    }

    ghost function LeafCode(leaf: Frame): Code
      requires leaf in frames && LeafReady(leaf)
      reads this, frames
    {
      if leaf.awaited != null then Code(leaf.prog, leaf.locals).Receive(leaf.awaited.value.value)
      else Code(leaf.prog, leaf.locals)
    }

    /** The suspended task that the pointers stand for. */
    ghost function Abs(): Conf
      requires Valid()
      reads this, frames
    {
      if root.value.Some? then Finished(root.value.value, history, waiting)
      else Running(LeafCode(Last(chain)), outers, history, waiting)
    }

    /** The chain as seen from its handles: without repetition, `inner` and `outer` exact inverses of each
        other, and nobody done but a root that is alone. */
    lemma ChainShape()
      requires Valid()
      ensures forall i, j :: 0 <= i < j < |chain| ==> chain[i] != chain[j]
      ensures forall i :: 0 <= i < |chain| ==> chain[i].inner == if i + 1 < |chain| then chain[i + 1] else null
      ensures forall i :: 0 <= i < |chain| ==> chain[i].outer == if i > 0 then chain[i - 1] else null
      ensures forall i :: 0 <= i < |chain| && chain[i].value.Some? ==> i == 0 && |chain| == 1
    {
      forall i | 0 <= i < |chain|
        ensures chain[i].depth == i
        ensures chain[i].inner == if i + 1 < |chain| then chain[i + 1] else null
        ensures chain[i].outer == if i > 0 then chain[i - 1] else null
        ensures chain[i].value.Some? ==> i == 0 && |chain| == 1
      {
        if i > 0 {
          assert Hooked(i - 1);
        }
        if i + 1 < |chain| {
          assert Hooked(i);
        }
      }
    }

    constructor (world: World, code: Code)
      ensures Valid() && fresh(frames)
      ensures this.world == world && Abs() == Start(code)
    {
      var f := new Frame(code, 0);
      this.world, root := world, f;
      waiting, history := false, [];
      chain, outers, frames := [f], [], {f};
    }

    /** An await of a fresh task, up to its suspension: `task::await_suspend` links the frame of the
        child below the frame that awaits it. */
    method AwaitSuspend(f: Frame, child: Code, next: Prog)
      requires Valid() && f == Last(chain) && f.value == None && f.awaited == null
      modifies `chain, `outers, `frames, f`inner, f`prog, f`awaited
      ensures Valid() && fresh(frames - old(frames)) && old(frames) <= frames
      ensures |chain| == |old(chain)| + 1
      ensures Abs() == Running(child, old(outers) + [Code(next, f.locals)], history, waiting)
      ensures f.value == None
    {
      var c := new Frame(child, |chain|);
      f.prog, f.awaited := next, c;
      f.inner := c;
      c.outer := f;
      chain, outers, frames := chain + [c], outers + [Code(next, f.locals)], frames + {c};
      forall i: nat | i < |outers| ensures Hooked(i) {
        if i < |old(outers)| {
          assert old(Hooked(i));
        } else if 0 < i {
          assert old(Hooked(i - 1));
        }
      }
      assert 0 < |old(outers)| ==> Hooked(0);
    }

    /** `task::await_resume`: takes over the value of the child that was awaited, if any. */
    method AwaitResume(f: Frame)
      requires Valid() && f == Last(chain)
      modifies f`locals, f`awaited
      ensures Valid() && f.awaited == null && outers == old(outers)
      ensures Code(f.prog, f.locals) == old(LeafCode(f))
    {
      if f.awaited != null {
        f.locals := f.locals + [f.awaited.value.value];
        f.awaited := null;
      }
      forall i: nat | i < |outers| ensures Hooked(i) { assert old(Hooked(i)); }
    }

    /** `return_value`, which leaves the frame at its final suspension point. */
    method ReturnValue(f: Frame, v: Value)
      requires Valid() && f == Last(chain) && f.awaited == null
      modifies f`value
      ensures LeafReturned(f) && f.value == Some(v) && outers == old(outers)
    {
      f.value := Some(v);
      forall i: nat | i < |outers| ensures Hooked(i) { assert old(Hooked(i)); }
    }

    /** Runs the body of a frame up to the instruction at which it hands over: a return, a
        suspension point, or the await of a fresh task. */
    method RunBody(f: Frame)
      requires Valid() && f == Last(chain) && f.value == None && f.awaited == null
      modifies f`prog, f`locals, `waiting, `history
      ensures Valid() && outers == old(outers)
      ensures f.prog.Return? || f.prog.Suspend? || f.prog.Await?
      ensures Resume(world, f.prog, f.locals, history, waiting)
           == Resume(world, old(f.prog), old(f.locals), old(history), old(waiting))
    {
      while !f.prog.Return? && !f.prog.Suspend? && !f.prog.Await?
        invariant Resume(world, f.prog, f.locals, history, waiting)
               == Resume(world, old(f.prog), old(f.locals), old(history), old(waiting))
        decreases f.prog
      {
        match f.prog {
          case Act(action, next) =>
            history := history + [Did(action(f.locals))];
            f.prog, f.locals := next, f.locals + [world(history)];
          case Branch(cond, yes, no) =>
            f.prog := if cond(f.locals) then yes else no;
          case Mark(w, next) =>
            f.prog, waiting := next, w;
          case AwaitReady(ready, next) =>
            f.prog, f.locals := next, f.locals + [ready(f.locals)];
          case Spawn(args, body, next) =>
            history := history + [Spawned(Code(body, args(f.locals)))];
            f.prog := next;
        }
      }
      forall i: nat | i < |outers| ensures Hooked(i) { assert old(Hooked(i)); }
    }

    /** Leaves the frame suspended in front of `next`. */
    method Advance(f: Frame, next: Prog)
      requires Valid() && f == Last(chain) && f.value == None && f.awaited == null
      modifies f`prog
      ensures Valid() && Abs() == Running(Code(next, f.locals), outers, history, waiting)
    {
      f.prog := next;
      forall i: nat | i < |outers| ensures Hooked(i) { assert old(Hooked(i)); }
    }

    /** `coroutine_handle::resume` on the innermost frame: reads the value of the child it awaited,
        if any, runs up to the next suspension point or return, and links in the frame of a newly
        awaited child. */
    method ResumeFrame(f: Frame)
      requires Valid() && f == Last(chain) && f.value == None
      modifies this, f
      ensures fresh(frames - old(frames)) && old(frames) <= frames
      ensures match Resume(world, old(LeafCode(f)).prog, old(LeafCode(f)).locals, old(history), old(waiting))
              case Returned(v, h, w) =>
                && LeafReturned(f) && f.value == Some(v) && history == h && waiting == w
                && chain == old(chain) && frames == old(frames) && outers == old(outers)
              case Suspended(code, h, w) =>
                Valid() && f.value == None && Abs() == Running(code, old(outers), h, w)
              case Awaiting(code, child, h, w) =>
                Valid() && f.value == None && Abs() == Running(child, old(outers) + [code], h, w)
    {
      AwaitResume(f);
      RunBody(f);
      match f.prog {
        case Return(value) =>
          ReturnValue(f, value(f.locals));
        case Suspend(next) =>
          Advance(f, next);
        case Await(args, child, next) =>
          AwaitSuspend(f, Code(child, args(f.locals)), next);
      }
    }

    /** Goes from a frame that returned `v` back to the frame that awaited it. */
    method Pop(f: Frame, ghost v: Value) returns (below: Frame)
      requires LeafReturned(f) && f.value == Some(v) && f.outer != null
      modifies `chain, `outers, f.outer`inner
      ensures Valid() && |chain| == |old(chain)| - 1 && below == Last(chain)
      ensures old(outers) != []
      ensures Abs() == Running(Last(old(outers)).Receive(v), Init(old(outers)), history, waiting)
    {
      assert |chain| > 1 && Hooked(|chain| - 2);
      below := f.outer;
      below.inner := null;
      chain, outers := Init(chain), Init(outers);
      assert old(Hooked(0));
      forall i: nat | i < |outers| ensures Hooked(i) { assert old(Hooked(i)); }
    }

    /** One step of the task.  `resumed` counts the frames that were resumed. */
    method OneStep() returns (r: ScheduleType, ghost resumed: nat)
      requires Valid() && !waiting
      modifies this, frames
      ensures Valid() && fresh(frames - old(frames))
      ensures old(Abs()).Finished? ==> Abs() == old(Abs())
      ensures old(Abs()).Running? ==> Abs() == Step(world, old(Abs()))
      ensures r == (if Abs().Finished? then kDone else if waiting then kWait else kRun)
      ensures resumed <= |old(chain)|
      ensures old(Abs()).Running? && DisciplinedConf(old(Abs())) ==>
                var stops := StopsOf(world, old(Abs()));
                && (r == kDone <==> stops == [])
                && (stops != [] ==> history == stops[0] && StopsOf(world, Abs()) == stops[1..])
    {
      hide DisciplinedConf, StopsOf;
      if Abs().Running? && DisciplinedConf(Abs()) {
        StepStops(world, Abs());
      }
      resumed := 0;
      var curr: Frame? := root;
      ghost var i := 0;
      while curr != null
        invariant 0 <= i < |chain| && curr == chain[i]
        decreases |chain| - i
      {
        if i < |outers| {
          assert Hooked(i);
        }
        if curr.inner == null {
          r, resumed := StepLeaf(curr);
          return;
        }
        curr, i := curr.inner, i + 1;
      }
    }

    /** The inner loop of `one_step`: resumes the innermost frame and, as frames return, the
        frames that awaited them. */
    method StepLeaf(leaf: Frame) returns (r: ScheduleType, ghost resumed: nat)
      requires Valid() && !waiting && leaf == Last(chain)
      modifies this, frames
      ensures Valid() && fresh(frames - old(frames))
      ensures old(Abs()).Finished? ==> Abs() == old(Abs())
      ensures old(Abs()).Running? ==> Abs() == Step(world, old(Abs()))
      ensures r == (if Abs().Finished? then kDone else if waiting then kWait else kRun)
      ensures resumed <= |old(chain)|
    {
      var curr := leaf;
      resumed := 0;
      while curr.value == None && !waiting
        invariant Valid() && curr == Last(chain) && frames == old(frames)
        invariant old(Abs()).Finished? ==> Abs() == old(Abs())
        invariant old(Abs()).Running? ==>
          Abs().Running? && Step(world, old(Abs())) == if waiting then Abs() else Step(world, Abs())
        invariant resumed + |chain| <= |old(chain)|
        decreases |chain|
      {
        ResumeFrame(curr);
        resumed := resumed + 1;
        if curr.value == None {
          return if waiting then kWait else kRun, resumed;
        }
        if |chain| > 1 {
          assert Hooked(|chain| - 2);
        }
        if curr.outer == null {
          return kDone, resumed;
        }
        curr := Pop(curr, curr.value.value);
      }
      r := if curr.value.Some? then kDone else if waiting then kWait else kRun;
    }

    /** `basic_task::wake`, as far as the task itself is concerned. */
    method WakeUp()
      requires Valid()
      modifies `waiting
      ensures Valid() && Abs() == Wake(old(Abs()))
    {
      waiting := false;
      forall i: nat | i < |outers| ensures Hooked(i) { assert old(Hooked(i)); }
    }

    /** Drives the task alone, waking it whenever it waits: it returns the value, and performs the
        actions, of direct execution. */
    method RunToEnd() returns (v: Value)
      requires Valid()
      modifies this, frames
      ensures Valid() && fresh(frames - old(frames))
      ensures Run(v, history) == Meaning(world, old(Abs()))
    {
      ghost var goal := Meaning(world, Abs());
      while root.value == None
        invariant Valid() && fresh(frames - old(frames))
        invariant Meaning(world, Abs()) == goal
        decreases Left(Abs())
      {
        WakeUp();
        StepOnce();
      }
      v := root.value.value;
    }

    method StepOnce()
      requires Valid() && !waiting && root.value == None
      modifies this, frames
      ensures Valid() && fresh(frames - old(frames))
      ensures Meaning(world, Abs()) == Meaning(world, old(Abs()))
      ensures Left(Abs()) < Left(old(Abs()))
    {
      StepShrinks(world, Abs());
      StepKeepsMeaning(world, Abs());
      var _, _ := OneStep();
    }
  }
}
