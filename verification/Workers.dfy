/** The reactor with any number of threads in `run()`, driving real coroutine trees.

    A state of the step system of module Ownership is joined by what each task is, and by what each worker
    inside `one_step` has still to do.  The only guard that is left is that of the wake-ups: the others are
    proved of every coroutine that keeps the discipline. */
module Workers {
  import opened Sequences
  import opened Wrappers
  import opened Coroutine
  import O = Ownership
  import R = Reactor

  type Tid = O.Tid
  type Wid = O.Wid

  /** A worker inside `one_step`: where the step leads, and what it has still to do on the way.  (Where it
      leads depends on the task alone, as its world answers from what the task has done.) */
  datatype Turn = Turn(goal: Conf, todo: History)

  datatype System = System(own: O.State, tasks: map<Tid, Conf>, origin: map<Tid, Code>, turns: map<Wid, Turn>)

  const EMPTY := System(O.INITIAL, map[], map[], map[])

  datatype Label =
    | Submit(t: Tid, code: Code)               // a task comes from outside
    | Take(w: Wid)
    | Pass(w: Wid)                             // the task is waiting
    | Begin(w: Wid)
    | Store(w: Wid, status: O.Status)          // any wait() or cancel_wait() on the way
    | Do(w: Wid, now: int, id: Tid)         // the next thing; the clock, and the name of a spawned task
    | Return(w: Wid)
    | Push(w: Wid)
    | Remove(w: Wid)
    | Deliver(source: O.Source)
    | Schedule(t: Tid)

  /** The step of the step system, if there is one. */
  function OwnLabel(s: System, l: Label): Option<O.Label>
    requires l.Do? ==> l.w in s.turns && s.turns[l.w].todo != []
    requires l.Return? ==> l.w in s.turns
  {
    match l
    case Submit(t, _) => Some(O.Add(t))
    case Take(w) => Some(O.Pop(w))
    case Pass(w) => Some(O.Skip(w))
    case Begin(w) => Some(O.Enter(w))
    case Store(w, status) => Some(O.Mark(w, status))
    case Do(w, now, id) =>
      (match s.turns[w].todo[0]
       case Spawned(_) => Some(O.Add(id))
       case Did(StartTimer(delay)) => Some(O.Arm(w, O.Timer(now + delay)))
       case Did(Register(fd, accepted)) => Some(if accepted then O.Arm(w, O.Descriptor(fd)) else O.Refuse(w))
       case Did(Effect(_)) => None)
    case Return(w) => Some(if s.turns[w].goal.Finished? then O.Finish(w) else O.Suspend(w))
    case Push(w) => Some(O.Push(w))
    case Remove(w) => Some(O.Remove(w))
    case Deliver(k) => Some(O.BeginWake(k))
    case Schedule(t) => Some(O.EndWake(t))
  }

  /** When a step can be taken.  For `Return` the last store was that of the coroutine; for `Deliver` no worker
      holds the task, which is the one assumption on the environment. */
  ghost predicate Enabled(s: System, l: Label) {
    && (l.Do? ==> l.w in s.turns && s.turns[l.w].todo != [])
    && (l.Return? ==> l.w in s.turns)
    && (OwnLabel(s, l).Some? ==> O.Possible(s.own, OwnLabel(s, l).value))
    && match l
       case Submit(_, code) => DisciplinedCode(code)
       case Begin(w) => s.own.held[w] in s.tasks
       case Return(w) =>
         && s.turns[w].todo == [] && s.own.status[s.own.held[w]] == R.StatusOf(s.turns[w].goal)
       case Deliver(k) => s.own.pending[k] in s.tasks && s.own.pending[k] !in s.own.held.Values
       case _ => true
  }

  function StepOf(world: World, c: Conf): (d: Conf)
    ensures c.history <= d.history
  {
    if c.Running? then Step(world, c) else c
  }

  function Next(worlds: Tid -> World, s: System, l: Label): System
    requires Enabled(s, l)
  {
    var n := s.(own := match OwnLabel(s, l)
                       case Some(o) => O.Next(s.own, o)
                       case None => s.own);
    match l
    case Submit(t, code) => n.(tasks := s.tasks[t := Start(code)], origin := s.origin[t := code])
    case Begin(w) =>
      var t := s.own.held[w];
      var d := StepOf(worlds(t), s.tasks[t]);
      n.(turns := s.turns[w := Turn(d, Added(s.tasks[t], d))])
    case Do(w, _, id) =>
      var e, rest := s.turns[w].todo[0], s.turns[w].todo[1..];
      var m := n.(turns := s.turns[w := Turn(s.turns[w].goal, rest)]);
      if e.Spawned? then m.(tasks := s.tasks[id := Start(e.task)], origin := s.origin[id := e.task]) else m
    case Return(w) => n.(tasks := s.tasks[s.own.held[w] := s.turns[w].goal], turns := s.turns - {w})
    case Deliver(k) => n.(tasks := s.tasks[s.own.pending[k] := Wake(s.tasks[s.own.pending[k]])])
    case _ => n
  }

  // ---------------------------------------------------------------------------------------
  // The invariant

  /** Some worker holds the task and is at that point of its loop. */
  ghost predicate Held(own: O.State, t: Tid, p: O.Phase) {
    exists w <- own.held :: own.held[w] == t && w in own.phase && own.phase[w] == p
  }

  ghost predicate TaskOk(worlds: Tid -> World, s: System, t: Tid)
    requires t in s.tasks
  {
    var c := s.tasks[t];
    && t in s.origin && t in s.own.status
    && DisciplinedConf(c) && Meaning(worlds(t), c) == Exec(worlds(t), s.origin[t].prog, s.origin[t].locals, [])
    && (t in s.own.active <==> c.Running? || Held(s.own, t, O.Erase))
    && (Held(s.own, t, O.Erase) ==> c.Finished?)
    && (Held(s.own, t, O.Stepping) || s.own.status[t] == R.StatusOf(c))
  }

  /** What a worker inside `one_step` has done so far is the part of the step that is not still to do, and its
      task has a source exactly if that part armed one. */
  ghost predicate TurnOk(worlds: Tid -> World, s: System, w: Wid)
    requires w in s.turns
  {
    && O.At(s.own, w, O.Stepping) && s.own.held[w] in s.tasks
    && var t, turn := s.own.held[w], s.turns[w];
       var c := s.tasks[t];
       && c.Running? && !c.waiting && turn.goal == Step(worlds(t), c)
       && var all := Added(c, turn.goal);
          && |turn.todo| <= |all| && turn.todo == all[|all| - |turn.todo|..]
          && (t in O.Armed(s.own) <==> Arming(all[..|all| - |turn.todo|]) == 1)
  }

  ghost predicate Inv(worlds: Tid -> World, s: System) {
    && O.Inv(s.own) && s.tasks.Keys == s.origin.Keys == s.own.added
    && (forall t <- s.tasks :: TaskOk(worlds, s, t))
    && (forall w <- s.turns :: TurnOk(worlds, s, w))
    && (forall w <- s.own.held :: w in s.own.phase && (s.own.phase[w] == O.Stepping ==> w in s.turns))
  }

  // ---------------------------------------------------------------------------------------
  // What a step leaves alone

  /** The worker that takes a step. */
  function Actor(l: O.Label): Option<Wid> {
    match l
    case Pop(w) => Some(w)
    case Skip(w) => Some(w)
    case Enter(w) => Some(w)
    case Mark(w, _) => Some(w)
    case Arm(w, _) => Some(w)
    case Refuse(w) => Some(w)
    case Suspend(w) => Some(w)
    case Finish(w) => Some(w)
    case Push(w) => Some(w)
    case Remove(w) => Some(w)
    case _ => None
  }

  /** The task that a step is about. */
  function Subject(own: O.State, l: O.Label): Tid
    requires O.Possible(own, l)
  {
    match l
    case Add(t) => t
    case Pop(w) => own.ready[0]
    case BeginWake(k) => own.pending[k]
    case EndWake(t) => t
    case _ => own.held[Actor(l).value]
  }

  lemma OtherWorkers(own: O.State, l: O.Label, w: Wid)
    requires O.Possible(own, l) && Actor(l) != Some(w)
    ensures var n := O.Next(own, l);
            && (w in n.held <==> w in own.held) && (w in own.held ==> n.held[w] == own.held[w])
            && (w in n.phase <==> w in own.phase) && (w in own.phase ==> n.phase[w] == own.phase[w])
  {
  }

  lemma OtherTasks(own: O.State, l: O.Label, t: Tid)
    requires O.Inv(own) && O.Enabled(own, l) && t != Subject(own, l)
    ensures var n := O.Next(own, l);
            && (t in n.active <==> t in own.active)
            && (t in n.status <==> t in own.status) && (t in own.status ==> n.status[t] == own.status[t])
            && (forall p :: Held(n, t, p) <==> Held(own, t, p))
  {
    forall p
      ensures Held(O.Next(own, l), t, p) <==> Held(own, t, p)
    {
      SameHolders(own, l, t, p);
    }
  }

  lemma SameHolders(own: O.State, l: O.Label, t: Tid, p: O.Phase)
    requires O.Inv(own) && O.Enabled(own, l) && t != Subject(own, l)
    ensures Held(O.Next(own, l), t, p) <==> Held(own, t, p)
  {
    var n := O.Next(own, l);
    if Actor(l).Some? {
      ActorHasSubject(own, l);
    }
    hide O.Inv, O.Enabled, O.Next, O.Possible, O.Guarded, Subject;
    if Held(own, t, p) {
      var w :| w in own.held && own.held[w] == t && w in own.phase && own.phase[w] == p;
      OtherWorkers(own, l, w);
    }
    if Held(n, t, p) {
      var w :| w in n.held && n.held[w] == t && w in n.phase && n.phase[w] == p;
      OtherWorkers(own, l, w);
    }
  }

  lemma ActorHasSubject(own: O.State, l: O.Label)
    requires O.Possible(own, l) && Actor(l).Some?
    ensures var w, n, t := Actor(l).value, O.Next(own, l), Subject(own, l);
            (w in own.held ==> own.held[w] == t) && (w in n.held ==> n.held[w] == t)
  {
  }

  /** Which tasks have a source. */
  lemma ArmedAfter(own: O.State, l: O.Label)
    requires O.Inv(own) && O.Enabled(own, l)
    ensures O.Armed(O.Next(own, l)) == match l
                                       case Arm(w, _) => O.Armed(own) + {own.held[w]}
                                       case Refuse(w) => O.Armed(own) + {own.held[w]}
                                       case BeginWake(k) => O.Armed(own) - {own.pending[k]}
                                       case _ => O.Armed(own)
  {
    match l
    case Arm(w, k) =>
      if k !in own.pending {
        O.AddKey(own.pending, k, own.held[w]);
      } else if k.Descriptor? {
        O.ReplaceKey(own.pending, k, own.held[w]);
      }
    case BeginWake(k) =>
      O.RemoveKey(own.pending, k);
      assert own.pending[k] in own.pending.Values;
    case _ =>
  }

  lemma TaskFrame(worlds: Tid -> World, s: System, n: System, t: Tid)
    requires t in s.tasks && TaskOk(worlds, s, t)
    requires t in n.tasks && n.tasks[t] == s.tasks[t] && t in n.origin && n.origin[t] == s.origin[t]
    requires t in n.own.active <==> t in s.own.active
    requires t in n.own.status && n.own.status[t] == s.own.status[t]
    requires forall p :: Held(n.own, t, p) <==> Held(s.own, t, p)
    ensures TaskOk(worlds, n, t)
  {
    hide Held, DisciplinedConf, Meaning, Exec;
  }

  lemma TurnFrame(worlds: Tid -> World, s: System, n: System, w: Wid)
    requires w in s.turns && TurnOk(worlds, s, w) && w in n.turns && n.turns[w] == s.turns[w]
    requires w in n.own.held && n.own.held[w] == s.own.held[w] && w in n.own.phase && n.own.phase[w] == O.Stepping
    requires s.own.held[w] in n.own.status
    requires s.own.held[w] in n.tasks && n.tasks[s.own.held[w]] == s.tasks[s.own.held[w]]
    requires s.own.held[w] in O.Armed(n.own) <==> s.own.held[w] in O.Armed(s.own)
    ensures TurnOk(worlds, n, w)
  {
    hide O.Armed;
  }

  /** A step of somebody else leaves the source of a stepped task alone. */
  lemma OtherTurn(s: System, o: O.Label, w: Wid)
    requires O.Inv(s.own) && O.Enabled(s.own, o) && Actor(o) != Some(w) && O.At(s.own, w, O.Stepping)
    ensures s.own.held[w] in O.Armed(O.Next(s.own, o)) <==> s.own.held[w] in O.Armed(s.own)
    ensures s.own.held[w] in O.Next(s.own, o).status
  {
    ArmedAfter(s.own, o);
    hide O.Armed;
    assert s.own.held[w] in s.own.held.Values;
  }

  /** The same task, as far as the coroutine goes. */
  ghost predicate SameTask(s: System, n: System, t: Tid) {
    && t in s.tasks && t in n.tasks && n.tasks[t] == s.tasks[t]
    && t in s.origin && t in n.origin && n.origin[t] == s.origin[t]
  }

  /** A task that a step is not about. */
  lemma TaskKept(worlds: Tid -> World, s: System, n: System, o: O.Label, t: Tid)
    requires O.Inv(s.own) && O.Enabled(s.own, o) && n.own == O.Next(s.own, o)
    requires SameTask(s, n, t) && TaskOk(worlds, s, t) && t != Subject(s.own, o)
    ensures TaskOk(worlds, n, t)
  {
    OtherTasks(s.own, o, t);
    hide O.Inv, O.Enabled, O.Possible, O.Next, Subject;
    TaskFrame(worlds, s, n, t);
  }

  /** A worker inside `one_step` that does not take the step. */
  lemma TurnKept(worlds: Tid -> World, s: System, n: System, o: O.Label, w: Wid)
    requires O.Inv(s.own) && O.Enabled(s.own, o) && n.own == O.Next(s.own, o) && Actor(o) != Some(w)
    requires w in s.turns && TurnOk(worlds, s, w) && w in n.turns && n.turns[w] == s.turns[w]
    requires SameTask(s, n, s.own.held[w])
    ensures TurnOk(worlds, n, w)
  {
    OtherWorkers(s.own, o, w);
    OtherTurn(s, o, w);
    hide O.Inv, O.Enabled, O.Possible, O.Next, O.Armed;
    TurnFrame(worlds, s, n, w);
  }

  // ---------------------------------------------------------------------------------------
  // The task that a step is about

  /** The holder of a task is where it is, and nobody else holds the task. */
  lemma HolderPhase(own: O.State, w: Wid)
    requires O.Inv(own) && w in own.held
    ensures forall p :: Held(own, own.held[w], p) <==> w in own.phase && own.phase[w] == p
  {
  }

  lemma NotHeld(own: O.State, t: Tid)
    requires t !in own.held.Values
    ensures forall p :: !Held(own, t, p)
  {
  }

  /** The step is about one task, and leaves all others as they are. */
  ghost predicate AboutSubject(s: System, n: System, o: O.Label)
    requires O.Possible(s.own, o)
  {
    && n.own == O.Next(s.own, o) && n.tasks.Keys == n.origin.Keys == n.own.added
    && (forall t <- n.tasks :: t == Subject(s.own, o) || SameTask(s, n, t))
  }

  ghost predicate TurnsFit(worlds: Tid -> World, s: System, n: System, o: O.Label)
    requires O.Possible(s.own, o)
  {
    && (forall w <- n.turns ::
          || TurnOk(worlds, n, w)
          || (w in s.turns && n.turns[w] == s.turns[w] && Actor(o) != Some(w)
              && w in s.own.held && SameTask(s, n, s.own.held[w])))
    && (forall w <- n.own.held :: w in n.own.phase && (n.own.phase[w] == O.Stepping ==> w in n.turns))
  }

  /** A step that is right about its own task and its own turn keeps the invariant. */
  lemma Assemble(worlds: Tid -> World, s: System, n: System, o: O.Label)
    requires Inv(worlds, s) && O.Enabled(s.own, o) && AboutSubject(s, n, o) && TurnsFit(worlds, s, n, o)
    requires Subject(s.own, o) in n.tasks ==> TaskOk(worlds, n, Subject(s.own, o))
    ensures Inv(worlds, n)
  {
    O.StepKeepsInv(s.own, o);
    AssembleTasks(worlds, s, n, o);
    AssembleTurns(worlds, s, n, o);
    hide O.Inv, O.Enabled, O.Possible, O.Next, Subject, TaskOk, TurnOk, SameTask;
  }

  lemma AssembleTasks(worlds: Tid -> World, s: System, n: System, o: O.Label)
    requires Inv(worlds, s) && O.Enabled(s.own, o) && AboutSubject(s, n, o)
    requires Subject(s.own, o) in n.tasks ==> TaskOk(worlds, n, Subject(s.own, o))
    ensures forall t <- n.tasks :: TaskOk(worlds, n, t)
  {
    hide O.Inv, O.Possible, O.Next, Subject, TaskOk, TurnOk;
    forall t <- n.tasks
      ensures TaskOk(worlds, n, t)
    {
      if t != Subject(s.own, o) {
        TaskKept(worlds, s, n, o, t);
      }
    }
  }

  lemma AssembleTurns(worlds: Tid -> World, s: System, n: System, o: O.Label)
    requires Inv(worlds, s) && O.Enabled(s.own, o) && AboutSubject(s, n, o) && TurnsFit(worlds, s, n, o)
    ensures forall w <- n.turns :: TurnOk(worlds, n, w)
  {
    hide O.Inv, O.Enabled, O.Possible, O.Next, Subject, TaskOk, TurnOk, SameTask;
    forall w <- n.turns
      ensures TurnOk(worlds, n, w)
    {
      if !TurnOk(worlds, n, w) {
        TurnKept(worlds, s, n, o, w);
      }
    }
  }

  /** Steps of the loop around `one_step`, and the second half of a wake-up. */
  predicate IsIdle(o: O.Label) {
    o.Pop? || o.Push? || o.Remove? || o.EndWake?
  }

  /** A step that starts no turn and ends none. */
  lemma SameTurns(worlds: Tid -> World, s: System, n: System, o: O.Label)
    requires O.Possible(s.own, o) && (IsIdle(o) || o.Add? || o.BeginWake?)
    requires n.own == O.Next(s.own, o) && n.turns == s.turns
    requires forall w <- s.turns :: O.At(s.own, w, O.Stepping) && SameTask(s, n, s.own.held[w])
    requires forall w <- s.own.held :: w in s.own.phase && (s.own.phase[w] == O.Stepping ==> w in s.turns)
    ensures TurnsFit(worlds, s, n, o)
  {
    hide SameTask;
    forall w <- n.turns
      ensures Actor(o) != Some(w)
    {
      assert O.At(s.own, w, O.Stepping);
    }
    forall w <- n.own.held
      ensures w in n.own.phase && (n.own.phase[w] == O.Stepping ==> w in n.turns)
    {
      if Actor(o) != Some(w) {
        OtherWorkers(s.own, o, w);
      }
    }
  }

  lemma TurnsInside(worlds: Tid -> World, s: System)
    requires Inv(worlds, s)
    ensures forall w <- s.turns :: O.At(s.own, w, O.Stepping) && SameTask(s, s, s.own.held[w])
  {
    hide O.Inv, TaskOk;
    forall w <- s.turns
      ensures O.At(s.own, w, O.Stepping) && SameTask(s, s, s.own.held[w])
    {
      assert TurnOk(worlds, s, w);
    }
  }

  lemma IdleTask(worlds: Tid -> World, s: System, o: O.Label)
    requires O.Inv(s.own) && IsIdle(o) && O.Enabled(s.own, o)
    requires Subject(s.own, o) in s.tasks && TaskOk(worlds, s, Subject(s.own, o))
    ensures TaskOk(worlds, s.(own := O.Next(s.own, o)), Subject(s.own, o))
  {
    hide DisciplinedConf, Meaning, Exec;
    var t, n := Subject(s.own, o), O.Next(s.own, o);
    O.StepKeepsInv(s.own, o);
    if o.Pop? {
      R.FrontFacts(s.own);
      NotHeld(s.own, t);
      HolderPhase(n, o.w);
    } else if o.EndWake? {
      NotHeld(s.own, t);
      NotHeld(n, t);
    } else {
      HolderPhase(s.own, o.w);
      O.ReleaseHeld(s.own, o.w);
      NotHeld(n, t);
    }
  }

  lemma AddedAfter(own: O.State, o: O.Label)
    requires O.Possible(own, o)
    ensures O.Next(own, o).added == own.added + if o.Add? then {o.t} else {}
  {
  }

  lemma IdleKeepsInv(worlds: Tid -> World, s: System, o: O.Label)
    requires Inv(worlds, s) && IsIdle(o) && O.Enabled(s.own, o)
    ensures Inv(worlds, s.(own := O.Next(s.own, o)))
  {
    hide O.Possible, O.Next, TaskOk, TurnOk;
    var n := s.(own := O.Next(s.own, o));
    SubjectAdded(s.own, o);
    AddedAfter(s.own, o);
    IdleTask(worlds, s, o);
    TurnsInside(worlds, s);
    hide O.Inv, Subject;
    assert AboutSubject(s, n, o);
    SameTurns(worlds, s, n, o);
    hide Inv, AboutSubject, TurnsFit;
    Assemble(worlds, s, n, o);
  }

  lemma SubjectAdded(own: O.State, o: O.Label)
    requires O.Inv(own) && !o.Add? && O.Enabled(own, o)
    ensures Subject(own, o) in own.added
  {
  }

  // ---------------------------------------------------------------------------------------
  // Tasks that come in

  lemma AddTask(worlds: Tid -> World, s: System, n: System, t: Tid, code: Code)
    requires O.Inv(s.own) && O.Enabled(s.own, O.Add(t)) && n.own == O.Next(s.own, O.Add(t)) && DisciplinedCode(code)
    requires t in n.tasks && n.tasks[t] == Start(code) && t in n.origin && n.origin[t] == code
    ensures TaskOk(worlds, n, t)
  {
    assert t !in s.own.held.Values;
    NotHeld(n.own, t);
    assert Meaning(worlds(t), Start(code)) == Exec(worlds(t), code.prog, code.locals, []);
  }

  lemma SubmitKeepsInv(worlds: Tid -> World, s: System, t: Tid, code: Code)
    requires Inv(worlds, s) && Enabled(s, Submit(t, code))
    ensures Inv(worlds, Next(worlds, s, Submit(t, code)))
  {
    hide O.Next, TaskOk, TurnOk;
    var n, o := Next(worlds, s, Submit(t, code)), O.Add(t);
    AddedAfter(s.own, o);
    AddTask(worlds, s, n, t, code);
    TurnsInside(worlds, s);
    hide O.Inv;
    assert AboutSubject(s, n, o);
    SameTurns(worlds, s, n, o);
    hide Inv, AboutSubject, TurnsFit, Enabled, Next;
    Assemble(worlds, s, n, o);
  }

  // ---------------------------------------------------------------------------------------
  // Turns

  lemma HeldFacts(worlds: Tid -> World, s: System, w: Wid)
    requires Inv(worlds, s) && w in s.own.held
    ensures s.own.held[w] in s.tasks && TaskOk(worlds, s, s.own.held[w])
    ensures s.own.held[w] in s.own.active && w in s.own.phase
    ensures forall p :: Held(s.own, s.own.held[w], p) <==> s.own.phase[w] == p
    ensures forall v <- s.own.held :: v != w ==> s.own.held[v] != s.own.held[w]
  {
    hide TaskOk, TurnOk;
    assert s.own.held[w] in s.own.held.Values;
    HolderPhase(s.own, w);
  }

  /** Turns and workers inside `one_step` are the same, and each has a task of its own. */
  ghost predicate TurnsAt(s: System) {
    && (forall w <- s.turns :: O.At(s.own, w, O.Stepping) && SameTask(s, s, s.own.held[w]))
    && (forall w <- s.own.held :: w in s.own.phase && (s.own.phase[w] == O.Stepping ==> w in s.turns))
    && (forall v, w :: v in s.own.held && w in s.own.held && s.own.held[v] == s.own.held[w] ==> v == w)
  }

  lemma InvTurnsAt(worlds: Tid -> World, s: System)
    requires Inv(worlds, s)
    ensures TurnsAt(s)
  {
    TurnsInside(worlds, s);
    hide TaskOk, TurnOk, SameTask;
  }

  /** A step in which worker `w` starts, continues or ends its turn. */
  lemma TurnsOfOne(worlds: Tid -> World, s: System, n: System, o: O.Label, w: Wid)
    requires TurnsAt(s) && O.Possible(s.own, o) && n.own == O.Next(s.own, o)
    requires Actor(o) == Some(w) && w in s.own.held && n.turns - {w} == s.turns - {w}
    requires forall t :: SameTask(s, s, t) && t != s.own.held[w] ==> SameTask(s, n, t)
    requires w in n.turns ==> TurnOk(worlds, n, w)
    requires w in n.own.held ==> w in n.own.phase && (n.own.phase[w] == O.Stepping ==> w in n.turns)
    ensures TurnsFit(worlds, s, n, o)
  {
    hide TurnOk, SameTask, O.Next, O.Possible;
    OtherTurnsStay(s, n, w);
    forall v <- n.own.held | v != w
      ensures v in n.own.phase && (n.own.phase[v] == O.Stepping ==> v in n.turns)
    {
      OtherWorkers(s.own, o, v);
      SameTurn(s.turns, n.turns, w, v);
    }
    hide TurnsAt;
  }

  lemma OtherTurnsStay(s: System, n: System, w: Wid)
    requires TurnsAt(s) && w in s.own.held && n.turns - {w} == s.turns - {w}
    requires forall t :: SameTask(s, s, t) && t != s.own.held[w] ==> SameTask(s, n, t)
    ensures forall v <- n.turns :: v != w ==>
              v in s.turns && n.turns[v] == s.turns[v] && v in s.own.held && SameTask(s, n, s.own.held[v])
  {
    hide SameTask;
    forall v <- n.turns | v != w
      ensures v in s.turns && n.turns[v] == s.turns[v] && v in s.own.held && SameTask(s, n, s.own.held[v])
    {
      SameTurn(s.turns, n.turns, w, v);
      assert SameTask(s, s, s.own.held[v]);
    }
  }

  lemma SameTurn(a: map<Wid, Turn>, b: map<Wid, Turn>, w: Wid, v: Wid)
    requires a - {w} == b - {w} && v != w
    ensures v in a <==> v in b
    ensures v in a ==> a[v] == b[v]
  {
    assert v in a <==> v in a - {w};
    assert v in b <==> v in b - {w};
    assert v in a ==> (a - {w})[v] == a[v] && (b - {w})[v] == b[v];
  }

  lemma PoppedFacts(own: O.State, w: Wid)
    requires O.Inv(own) && O.At(own, w, O.Popped)
    ensures own.status[own.held[w]] == O.Run && own.held[w] !in O.Armed(own)
  {
  }

  lemma BeginTask(worlds: Tid -> World, s: System, n: System, w: Wid)
    requires Inv(worlds, s) && O.Enabled(s.own, O.Enter(w)) && n.own == O.Next(s.own, O.Enter(w))
    requires SameTask(s, n, s.own.held[w])
    ensures TaskOk(worlds, n, s.own.held[w])
  {
    HeldFacts(worlds, s, w);
    O.StepKeepsInv(s.own, O.Enter(w));
    HolderPhase(n.own, w);
    hide O.Inv, O.Armed, Held, Meaning, Exec, DisciplinedConf;
  }

  lemma BeginTurn(worlds: Tid -> World, s: System, n: System, w: Wid)
    requires Inv(worlds, s) && O.Enabled(s.own, O.Enter(w)) && n.own == O.Next(s.own, O.Enter(w))
    requires SameTask(s, n, s.own.held[w]) && w in n.turns
    requires var c := s.tasks[s.own.held[w]];
             var d := StepOf(worlds(s.own.held[w]), c);
             n.turns[w] == Turn(d, Added(c, d))
    ensures TurnOk(worlds, n, w)
  {
    hide O.Inv, O.Armed, Held, Meaning, Exec, DisciplinedConf, TurnOk;
    HeldFacts(worlds, s, w);
    PoppedFacts(s.own, w);
    ArmedAfter(s.own, O.Enter(w));
    hide Inv;
    FreshTurn(worlds, n, w);
  }

  /** A turn that has not begun. */
  lemma FreshTurn(worlds: Tid -> World, n: System, w: Wid)
    requires w in n.turns && O.At(n.own, w, O.Stepping) && n.own.held[w] in n.tasks
    requires var c := n.tasks[n.own.held[w]];
             && c.Running? && !c.waiting
             && var d := Step(worlds(n.own.held[w]), c);
                n.turns[w] == Turn(d, Added(c, d))
    requires n.own.held[w] !in O.Armed(n.own)
    ensures TurnOk(worlds, n, w)
  {
    hide O.Armed;
    var all := n.turns[w].todo;
    assert all[|all| - |all|..] == all && all[..0] == [];
  }

  lemma BeginKeepsInv(worlds: Tid -> World, s: System, w: Wid)
    requires Inv(worlds, s) && Enabled(s, Begin(w))
    ensures Inv(worlds, Next(worlds, s, Begin(w)))
  {
    hide TaskOk, TurnOk, O.Inv;
    var n, o := Next(worlds, s, Begin(w)), O.Enter(w);
    BeginTask(worlds, s, n, w);
    BeginTurn(worlds, s, n, w);
    InvTurnsAt(worlds, s);
    assert n.turns - {w} == s.turns - {w};
    TurnsOfOne(worlds, s, n, o, w);
    assert AboutSubject(s, n, o);
    hide Inv, AboutSubject, TurnsFit, Enabled, Next;
    Assemble(worlds, s, n, o);
  }

  lemma StoreTask(worlds: Tid -> World, s: System, n: System, w: Wid, status: O.Status)
    requires Inv(worlds, s) && O.Enabled(s.own, O.Mark(w, status)) && n.own == O.Next(s.own, O.Mark(w, status))
    requires SameTask(s, n, s.own.held[w])
    ensures TaskOk(worlds, n, s.own.held[w]) && O.At(n.own, w, O.Stepping)
  {
    hide O.Inv, O.Armed, Held, Meaning, Exec, DisciplinedConf, TurnOk;
    HeldFacts(worlds, s, w);
    O.StepKeepsInv(s.own, O.Mark(w, status));
    HolderPhase(n.own, w);
    hide Inv;
  }

  lemma StoreTurn(worlds: Tid -> World, s: System, n: System, w: Wid, status: O.Status)
    requires Inv(worlds, s) && O.Enabled(s.own, O.Mark(w, status)) && w in s.turns
    requires n == s.(own := O.Next(s.own, O.Mark(w, status)))
    ensures TurnOk(worlds, n, w)
  {
    hide O.Inv, O.Armed, Held, TaskOk, TurnOk;
    ArmedAfter(s.own, O.Mark(w, status));
    TurnsInside(worlds, s);
    TurnFrame(worlds, s, n, w);
  }

  lemma StoreKeepsInv(worlds: Tid -> World, s: System, w: Wid, status: O.Status)
    requires Inv(worlds, s) && Enabled(s, Store(w, status))
    ensures Inv(worlds, Next(worlds, s, Store(w, status)))
  {
    hide TaskOk, TurnOk, O.Inv;
    var n, o := Next(worlds, s, Store(w, status)), O.Mark(w, status);
    InvTurnsAt(worlds, s);
    assert w in s.turns && s.own.held[w] in s.tasks by {
      HeldFacts(worlds, s, w);
    }
    StoreTask(worlds, s, n, w, status);
    StoreTurn(worlds, s, n, w, status);
    TurnsOfOne(worlds, s, n, o, w);
    assert AboutSubject(s, n, o);
    hide Inv, AboutSubject, TurnsFit, Enabled, Next;
    Assemble(worlds, s, n, o);
  }

  /** What the discipline says of a turn. */
  lemma TurnFacts(worlds: Tid -> World, s: System, w: Wid)
    requires Inv(worlds, s) && w in s.turns
    ensures O.At(s.own, w, O.Stepping) && s.own.held[w] in s.tasks && s.tasks[s.own.held[w]].Running?
    ensures var t, turn := s.own.held[w], s.turns[w];
            var all := Added(s.tasks[t], turn.goal);
            && turn.goal == Step(worlds(t), s.tasks[t])
            && Arming(all) == (if turn.goal.waiting then 1 else 0)
            && DisciplinedConf(turn.goal) && DisciplinedEvents(all)
            && Meaning(worlds(t), turn.goal) == Meaning(worlds(t), s.tasks[t])
  {
    hide O.Inv, DisciplinedConf, Meaning, Exec, DisciplinedEvents;
    assert TurnOk(worlds, s, w);
    var t := s.own.held[w];
    assert TaskOk(worlds, s, t);
    StepKeepsDiscipline(worlds(t), s.tasks[t]);
    StepKeepsMeaning(worlds(t), s.tasks[t]);
  }

  /** The next thing to do arms a source only if none is armed yet. */
  lemma NextEvent(worlds: Tid -> World, s: System, w: Wid)
    requires Inv(worlds, s) && w in s.turns && s.turns[w].todo != []
    ensures O.At(s.own, w, O.Stepping)
    ensures var e := s.turns[w].todo[0];
            && (Arms(e) ==> s.own.held[w] !in O.Armed(s.own))
            && (e.Spawned? ==> DisciplinedCode(e.task))
  {
    TurnFacts(worlds, s, w);
    assert TurnOk(worlds, s, w);
    hide O.Inv, O.Armed, TaskOk, DisciplinedConf, DisciplinedCode, Meaning, Step, StepOf;
    var turn := s.turns[w];
    var all := Added(s.tasks[s.own.held[w]], turn.goal);
    var done := |all| - |turn.todo|;
    assert turn.todo[0] == all[done];
    R.Prefix(all, done);
  }

  /** The turn goes on by one thing. */
  lemma TurnShift(worlds: Tid -> World, s: System, n: System, w: Wid)
    requires w in s.turns && TurnOk(worlds, s, w) && s.turns[w].todo != [] && w in n.turns
    requires n.turns[w] == s.turns[w].(todo := s.turns[w].todo[1..])
    requires O.At(n.own, w, O.Stepping) && n.own.held[w] == s.own.held[w]
    requires s.own.held[w] in n.tasks && n.tasks[s.own.held[w]] == s.tasks[s.own.held[w]]
    requires var e := s.turns[w].todo[0];
             && (Arms(e) ==> s.own.held[w] !in O.Armed(s.own))
             && (s.own.held[w] in O.Armed(n.own) <==> s.own.held[w] in O.Armed(s.own) || Arms(e))
    requires Arming(Added(s.tasks[s.own.held[w]], s.turns[w].goal)) <= 1
    ensures TurnOk(worlds, n, w)
  {
    hide O.Armed, Step;
    var turn := s.turns[w];
    var all := Added(s.tasks[s.own.held[w]], turn.goal);
    var done := |all| - |turn.todo|;
    assert turn.todo[0] == all[done] && turn.todo[1..] == all[done + 1..];
    R.Prefix(all, done);
  }

  /** The turn of `w` goes on to its next thing. */
  function Forward(s: System, w: Wid): System
    requires w in s.turns && s.turns[w].todo != []
  {
    s.(turns := s.turns[w := s.turns[w].(todo := s.turns[w].todo[1..])])
  }

  /** Steps that arm a source for the task of `w`. */
  predicate IsArming(o: O.Label, w: Wid) {
    (o.Arm? || o.Refuse?) && o.w == w
  }

  lemma ArmGuarded(worlds: Tid -> World, s: System, o: O.Label, w: Wid)
    requires Inv(worlds, s) && IsArming(o, w) && O.Possible(s.own, o)
    requires w in s.turns && s.turns[w].todo != [] && Arms(s.turns[w].todo[0])
    ensures O.Enabled(s.own, o) && Subject(s.own, o) == s.own.held[w]
    ensures O.Next(s.own, o).held == s.own.held && O.Next(s.own, o).phase == s.own.phase
  {
    hide O.Inv, O.Armed, Inv;
    NextEvent(worlds, s, w);
  }

  lemma ArmTask(worlds: Tid -> World, s: System, n: System, o: O.Label, w: Wid)
    requires O.Inv(s.own) && IsArming(o, w) && O.Enabled(s.own, o) && n.own == O.Next(s.own, o)
    requires SameTask(s, n, s.own.held[w]) && TaskOk(worlds, s, s.own.held[w])
    ensures TaskOk(worlds, n, s.own.held[w])
  {
    hide O.Inv;
    var t := s.own.held[w];
    forall p
      ensures Held(n.own, t, p) <==> Held(s.own, t, p)
    {
      assert n.own.held == s.own.held && n.own.phase == s.own.phase;
    }
    TaskFrame(worlds, s, n, t);
  }

  lemma ArmTurn(worlds: Tid -> World, s: System, n: System, o: O.Label, w: Wid)
    requires Inv(worlds, s) && IsArming(o, w) && O.Enabled(s.own, o)
    requires w in s.turns && s.turns[w].todo != [] && Arms(s.turns[w].todo[0])
    requires n == Forward(s, w).(own := O.Next(s.own, o))
    ensures TurnOk(worlds, n, w)
  {
    hide O.Armed, O.Inv, TaskOk, DisciplinedConf, Meaning, Exec, TurnOk, Arming, DisciplinedEvents, Step, O.Possible;
    NextEvent(worlds, s, w);
    TurnFacts(worlds, s, w);
    ArmedAfter(s.own, o);
    TurnShift(worlds, s, n, w);
  }

  lemma ArmKeepsInv(worlds: Tid -> World, s: System, n: System, o: O.Label, w: Wid)
    requires Inv(worlds, s) && IsArming(o, w) && O.Possible(s.own, o)
    requires w in s.turns && s.turns[w].todo != [] && Arms(s.turns[w].todo[0])
    requires n == Forward(s, w).(own := O.Next(s.own, o))
    ensures Inv(worlds, n) && O.Enabled(s.own, o)
  {
    hide O.Next, TaskOk, TurnOk, O.Inv, Subject, O.Possible, O.Armed, Arms;
    assert w in s.own.held && Actor(o) == Some(w) && s.own.held[w] in s.tasks by {
      TurnFacts(worlds, s, w);
    }
    ArmGuarded(worlds, s, o, w);
    HeldFacts(worlds, s, w);
    ArmTask(worlds, s, n, o, w);
    ArmTurn(worlds, s, n, o, w);
    InvTurnsAt(worlds, s);
    AddedAfter(s.own, o);
    assert n.turns - {w} == s.turns - {w};
    assert AboutSubject(s, n, o);
    hide Inv, AboutSubject, O.Enabled, IsArming, Actor;
    TurnsOfOne(worlds, s, n, o, w);
    hide TurnsFit;
    Assemble(worlds, s, n, o);
  }

  lemma EffectTurn(worlds: Tid -> World, s: System, w: Wid)
    requires Inv(worlds, s) && w in s.turns && s.turns[w].todo != [] && !Arms(s.turns[w].todo[0])
    ensures TurnOk(worlds, Forward(s, w), w)
  {
    hide O.Armed, O.Inv, TaskOk, DisciplinedConf, Meaning, Exec, TurnOk, Arming, DisciplinedEvents, Step;
    TurnFacts(worlds, s, w);
    TurnShift(worlds, s, Forward(s, w), w);
  }

  lemma EffectKeepsInv(worlds: Tid -> World, s: System, w: Wid)
    requires Inv(worlds, s) && w in s.turns && s.turns[w].todo != [] && !Arms(s.turns[w].todo[0])
    ensures Inv(worlds, Forward(s, w))
  {
    hide O.Inv, O.Armed, Held, TaskOk, TurnOk;
    var n := Forward(s, w);
    EffectTurn(worlds, s, w);
    TurnsInside(worlds, s);
    forall t <- n.tasks
      ensures TaskOk(worlds, n, t)
    {
      HasStatus(worlds, s, t);
      TaskFrame(worlds, s, n, t);
    }
    forall v <- n.turns
      ensures TurnOk(worlds, n, v)
    {
      if v != w {
        TurnFrame(worlds, s, n, v);
      }
    }
  }

  lemma HasStatus(worlds: Tid -> World, s: System, t: Tid)
    requires t in s.tasks && TaskOk(worlds, s, t)
    ensures t in s.own.status && t in s.origin
  {
  }

  lemma SpawnTurns(worlds: Tid -> World, s: System, n: System, id: Tid, w: Wid)
    requires TurnsAt(s) && O.Possible(s.own, O.Add(id)) && n.own == O.Next(s.own, O.Add(id))
    requires w in s.turns && w in n.turns && n.turns - {w} == s.turns - {w} && TurnOk(worlds, n, w)
    requires forall t :: SameTask(s, s, t) ==> SameTask(s, n, t)
    ensures TurnsFit(worlds, s, n, O.Add(id))
  {
    hide TurnOk, SameTask;
    assert n.own.held == s.own.held && n.own.phase == s.own.phase;
    hide O.Next, O.Possible;
    forall v <- n.turns | v != w
      ensures v in s.turns && n.turns[v] == s.turns[v] && v in s.own.held && SameTask(s, n, s.own.held[v])
    {
      SameTurn(s.turns, n.turns, w, v);
      assert SameTask(s, s, s.own.held[v]);
    }
    forall v <- n.own.held
      ensures v in n.own.phase && (n.own.phase[v] == O.Stepping ==> v in n.turns)
    {
      if v != w {
        SameTurn(s.turns, n.turns, w, v);
      }
    }
  }

  /** Worker `w` puts a new task into the reactor. */
  function SpawnedBy(s: System, w: Wid, id: Tid, code: Code): System
    requires w in s.turns && s.turns[w].todo != [] && O.Possible(s.own, O.Add(id))
  {
    Forward(s, w).(own := O.Next(s.own, O.Add(id)), tasks := s.tasks[id := Start(code)], origin := s.origin[id := code])
  }

  lemma SpawnTurn(worlds: Tid -> World, s: System, w: Wid, id: Tid, code: Code)
    requires Inv(worlds, s) && O.Possible(s.own, O.Add(id))
    requires w in s.turns && s.turns[w].todo != [] && s.turns[w].todo[0] == Event.Spawned(code)
    ensures TurnOk(worlds, SpawnedBy(s, w, id, code), w)
  {
    hide O.Armed, TaskOk, DisciplinedConf, Meaning, Exec, TurnOk, Arming, DisciplinedEvents, Step;
    TurnFacts(worlds, s, w);
    ArmedAfter(s.own, O.Add(id));
    assert s.own.held[w] in s.tasks && id !in s.tasks;
    hide O.Inv;
    TurnShift(worlds, s, SpawnedBy(s, w, id, code), w);
  }

  lemma SpawnKeepsInv(worlds: Tid -> World, s: System, w: Wid, id: Tid, code: Code)
    requires Inv(worlds, s) && O.Possible(s.own, O.Add(id))
    requires w in s.turns && s.turns[w].todo != [] && s.turns[w].todo[0] == Event.Spawned(code)
    ensures Inv(worlds, SpawnedBy(s, w, id, code))
  {
    hide O.Inv, TaskOk, TurnOk;
    var n, o := SpawnedBy(s, w, id, code), O.Add(id);
    assert id !in s.tasks;
    NextEvent(worlds, s, w);
    SpawnTurn(worlds, s, w, id, code);
    AddTask(worlds, s, n, id, code);
    InvTurnsAt(worlds, s);
    AddedAfter(s.own, o);
    assert n.turns - {w} == s.turns - {w};
    assert AboutSubject(s, n, o);
    hide Inv, AboutSubject, O.Next;
    SpawnTurns(worlds, s, n, id, w);
    hide TurnsFit;
    Assemble(worlds, s, n, o);
  }

  // ---------------------------------------------------------------------------------------
  // Returns and wake-ups

  /** The step of the step system when a turn is over. */
  function Leaving(s: System, w: Wid): O.Label
    requires w in s.turns
  {
    if s.turns[w].goal.Finished? then O.Finish(w) else O.Suspend(w)
  }

  /** Worker `w` is back from `one_step`. */
  ghost predicate IsBack(s: System, w: Wid) {
    && w in s.turns && s.turns[w].todo == [] && O.At(s.own, w, O.Stepping)
    && s.own.status[s.own.held[w]] == R.StatusOf(s.turns[w].goal)
  }

  /** The step is over with the task in kWait exactly if it has a source; a finished one has none. */
  lemma ReturnGuarded(worlds: Tid -> World, s: System, w: Wid)
    requires Inv(worlds, s) && IsBack(s, w)
    ensures O.Enabled(s.own, Leaving(s, w))
  {
    hide O.Inv, O.Armed, TaskOk, TurnOk, Meaning, Exec, DisciplinedEvents, Step, Arming;
    TurnFacts(worlds, s, w);
    TurnOver(worlds, s, w);
  }

  lemma TurnOver(worlds: Tid -> World, s: System, w: Wid)
    requires w in s.turns && TurnOk(worlds, s, w) && s.turns[w].todo == []
    ensures s.own.held[w] in O.Armed(s.own) <==> Arming(Added(s.tasks[s.own.held[w]], s.turns[w].goal)) == 1
  {
    hide O.Armed;
    var all := Added(s.tasks[s.own.held[w]], s.turns[w].goal);
    assert all[..|all|] == all;
  }

  function BackFrom(s: System, w: Wid): System
    requires w in s.turns && O.At(s.own, w, O.Stepping)
  {
    s.(own := O.Next(s.own, Leaving(s, w)), turns := s.turns - {w}, tasks := s.tasks[s.own.held[w] := s.turns[w].goal])
  }

  lemma ReturnTask(worlds: Tid -> World, s: System, w: Wid)
    requires Inv(worlds, s) && IsBack(s, w)
    ensures TaskOk(worlds, BackFrom(s, w), s.own.held[w])
  {
    ReturnGuarded(worlds, s, w);
    HeldFacts(worlds, s, w);
    TurnFacts(worlds, s, w);
    O.StepKeepsInv(s.own, Leaving(s, w));
    var n, t := BackFrom(s, w), s.own.held[w];
    if w in n.own.held {
      HolderPhase(n.own, w);
    } else {
      O.ReleaseHeld(s.own, w);
      NotHeld(n.own, t);
    }
    hide O.Inv, O.Armed, Meaning, Exec, DisciplinedEvents, DisciplinedConf, Step, Arming, TurnOk, Held;
  }

  lemma ReturnKeepsInv(worlds: Tid -> World, s: System, w: Wid)
    requires Inv(worlds, s) && IsBack(s, w)
    ensures Inv(worlds, BackFrom(s, w))
  {
    hide O.Inv, TaskOk, TurnOk, O.Armed;
    var n, o := BackFrom(s, w), Leaving(s, w);
    ReturnGuarded(worlds, s, w);
    ReturnTask(worlds, s, w);
    InvTurnsAt(worlds, s);
    AddedAfter(s.own, o);
    TurnFacts(worlds, s, w);
    assert n.turns - {w} == s.turns - {w};
    assert AboutSubject(s, n, o);
    hide Inv, AboutSubject, O.Guarded, Meaning, DisciplinedConf, DisciplinedEvents, Step, Arming;
    TurnsOfOne(worlds, s, n, o, w);
    hide TurnsFit;
    Assemble(worlds, s, n, o);
  }

  /** The first half of a wake-up. */
  function Delivered(s: System, k: O.Source): System
    requires k in s.own.pending && s.own.pending[k] in s.tasks
  {
    var t := s.own.pending[k];
    s.(own := O.Next(s.own, O.BeginWake(k)), tasks := s.tasks[t := Wake(s.tasks[t])])
  }

  lemma DeliverTask(worlds: Tid -> World, s: System, k: O.Source)
    requires k in s.own.pending && s.own.pending[k] in s.tasks
    requires Inv(worlds, s) && O.Enabled(s.own, O.BeginWake(k))
    ensures TaskOk(worlds, Delivered(s, k), s.own.pending[k])
  {
    hide O.Inv, Exec, Held, Meaning, DisciplinedConf, TurnOk;
    var n, t := Delivered(s, k), s.own.pending[k];
    NotHeld(s.own, t);
    NotHeld(n.own, t);
    assert TaskOk(worlds, s, t);
    hide Inv;
    WakeKeepsOk(worlds(t), s.tasks[t]);
  }

  lemma WakeKeepsOk(world: World, c: Conf)
    requires DisciplinedConf(c)
    ensures DisciplinedConf(Wake(c)) && Meaning(world, Wake(c)) == Meaning(world, c)
  {
  }

  lemma DeliverKeepsInv(worlds: Tid -> World, s: System, k: O.Source)
    requires k in s.own.pending && s.own.pending[k] in s.tasks
    requires Inv(worlds, s) && O.Enabled(s.own, O.BeginWake(k))
    ensures Inv(worlds, Delivered(s, k))
  {
    hide O.Inv, TaskOk, TurnOk, O.Armed;
    var n, o := Delivered(s, k), O.BeginWake(k);
    DeliverTask(worlds, s, k);
    TurnsInside(worlds, s);
    AddedAfter(s.own, o);
    assert AboutSubject(s, n, o);
    assert forall w <- s.turns :: s.own.held[w] in s.own.held.Values;
    assert forall w <- s.turns :: SameTask(s, n, s.own.held[w]);
    SameTurns(worlds, s, n, o);
    hide Inv, AboutSubject, TurnsFit;
    Assemble(worlds, s, n, o);
  }

  // ---------------------------------------------------------------------------------------
  // All runs

  /** What is left of the guards of the step system is the one for wake-ups: all others are proved. */
  lemma OwnStep(worlds: Tid -> World, s: System, l: Label)
    requires Inv(worlds, s) && Enabled(s, l)
    ensures OwnLabel(s, l).Some? ==> O.Enabled(s.own, OwnLabel(s, l).value)
  {
    hide O.Inv, TurnOk, TaskOk;
    match l
    case Do(w, _, _) =>
      if Arms(s.turns[w].todo[0]) {
        ArmGuarded(worlds, s, OwnLabel(s, l).value, w);
      }
    case Return(w) => ReturnGuarded(worlds, s, w);
    case _ =>
  }

  /** Every step of every worker keeps the invariant: each task is some way into its direct execution, and
      ownership holds. */
  lemma StepKeepsInv(worlds: Tid -> World, s: System, l: Label)
    requires Inv(worlds, s) && Enabled(s, l)
    ensures Inv(worlds, Next(worlds, s, l))
  {
    hide O.Inv, TaskOk, TurnOk, Inv, O.Next;
    match l
    case Submit(t, code) => SubmitKeepsInv(worlds, s, t, code);
    case Take(w) => IdleKeepsInv(worlds, s, O.Pop(w));
    case Pass(w) => NeverPasses(worlds, s, w);
    case Begin(w) => BeginKeepsInv(worlds, s, w);
    case Store(w, status) => StoreKeepsInv(worlds, s, w, status);
    case Do(w, now, id) => DoKeepsInv(worlds, s, w, now, id);
    case Return(w) => ReturnKeepsInv(worlds, s, w);
    case Push(w) => IdleKeepsInv(worlds, s, O.Push(w));
    case Remove(w) => IdleKeepsInv(worlds, s, O.Remove(w));
    case Deliver(k) => DeliverKeepsInv(worlds, s, k);
    case Schedule(t) => IdleKeepsInv(worlds, s, O.EndWake(t));
  }

  /** A task that was taken from the ready list is not waiting. */
  lemma NeverPasses(worlds: Tid -> World, s: System, w: Wid)
    requires Inv(worlds, s)
    ensures !Enabled(s, Pass(w))
  {
    if Enabled(s, Pass(w)) {
      O.StepKeepsInv(s.own, O.Skip(w));
    }
  }

  lemma DoKeepsInv(worlds: Tid -> World, s: System, w: Wid, now: int, id: Tid)
    requires Inv(worlds, s) && Enabled(s, Do(w, now, id))
    ensures Inv(worlds, Next(worlds, s, Do(w, now, id)))
  {
    hide O.Inv, TaskOk, TurnOk, Inv, O.Next, O.Possible;
    var l := Do(w, now, id);
    match s.turns[w].todo[0]
    case Spawned(code) => SpawnKeepsInv(worlds, s, w, id, code);
    case Did(Effect(_)) => EffectKeepsInv(worlds, s, w);
    case Did(_) => ArmKeepsInv(worlds, s, Next(worlds, s, l), OwnLabel(s, l).value, w);
  }

  ghost predicate Runs(worlds: Tid -> World, s: System, run: seq<Label>)
    decreases |run|
  {
    run != [] ==> Enabled(s, run[0]) && Runs(worlds, Next(worlds, s, run[0]), run[1..])
  }

  ghost function After(worlds: Tid -> World, s: System, run: seq<Label>): System
    requires Runs(worlds, s, run)
    decreases |run|
  {
    if run == [] then s else After(worlds, Next(worlds, s, run[0]), run[1..])
  }

  /** The steps of the step system in a run. */
  ghost function Trace(worlds: Tid -> World, s: System, run: seq<Label>): seq<O.Label>
    requires Runs(worlds, s, run)
    decreases |run|
  {
    if run == [] then []
    else
      (match OwnLabel(s, run[0])
       case Some(o) => [o]
       case None => [])
      + Trace(worlds, Next(worlds, s, run[0]), run[1..])
  }

  lemma {:induction false} RunKeepsInv(worlds: Tid -> World, s: System, run: seq<Label>)
    requires Inv(worlds, s) && Runs(worlds, s, run)
    ensures var trace := Trace(worlds, s, run);
            && Inv(worlds, After(worlds, s, run))
            && O.Legal(s.own, trace) && O.After(s.own, trace) == After(worlds, s, run).own
    decreases |run|
  {
    if run != [] {
      hide Inv, Enabled, Next, OwnLabel, O.Enabled, O.Next, O.Legal, O.After, Trace, Runs, After;
      RunCons(worlds, s, run);
      var l, n := run[0], Next(worlds, s, run[0]);
      OwnStep(worlds, s, l);
      OwnNext(worlds, s, l);
      StepKeepsInv(worlds, s, l);
      RunKeepsInv(worlds, n, run[1..]);
      if OwnLabel(s, l).Some? {
        TraceStep(s.own, OwnLabel(s, l).value, Trace(worlds, n, run[1..]));
      }
    }
  }

  lemma RunCons(worlds: Tid -> World, s: System, run: seq<Label>)
    requires run != [] && Runs(worlds, s, run)
    ensures Enabled(s, run[0]) && Runs(worlds, Next(worlds, s, run[0]), run[1..])
    ensures var n, o := Next(worlds, s, run[0]), OwnLabel(s, run[0]);
            && After(worlds, s, run) == After(worlds, n, run[1..])
            && var rest := Trace(worlds, n, run[1..]);
               Trace(worlds, s, run) == if o.Some? then [o.value] + rest else rest
  {
    hide Enabled, Next, OwnLabel;
    var rest := Trace(worlds, Next(worlds, s, run[0]), run[1..]);
    assert [] + rest == rest;
  }

  lemma OwnNext(worlds: Tid -> World, s: System, l: Label)
    requires Enabled(s, l)
    ensures Next(worlds, s, l).own == match OwnLabel(s, l)
                                      case Some(o) => O.Next(s.own, o)
                                      case None => s.own
  {
    hide O.Next, O.Possible, OwnLabel;
  }

  lemma TraceStep(own: O.State, o: O.Label, rest: seq<O.Label>)
    requires O.Enabled(own, o) && O.Legal(O.Next(own, o), rest)
    ensures O.Legal(own, [o] + rest) && O.After(own, [o] + rest) == O.After(O.Next(own, o), rest)
  {
    assert ([o] + rest)[1..] == rest;
  }

  /** With any number of workers, and in every interleaving of their steps with submissions and wake-ups: the
      run is one of the step system, so ownership holds; each task, while it is not being stepped, is some
      way into the direct execution of its code; and once nothing is active any more, every task ever
      submitted or spawned has done exactly what its direct execution does. */
  lemma AnyWorkers(worlds: Tid -> World, run: seq<Label>)
    requires Runs(worlds, EMPTY, run)
    ensures var s, trace := After(worlds, EMPTY, run), Trace(worlds, EMPTY, run);
            && O.Legal(O.INITIAL, trace) && s.own == O.After(O.INITIAL, trace)
            && s.tasks.Keys == s.origin.Keys == s.own.added
            && (forall t <- s.tasks ::
                  Meaning(worlds(t), s.tasks[t]) == Exec(worlds(t), s.origin[t].prog, s.origin[t].locals, []))
            && (s.own.active == {} ==>
                  forall t <- s.tasks ::
                    && s.tasks[t].Finished?
                    && Run(s.tasks[t].value, s.tasks[t].history)
                    == Exec(worlds(t), s.origin[t].prog, s.origin[t].locals, []))
  {
    O.InitialInv();
    RunKeepsInv(worlds, EMPTY, run);
    var s := After(worlds, EMPTY, run);
    forall t <- s.tasks
      ensures Meaning(worlds(t), s.tasks[t]) == Exec(worlds(t), s.origin[t].prog, s.origin[t].locals, [])
      ensures s.own.active == {} ==> s.tasks[t].Finished?
    {
      hide O.Inv, Exec, DisciplinedConf;
      assert TaskOk(worlds, s, t);
    }
  }

  /** So the theorems of module Ownership hold of it: every active task is in exactly one place. */
  lemma AnyWorkersOwn(worlds: Tid -> World, run: seq<Label>, t: Tid)
    requires Runs(worlds, EMPTY, run)
    ensures var s := After(worlds, EMPTY, run).own;
            O.Places(s, O.Armed(s), t) == O.Is(t in s.active) && O.Once(s, O.Armed(s), t) && O.Conserved(s)
  {
    hide Runs, O.Places, O.Once, O.Conserved;
    AnyWorkers(worlds, run);
    O.ExactlyOnePlace(Trace(worlds, EMPTY, run), t);
    O.Conservation(Trace(worlds, EMPTY, run));
  }

  // ---------------------------------------------------------------------------------------
  // What a worker inside `one_step` does

  /** The next thing that a stepped task does: a timer is due `delay` after the clock reading, and is its own
      unless that deadline was taken; an accepted registration is its own; a refused one leaves it without a
      source; a spawned task is ready at the beginning of its code; and anything else changes nothing here. */
  lemma DoIs(worlds: Tid -> World, s: System, w: Wid, now: int, id: Tid)
    requires Inv(worlds, s) && Enabled(s, Do(w, now, id))
    ensures var t, n := s.own.held[w], Next(worlds, s, Do(w, now, id));
            match s.turns[w].todo[0]
            case Did(StartTimer(delay)) =>
              && O.Timer(now + delay) in n.own.pending
              && (O.Timer(now + delay) !in s.own.pending ==> n.own.pending[O.Timer(now + delay)] == t)
              && (O.Timer(now + delay) in s.own.pending ==> t in n.own.lost)
              && n.own.ready == s.own.ready && n.tasks == s.tasks
            case Did(Register(fd, accepted)) =>
              && (accepted ==> O.Descriptor(fd) in n.own.pending && n.own.pending[O.Descriptor(fd)] == t)
              && (!accepted ==> n.own.pending == s.own.pending && t in n.own.lost)
              && n.own.ready == s.own.ready && n.tasks == s.tasks
            case Did(Effect(_)) => n.own == s.own && n.tasks == s.tasks
            case Spawned(code) =>
              && id !in s.tasks && n.own.ready == s.own.ready + [id] && n.own.active == s.own.active + {id}
              && n.tasks == s.tasks[id := Running(code, [], [], false)] && n.origin == s.origin[id := code]
  {
    hide TaskOk, TurnOk, O.Inv;
  }

  /** A worker never gets stuck: wherever it is in its turn, it can take the next step of it, whatever the clock
      shows and whatever new name a spawned task gets. */
  lemma NeverStuck(worlds: Tid -> World, s: System, w: Wid)
    requires Inv(worlds, s) && w in s.own.held
    ensures w in s.own.phase
    ensures match s.own.phase[w]
            case Popped => Enabled(s, Begin(w))
            case Requeue => Enabled(s, Push(w))
            case Erase => Enabled(s, Remove(w))
            case Stepping =>
              && w in s.turns
              && (s.turns[w].todo != [] ==> forall now, id :: id !in s.own.added ==> Enabled(s, Do(w, now, id)))
              && (s.turns[w].todo == [] ==> Enabled(s, Store(w, R.StatusOf(s.turns[w].goal))))
  {
    hide O.Inv, Inv, TurnOk, TaskOk;
    WhereHeld(worlds, s, w);
    if s.own.phase[w] == O.Stepping {
      if s.turns[w].todo != [] {
        forall now, id | id !in s.own.added
          ensures Enabled(s, Do(w, now, id))
        {
          CanDo(s, w, now, id);
        }
      }
    }
  }

  lemma CanDo(s: System, w: Wid, now: int, id: Tid)
    requires w in s.turns && s.turns[w].todo != [] && O.At(s.own, w, O.Stepping) && id !in s.own.added
    ensures Enabled(s, Do(w, now, id))
  {
  }

  lemma WhereHeld(worlds: Tid -> World, s: System, w: Wid)
    requires Inv(worlds, s) && w in s.own.held
    ensures w in s.own.phase && O.At(s.own, w, s.own.phase[w]) && s.own.held[w] in s.tasks
    ensures s.own.phase[w] == O.Popped ==> s.own.status[s.own.held[w]] == O.Run
    ensures s.own.phase[w] == O.Stepping ==> w in s.turns
  {
    hide TurnOk, TaskOk;
    HeldFacts(worlds, s, w);
    HasStatus(worlds, s, s.own.held[w]);
    if s.own.phase[w] == O.Popped {
      PoppedFacts(s.own, w);
    }
  }

  /** And once it has stored the state that its coroutine left, it can return. */
  lemma CanReturn(worlds: Tid -> World, s: System, w: Wid)
    requires Inv(worlds, s) && w in s.turns && s.turns[w].todo == []
    requires Enabled(s, Store(w, R.StatusOf(s.turns[w].goal)))
    ensures Enabled(Next(worlds, s, Store(w, R.StatusOf(s.turns[w].goal))), Label.Return(w))
  {
    hide O.Inv, Inv;
  }
}
