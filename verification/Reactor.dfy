/** The reactor with one thread in `run()`, driving real coroutine trees.

    The class keeps, as ghost state, a state of the step system of module Ownership, and each thing it
    does is a step of that system. */
module Reactor {
  import opened Sequences
  import opened Coroutine
  import O = Ownership
  import T = TimerPool

  type Tid = O.Tid

  /** What the instructions left to a list of tasks add up to. */
  ghost function Work(list: seq<Tid>, tasks: map<Tid, Conf>): nat {
    if list == [] then 0 else Work(Init(list), tasks) + LeftOf(Last(list), tasks)
  }

  ghost function LeftOf(t: Tid, tasks: map<Tid, Conf>): nat {
    if t in tasks then Left(tasks[t]) else 0
  }

  lemma {:induction false} WorkPop(list: seq<Tid>, tasks: map<Tid, Conf>)
    requires list != []
    ensures Work(list, tasks) == LeftOf(list[0], tasks) + Work(list[1..], tasks)
  {
    if |list| == 1 {
      assert Init(list) == [] && list[1..] == [];
    } else {
      WorkPop(Init(list), tasks);
      assert Init(list)[1..] == Init(list[1..]);
    }
  }

  lemma {:induction false} WorkFrame(list: seq<Tid>, before: map<Tid, Conf>, after: map<Tid, Conf>)
    requires forall t <- list :: t in before && t in after && before[t] == after[t]
    ensures Work(list, before) == Work(list, after)
  {
    if list != [] {
      WorkFrame(Init(list), before, after);
    }
  }

  /** The sources of the step system are the timers in `delays` and the registrations in `watched`. */
  ghost predicate Tied(pending: map<O.Source, Tid>, delays: seq<T.Delay>, watched: map<int, Tid>) {
    TimersTied(pending, delays) && WatchesTied(pending, watched)
  }

  ghost predicate TimersTied(pending: map<O.Source, Tid>, delays: seq<T.Delay>) {
    && (forall d <- delays :: O.Timer(d.when) in pending && pending[O.Timer(d.when)] == d.task)
    && (forall k <- pending :: k.Timer? ==> T.HasDeadline(delays, k.deadline))
  }

  ghost predicate WatchesTied(pending: map<O.Source, Tid>, watched: map<int, Tid>) {
    && (forall fd <- watched :: O.Descriptor(fd) in pending && pending[O.Descriptor(fd)] == watched[fd])
    && (forall k <- pending :: k.Descriptor? ==> k.fd in watched)
  }

  lemma StatusAdd(own: O.State, tasks: map<Tid, Conf>, t: Tid, code: Code)
    requires StatusOk(own, tasks) && O.Enabled(own, O.Add(t))
    ensures StatusOk(O.Next(own, O.Add(t)), tasks[t := Start(code)])
  {
  }

  lemma StatusFrame(own: O.State, own': O.State, tasks: map<Tid, Conf>)
    requires StatusOk(own, tasks) && own'.held == own.held && own'.status == own.status
    ensures StatusOk(own', tasks)
  {
  }

  lemma StatusReleased(own: O.State, own': O.State, tasks: map<Tid, Conf>, t: Tid)
    requires StatusOk(own, tasks) && own.held == map[0 := t] && own'.status == own.status
    requires t in tasks && t in own.status && own.status[t] == StatusOf(tasks[t])
    ensures StatusOk(own', tasks)
  {
    assert forall u <- own.held.Values :: u == t;
  }

  lemma StatusHeld(own: O.State, tasks: map<Tid, Conf>, t: Tid, d: Conf)
    requires StatusOk(own, tasks) && own.held == map[0 := t] && t in tasks
    ensures StatusOk(own, tasks[t := d])
  {
    assert own.held[0] in own.held.Values;
  }

  lemma TiedTimer(own: O.State, t: Tid, pool: seq<T.Delay>, watched: map<int, Tid>, when: int)
    requires Tied(own.pending, pool, watched) && T.Increasing(pool)
    ensures Tied(O.ArmSource(own, t, O.Timer(when)).pending, T.Insert(pool, T.Delay(when, t)), watched)
    ensures t in O.Armed(O.ArmSource(own, t, O.Timer(when)))
  {
    T.InsertIsSetInsert(pool, T.Delay(when, t));
    if O.Timer(when) !in own.pending {
      var n := O.ArmSource(own, t, O.Timer(when));
      assert n.pending[O.Timer(when)] == t;
      assert T.Delay(when, t) in T.Insert(pool, T.Delay(when, t));
    }
  }

  lemma InsertLeaves(pool: seq<T.Delay>, e: T.Delay)
    requires T.Increasing(pool)
    ensures T.Increasing(T.Insert(pool, e)) && forall d <- pool :: d in T.Insert(pool, e)
    ensures exists d <- T.Insert(pool, e) :: d.when == e.when
    ensures (forall d <- pool :: d.when != e.when) ==> e in T.Insert(pool, e)
  {
    T.InsertIsSetInsert(pool, e);
    hide T.Insert, T.Increasing;
    if T.HasDeadline(pool, e.when) {
      var d :| d in pool && d.when == e.when;
      assert d in T.Insert(pool, e);
    } else {
      assert e in T.Insert(pool, e);
    }
  }

  lemma TiedTimers(pending: map<O.Source, Tid>, delays: seq<T.Delay>, watched: map<int, Tid>)
    requires Tied(pending, delays, watched)
    ensures forall d <- delays :: O.Timer(d.when) in pending && pending[O.Timer(d.when)] == d.task
    ensures forall fd <- watched :: O.Descriptor(fd) in pending && pending[O.Descriptor(fd)] == watched[fd]
  {
  }

  lemma DueOrNot(pool: seq<T.Delay>, now: int)
    requires T.Increasing(pool)
    ensures forall d <- pool ::
              if d.when <= now then d !in T.NotDue(pool, now) && d.task in T.TasksOf(T.Due(pool, now))
              else d in T.NotDue(pool, now)
  {
    T.DueSplits(pool, now);
    hide T.Due, T.NotDue, T.Increasing;
    forall d | d in T.Due(pool, now)
      ensures d.task in T.TasksOf(T.Due(pool, now))
    {
      var i :| 0 <= i < |T.Due(pool, now)| && T.Due(pool, now)[i] == d;
      assert T.TasksOf(T.Due(pool, now))[i] == d.task;
    }
  }

  /** A task with a pending timer is not ready. */
  lemma SleepersNotReady(own: O.State, delays: seq<T.Delay>, watched: map<int, Tid>)
    requires O.Inv(own) && Tied(own.pending, delays, watched)
    ensures forall d <- delays :: d.task !in own.ready
  {
    forall d <- delays
      ensures d.task !in own.ready
    {
      assert own.pending[O.Timer(d.when)] in own.pending.Values;
      assert d.task in own.ready ==> d.task in O.Ready(own);
    }
  }

  lemma ArmOnly(own: O.State, t: Tid, k: O.Source)
    ensures var n := O.ArmSource(own, t, k);
            n.(pending := own.pending, lost := own.lost) == own
  {
  }

  lemma RefuseOnly(own: O.State, t: Tid)
    ensures var n := own.(lost := own.lost + {t});
            n.(lost := own.lost) == own && t in O.Armed(n)
  {
  }

  lemma TiedRegister(own: O.State, t: Tid, pool: seq<T.Delay>, watched: map<int, Tid>, fd: int)
    requires Tied(own.pending, pool, watched)
    ensures Tied(O.ArmSource(own, t, O.Descriptor(fd)).pending, pool, watched[fd := t])
    ensures t in O.Armed(O.ArmSource(own, t, O.Descriptor(fd)))
  {
    assert O.ArmSource(own, t, O.Descriptor(fd)).pending[O.Descriptor(fd)] == t;
  }

  /** Each task is some way into its direct execution, and active until it has reached the end. */
  ghost predicate TasksOk(worlds: Tid -> World, tasks: map<Tid, Conf>, origin: map<Tid, Code>, active: set<Tid>) {
    && tasks.Keys == origin.Keys && active <= tasks.Keys
    && (forall t <- tasks :: DisciplinedConf(tasks[t]))
    && (forall t <- tasks :: Meaning(worlds(t), tasks[t]) == Exec(worlds(t), origin[t].prog, origin[t].locals, []))
    && (forall t <- tasks :: t in active <==> tasks[t].Running?)
  }

  lemma TasksAdd(worlds: Tid -> World, tasks: map<Tid, Conf>, origin: map<Tid, Code>, active: set<Tid>,
                 t: Tid, code: Code)
    requires TasksOk(worlds, tasks, origin, active) && t !in tasks && DisciplinedCode(code)
    ensures TasksOk(worlds, tasks[t := Start(code)], origin[t := code], active + {t})
  {
    assert Meaning(worlds(t), Start(code)) == Exec(worlds(t), code.prog, code.locals, []);
  }

  lemma TasksStep(worlds: Tid -> World, tasks: map<Tid, Conf>, origin: map<Tid, Code>, active: set<Tid>, t: Tid)
    requires TasksOk(worlds, tasks, origin, active) && t in active && !tasks[t].waiting
    ensures var d := Step(worlds(t), tasks[t]);
            TasksOk(worlds, tasks[t := d], origin, if d.Finished? then active - {t} else active)
  {
    StepKeepsMeaning(worlds(t), tasks[t]);
    StepKeepsDiscipline(worlds(t), tasks[t]);
  }

  lemma TasksWake(worlds: Tid -> World, tasks: map<Tid, Conf>, origin: map<Tid, Code>, active: set<Tid>, t: Tid)
    requires TasksOk(worlds, tasks, origin, active) && t in tasks
    ensures TasksOk(worlds, tasks[t := Wake(tasks[t])], origin, active)
  {
  }

  function StatusOf(c: Conf): O.Status {
    if c.waiting then O.Wait else O.Run
  }

  /** The states of the tasks that no worker holds. */
  ghost predicate StatusOk(own: O.State, tasks: map<Tid, Conf>) {
    && own.status.Keys == tasks.Keys
    && (forall t <- tasks :: t in own.held.Values || own.status[t] == StatusOf(tasks[t]))
  }

  lemma PoppedFacts(own: O.State)
    requires O.Inv(own) && O.At(own, 0, O.Popped)
    ensures own.status[own.held[0]] == O.Run && own.held[0] !in O.Armed(own) && own.held[0] !in own.ready
    ensures own.held[0] in own.active
  {
  }

  lemma FrontFacts(own: O.State)
    requires O.Inv(own) && own.ready != []
    ensures own.ready[0] in own.status && own.status[own.ready[0]] == O.Run
    ensures own.ready[0] in own.active && own.ready[0] !in own.held.Values && own.ready[0] !in own.ready[1..]
  {
    assert own.ready[0] in O.Ready(own);
  }

  // ---------------------------------------------------------------------------------------
  // What the operations do, on values

  datatype View = View(
    ready: seq<Tid>,
    active: set<Tid>,
    tasks: map<Tid, Conf>,
    origin: map<Tid, Code>,
    next: Tid,
    delays: seq<T.Delay>,
    watched: map<int, Tid>,
    clock: int
  )

  function Spawning(v: View, code: Code): View {
    v.(ready := v.ready + [v.next], active := v.active + {v.next}, next := v.next + 1,
       tasks := v.tasks[v.next := Start(code)], origin := v.origin[v.next := code])
  }

  /** What an event of task `t` does, if the clock shows `now` when it starts a timer. */
  function Happened(v: View, t: Tid, e: Event, now: int): View {
    match e
    case Spawned(code) => Spawning(v, code)
    case Did(StartTimer(delay)) => v.(clock := now, delays := T.Insert(v.delays, T.Delay(now + delay, t)))
    case Did(Register(fd, accepted)) => if accepted then v.(watched := v.watched[fd := t]) else v
    case Did(Effect(_)) => v
  }

  function AllHappened(v: View, t: Tid, events: History, now: int): View {
    if events == [] then v else Happened(AllHappened(v, t, Init(events), now), t, Last(events), now)
  }

  lemma {:induction false} NoTimerNoClock(v: View, t: Tid, events: History, now: int, later: int)
    requires Arming(events) == 0
    ensures AllHappened(v, t, events, now) == AllHappened(v, t, events, later)
  {
    if events != [] {
      NoTimerNoClock(v, t, Init(events), now, later);
    }
  }

  /** What stays of the things a task did in a step: every timer it started is in the pool, due `delay` after
      the clock reading, and is its own unless that deadline was taken; every accepted registration is its own;
      and no timer of another task goes away. */
  lemma {:induction false} HappenedLeaves(v: View, t: Tid, events: History, now: int)
    requires T.Increasing(v.delays) && Arming(events) <= 1
    ensures var w := AllHappened(v, t, events, now);
            && T.Increasing(w.delays) && (forall d <- v.delays :: d in w.delays)
            && (forall delay :: Did(StartTimer(delay)) in events ==>
                  && w.clock == now && (exists d <- w.delays :: d.when == now + delay)
                  && ((forall d <- v.delays :: d.when != now + delay) ==> T.Delay(now + delay, t) in w.delays))
            && (forall fd :: Did(Register(fd, true)) in events ==> fd in w.watched && w.watched[fd] == t)
  {
    if events != [] {
      hide T.Increasing, T.Insert;
      var init, last := Init(events), Last(events);
      var before := AllHappened(v, t, init, now);
      assert AllHappened(v, t, events, now) == Happened(before, t, last, now);
      assert events == init + [last] && Arming(events) == Arming(init) + if Arms(last) then 1 else 0;
      hide AllHappened, Arming;
      assert forall e :: e in events <==> e in init || e == last;
      if Arms(last) {
        NotArmed(init);
        HappenedQuiet(v, t, init, now);
        assert forall e <- init :: e.Did? ==> e.action.Effect?;
        if last.action.StartTimer? {
          InsertLeaves(v.delays, T.Delay(now + last.action.delay, t));
        }
      } else {
        HappenedLeaves(v, t, init, now);
        QuietOne(before, t, last, now);
        hide Happened;
      }
    }
  }

  lemma QuietOne(v: View, t: Tid, e: Event, now: int)
    requires !Arms(e)
    ensures var w := Happened(v, t, e, now); w.delays == v.delays && w.watched == v.watched && w.clock == v.clock
  {
  }

  lemma {:induction false} HappenedQuiet(v: View, t: Tid, events: History, now: int)
    requires Arming(events) == 0
    ensures var w := AllHappened(v, t, events, now);
            w.delays == v.delays && w.watched == v.watched && w.clock == v.clock
  {
    if events != [] {
      HappenedQuiet(v, t, Init(events), now);
    }
  }

  /** The codes of the tasks that are spawned, in their order. */
  function SpawnedCodes(events: History): seq<Code> {
    if events == [] then []
    else SpawnedCodes(Init(events)) + match Last(events) case Spawned(code) => [code] case Did(_) => []
  }

  /** Task `u` is fresh, at the beginning of `code`, and stands at `place` in the ready list. */
  ghost predicate IsFresh(v: View, place: nat, u: Tid, code: Code) {
    && place < |v.ready| && v.ready[place] == u && u in v.active
    && u in v.tasks && v.tasks[u] == Running(code, [], [], false) && u in v.origin && v.origin[u] == code
  }

  ghost predicate IsSame(v: View, w: View, u: Tid) {
    && (u in w.active <==> u in v.active)
    && (u in w.tasks <==> u in v.tasks) && (u in v.tasks ==> w.tasks[u] == v.tasks[u])
    && (u in w.origin <==> u in v.origin) && (u in v.origin ==> w.origin[u] == v.origin[u])
  }

  /** Spawned tasks get the next names in their order, and stand in that order behind the ready list, each at the
      beginning of its code and active; nothing else happens to tasks. */
  lemma {:induction false} SpawnsInOrder(v: View, t: Tid, events: History, now: int)
    ensures var w, codes := AllHappened(v, t, events, now), SpawnedCodes(events);
            && w.next == v.next + |codes| && |w.ready| == |v.ready| + |codes| && v.ready <= w.ready
            && (forall i :: 0 <= i < |codes| ==> IsFresh(w, |v.ready| + i, v.next + i, codes[i]))
            && (forall u: Tid :: u < v.next || w.next <= u ==> IsSame(v, w, u))
  {
    var codes := SpawnedCodes(events);
    if events != [] {
      var before, known := AllHappened(v, t, Init(events), now), SpawnedCodes(Init(events));
      var w := Happened(before, t, Last(events), now);
      SpawnsInOrder(v, t, Init(events), now);
      assert w == AllHappened(v, t, events, now);
      hide AllHappened, SpawnedCodes, T.Insert, IsFresh, IsSame;
      forall i | 0 <= i < |codes|
        ensures IsFresh(w, |v.ready| + i, v.next + i, codes[i])
      {
        if i < |known| {
          assert codes[i] == known[i] && IsFresh(before, |v.ready| + i, v.next + i, known[i]);
          StaysFresh(before, t, Last(events), now, |v.ready| + i, v.next + i, codes[i]);
        } else {
          SpawnIsFresh(before, codes[i]);
        }
      }
      forall u: Tid | u < v.next || w.next <= u
        ensures IsSame(v, w, u)
      {
        assert IsSame(v, before, u);
        StaysSame(v, before, t, Last(events), now, u);
      }
    }
  }

  lemma StaysFresh(v: View, t: Tid, e: Event, now: int, place: nat, u: Tid, code: Code)
    requires IsFresh(v, place, u, code) && u < v.next
    ensures IsFresh(Happened(v, t, e, now), place, u, code)
  {
    hide T.Insert;
  }

  lemma SpawnIsFresh(v: View, code: Code)
    ensures IsFresh(Spawning(v, code), |v.ready|, v.next, code)
  {
  }

  lemma StaysSame(v: View, w: View, t: Tid, e: Event, now: int, u: Tid)
    requires IsSame(v, w, u) && (e.Spawned? ==> u != w.next)
    ensures IsSame(v, Happened(w, t, e, now), u)
  {
    hide T.Insert;
  }

  lemma {:induction false} NotArmed(events: History)
    requires Arming(events) == 0
    ensures forall e <- events :: !Arms(e)
  {
    if events != [] {
      NotArmed(Init(events));
      assert events == Init(events) + [Last(events)];
    }
  }

  /** `one_step` of task `t`. */
  function Stepped(world: World, v: View, t: Tid, now: int): View {
    if t !in v.tasks || v.tasks[t].Finished? then v
    else
      var d := Step(world, v.tasks[t]);
      var after := AllHappened(v, t, Added(v.tasks[t], d), now);
      after.(tasks := after.tasks[t := d])
  }

  /** What a step of a disciplined task leaves behind. */
  lemma SteppedLeaves(world: World, v: View, t: Tid, now: int)
    requires t in v.tasks && v.tasks[t].Running? && Arming(Added(v.tasks[t], Step(world, v.tasks[t]))) <= 1
    requires T.Increasing(v.delays)
    ensures var w := Stepped(world, v, t, now);
            && t in w.tasks && w.tasks[t] == Step(world, v.tasks[t])
            && T.Increasing(w.delays) && (forall d <- v.delays :: d in w.delays)
            && var events := w.tasks[t].history[|v.tasks[t].history|..];
            && (forall delay :: Did(StartTimer(delay)) in events ==>
                  && w.clock == now && (exists d <- w.delays :: d.when == now + delay)
                  && ((forall d <- v.delays :: d.when != now + delay) ==> T.Delay(now + delay, t) in w.delays))
            && (forall fd :: Did(Register(fd, true)) in events ==> fd in w.watched && w.watched[fd] == t)
  {
    hide T.Increasing, AllHappened, Step, Arming;
    HappenedLeaves(v, t, Added(v.tasks[t], Step(world, v.tasks[t])), now);
  }

  /** What becomes of task `t` after its step. */
  function Settled(v: View, t: Tid): View {
    if t !in v.tasks || v.tasks[t].Finished? then v.(active := v.active - {t})
    else if v.tasks[t].waiting then v
    else v.(ready := v.ready + [t])
  }

  /** A whole turn of the loop of `process_tasks`. */
  function TurnOf(worlds: Tid -> World, v: View, now: int): View {
    if v.ready == [] then v
    else
      var t := v.ready[0];
      Settled(Stepped(worlds(t), v.(ready := v.ready[1..]), t, now), t)
  }

  /** `wake` of task `t`. */
  function Woken(v: View, t: Tid): View {
    v.(ready := v.ready + [t], tasks := if t in v.tasks then v.tasks[t := Wake(v.tasks[t])] else v.tasks)
  }

  function AllWoken(v: View, list: seq<Tid>): View {
    if list == [] then v else Woken(AllWoken(v, Init(list)), Last(list))
  }

  /** The delivery of completions: each descriptor that has a registration loses it, and its task is woken. */
  function Delivered(v: View, events: seq<int>): View {
    if events == [] then v
    else
      var w, fd := Delivered(v, Init(events)), Last(events);
      if fd in w.watched then Woken(w, w.watched[fd]).(watched := w.watched - {fd}) else w
  }

  /** `get_delay` at moment `now`. */
  function Expired(v: View, now: int): View {
    AllWoken(v.(clock := now, delays := T.NotDue(v.delays, now)), T.TasksOf(T.Due(v.delays, now)))
  }

  /** An iteration of `run()` up to `process_tasks`. */
  function Polled(v: View, events: seq<int>, now: int): View {
    Delivered(Expired(v, now), events)
  }

  class Reactor {
    const worlds: Tid -> World
    const timers: T.Pool           // m_timers
    var ready: seq<Tid>            // m_tasks
    var active: set<Tid>           // m_active_tasks
    var watched: map<int, Tid>     // the registrations of the completion object
    var tasks: map<Tid, Conf>      // every task ever added
    var next: Tid
    var clock: int
    ghost var origin: map<Tid, Code>
    ghost var own: O.State
    ghost var trace: seq<O.Label>   // the steps that led to `own`

    /** What the reactor did so far is a run of the step system. */
    ghost predicate OfRun()
      reads this
    {
      O.Inv(own) && O.Legal(O.INITIAL, trace) && own == O.After(O.INITIAL, trace)
    }

    /** All of the invariant but the connection with pending sources. */
    ghost predicate Core()
      reads this
    {
      && OfRun() && own.waking == {}
      && own.ready == ready && own.active == active && own.added == tasks.Keys == origin.Keys
      && (forall t <- tasks :: t < next) && (forall t <- ready :: t in tasks)
      && StatusOk(own, tasks)
    }

    ghost predicate Valid()
      reads this, timers
    {
      Core() && timers.Valid() && Tied(own.pending, timers.tasks, watched)
    }

    /** All that the operations change. */
    ghost function Snapshot(): View
      reads this, timers
    {
      View(ready, active, tasks, origin, next, timers.tasks, watched, clock)
    }

    /** No worker is inside its loop. */
    ghost predicate Idle()
      reads this
    {
      own.held == map[]
    }

    /** Worker 0 is inside `one_step` of task `t`. */
    ghost predicate Held(t: Tid)
      reads this
    {
      own.held == map[0 := t] && O.At(own, 0, O.Stepping)
    }

    constructor (worlds: Tid -> World)
      ensures Valid() && Idle() && fresh(timers)
      ensures this.worlds == worlds && tasks == map[] && active == {} && ready == []
    {
      this.worlds := worlds;
      timers := new T.Pool();
      ready, active, watched, tasks, next, clock := [], {}, map[], map[], 0, 0;
      origin, own, trace := map[], O.INITIAL, [];
    }

    /** A step of the step system. */
    ghost method Own(l: O.Label)
      requires OfRun() && O.Enabled(own, l)
      modifies `own, `trace
      ensures OfRun() && own == O.Next(old(own), l)
    {
      O.StepKeepsInv(own, l);
      O.Snoc(O.INITIAL, trace, l);
      own, trace := O.Next(own, l), trace + [l];
    }

    /** `add`, by which a task is spawned. */
    method Add(code: Code) returns (t: Tid)
      requires Valid() && TasksOk(worlds, tasks, origin, active) && DisciplinedCode(code)
      modifies this
      ensures Valid() && TasksOk(worlds, tasks, origin, active)
      ensures Snapshot() == Spawning(old(Snapshot()), code)
      ensures own.held == old(own.held) && own.phase == old(own.phase)
      ensures own.pending == old(own.pending) && own.lost == old(own.lost)
      ensures own.status == old(own.status)[t := O.Run]
      ensures t == old(next) && t !in old(tasks)
    {
      hide O.Inv, O.Legal, O.After, TasksOk, Tied, DisciplinedCode, StatusOk, Start;
      t := next;
      StatusAdd(own, tasks, t, code);
      TasksAdd(worlds, tasks, origin, active, t, code);
      Own(O.Add(t));
      next := next + 1;
      ready, active := ready + [t], active + {t};
      tasks, origin := tasks[t := Start(code)], origin[t := code];
    }

    /** Reads the clock. */
    method Now() returns (now: int)
      modifies `clock
      ensures now == clock >= old(clock)
    {
      now :| now >= clock;
      clock := now;
    }

    /** `start_timer`, for the task being stepped. */
    method StartTimer(t: Tid, delay: int)
      requires Valid() && O.At(own, 0, O.Stepping) && own.held[0] == t && t !in O.Armed(own)
      modifies `clock, `own, `trace, timers
      ensures Snapshot() == Happened(old(Snapshot()), t, Did(Action.StartTimer(delay)), clock) && clock >= old(clock)
      ensures O.Timer(clock + delay) in own.pending && exists d <- timers.tasks :: d.when == clock + delay
      ensures (forall d <- old(timers.tasks) :: d.when != clock + delay) ==>
                T.Delay(clock + delay, t) in timers.tasks && own.pending[O.Timer(clock + delay)] == t
      ensures forall d <- old(timers.tasks) :: d in timers.tasks
      ensures Valid() && own.(pending := old(own.pending), lost := old(own.lost)) == old(own)
      ensures t in O.Armed(own)
    {
      hide O.Inv, O.Legal, O.After, Tied, T.Increasing, O.Armed, O.ArmSource, T.Insert, O.NoRepeats;
      var now := Now();
      TiedTimer(own, t, timers.tasks, watched, now + delay);
      InsertLeaves(timers.tasks, T.Delay(now + delay, t));
      timers.Add(now, delay, t);
      ArmOnly(own, t, O.Timer(now + delay));
      Own(O.Arm(0, O.Timer(now + delay)));
      TiedTimers(own.pending, timers.tasks, watched);
    }

    /** `add_for_read` or `add_for_write`, for the task being stepped; the kernel may refuse. */
    method Register(t: Tid, fd: int, accepted: bool)
      requires Valid() && O.At(own, 0, O.Stepping) && own.held[0] == t && t !in O.Armed(own)
      modifies `watched, `own, `trace
      ensures Snapshot() == Happened(old(Snapshot()), t, Did(Action.Register(fd, accepted)), clock)
      ensures accepted ==>
                && fd in watched && watched[fd] == t
                && O.Descriptor(fd) in own.pending && own.pending[O.Descriptor(fd)] == t
      ensures forall g :: !accepted || g != fd ==> (g in watched <==> g in old(watched))
      ensures forall g <- old(watched) :: !accepted || g != fd ==> watched[g] == old(watched)[g]
      ensures Valid() && own.(pending := old(own.pending), lost := old(own.lost)) == old(own)
      ensures t in O.Armed(own)
    {
      hide O.Inv, O.Legal, O.After, Tied, O.Armed, O.ArmSource;
      if accepted {
        TiedRegister(own, t, timers.tasks, watched, fd);
        watched := watched[fd := t];
        ArmOnly(own, t, O.Descriptor(fd));
        Own(O.Arm(0, O.Descriptor(fd)));
        TiedTimers(own.pending, timers.tasks, watched);
      } else {
        RefuseOnly(own, t);
        Own(O.Refuse(0));
      }
    }

    /** One thing that task `t` did in a step, as far as it concerns the reactor. */
    method PerformOne(t: Tid, e: Event)
      requires Valid() && TasksOk(worlds, tasks, origin, active)
      requires Held(t)
      requires Arms(e) ==> t !in O.Armed(own)
      requires e.Spawned? ==> DisciplinedCode(e.task)
      modifies this, timers
      ensures Valid() && TasksOk(worlds, tasks, origin, active)
      ensures Held(t)
      ensures Snapshot() == Happened(old(Snapshot()), t, e, clock) && clock >= old(clock)
      ensures t in O.Armed(own) <==> t in old(O.Armed(own)) || Arms(e)
      ensures !Arms(e) ==> clock == old(clock)
      ensures Grown(old(ready), ready, old(tasks), tasks, old(origin), origin) && old(active) <= active
      ensures Work(ready, tasks) == old(Work(ready, tasks)) + EventSize(e)
    {
      hide O.Inv, O.Legal, O.After, TasksOk, Tied, StatusOk, O.Enabled, O.Next;
      hide Meaning, Exec, DisciplinedCode, DisciplinedConf, Grown, Work;
      GrownReflexive(ready, tasks, origin);
      match e {
        case Spawned(code) =>
          var u := Add(code);
          GrownByOne(old(ready), old(tasks), old(origin), u, code);
          WorkByOne(old(ready), old(tasks), u, code);
        case Did(StartTimer(delay)) => StartTimer(t, delay);
        case Did(Register(fd, accepted)) => Register(t, fd, accepted);
        case Did(Effect(_)) =>
      }
    }

    /** What task `t` did in a step, as far as it concerns the reactor. */
    method Perform(t: Tid, events: History)
      requires Valid() && TasksOk(worlds, tasks, origin, active)
      requires Held(t) && t !in O.Armed(own)
      requires Arming(events) <= 1 && DisciplinedEvents(events)
      modifies this, timers
      ensures Valid() && TasksOk(worlds, tasks, origin, active)
      ensures Held(t)
      ensures Snapshot() == AllHappened(old(Snapshot()), t, events, clock) && clock >= old(clock)
      ensures t in O.Armed(own) <==> Arming(events) == 1
      ensures Grown(old(ready), ready, old(tasks), tasks, old(origin), origin) && old(active) <= active
      ensures Work(ready, tasks) == old(Work(ready, tasks)) + SpawnSize(events)
    {
      hide O.Inv, O.Legal, O.After, TasksOk, Tied, StatusOk, O.Armed, Held;
      hide DisciplinedCode, DisciplinedConf, Valid, Core, Work, Grown;
      GrownReflexive(ready, tasks, origin);
      for i := 0 to |events|
        invariant Valid() && TasksOk(worlds, tasks, origin, active)
        invariant Held(t)
        invariant Snapshot() == AllHappened(old(Snapshot()), t, events[..i], clock) && clock >= old(clock)
        invariant t in O.Armed(own) <==> Arming(events[..i]) == 1
        invariant Grown(old(ready), ready, old(tasks), tasks, old(origin), origin) && old(active) <= active
        invariant Work(ready, tasks) == old(Work(ready, tasks)) + SpawnSize(events[..i])
      {
        Prefix(events, i);
        ghost var list, known, codes, now := ready, tasks, origin, clock;
        PerformOne(t, events[i]);
        HappenedNext(old(Snapshot()), t, events, i, now, clock);
        GrownTwice(old(ready), list, ready, old(tasks), known, tasks, old(origin), codes, origin);
      }
      assert events[..|events|] == events;
    }

    /** The worker finds its task not waiting, and enters `one_step`. */
    method BeginStep(t: Tid)
      requires Valid() && own.held == map[0 := t] && O.At(own, 0, O.Popped)
      modifies `own, `trace
      ensures Valid() && Held(t) && t !in O.Armed(own) && t in active && t !in ready
      ensures own.pending == old(own.pending) && own.lost == old(own.lost)
    {
      hide O.Inv, O.Legal, O.After, Tied, StatusOk;
      PoppedFacts(own);
      ghost var before := own;
      Own(O.Enter(0));
      StatusFrame(before, own, tasks);
    }

    /** `one_step` leaves the state of the task as the coroutine set it. */
    method MarkState(t: Tid, waiting: bool)
      requires Valid() && Held(t)
      modifies `own, `trace
      ensures Valid() && Held(t) && O.Armed(own) == old(O.Armed(own))
      ensures own.status[t] == if waiting then O.Wait else O.Run
    {
      hide O.Inv, O.Legal, O.After, Tied;
      Own(O.Mark(0, if waiting then O.Wait else O.Run));
    }

    /** `one_step` returned kDone: the task is erased. */
    method LeaveDone(t: Tid)
      requires Valid() && Held(t) && t in tasks && StatusOf(tasks[t]) == own.status[t] == O.Run && t !in O.Armed(own)
      modifies `own, `trace, `active
      ensures Valid() && Idle() && active == old(active) - {t}
    {
      hide O.Inv, O.Legal, O.After, Tied, StatusOk;
      ghost var before := own;
      Own(O.Finish(0));
      Own(O.Remove(0));
      active := active - {t};
      StatusReleased(before, own, tasks, t);
    }

    /** `one_step` returned kWait: the worker lets go of the task. */
    method LeaveWaiting(t: Tid)
      requires Valid() && Held(t) && t in tasks && StatusOf(tasks[t]) == own.status[t] == O.Wait && t in O.Armed(own)
      modifies `own, `trace
      ensures Valid() && Idle()
    {
      hide O.Inv, O.Legal, O.After, Tied, StatusOk;
      ghost var before := own;
      Own(O.Suspend(0));
      StatusReleased(before, own, tasks, t);
    }

    /** `one_step` returned kRun: the task goes to the back of the ready list. */
    method LeaveReady(t: Tid)
      requires Valid() && Held(t) && t in tasks && StatusOf(tasks[t]) == own.status[t] == O.Run && t !in O.Armed(own)
      modifies `own, `trace, `ready
      ensures Valid() && Idle() && ready == old(ready) + [t]
    {
      hide O.Inv, O.Legal, O.After, Tied, StatusOk;
      ghost var before := own;
      Own(O.Suspend(0));
      Own(O.Push(0));
      ready := ready + [t];
      StatusReleased(before, own, tasks, t);
    }

    /** The coroutine of the held task has moved on to `d`. */
    method Store(t: Tid, d: Conf)
      requires Valid() && Held(t) && t in tasks && t !in ready
      modifies `tasks
      ensures Valid() && tasks == old(tasks)[t := d]
      ensures Work(ready, tasks) == old(Work(ready, tasks))
    {
      hide O.Inv, O.Legal, O.After, Tied, StatusOk, Work;
      WorkFrame(ready, tasks, tasks[t := d]);
      StatusHeld(own, tasks, t, d);
      tasks := tasks[t := d];
    }

    /** Leaves the task where the result of `one_step` sends it. */
    method Settle(t: Tid)
      requires Valid() && Held(t) && t in tasks && t !in ready && t in active && t in own.status
      requires own.status[t] == StatusOf(tasks[t]) && (t in O.Armed(own) <==> tasks[t].waiting)
      requires tasks[t].Finished? ==> !tasks[t].waiting
      modifies `own, `trace, `active, `ready
      ensures Valid() && Idle() && Snapshot() == Settled(old(Snapshot()), t)
      ensures active == if tasks[t].Finished? then old(active) - {t} else old(active)
      ensures ready == if tasks[t].Running? && !tasks[t].waiting then old(ready) + [t] else old(ready)
    {
      hide O.Inv, O.Legal, O.After, Tied, StatusOk;
      if tasks[t].Finished? {
        LeaveDone(t);
      } else if tasks[t].waiting {
        LeaveWaiting(t);
      } else {
        LeaveReady(t);
      }
    }

    /** The call of `one_step` in `process_tasks`, with all it does to the reactor (see `SteppedLeaves`). */
    method StepTask(t: Tid)
      requires Valid() && TasksOk(worlds, tasks, origin, active)
      requires own.held == map[0 := t] && O.At(own, 0, O.Popped) && t in tasks && !tasks[t].waiting
      modifies this, timers
      ensures Snapshot() == Stepped(worlds(t), old(Snapshot()), t, clock) && clock >= old(clock)
      ensures Valid() && Held(t) && t in tasks && t !in ready && t in active && t in own.status
      ensures own.status[t] == StatusOf(tasks[t]) && (t in O.Armed(own) <==> tasks[t].waiting)
      ensures tasks[t].Finished? ==> !tasks[t].waiting
      ensures TasksOk(worlds, tasks, origin, if tasks[t].Finished? then active - {t} else active)
      ensures old(ready) <= ready && Extends(old(origin), origin)
      ensures Work(ready, tasks) + Left(tasks[t]) < Left(old(tasks)[t]) + old(Work(ready, tasks))
    {
      hide O.Inv, O.Legal, O.After, Tied, TasksOk, StatusOk, O.Armed, DisciplinedEvents, Arming, Work, Left;
      BeginStep(t);
      var c := tasks[t];
      Prepare(worlds, tasks, origin, active, t);
      var d := Step(worlds(t), c);
      Perform(t, Added(c, d));
      TasksStep(worlds, tasks, origin, active, t);
      MarkState(t, d.waiting);
      Store(t, d);
    }

    /** One turn of the loop of `process_tasks`, for a task just taken from the front of the list. */
    method Turn(t: Tid)
      requires Valid() && TasksOk(worlds, tasks, origin, active)
      requires own.held == map[0 := t] && O.At(own, 0, O.Popped) && t in tasks && !tasks[t].waiting
      modifies this, timers
      ensures Snapshot() == Settled(Stepped(worlds(t), old(Snapshot()), t, clock), t) && clock >= old(clock)
      ensures Valid() && TasksOk(worlds, tasks, origin, active) && Idle()
      ensures t in tasks && old(ready) <= ready && O.NoRepeats(ready) && (t in ready ==> Last(ready) == t)
      ensures (t in ready <==> tasks[t].Running? && !tasks[t].waiting) && Extends(old(origin), origin)
      ensures Work(ready, tasks) < Left(old(tasks)[t]) + old(Work(ready, tasks))
    {
      hide O.Inv, O.Legal, O.After, Tied, TasksOk, StatusOk, O.Armed, O.At, Held, O.NoRepeats, Work, Left;
      StepTask(t);
      ghost var list := ready;
      Settle(t);
      WorkSettled(list, ready, tasks, t);
      ListFacts(own);
    }

    /** Takes the front entry of the ready list. */
    method PopFront() returns (t: Tid)
      requires Valid() && Idle() && ready != []
      modifies `own, `trace, `ready
      ensures Valid() && own.held == map[0 := t] && O.At(own, 0, O.Popped) && t in tasks && !tasks[t].waiting
      ensures [t] + ready == old(ready)
    {
      hide O.Inv, O.Legal, O.After, Tied;
      FrontFacts(own);
      t := ready[0];
      Own(O.Pop(0));
      ready := ready[1..];
    }

    /** Takes the front entry of the ready list, and gives it its turn. */
    method NextTurn()
      requires Valid() && TasksOk(worlds, tasks, origin, active) && Idle() && ready != []
      modifies this, timers
      ensures Valid() && TasksOk(worlds, tasks, origin, active) && Idle()
      ensures Turned(worlds, old(Snapshot()), Snapshot()) && Extends(old(origin), origin)
      ensures Work(ready, tasks) < old(Work(ready, tasks))
    {
      hide O.Inv, O.Legal, O.After, TasksOk, Tied, StatusOk, Work, O.NoRepeats, Left, Settled, Stepped;
      WorkPop(ready, tasks);
      var t := PopFront();
      Turn(t);
    }

    /** `process_tasks`: runs every coroutine as far as it can go.  It ends, with nothing ready; every
        task that is still active is in state kWait, with its timer or its registration pending, unless
        that was lost.  `turns` records the reactor before each turn, and at the end. */
    method ProcessTasks() returns (ghost turns: seq<View>)
      requires Valid() && TasksOk(worlds, tasks, origin, active) && Idle()
      modifies this, timers
      ensures Valid() && TasksOk(worlds, tasks, origin, active) && Idle()
      ensures ready == [] && Extends(old(origin), origin)
      ensures forall t <- active :: tasks[t].waiting && (Sleeping(t) || Watching(t) || t in own.lost)
      ensures InTurns(worlds, turns) && turns[0] == old(Snapshot()) && Last(turns) == Snapshot()
    {
      hide O.Inv, O.Legal, O.After, TasksOk, Tied, StatusOk, Work, Turned, Sleeping, Watching;
      turns := [Snapshot()];
      ExtendsReflexive(origin);
      while ready != []
        invariant Valid() && TasksOk(worlds, tasks, origin, active) && Idle()
        invariant Extends(old(origin), origin)
        invariant InTurns(worlds, turns) && turns[0] == old(Snapshot()) && Last(turns) == Snapshot()
        decreases Work(ready, tasks)
      {
        ghost var codes := origin;
        NextTurn();
        OneTurn(worlds, turns, Snapshot());
        ExtendsTwice(old(origin), codes, origin);
        turns := turns + [Snapshot()];
      }
      AllParked();
    }

    /** `wake`, for task `t`, to which source `k` belongs to; the source is used up. */
    method WakeFrom(t: Tid, ghost k: O.Source)
      requires Core() && Idle() && TasksOk(worlds, tasks, origin, active)
      requires k in own.pending && own.pending[k] == t
      modifies `own, `trace, `tasks, `ready
      ensures Core() && Idle() && TasksOk(worlds, tasks, origin, active)
      ensures own.pending == old(own.pending) - {k}
      ensures ready == old(ready) + [t] && Snapshot() == Woken(old(Snapshot()), t)
    {
      hide O.Inv, O.Legal, O.After, TasksOk, StatusOk, Wake;
      SourceFacts(own, k);
      ghost var before := own;
      Own(O.BeginWake(k));
      Own(O.EndWake(t));
      StatusWoken(before, own, tasks, t);
      TasksWake(worlds, tasks, origin, active, t);
      tasks := tasks[t := Wake(tasks[t])];
      ready := ready + [t];
    }

    /** Wakes the tasks of the timers that are due; `woken` was taken off the pool already. */
    method WakeDue(woken: seq<T.Delay>)
      requires Core() && Idle() && TasksOk(worlds, tasks, origin, active)
      requires timers.Valid() && Tied(own.pending, woken + timers.tasks, watched) && T.Increasing(woken + timers.tasks)
      modifies `own, `trace, `tasks, `ready
      ensures Valid() && Idle() && TasksOk(worlds, tasks, origin, active)
      ensures ready == old(ready) + T.TasksOf(woken) && Snapshot() == AllWoken(old(Snapshot()), T.TasksOf(woken))
    {
      hide O.Inv, O.Legal, O.After, TasksOk, StatusOk, Tied, T.Increasing, Woken, AllWoken;
      var i := 0;
      assert woken[0..] == woken;
      NoneWoken(Snapshot());
      while i < |woken|
        invariant 0 <= i <= |woken|
        invariant Core() && Idle() && TasksOk(worlds, tasks, origin, active)
        invariant Tied(own.pending, woken[i..] + timers.tasks, watched) && T.Increasing(woken[i..] + timers.tasks)
        invariant ready == old(ready) + T.TasksOf(woken)[..i]
        invariant Snapshot() == AllWoken(old(Snapshot()), T.TasksOf(woken)[..i])
      {
        AllWokenNext(old(Snapshot()), T.TasksOf(woken), i);
        assert (woken[i..] + timers.tasks)[1..] == woken[i + 1..] + timers.tasks;
        TiedDrop(own.pending, woken[i..] + timers.tasks, watched);
        WakeFrom(woken[i].task, O.Timer(woken[i].when));
        i := i + 1;
      }
      assert woken[i..] + timers.tasks == timers.tasks;
      assert T.TasksOf(woken)[..i] == T.TasksOf(woken);
    }

    /** The delivery of completions: each descriptor that has a registration loses it, and its task is woken. */
    method Deliver(events: seq<int>)
      requires Valid() && Idle() && TasksOk(worlds, tasks, origin, active)
      modifies `own, `trace, `tasks, `ready, `watched
      ensures Valid() && Idle() && TasksOk(worlds, tasks, origin, active)
      ensures old(ready) <= ready && Snapshot() == Delivered(old(Snapshot()), events)
      ensures forall fd :: fd in watched <==> fd in old(watched) && fd !in events
      ensures forall fd <- events :: fd in old(watched) ==> old(watched)[fd] in ready
    {
      hide O.Inv, O.Legal, O.After, TasksOk, StatusOk, Tied, Woken, Delivered;
      NoneWoken(Snapshot());
      for i := 0 to |events|
        invariant Valid() && Idle() && TasksOk(worlds, tasks, origin, active)
        invariant old(ready) <= ready && Snapshot() == Delivered(old(Snapshot()), events[..i])
        invariant forall fd :: fd in watched <==> fd in old(watched) && fd !in events[..i]
        invariant forall fd <- watched :: watched[fd] == old(watched)[fd]
        invariant forall fd <- events[..i] :: fd in old(watched) ==> old(watched)[fd] in ready
      {
        DeliveredNext(old(Snapshot()), events, i);
        if events[i] in watched {
          TiedUnwatch(own.pending, timers.tasks, watched, events[i]);
          WakeFrom(watched[events[i]], O.Descriptor(events[i]));
          watched := watched - {events[i]};
        }
      }
      assert events[..|events|] == events;
    }

    /** The part of an iteration of `run()` before `process_tasks`: due timers are woken in the order of
        their deadlines, the timeout is chosen, and the completion object delivers `events`. */
    method Poll(events: seq<int>) returns (timeout: int)
      requires Valid() && Idle() && TasksOk(worlds, tasks, origin, active)
      modifies this, timers
      ensures Valid() && Idle() && TasksOk(worlds, tasks, origin, active)
      ensures Snapshot() == Polled(old(Snapshot()), events, clock)
      ensures active == old(active) && origin == old(origin)
      ensures timers.tasks == T.NotDue(old(timers.tasks), clock) && clock >= old(clock)
      ensures old(ready) + T.TasksOf(T.Due(old(timers.tasks), clock)) <= ready
      ensures forall d <- old(timers.tasks) ::
                if d.when <= clock then d !in timers.tasks && d.task in ready else d in timers.tasks && d.task !in ready
      ensures T.NextDelay(timers.tasks, clock) >= 0
      ensures timeout == T.Timeout(T.WaitTime(old(ready) == [] && T.Due(old(timers.tasks), clock) == [],
                                              T.NextDelay(timers.tasks, clock)))
    {
      hide O.Inv, O.Legal, O.After, TasksOk, StatusOk, Tied, T.Increasing;
      var now := Now();
      T.DueIsPrefix(timers.tasks, now);
      var woken, delay := timers.GetDelay(now);
      assert woken + timers.tasks == old(timers.tasks);
      WakeDue(woken);
      timeout := T.Timeout(T.WaitTime(ready == [], delay));
      Deliver(events);
      assert Snapshot() == Polled(old(Snapshot()), events, clock);
      hide Polled, Expired, Delivered, AllWoken, T.Due, T.NotDue, T.WaitTime, T.Timeout;
      PolledSleepers(old(Snapshot()), events, clock);
      SleepersNotReady(own, timers.tasks, watched);
    }

    /** A finite stretch of `run()`: in each round the environment delivers some completions, and may
        have cleared `m_running` before the tasks are processed. */
    method RunRounds(rounds: seq<Round>) returns (drained: bool, ghost log: seq<seq<View>>)
      requires Valid() && Idle() && TasksOk(worlds, tasks, origin, active)
      modifies this, timers
      ensures Iterated(worlds, old(Snapshot()), rounds, log)
      ensures var v := Reached(old(Snapshot()), log);
              if v.active == {} || |log| == |rounds| then Snapshot() == v
              else !rounds[|log|].running && Snapshot() == Polled(v, rounds[|log|].events, clock)
      ensures Valid() && Idle() && TasksOk(worlds, tasks, origin, active) && Extends(old(origin), origin)
      ensures drained <==> active == {}
      ensures drained ==> forall t <- tasks :: Complete(t)
    {
      hide O.Inv, O.Legal, O.After, TasksOk, StatusOk, Tied, Complete, Extends, Polled, InTurns;
      var i := 0;
      log := [];
      ExtendsReflexive(origin);
      while active != {} && i < |rounds|
        invariant Valid() && Idle() && TasksOk(worlds, tasks, origin, active) && Extends(old(origin), origin)
        invariant i == |log| <= |rounds| && Iterated(worlds, old(Snapshot()), rounds, log)
        invariant Snapshot() == Reached(old(Snapshot()), log)
        decreases |rounds| - i
      {
        ghost var v := Snapshot();
        var timeout := Poll(rounds[i].events);
        if !rounds[i].running {
          break;
        }
        ghost var codes := origin;
        ghost var turns := ProcessTasks();
        ExtendsTwice(old(origin), codes, origin);
        assert OneRound(worlds, v, rounds[i], turns);
        OneMoreRound(worlds, old(Snapshot()), rounds, log, turns);
        log := log + [turns];
        i := i + 1;
      }
      drained := active == {};
      if drained {
        AllComplete();
      }
    }

    /** The task has reached kDone; it did what the direct execution of its code does. */
    ghost predicate Complete(t: Tid)
      reads this
    {
      && t in tasks && t in origin && tasks[t].Finished?
      && Run(tasks[t].value, tasks[t].history) == Exec(worlds(t), origin[t].prog, origin[t].locals, [])
    }

    lemma AllComplete()
      requires TasksOk(worlds, tasks, origin, active) && active == {}
      ensures forall t <- tasks :: Complete(t)
    {
    }

    ghost predicate Sleeping(t: Tid)
      reads timers
    {
      exists d <- timers.tasks :: d.task == t
    }

    ghost predicate Watching(t: Tid)
      reads this
    {
      exists fd <- watched :: watched[fd] == t
    }

    lemma AllParked()
      requires Valid() && TasksOk(worlds, tasks, origin, active) && Idle() && ready == []
      ensures forall t <- active :: tasks[t].waiting && (Sleeping(t) || Watching(t) || t in own.lost)
    {
      forall t | t in active
        ensures tasks[t].waiting && (Sleeping(t) || Watching(t) || t in own.lost)
      {
        ParkedFacts(own, t);
        assert own.status[t] == StatusOf(tasks[t]);
        if t !in own.lost {
          var k :| k in own.pending && own.pending[k] == t;
          if k.Timer? {
            var d :| d in timers.tasks && d.when == k.deadline;
            assert d.task == t;
          } else {
            assert watched[k.fd] == t;
          }
        }
      }
    }
  }

  lemma AllWokenNext(v: View, list: seq<Tid>, i: nat)
    requires i < |list|
    ensures AllWoken(v, list[..i + 1]) == Woken(AllWoken(v, list[..i]), list[i])
  {
    assert Init(list[..i + 1]) == list[..i] && Last(list[..i + 1]) == list[i];
  }

  lemma DeliveredNext(v: View, events: seq<int>, i: nat)
    requires i < |events|
    ensures var w, fd, u := Delivered(v, events[..i]), events[i], Delivered(v, events[..i + 1]);
            u == if fd in w.watched then Woken(w, w.watched[fd]).(watched := w.watched - {fd}) else w
  {
    assert Init(events[..i + 1]) == events[..i] && Last(events[..i + 1]) == events[i];
  }

  lemma NoneWoken(v: View)
    ensures AllWoken(v, []) == v && Delivered(v, []) == v
  {
  }

  lemma HappenedNext(v: View, t: Tid, events: History, i: nat, now: int, now': int)
    requires i < |events| && Arming(events) <= 1
    requires !Arms(events[i]) ==> now == now'
    ensures Happened(AllHappened(v, t, events[..i], now), t, events[i], now')
         == AllHappened(v, t, events[..i + 1], now')
  {
    hide Happened;
    Prefix(events, i);
    assert Init(events[..i + 1]) == events[..i] && Last(events[..i + 1]) == events[i];
    if Arms(events[i]) {
      NoTimerNoClock(v, t, events[..i], now, now');
    }
  }

  lemma TiedDrop(pending: map<O.Source, Tid>, delays: seq<T.Delay>, watched: map<int, Tid>)
    requires delays != [] && Tied(pending, delays, watched) && T.Increasing(delays)
    ensures O.Timer(delays[0].when) in pending && pending[O.Timer(delays[0].when)] == delays[0].task
    ensures Tied(pending - {O.Timer(delays[0].when)}, delays[1..], watched) && T.Increasing(delays[1..])
  {
    LaterThanFirst(delays);
    assert WatchesTied(pending - {O.Timer(delays[0].when)}, watched);
    TimersDrop(pending, delays);
  }

  lemma TimersDrop(pending: map<O.Source, Tid>, delays: seq<T.Delay>)
    requires delays != [] && TimersTied(pending, delays) && T.Increasing(delays)
    ensures O.Timer(delays[0].when) in pending && pending[O.Timer(delays[0].when)] == delays[0].task
    ensures TimersTied(pending - {O.Timer(delays[0].when)}, delays[1..])
  {
    LaterThanFirst(delays);
    hide T.Increasing;
    var d, rest := delays[0], delays[1..];
    forall k | k in pending && k.Timer? && k != O.Timer(d.when)
      ensures T.HasDeadline(rest, k.deadline)
    {
      var e :| e in delays && e.when == k.deadline;
      assert e in rest;
    }
  }

  lemma LaterThanFirst(delays: seq<T.Delay>)
    requires delays != [] && T.Increasing(delays)
    ensures T.Increasing(delays[1..])
    ensures forall e :: e in delays <==> e == delays[0] || e in delays[1..]
    ensures forall e <- delays[1..] :: delays[0].when < e.when
  {
    assert delays == [delays[0]] + delays[1..];
  }

  lemma TiedUnwatch(pending: map<O.Source, Tid>, delays: seq<T.Delay>, watched: map<int, Tid>, fd: int)
    requires Tied(pending, delays, watched) && fd in watched
    ensures O.Descriptor(fd) in pending && pending[O.Descriptor(fd)] == watched[fd]
    ensures Tied(pending - {O.Descriptor(fd)}, delays, watched - {fd})
  {
  }

  lemma StatusWoken(own: O.State, own': O.State, tasks: map<Tid, Conf>, t: Tid)
    requires StatusOk(own, tasks) && t in tasks && own'.held == own.held && own'.status == own.status[t := O.Run]
    ensures StatusOk(own', tasks[t := Wake(tasks[t])])
  {
  }

  lemma SourceFacts(own: O.State, k: O.Source)
    requires O.Inv(own) && k in own.pending
    ensures own.pending[k] in own.added
  {
    assert own.pending[k] in own.pending.Values;
  }

  lemma ListFacts(own: O.State)
    requires O.Inv(own)
    ensures O.NoRepeats(own.ready) && (forall t <- own.ready :: t in own.added)
  {
    assert forall t <- own.ready :: t in O.Ready(own);
  }

  lemma ParkedFacts(own: O.State, t: Tid)
    requires O.Inv(own) && own.waking == {} && own.held == map[] && own.ready == [] && t in own.active
    ensures t in O.Armed(own) && t in own.status && own.status[t] == O.Wait
  {
  }

  // ---------------------------------------------------------------------------------------
  // Fairness

  /** The front entry had its turn; if it was pushed back, it stands behind all others. */
  ghost predicate Turned(worlds: Tid -> World, v: View, w: View) {
    && v.ready != [] && w == TurnOf(worlds, v, w.clock) && v.clock <= w.clock
    && v.ready[1..] <= w.ready && O.NoRepeats(w.ready)
    && (v.ready[0] in w.ready ==> Last(w.ready) == v.ready[0])
  }

  /** The reactor between the turns of a run of `process_tasks`. */
  ghost predicate InTurns(worlds: Tid -> World, turns: seq<View>) {
    turns != [] && forall i :: 0 <= i < |turns| - 1 ==> Turned(worlds, turns[i], turns[i + 1])
  }

  lemma OneTurn(worlds: Tid -> World, turns: seq<View>, w: View)
    requires InTurns(worlds, turns) && Turned(worlds, Last(turns), w)
    ensures InTurns(worlds, turns + [w])
  {
    hide Turned;
    var all := turns + [w];
    forall i | 0 <= i < |all| - 1
      ensures Turned(worlds, all[i], all[i + 1])
    {
      assert all[i] == turns[i] && (i + 1 < |turns| ==> Turned(worlds, turns[i], turns[i + 1]));
    }
  }

  /** With one worker, an entry at position `k` of the ready list has its turn after exactly `k` other
      turns (here for any turn `i` from which the list runs empty). */
  lemma {:induction false} Fifo(worlds: Tid -> World, turns: seq<View>, i: nat, k: nat)
    requires InTurns(worlds, turns) && Last(turns).ready == []
    requires i < |turns| && k < |turns[i].ready|
    ensures i + k < |turns| - 1 && turns[i + k].ready != [] && turns[i + k].ready[0] == turns[i].ready[k]
    decreases k
  {
    hide TurnOf;
    assert i < |turns| - 1 && Turned(worlds, turns[i], turns[i + 1]);
    if k > 0 {
      assert turns[i + 1].ready[k - 1] == turns[i].ready[1..][k - 1];
      Fifo(worlds, turns, i + 1, k - 1);
    }
  }

  /** Between two consecutive turns of a task that yields, each task queued ahead of its re-queued entry
      has exactly one turn, in the order of the queue, and nobody else has one. */
  lemma YieldIsFair(worlds: Tid -> World, turns: seq<View>, i: nat)
    requires InTurns(worlds, turns) && Last(turns).ready == []
    requires i + 1 < |turns| && turns[i].ready != [] && turns[i].ready[0] in turns[i + 1].ready
    ensures var t, n := turns[i].ready[0], |turns[i + 1].ready|;
            && i + n < |turns| - 1 && turns[i + n].ready != [] && turns[i + n].ready[0] == t
            && (forall m :: i < m < i + n ==>
                  turns[m].ready != [] && turns[m].ready[0] == turns[i + 1].ready[m - i - 1] != t)
            && O.NoRepeats(turns[i + 1].ready)
  {
    hide TurnOf;
    assert Turned(worlds, turns[i], turns[i + 1]);
    var n := |turns[i + 1].ready|;
    Fifo(worlds, turns, i + 1, n - 1);
    forall m | i < m < i + n
      ensures turns[m].ready != [] && turns[m].ready[0] == turns[i + 1].ready[m - i - 1] != turns[i].ready[0]
    {
      Fifo(worlds, turns, i + 1, m - i - 1);
    }
  }

  // ---------------------------------------------------------------------------------------
  // The loop of `run()`

  /** What the environment does in one round: the completions it delivers, and whether the reactor is
      still running when they have been delivered. */
  datatype Round = Round(events: seq<int>, running: bool)

  /** A full round from `v` on: some task is active, the poll, and turns until nothing is ready. */
  ghost predicate OneRound(worlds: Tid -> World, v: View, round: Round, turns: seq<View>) {
    && v.active != {} && round.running && InTurns(worlds, turns)
    && turns[0] == Polled(v, round.events, turns[0].clock) && v.clock <= turns[0].clock
    && Last(turns).ready == []
  }

  /** Where full rounds lead to. */
  ghost function Reached(v: View, log: seq<seq<View>>): View {
    if log == [] || Last(log) == [] then v else Last(Last(log))
  }

  ghost predicate Iterated(worlds: Tid -> World, v: View, rounds: seq<Round>, log: seq<seq<View>>) {
    |log| <= |rounds| && forall i :: 0 <= i < |log| ==> OneRound(worlds, Reached(v, log[..i]), rounds[i], log[i])
  }

  lemma OneMoreRound(worlds: Tid -> World, v: View, rounds: seq<Round>, log: seq<seq<View>>, turns: seq<View>)
    requires |log| < |rounds| && Iterated(worlds, v, rounds, log)
    requires OneRound(worlds, Reached(v, log), rounds[|log|], turns)
    ensures Iterated(worlds, v, rounds, log + [turns])
    ensures turns != [] && Reached(v, log + [turns]) == Last(turns)
  {
    var all := log + [turns];
    assert turns != [] && Last(all) == turns;
    assert Reached(v, all) == Last(turns);
    hide OneRound, Reached, Last;
    forall i | 0 <= i < |all|
      ensures OneRound(worlds, Reached(v, all[..i]), rounds[i], all[i])
    {
      assert all[..i] == log[..i];
      assert log[..|log|] == log;
      assert i < |log| ==> OneRound(worlds, Reached(v, log[..i]), rounds[i], log[i]);
    }
  }

  lemma WokenKeeps(v: View, list: seq<Tid>)
    ensures var w := AllWoken(v, list);
            w.delays == v.delays && w.clock == v.clock && w.watched == v.watched && w.ready == v.ready + list
  {
    if list != [] {
      WokenKeeps(v, Init(list));
      assert list == Init(list) + [Last(list)];
    }
  }

  lemma DeliveredKeeps(v: View, events: seq<int>)
    ensures var w := Delivered(v, events);
            w.delays == v.delays && w.clock == v.clock && v.ready <= w.ready && forall t <- v.ready :: t in w.ready
  {
    if events != [] {
      DeliveredKeeps(v, Init(events));
    }
  }

  /** A poll takes exactly the due timers off the pool, and their tasks are ready then. */
  lemma PolledSleepers(v: View, events: seq<int>, now: int)
    requires T.Increasing(v.delays)
    ensures var w := Polled(v, events, now);
            && w.clock == now && T.Increasing(w.delays)
            && forall d <- v.delays :: if d.when <= now then d !in w.delays && d.task in w.ready else d in w.delays
  {
    hide T.Increasing;
    T.DueSplits(v.delays, now);
    DueOrNot(v.delays, now);
    WokenKeeps(v.(clock := now, delays := T.NotDue(v.delays, now)), T.TasksOf(T.Due(v.delays, now)));
    DeliveredKeeps(Expired(v, now), events);
  }

  lemma {:induction false} HappenedKeeps(v: View, t: Tid, events: History, now: int)
    requires T.Increasing(v.delays)
    ensures var w := AllHappened(v, t, events, now); T.Increasing(w.delays) && forall d <- v.delays :: d in w.delays
  {
    if events != [] {
      hide T.Increasing, T.Insert;
      var init, last := Init(events), Last(events);
      HappenedKeeps(v, t, init, now);
      if last.Did? && last.action.StartTimer? {
        InsertLeaves(AllHappened(v, t, init, now).delays, T.Delay(now + last.action.delay, t));
      }
    }
  }

  /** Turns leave all pending timers alone. */
  lemma {:induction false} TurnsKeepSleepers(worlds: Tid -> World, turns: seq<View>, i: nat)
    requires InTurns(worlds, turns) && i < |turns| && T.Increasing(turns[0].delays)
    ensures T.Increasing(turns[i].delays) && forall d <- turns[0].delays :: d in turns[i].delays
  {
    if i > 0 {
      TurnsKeepSleepers(worlds, turns, i - 1);
      hide T.Increasing, AllHappened, Step;
      var v, w := turns[i - 1], turns[i];
      assert Turned(worlds, v, w);
      var t := v.ready[0];
      var taken := v.(ready := v.ready[1..]);
      if t in v.tasks && v.tasks[t].Running? {
        HappenedKeeps(taken, t, Added(v.tasks[t], Step(worlds(t), v.tasks[t])), w.clock);
      }
    }
  }

  lemma RoundKeepsSleepers(worlds: Tid -> World, v: View, round: Round, turns: seq<View>)
    requires T.Increasing(v.delays) && OneRound(worlds, v, round, turns)
    ensures T.Increasing(Last(turns).delays) && turns != []
    ensures forall d <- v.delays ::
              if d.when <= turns[0].clock then d !in turns[0].delays && d.task in turns[0].ready
              else d in turns[0].delays && d in Last(turns).delays
  {
    hide T.Increasing, Polled, InTurns;
    assert turns != [] by { TurnsExist(worlds, turns); }
    PolledSleepers(v, round.events, turns[0].clock);
    TurnsKeepSleepers(worlds, turns, |turns| - 1);
  }

  lemma TurnsExist(worlds: Tid -> World, turns: seq<View>)
    requires InTurns(worlds, turns)
    ensures turns != []
  {
  }

  /** A sleeper is woken by the first poll that comes at its deadline or later, and its timer stays in the pool
      until then. */
  lemma {:induction false} SleeperWakes(worlds: Tid -> World, v: View, rounds: seq<Round>, log: seq<seq<View>>,
                                        d: T.Delay, i: nat)
    requires Iterated(worlds, v, rounds, log) && T.Increasing(v.delays) && d in v.delays && i < |log|
    requires forall j :: 0 <= j < i ==> log[j] != [] && log[j][0].clock < d.when
    ensures log[i] != [] && T.Increasing(Last(log[i]).delays)
    ensures if d.when <= log[i][0].clock then d !in log[i][0].delays && d.task in log[i][0].ready
            else d in log[i][0].delays && d in Last(log[i]).delays
  {
    hide T.Increasing, OneRound;
    var from := Reached(v, log[..i]);
    assert OneRound(worlds, from, rounds[i], log[i]);
    if i > 0 {
      SleeperWakes(worlds, v, rounds, log, d, i - 1);
      assert Last(log[..i]) == log[i - 1];
    }
    RoundKeepsSleepers(worlds, from, rounds[i], log[i]);
  }

  /** What is known of the step of a task before it is taken. */
  lemma Prepare(worlds: Tid -> World, tasks: map<Tid, Conf>, origin: map<Tid, Code>, active: set<Tid>, t: Tid)
    requires TasksOk(worlds, tasks, origin, active) && t in active && !tasks[t].waiting
    ensures tasks[t].Running?
    ensures var d := Step(worlds(t), tasks[t]);
            var events := Added(tasks[t], d);
            && Arming(events) == (if d.waiting then 1 else 0) && DisciplinedEvents(events)
            && (d.Finished? ==> !d.waiting)
            && Left(d) + SpawnSize(events) < Left(tasks[t])
  {
    StepKeepsDiscipline(worlds(t), tasks[t]);
    StepShrinks(worlds(t), tasks[t]);
  }

  lemma WorkSettled(list: seq<Tid>, list': seq<Tid>, tasks: map<Tid, Conf>, t: Tid)
    requires t in tasks && (list' == list || list' == list + [t])
    ensures Work(list', tasks) <= Work(list, tasks) + Left(tasks[t])
  {
    assert Init(list + [t]) == list;
  }

  lemma Prefix(events: History, i: nat)
    requires i < |events|
    ensures Arming(events[..i + 1]) == Arming(events[..i]) + (if Arms(events[i]) then 1 else 0) <= Arming(events)
    ensures SpawnSize(events[..i + 1]) == SpawnSize(events[..i]) + EventSize(events[i])
  {
    var some, rest := events[..i + 1], events[i + 1..];
    assert Init(some) == events[..i] && Last(some) == events[i];
    assert some + rest == events;
    ArmingAppend(some, rest);
  }

  /** New tasks were put behind the entries of the ready list, and nothing else happened to the tasks. */
  ghost predicate Grown(list: seq<Tid>, list': seq<Tid>, tasks: map<Tid, Conf>, tasks': map<Tid, Conf>,
                        origin: map<Tid, Code>, origin': map<Tid, Code>) {
    && list <= list' && (forall t <- list'[|list|..] :: t !in tasks)
    && Extends(tasks, tasks') && Extends(origin, origin')
  }

  lemma GrownByOne(list: seq<Tid>, tasks: map<Tid, Conf>, origin: map<Tid, Code>, t: Tid, code: Code)
    requires t !in tasks && t !in origin
    ensures Grown(list, list + [t], tasks, tasks[t := Start(code)], origin, origin[t := code])
  {
  }

  lemma WorkByOne(list: seq<Tid>, tasks: map<Tid, Conf>, t: Tid, code: Code)
    requires t !in tasks && forall u <- list :: u in tasks
    ensures Work(list + [t], tasks[t := Start(code)]) == Work(list, tasks) + Size(code.prog)
  {
    WorkFrame(list, tasks, tasks[t := Start(code)]);
    assert Init(list + [t]) == list && Last(list + [t]) == t;
    assert SizeAll([]) == 0;
  }

  lemma GrownReflexive(list: seq<Tid>, tasks: map<Tid, Conf>, origin: map<Tid, Code>)
    ensures Grown(list, list, tasks, tasks, origin, origin)
  {
  }

  lemma GrownTwice(a: seq<Tid>, b: seq<Tid>, c: seq<Tid>, ta: map<Tid, Conf>, tb: map<Tid, Conf>, tc: map<Tid, Conf>,
                   oa: map<Tid, Code>, ob: map<Tid, Code>, oc: map<Tid, Code>)
    requires Grown(a, b, ta, tb, oa, ob) && Grown(b, c, tb, tc, ob, oc)
    ensures Grown(a, c, ta, tc, oa, oc)
  {
    assert c[|a|..] == b[|a|..] + c[|b|..];
  }

  lemma ExtendsReflexive<K, V>(m: map<K, V>)
    ensures Extends(m, m)
  {
  }

  lemma ExtendsTwice<K, V>(a: map<K, V>, b: map<K, V>, c: map<K, V>)
    requires Extends(a, b) && Extends(b, c)
    ensures Extends(a, c)
  {
  }

  ghost predicate Extends<K, V>(before: map<K, V>, after: map<K, V>) {
    forall k <- before :: k in after && after[k] == before[k]
  }
}
