/** The reactor shared by any number of workers, as a step system: who owns a task when.

    Each label is one atomic step of some thread: a section made under a lock, a store to the state
    of a task, or the delivery of a timer or completion.  What a coroutine does between two
    suspensions is left open; it is only assumed to keep the discipline of the awaitables (module
    Coroutine proves that disciplined programs do). */
module Ownership {
  import opened Sequences

  type Tid = nat
  type Wid = nat

  /** What can wake a waiting task: a pending timer, or the registration of a descriptor. */
  datatype Source = Timer(deadline: int) | Descriptor(fd: int)

  datatype Status = Run | Wait

  /** Where a worker is in its turn of `process_tasks`. */
  datatype Phase =
    | Popped      // the front entry was taken, is_waiting() was not asked yet
    | Stepping    // inside one_step
    | Requeue     // one_step returned kRun, the task was not pushed back yet
    | Erase       // one_step returned kDone, the task was not erased yet

  datatype State = State(
    added: set<Tid>,            // every task ever handed to the reactor
    active: set<Tid>,           // m_active_tasks
    erased: multiset<Tid>,      // how often each task was erased from m_active_tasks
    status: map<Tid, Status>,   // m_state
    ready: seq<Tid>,            // m_tasks of the reactor
    held: map<Wid, Tid>,        // p_task of the workers inside their loop
    phase: map<Wid, Phase>,
    pending: map<Source, Tid>,  // pending timers, and registrations of the completion object
    waking: set<Tid>,           // tasks inside wake(): m_state is stored, the push is still to come
    lost: set<Tid>              // tasks whose only source was dropped, replaced or refused
  )

  const INITIAL := State({}, {}, multiset{}, map[], [], map[], map[], map[], {}, {})

  datatype Label =
    | Add(t: Tid)
    | Pop(w: Wid)
    | Skip(w: Wid)
    | Enter(w: Wid)
    | Mark(w: Wid, status: Status)
    | Arm(w: Wid, source: Source)
    | Refuse(w: Wid)
    | Suspend(w: Wid)
    | Finish(w: Wid)
    | Push(w: Wid)
    | Remove(w: Wid)
    | BeginWake(source: Source)
    | EndWake(t: Tid)

  function Ready(s: State): set<Tid> {
    set t | t in s.ready
  }

  /** Tasks with a wake-up source: a pending one, or one that was lost. */
  function Armed(s: State): set<Tid> {
    s.pending.Values + s.lost
  }

  predicate At(s: State, w: Wid, p: Phase) {
    w in s.held && w in s.phase && s.phase[w] == p && s.held[w] in s.status
  }

  /** What the code itself looks at before a step. */
  predicate Possible(s: State, l: Label) {
    match l
    case Add(t) => t !in s.added
    case Pop(w) => w !in s.held && s.ready != []
    case Skip(w) => At(s, w, Popped) && s.status[s.held[w]] == Wait
    case Enter(w) => At(s, w, Popped) && s.status[s.held[w]] == Run
    case Mark(w, _) => At(s, w, Stepping)
    case Arm(w, _) => At(s, w, Stepping)
    case Refuse(w) => At(s, w, Stepping)
    case Suspend(w) => At(s, w, Stepping)
    case Finish(w) => At(s, w, Stepping)
    case Push(w) => At(s, w, Requeue)
    case Remove(w) => At(s, w, Erase)
    case BeginWake(k) => k in s.pending
    case EndWake(t) => t in s.waking
  }

  /** What the code takes for granted.  `Arm`, `Refuse`, `Suspend` and `Finish` carry the discipline of the
      awaitables: one source per suspension, and kWait exactly with one.  `BeginWake` carries the
      assumption that a wake-up is not delivered while a worker is still inside `one_step` of the task. */
  predicate Guarded(s: State, l: Label)
    requires Possible(s, l)
  {
    match l
    case Arm(w, _) => s.held[w] !in Armed(s)
    case Refuse(w) => s.held[w] !in Armed(s)
    case Suspend(w) => s.status[s.held[w]] == Wait <==> s.held[w] in Armed(s)
    case Finish(w) => s.status[s.held[w]] == Run && s.held[w] !in Armed(s)
    case BeginWake(k) => s.pending[k] !in s.held.Values
    case _ => true
  }

  /** When a step can be taken. */
  predicate Enabled(s: State, l: Label) {
    Possible(s, l) && Guarded(s, l)
  }

  function Release(s: State, w: Wid): State {
    s.(held := s.held - {w}, phase := s.phase - {w})
  }

  function Next(s: State, l: Label): State
    requires Possible(s, l)
  {
    match l
    case Add(t) =>
      s.(added := s.added + {t}, active := s.active + {t}, status := s.status[t := Run], ready := s.ready + [t])
    case Pop(w) =>
      s.(ready := s.ready[1..], held := s.held[w := s.ready[0]], phase := s.phase[w := Popped])
    case Skip(w) => Release(s, w)
    case Enter(w) => s.(phase := s.phase[w := Stepping])
    case Mark(w, status) => s.(status := s.status[s.held[w] := status])
    case Arm(w, k) => ArmSource(s, s.held[w], k)
    case Refuse(w) => s.(lost := s.lost + {s.held[w]})
    case Suspend(w) =>
      if s.status[s.held[w]] == Run then s.(phase := s.phase[w := Requeue]) else Release(s, w)
    case Finish(w) => s.(phase := s.phase[w := Erase])
    case Push(w) => Release(s.(ready := s.ready + [s.held[w]]), w)
    case Remove(w) =>
      var t := s.held[w];
      Release(s.(active := s.active - {t}, erased := s.erased + multiset{t}), w)
    case BeginWake(k) => WakeNow(s, k)
    case EndWake(t) =>
      s.(waking := s.waking - {t}, ready := s.ready + [t])
  }

  /** A timer with a deadline that is already pending is not inserted; a registration replaces the one
      the descriptor had. */
  function ArmSource(s: State, t: Tid, k: Source): State {
    if k !in s.pending then s.(pending := s.pending[k := t])
    else if k.Timer? then s.(lost := s.lost + {t})
    else s.(pending := s.pending[k := t], lost := s.lost + {s.pending[k]})
  }

  /** The first statement of `wake()`, for the task that source `k` belongs to. */
  function WakeNow(s: State, k: Source): State
    requires k in s.pending
  {
    var t := s.pending[k];
    s.(status := s.status[t := Run], pending := s.pending - {k}, waking := s.waking + {t})
  }

  // ---------------------------------------------------------------------------------------
  // The invariant

  ghost predicate Injective<K, V>(m: map<K, V>) {
    forall x, y :: x in m && y in m && m[x] == m[y] ==> x == y
  }

  predicate NoRepeats<T(==)>(s: seq<T>) {
    forall i, j :: 0 <= i < j < |s| ==> s[i] != s[j]
  }

  predicate StatusIs(s: State, tasks: set<Tid>, status: Status) {
    forall t <- tasks :: t in s.status && s.status[t] == status
  }

  /** Every active task is ready, held, pending, in transit or lost; these exclude each other, except
      that a task still inside `one_step` may have armed its source already. */
  ghost predicate Inv(s: State) {
    && s.active <= s.added && s.status.Keys == s.added
    && NoRepeats(s.ready) && Injective(s.held) && Injective(s.pending)
    && s.active == Ready(s) + s.held.Values + s.pending.Values + s.waking + s.lost
    && Ready(s) !! s.held.Values !! s.waking
    && Ready(s) !! s.pending.Values !! s.lost !! s.waking
    && StatusIs(s, Ready(s) + s.waking, Run)
    && StatusIs(s, Armed(s) - s.held.Values, Wait)
    && s.phase.Keys == s.held.Keys
    && (forall w <- s.held :: s.phase[w] != Stepping ==> s.status[s.held[w]] == Run && s.held[w] !in Armed(s))
    && (forall t :: s.erased[t] == if t in s.added - s.active then 1 else 0)
  }

  lemma RemoveKey<K, V>(m: map<K, V>, k: K)
    requires Injective(m) && k in m
    ensures Injective(m - {k}) && (m - {k}).Values == m.Values - {m[k]}
  {
    var n := m - {k};
    forall v | v in m.Values - {m[k]} ensures v in n.Values {
      var x :| x in m && m[x] == v;
      assert x in n && n[x] == v;
    }
  }

  lemma AddKey<K, V>(m: map<K, V>, k: K, v: V)
    requires Injective(m) && k !in m && v !in m.Values
    ensures Injective(m[k := v]) && m[k := v].Values == m.Values + {v}
  {
    var n := m[k := v];
    assert n[k] == v;
    forall u | u in m.Values ensures u in n.Values {
      var x :| x in m && m[x] == u;
      assert x in n && n[x] == u;
    }
  }

  lemma ReplaceKey<K, V>(m: map<K, V>, k: K, v: V)
    requires Injective(m) && k in m && v !in m.Values
    ensures Injective(m[k := v]) && m[k := v].Values == m.Values - {m[k]} + {v}
  {
    RemoveKey(m, k);
    AddKey(m - {k}, k, v);
    assert m[k := v] == (m - {k})[k := v];
  }

  lemma InitialInv()
    ensures Inv(INITIAL)
  {
  }

  lemma AddKeepsInv(s: State, t: Tid)
    requires Inv(s) && Enabled(s, Add(t))
    ensures Inv(Next(s, Add(t)))
  {
    assert Ready(Next(s, Add(t))) == Ready(s) + {t};
  }

  lemma PopKeepsInv(s: State, w: Wid)
    requires Inv(s) && Enabled(s, Pop(w))
    ensures Inv(Next(s, Pop(w)))
  {
    var t := s.ready[0];
    assert t in Ready(s);
    AddKey(s.held, w, t);
    var n := Next(s, Pop(w));
    assert s.ready == [t] + n.ready;
    assert Ready(n) == Ready(s) - {t};
    assert n.phase.Keys == n.held.Keys;
  }

  /** Steps by which a worker gives up its task. */
  lemma ReleaseHeld(s: State, w: Wid)
    requires Inv(s) && w in s.held
    ensures var n := Release(s, w);
            Injective(n.held) && n.held.Values == s.held.Values - {s.held[w]} && n.phase.Keys == n.held.Keys
  {
    RemoveKey(s.held, w);
  }

  lemma SuspendKeepsInv(s: State, w: Wid)
    requires Inv(s) && Enabled(s, Suspend(w))
    ensures Inv(Next(s, Suspend(w)))
  {
    ReleaseHeld(s, w);
    assert Ready(Next(s, Suspend(w))) == Ready(s);
  }

  lemma PushKeepsInv(s: State, w: Wid)
    requires Inv(s) && Enabled(s, Push(w))
    ensures Inv(Next(s, Push(w)))
  {
    ReleaseHeld(s, w);
    assert Ready(Next(s, Push(w))) == Ready(s) + {s.held[w]};
  }

  lemma RemoveKeepsInv(s: State, w: Wid)
    requires Inv(s) && Enabled(s, Remove(w))
    ensures Inv(Next(s, Remove(w)))
  {
    ReleaseHeld(s, w);
    assert Ready(Next(s, Remove(w))) == Ready(s);
  }

  lemma ArmKeepsInv(s: State, w: Wid, k: Source)
    requires Inv(s) && Enabled(s, Arm(w, k))
    ensures Inv(Next(s, Arm(w, k)))
  {
    var t := s.held[w];
    if k !in s.pending {
      AddKey(s.pending, k, t);
    } else if k.Descriptor? {
      ReplaceKey(s.pending, k, t);
    }
    assert Ready(Next(s, Arm(w, k))) == Ready(s);
  }

  lemma BeginWakeKeepsInv(s: State, k: Source)
    requires Inv(s) && Enabled(s, BeginWake(k))
    ensures Inv(Next(s, BeginWake(k)))
  {
    RemoveKey(s.pending, k);
    assert Ready(Next(s, BeginWake(k))) == Ready(s);
  }

  lemma EndWakeKeepsInv(s: State, t: Tid)
    requires Inv(s) && Enabled(s, EndWake(t))
    ensures Inv(Next(s, EndWake(t)))
  {
    assert Ready(Next(s, EndWake(t))) == Ready(s) + {t};
  }

  /** Ownership is kept by every step of every worker.  (`Skip`, which would abandon a task, is never
      enabled: a popped task is never waiting.) */
  lemma StepKeepsInv(s: State, l: Label)
    requires Inv(s) && Enabled(s, l)
    ensures !l.Skip? && Inv(Next(s, l))
  {
    match l
    case Add(t) => AddKeepsInv(s, t);
    case Pop(w) => PopKeepsInv(s, w);
    case Skip(_) =>
    case Enter(w) => assert Ready(Next(s, l)) == Ready(s);
    case Mark(w, _) => assert Ready(Next(s, l)) == Ready(s);
    case Arm(w, k) => ArmKeepsInv(s, w, k);
    case Refuse(w) => assert Ready(Next(s, l)) == Ready(s);
    case Suspend(w) => SuspendKeepsInv(s, w);
    case Finish(w) => assert Ready(Next(s, l)) == Ready(s);
    case Push(w) => PushKeepsInv(s, w);
    case Remove(w) => RemoveKeepsInv(s, w);
    case BeginWake(k) => BeginWakeKeepsInv(s, k);
    case EndWake(t) => EndWakeKeepsInv(s, t);
  }

  // ---------------------------------------------------------------------------------------
  // All runs

  ghost predicate Legal(s: State, run: seq<Label>)
    decreases |run|
  {
    run != [] ==> Enabled(s, run[0]) && Legal(Next(s, run[0]), run[1..])
  }

  ghost function After(s: State, run: seq<Label>): State
    requires Legal(s, run)
    decreases |run|
  {
    if run == [] then s else After(Next(s, run[0]), run[1..])
  }

  lemma {:induction false} RunKeepsInv(s: State, run: seq<Label>)
    requires Inv(s) && Legal(s, run)
    ensures Inv(After(s, run))
    decreases |run|
  {
    if run != [] {
      StepKeepsInv(s, run[0]);
      RunKeepsInv(Next(s, run[0]), run[1..]);
    }
  }

  lemma {:induction false} Snoc(s: State, run: seq<Label>, l: Label)
    requires Legal(s, run) && Enabled(After(s, run), l)
    ensures Legal(s, run + [l]) && After(s, run + [l]) == Next(After(s, run), l)
    decreases |run|
  {
    if run == [] {
      assert ([l])[1..] == [];
      assert run + [l] == [l];
    } else {
      assert (run + [l])[1..] == run[1..] + [l];
      Snoc(Next(s, run[0]), run[1..], l);
    }
  }

  function Is(b: bool): nat {
    if b then 1 else 0
  }

  /** In how many places a task is: ready, held by a worker, in transit, or parked, where `parked` are the
      tasks with a source or all that should have one. */
  function Places(s: State, parked: set<Tid>, t: Tid): nat {
    Is(t in Ready(s)) + Is(t in s.held.Values) + Is(t in s.waking) + Is(t in parked - s.held.Values)
  }

  /** No place has a task twice, and the state of a task fits its place. */
  ghost predicate Once(s: State, parked: set<Tid>, t: Tid) {
    && (forall i, j :: 0 <= i < j < |s.ready| ==> !(s.ready[i] == t == s.ready[j]))
    && (forall v, w :: v in s.held && w in s.held && s.held[v] == t == s.held[w] ==> v == w)
    && (forall j, k :: j in s.pending && k in s.pending && s.pending[j] == t == s.pending[k] ==> j == k)
    && (t in s.ready ==> t in s.status && s.status[t] == Run)
    && (t in parked - s.held.Values ==> t in s.status && s.status[t] == Wait)
  }

  /** After every run of any number of workers, each active task is in exactly one place, and there only
      once: ready in state kRun, held by one worker, in transit, or in kWait with one source, pending or
      lost.  A task that is not active is in none. */
  lemma ExactlyOnePlace(run: seq<Label>, t: Tid)
    requires Legal(INITIAL, run)
    ensures var s := After(INITIAL, run);
            Places(s, Armed(s), t) == Is(t in s.active) && Once(s, Armed(s), t)
  {
    InitialInv();
    RunKeepsInv(INITIAL, run);
  }

  /** If no source is lost on the way, the last place is kWait with exactly one pending timer or completion. */
  lemma ExactlyOneSource(run: seq<Label>, t: Tid)
    requires Legal(INITIAL, run) && Lossless(INITIAL, run)
    ensures var s := After(INITIAL, run);
            && s.lost == {}
            && Places(s, s.pending.Values, t) == Is(t in s.active) && Once(s, s.pending.Values, t)
  {
    InitialInv();
    NothingLostIff(INITIAL, run);
    ExactlyOnePlace(run, t);
    var s := After(INITIAL, run);
    assert Armed(s) == s.pending.Values;
  }

  /** Conservation: what was added is still active, or was erased exactly once.  When nothing is active
      any more, which is when the loop of `run()` ends, every task was erased, and nothing is
      ready, held, pending or in transit. */
  lemma Conservation(run: seq<Label>)
    requires Legal(INITIAL, run)
    ensures Conserved(After(INITIAL, run))
  {
    InitialInv();
    RunKeepsInv(INITIAL, run);
    InvConserves(After(INITIAL, run));
  }

  ghost predicate Conserved(s: State) {
    && s.active <= s.added && |s.added| == |s.active| + |s.erased|
    && s.erased == multiset(s.added - s.active)
    && (s.active == {} ==> s.ready == [] && s.held == map[] && s.pending == map[] && s.waking == {} && s.lost == {})
  }

  lemma InvConserves(s: State)
    requires Inv(s)
    ensures Conserved(s)
  {
    InvErased(s);
    hide Inv;
    Cardinality(s.added, s.active);
    if s.active == {} {
      NothingLeft(s);
    }
  }

  lemma Cardinality<T>(all: set<T>, some: set<T>)
    requires some <= all
    ensures |all| == |some| + |multiset(all - some)|
  {
    assert all == (all - some) + some;
  }

  lemma InvErased(s: State)
    requires Inv(s)
    ensures s.active <= s.added && s.erased == multiset(s.added - s.active)
  {
  }

  lemma NothingLeft(s: State)
    requires Inv(s) && s.active == {}
    ensures s.ready == [] && s.held == map[] && s.pending == map[] && s.waking == {} && s.lost == {}
  {
    assert s.ready != [] ==> Last(s.ready) in Ready(s);
  }

  /** Steps that lose a source: arming one that is occupied, by a pending timer with the same deadline or by
      the registration of another task; or a refused registration. */
  predicate Loses(s: State, l: Label) {
    (l.Arm? && l.source in s.pending) || l.Refuse?
  }

  ghost predicate Lossless(s: State, run: seq<Label>)
    requires Legal(s, run)
    decreases |run|
  {
    run != [] ==> !Loses(s, run[0]) && Lossless(Next(s, run[0]), run[1..])
  }

  lemma LostGrows(s: State, l: Label)
    requires Inv(s) && Enabled(s, l)
    ensures s.lost <= Next(s, l).lost
    ensures Next(s, l).lost == s.lost <==> !Loses(s, l)
  {
    if l.Arm? && l.source in s.pending {
      assert s.pending[l.source] in s.pending.Values;
    }
  }

  lemma {:induction false} LostIsFinal(s: State, run: seq<Label>)
    requires Inv(s) && Legal(s, run)
    ensures s.lost <= After(s, run).lost
    decreases |run|
  {
    if run != [] {
      LostGrows(s, run[0]);
      StepKeepsInv(s, run[0]);
      LostIsFinal(Next(s, run[0]), run[1..]);
    }
  }

  /** No task is ever lost exactly when no timer is started with a deadline that is pending already, and no
      registration is refused or made while the descriptor has one. */
  lemma {:induction false} NothingLostIff(s: State, run: seq<Label>)
    requires Inv(s) && Legal(s, run)
    ensures After(s, run).lost == s.lost <==> Lossless(s, run)
    decreases |run|
  {
    if run != [] {
      LostGrows(s, run[0]);
      StepKeepsInv(s, run[0]);
      LostIsFinal(Next(s, run[0]), run[1..]);
      NothingLostIff(Next(s, run[0]), run[1..]);
    }
  }

  // ---------------------------------------------------------------------------------------
  // Runs that lose a task, and runs without the guards

  /** Task 0 sleeps until moment 5, and worker 0 is stepping task 1, which is about to go to sleep too. */
  const SLEEPERS: seq<Label> := [
    Add(0), Add(1), Pop(0), Enter(0), Mark(0, Wait), Arm(0, Timer(5)), Suspend(0), Pop(0), Enter(0), Mark(0, Wait)]

  const TWO_SLEEPERS := State({0, 1}, {0, 1}, multiset{}, map[0 := Wait, 1 := Wait], [],
                              map[0 := 1], map[0 := Stepping], map[Timer(5) := 0], {}, {})

  /** From there, which is reached, the second sleeper is lost with the same deadline and not with another. */
  lemma EqualDeadlinesLoseATask()
    ensures Legal(INITIAL, SLEEPERS) && After(INITIAL, SLEEPERS) == TWO_SLEEPERS
    ensures Enabled(TWO_SLEEPERS, Arm(0, Timer(5))) && Enabled(TWO_SLEEPERS, Arm(0, Timer(6)))
    ensures Next(TWO_SLEEPERS, Arm(0, Timer(5))).lost == {1}
    ensures Next(TWO_SLEEPERS, Arm(0, Timer(6))).lost == {}
  {
    TwoSleepersReached();
    hide Legal, After;
    assert TWO_SLEEPERS.pending[Timer(5)] == 0 && TWO_SLEEPERS.held[0] == 1;
    assert TWO_SLEEPERS.pending.Values == {0} && TWO_SLEEPERS.held.Values == {1};
  }

  /** A lost task stays lost: in every run that goes on from a state, whoever is lost there is active and not
      ready, in transit or pending ever after, unless it is still inside the step that lost it. */
  lemma {:induction false} LostNeverWakes(s: State, run: seq<Label>, t: Tid)
    requires Inv(s) && Legal(s, run) && t in s.lost && t !in s.held.Values
    ensures var n := After(s, run);
            t in n.active && t !in Ready(n) + n.held.Values + n.waking + n.pending.Values
    decreases |run|
  {
    if run != [] {
      LostGrows(s, run[0]);
      StepKeepsInv(s, run[0]);
      NotHeld(s, run[0], t);
      LostNeverWakes(Next(s, run[0]), run[1..], t);
    }
  }

  lemma NotHeld(s: State, l: Label, t: Tid)
    requires Inv(s) && Enabled(s, l) && t in s.lost && t !in s.held.Values
    ensures t !in Next(s, l).held.Values
  {
    if l.Pop? {
      assert s.ready[0] in Ready(s);
    }
  }

  ghost predicate Takes(s: State, l: Label, n: State) {
    Enabled(s, l) && Next(s, l) == n
  }

  lemma {:induction false} Trail(states: seq<State>, run: seq<Label>)
    requires |states| == |run| + 1
    requires forall i :: 0 <= i < |run| ==> Takes(states[i], run[i], states[i + 1])
    ensures Legal(states[0], run) && After(states[0], run) == states[|run|]
    decreases |run|
  {
    if run != [] {
      assert Takes(states[0], run[0], states[1]);
      forall i | 0 <= i < |run[1..]|
        ensures Takes(states[1..][i], run[1..][i], states[1..][i + 1])
      {
        assert Takes(states[i + 1], run[i + 1], states[i + 2]);
      }
      Trail(states[1..], run[1..]);
    }
  }

  /** Two tasks of which the first is added, taken, and inside `one_step` with its timer armed. */
  const TWO_ADDED := State({0, 1}, {0, 1}, multiset{}, map[0 := Run, 1 := Run], [0, 1], map[], map[], map[], {}, {})
  const FIRST_TAKEN := TWO_ADDED.(ready := [1], held := map[0 := 0], phase := map[0 := Popped])
  const FIRST_INSIDE := FIRST_TAKEN.(phase := map[0 := Stepping])
  const FIRST_MARKED := FIRST_INSIDE.(status := map[0 := Wait, 1 := Run])
  const FIRST_ARMED := FIRST_MARKED.(pending := map[Timer(5) := 0])
  const ONE_SLEEPER := FIRST_ARMED.(held := map[], phase := map[])
  const SECOND_TAKEN := ONE_SLEEPER.(ready := [], held := map[0 := 1], phase := map[0 := Popped])
  const SECOND_INSIDE := SECOND_TAKEN.(phase := map[0 := Stepping])

  lemma FirstGoesToSleep()
    ensures Takes(TWO_ADDED, Pop(0), FIRST_TAKEN) && Takes(FIRST_TAKEN, Enter(0), FIRST_INSIDE)
    ensures Takes(FIRST_INSIDE, Mark(0, Wait), FIRST_MARKED)
    ensures Takes(FIRST_MARKED, Arm(0, Timer(5)), FIRST_ARMED)
  {
  }

  lemma FirstLeaves()
    ensures Takes(FIRST_ARMED, Suspend(0), ONE_SLEEPER)
  {
    assert FIRST_ARMED.pending[Timer(5)] == 0;
  }

  lemma SecondGoesToSleep()
    ensures Takes(ONE_SLEEPER, Pop(0), SECOND_TAKEN) && Takes(SECOND_TAKEN, Enter(0), SECOND_INSIDE)
    ensures Takes(SECOND_INSIDE, Mark(0, Wait), TWO_SLEEPERS)
  {
  }

  lemma {:induction false} Append(s: State, run: seq<Label>, more: seq<Label>)
    requires Legal(s, run) && Legal(After(s, run), more)
    ensures Legal(s, run + more) && After(s, run + more) == After(After(s, run), more)
    decreases |run|
  {
    if run == [] {
      assert run + more == more;
    } else {
      assert (run + more)[1..] == run[1..] + more;
      Append(Next(s, run[0]), run[1..], more);
    }
  }

  lemma OneSleeperReached()
    ensures Legal(INITIAL, SLEEPERS[..7]) && After(INITIAL, SLEEPERS[..7]) == ONE_SLEEPER
  {
    var one := State({0}, {0}, multiset{}, map[0 := Run], [0], map[], map[], map[], {}, {});
    assert Takes(INITIAL, Add(0), one) && Takes(one, Add(1), TWO_ADDED);
    hide Takes, Legal, After;
    FirstGoesToSleep();
    FirstLeaves();
    Trail([INITIAL, one, TWO_ADDED, FIRST_TAKEN, FIRST_INSIDE, FIRST_MARKED, FIRST_ARMED, ONE_SLEEPER], SLEEPERS[..7]);
  }

  lemma TwoSleepersReached()
    ensures Legal(INITIAL, SLEEPERS) && After(INITIAL, SLEEPERS) == TWO_SLEEPERS
  {
    hide Takes, Legal, After;
    OneSleeperReached();
    SecondGoesToSleep();
    Trail([ONE_SLEEPER, SECOND_TAKEN, SECOND_INSIDE, TWO_SLEEPERS], SLEEPERS[7..]);
    Append(INITIAL, SLEEPERS[..7], SLEEPERS[7..]);
    assert SLEEPERS[..7] + SLEEPERS[7..] == SLEEPERS;
  }

  /** Rearming a task that was lost already, in a way that is lost again. */
  predicate StillLost(s: State, l: Label)
    requires Possible(s, l)
  {
    match l
    case Arm(w, k) => s.held[w] in s.lost && k in s.pending && k.Timer?
    case Refuse(w) => s.held[w] in s.lost
    case _ => false
  }

  /** The guards are exactly what ownership needs: a step that the code can take keeps the invariant if and
      only if its guard holds, or it loses a task that was lost already. */
  lemma GuardIsExact(s: State, l: Label)
    requires Inv(s) && Possible(s, l)
    ensures Inv(Next(s, l)) <==> Guarded(s, l) || StillLost(s, l)
  {
    if Guarded(s, l) {
      StepKeepsInv(s, l);
    } else {
      match l
      case Arm(w, k) => RearmBreaks(s, w, k);
      case Refuse(w) =>
        assert Next(s, l).lost == s.lost <==> s.held[w] in s.lost;
        if s.held[w] in s.lost {
          assert Next(s, l) == s;
        }
      case Suspend(w) => SuspendBreaks(s, w);
      case Finish(w) => assert w in Next(s, l).held && Next(s, l).phase[w] == Erase;
      case BeginWake(k) => assert s.pending[k] in WakeNow(s, k).waking * WakeNow(s, k).held.Values;
    }
  }

  lemma RearmBreaks(s: State, w: Wid, k: Source)
    requires Inv(s) && Possible(s, Arm(w, k)) && s.held[w] in Armed(s)
    ensures Inv(Next(s, Arm(w, k))) <==> StillLost(s, Arm(w, k))
  {
    var t, n := s.held[w], Next(s, Arm(w, k));
    if StillLost(s, Arm(w, k)) {
      assert n == s;
    } else if k in s.pending && k.Timer? {
      assert t in n.lost && t in n.pending.Values;
    } else if t in s.lost {
      assert n.pending[k] == t;
      assert t in n.lost && t in n.pending.Values;
    } else {
      var j :| j in s.pending && s.pending[j] == t;
      if k == j {
        assert n.pending[k] == t && t in n.lost;
        assert t in n.pending.Values;
      } else {
        assert j in n.pending && k in n.pending && n.pending[j] == n.pending[k];
      }
    }
  }

  lemma SuspendBreaks(s: State, w: Wid)
    requires Inv(s) && Possible(s, Suspend(w)) && !Guarded(s, Suspend(w))
    ensures !Inv(Next(s, Suspend(w)))
  {
    var t, n := s.held[w], Next(s, Suspend(w));
    if s.status[t] == Run {
      assert w in n.held && n.phase[w] == Requeue && t in Armed(n);
    } else {
      ReleaseHeld(s, w);
      assert Ready(n) == Ready(s);
      assert t in n.active && t !in Ready(n) + n.held.Values + n.pending.Values + n.waking + n.lost;
    }
  }

  /** For a wake-up: delivering it keeps ownership if and only if no worker holds the task. */
  lemma WakeGuardIsExact(s: State, k: Source)
    requires Inv(s) && k in s.pending
    ensures Inv(WakeNow(s, k)) <==> s.pending[k] !in s.held.Values
  {
    hide Inv;
    GuardIsExact(s, BeginWake(k));
  }

  /** If a wake-up is delivered while a worker is inside `one_step` of the task, the task is
      held and in the ready list at once, and a second worker that takes it is inside `one_step` too. */
  lemma UnguardedWakeDoubles(s: State, k: Source, w: Wid)
    requires Inv(s) && k in s.pending && s.pending[k] in s.held.Values && s.ready == [] && w !in s.held
    ensures var t, n := s.pending[k], Next(s, BeginWake(k));
            && Legal(n, [EndWake(t), Pop(w), Enter(w)])
            && var m := After(n, [EndWake(t), Pop(w), Enter(w)]);
               At(m, w, Stepping) && m.held[w] == t && exists v :: v != w && At(m, v, Stepping) && m.held[v] == t
  {
    PendingInside(s, k);
    hide Inv, Legal, After;
    var t, n := s.pending[k], Next(s, BeginWake(k));
    var a := Next(n, EndWake(t));
    assert a.ready == [t];
    var b := Next(a, Pop(w));
    var c := Next(b, Enter(w));
    Trail([n, a, b, c], [EndWake(t), Pop(w), Enter(w)]);
    var v :| v in s.held && s.held[v] == t;
    assert At(c, v, Stepping) && c.held[v] == t;
  }

  /** A task that is pending and held is inside `one_step`. */
  lemma PendingInside(s: State, k: Source)
    requires Inv(s) && k in s.pending
    ensures s.pending[k] in s.status
    ensures forall v <- s.held :: s.held[v] == s.pending[k] ==> At(s, v, Stepping)
  {
    assert s.pending[k] in s.pending.Values;
  }

  /** Such a state is reached: task 0 has armed its timer and is still inside `one_step`.  A wake-up then has
      two workers inside `one_step` of the task. */
  const ARMED_INSIDE: seq<Label> := [Add(0), Pop(0), Enter(0), Mark(0, Wait), Arm(0, Timer(5))]

  lemma WakeInsideIsReached()
    ensures Legal(INITIAL, ARMED_INSIDE)
    ensures var s := After(INITIAL, ARMED_INSIDE);
            && Timer(5) in s.pending && s.pending[Timer(5)] in s.held.Values && s.ready == [] && 1 !in s.held
            && Possible(s, BeginWake(Timer(5))) && !Guarded(s, BeginWake(Timer(5)))
  {
    OnlyTaskArms();
    assert ONLY_ARMED.held[0] == 0 && ONLY_ARMED.pending[Timer(5)] == 0;
    assert ONLY_ARMED.pending[Timer(5)] in ONLY_ARMED.held.Values;
    hide Takes, Legal, After, Next;
    Trail([INITIAL, ONLY_ADDED, ONLY_TAKEN, ONLY_INSIDE, ONLY_MARKED, ONLY_ARMED], ARMED_INSIDE);
  }

  const ONLY_ADDED := State({0}, {0}, multiset{}, map[0 := Run], [0], map[], map[], map[], {}, {})
  const ONLY_TAKEN := ONLY_ADDED.(ready := [], held := map[0 := 0], phase := map[0 := Popped])
  const ONLY_INSIDE := ONLY_TAKEN.(phase := map[0 := Stepping])
  const ONLY_MARKED := ONLY_INSIDE.(status := map[0 := Wait])
  const ONLY_ARMED := ONLY_MARKED.(pending := map[Timer(5) := 0])

  lemma OnlyTaskArms()
    ensures Takes(INITIAL, Add(0), ONLY_ADDED) && Takes(ONLY_ADDED, Pop(0), ONLY_TAKEN)
    ensures Takes(ONLY_TAKEN, Enter(0), ONLY_INSIDE) && Takes(ONLY_INSIDE, Mark(0, Wait), ONLY_MARKED)
    ensures Takes(ONLY_MARKED, Arm(0, Timer(5)), ONLY_ARMED)
  {
  }
}
