/** The timer pool: a set of pending timers ordered by deadline alone. */
module TimerPool {
  import opened Ownership

  datatype Delay = Delay(when: int, task: Tid)

  /** Insertion into a `std::set` whose order only looks at the deadline: an entry that is neither
      before nor after an existing one is not inserted. */
  function Insert(pool: seq<Delay>, d: Delay): seq<Delay> {
    if pool == [] || d.when < pool[0].when then [d] + pool
    else if pool[0].when < d.when then [pool[0]] + Insert(pool[1..], d)
    else pool
  }

  predicate Increasing(pool: seq<Delay>) {
    forall i, j :: 0 <= i < j < |pool| ==> pool[i].when < pool[j].when
  }

  predicate HasDeadline(delays: seq<Delay>, when: int) {
    exists d <- delays :: d.when == when
  }

  lemma {:induction false} InsertIsSetInsert(pool: seq<Delay>, d: Delay)
    requires Increasing(pool)
    ensures var p := Insert(pool, d);
            && Increasing(p)
            && (HasDeadline(pool, d.when) ==> p == pool)
            && (!HasDeadline(pool, d.when) ==> forall e :: e in p <==> e in pool || e == d)
  {
    if pool == [] || d.when < pool[0].when {
    } else if pool[0].when < d.when {
      var rest := pool[1..];
      InsertIsSetInsert(rest, d);
      assert pool == [pool[0]] + rest && Insert(pool, d) == [pool[0]] + Insert(rest, d);
      hide Insert;
      assert HasDeadline(pool, d.when) == HasDeadline(rest, d.when);
      assert forall e <- Insert(rest, d) :: pool[0].when < e.when;
    } else {
      assert pool[0] in pool;
    }
  }

  /** The entries that are due. */
  function Due(pool: seq<Delay>, now: int): seq<Delay> {
    if pool != [] && pool[0].when <= now then [pool[0]] + Due(pool[1..], now) else []
  }

  function NotDue(pool: seq<Delay>, now: int): seq<Delay> {
    if pool != [] && pool[0].when <= now then NotDue(pool[1..], now) else pool
  }

  function TasksOf(delays: seq<Delay>): (r: seq<Tid>)
    ensures |r| == |delays| && forall i :: 0 <= i < |r| ==> r[i] == delays[i].task
  {
    seq(|delays|, i requires 0 <= i < |delays| => delays[i].task)
  }

  /** Time to the next deadline; zero stands for no timer at all. */
  function NextDelay(pool: seq<Delay>, now: int): int {
    if pool == [] then 0 else pool[0].when - now
  }

  /** The entries that are due are a prefix of the pool. */
  lemma {:induction false} DueIsPrefix(pool: seq<Delay>, now: int)
    requires Increasing(pool)
    ensures var n := |Due(pool, now)|;
            && n <= |pool| && Due(pool, now) == pool[..n] && NotDue(pool, now) == pool[n..]
            && (forall i :: 0 <= i < n ==> pool[i].when <= now)
            && (forall i :: n <= i < |pool| ==> pool[i].when > now)
  {
    if pool != [] && pool[0].when <= now {
      var rest := pool[1..];
      DueIsPrefix(rest, now);
      assert forall i :: 1 <= i < |pool| ==> pool[i] == rest[i - 1];
    }
  }

  lemma DueSplits(pool: seq<Delay>, now: int)
    requires Increasing(pool)
    ensures Increasing(Due(pool, now)) && Increasing(NotDue(pool, now))
    ensures forall d :: d in Due(pool, now) <==> d in pool && d.when <= now
    ensures forall d :: d in NotDue(pool, now) <==> d in pool && d.when > now
  {
    DueIsPrefix(pool, now);
    hide Due, NotDue;
    SplitKeepsOrder(pool, |Due(pool, now)|);
    SplitByDeadline(pool, |Due(pool, now)|, now);
  }

  lemma SplitKeepsOrder(pool: seq<Delay>, n: nat)
    requires Increasing(pool) && n <= |pool|
    ensures Increasing(pool[..n]) && Increasing(pool[n..])
  {
    var early, late := pool[..n], pool[n..];
    assert forall i :: 0 <= i < |early| ==> early[i] == pool[i];
    assert forall i :: 0 <= i < |late| ==> late[i] == pool[n + i];
  }

  lemma SplitByDeadline(pool: seq<Delay>, n: nat, now: int)
    requires n <= |pool|
    requires forall i :: 0 <= i < n ==> pool[i].when <= now
    requires forall i :: n <= i < |pool| ==> pool[i].when > now
    ensures forall d :: d in pool[..n] <==> d in pool && d.when <= now
    ensures forall d :: d in pool[n..] <==> d in pool && d.when > now
  {
    var early, late := pool[..n], pool[n..];
    forall d
      ensures d in early <==> d in pool && d.when <= now
      ensures d in late <==> d in pool && d.when > now
    {
      assert d in pool <==> d in early || d in late by {
        assert pool == early + late;
      }
      assert d in early ==> d.when <= now;
      assert d in late ==> d.when > now by {
        assert forall i :: 0 <= i < |late| ==> late[i] == pool[n + i];
      }
    }
  }

  class Pool {
    var tasks: seq<Delay>   // m_tasks, in the order of the set

    ghost predicate Valid()
      reads this
    {
      Increasing(tasks)
    }

    constructor ()
      ensures Valid() && tasks == []
    {
      tasks := [];
    }

    /** `add`, with the clock reading passed in. */
    method Add(now: int, delay: int, task: Tid)
      requires Valid()
      modifies this
      ensures Valid() && tasks == Insert(old(tasks), Delay(now + delay, task))
    {
      InsertIsSetInsert(tasks, Delay(now + delay, task));
      tasks := Insert(tasks, Delay(now + delay, task));
    }

    /** `get_delay`: wakes, in the order of their deadlines, exactly the tasks whose timers are due,
        and returns the time to the next deadline. */
    method GetDelay(now: int) returns (woken: seq<Delay>, wait: int)
      requires Valid()
      modifies this
      ensures Valid() && tasks == NotDue(old(tasks), now) && woken == Due(old(tasks), now)
      ensures wait == NextDelay(tasks, now) && wait >= 0
      ensures wait == 0 <==> tasks == []
    {
      wait, woken := 0, [];
      while tasks != []
        invariant Valid() && wait == 0
        invariant NotDue(tasks, now) == NotDue(old(tasks), now)
        invariant woken + Due(tasks, now) == Due(old(tasks), now)
        decreases |tasks|
      {
        var task := tasks[0];
        if task.when <= now {
          woken := woken + [task];
          tasks := tasks[1..];
        } else {
          wait := task.when - now;
          break;
        }
      }
    }
  }

  // ---------------------------------------------------------------------------------------
  // Against a plain list of adds

  datatype Op = Started(d: Delay) | Polled(now: int)

  /** The pool after a sequence of operations. */
  function PoolOf(ops: seq<Op>): seq<Delay> {
    if ops == [] then []
    else
      var pool := PoolOf(ops[..|ops| - 1]);
      match ops[|ops| - 1]
      case Started(d) => Insert(pool, d)
      case Polled(now) => NotDue(pool, now)
  }

  /** The reference: all adds in their order, equal deadlines included; a poll takes out those due. */
  function Pending(ops: seq<Op>): seq<Delay> {
    if ops == [] then []
    else
      var list := Pending(ops[..|ops| - 1]);
      match ops[|ops| - 1]
      case Started(d) => list + [d]
      case Polled(now) => Later(list, now)
  }

  function Later(list: seq<Delay>, now: int): seq<Delay> {
    if list == [] then []
    else
      var rest := Later(list[..|list| - 1], now);
      var d := list[|list| - 1];
      if d.when > now then rest + [d] else rest
  }

  /** The first of the list with a given deadline. */
  predicate IsFirst(list: seq<Delay>, d: Delay) {
    exists i :: 0 <= i < |list| && list[i] == d && !HasDeadline(list[..i], d.when)
  }

  lemma FirstAppend(list: seq<Delay>, d: Delay, e: Delay)
    ensures IsFirst(list + [d], e) <==> IsFirst(list, e) || (e == d && !HasDeadline(list, d.when))
    ensures HasDeadline(list, e.when) <==> exists f: Delay :: f.when == e.when && IsFirst(list, f)
  {
    var more := list + [d];
    if IsFirst(list, e) {
      var i :| 0 <= i < |list| && list[i] == e && !HasDeadline(list[..i], e.when);
      assert more[i] == e && more[..i] == list[..i];
    }
    if e == d && !HasDeadline(list, d.when) {
      assert more[|list|] == e && more[..|list|] == list;
    }
    if IsFirst(more, e) {
      var i :| 0 <= i < |more| && more[i] == e && !HasDeadline(more[..i], e.when);
      if i < |list| {
        assert list[i] == e && more[..i] == list[..i];
      } else {
        assert more[..i] == list;
      }
    }
    if HasDeadline(list, e.when) {
      FirstExists(list, e.when);
    }
  }

  lemma {:induction false} FirstExists(list: seq<Delay>, when: int)
    requires HasDeadline(list, when)
    ensures exists f: Delay :: f.when == when && IsFirst(list, f)
  {
    var init, last := list[..|list| - 1], list[|list| - 1];
    assert list == init + [last];
    if HasDeadline(init, when) {
      FirstExists(init, when);
      var f: Delay :| f.when == when && IsFirst(init, f);
      var i :| 0 <= i < |init| && init[i] == f && !HasDeadline(init[..i], f.when);
      assert list[i] == f && list[..i] == init[..i];
      assert IsFirst(list, f);
    } else {
      assert last.when == when && list[..|init|] == init && list[|init|] == last;
      assert IsFirst(list, last);
    }
  }

  lemma {:induction false} LaterFirst(list: seq<Delay>, now: int, e: Delay)
    ensures HasDeadline(Later(list, now), e.when) <==> HasDeadline(list, e.when) && e.when > now
    ensures IsFirst(Later(list, now), e) <==> IsFirst(list, e) && e.when > now
  {
    if list != [] {
      var init, d := list[..|list| - 1], list[|list| - 1];
      assert list == init + [d];
      LaterFirst(init, now, e);
      LaterFirst(init, now, d);
      FirstAppend(init, d, e);
      FirstAppend(Later(init, now), d, e);
    }
  }

  /** Over any sequence of adds and polls, the pool is in increasing order of deadlines, and it holds
      exactly the first-added task of every deadline that is still pending. */
  lemma {:induction false} PoolHoldsFirstAdds(ops: seq<Op>)
    ensures Increasing(PoolOf(ops))
    ensures forall d :: d in PoolOf(ops) <==> IsFirst(Pending(ops), d)
  {
    if ops != [] {
      var init, op := ops[..|ops| - 1], ops[|ops| - 1];
      var pool, list := PoolOf(init), Pending(init);
      PoolHoldsFirstAdds(init);
      match op
      case Started(d) =>
        InsertIsSetInsert(pool, d);
        FirstAppend(list, d, d);
        assert HasDeadline(pool, d.when) <==> HasDeadline(list, d.when);
        forall e ensures e in PoolOf(ops) <==> IsFirst(Pending(ops), e) {
          FirstAppend(list, d, e);
        }
      case Polled(now) =>
        DueSplits(pool, now);
        forall e ensures e in PoolOf(ops) <==> IsFirst(Pending(ops), e) {
          LaterFirst(list, now, e);
        }
    }
  }

  /** A poll wakes exactly the first-added tasks of the deadlines that are due, in increasing order. */
  lemma PollWakesDue(ops: seq<Op>, now: int)
    ensures Increasing(Due(PoolOf(ops), now))
    ensures forall d :: d in Due(PoolOf(ops), now) <==> IsFirst(Pending(ops), d) && d.when <= now
  {
    PoolHoldsFirstAdds(ops);
    DueSplits(PoolOf(ops), now);
  }

  /** A poll returns the distance to the least deadline that is left in the list, or zero if none is. */
  lemma PollFindsNext(ops: seq<Op>, now: int)
    ensures var wait := NextDelay(NotDue(PoolOf(ops), now), now);
            var rest := Later(Pending(ops), now);
            && (forall d <- rest :: 0 < wait <= d.when - now)
            && (if rest == [] then wait == 0 else HasDeadline(rest, now + wait))
  {
    hide PoolOf, Pending, Later, IsFirst, Increasing, NotDue, Due;
    var left, rest := NotDue(PoolOf(ops), now), Later(Pending(ops), now);
    assert rest == [] || rest[0] in rest;
    PoolHoldsFirstAdds(ops);
    DueSplits(PoolOf(ops), now);
    forall d | d in rest
      ensures left != [] && now < left[0].when <= d.when
    {
      LaterInPool(ops, now, d);
      assert left[0] in left;
    }
    if left != [] {
      assert left[0] in left;
      FirstInList(Pending(ops), left[0]);
      LaterFirst(Pending(ops), now, left[0]);
      assert now + NextDelay(left, now) == left[0].when;
    }
  }

  lemma FirstInList(list: seq<Delay>, d: Delay)
    requires IsFirst(list, d)
    ensures HasDeadline(list, d.when)
  {
  }

  lemma LaterInPool(ops: seq<Op>, now: int, d: Delay)
    requires d in Later(Pending(ops), now)
    ensures var left := NotDue(PoolOf(ops), now);
            left != [] && left[0].when <= d.when
  {
    var list := Pending(ops);
    PoolHoldsFirstAdds(ops);
    DueSplits(PoolOf(ops), now);
    FirstExists(Later(list, now), d.when);
    var f: Delay :| f.when == d.when && IsFirst(Later(list, now), f);
    LaterFirst(list, now, f);
    assert f in NotDue(PoolOf(ops), now);
  }

  // ---------------------------------------------------------------------------------------
  // The poll timeout

  const NANOS_PER_SECOND := 1_000_000_000
  const NANOS_PER_MILLI := 1_000_000
  const INT_LIMIT := 0x8000_0000

  /** The wait time `run()` chooses from what `get_delay` returned. */
  function WaitTime(nothingReady: bool, delay: int): int {
    if nothingReady && delay == 0 then NANOS_PER_SECOND else delay
  }

  /** The timeout handed to `epoll_wait`: whole milliseconds, narrowed to an `int`. */
  function Timeout(wait: nat): int {
    var ms := (wait / NANOS_PER_MILLI) % (2 * INT_LIMIT);
    if ms < INT_LIMIT then ms else ms - 2 * INT_LIMIT
  }

  /** The timeout does not pass the next deadline, and falls short of it by less than a millisecond. */
  predicate TightTimeout(timeout: int, delay: int) {
    0 <= timeout && timeout * NANOS_PER_MILLI <= delay < (timeout + 1) * NANOS_PER_MILLI
  }

  /** With a timer pending, the timeout is tight exactly if the delay is less than 2^31 ms; whether a
      task is ready makes no difference then.  With none, it is 0 if a task is ready, else 1000. */
  lemma PollBound(nothingReady: bool, delay: nat)
    ensures delay > 0 ==>
      (TightTimeout(Timeout(WaitTime(nothingReady, delay)), delay) <==> delay < INT_LIMIT * NANOS_PER_MILLI)
    ensures delay == 0 ==> Timeout(WaitTime(nothingReady, delay)) == if nothingReady then 1000 else 0
  {
    var ms := delay / NANOS_PER_MILLI;
    assert ms * NANOS_PER_MILLI <= delay < (ms + 1) * NANOS_PER_MILLI;
    if TightTimeout(Timeout(delay), delay) {
      assert Timeout(delay) == ms;
    }
  }
}
