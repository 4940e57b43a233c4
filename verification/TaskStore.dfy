/** All tasks of a reactor on the heap, each with its own frames. */
module TaskStore {
  import opened Wrappers
  import opened Coroutine
  import opened TaskChain

  type Tid = nat

  class Store {
    const worlds: Tid -> World
    var tasks: map<Tid, Task>
    ghost var frames: set<Frame>   // all frames of all tasks

    ghost predicate Fine(t: Tid)
      requires t in tasks
      reads this, tasks.Values, frames
    {
      tasks[t].frames <= frames && tasks[t].Valid() && tasks[t].world == worlds(t)
    }

    ghost predicate Apart(t: Tid, u: Tid)
      requires t in tasks && u in tasks
      reads this, tasks.Values
    {
      tasks[t] != tasks[u] && tasks[t].frames !! tasks[u].frames
    }

    /** No two tasks share a frame. */
    ghost predicate Valid()
      reads this, tasks.Values, frames
    {
      (forall t <- tasks :: Fine(t)) && (forall t, u :: t in tasks && u in tasks && t != u ==> Apart(t, u))
    }

    /** The suspended tasks that the pointers stand for. */
    ghost function Confs(): (m: map<Tid, Conf>)
      requires Valid()
      reads this, tasks.Values, frames
    {
      map t <- tasks :: tasks[t].Abs()
    }

    constructor (worlds: Tid -> World)
      ensures Valid() && Confs() == map[] && this.worlds == worlds && frames == {}
    {
      this.worlds := worlds;
      tasks, frames := map[], {};
    }

    /** A new task. */
    method Add(t: Tid, code: Code)
      requires Valid() && t !in tasks
      modifies this
      ensures Valid() && Confs() == old(Confs())[t := Start(code)]
      ensures tasks.Keys == old(tasks.Keys) + {t} && fresh(tasks[t]) && fresh(frames - old(frames))
      ensures forall u <- old(tasks) :: tasks[u] == old(tasks[u])
    {
      hide Task.Valid, Task.Abs, Start, Fine, Apart;
      var task := new Task(worlds(t), code);
      InsertTask(t, task);
    }

    method InsertTask(t: Tid, task: Task)
      requires Valid() && t !in tasks && task.Valid() && task.world == worlds(t)
      requires forall u <- tasks :: tasks[u] != task && tasks[u].frames !! task.frames
      modifies this
      ensures Valid() && tasks == old(tasks)[t := task] && frames == old(frames) + task.frames
      ensures Confs() == old(Confs())[t := task.Abs()]
    {
      hide Task.Valid, Task.Abs;
      tasks, frames := tasks[t := task], frames + task.frames;
      forall u <- tasks
        ensures Fine(u)
      {
        assert u != t ==> old(Fine(u));
      }
      forall u, v | u in tasks && v in tasks && u != v
        ensures Apart(u, v)
      {
        assert u != t && v != t ==> old(Apart(u, v));
      }
    }

    /** `wake`, as far as the task itself is concerned. */
    method Wake(t: Tid)
      requires Valid() && t in tasks
      modifies tasks[t]
      ensures Valid() && Confs() == old(Confs())[t := Coroutine.Wake(old(Confs())[t])]
    {
      hide Task.Valid, Task.Abs;
      tasks[t].WakeUp();
    }

    /** `one_step` of one task: it moves on as on values, and all others stay as they are. */
    method Step(t: Tid) returns (r: ScheduleType)
      requires Valid() && t in tasks && !tasks[t].waiting
      modifies this, tasks[t], tasks[t].frames
      ensures Valid() && tasks == old(tasks) && fresh(frames - old(frames))
      ensures var c := old(Confs())[t];
              && Confs() == old(Confs())[t := if c.Running? then Coroutine.Step(worlds(t), c) else c]
              && r == (if Confs()[t].Finished? then kDone else if Confs()[t].waiting then kWait else kRun)
    {
      hide Task.Valid, Task.Abs, Coroutine.Step;
      var task := tasks[t];
      assert Fine(t);
      ghost var resumed;
      r, resumed := StepOf(task);
      frames := frames + task.frames;
      assert Fine(t);
      forall u <- tasks | u != t
        ensures Fine(u) && tasks[u].Abs() == old(tasks[u].Abs()) && Apart(t, u) && Apart(u, t)
      {
        assert old(Fine(u)) && old(Apart(t, u)) && old(Apart(u, t));
      }
      forall u, v | u in tasks && v in tasks && u != v && u != t && v != t
        ensures Apart(u, v)
      {
        assert old(Apart(u, v));
      }
      hide Fine, Apart;
    }
  }

  method StepOf(task: Task) returns (r: ScheduleType, ghost resumed: nat)
    requires task.Valid() && !task.waiting
    modifies task, task.frames
    ensures task.Valid() && fresh(task.frames - old(task.frames))
    ensures var c := old(task.Abs());
            task.Abs() == if c.Running? then Coroutine.Step(task.world, c) else c
    ensures r == (if task.Abs().Finished? then kDone else if task.Abs().waiting then kWait else kRun)
  {
    r, resumed := task.OneStep();
  }
}
