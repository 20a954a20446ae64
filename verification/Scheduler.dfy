/** kernel/sched.c:349-438 as it runs: the loops of schedule over tasks_ptr, and the timer
    interrupt, in place. */
module Scheduler {
  import opened Basics
  import opened Tasks
  import opened Sched

  class Scheduler {
    const tasks: array<Option<Task>>   // tasks_ptr
    var current: nat                   // the slot of the current task
    var jiffies: int

    function View(): Cpu
      reads this, tasks
    {
      Cpu(tasks[..], current, jiffies)
    }

    constructor (tasks: array<Option<Task>>)
      ensures this.tasks == tasks && current == 0 && jiffies == 0
    {
      this.tasks, current, jiffies := tasks, 0, 0;
    }

    method Schedule()
      requires tasks.Length == NUMBER_OF_TASKS
      modifies tasks, this`current
      ensures View() == Sched.Schedule(old(View()))
    {
      WakeTasks();
      var next := PickTask();
      match next {
        case None => RefillTasks();
        case Some(i) => current := i;
      }
    }

    /** 1. alarms and pending signals */
    method WakeTasks()
      requires tasks.Length == NUMBER_OF_TASKS
      modifies tasks
      ensures tasks[..] == WakeAll(old(tasks[..]), jiffies)
    {
      var i := NUMBER_OF_TASKS - 1;
      while i >= 0
        invariant -1 <= i < NUMBER_OF_TASKS
        invariant forall x :: 0 <= x < NUMBER_OF_TASKS ==>
          tasks[x] == if x > i then WakeSlot(old(tasks[x]), jiffies) else old(tasks[x])
        decreases i + 1
      {
        if tasks[i].Some? {
          var t := tasks[i].value;
          if t.alarm != 0 && t.alarm < jiffies {
            t := t.(signal := t.signal + {SIGALRM}, alarm := 0);
          }
          if Pending(t) != {} && t.state == Interruptible {
            t := t.(state := Running);
          }
          tasks[i] := Some(t);
        }
        i := i - 1;
      }
    }

    /** 2. the running task with most time left */
    method PickTask() returns (next: Option<nat>)
      requires tasks.Length == NUMBER_OF_TASKS
      ensures next == Pick(tasks[..])
    {
      next := None;
      var nextTs := 0;
      var i := NUMBER_OF_TASKS - 1;
      while i >= 0
        invariant -1 <= i < NUMBER_OF_TASKS
        invariant PickFrom(tasks[..], i + 1, next, nextTs) == Pick(tasks[..])
        decreases i + 1
      {
        if tasks[i].Some? && tasks[i].value.state == Running && tasks[i].value.ts > nextTs {
          next := Some(i);
          nextTs := tasks[i].value.ts;
        }
        i := i - 1;
      }
    }

    /** the refill when no running task has time left */
    method RefillTasks()
      requires tasks.Length == NUMBER_OF_TASKS
      modifies tasks
      ensures tasks[..] == Refill(old(tasks[..]))
    {
      var i := NUMBER_OF_TASKS - 1;
      while i >= 0
        invariant -1 <= i < NUMBER_OF_TASKS
        invariant forall x :: 0 <= x < NUMBER_OF_TASKS ==>
          tasks[x] == if x > i then RefillSlot(old(tasks[x])) else old(tasks[x])
        decreases i + 1
      {
        if tasks[i].Some? && tasks[i].value.state == Running {
          tasks[i] := Some(tasks[i].value.(ts := tasks[i].value.priority));
        }
        i := i - 1;
      }
    }

    /** do_timer_interrupt; `user` is (cs & 3) != 0. */
    method DoTimerInterrupt(user: bool)
      requires tasks.Length == NUMBER_OF_TASKS && Occupied(tasks[..], current)
      modifies tasks, this
      ensures View() == Tick(old(View()), user)
    {
      jiffies := jiffies + 1;
      var p := tasks[current].value;
      tasks[current] := Some(p.(ts := p.ts - 1));
      if user {
        tasks[current] := Some(tasks[current].value.(uts := Add32(p.uts)));
      } else {
        tasks[current] := Some(tasks[current].value.(kts := Add32(p.kts)));
      }
      assert tasks[..] == old(tasks[..])[current := Some(ChargeTick(p, user))];
      if user && tasks[current].value.ts <= 0 {
        Schedule();
      }
    }
  }
}
