/** fork and exit (kernel/fork.c, kernel/exit.c) on values: what one call of copy_process
    or do_exit does to physical memory, the task table and last_pid. */
module Fork {
  import opened Paging
  import opened Basics
  import opened Tasks

  datatype Kernel = Kernel(mem: Mem, tasks: Slots, lastPid: int) {
    ghost predicate Shape() {
      mem.Shape() && |tasks| == NUMBER_OF_TASKS && 0 <= lastPid <= MAX_PID
    }
  }

  const SIGHUP := 1
  const SIGCHLD := 17
  const TASK0_LIMIT := 0xFF_FFFF   // 16 MB
  const TASK1_LIMIT := 0xF_FFFF   // set_segment_limit(0xFF) in 4 KB units, as lsl reads it

  /** The segment base of slot i: task_nr * 0x4000000. */
  function Base(i: nat): nat { i * 0x400_0000 }

  predicate LimitFits(limit: nat) { DirsFor(limit) <= 16 }

  // ---- fork ----

  /** copy_mem: the address space of the new task. */
  function CopyMem(m: Mem, slot: nat, parent: nat, code: nat, data: nat): (r: (Mem, Status))
    requires m.Shape() && slot < NUMBER_OF_TASKS && parent < NUMBER_OF_TASKS && LimitFits(data)
    ensures r.0.Shape()
  {
    if code > data then (m, Panic)
    else if slot == 1 then InitTask1(m)
    else
      var (m1, r) := CopyPageTables(m, Base(parent), Base(slot), data);
      if r == NoMem then
        var (m2, r2) := FreePageTables(m1, Base(slot), data);
        (m2, if r2 == Ok then NoMem else r2)
      else (m1, r)
  }

  /** The task_struct of the child of p. */
  function ChildOf(p: Task, pid: int, slot: nat, frame: nat): Task {
    var limits := if slot == 1 then (TASK1_LIMIT, TASK1_LIMIT) else (p.codeLimit, p.dataLimit);
    Task(Uninterruptible, p.exitCode, p.priority, p.priority, {}, p.blocked, 0, pid, p.pid,
         p.session, false, limits.0, limits.1, frame, 0, 0)
  }

  /** What copy_process returns: the child's pid, -EAGAIN, or nothing because the kernel
      stopped.  NullTask: there was no page for the task, and the original goes on to write
      the task_struct through a null pointer, over the page directory.  What memory is like
      then is left open; the model only has the kernel up to that store. */
  datatype ForkResult = Child(pid: int) | Again | Stops(why: Status) | NullTask

  function CopyProcess(k: Kernel, cur: nat): (r: (Kernel, ForkResult))
    requires k.Shape() && Occupied(k.tasks, cur) && LimitFits(k.tasks[cur].value.dataLimit)
    ensures r.0.Shape()
  {
    var pid := FindPid(k.tasks, k.lastPid, 0);
    var slot := FindSlot(k.tasks, 1);
    if slot == 0 then (Kernel(k.mem, k.tasks, pid), Again)
    else
      var (m1, f) := Alloc(k.mem);
      if f == 0 then (Kernel(m1, k.tasks, pid), NullTask)
      else
        var p := k.tasks[cur].value;
        var child := ChildOf(p, pid, slot, f);
        var (m2, r) := CopyMem(m1, slot, cur, p.codeLimit, p.dataLimit);
        if r == Ok then (Kernel(m2, k.tasks[slot := Some(child.(state := Running))], pid), Child(pid))
        else if r == NoMem then
          var (m3, r3) := FreeFrame(m2, f);
          (Kernel(m3, k.tasks[slot := None], pid), if r3 == Ok then Again else Stops(r3))
        else (Kernel(m2, k.tasks[slot := Some(child)], pid), Stops(r))
  }

  // ---- exit ----

  function Signalled(tasks: Slots, i: nat, sig: nat): (r: Slots)
    requires Occupied(tasks, i)
    ensures |r| == |tasks|
  {
    tasks[i := Some(tasks[i].value.(signal := tasks[i].value.signal + {sig}))]
  }

  /** The loop that gives the children of `pid` to task 1, from slot i on. */
  function Adopt(tasks: Slots, pid: int, i: nat): (r: Slots)
    requires |tasks| == NUMBER_OF_TASKS && i <= |tasks|
    ensures |r| == |tasks|
    decreases |tasks| - i
  {
    if i == |tasks| then tasks
    else if Occupied(tasks, i) && tasks[i].value.father == pid then
      var t1 := tasks[i := Some(tasks[i].value.(father := 1))];
      var t2 := if t1[i].value.state == Zombie && Occupied(t1, 1) then Signalled(t1, 1, SIGCHLD) else t1;
      Adopt(t2, pid, i + 1)
    else Adopt(tasks, pid, i + 1)
  }

  /** kill_session, from slot i on. */
  function HangUp(tasks: Slots, session: int, i: nat): (r: Slots)
    requires i <= |tasks|
    ensures |r| == |tasks|
    decreases |tasks| - i
  {
    if i == |tasks| then tasks
    else if Occupied(tasks, i) && tasks[i].value.session == session then
      HangUp(Signalled(tasks, i, SIGHUP), session, i + 1)
    else HangUp(tasks, session, i + 1)
  }

  /** How do_exit ends: the father was told, there was nobody to tell (task 0), no father
      was found and the task released itself, or the kernel stopped. */
  datatype ExitResult = Told | NobodyToTell | Released | Halted(why: Status)

  /** tell_father of slot t, and release when there is none. */
  function TellFather(k: Kernel, t: nat): (r: (Kernel, ExitResult))
    requires k.Shape() && Occupied(k.tasks, t)
    ensures r.0.Shape()
  {
    var father := k.tasks[t].value.father;
    if father == 0 then (k, NobodyToTell)
    else
      match FindPidTask(k.tasks, father, 1)
      case Some(i) => (Kernel(k.mem, Signalled(k.tasks, i, SIGCHLD), k.lastPid), Told)
      case None =>
        var (m1, r) := FreeFrame(k.mem, k.tasks[t].value.frame);
        (Kernel(m1, k.tasks[t := None], k.lastPid), if r == Ok then Released else Halted(r))
  }

  /** The task-table part of do_exit, before tell_father. */
  function Bury(tasks: Slots, t: nat, code: int): (r: Slots)
    requires |tasks| == NUMBER_OF_TASKS && Occupied(tasks, t)
    ensures |r| == |tasks|
  {
    AdoptEffect(tasks, tasks[t].value.pid, 1);
    var t1 := Adopt(tasks, tasks[t].value.pid, 1);
    HangUpEffect(t1, t1[t].value.session, 1);
    var t2 := if t1[t].value.leader then HangUp(t1, t1[t].value.session, 1) else t1;
    t2[t := Some(t2[t].value.(state := Zombie, exitCode := code))]
  }

  /** do_exit of the task in slot t. */
  function DoExit(k: Kernel, t: nat, code: int): (r: (Kernel, ExitResult))
    requires k.Shape() && Occupied(k.tasks, t)
    requires LimitFits(k.tasks[t].value.codeLimit) && LimitFits(k.tasks[t].value.dataLimit)
    ensures r.0.Shape()
  {
    var p := k.tasks[t].value;
    var (m1, r1) := FreePageTables(k.mem, Base(t), p.codeLimit);
    if r1 != Ok then (Kernel(m1, k.tasks, k.lastPid), Halted(r1))
    else
      var (m2, r2) := FreePageTables(m1, Base(t), p.dataLimit);
      if r2 != Ok then (Kernel(m2, k.tasks, k.lastPid), Halted(r2))
      else
        BuryEffect(k.tasks, t, code);
        TellFather(Kernel(m2, Bury(k.tasks, t, code), k.lastPid), t)
  }

  /** A zombie child of `pid` in slot i or later: its new father, task 1, is sent SIGCHLD. */
  ghost predicate ZombieChild(tasks: Slots, pid: int, i: nat) {
    exists x: nat :: i <= x && Occupied(tasks, x) && tasks[x].value.father == pid && tasks[x].value.state == Zombie
  }

  ghost predicate SameSlots(a: Slots, b: Slots) {
    |a| == |b| && forall x: nat :: x < |a| ==> (a[x].Some? <==> b[x].Some?)
  }

  /** The children of `pid` get father 1, task 1 is sent SIGCHLD if one of them is a zombie,
      and nothing else changes. */
  lemma {:induction false} AdoptEffect(tasks: Slots, pid: int, i: nat)
    requires |tasks| == NUMBER_OF_TASKS && i <= |tasks|
    ensures var r := Adopt(tasks, pid, i);
      && SameSlots(tasks, r)
      && forall x: nat :: Occupied(tasks, x) ==>
           r[x].value == tasks[x].value.(
             father := if x >= i && tasks[x].value.father == pid then 1 else tasks[x].value.father,
             signal := if x == 1 && ZombieChild(tasks, pid, i)
                       then tasks[x].value.signal + {SIGCHLD} else tasks[x].value.signal)
    decreases |tasks| - i
  {
    if i < |tasks| {
      if Occupied(tasks, i) && tasks[i].value.father == pid {
        var t1 := tasks[i := Some(tasks[i].value.(father := 1))];
        var t2 := if t1[i].value.state == Zombie && Occupied(t1, 1) then Signalled(t1, 1, SIGCHLD) else t1;
        AdoptEffect(t2, pid, i + 1);
        assert ZombieChild(t2, pid, i + 1) || tasks[i].value.state == Zombie <==> ZombieChild(tasks, pid, i) by {
          if ZombieChild(tasks, pid, i) {
            var x: nat :|
              i <= x && Occupied(tasks, x) && tasks[x].value.father == pid && tasks[x].value.state == Zombie;
            assert x == i || Occupied(t2, x);
          }
        }
      } else {
        AdoptEffect(tasks, pid, i + 1);
        assert ZombieChild(tasks, pid, i + 1) <==> ZombieChild(tasks, pid, i);
      }
    }
  }

  /** SIGHUP goes to exactly the tasks of the session. */
  lemma {:induction false} HangUpEffect(tasks: Slots, session: int, i: nat)
    requires i <= |tasks|
    ensures var r := HangUp(tasks, session, i);
      && SameSlots(tasks, r)
      && forall x: nat :: Occupied(tasks, x) ==>
           r[x].value == tasks[x].value.(
             signal := if x >= i && tasks[x].value.session == session
                       then tasks[x].value.signal + {SIGHUP} else tasks[x].value.signal)
    decreases |tasks| - i
  {
    if i < |tasks| {
      if Occupied(tasks, i) && tasks[i].value.session == session {
        HangUpEffect(Signalled(tasks, i, SIGHUP), session, i + 1);
      } else {
        HangUpEffect(tasks, session, i + 1);
      }
    }
  }

  /** What do_exit leaves in slot x, before tell_father. */
  ghost function Buried(tasks: Slots, t: nat, code: int, x: nat): Task
    requires Occupied(tasks, t) && Occupied(tasks, x)
  {
    var p, q := tasks[t].value, tasks[x].value;
    Task(if x == t then Zombie else q.state, if x == t then code else q.exitCode, q.ts, q.priority,
         q.signal + (if x == 1 && ZombieChild(tasks, p.pid, 1) then {SIGCHLD} else {})
                  + (if x >= 1 && p.leader && q.session == p.session then {SIGHUP} else {}),
         q.blocked, q.alarm, q.pid, if x >= 1 && q.father == p.pid then 1 else q.father,
         q.session, q.leader, q.codeLimit, q.dataLimit, q.frame, q.uts, q.kts)
  }

  lemma BuryEffect(tasks: Slots, t: nat, code: int)
    requires |tasks| == NUMBER_OF_TASKS && Occupied(tasks, t)
    ensures var r := Bury(tasks, t, code);
      SameSlots(tasks, r) && forall x: nat :: Occupied(tasks, x) ==> r[x].value == Buried(tasks, t, code, x)
  {
    var pid := tasks[t].value.pid;
    AdoptEffect(tasks, pid, 1);
    var t1 := Adopt(tasks, pid, 1);
    HangUpEffect(t1, t1[t].value.session, 1);
    var t2 := if t1[t].value.leader then HangUp(t1, t1[t].value.session, 1) else t1;
    var r := Bury(tasks, t, code);
    forall x: nat | Occupied(tasks, x) ensures r[x].value == Buried(tasks, t, code, x) {
      assert Occupied(t1, x) && Occupied(t2, x);
      assert r[x].value.signal == Buried(tasks, t, code, x).signal;
    }
  }

  /** Slot x, from 1 on, is the first whose task has the pid. */
  ghost predicate IsFirst(tasks: Slots, pid: int, x: nat) {
    && 1 <= x && Occupied(tasks, x) && tasks[x].value.pid == pid
    && forall y: nat :: 1 <= y < x && Occupied(tasks, y) ==> tasks[y].value.pid != pid
  }

  lemma {:induction false} FindPidTaskIsFirst(tasks: Slots, pid: int, i: nat)
    requires 1 <= i <= |tasks| && forall y: nat :: 1 <= y < i && Occupied(tasks, y) ==> tasks[y].value.pid != pid
    ensures match FindPidTask(tasks, pid, i)
            case Some(x) => IsFirst(tasks, pid, x)
            case None => forall x: nat :: !IsFirst(tasks, pid, x)
    decreases |tasks| - i
  {
    if i < |tasks| && !(tasks[i].Some? && tasks[i].value.pid == pid) { FindPidTaskIsFirst(tasks, pid, i + 1); }
  }

  /** tell_father, in all three cases.  A father in the table gets SIGCHLD and nothing else
      changes; the child of task 0 tells nobody; without a father the task's slot is emptied and
      its page given back, unless free_page refuses it. */
  lemma TellFatherEffect(k: Kernel, t: nat)
    requires k.Shape() && Occupied(k.tasks, t)
    ensures var (k', r) := TellFather(k, t); var p := k.tasks[t].value;
      && k'.lastPid == k.lastPid
      && (p.father == 0 ==> r == NobodyToTell && k' == k)
      && (p.father != 0 && (exists x: nat :: IsFirst(k.tasks, p.father, x)) ==>
            && r == Told && k'.mem == k.mem && SameSlots(k.tasks, k'.tasks)
            && forall x: nat :: Occupied(k.tasks, x) ==>
                 k'.tasks[x].value == k.tasks[x].value.(
                   signal := k.tasks[x].value.signal + if IsFirst(k.tasks, p.father, x) then {SIGCHLD} else {}))
      && (p.father != 0 && (forall x: nat :: !IsFirst(k.tasks, p.father, x)) ==>
            && r != Told && k'.tasks == k.tasks[t := None] && k'.mem.ram == k.mem.ram
            && (r == Released <==> LOW_FRAMES <= p.frame < RAM_FRAMES && k.mem.count[p.frame - LOW_FRAMES] > 0)
            && (r == Released ==>
                  k'.mem.count == k.mem.count[p.frame - LOW_FRAMES := k.mem.count[p.frame - LOW_FRAMES] - 1]))
  {
    FindPidTaskIsFirst(k.tasks, k.tasks[t].value.father, 1);
  }

  /** What an exit that tells the father leaves in slot x. */
  ghost function AfterExit(tasks: Slots, t: nat, code: int, x: nat): Task
    requires Occupied(tasks, t) && Occupied(tasks, x)
  {
    var q := Buried(tasks, t, code, x);
    q.(signal := q.signal + if x >= 1 && q.pid == Buried(tasks, t, code, t).father then {SIGCHLD} else {})
  }
}
