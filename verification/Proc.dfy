/** kernel/fork.c and kernel/exit.c as they run: find_empty_process, copy_mem, copy_process,
    tell_father and do_exit on tasks_ptr, last_pid and physical memory, in place. */
module Proc {
  import opened Paging
  import opened Basics
  import opened Tasks
  import opened Fork
  import PhysMem

  class Proc {
    const mem: PhysMem.PhysMem
    const tasks: array<Option<Task>>   // tasks_ptr
    var lastPid: int

    ghost predicate Valid()
      reads this, mem, mem.memMap, mem.ram, tasks
    {
      mem.Valid() && View().Shape()
    }

    function View(): Kernel
      reads this, mem, mem.memMap, mem.ram, tasks
    {
      Kernel(mem.View(), tasks[..], lastPid)
    }

    constructor (mem: PhysMem.PhysMem, task0: Task)
      requires mem.Valid()
      ensures Valid() && this.mem == mem && fresh(tasks)
      ensures View() == Kernel(mem.View(), seq(NUMBER_OF_TASKS, i => if i == 0 then Some(task0) else None), 0)
    {
      this.mem := mem;
      lastPid := 0;
      tasks := new Option<Task>[NUMBER_OF_TASKS](i => if i == 0 then Some(task0) else None);
      new;
      assert tasks[..] == seq(NUMBER_OF_TASKS, i => if i == 0 then Some(task0) else None);
    }

    /** The loop that looks for a task with the pid. */
    method PidTaken(pid: int) returns (taken: bool)
      requires tasks.Length == NUMBER_OF_TASKS
      ensures taken == PidUsed(tasks[..], pid)
    {
      var i := 0;
      while i < NUMBER_OF_TASKS
        invariant 0 <= i <= NUMBER_OF_TASKS
        invariant forall x :: 0 <= x < i ==> tasks[x].None? || tasks[x].value.pid != pid
      {
        if tasks[i].Some? && tasks[i].value.pid == pid {
          assert Occupied(tasks[..], i) && tasks[..][i].value.pid == pid;
          return true;
        }
        i := i + 1;
      }
      return false;
    }

    method FindEmptyProcess() returns (slot: nat)
      requires Valid()
      modifies this`lastPid
      ensures Valid() && lastPid == FindPid(tasks[..], old(lastPid), 0) && slot == FindSlot(tasks[..], 1)
    {
      ChoosePid();
      var i := 1;
      while i < NUMBER_OF_TASKS
        invariant 1 <= i <= NUMBER_OF_TASKS
        invariant FindSlot(tasks[..], i) == FindSlot(tasks[..], 1)
      {
        if tasks[i].None? { return i; }
        i := i + 1;
      }
      return 0;
    }

    /** Step 1 of find_empty_process: a pid that no task has. */
    method ChoosePid()
      requires Valid()
      modifies this`lastPid
      ensures lastPid == FindPid(tasks[..], old(lastPid), 0)
    {
      hide PidUsed, Mem.Shape;
      ghost var p0, n := lastPid, 0;
      while true
        invariant 0 <= n <= NUMBER_OF_TASKS && lastPid == NthPid(p0, n)
        invariant forall k: nat :: 1 <= k <= n ==> PidUsed(tasks[..], NthPid(p0, k))
        invariant FindPid(tasks[..], p0, n) == FindPid(tasks[..], p0, 0)
        decreases NUMBER_OF_TASKS - n
      {
        lastPid := NextPid(lastPid);
        var taken := PidTaken(lastPid);
        if !taken { break; }
        Pigeonhole(tasks[..], p0, n + 1);
        n := n + 1;
      }
    }

    method CopyMem(slot: nat, parent: nat, code: nat, data: nat) returns (r: Status)
      requires mem.Valid() && slot < NUMBER_OF_TASKS && parent < NUMBER_OF_TASKS && LimitFits(data)
      modifies mem.memMap, mem.ram
      ensures mem.Valid() && (mem.View(), r) == Fork.CopyMem(old(mem.View()), slot, parent, code, data)
    {
      if code > data { return Panic; }
      if slot == 1 {
        r := mem.InitTask1Paging();
      } else {
        r := mem.CopyPageTables(Base(parent), Base(slot), data);
        if r == NoMem {
          r := mem.FreePageTables(Base(slot), data);
          if r == Ok { r := NoMem; }
        }
      }
    }

    /** copy_process; with no page for the task it ends where the original stores through null,
        and nothing is promised of the state. */
    method CopyProcess(cur: nat) returns (r: ForkResult)
      requires Valid() && Occupied(tasks[..], cur) && LimitFits(tasks[cur].value.dataLimit)
      modifies this`lastPid, tasks, mem.memMap, mem.ram
      ensures Valid() && r == Fork.CopyProcess(old(View()), cur).1
      ensures r != NullTask ==> View() == Fork.CopyProcess(old(View()), cur).0
    {
      var slot := FindEmptyProcess();
      if slot == 0 { return Again; }
      var f := mem.GetFreePage();
      if f == 0 { return NullTask; }
      var p := tasks[cur].value;
      tasks[slot] := Some(ChildOf(p, lastPid, slot, f));
      var s := CopyMem(slot, cur, p.codeLimit, p.dataLimit);
      if s == NoMem {
        tasks[slot] := None;
        assert tasks[..] == old(tasks[..])[slot := None];
        s := mem.FreePage(f);
        return if s == Ok then Again else Stops(s);
      } else if s != Ok {
        assert tasks[..] == old(tasks[..])[slot := Some(ChildOf(p, lastPid, slot, f))];
        return Stops(s);
      }
      tasks[slot] := Some(tasks[slot].value.(state := Running));
      assert tasks[..] == old(tasks[..])[slot := Some(ChildOf(p, lastPid, slot, f).(state := Running))];
      return Child(lastPid);
    }

    method FindPidTask(pid: int) returns (r: Option<nat>)
      requires tasks.Length == NUMBER_OF_TASKS
      ensures r == Tasks.FindPidTask(tasks[..], pid, 1)
    {
      var i := 1;
      while i < NUMBER_OF_TASKS
        invariant 1 <= i <= NUMBER_OF_TASKS
        invariant Tasks.FindPidTask(tasks[..], pid, i) == Tasks.FindPidTask(tasks[..], pid, 1)
      {
        if tasks[i].Some? && tasks[i].value.pid == pid { return Some(i); }
        i := i + 1;
      }
      return None;
    }

    /** signal |= 1 << (sig - 1) for the task in slot i. */
    method Signal(i: nat, sig: nat)
      requires Occupied(tasks[..], i)
      modifies tasks
      ensures tasks[..] == Signalled(old(tasks[..]), i, sig)
    {
      tasks[i] := Some(tasks[i].value.(signal := tasks[i].value.signal + {sig}));
    }

    /** tell_father, with release of the task itself when there is no father. */
    method TellFather(t: nat) returns (r: ExitResult)
      requires Valid() && Occupied(tasks[..], t)
      modifies tasks, mem.memMap
      ensures Valid() && (View(), r) == Fork.TellFather(old(View()), t)
    {
      var father := tasks[t].value.father;
      if father == 0 { return NobodyToTell; }
      var p := FindPidTask(father);
      if p.Some? {
        Signal(p.value, SIGCHLD);
        return Told;
      }
      var f := tasks[t].value.frame;
      tasks[t] := None;
      assert tasks[..] == old(tasks[..])[t := None];
      var s := mem.FreePage(f);
      return if s == Ok then Released else Halted(s);
    }

    method DoExit(t: nat, code: int) returns (r: ExitResult)
      requires Valid() && Occupied(tasks[..], t)
      requires LimitFits(tasks[t].value.codeLimit) && LimitFits(tasks[t].value.dataLimit)
      modifies tasks, mem.memMap, mem.ram
      ensures Valid() && (View(), r) == Fork.DoExit(old(View()), t, code)
    {
      var s := mem.FreePageTables(Base(t), tasks[t].value.codeLimit);
      if s != Ok { return Halted(s); }
      s := mem.FreePageTables(Base(t), tasks[t].value.dataLimit);
      if s != Ok { return Halted(s); }
      BuryTask(t, code);
      BuryEffect(old(tasks[..]), t, code);
      r := TellFather(t);
    }

    /** The loops of do_exit over the task table. */
    method BuryTask(t: nat, code: int)
      requires tasks.Length == NUMBER_OF_TASKS && Occupied(tasks[..], t)
      modifies tasks
      ensures tasks[..] == Bury(old(tasks[..]), t, code)
    {
      ghost var before := tasks[..];
      var pid := tasks[t].value.pid;
      AdoptEffect(before, pid, 1);
      var i := 1;
      while i < NUMBER_OF_TASKS
        invariant 1 <= i <= NUMBER_OF_TASKS
        invariant Adopt(tasks[..], pid, i) == Adopt(before, pid, 1)
      {
        if tasks[i].Some? && tasks[i].value.father == pid {
          ghost var now := tasks[..];
          tasks[i] := Some(tasks[i].value.(father := 1));
          assert tasks[..] == now[i := Some(now[i].value.(father := 1))];
          if tasks[i].value.state == Zombie && tasks[1].Some? {
            Signal(1, SIGCHLD);
          }
        }
        i := i + 1;
      }
      assert Occupied(before, t) && Occupied(tasks[..], t);
      ghost var adopted := tasks[..];
      HangUpEffect(adopted, adopted[t].value.session, 1);
      if tasks[t].value.leader {
        var session := tasks[t].value.session;
        i := 1;
        while i < NUMBER_OF_TASKS
          invariant 1 <= i <= NUMBER_OF_TASKS
          invariant HangUp(tasks[..], session, i) == HangUp(adopted, session, 1)
        {
          if tasks[i].Some? && tasks[i].value.session == session {
            Signal(i, SIGHUP);
          }
          i := i + 1;
        }
      }
      ghost var told := tasks[..];
      assert Occupied(told, t);
      tasks[t] := Some(tasks[t].value.(state := Zombie, exitCode := code));
      assert tasks[..] == told[t := Some(told[t].value.(state := Zombie, exitCode := code))];
    }
  }
}
