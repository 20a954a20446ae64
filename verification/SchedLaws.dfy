/** Who is woken, what is counted and how long a time slice lasts (kernel/sched.c:349-438),
    over every run of timer interrupts in user and in kernel mode. */
module SchedLaws {
  import opened Basics
  import opened Tasks
  import opened Sched

  // ---- who is woken ----

  ghost predicate AlarmOver(t: Task, jiffies: int) { t.alarm != 0 && t.alarm < jiffies }

  /** Some signal is pending, SIGALRM included if the alarm is over, that is not blocked or
      cannot be: 9 is SIGKILL, 14 SIGALRM and 19 SIGSTOP. */
  ghost predicate Reached(t: Task, jiffies: int) {
    || (exists g :: g in t.signal && (g !in t.blocked || g == 9 || g == 19))
    || (AlarmOver(t, jiffies) && 14 !in t.blocked)
  }

  ghost predicate Willing(t: Task, jiffies: int) {
    t.state == Running || (t.state == Interruptible && Reached(t, jiffies))
  }

  /** One task in the first loop of schedule. */
  lemma WhoIsReached(t: Task, jiffies: int)
    ensures var t' := WakeTask(t, jiffies);
      && (t'.state == Running <==> Willing(t, jiffies)) && (t'.state != Running ==> t'.state == t.state)
      && t'.signal == (if AlarmOver(t, jiffies) then t.signal + {14} else t.signal)
      && t'.alarm == (if AlarmOver(t, jiffies) then 0 else t.alarm)
      && t' == t.(state := t'.state, signal := t'.signal, alarm := t'.alarm)
  {
    var u := t.(signal := WakeTask(t, jiffies).signal);
    if AlarmOver(t, jiffies) && 14 !in t.blocked {
      assert 14 in Pending(u);
    } else if Reached(t, jiffies) {
      var g :| g in t.signal && (g !in t.blocked || g == 9 || g == 19);
      assert g in Pending(u);
    } else {
      assert forall g :: g in Pending(u) ==> g in t.signal || (g == 14 && AlarmOver(t, jiffies));
      assert Pending(u) == {};
    }
  }

  /** schedule, for every task, in any state: it becomes RUNNING just if it was interruptible
      and a signal reaches it; an alarm that is over becomes SIGALRM; the time slice changes
      just if no task had time left, and is then the priority of exactly the running tasks. */
  lemma ScheduleLooks(s: Cpu, i: nat)
    requires Occupied(s.tasks, i)
    ensures var t, s' := s.tasks[i].value, Schedule(s);
      Occupied(s'.tasks, i) && var t' := s'.tasks[i].value;
      && (t'.state == Running <==> Willing(t, s.jiffies))
      && (t'.state != Running ==> t'.state == t.state)
      && t'.signal == (if AlarmOver(t, s.jiffies) then t.signal + {14} else t.signal)
      && t'.alarm == (if AlarmOver(t, s.jiffies) then 0 else t.alarm)
      && (t'.ts == if t'.state == Running && NoTimeLeft(s) then t.priority else t.ts)
      && t' == t.(state := t'.state, signal := t'.signal, alarm := t'.alarm, ts := t'.ts)
    ensures NoTimeLeft(s) ==> Schedule(s).current == s.current
  {
    hide Reached, Pending, Pick, WakeTask, Willing, AlarmOver;
    var t := s.tasks[i].value;
    WhoIsReached(t, s.jiffies);
    TimeLeft(s);
  }

  /** No task that runs, or that a signal reaches, has any of its time slice left. */
  ghost predicate NoTimeLeft(s: Cpu) {
    forall x: nat :: Occupied(s.tasks, x) && Willing(s.tasks[x].value, s.jiffies) ==> Ts(s.tasks, x) <= 0
  }

  lemma Woken(s: Cpu)
    ensures var w := WakeAll(s.tasks, s.jiffies);
      forall x: nat :: Occupied(w, x) == Occupied(s.tasks, x)
                       && (Occupied(w, x) ==> Ts(w, x) == Ts(s.tasks, x)
                                              && (Runs(w, x) <==> Willing(s.tasks[x].value, s.jiffies)))
  {
    hide Pending, Reached, Willing, WakeTask;
    var w := WakeAll(s.tasks, s.jiffies);
    forall x: nat | Occupied(s.tasks, x)
      ensures Occupied(w, x) && Ts(w, x) == Ts(s.tasks, x)
      ensures Runs(w, x) <==> Willing(s.tasks[x].value, s.jiffies)
    {
      WhoIsReached(s.tasks[x].value, s.jiffies);
    }
  }

  lemma TimeLeft(s: Cpu)
    ensures NoTimeLeft(s) <==> Pick(WakeAll(s.tasks, s.jiffies)).None?
  {
    hide Pick, Pending, Reached, Willing, WakeTask;
    var w := WakeAll(s.tasks, s.jiffies);
    Woken(s);
    PickIsMost(w);
    if Pick(w).None? {
      forall x: nat | Occupied(s.tasks, x) && Willing(s.tasks[x].value, s.jiffies) ensures Ts(s.tasks, x) <= 0 {
        assert Runs(w, x);
      }
    } else {
      var b := Pick(w).value;
      assert Runs(w, b) && Ts(w, b) > 0 && Occupied(s.tasks, b);
    }
  }

  // ---- what is counted ----

  lemma TickCounts(s: Cpu, user: bool, i: nat)
    requires Occupied(s.tasks, s.current) && Occupied(s.tasks, i)
    requires s.tasks[i].value.uts < 0x1_0000_0000 && s.tasks[i].value.kts < 0x1_0000_0000
    ensures var t, s' := s.tasks[i].value, Tick(s, user);
      && Occupied(s'.tasks, s'.current) && Occupied(s'.tasks, i) && s'.jiffies == s.jiffies + 1
      && s'.tasks[i].value.uts == (t.uts + if i == s.current && user then 1 else 0) % 0x1_0000_0000
      && s'.tasks[i].value.kts == (t.kts + if i == s.current && !user then 1 else 0) % 0x1_0000_0000
  {
    hide Schedule, AlarmOver, NoTimeLeft, Willing;
    TickStays(s, user);
    var t := s.tasks[s.current].value;
    var s1 := Cpu(s.tasks[s.current := Some(ChargeTick(t, user))], s.current, s.jiffies + 1);
    ScheduleLooks(s1, i);
    ScheduleClock(s1);
  }

  lemma ScheduleClock(s: Cpu)
    ensures Schedule(s).jiffies == s.jiffies
  {
  }

  lemma TickStays(s: Cpu, user: bool)
    requires Occupied(s.tasks, s.current)
    ensures Occupied(Tick(s, user).tasks, Tick(s, user).current)
  {
    hide Pick;
    var s1 := Tick(s, false);
    var p := s.tasks[s.current].value;
    PickIsMost(WakeAll(s.tasks[s.current := Some(ChargeTick(p, user))], s.jiffies + 1));
  }

  /** The timer interrupts one after the other; `true` is user mode. */
  ghost function RunTicks(s: Cpu, modes: seq<bool>): (r: Cpu)
    requires Occupied(s.tasks, s.current)
    ensures Occupied(r.tasks, r.current)
    decreases |modes|
  {
    if modes == [] then s else TickStays(s, modes[0]); RunTicks(Tick(s, modes[0]), modes[1..])
  }

  /** How many of them found task i running in the given mode. */
  ghost function Found(s: Cpu, modes: seq<bool>, i: nat, user: bool): nat
    requires Occupied(s.tasks, s.current)
    decreases |modes|
  {
    if modes == [] then 0
    else
      TickStays(s, modes[0]);
      (if s.current == i && modes[0] == user then 1 else 0) + Found(Tick(s, modes[0]), modes[1..], i, user)
  }

  /** Counting modulo 2^32 one by one or at once. */
  lemma Adds(a: nat, n: nat)
    ensures ((a + 1) % 0x1_0000_0000 + n) % 0x1_0000_0000 == (a + (1 + n)) % 0x1_0000_0000
    ensures a < 0x1_0000_0000 ==> a % 0x1_0000_0000 == a
    ensures (a + 1) % 0x1_0000_0000 < 0x1_0000_0000
  {
  }

  /** In every run, whoever sleeps, wakes or has negative time, uts counts exactly the ticks
      that found the task in user mode and kts those in kernel mode, modulo 2^32. */
  lemma {:induction false} TicksAreCounted(s: Cpu, modes: seq<bool>, i: nat)
    requires Occupied(s.tasks, s.current) && Occupied(s.tasks, i)
    requires s.tasks[i].value.uts < 0x1_0000_0000 && s.tasks[i].value.kts < 0x1_0000_0000
    ensures var t, s' := s.tasks[i].value, RunTicks(s, modes);
      && Occupied(s'.tasks, i) && s'.jiffies == s.jiffies + |modes|
      && s'.tasks[i].value.uts == (t.uts + Found(s, modes, i, true)) % 0x1_0000_0000
      && s'.tasks[i].value.kts == (t.kts + Found(s, modes, i, false)) % 0x1_0000_0000
    decreases |modes|
  {
    hide Tick;
    if modes != [] {
      var t, s1, rest := s.tasks[i].value, Tick(s, modes[0]), modes[1..];
      TickCounts(s, modes[0], i);
      TicksAreCounted(s1, rest, i);
      Adds(t.uts, Found(s1, rest, i, true));
      Adds(t.kts, Found(s1, rest, i, false));
    }
  }

  // ---- how long a time slice lasts ----

  ghost function Count(modes: seq<bool>, user: bool): nat {
    if modes == [] then 0 else (if modes[0] == user then 1 else 0) + Count(modes[1..], user)
  }

  /** Until its time slice is used up nothing takes the processor from a task, and nothing
      else in the table changes. */
  lemma {:induction false} SliceIsWhole(s: Cpu, modes: seq<bool>)
    requires Occupied(s.tasks, s.current) && |modes| < Ts(s.tasks, s.current)
    requires s.tasks[s.current].value.uts < 0x1_0000_0000 && s.tasks[s.current].value.kts < 0x1_0000_0000
    ensures var t := s.tasks[s.current].value;
      RunTicks(s, modes) == Cpu(s.tasks[s.current := Some(t.(ts := t.ts - |modes|,
                                                              uts := (t.uts + Count(modes, true)) % 0x1_0000_0000,
                                                              kts := (t.kts + Count(modes, false)) % 0x1_0000_0000))],
                                s.current, s.jiffies + |modes|)
    decreases |modes|
  {
    hide Schedule;
    if modes != [] {
      var t, rest := s.tasks[s.current].value, modes[1..];
      SliceTick(s, modes[0]);
      hide Tick;
      SliceIsWhole(Tick(s, modes[0]), rest);
      if modes[0] { Adds(t.uts, Count(rest, true)); } else { Adds(t.kts, Count(rest, false)); }
    }
  }

  /** One tick that does not use the slice up, or in kernel mode. */
  lemma SliceTick(s: Cpu, user: bool)
    requires Occupied(s.tasks, s.current) && (user ==> Ts(s.tasks, s.current) > 1)
    ensures var t := s.tasks[s.current].value;
      Tick(s, user) == Cpu(s.tasks[s.current := Some(t.(ts := t.ts - 1,
                                                        uts := if user then (t.uts + 1) % 0x1_0000_0000 else t.uts,
                                                        kts := if user then t.kts else (t.kts + 1) % 0x1_0000_0000))],
                           s.current, s.jiffies + 1)
  {
  }

  /** Kernel mode never gives the processor away, however long it lasts. */
  lemma {:induction false} KernelIsNotPreempted(s: Cpu, modes: seq<bool>)
    requires Occupied(s.tasks, s.current) && s.tasks[s.current].value.kts < 0x1_0000_0000
    requires forall i :: 0 <= i < |modes| ==> !modes[i]
    ensures var t := s.tasks[s.current].value;
      RunTicks(s, modes) == Cpu(s.tasks[s.current := Some(t.(ts := t.ts - |modes|,
                                                              kts := (t.kts + |modes|) % 0x1_0000_0000))],
                                s.current, s.jiffies + |modes|)
    decreases |modes|
  {
    hide Schedule;
    if modes != [] {
      SliceTick(s, false);
      hide Tick;
      KernelIsNotPreempted(Tick(s, false), modes[1..]);
      Adds(s.tasks[s.current].value.kts, |modes| - 1);
    }
  }

  /** The tick in user mode that uses a slice up hands the processor to a willing task with
      most time left, or refills everybody and stays. */
  lemma SliceEnds(s: Cpu)
    requires Occupied(s.tasks, s.current) && Ts(s.tasks, s.current) <= 1
    ensures Tick(s, true) == Schedule(Cpu(Spent(s), s.current, s.jiffies + 1))
    ensures var s1, s' := Cpu(Spent(s), s.current, s.jiffies + 1), Tick(s, true);
      NoTimeLeft(s1) || (Occupied(s1.tasks, s'.current) && Willing(s1.tasks[s'.current].value, s1.jiffies)
                         && Foremost(s1, s'.current))
  {
    hide Pick, Pending, Reached, Willing, WakeTask;
    var s1 := Cpu(Spent(s), s.current, s.jiffies + 1);
    var w := WakeAll(s1.tasks, s1.jiffies);
    TimeLeft(s1);
    PickIsMost(w);
    Woken(s1);
  }

  /** The table after the tick was charged. */
  ghost function Spent(s: Cpu): Slots
    requires Occupied(s.tasks, s.current)
  {
    var t := s.tasks[s.current].value;
    s.tasks[s.current := Some(t.(ts := t.ts - 1, uts := (t.uts + 1) % 0x1_0000_0000))]
  }

  /** Nobody willing has more time left, and nobody in a higher slot as much. */
  ghost predicate Foremost(s: Cpu, b: nat)
    requires Occupied(s.tasks, b)
  {
    forall x: nat :: Occupied(s.tasks, x) && Willing(s.tasks[x].value, s.jiffies) && x != b ==>
      Ts(s.tasks, x) < Ts(s.tasks, b) || (x < b && Ts(s.tasks, x) == Ts(s.tasks, b))
  }
}
