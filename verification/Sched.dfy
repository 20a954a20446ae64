/** schedule and the timer interrupt (kernel/sched.c:349-438) on values, and the fairness
    of their epochs over whole runs. */
module Sched {
  import opened Basics
  import opened Tasks

  const SIGKILL := 9
  const SIGALRM := 14
  const SIGSTOP := 19

  datatype Cpu = Cpu(tasks: Slots, current: nat, jiffies: int)

  // ---- schedule ----

  /** Signals pending and not blocked; SIGKILL and SIGSTOP cannot be blocked. */
  function Pending(t: Task): set<nat> { t.signal - (t.blocked - {SIGKILL, SIGSTOP}) }

  /** Part 1 of schedule, for one task: an alarm that is over raises SIGALRM, and a pending
      signal wakes an interruptible task. */
  function WakeTask(t: Task, jiffies: int): Task {
    var t1 := if t.alarm != 0 && t.alarm < jiffies then t.(signal := t.signal + {SIGALRM}, alarm := 0) else t;
    if Pending(t1) != {} && t1.state == Interruptible then t1.(state := Running) else t1
  }

  function WakeSlot(t: Option<Task>, jiffies: int): Option<Task> {
    if t.Some? then Some(WakeTask(t.value, jiffies)) else None
  }

  function WakeAll(tasks: Slots, jiffies: int): (r: Slots)
    ensures |r| == |tasks| && forall i :: 0 <= i < |tasks| ==> r[i] == WakeSlot(tasks[i], jiffies)
  {
    seq(|tasks|, i requires 0 <= i < |tasks| => WakeSlot(tasks[i], jiffies))
  }

  predicate Runs(tasks: Slots, i: nat) { Occupied(tasks, i) && tasks[i].value.state == Running }

  function Ts(tasks: Slots, i: nat): int
    requires Occupied(tasks, i)
  {
    tasks[i].value.ts
  }

  /** Part 2: slots n - 1 down to 0, with the best so far. */
  function PickFrom(tasks: Slots, n: nat, best: Option<nat>, bestTs: int): (r: Option<nat>)
    requires n <= |tasks|
    decreases n
  {
    if n == 0 then best
    else if Runs(tasks, n - 1) && Ts(tasks, n - 1) > bestTs then PickFrom(tasks, n - 1, Some(n - 1), Ts(tasks, n - 1))
    else PickFrom(tasks, n - 1, best, bestTs)
  }

  function Pick(tasks: Slots): Option<nat> { PickFrom(tasks, |tasks|, None, 0) }

  /** b is the running task of slot n or above with most time left, the last of those. */
  ghost predicate MostFrom(tasks: Slots, n: nat, b: nat) {
    && n <= b && Runs(tasks, b) && Ts(tasks, b) > 0
    && (forall x: nat :: n <= x && Runs(tasks, x) ==> Ts(tasks, x) <= Ts(tasks, b))
    && (forall x: nat :: b < x && Runs(tasks, x) ==> Ts(tasks, x) < Ts(tasks, b))
  }

  lemma {:induction false} PickFromFinds(tasks: Slots, n: nat, best: Option<nat>, bestTs: int)
    requires n <= |tasks|
    requires match best
             case None => bestTs == 0 && forall x: nat :: n <= x && Runs(tasks, x) ==> Ts(tasks, x) <= 0
             case Some(b) => MostFrom(tasks, n, b) && bestTs == Ts(tasks, b)
    ensures match PickFrom(tasks, n, best, bestTs)
            case None => forall x: nat :: Runs(tasks, x) ==> Ts(tasks, x) <= 0
            case Some(b) => MostFrom(tasks, 0, b)
    decreases n
  {
    if n > 0 {
      if Runs(tasks, n - 1) && Ts(tasks, n - 1) > bestTs {
        PickFromFinds(tasks, n - 1, Some(n - 1), Ts(tasks, n - 1));
      } else {
        PickFromFinds(tasks, n - 1, best, bestTs);
      }
    }
  }

  /** schedule picks, of the running tasks with time left, one with the most, and of several
      the one in the highest slot; it picks none just when no running task has time left. */
  lemma PickIsMost(tasks: Slots)
    ensures match Pick(tasks)
            case None => forall x: nat :: Runs(tasks, x) ==> Ts(tasks, x) <= 0
            case Some(b) => MostFrom(tasks, 0, b)
  {
    PickFromFinds(tasks, |tasks|, None, 0);
  }

  function RefillSlot(t: Option<Task>): Option<Task> {
    if t.Some? && t.value.state == Running then Some(t.value.(ts := t.value.priority)) else t
  }

  function Refill(tasks: Slots): (r: Slots)
    ensures |r| == |tasks| && forall i :: 0 <= i < |tasks| ==> r[i] == RefillSlot(tasks[i])
  {
    seq(|tasks|, i requires 0 <= i < |tasks| => RefillSlot(tasks[i]))
  }

  /** schedule: one pass. When it refills it does not switch. */
  function Schedule(s: Cpu): Cpu {
    var woken := WakeAll(s.tasks, s.jiffies);
    match Pick(woken)
    case None => Cpu(Refill(woken), s.current, s.jiffies)
    case Some(i) => Cpu(woken, i, s.jiffies)
  }

  /** `uts++` on a uint32_t. */
  function Add32(x: nat): nat { (x + 1) % 0x1_0000_0000 }

  /** The current task is charged one tick. */
  function ChargeTick(p: Task, user: bool): Task {
    if user then p.(ts := p.ts - 1, uts := Add32(p.uts)) else p.(ts := p.ts - 1, kts := Add32(p.kts))
  }

  /** The timer interrupt, in user or in kernel mode. */
  function Tick(s: Cpu, user: bool): Cpu
    requires Occupied(s.tasks, s.current)
  {
    var p := s.tasks[s.current].value;
    var s1 := Cpu(s.tasks[s.current := Some(ChargeTick(p, user))], s.current, s.jiffies + 1);
    if user && p.ts - 1 <= 0 then Schedule(s1) else s1
  }

  // ---- fairness ----

  /** Time left to the running tasks of the first n slots, and their priorities. */
  function TsSum(tasks: Slots, n: nat): int
    requires n <= |tasks|
  {
    if n == 0 then 0 else TsSum(tasks, n - 1) + if Runs(tasks, n - 1) then Ts(tasks, n - 1) else 0
  }

  function PrioritySum(tasks: Slots, n: nat): int
    requires n <= |tasks|
  {
    if n == 0 then 0
    else PrioritySum(tasks, n - 1) + if Runs(tasks, n - 1) then tasks[n - 1].value.priority else 0
  }

  function Left(s: Cpu): int { TsSum(s.tasks, |s.tasks|) }
  function Epoch(s: Cpu): int { PrioritySum(s.tasks, |s.tasks|) }

  /** Nobody is about to be woken; running tasks have a positive priority and no negative
      time; the current task runs and has time left. */
  ghost predicate Quiet(s: Cpu) {
    && NoWakes(s.tasks)
    && (forall i: nat :: Runs(s.tasks, i) ==> s.tasks[i].value.priority > 0 && Ts(s.tasks, i) >= 0)
    && Runs(s.tasks, s.current) && Ts(s.tasks, s.current) > 0
  }

  /** Same tasks, apart from the time slices and uts of running ones. */
  ghost predicate SameButTs(a: Slots, b: Slots) {
    |b| == |a| && forall i :: 0 <= i < |a| ==>
      if Runs(a, i) then b[i].Some? && b[i].value == a[i].value.(ts := b[i].value.ts, uts := b[i].value.uts)
      else b[i] == a[i]
  }

  ghost predicate Fresh(s: Cpu) {
    forall i: nat :: Runs(s.tasks, i) ==> Ts(s.tasks, i) == s.tasks[i].value.priority
  }

  lemma {:induction false} TsSumUpdate(tasks: Slots, n: nat, x: nat)
    requires n <= |tasks| && Runs(tasks, x)
    ensures TsSum(tasks[x := Some(ChargeTick(tasks[x].value, true))], n) == TsSum(tasks, n) - if x < n then 1 else 0
  {
    if n > 0 { TsSumUpdate(tasks, n - 1, x); }
  }

  lemma {:induction false} TsSumPositive(tasks: Slots, n: nat)
    requires n <= |tasks| && forall i: nat :: Runs(tasks, i) ==> Ts(tasks, i) >= 0
    ensures TsSum(tasks, n) >= 0
    ensures TsSum(tasks, n) == 0 <==> forall i: nat :: i < n && Runs(tasks, i) ==> Ts(tasks, i) == 0
  {
    if n > 0 { TsSumPositive(tasks, n - 1); }
  }

  lemma {:induction false} FreshSum(a: Slots, b: Slots, n: nat)
    requires SameButTs(a, b) && n <= |a| && forall i: nat :: Runs(b, i) ==> Ts(b, i) == b[i].value.priority
    ensures TsSum(b, n) == PrioritySum(a, n) == PrioritySum(b, n)
  {
    if n > 0 { FreshSum(a, b, n - 1); }
  }

  lemma {:induction false} SamePriorities(a: Slots, b: Slots, n: nat)
    requires SameButTs(a, b) && n <= |a|
    ensures PrioritySum(a, n) == PrioritySum(b, n)
  {
    if n > 0 { SamePriorities(a, b, n - 1); }
  }

  /** Nobody is about to be woken. */
  ghost predicate NoWakes(tasks: Slots) {
    forall i: nat :: Occupied(tasks, i) ==>
      tasks[i].value.alarm == 0 && (tasks[i].value.state == Interruptible ==> Pending(tasks[i].value) == {})
  }

  /** The tasks after the interrupt has charged the current one. */
  function Charged(s: Cpu): Slots
    requires Runs(s.tasks, s.current)
  {
    s.tasks[s.current := Some(ChargeTick(s.tasks[s.current].value, true))]
  }

  lemma ChargedFacts(s: Cpu)
    requires Quiet(s)
    ensures var t1 := Charged(s);
      && SameButTs(s.tasks, t1) && NoWakes(t1) && TsSum(t1, |t1|) == Left(s) - 1 >= 0
      && (forall i: nat :: Runs(t1, i) <==> Runs(s.tasks, i))
      && (forall i: nat :: Runs(t1, i) ==> Ts(t1, i) >= 0 && t1[i].value.priority > 0)
  {
    var t1 := Charged(s);
    TsSumUpdate(s.tasks, |s.tasks|, s.current);
    assert forall i: nat :: Runs(t1, i) <==> Runs(s.tasks, i);
    assert forall i: nat :: Occupied(t1, i) <==> Occupied(s.tasks, i);
    TsSumPositive(t1, |t1|);
  }

  /** schedule when nobody is woken: a switch if there is time left, else a refill. */
  lemma ScheduleQuietly(s: Cpu)
    requires NoWakes(s.tasks) && forall i: nat :: Runs(s.tasks, i) ==> Ts(s.tasks, i) >= 0
    ensures var s' := Schedule(s);
      if Left(s) > 0 then s'.tasks == s.tasks && Runs(s.tasks, s'.current) && Ts(s.tasks, s'.current) > 0
      else s'.tasks == Refill(s.tasks) && s'.current == s.current
  {
    assert WakeAll(s.tasks, s.jiffies) == s.tasks by {
      forall i | 0 <= i < |s.tasks| ensures WakeSlot(s.tasks[i], s.jiffies) == s.tasks[i] {
        assert s.tasks[i].Some? ==> Occupied(s.tasks, i);
      }
    }
    PickIsMost(s.tasks);
    TsSumPositive(s.tasks, |s.tasks|);
  }

  lemma RefillFacts(tasks: Slots)
    requires NoWakes(tasks) && forall i: nat :: Runs(tasks, i) ==> tasks[i].value.priority > 0
    ensures var r := Refill(tasks);
      && SameButTs(tasks, r) && NoWakes(r)
      && forall i: nat :: (Runs(r, i) <==> Runs(tasks, i)) && (Runs(r, i) ==> Ts(r, i) == r[i].value.priority > 0)
  {
    var r := Refill(tasks);
    assert forall i: nat :: Occupied(r, i) <==> Occupied(tasks, i);
  }

  /** One tick in user mode takes exactly one unit, from the current task.  While some is
      left nobody is refilled; when none is left every running task is. */
  lemma TickCharges(s: Cpu)
    requires Quiet(s)
    ensures var s' := Tick(s, true);
      Quiet(s') && SameButTs(s.tasks, s'.tasks) && Left(s) >= 1
    ensures Left(s) > 1 ==> Tick(s, true).tasks == Charged(s) && Left(Tick(s, true)) == Left(s) - 1
    ensures Left(s) == 1 ==> Fresh(Tick(s, true)) && Left(Tick(s, true)) == Epoch(s)
    ensures Left(s) == 1 ==> forall i: nat :: Runs(s.tasks, i) ==> Ts(s.tasks, i) == if i == s.current then 1 else 0
  {
    hide TsSum, PrioritySum, Schedule;
    var n, t1 := |s.tasks|, Charged(s);
    ChargedFacts(s);
    assert Runs(t1, s.current);
    var s1 := Cpu(t1, s.current, s.jiffies + 1);
    if Ts(t1, s.current) <= 0 {
      ScheduleQuietly(s1);
      if Left(s1) == 0 {
        RefillFacts(t1);
        FreshSum(s.tasks, Refill(t1), n);
      }
    } else {
      TsSumPositive(t1, n);
    }
    if Left(s) == 1 {
      TsSumPositive(t1, n);
      assert forall i: nat :: Runs(s.tasks, i) && i != s.current ==> Runs(t1, i) && Ts(t1, i) == Ts(s.tasks, i);
    }
  }

  // ---- runs of ticks in user mode ----

  /** The state after n ticks. */
  ghost function After(s: Cpu, n: nat): (r: Cpu)
    requires Quiet(s)
    ensures Quiet(r)
    decreases n
  {
    if n == 0 then s else TickCharges(s); After(Tick(s, true), n - 1)
  }

  /** How many of the next n ticks are charged to slot i. */
  ghost function Charges(s: Cpu, n: nat, i: nat): nat
    requires Quiet(s)
    decreases n
  {
    if n == 0 then 0 else TickCharges(s); (if s.current == i then 1 else 0) + Charges(Tick(s, true), n - 1, i)
  }

  lemma SameButTsTrans(a: Slots, b: Slots, c: Slots)
    requires SameButTs(a, b) && SameButTs(b, c)
    ensures SameButTs(a, c)
  {
    forall i | 0 <= i < |a|
      ensures if Runs(a, i) then c[i].Some? && c[i].value == a[i].value.(ts := c[i].value.ts, uts := c[i].value.uts)
              else c[i] == a[i]
    {
      assert Runs(a, i) <==> Runs(b, i);
    }
  }

  /** The rest of an epoch: each running task is charged exactly the time it had left, and
      then all are refilled. */
  lemma {:induction false} RestOfEpoch(s: Cpu, i: nat)
    requires Quiet(s) && Runs(s.tasks, i)
    ensures Left(s) >= 1 && Charges(s, Left(s), i) == Ts(s.tasks, i)
    ensures var s' := After(s, Left(s)); Fresh(s') && Left(s') == Epoch(s) && SameButTs(s.tasks, s'.tasks)
    decreases Left(s)
  {
    hide NoWakes, TsSum, PrioritySum, Tick;
    TickCharges(s);
    var s1 := Tick(s, true);
    var n: nat := Left(s) - 1;
    if n > 0 {
      RestOfEpoch(s1, i);
      SamePriorities(s.tasks, s1.tasks, |s.tasks|);
      SameButTsTrans(s.tasks, s1.tasks, After(s1, n).tasks);
    }
  }

  /** Until then nobody is refilled: each tick takes one unit from what is left. */
  lemma {:induction false} NoRefillBefore(s: Cpu, n: nat)
    requires Quiet(s) && n < Left(s)
    ensures Left(After(s, n)) == Left(s) - n
    decreases n
  {
    hide NoWakes, TsSum, Tick;
    if n > 0 {
      TickCharges(s);
      NoRefillBefore(Tick(s, true), n - 1);
    }
  }

  lemma {:induction false} ChargesSplit(s: Cpu, a: nat, b: nat, i: nat)
    requires Quiet(s)
    ensures Charges(s, a + b, i) == Charges(s, a, i) + Charges(After(s, a), b, i)
    ensures After(s, a + b) == After(After(s, a), b)
    decreases a
  {
    hide NoWakes, Tick;
    if a > 0 {
      TickCharges(s);
      ChargesSplit(Tick(s, true), a - 1, b, i);
    }
  }

  /** uts counts exactly the ticks charged, modulo 2^32. */
  lemma {:induction false} UtsCountsCharges(s: Cpu, n: nat, i: nat)
    requires Quiet(s) && Runs(s.tasks, i) && s.tasks[i].value.uts < 0x1_0000_0000
    ensures Runs(After(s, n).tasks, i)
    ensures After(s, n).tasks[i].value.uts == (s.tasks[i].value.uts + Charges(s, n, i)) % 0x1_0000_0000
    decreases n
  {
    hide NoWakes, TsSum, PrioritySum, Tick;
    if n > 0 {
      TickCharges(s);
      TickCountsUts(s, i);
      UtsCountsCharges(Tick(s, true), n - 1, i);
    }
  }

  lemma TickCountsUts(s: Cpu, i: nat)
    requires Quiet(s) && Runs(s.tasks, i) && s.tasks[i].value.uts < 0x1_0000_0000
    ensures var s' := Tick(s, true);
      Runs(s'.tasks, i)
      && s'.tasks[i].value.uts == (if s.current == i then Add32(s.tasks[i].value.uts) else s.tasks[i].value.uts)
  {
    hide TsSum, PrioritySum, Schedule;
    ChargedFacts(s);
    ScheduleQuietly(Cpu(Charged(s), s.current, s.jiffies + 1));
  }

  lemma EpochIsPositive(s: Cpu)
    requires Quiet(s)
    ensures Epoch(s) >= 1
  {
    RestOfEpoch(s, s.current);
    TickCharges(After(s, Left(s)));
  }

  /** Right after a refill a whole epoch is left. */
  lemma FreshEpoch(s: Cpu)
    requires Fresh(s)
    ensures Left(s) == Epoch(s)
  {
    FreshSum(s.tasks, s.tasks, |s.tasks|);
  }

  /** Epoch fairness over whole runs: k epochs after a refill every running task has been
      charged exactly k times its priority, and all have just been refilled again. */
  lemma {:induction false} EpochsAreFair(s: Cpu, k: nat, i: nat)
    requires Quiet(s) && Fresh(s) && Runs(s.tasks, i)
    ensures Epoch(s) >= 1 && Charges(s, k * Epoch(s), i) == k * s.tasks[i].value.priority
    ensures var s' := After(s, k * Epoch(s)); Fresh(s') && SameButTs(s.tasks, s'.tasks)
    decreases k
  {
    hide NoWakes, TsSum, PrioritySum, Tick, After, Charges;
    FreshEpoch(s);
    EpochIsPositive(s);
    if k == 0 {
      NoTicks(s, i);
    } else {
      var e, p := Epoch(s), s.tasks[i].value.priority;
      RestOfEpoch(s, i);
      var s1 := After(s, e);
      SamePriorities(s.tasks, s1.tasks, |s.tasks|);
      EpochsAreFair(s1, k - 1, i);
      assert e + (k - 1) * e == k * e && p + (k - 1) * p == k * p;
      ChargesSplit(s, e, (k - 1) * e, i);
      SameButTsTrans(s.tasks, s1.tasks, After(s1, (k - 1) * e).tasks);
    }
  }

  lemma NoTicks(s: Cpu, i: nat)
    requires Quiet(s)
    ensures Charges(s, 0, i) == 0 && After(s, 0) == s && SameButTs(s.tasks, s.tasks)
  {
  }

  /** Nobody starves: from any point on, within the rest of the epoch and one more, every
      running task is charged its time left and its priority. */
  lemma NobodyStarves(s: Cpu, i: nat)
    requires Quiet(s) && Runs(s.tasks, i)
    ensures Left(s) + Epoch(s) >= 0
    ensures Charges(s, Left(s) + Epoch(s), i) == Ts(s.tasks, i) + s.tasks[i].value.priority >= 1
  {
    hide TsSum, PrioritySum, Tick, After, Charges;
    RestOfEpoch(s, i);
    EpochIsPositive(s);
    var s1 := After(s, Left(s));
    SamePriorities(s.tasks, s1.tasks, |s.tasks|);
    RestOfEpoch(s1, i);
    ChargesSplit(s, Left(s), Epoch(s), i);
  }
}
