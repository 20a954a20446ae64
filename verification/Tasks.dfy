/** The parts of struct task_struct that the model keeps (include/linux/sched.h), and the
    choice of a pid and of a slot (kernel/fork.c:57-86, kernel/sched.c:143-157).

    tasks_ptr is a sequence of 64 slots; a pointer to a task_struct is the index of its
    slot. */
module Tasks {
  import opened Basics

  const NUMBER_OF_TASKS := 64
  const MAX_PID := 0x7FFF_FFFF   // largest int32_t

  datatype TaskState = Running | Interruptible | Uninterruptible | Zombie | Stopped

  datatype Task = Task(
    state: TaskState,
    exitCode: int,
    ts: int,             // time slice
    priority: int,
    signal: set<nat>,    // pending signals: n is bit n - 1 of the mask
    blocked: set<nat>,
    alarm: int,
    pid: int,
    father: int,         // pid of the father
    session: int,
    leader: bool,
    codeLimit: nat,      // lsl of selector 0x0F, 0x17
    dataLimit: nat,
    frame: nat,          // the page that holds the task_union
    uts: nat,            // ticks charged in user and in kernel mode, modulo 2^32
    kts: nat)

  type Slots = seq<Option<Task>>

  predicate Occupied(tasks: Slots, i: nat) {
    i < |tasks| && tasks[i].Some?
  }

  predicate PidUsed(tasks: Slots, pid: int) {
    exists i: nat :: i < |tasks| && Occupied(tasks, i) && tasks[i].value.pid == pid
  }

  // ---- pids ----

  /** `last_pid += 1; if (last_pid < 0) last_pid = 1;` on 32 bits. */
  function NextPid(p: int): int { if p == MAX_PID then 1 else p + 1 }

  /** last_pid after n rounds. */
  function NthPid(p: int, n: nat): (q: int)
    requires 0 <= p <= MAX_PID && n <= MAX_PID
  {
    if p + n <= MAX_PID then p + n else p + n - MAX_PID
  }

  /** Sixty-five successive candidates are all different, wrap-around included. */
  lemma {:induction false} CandidatesDiffer(p: int, n: nat)
    requires 0 <= p <= MAX_PID && n <= NUMBER_OF_TASKS + 1
    ensures |set k: nat | 1 <= k <= n :: NthPid(p, k)| == n
  {
    var s := set k: nat | 1 <= k <= n :: NthPid(p, k);
    if n == 0 {
      assert s == {};
    } else {
      CandidatesDiffer(p, n - 1);
      var s' := set k: nat | 1 <= k <= n - 1 :: NthPid(p, k);
      assert NthPid(p, n) !in s';
      assert s == s' + {NthPid(p, n)};
    }
  }

  /** A table of n slots holds at most n pids. */
  lemma {:induction false} PidsFit(tasks: Slots)
    ensures |set i: nat | i < |tasks| && Occupied(tasks, i) :: tasks[i].value.pid| <= |tasks|
  {
    var s := set i: nat | i < |tasks| && Occupied(tasks, i) :: tasks[i].value.pid;
    if tasks == [] {
      assert s == {};
    } else {
      var last := |tasks| - 1;
      var rest := tasks[..last];
      PidsFit(rest);
      var s' := set i: nat | i < |rest| && Occupied(rest, i) :: rest[i].value.pid;
      if tasks[last].Some? {
        assert s <= s' + {tasks[last].value.pid} by {
          forall q | q in s ensures q in s' + {tasks[last].value.pid} {
            var i: nat :| i < |tasks| && Occupied(tasks, i) && tasks[i].value.pid == q;
            if i < last { assert Occupied(rest, i) && rest[i].value.pid == q; }
          }
        }
        SubsetSize(s, s' + {tasks[last].value.pid});
      } else {
        assert s <= s' by {
          forall q | q in s ensures q in s' {
            var i: nat :| i < |tasks| && Occupied(tasks, i) && tasks[i].value.pid == q;
            assert Occupied(rest, i) && rest[i].value.pid == q;
          }
        }
        SubsetSize(s, s');
      }
    }
  }

  /** If the first n candidates are all in use, there are at most 64 of them. */
  lemma Pigeonhole(tasks: Slots, p: int, n: nat)
    requires |tasks| == NUMBER_OF_TASKS && 0 <= p <= MAX_PID && n <= NUMBER_OF_TASKS + 1
    requires forall k: nat :: 1 <= k <= n ==> PidUsed(tasks, NthPid(p, k))
    ensures n <= NUMBER_OF_TASKS
  {
    var pids := set i: nat | i < |tasks| && Occupied(tasks, i) :: tasks[i].value.pid;
    var tried := set k: nat | 1 <= k <= n :: NthPid(p, k);
    CandidatesDiffer(p, n);
    PidsFit(tasks);
    assert tried <= pids;
    SubsetSize(tried, pids);
  }

  /** The pid that find_empty_process leaves in last_pid, after n rounds that failed. */
  function FindPid(tasks: Slots, p: int, n: nat): (q: int)
    requires |tasks| == NUMBER_OF_TASKS && 0 <= p <= MAX_PID && n <= NUMBER_OF_TASKS
    requires forall k: nat :: 1 <= k <= n ==> PidUsed(tasks, NthPid(p, k))
    ensures 1 <= q <= MAX_PID && !PidUsed(tasks, q)
    decreases NUMBER_OF_TASKS - n
  {
    var q := NthPid(p, n + 1);
    if !PidUsed(tasks, q) then q
    else
      assert n + 1 <= NUMBER_OF_TASKS by { Pigeonhole(tasks, p, n + 1); }
      FindPid(tasks, p, n + 1)
  }

  /** It is the first candidate that no task has, after at most 65 rounds. */
  lemma {:induction false} FindPidIsFirst(tasks: Slots, p: int, n: nat) returns (k: nat)
    requires |tasks| == NUMBER_OF_TASKS && 0 <= p <= MAX_PID && n <= NUMBER_OF_TASKS
    requires forall x: nat :: 1 <= x <= n ==> PidUsed(tasks, NthPid(p, x))
    ensures n < k <= NUMBER_OF_TASKS + 1 && FindPid(tasks, p, n) == NthPid(p, k)
    ensures forall x: nat :: 1 <= x < k ==> PidUsed(tasks, NthPid(p, x))
    decreases NUMBER_OF_TASKS - n
  {
    if PidUsed(tasks, NthPid(p, n + 1)) {
      Pigeonhole(tasks, p, n + 1);
      k := FindPidIsFirst(tasks, p, n + 1);
    } else {
      k := n + 1;
    }
  }

  /** Counting from p, 1 coming after the largest pid, one comes by x before q. */
  predicate PassedOver(p: int, x: int, q: int) { if p < q then p < x < q else x > p || x < q }

  /** The pids from last_pid on are gone through one by one: those passed over are in use. */
  lemma PassedOverAreUsed(tasks: Slots, p: int, x: int)
    requires |tasks| == NUMBER_OF_TASKS && 0 <= p <= MAX_PID && 1 <= x <= MAX_PID
    requires PassedOver(p, x, FindPid(tasks, p, 0))
    ensures PidUsed(tasks, x)
  {
    hide PidUsed;
    var k := FindPidIsFirst(tasks, p, 0);
    var n: nat := if x > p then x - p else x + MAX_PID - p;
    assert NthPid(p, n) == x;
  }

  // ---- slots ----

  /** The first empty slot from i on, or 0. */
  function FindSlot(tasks: Slots, i: nat): (r: nat)
    requires 1 <= i <= |tasks|
    ensures r == 0 || (i <= r < |tasks| && tasks[r].None?)
    ensures forall x: nat :: i <= x < (if r == 0 then |tasks| else r) ==> tasks[x].Some?
    decreases |tasks| - i
  {
    if i == |tasks| then 0 else if tasks[i].None? then i else FindSlot(tasks, i + 1)
  }

  /** find_pid_task: the first slot from i on whose task has the pid. */
  function FindPidTask(tasks: Slots, pid: int, i: nat): (r: Option<nat>)
    requires i <= |tasks|
    ensures r.Some? ==> i <= r.value < |tasks| && Occupied(tasks, r.value) && tasks[r.value].value.pid == pid
    ensures r.None? ==> forall x: nat :: i <= x < |tasks| && Occupied(tasks, x) ==> tasks[x].value.pid != pid
    decreases |tasks| - i
  {
    if i == |tasks| then None
    else if tasks[i].Some? && tasks[i].value.pid == pid then Some(i)
    else FindPidTask(tasks, pid, i + 1)
  }
}
