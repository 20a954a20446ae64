/** What every run of forks and exits keeps: frame ownership, address-space layout,
    distinct pids, and the tree of fathers. */
module ForkInv {
  import opened Paging
  import opened Ownership
  import opened CloneCost
  import opened Basics
  import opened Tasks
  import opened Fork

  /** The frames that hold the task pages of slots 1 and up (task 0's is static). */
  ghost function TaskFrames(tasks: Slots): set<nat> {
    set i: nat | 1 <= i < |tasks| && Occupied(tasks, i) :: tasks[i].value.frame
  }

  /** How many directory entries slot i has: those of its data limit until it exits. */
  ghost function Extent(tasks: Slots, i: nat): nat {
    if Occupied(tasks, i) && tasks[i].value.state != Zombie then DirsFor(tasks[i].value.dataLimit) else 0
  }

  ghost predicate LimitsOk(tasks: Slots) {
    forall i: nat :: 1 <= i && Occupied(tasks, i) ==>
      && tasks[i].value.codeLimit <= tasks[i].value.dataLimit
      && DirsFor(tasks[i].value.codeLimit) <= DirsFor(tasks[i].value.dataLimit) <= 16
  }

  ghost predicate PidsOk(tasks: Slots) {
    && (forall i: nat :: Occupied(tasks, i) ==>
          0 <= tasks[i].value.pid <= MAX_PID && (i > 0 ==> tasks[i].value.pid > 0))
    && (forall i: nat, j: nat ::
          Occupied(tasks, i) && Occupied(tasks, j) && tasks[i].value.pid == tasks[j].value.pid ==> i == j)
  }

  ghost predicate FramesOk(tasks: Slots) {
    forall i: nat, j: nat ::
      1 <= i && 1 <= j && Occupied(tasks, i) && Occupied(tasks, j) && tasks[i].value.frame == tasks[j].value.frame
      ==> i == j
  }

  /** Directory entry k belongs to slot k / 16 and is present just when the slot's extent
      reaches it. */
  ghost predicate LayoutOk(m: Mem, tasks: Slots)
    requires m.Shape()
  {
    forall k: nat :: FIRST_TABLE <= k < ENTRIES ==> (HasTable(m, k) <==> k % 16 < Extent(tasks, k / 16))
  }

  /** Slot j holds the father of slot i. */
  ghost predicate IsFather(tasks: Slots, j: nat, i: nat) {
    Occupied(tasks, i) && Occupied(tasks, j) && tasks[j].value.pid == tasks[i].value.father
  }

  /** Every task but task 0 has its father in the table, at a smaller rank, and task 0 is
      the father of none but task 1. */
  ghost predicate TreeOk(tasks: Slots, rank: seq<nat>) {
    && |rank| == |tasks| == NUMBER_OF_TASKS
    && rank[0] == 0 && rank[1] == 1
    && (forall i: nat :: 2 <= i && Occupied(tasks, i) ==> rank[i] >= 2 && tasks[i].value.father > 0)
    && (forall i: nat :: 1 <= i && Occupied(tasks, i) ==> exists j: nat :: IsFather(tasks, j, i) && rank[j] < rank[i])
  }

  ghost predicate RootsOk(tasks: Slots) {
    && Occupied(tasks, 0) && tasks[0].value.pid == 0
    && Occupied(tasks, 1) && tasks[1].value.pid == 1 && tasks[1].value.father == 0
    && tasks[1].value.state != Zombie
  }

  ghost predicate TableOk(tasks: Slots, rank: seq<nat>) {
    RootsOk(tasks) && LimitsOk(tasks) && PidsOk(tasks) && FramesOk(tasks) && TreeOk(tasks, rank)
  }

  ghost predicate KInv(k: Kernel, rank: seq<nat>) {
    && k.Shape()
    && TableOk(k.tasks, rank)
    && Inv(k.mem, TaskFrames(k.tasks))
    && LayoutOk(k.mem, k.tasks)
  }

  /** Every table and every page of a task is open to it, for reading and writing. */
  ghost predicate AllOpen(m: Mem)
    requires m.Shape()
  {
    && (forall k: nat :: HasTable(m, k) ==> Open(m.Dir(k)))
    && (forall k: nat, j: nat :: HasPage(m, k, j) ==> Open(m.ram[TableFrame(m, k)][j]))
  }

  /** What no step changes: what the kernel's own directory words map, the table of task 1, the
      limits of tasks 0 and 1, and that tasks can use their memory. */
  ghost predicate Fixed(m: Mem, tasks: Slots)
    requires m.Shape()
  {
    && (forall e: nat :: e < FIRST_TABLE ==> SameWay(m.Dir(e), KernelDir(e)))
    && AllOpen(m) && HasTable(m, FIRST_TABLE) && m.ram[TableFrame(m, FIRST_TABLE)] == LowTable()
    && Live(tasks, 0) && tasks[0].value.codeLimit == tasks[0].value.dataLimit == TASK0_LIMIT
    && Live(tasks, 1) && tasks[1].value.codeLimit == tasks[1].value.dataLimit == TASK1_LIMIT
  }

  /** A task that can call fork or exit. */
  ghost predicate Live(tasks: Slots, i: nat) {
    Occupied(tasks, i) && tasks[i].value.state != Zombie
  }

  // ---- address arithmetic ----

  lemma BaseDir(i: nat)
    requires i < NUMBER_OF_TASKS
    ensures Base(i) % 0x40_0000 == 0 && Base(i) / 0x40_0000 == 16 * i
  {
    assert Base(i) == 16 * i * 0x40_0000;
  }

  // ---- fork: the address space ----

  /** fork's copy can start: the parent's entries are present, the child's absent. */
  lemma ForkCanCopy(m: Mem, held: set<nat>, tasks: Slots, cur: nat, slot: nat)
    requires m.Shape() && Inv(m, held) && |tasks| == NUMBER_OF_TASKS && LayoutOk(m, tasks) && LimitsOk(tasks)
    requires 1 <= cur && Live(tasks, cur) && 2 <= slot < NUMBER_OF_TASKS && !Occupied(tasks, slot)
    ensures CanCopy(m, 16 * cur, 16 * slot, DirsFor(tasks[cur].value.dataLimit))
  {
    hide Inv;
    var n := DirsFor(tasks[cur].value.dataLimit);
    forall a: nat | 16 * cur <= a < 16 * cur + n ensures HasTable(m, a) {
      assert a / 16 == cur && a % 16 == a - 16 * cur;
    }
    forall b: nat | 16 * slot <= b < 16 * slot + n ensures !Present(m.Dir(b)) {
      assert b / 16 == slot;
      assert !HasTable(m, b);
      AbsentIsZero(m, held, b);
    }
  }

  /** copy_mem for slots >= 2: an exact copy, or nothing. */
  lemma CopyMemKeeps(m: Mem, held: set<nat>, tasks: Slots, cur: nat, slot: nat)
    requires m.Shape() && Inv(m, held) && |tasks| == NUMBER_OF_TASKS && LayoutOk(m, tasks) && LimitsOk(tasks)
    requires 1 <= cur && Live(tasks, cur) && 2 <= slot < NUMBER_OF_TASKS && !Occupied(tasks, slot)
    ensures var p := tasks[cur].value; var n := DirsFor(p.dataLimit);
      && CanCopy(m, 16 * cur, 16 * slot, n)
      && var (m', r) := CopyMem(m, slot, cur, p.codeLimit, p.dataLimit);
      && Inv(m', held)
      && (r == Ok ==> Copied(m, held, 16 * cur, 16 * slot, n, m', Ok))
      && (r == NoMem ==> Undone(m, m'))
      && (r == Ok || r == NoMem)
  {
    hide Inv;
    var p := tasks[cur].value;
    var n := DirsFor(p.dataLimit);
    BaseDir(cur);
    BaseDir(slot);
    ForkCanCopy(m, held, tasks, cur, slot);
    CopyDirsKeeps(m, held, 16 * cur, 16 * slot, n);
    if CopyDirs(m, 16 * cur, 16 * slot, n).1 == NoMem {
      RollbackRestores(m, held, 16 * cur, 16 * slot, n);
    }
  }

  // ---- fork: the task table ----

  ghost predicate CanAdd(tasks: Slots, cur: nat, slot: nat, child: Task) {
    && |tasks| == NUMBER_OF_TASKS
    && 1 <= cur && Occupied(tasks, cur) && 2 <= slot < NUMBER_OF_TASKS && !Occupied(tasks, slot)
    && 1 <= child.pid <= MAX_PID && !PidUsed(tasks, child.pid) && child.father == tasks[cur].value.pid > 0
    && child.codeLimit == tasks[cur].value.codeLimit && child.dataLimit == tasks[cur].value.dataLimit
    && child.frame !in TaskFrames(tasks)
  }

  lemma ForkTree(tasks: Slots, rank: seq<nat>, cur: nat, slot: nat, child: Task)
    requires CanAdd(tasks, cur, slot, child) && TreeOk(tasks, rank)
    ensures TreeOk(tasks[slot := Some(child)], rank[slot := rank[cur] + 1])
  {
    hide PidUsed, TaskFrames;
    var t' := tasks[slot := Some(child)];
    var rank' := rank[slot := rank[cur] + 1];
    assert IsFather(t', cur, slot);
    forall i: nat | 1 <= i && Occupied(t', i) ensures exists j: nat :: IsFather(t', j, i) && rank'[j] < rank'[i] {
      if i != slot {
        assert Occupied(tasks, i);
        var j: nat :| IsFather(tasks, j, i) && rank[j] < rank[i];
        assert IsFather(t', j, i);
      } else {
        assert IsFather(t', cur, i) && rank'[cur] < rank'[i];
      }
    }
  }

  lemma ForkNames(tasks: Slots, cur: nat, slot: nat, child: Task)
    requires CanAdd(tasks, cur, slot, child) && PidsOk(tasks) && FramesOk(tasks) && LimitsOk(tasks)
    ensures var t' := tasks[slot := Some(child)]; PidsOk(t') && FramesOk(t') && LimitsOk(t')
  {
    var t' := tasks[slot := Some(child)];
    assert forall i: nat :: Occupied(t', i) && i != slot ==> Occupied(tasks, i) && t'[i] == tasks[i];
    assert forall i: nat :: Occupied(tasks, i) ==> tasks[i].value.pid != child.pid;
    assert forall i: nat :: 1 <= i && Occupied(tasks, i) ==> tasks[i].value.frame in TaskFrames(tasks);
  }

  lemma ForkFrames(tasks: Slots, cur: nat, slot: nat, child: Task)
    requires CanAdd(tasks, cur, slot, child)
    ensures TaskFrames(tasks[slot := Some(child)]) == TaskFrames(tasks) + {child.frame}
  {
    var t' := tasks[slot := Some(child)];
    forall f: nat ensures f in TaskFrames(t') <==> f in TaskFrames(tasks) + {child.frame} {
      if f == child.frame {
        assert Occupied(t', slot) && t'[slot].value.frame == f;
      } else if f in TaskFrames(tasks) {
        var i: nat :| 1 <= i < |tasks| && Occupied(tasks, i) && tasks[i].value.frame == f;
        assert Occupied(t', i) && t'[i].value.frame == f;
      }
    }
  }

  lemma ForkTable(tasks: Slots, rank: seq<nat>, cur: nat, slot: nat, child: Task)
    requires TableOk(tasks, rank) && CanAdd(tasks, cur, slot, child)
    ensures TableOk(tasks[slot := Some(child)], rank[slot := rank[cur] + 1])
    ensures TaskFrames(tasks[slot := Some(child)]) == TaskFrames(tasks) + {child.frame}
  {
    hide LimitsOk, PidsOk, FramesOk, TreeOk, TaskFrames, PidUsed;
    ForkTree(tasks, rank, cur, slot, child);
    ForkNames(tasks, cur, slot, child);
    ForkFrames(tasks, cur, slot, child);
  }

  /** A frame just allocated changes nobody's layout. */
  lemma AllocLayout(m: Mem, held: set<nat>, tasks: Slots)
    requires m.Shape() && Inv(m, held) && LayoutOk(m, tasks)
    ensures Alloc(m).1 != 0 ==> LayoutOk(Alloc(m).0, tasks)
  {
    AllocKeeps(m, held);
    var (m1, f) := Alloc(m);
    if f != 0 {
      assert forall k: nat :: k < ENTRIES ==> m1.Dir(k) == m.Dir(k);
      assert forall k: nat :: HasTable(m1, k) <==> HasTable(m, k);
    }
  }

  /** After a successful copy the child's slot has the parent's extent. */
  lemma CopiedLayout(m: Mem, held: set<nat>, m': Mem, tasks: Slots, cur: nat, slot: nat, child: Task)
    requires m.Shape() && m'.Shape() && |tasks| == NUMBER_OF_TASKS && LayoutOk(m, tasks) && LimitsOk(tasks)
    requires 1 <= cur && Live(tasks, cur) && 2 <= slot < NUMBER_OF_TASKS && !Occupied(tasks, slot)
    requires child.state != Zombie && child.dataLimit == tasks[cur].value.dataLimit
    requires CanCopy(m, 16 * cur, 16 * slot, DirsFor(child.dataLimit))
    requires Copied(m, held, 16 * cur, 16 * slot, DirsFor(child.dataLimit), m', Ok)
    ensures LayoutOk(m', tasks[slot := Some(child)])
  {
    hide Inv;
    var n := DirsFor(child.dataLimit);
    var t' := tasks[slot := Some(child)];
    forall k: nat | FIRST_TABLE <= k < ENTRIES ensures HasTable(m', k) <==> k % 16 < Extent(t', k / 16) {
      if k / 16 == slot {
        if k < 16 * slot + n {
          var a: nat := k - 16 * slot + 16 * cur;
          assert DirCopied(m, m', a, k, 16 * slot);
        } else {
          assert m'.Dir(k) == m.Dir(k);
          assert HasTable(m, k) <==> k % 16 < Extent(tasks, k / 16);
        }
      } else {
        assert m'.Dir(k) == m.Dir(k);
        assert HasTable(m, k) <==> k % 16 < Extent(tasks, k / 16);
      }
    }
  }

  /** Nothing in the table changes when only directory-equal memory replaces m. */
  lemma UndoneLayout(m: Mem, m': Mem, tasks: Slots)
    requires m.Shape() && m'.Shape() && LayoutOk(m, tasks) && m'.ram[0] == m.ram[0]
    ensures LayoutOk(m', tasks)
  {
    forall k: nat | FIRST_TABLE <= k < ENTRIES ensures HasTable(m', k) <==> k % 16 < Extent(tasks, k / 16) {
      assert m'.Dir(k) == m.Dir(k);
      assert HasTable(m, k) <==> k % 16 < Extent(tasks, k / 16);
    }
  }

  /** copy_process will not meet a null page for the task: no slot is free, so that it asks
      for none, or a frame is free. */
  predicate CanTakePage(k: Kernel)
    requires k.Shape()
  {
    FindSlot(k.tasks, 1) == 0 || FreeCount(k.mem) > 0
  }

  /** What fork by the live task in slot cur makes of the kernel; nothing is said of the
      kernel after NullTask. */
  ghost predicate Forked(k: Kernel, cur: nat, k': Kernel, r: ForkResult)
    requires k.Shape() && k'.Shape() && Live(k.tasks, cur)
  {
    var slot := FindSlot(k.tasks, 1);
    var pid := FindPid(k.tasks, k.lastPid, 0);
    var p := k.tasks[cur].value;
    var n := DirsFor(p.dataLimit);
    && (r != NullTask ==> k'.lastPid == pid)
    && match r
       case Child(q) =>
         && q == pid && slot >= 2 && Alloc(k.mem).1 != 0
         && k'.tasks == k.tasks[slot := Some(ChildOf(p, pid, slot, Alloc(k.mem).1).(state := Running))]
         && CanCopy(k.mem, 16 * cur, 16 * slot, n)
         && Grew(k.mem, k'.mem, {0}) && SameDirsBut(k.mem, k'.mem, 16 * slot, 16 * slot + n)
         && DirsCopied(k.mem, k'.mem, 16 * cur, 16 * slot, n)
       case Again => k'.tasks == k.tasks && Undone(k.mem, k'.mem)
       case NullTask => !CanTakePage(k)
       case Stops(_) => false
  }

  /** fork with a free slot and a page for the task. */
  lemma ForkWithPage(k: Kernel, rank: seq<nat>, cur: nat)
    requires KInv(k, rank) && 1 <= cur && Live(k.tasks, cur)
    requires FindSlot(k.tasks, 1) != 0 && Alloc(k.mem).1 != 0
    ensures LimitFits(k.tasks[cur].value.dataLimit)
    ensures var (k', r) := CopyProcess(k, cur); Forked(k, cur, k', r) && r != NullTask
  {
    hide Inv, Mem.Shape, Alloc, CopyMem, CanTakePage, LayoutOk, TreeOk, PidsOk, FramesOk, DirsCopied, Grew,
      SameDirsBut, CanCopy, Undone;
    var p, slot := k.tasks[cur].value, FindSlot(k.tasks, 1);
    var (m1, f) := Alloc(k.mem);
    var (m2, r) := CopyMem(m1, slot, cur, p.codeLimit, p.dataLimit);
    ForkMemory(k, rank, cur, slot, m1, f, m2, r);
    assert k.tasks[slot := None] == k.tasks;
  }

  /** The memory side of a fork that has a slot and a page. */
  lemma ForkMemory(k: Kernel, rank: seq<nat>, cur: nat, slot: nat, m1: Mem, f: nat, m2: Mem, r: Status)
    requires KInv(k, rank) && 1 <= cur && Live(k.tasks, cur)
    requires slot == FindSlot(k.tasks, 1) && slot != 0
    requires (m1, f) == Alloc(k.mem) && f != 0
    requires (m2, r) == CopyMem(m1, slot, cur, k.tasks[cur].value.codeLimit, k.tasks[cur].value.dataLimit)
    ensures slot >= 2 && (r == Ok || r == NoMem)
    ensures r == Ok ==>
      var n := DirsFor(k.tasks[cur].value.dataLimit);
      && CanCopy(k.mem, 16 * cur, 16 * slot, n)
      && Grew(k.mem, m2, {0}) && SameDirsBut(k.mem, m2, 16 * slot, 16 * slot + n)
      && DirsCopied(k.mem, m2, 16 * cur, 16 * slot, n)
    ensures r == NoMem ==> FreeFrame(m2, f).1 == Ok && Undone(k.mem, FreeFrame(m2, f).0)
  {
    hide Inv, LayoutOk, TreeOk, PidsOk, FramesOk, DirsCopied, CopyMem, Alloc, Mem.Shape, Grew, SameDirsBut,
      CanCopy, Copied, Undone;
    var held, p := TaskFrames(k.tasks), k.tasks[cur].value;
    assert slot >= 2;
    AllocKeeps(k.mem, held);
    AllocLayout(k.mem, held, k.tasks);
    CopyMemKeeps(m1, held + {f}, k.tasks, cur, slot);
    if r == Ok {
      ForkCanCopy(k.mem, held, k.tasks, cur, slot);
      AllocThenCopied(k.mem, held, m1, f, m2, 16 * cur, 16 * slot, DirsFor(p.dataLimit));
    } else {
      FreeHeldKeeps(m2, held + {f}, f);
      AllocThenUndone(k.mem, m1, f, m2);
    }
  }

  /** Every outcome of fork: an exact clone under the new pid, nothing changed but last_pid, or
      the null store, just when a slot but no frame is free. */
  lemma ForkKeepsMemory(k: Kernel, rank: seq<nat>, cur: nat)
    requires KInv(k, rank) && 1 <= cur && Live(k.tasks, cur)
    ensures LimitFits(k.tasks[cur].value.dataLimit)
    ensures var (k', r) := CopyProcess(k, cur); Forked(k, cur, k', r) && (r == NullTask <==> !CanTakePage(k))
  {
    hide Inv, LayoutOk, LimitsOk, PidsOk, FramesOk, TreeOk, CopyProcess, Forked, Alloc, FreeCount;
    AllocFails(k.mem);
    if FindSlot(k.tasks, 1) != 0 && Alloc(k.mem).1 != 0 {
      ForkWithPage(k, rank, cur);
    } else {
      ForkWithout(k, rank, cur);
    }
  }

  /** fork with no free slot, or no page for the task. */
  lemma ForkWithout(k: Kernel, rank: seq<nat>, cur: nat)
    requires KInv(k, rank) && 1 <= cur && Live(k.tasks, cur)
    requires FindSlot(k.tasks, 1) == 0 || Alloc(k.mem).1 == 0
    ensures LimitFits(k.tasks[cur].value.dataLimit)
    ensures var (k', r) := CopyProcess(k, cur); Forked(k, cur, k', r) && (r == NullTask <==> FindSlot(k.tasks, 1) != 0)
  {
    hide Inv, LayoutOk, PidsOk, FramesOk, TreeOk, FreeCount;
    AllocFails(k.mem);
  }

  lemma AllocThenCopied(m: Mem, held: set<nat>, m1: Mem, f: nat, m2: Mem, s: nat, d: nat, n: nat)
    requires m.Shape() && m1.Shape() && m2.Shape() && Inv(m, held) && Managed(f) && !m.Used(f)
    requires m1 == Mem(m.count[f - LOW_FRAMES := 1], m.ram[f := Zeros()])
    requires CanCopy(m, s, d, n) && CanCopy(m1, s, d, n) && Copied(m1, held + {f}, s, d, n, m2, Ok)
    ensures Grew(m, m2, {0}) && SameDirsBut(m, m2, d, d + n) && DirsCopied(m, m2, s, d, n)
  {
    hide Inv, DirCopied;
    forall k: nat | k < ENTRIES && !(d <= k < d + n) ensures m2.Dir(k) == m.Dir(k) {
      assert m2.Dir(k) == m1.Dir(k);
    }
    forall a: nat, b: nat | s <= a < s + n && b - d == a - s ensures DirCopied(m, m2, a, b, d) {
      assert DirCopied(m1, m2, a, b, d);
      DirCopiedEarlier(m, held, m1, m2, a, b, d, d);
    }
  }

  lemma AllocThenUndone(m: Mem, m1: Mem, f: nat, m2: Mem)
    requires m.Shape() && m1.Shape() && m2.Shape() && Managed(f) && !m.Used(f)
    requires m1 == Mem(m.count[f - LOW_FRAMES := 1], m.ram[f := Zeros()]) && Undone(m1, m2)
    ensures Undone(m, Mem(m2.count[f - LOW_FRAMES := 0], m2.ram))
  {
  }

  /** fork keeps the invariant. */
  lemma ForkKeeps(k: Kernel, rank: seq<nat>, cur: nat) returns (rank': seq<nat>)
    requires KInv(k, rank) && 1 <= cur && Live(k.tasks, cur) && CanTakePage(k)
    ensures LimitFits(k.tasks[cur].value.dataLimit)
    ensures KInv(CopyProcess(k, cur).0, rank')
  {
    hide Inv, FreeCount;
    rank' := rank;
    AllocFails(k.mem);
    var slot := FindSlot(k.tasks, 1);
    if slot != 0 {
      var held := TaskFrames(k.tasks);
      AllocKeeps(k.mem, held);
      AllocLayout(k.mem, held, k.tasks);
      var (m1, f) := Alloc(k.mem);
      var p := k.tasks[cur].value;
      CopyMemKeeps(m1, held + {f}, k.tasks, cur, slot);
      var (m2, r) := CopyMem(m1, slot, cur, p.codeLimit, p.dataLimit);
      if r == Ok {
        var child := ChildOf(p, FindPid(k.tasks, k.lastPid, 0), slot, f).(state := Running);
        ForkTable(k.tasks, rank, cur, slot, child);
        CopiedLayout(m1, held + {f}, m2, k.tasks, cur, slot, child);
        rank' := rank[slot := rank[cur] + 1];
      } else {
        FreeHeldKeeps(m2, held + {f}, f);
        assert held + {f} - {f} == held;
        UndoneLayout(m1, m2, k.tasks);
        assert k.tasks[slot := None] == k.tasks;
      }
    }
  }

  // ---- exit ----

  /** The fields that the invariant reads, apart from father and state, are equal. */
  ghost predicate SameNames(a: Slots, b: Slots) {
    && SameSlots(a, b)
    && forall i: nat :: Occupied(a, i) ==>
         var p, q := a[i].value, b[i].value;
         && q.pid == p.pid && q.frame == p.frame
         && q.codeLimit == p.codeLimit && q.dataLimit == p.dataLimit
  }

  lemma SameNamesKeep(a: Slots, b: Slots)
    requires SameNames(a, b) && LimitsOk(a) && PidsOk(a) && FramesOk(a)
    ensures LimitsOk(b) && PidsOk(b) && FramesOk(b) && TaskFrames(b) == TaskFrames(a)
  {
    assert forall i: nat :: Occupied(a, i) <==> Occupied(b, i);
    forall f: nat ensures f in TaskFrames(a) <==> f in TaskFrames(b) {
      if f in TaskFrames(a) {
        var i: nat :| 1 <= i < |a| && Occupied(a, i) && a[i].value.frame == f;
        assert Occupied(b, i) && b[i].value.frame == f;
      }
      if f in TaskFrames(b) {
        var i: nat :| 1 <= i < |b| && Occupied(b, i) && b[i].value.frame == f;
        assert Occupied(a, i) && a[i].value.frame == f;
      }
    }
  }

  /** After exit's loops every task still has a father at a smaller rank. */
  lemma BuryTree(tasks: Slots, rank: seq<nat>, t: nat, code: int)
    requires |tasks| == NUMBER_OF_TASKS && TableOk(tasks, rank) && 2 <= t && Live(tasks, t)
    ensures var r := Bury(tasks, t, code);
      && TreeOk(r, rank) && RootsOk(r) && SameNames(tasks, r)
      && Occupied(r, t) && r[t].value.father == tasks[t].value.father
  {
    BuryEffect(tasks, t, code);
    var r := Bury(tasks, t, code);
    assert forall i: nat :: Occupied(r, i) <==> Occupied(tasks, i);
    forall i: nat | 1 <= i && Occupied(r, i) ensures exists j: nat :: IsFather(r, j, i) && rank[j] < rank[i] {
      var j: nat :| IsFather(tasks, j, i) && rank[j] < rank[i];
      if tasks[i].value.father == tasks[t].value.pid {
        assert j == t;
        assert IsFather(r, 1, i);
      } else {
        assert IsFather(r, j, i);
      }
    }
    var j: nat :| IsFather(tasks, j, t) && rank[j] < rank[t];
    assert j != t;
  }

  lemma SignalKeeps(tasks: Slots, rank: seq<nat>, i: nat, sig: nat)
    requires |tasks| == NUMBER_OF_TASKS && TreeOk(tasks, rank) && RootsOk(tasks) && Occupied(tasks, i)
    ensures var r := Signalled(tasks, i, sig); TreeOk(r, rank) && RootsOk(r) && SameNames(tasks, r)
    ensures forall x: nat :: Extent(Signalled(tasks, i, sig), x) == Extent(tasks, x)
  {
    hide PidsOk, FramesOk, LimitsOk;
    var r := Signalled(tasks, i, sig);
    assert forall x: nat :: Occupied(r, x) <==> Occupied(tasks, x);
    forall x: nat | 1 <= x && Occupied(r, x) ensures exists j: nat :: IsFather(r, j, x) && rank[j] < rank[x] {
      var j: nat :| IsFather(tasks, j, x) && rank[j] < rank[x];
      assert IsFather(r, j, x);
    }
  }

  /** tell_father always finds the father; it never releases. */
  lemma TellFatherFinds(k: Kernel, rank: seq<nat>, t: nat)
    requires k.Shape() && PidsOk(k.tasks) && TreeOk(k.tasks, rank) && RootsOk(k.tasks) && 2 <= t && Occupied(k.tasks, t)
    ensures var (k', r) := TellFather(k, t);
      && r == Told
      && k'.mem == k.mem && k'.lastPid == k.lastPid && |k'.tasks| == |k.tasks|
      && TreeOk(k'.tasks, rank) && RootsOk(k'.tasks) && SameNames(k.tasks, k'.tasks)
      && forall x: nat :: Extent(k'.tasks, x) == Extent(k.tasks, x)
  {
    var j: nat :| IsFather(k.tasks, j, t) && rank[j] < rank[t];
    var father := k.tasks[t].value.father;
    assert j >= 1;
    var i := FindPidTask(k.tasks, father, 1);
    SignalKeeps(k.tasks, rank, i.value, SIGCHLD);
  }

  /** Both free_page_tables calls of do_exit. */
  lemma ExitMemory(m: Mem, held: set<nat>, tasks: Slots, t: nat)
    requires m.Shape() && Inv(m, held) && |tasks| == NUMBER_OF_TASKS && LimitsOk(tasks) && 2 <= t && Live(tasks, t)
    ensures var p := tasks[t].value;
      var (m1, r1) := FreePageTables(m, Base(t), p.codeLimit);
      var (m2, r2) := FreePageTables(m1, Base(t), p.dataLimit);
      && r1 == Ok && r2 == Ok && Inv(m2, held) && RangeFreed(m, m2, 16 * t, DirsFor(p.dataLimit))
      && (p.codeLimit == p.dataLimit ==> m2 == m1)
  {
    hide Inv;
    BaseDir(t);
    FreeTwice(m, held, 16 * t, DirsFor(tasks[t].value.codeLimit), DirsFor(tasks[t].value.dataLimit));
  }

  lemma ExitLayout(m: Mem, m': Mem, tasks: Slots, t: nat, tasks': Slots)
    requires m.Shape() && m'.Shape() && LayoutOk(m, tasks) && |tasks| == NUMBER_OF_TASKS && LimitsOk(tasks)
    requires 2 <= t && Live(tasks, t)
    requires RangeFreed(m, m', 16 * t, DirsFor(tasks[t].value.dataLimit))
    requires forall x: nat :: Extent(tasks', x) == if x == t then 0 else Extent(tasks, x)
    ensures LayoutOk(m', tasks')
  {
    var n := DirsFor(tasks[t].value.dataLimit);
    forall k: nat | FIRST_TABLE <= k < ENTRIES ensures HasTable(m', k) <==> k % 16 < Extent(tasks', k / 16) {
      assert m'.Dir(k) == if 16 * t <= k < 16 * t + n then 0 else m.Dir(k);
      assert HasTable(m, k) <==> k % 16 < Extent(tasks, k / 16);
    }
  }

  /** exit by a live task >= 2 keeps the invariant, is never stopped by a panic, and never
      takes the "no father found" branch. */
  lemma ExitKeeps(k: Kernel, rank: seq<nat>, t: nat, code: int)
    requires KInv(k, rank) && 2 <= t && Live(k.tasks, t)
    ensures LimitFits(k.tasks[t].value.codeLimit) && LimitFits(k.tasks[t].value.dataLimit)
    ensures var (k', r) := DoExit(k, t, code); KInv(k', rank) && r == Told
  {
    hide Inv, PidsOk, FramesOk, TreeOk;
    var p := k.tasks[t].value;
    ExitMemory(k.mem, TaskFrames(k.tasks), k.tasks, t);
    var m1 := FreePageTables(k.mem, Base(t), p.codeLimit).0;
    var m2 := FreePageTables(m1, Base(t), p.dataLimit).0;
    BuryTree(k.tasks, rank, t, code);
    var r := Bury(k.tasks, t, code);
    SameNamesKeep(k.tasks, r);
    var k1 := Kernel(m2, r, k.lastPid);
    TellFatherFinds(k1, rank, t);
    var k2 := TellFather(k1, t).0;
    SameNamesKeep(r, k2.tasks);
    BuryExtent(k.tasks, t, code);
    ExitLayout(k.mem, m2, k.tasks, t, k2.tasks);
  }

  lemma BuryExtent(tasks: Slots, t: nat, code: int)
    requires |tasks| == NUMBER_OF_TASKS && Live(tasks, t)
    ensures forall x: nat :: Extent(Bury(tasks, t, code), x) == if x == t then 0 else Extent(tasks, x)
  {
    BuryEffect(tasks, t, code);
    assert forall x: nat :: Occupied(Bury(tasks, t, code), x) <==> Occupied(tasks, x);
  }
}
