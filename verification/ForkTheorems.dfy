/** What one fork, and a fork followed by the child's exit, do in any reachable state. */
module ForkTheorems {
  import opened Paging
  import opened Ownership
  import opened CloneCost
  import opened Tasks
  import opened Fork
  import opened ForkInv
  import opened ForkFixed
  import opened ForkRuns

  /** Cloning is exact.  For entry i of the parent's extent and slot j of its table: the child
      maps a page there just when the parent does; the child's table entry and page entry are
      frame|7 of frames that were free; the page has the same words; the parent's entry, table
      and page are as they were.  When the page is the directory itself, which task 1 maps,
      the words of the child are in the copy as far as the copy of the tables had got. */
  lemma CloneIsExact(k: Kernel, cur: nat, k': Kernel, r: ForkResult, a: nat, b: nat, j: nat)
    requires Reachable(k) && Forks(k, cur, k', r) && r.Child? && j < ENTRIES
    requires 16 * cur <= a < 16 * cur + DirsFor(k.tasks[cur].value.dataLimit)
    requires b - 16 * FindSlot(k.tasks, 1) == a - 16 * cur
    ensures ClonedSlot(k.mem, k'.mem, FindSlot(k.tasks, 1), a, b, j)
  {
    hide Inv, Reachable, LayoutOk, TreeOk, PidsOk, FramesOk, Grew, SameDirsBut, DirsCopied, CanCopy, ClonedSlot,
      CopyProcess, Mem.Shape, LimitsOk;
    var rank := ReachableKeeps(k);
    ForkKeepsMemory(k, rank, cur);
    CloneSlot(k, rank, cur, FindSlot(k.tasks, 1), k'.mem, a, b, j);
  }

  ghost predicate ClonedSlot(m: Mem, m': Mem, slot: nat, a: nat, b: nat, j: nat) {
    && m.Shape() && m'.Shape() && HasTable(m, a) && HasTable(m', b)
    && var s, t := TableFrame(m, a), TableFrame(m', b);
    && m'.Dir(b) as int == 4096 * t + 7 && !m.Used(t)
    && (HasPage(m', b, j) <==> HasPage(m, a, j))
    && (HasPage(m, a, j) ==>
          var from, to := PageFrame(m, a, j), PageFrame(m', b, j);
          && from < RAM_FRAMES && to < RAM_FRAMES
          && m'.ram[t][j] as int == 4096 * to + 7 && !m.Used(to)
          && (forall w: nat :: w < ENTRIES ==>
                m'.ram[to][w] == if from == 0 && 16 * slot <= w <= b then m'.Dir(w) else m.ram[from][w])
          && (from != 0 ==> m'.ram[from] == m.ram[from]))
    && m'.Dir(a) == m.Dir(a) && m'.ram[s] == m.ram[s]
  }

  lemma CloneSlot(k: Kernel, rank: seq<nat>, cur: nat, slot: nat, m': Mem, a: nat, b: nat, j: nat)
    requires KInv(k, rank) && 1 <= cur && Live(k.tasks, cur) && j < ENTRIES && m'.Shape()
    requires var n := DirsFor(k.tasks[cur].value.dataLimit);
      && 2 <= slot < NUMBER_OF_TASKS && 16 * cur <= a < 16 * cur + n && b - 16 * slot == a - 16 * cur
      && CanCopy(k.mem, 16 * cur, 16 * slot, n)
      && Grew(k.mem, m', {0}) && SameDirsBut(k.mem, m', 16 * slot, 16 * slot + n)
      && DirsCopied(k.mem, m', 16 * cur, 16 * slot, n)
    ensures ClonedSlot(k.mem, m', slot, a, b, j)
  {
    hide Inv, TreeOk, PidsOk, FramesOk;
    var n := DirsFor(k.tasks[cur].value.dataLimit);
    assert n <= 16;
    assert DirCopied(k.mem, m', a, b, 16 * slot);
    assert SlotCopied(k.mem, m', TableFrame(k.mem, a), TableFrame(m', b), j, 16 * slot, b);
    TableOfM(k.mem, TaskFrames(k.tasks), a);
    if HasPage(k.mem, a, j) { SourceUsed(k.mem, TaskFrames(k.tasks), a, j); }
  }

  /** The child, field by field, and nobody else: it runs, with a new pid, the parent as father, a
      full time slice, no pending signal, no alarm, no leadership and no ticks charged yet; the
      rest is the parent's.  Its own page was free. */
  lemma ChildIsFresh(k: Kernel, cur: nat, k': Kernel, r: ForkResult)
    requires Reachable(k) && Forks(k, cur, k', r) && r.Child?
    ensures var slot := FindSlot(k.tasks, 1);
      && 2 <= slot < |k'.tasks| == |k.tasks| && k.tasks[slot].None? && k'.tasks[slot].Some?
      && (forall x: nat :: x < |k.tasks| && x != slot ==> k'.tasks[x] == k.tasks[x])
      && var p, c := k.tasks[cur].value, k'.tasks[slot].value;
      && c.state == Running && c.pid == r.pid == k'.lastPid && c.father == p.pid
      && c.ts == p.priority && c.priority == p.priority
      && c.signal == {} && c.blocked == p.blocked && c.alarm == 0
      && c.session == p.session && !c.leader && c.exitCode == p.exitCode
      && c.codeLimit == p.codeLimit && c.dataLimit == p.dataLimit && c.uts == 0 && c.kts == 0
      && LOW_FRAMES <= c.frame < RAM_FRAMES && !k.mem.Used(c.frame)
  {
    hide Inv, LayoutOk, TreeOk, FramesOk, Grew, SameDirsBut, DirsCopied, CanCopy, Fixed, CopyProcess, Alloc;
    var rank := ReachableKeeps(k);
    ForkKeepsMemory(k, rank, cur);
    AllocKeeps(k.mem, TaskFrames(k.tasks));
  }

  /** Cloning is all-or-nothing, but for one case.  fork succeeds if and only if a slot is
      free and one frame for the task, one for each page table and one for each page of the
      parent are.  It stores through null if and only if a slot is free and no frame is.
      Otherwise it returns -EAGAIN, and the task table, every count, every directory word and
      every frame in use are as before: only last_pid has moved. */
  lemma ForkIsAllOrNothing(k: Kernel, cur: nat, k': Kernel, r: ForkResult)
    requires Reachable(k) && Forks(k, cur, k', r)
    ensures var n := DirsFor(k.tasks[cur].value.dataLimit);
      && (forall a: nat :: 16 * cur <= a < 16 * cur + n ==> HasTable(k.mem, a))
      && (r.Child? || r == Again || r == NullTask)
      && (r.Child? <==> FindSlot(k.tasks, 1) != 0 && FreeCount(k.mem) >= 1 + Need(k.mem, 16 * cur, n))
      && (r == NullTask <==> FindSlot(k.tasks, 1) != 0 && FreeCount(k.mem) == 0)
      && (r == Again ==> k'.tasks == k.tasks && k'.mem.Shape() && Undone(k.mem, k'.mem))
  {
    hide Inv, TreeOk, PidsOk, FramesOk, Reachable, FreeCount, DirsCopied, Grew, SameDirsBut, CanCopy, Undone;
    var rank := ReachableKeeps(k);
    var held, p := TaskFrames(k.tasks), k.tasks[cur].value;
    var n := DirsFor(p.dataLimit);
    ParentTables(k.mem, k.tasks, cur);
    ForkKeepsMemory(k, rank, cur);
    var slot := FindSlot(k.tasks, 1);
    AllocFails(k.mem);
    if slot != 0 && Alloc(k.mem).1 != 0 {
      assert slot >= 2;
      ForkCost(k.mem, held, k.tasks, cur, slot);
    }
  }

  lemma ParentTables(m: Mem, tasks: Slots, cur: nat)
    requires m.Shape() && |tasks| == NUMBER_OF_TASKS && LayoutOk(m, tasks) && LimitsOk(tasks)
    requires 1 <= cur && Live(tasks, cur)
    ensures forall a: nat :: 16 * cur <= a < 16 * cur + DirsFor(tasks[cur].value.dataLimit) ==> HasTable(m, a)
  {
    forall a: nat | 16 * cur <= a < 16 * cur + DirsFor(tasks[cur].value.dataLimit) ensures HasTable(m, a) {
      assert a / 16 == cur && a % 16 == a - 16 * cur;
    }
  }

  /** copy_mem after the task page has been taken succeeds just when Need + 1 frames were free. */
  lemma ForkCost(m: Mem, held: set<nat>, tasks: Slots, cur: nat, slot: nat)
    requires m.Shape() && Inv(m, held) && |tasks| == NUMBER_OF_TASKS && LayoutOk(m, tasks) && LimitsOk(tasks)
    requires 1 <= cur && Live(tasks, cur) && 2 <= slot < NUMBER_OF_TASKS && !Occupied(tasks, slot)
    requires Alloc(m).1 != 0
    ensures LimitFits(tasks[cur].value.dataLimit)
    ensures var p := tasks[cur].value; var n := DirsFor(p.dataLimit);
      && (forall a: nat :: 16 * cur <= a < 16 * cur + n ==> HasTable(m, a))
      && (CopyMem(Alloc(m).0, slot, cur, p.codeLimit, p.dataLimit).1 == Ok
          <==> FreeCount(m) >= 1 + Need(m, 16 * cur, n))
  {
    hide Inv;
    var p := tasks[cur].value;
    var n := DirsFor(p.dataLimit);
    ParentTables(m, tasks, cur);
    AllocKeeps(m, held);
    AllocCost(m, held);
    AllocLayout(m, held, tasks);
    var (m1, f) := Alloc(m);
    ForkCanCopy(m, held, tasks, cur, slot);
    ForkCanCopy(m1, held + {f}, tasks, cur, slot);
    BaseDir(cur);
    BaseDir(slot);
    CopyDirsCost(m1, held + {f}, 16 * cur, 16 * slot, n);
    CopyDirsKeeps(m1, held + {f}, 16 * cur, 16 * slot, n);
    assert Grew(m, m1, {0});
    forall a: nat | 16 * cur <= a < 16 * cur + n ensures HasTable(m1, a) && m1.Dir(a) == m.Dir(a) {
      assert HasTable(m, a);
    }
    NeedSame(m, m1, held, 16 * cur, n);
  }

  /** exit undoes fork: after a fork and the child's exit every count and every directory
      word is as before, but for the child's task page, which the zombie keeps. */
  lemma ExitUndoesFork(k: Kernel, cur: nat, k1: Kernel, r: ForkResult, code: int, k2: Kernel, r2: ExitResult)
    requires Reachable(k) && Forks(k, cur, k1, r) && r.Child?
    requires Exits(k1, FindSlot(k.tasks, 1), code, k2, r2)
    ensures k2.mem.Shape() && Undone(Alloc(k.mem).0, k2.mem)
  {
    var rank := ReachableKeeps(k);
    hide Inv, Reachable, TreeOk, PidsOk, FramesOk;
    var held, p := TaskFrames(k.tasks), k.tasks[cur].value;
    var slot := FindSlot(k.tasks, 1);
    ForkKeepsMemory(k, rank, cur);
    var rank1 := ForkKeeps(k, rank, cur);
    ExitKeeps(k1, rank1, slot, code);
    ExitMem(k1, slot, code);
    AllocKeeps(k.mem, held);
    AllocLayout(k.mem, held, k.tasks);
    var (m1, f) := Alloc(k.mem);
    ForkThenFree(m1, held + {f}, k.tasks, cur, slot, k1.tasks, k1.mem, k2.mem);
  }

  lemma ForkThenFree(m: Mem, held: set<nat>, tasks: Slots, cur: nat, slot: nat, tasks1: Slots, m1: Mem, m2: Mem)
    requires m.Shape() && Inv(m, held) && |tasks| == |tasks1| == NUMBER_OF_TASKS
    requires LayoutOk(m, tasks) && LimitsOk(tasks)
    requires 1 <= cur && Live(tasks, cur) && 2 <= slot < NUMBER_OF_TASKS && !Occupied(tasks, slot)
    requires Live(tasks1, slot) && LimitsOk(tasks1)
    requires var p, c := tasks[cur].value, tasks1[slot].value;
      && c.dataLimit == p.dataLimit && c.codeLimit == p.codeLimit
      && CopyMem(m, slot, cur, p.codeLimit, p.dataLimit) == (m1, Ok)
      && m1.Shape() && m2.Shape()
      && m2 == FreePageTables(FreePageTables(m1, Base(slot), c.codeLimit).0, Base(slot), c.dataLimit).0
    ensures Undone(m, m2)
  {
    hide Inv, CopyMem, FreePageTables;
    CopyMemKeeps(m, held, tasks, cur, slot);
    ExitMemory(m1, held, tasks1, slot);
    FreeUndoesGrowth(m, m1, m2, held, 16 * slot, DirsFor(tasks[cur].value.dataLimit));
  }

  lemma ExitMem(k: Kernel, t: nat, code: int)
    requires k.Shape() && Occupied(k.tasks, t)
    requires LimitFits(k.tasks[t].value.codeLimit) && LimitFits(k.tasks[t].value.dataLimit)
    requires DoExit(k, t, code).1 == Told
    ensures DoExit(k, t, code).0.mem == FreePageTables(FreePageTables(k.mem, Base(t), k.tasks[t].value.codeLimit).0,
                                                       Base(t), k.tasks[t].value.dataLimit).0
  {
    hide FreePageTables, Bury;
  }

  /** exit gives back exactly the frames of the task's own tables and pages, once each. */
  lemma ExitFreesItsOwn(k: Kernel, t: nat, code: int, k': Kernel, r: ExitResult)
    requires Reachable(k) && Exits(k, t, code, k', r)
    ensures k'.Shape() && (r == Told <==> t >= 2)
    ensures var n := DirsFor(k.tasks[t].value.dataLimit); r == Told ==>
      && (forall f: nat :: Managed(f) ==>
            k'.mem.count[f - LOW_FRAMES]
            == if OwnedInRange(k.mem, 16 * t, n, f) then 0 else k.mem.count[f - LOW_FRAMES])
      && (forall x: nat :: x < ENTRIES ==> k'.mem.Dir(x) == if 16 * t <= x < 16 * t + n then 0 else k.mem.Dir(x))
  {
    var rank := ReachableKeeps(k);
    hide Inv, TreeOk, PidsOk, FramesOk, DoExit, Fixed, LayoutOk;
    var held, p := TaskFrames(k.tasks), k.tasks[t].value;
    ExitExactly(k, rank, t, code);
    if t >= 2 {
      ExitMemory(k.mem, held, k.tasks, t);
      ExitMem(k, t, code);
      FreedExactly(k.mem, k'.mem, held, 16 * t, DirsFor(p.dataLimit));
    }
  }
}
