/** What no fork, exit or store changes: the kernel's directory words and the table of task 1;
    and, from that, which exits panic. */
module ForkFixed {
  import opened Paging
  import opened Ownership
  import opened Tasks
  import opened Fork
  import opened ForkInv

  ghost predicate SameLimits(a: Slots, b: Slots, i: nat) {
    && Live(a, i) && Live(b, i)
    && b[i].value.codeLimit == a[i].value.codeLimit && b[i].value.dataLimit == a[i].value.dataLimit
  }

  lemma FixedKeeps(m: Mem, m': Mem, tasks: Slots, tasks': Slots)
    requires m.Shape() && m'.Shape() && Fixed(m, tasks) && AllOpen(m')
    requires forall e: nat :: e <= FIRST_TABLE ==> m'.Dir(e) == m.Dir(e)
    requires m'.ram[TableFrame(m, FIRST_TABLE)] == m.ram[TableFrame(m, FIRST_TABLE)]
    requires SameLimits(tasks, tasks', 0) && SameLimits(tasks, tasks', 1)
    ensures Fixed(m', tasks')
  {
    assert FIRST_TABLE <= FIRST_TABLE && m'.Dir(FIRST_TABLE) == m.Dir(FIRST_TABLE);
  }

  /** fork keeps it. */
  lemma ForkFixes(k: Kernel, rank: seq<nat>, cur: nat)
    requires KInv(k, rank) && Fixed(k.mem, k.tasks) && 1 <= cur && Live(k.tasks, cur) && CanTakePage(k)
    ensures LimitFits(k.tasks[cur].value.dataLimit)
    ensures Fixed(CopyProcess(k, cur).0.mem, CopyProcess(k, cur).0.tasks)
  {
    hide Inv, LayoutOk, PidsOk, FramesOk, TreeOk, CanTakePage, DirsCopied, CanCopy, CopyProcess, AllOpen;
    ForkKeepsMemory(k, rank, cur);
    ForkOpens(k, rank, cur);
    TableOfM(k.mem, TaskFrames(k.tasks), FIRST_TABLE);
    var k' := CopyProcess(k, cur).0;
    assert forall e: nat :: e <= FIRST_TABLE ==> k'.mem.ram[0][e] == k'.mem.Dir(e) && k.mem.ram[0][e] == k.mem.Dir(e);
    FixedKeeps(k.mem, k'.mem, k.tasks, k'.tasks);
  }

  /** The table of a task that memory has grown by leaves its pages open to the child. */
  lemma CopiedOpens(m: Mem, m': Mem, s: nat, d: nat, n: nat, e: nat)
    requires m.Shape() && m'.Shape() && CanCopy(m, s, d, n) && DirsCopied(m, m', s, d, n) && d <= e < d + n
    ensures HasTable(m', e) && Open(m'.Dir(e))
    ensures forall j: nat :: HasPage(m', e, j) ==> Open(m'.ram[TableFrame(m', e)][j])
  {
    var a: nat := e - d + s;
    assert HasTable(m, a) && DirCopied(m, m', a, e, d);
    EntryBits(TableFrame(m', e));
    var u, t := TableFrame(m, a), TableFrame(m', e);
    forall j: nat | HasPage(m', e, j) ensures Open(m'.ram[t][j]) {
      assert SlotCopied(m, m', u, t, j, d, e);
      EntryBits(FrameOf(m'.ram[t][j]));
    }
  }

  /** What was open stays open while memory grows elsewhere. */
  lemma GrownOpens(m: Mem, m': Mem, held: set<nat>, s: nat, d: nat, n: nat)
    requires m.Shape() && m'.Shape() && Inv(m, held) && AllOpen(m) && CanCopy(m, s, d, n)
    requires Grew(m, m', {0}) && SameDirsBut(m, m', d, d + n) && DirsCopied(m, m', s, d, n)
    ensures AllOpen(m')
  {
    hide Inv, DirsCopied, CanCopy, Open;
    forall e: nat | HasTable(m', e)
      ensures Open(m'.Dir(e)) && forall j: nat :: HasPage(m', e, j) ==> Open(m'.ram[TableFrame(m', e)][j])
    {
      if d <= e < d + n {
        CopiedOpens(m, m', s, d, n, e);
      } else {
        assert m'.Dir(e) == m.Dir(e) && HasTable(m, e);
        TableOfM(m, held, e);
        assert m'.ram[TableFrame(m, e)] == m.ram[TableFrame(m, e)];
        assert forall j: nat :: HasPage(m', e, j) ==> HasPage(m, e, j);
      }
    }
  }

  lemma UndoneOpens(m: Mem, m': Mem, held: set<nat>)
    requires m.Shape() && m'.Shape() && Inv(m, held) && AllOpen(m) && Undone(m, m')
    ensures AllOpen(m')
  {
    hide Inv, Open;
    assert forall e: nat :: e < ENTRIES ==> m'.ram[0][e] == m'.Dir(e) && m.ram[0][e] == m.Dir(e);
    forall e: nat | HasTable(m', e)
      ensures Open(m'.Dir(e)) && forall j: nat :: HasPage(m', e, j) ==> Open(m'.ram[TableFrame(m', e)][j])
    {
      assert HasTable(m, e);
      TableOfM(m, held, e);
      assert forall j: nat :: HasPage(m', e, j) ==> HasPage(m, e, j);
    }
  }

  /** The words that fork writes open the tables and pages to the child. */
  lemma ForkOpens(k: Kernel, rank: seq<nat>, cur: nat)
    requires KInv(k, rank) && AllOpen(k.mem) && 1 <= cur && Live(k.tasks, cur) && CanTakePage(k)
    ensures LimitFits(k.tasks[cur].value.dataLimit) && AllOpen(CopyProcess(k, cur).0.mem)
  {
    hide Inv, LayoutOk, PidsOk, FramesOk, TreeOk, CanTakePage, CopyProcess, AllOpen, Grew, SameDirsBut, DirsCopied,
      CanCopy, Undone;
    ForkKeepsMemory(k, rank, cur);
    var (k', r) := CopyProcess(k, cur);
    if r.Child? {
      var slot, n := FindSlot(k.tasks, 1), DirsFor(k.tasks[cur].value.dataLimit);
      GrownOpens(k.mem, k'.mem, TaskFrames(k.tasks), 16 * cur, 16 * slot, n);
    } else {
      UndoneOpens(k.mem, k'.mem, TaskFrames(k.tasks));
    }
  }

  /** Freeing a range leaves the others open. */
  lemma FreedOpens(m: Mem, m': Mem, held: set<nat>, d: nat, n: nat)
    requires m.Shape() && m'.Shape() && Inv(m, held) && AllOpen(m)
    requires FIRST_CLONE <= d && d + n <= ENTRIES && RangeFreed(m, m', d, n)
    ensures AllOpen(m')
  {
    hide Inv;
    forall e: nat | HasTable(m', e)
      ensures HasTable(m, e) && m'.Dir(e) == m.Dir(e) && m'.ram[TableFrame(m, e)] == m.ram[TableFrame(m, e)]
    {
      TableRowKept(m, m', held, d, n, e);
    }
  }

  /** exit of a task >= 2 keeps it. */
  lemma ExitFixes(k: Kernel, rank: seq<nat>, t: nat, code: int)
    requires KInv(k, rank) && Fixed(k.mem, k.tasks) && 2 <= t && Live(k.tasks, t)
    ensures LimitFits(k.tasks[t].value.codeLimit) && LimitFits(k.tasks[t].value.dataLimit)
    ensures Fixed(DoExit(k, t, code).0.mem, DoExit(k, t, code).0.tasks)
  {
    hide Inv, PidsOk, FramesOk, TreeOk, LayoutOk, AllOpen;
    var p, held := k.tasks[t].value, TaskFrames(k.tasks);
    ExitMemory(k.mem, held, k.tasks, t);
    ExitKeeps(k, rank, t, code);
    var m2 := FreePageTables(FreePageTables(k.mem, Base(t), p.codeLimit).0, Base(t), p.dataLimit).0;
    TableRowKept(k.mem, m2, held, 16 * t, DirsFor(p.dataLimit), FIRST_TABLE);
    FreedOpens(k.mem, m2, held, 16 * t, DirsFor(p.dataLimit));
    ExitTable(k, t, code);
    FixedKeeps(k.mem, m2, k.tasks, DoExit(k, t, code).0.tasks);
  }

  /** What exit does to the table, as far as Fixed reads it. */
  lemma ExitTable(k: Kernel, t: nat, code: int)
    requires k.Shape() && 2 <= t && Live(k.tasks, t) && Live(k.tasks, 0) && Live(k.tasks, 1)
    requires LimitFits(k.tasks[t].value.codeLimit) && LimitFits(k.tasks[t].value.dataLimit)
    requires DoExit(k, t, code).1 == Told
    ensures var p, k' := k.tasks[t].value, DoExit(k, t, code).0;
      && k'.mem == FreePageTables(FreePageTables(k.mem, Base(t), p.codeLimit).0, Base(t), p.dataLimit).0
      && SameLimits(k.tasks, k'.tasks, 0) && SameLimits(k.tasks, k'.tasks, 1)
  {
    hide FreePageTables;
    BuryEffect(k.tasks, t, code);
    var r := Bury(k.tasks, t, code);
    assert forall i: nat :: i < 2 ==> Occupied(k.tasks, i) && r[i].value == Buried(k.tasks, t, code, i);
  }

  /** The whole table after an exit that tells the father, slot by slot: what the loops of do_exit
      do, and SIGCHLD for exactly the father. */
  lemma ExitTableExactly(k: Kernel, rank: seq<nat>, t: nat, code: int)
    requires KInv(k, rank) && Fixed(k.mem, k.tasks) && 2 <= t && Live(k.tasks, t)
    ensures LimitFits(k.tasks[t].value.codeLimit) && LimitFits(k.tasks[t].value.dataLimit)
    ensures var k' := DoExit(k, t, code).0;
      && SameSlots(k.tasks, k'.tasks) && k'.lastPid == k.lastPid
      && forall x: nat :: Occupied(k.tasks, x) ==> k'.tasks[x].value == AfterExit(k.tasks, t, code, x)
  {
    hide KInv, Fixed, DoExit, FreePageTables, Bury;
    ShapeOf(k, rank);
    ExitKeeps(k, rank, t, code);
    var p, r := k.tasks[t].value, Bury(k.tasks, t, code);
    var m2 := FreePageTables(FreePageTables(k.mem, Base(t), p.codeLimit).0, Base(t), p.dataLimit).0;
    DoExitIs(k, t, code, m2);
    assert PidsOk(r) && Occupied(r, t) by { BuriedPids(k, rank, t, code); }
    ToldTable(k, Kernel(m2, r, k.lastPid), t, code);
  }

  lemma DoExitIs(k: Kernel, t: nat, code: int, m2: Mem)
    requires k.Shape() && Occupied(k.tasks, t)
    requires LimitFits(k.tasks[t].value.codeLimit) && LimitFits(k.tasks[t].value.dataLimit)
    requires var p := k.tasks[t].value;
      m2 == FreePageTables(FreePageTables(k.mem, Base(t), p.codeLimit).0, Base(t), p.dataLimit).0
    requires DoExit(k, t, code).1 == Told
    ensures Occupied(Bury(k.tasks, t, code), t)
    ensures DoExit(k, t, code) == TellFather(Kernel(m2, Bury(k.tasks, t, code), k.lastPid), t)
  {
    hide FreePageTables, Bury;
    BuryEffect(k.tasks, t, code);
  }

  lemma BuriedPids(k: Kernel, rank: seq<nat>, t: nat, code: int)
    requires KInv(k, rank) && 2 <= t && Live(k.tasks, t)
    ensures PidsOk(Bury(k.tasks, t, code)) && Occupied(Bury(k.tasks, t, code), t)
  {
    hide Bury;
    BuryTree(k.tasks, rank, t, code);
    SameNamesKeep(k.tasks, Bury(k.tasks, t, code));
  }

  lemma ToldTable(k: Kernel, k1: Kernel, t: nat, code: int)
    requires k.Shape() && k1.Shape() && Occupied(k.tasks, t) && k1.tasks == Bury(k.tasks, t, code)
    requires k1.lastPid == k.lastPid
    requires PidsOk(k1.tasks) && Occupied(k1.tasks, t) && TellFather(k1, t).1 == Told
    ensures var k' := TellFather(k1, t).0;
      && SameSlots(k.tasks, k'.tasks) && k'.lastPid == k.lastPid
      && forall x: nat :: Occupied(k.tasks, x) ==> k'.tasks[x].value == AfterExit(k.tasks, t, code, x)
  {
    hide Bury, TellFather, Buried;
    BuryEffect(k.tasks, t, code);
    TellFatherEffect(k1, t);
    OnlyOneHasPid(k1.tasks, k1.tasks[t].value.father);
    forall x: nat | Occupied(k.tasks, x)
      ensures TellFather(k1, t).0.tasks[x].value == AfterExit(k.tasks, t, code, x)
    {
      assert Occupied(k1.tasks, x) && k1.tasks[x].value == Buried(k.tasks, t, code, x);
    }
  }

  lemma OnlyOneHasPid(tasks: Slots, pid: int)
    requires PidsOk(tasks)
    ensures forall x: nat :: IsFirst(tasks, pid, x) <==> x >= 1 && Occupied(tasks, x) && tasks[x].value.pid == pid
  {
  }

  /** Task 0 has base 0, and task 1 maps low memory, which free_page refuses. */
  lemma ExitPanics(k: Kernel, t: nat, code: int)
    requires k.Shape() && Fixed(k.mem, k.tasks) && t < 2
    ensures Live(k.tasks, t) && LimitFits(k.tasks[t].value.codeLimit) && LimitFits(k.tasks[t].value.dataLimit)
    ensures DoExit(k, t, code).1 == Halted(Panic)
  {
    hide Bury;
    if t == 1 {
      var m := k.mem;
      var f := TableFrame(m, FIRST_TABLE);
      assert DirsFor(TASK1_LIMIT) == 1 && Base(1) / 0x40_0000 == FIRST_TABLE;
      assert m.ram[f][0] == Entry(0) && FreeFrame(m, 0) == (m, Panic);
      assert FreeSlots(m, f, 0) == (m, Panic);
      assert FreeDir(m, FIRST_TABLE) == (m, Panic);
      assert FreeDirs(m, FIRST_TABLE, 1) == (m, Panic);
    }
  }

  /** exit of any live task: it panics if and only if the task is task 0 or task 1; otherwise
      the father is told, and the invariant holds on. */
  lemma ExitExactly(k: Kernel, rank: seq<nat>, t: nat, code: int)
    requires KInv(k, rank) && Fixed(k.mem, k.tasks) && Live(k.tasks, t)
    ensures LimitFits(k.tasks[t].value.codeLimit) && LimitFits(k.tasks[t].value.dataLimit)
    ensures var (k', r) := DoExit(k, t, code);
      && r == (if t < 2 then Halted(Panic) else Told)
      && (t >= 2 ==> KInv(k', rank) && Fixed(k'.mem, k'.tasks))
      && (t >= 2 ==>
            && SameSlots(k.tasks, k'.tasks)
            && forall x: nat :: Occupied(k.tasks, x) ==> k'.tasks[x].value == AfterExit(k.tasks, t, code, x))
  {
    hide KInv, Fixed, DoExit;
    if t < 2 {
      assert k.Shape() by { ShapeOf(k, rank); }
      ExitPanics(k, t, code);
    } else {
      ExitKeeps(k, rank, t, code);
      ExitFixes(k, rank, t, code);
      ExitTableExactly(k, rank, t, code);
    }
  }

  lemma ShapeOf(k: Kernel, rank: seq<nat>)
    requires KInv(k, rank)
    ensures k.Shape()
  {
  }
}
