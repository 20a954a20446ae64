/** Every run of the kernel's forks and exits, from boot on, and what holds at each point. */
module ForkRuns {
  import opened Paging
  import opened Ownership
  import opened CloneCost
  import opened Basics
  import opened Tasks
  import opened Fork
  import opened ForkInv
  import opened ForkFixed

  // ---- boot: mem_init, then task 0 forks task 1 ----

  /** The frames before the first fork: the directory that head.s:63-76 leaves, and anything. */
  ghost predicate BootFrames(frames: seq<seq<Word>>) {
    && |frames| == RAM_FRAMES && (forall f :: 0 <= f < RAM_FRAMES ==> |frames[f]| == ENTRIES)
    && forall k :: 0 <= k < ENTRIES ==> frames[0][k] == KernelDir(k)
  }

  /** task0 of kernel/sched.c: limits of 16 MB. */
  const TASK0 := Task(Running, 0, 10, 10, {}, {}, 0, 0, -1, 0, false, TASK0_LIMIT, TASK0_LIMIT, 0, 0, 0)

  function Boot(frames: seq<seq<Word>>, start: Word, end: Word): (k: Kernel)
    requires |frames| == RAM_FRAMES && forall f :: 0 <= f < RAM_FRAMES ==> |frames[f]| == ENTRIES
    ensures k.Shape()
  {
    Kernel(Mem(InitialCount(start, end), frames), seq(NUMBER_OF_TASKS, i => if i == 0 then Some(TASK0) else None), 0)
  }

  /** Nothing is owned after mem_init, whatever range of memory it is given. */
  lemma BootInv(frames: seq<seq<Word>>, start: Word, end: Word)
    requires BootFrames(frames)
    ensures Inv(Boot(frames, start, end).mem, {})
  {
    var m := Boot(frames, start, end).mem;
    forall k: nat | FIRST_TABLE <= k < ENTRIES ensures m.Dir(k) == 0 { assert frames[0][k] == KernelDir(k); }
    assert forall o, f: nat :: !Owns(m, {}, o, f);
  }

  /** Task 1's table maps low memory only. */
  lemma LinkLowTable(m: Mem, held: set<nat>, f: nat)
    requires m.Shape() && Inv(m, held) && f in held && Managed(f)
    requires !Present(m.Dir(16)) && m.ram[f] == LowTable()
    ensures Inv(m.Poke(0, 16, Entry(f)), held - {f})
  {
    var h' := held - {f};
    var m' := m.Poke(0, 16, Entry(f));
    assert Owns(m, held, Held(f), f);
    assert forall x: nat :: HasTable(m', x) <==> HasTable(m, x) || x == 16;
    forall x: nat | HasTable(m, x) ensures TableFrame(m', x) == TableFrame(m, x) && TableFrame(m, x) != 0 {
      assert Owns(m, held, Table(x), TableFrame(m, x));
    }
    forall x: nat, j: nat | x != 16 ensures HasPage(m', x, j) <==> HasPage(m, x, j) {}
    forall j: nat | HasPage(m', 16, j) ensures PageFrame(m', 16, j) < LOW_FRAMES { assert j < LOW_FRAMES; }
    assert forall o, g: nat ::
      Owns(m', h', o, g) <==> (Owns(m, held, o, g) && o != Held(f)) || (o == Table(16) && g == f);
    forall g: nat | Managed(g) && m'.count[g - LOW_FRAMES] == 1 ensures exists o :: Owns(m', h', o, g) {
      if g == f { assert Owns(m', h', Table(16), f); }
      else { var o :| Owns(m, held, o, g); assert Owns(m', h', o, g); }
    }
  }

  const BOOT_RANK: seq<nat> := seq(NUMBER_OF_TASKS, i => if i == 0 then 0 else if i == 1 then 1 else 2)

  /** The first fork, by task 0: the page of task 1, its table, and the entry in slot 1. */
  lemma FirstForkMemory(m: Mem)
    requires m.Shape() && Inv(m, {}) && forall k: nat :: FIRST_TABLE <= k < ENTRIES ==> m.Dir(k) == 0
    requires Alloc(m).1 != 0 && Alloc(Alloc(m).0).1 != 0
    ensures var (m1, f) := Alloc(m); var (m2, r) := InitTask1(m1);
      && r == Ok && Inv(m2, {f})
      && (forall k: nat :: FIRST_TABLE <= k < ENTRIES ==> (HasTable(m2, k) <==> k == 16))
      && m2.ram[TableFrame(m2, 16)] == LowTable() && Open(m2.Dir(16))
      && (forall e: nat :: e < FIRST_TABLE ==> m2.Dir(e) == m.Dir(e))
  {
    var (m1, f) := Alloc(m);
    AllocKeeps(m, {});
    assert {} + {f} == {f};
    AllocKeeps(m1, {f});
    var (m2, t) := Alloc(m1);
    var h := {f} + {t};
    WriteHeldKeeps(m2, h, t, LowTable());
    var m3 := Mem(m2.count, m2.ram[t := LowTable()]);
    assert forall k: nat :: FIRST_TABLE <= k < ENTRIES ==> m3.Dir(k) == m.Dir(k);
    LinkLowTable(m3, h, t);
    assert h - {t} == {f};
    assert Owns(m3, h, Held(t), t);
    assert forall k: nat :: FIRST_TABLE <= k < ENTRIES && k != 16 ==> m3.Poke(0, 16, Entry(t)).Dir(k) == m.Dir(k);
  }

  /** Slots 2 and up are empty. */
  predicate OnlyTwo(tasks: Slots) {
    |tasks| == NUMBER_OF_TASKS && forall i: nat :: 2 <= i < NUMBER_OF_TASKS ==> tasks[i].None?
  }

  /** The first fork, by task 0, after mem_init: with two free frames it makes task 1 and the
      invariant holds; with one it panics, with none it stores through null. */
  lemma FirstFork(frames: seq<seq<Word>>, start: Word, end: Word)
    requires BootFrames(frames)
    ensures var k0 := Boot(frames, start, end); var (k, r) := CopyProcess(k0, 0);
      && r == (if FreeCount(k0.mem) >= 2 then Child(1) else if FreeCount(k0.mem) == 1 then Stops(Panic) else NullTask)
      && (r == Child(1) ==>
            && KInv(k, BOOT_RANK) && Fixed(k.mem, k.tasks)
            && FreeCount(k.mem) == FreeCount(k0.mem) - 2 && OnlyTwo(k.tasks))
  {
    var k0 := Boot(frames, start, end);
    BootInv(frames, start, end);
    forall k: nat | k < ENTRIES ensures k0.mem.Dir(k) == KernelDir(k) { assert frames[0][k] == KernelDir(k); }
    var (m1, f) := Alloc(k0.mem);
    hide Inv, Alloc, FreeCount;
    AllocFails(k0.mem);
    AllocCost(k0.mem, {});
    AllocFails(m1);
    AllocKeeps(k0.mem, {});
    if f != 0 { AllocCost(m1, {} + {f}); }
    assert FindSlot(k0.tasks, 1) == 1;
    FirstPid(k0.tasks);
    if f != 0 && Alloc(m1).1 != 0 {
      FirstForkMemory(k0.mem);
      hide InitTask1;
      FirstTable(CopyProcess(k0, 0).0, f);
    }
  }

  lemma FirstPid(tasks: Slots)
    requires |tasks| == NUMBER_OF_TASKS && forall i: nat :: Occupied(tasks, i) ==> tasks[i].value.pid == 0
    ensures FindPid(tasks, 0, 0) == 1
  {
    assert !PidUsed(tasks, 1);
  }

  lemma FirstTable(k: Kernel, f: nat)
    requires k.Shape() && Inv(k.mem, {f})
    requires forall x: nat :: FIRST_TABLE <= x < ENTRIES ==> (HasTable(k.mem, x) <==> x == 16)
    requires k.mem.ram[TableFrame(k.mem, 16)] == LowTable() && Open(k.mem.Dir(16))
    requires forall e: nat :: e < FIRST_TABLE ==> k.mem.Dir(e) == KernelDir(e)
    requires k.tasks[0] == Some(TASK0)
    requires k.tasks[1] == Some(ChildOf(TASK0, 1, 1, f).(state := Running))
    requires forall i: nat :: 2 <= i < NUMBER_OF_TASKS ==> k.tasks[i].None?
    ensures KInv(k, BOOT_RANK) && Fixed(k.mem, k.tasks)
  {
    hide Inv;
    assert forall i: nat :: Occupied(k.tasks, i) <==> i == 0 || i == 1;
    assert IsFather(k.tasks, 0, 1);
    assert TaskFrames(k.tasks) == {f} by {
      forall g: nat ensures g in TaskFrames(k.tasks) <==> g == f {
        if g == f { assert Occupied(k.tasks, 1) && k.tasks[1].value.frame == g; }
      }
    }
    assert DirsFor(TASK1_LIMIT) == 1;
    assert Extent(k.tasks, 1) == 1;
    forall j: nat | HasPage(k.mem, 16, j) ensures Open(LowTable()[j]) {
      assert LowTable()[j] == Entry(j);
    }
  }

  // ---- runs ----

  /** fork by a task from 1 on, exit by a task from 2 on, a store by a task from 1 on to word w
      of the page in slot j of directory entry a, and a store by the kernel to word w of frame
      f, in its data in low memory or in the page of a task.  Of what tasks from 1 on do no
      steps are the forks that store through null, the stores to the directory that are not
      harmless, and the exit of task 1, which panics.  What task 0 does after the first fork is
      none: its exit panics, its forks are no clones, and its segment reaches every frame. */
  datatype Step =
    | ForkBy(cur: nat)
    | ExitOf(t: nat, code: int)
    | StoreAt(a: nat, j: nat, w: nat, x: Word)
    | KernelStore(f: nat, w: nat, x: Word)

  /** fork by the task in slot cur makes k' of k and returns r. */
  ghost predicate Forks(k: Kernel, cur: nat, k': Kernel, r: ForkResult) {
    && k.Shape() && 1 <= cur && Live(k.tasks, cur) && LimitFits(k.tasks[cur].value.dataLimit)
    && (k', r) == CopyProcess(k, cur)
  }

  /** exit(code) of the task in slot t makes k' of k and ends with r. */
  ghost predicate Exits(k: Kernel, t: nat, code: int, k': Kernel, r: ExitResult) {
    && k.Shape() && Live(k.tasks, t)
    && LimitFits(k.tasks[t].value.codeLimit) && LimitFits(k.tasks[t].value.dataLimit)
    && (k', r) == DoExit(k, t, code)
  }

  /** A page of a task from 2 on, in slot j of directory entry a. */
  ghost predicate TaskPage(m: Mem, a: nat, j: nat)
    requires m.Shape()
  {
    FIRST_CLONE <= a && HasPage(m, a, j)
  }

  /** A task stores x in one of its pages. */
  ghost predicate Stores(k: Kernel, a: nat, j: nat, w: nat, x: Word, k': Kernel) {
    && k.Shape() && HasPage(k.mem, a, j) && PageFrame(k.mem, a, j) < RAM_FRAMES && w < ENTRIES
    && k' == Kernel(k.mem.Poke(PageFrame(k.mem, a, j), w, x), k.tasks, k.lastPid)
  }

  /** Task 1 maps the directory too: frame 0.  The store does not move a table by that way. */
  ghost predicate Tame(m: Mem, a: nat, j: nat, w: nat, x: Word)
    requires m.Shape() && HasPage(m, a, j) && w < ENTRIES
  {
    PageFrame(m, a, j) == 0 ==> Harmless(m, w, x)
  }

  /** The kernel stores x in low memory, above the directory, or in the page of a task. */
  ghost predicate KernelStores(k: Kernel, f: nat, w: nat, x: Word, k': Kernel) {
    && k.Shape() && (0 < f < LOW_FRAMES || f in TaskFrames(k.tasks)) && f < RAM_FRAMES && w < ENTRIES
    && k' == Kernel(k.mem.Poke(f, w, x), k.tasks, k.lastPid)
  }

  ghost predicate Steps(k: Kernel, s: Step, k': Kernel) {
    match s
    case ForkBy(cur) => k.Shape() && CanTakePage(k) && exists r :: Forks(k, cur, k', r)
    case ExitOf(t, code) => 2 <= t && exists r :: Exits(k, t, code, k', r)
    case StoreAt(a, j, w, x) => Stores(k, a, j, w, x, k') && Tame(k.mem, a, j, w, x)
    case KernelStore(f, w, x) => KernelStores(k, f, w, x, k')
  }

  /** A run: ks[i + 1] is ks[i] after steps[i]. */
  ghost predicate IsRun(ks: seq<Kernel>, steps: seq<Step>) {
    |ks| == |steps| + 1 && forall i :: 0 <= i < |steps| ==> Steps(ks[i], steps[i], ks[i + 1])
  }

  lemma StepKeeps(k: Kernel, rank: seq<nat>, s: Step, k': Kernel) returns (rank': seq<nat>)
    requires KInv(k, rank) && Fixed(k.mem, k.tasks) && Steps(k, s, k')
    ensures KInv(k', rank') && Fixed(k'.mem, k'.tasks)
  {
    hide KInv, Fixed, CopyProcess, DoExit, CanTakePage, Harmless;
    match s
    case ForkBy(cur) =>
      rank' := ForkKeeps(k, rank, cur);
      ForkFixes(k, rank, cur);
    case ExitOf(t, code) =>
      rank' := rank;
      ExitExactly(k, rank, t, code);
    case StoreAt(a, j, w, x) =>
      rank' := rank;
      assert Inv(k.mem, TaskFrames(k.tasks)) by { InvOf(k, rank); }
      hide Inv;
      PageIsNoTable(k.mem, TaskFrames(k.tasks), a, j);
      StoreKeeps(k, rank, PageFrame(k.mem, a, j), w, x);
    case KernelStore(f, w, x) =>
      rank' := rank;
      KernelStoreIsApart(k, rank, f, w, x, k');
      StoreKeeps(k, rank, f, w, x);
  }

  lemma InvOf(k: Kernel, rank: seq<nat>)
    requires KInv(k, rank)
    ensures Inv(k.mem, TaskFrames(k.tasks))
  {
  }

  /** Neither the kernel's data nor a task's own page is the directory, a table, or a page of a
      task >= 2. */
  lemma KernelStoreIsApart(k: Kernel, rank: seq<nat>, f: nat, w: nat, x: Word, k': Kernel)
    requires KInv(k, rank) && KernelStores(k, f, w, x, k')
    ensures f != 0 && forall e: nat :: HasTable(k.mem, e) ==> TableFrame(k.mem, e) != f
    ensures forall b: nat, i: nat :: b >= FIRST_CLONE && HasPage(k.mem, b, i) ==> PageFrame(k.mem, b, i) != f
  {
    hide Inv, TableOk, LayoutOk;
    var held := TaskFrames(k.tasks);
    if f in held { HeldIsNoTable(k.mem, held, f); } else { LowIsNoTable(k.mem, held, f); }
  }

  /** A store to a frame that is no table, and to the directory only if it is harmless. */
  lemma StoreKeeps(k: Kernel, rank: seq<nat>, f: nat, w: nat, x: Word)
    requires KInv(k, rank) && f < RAM_FRAMES && w < ENTRIES
    requires forall e: nat :: HasTable(k.mem, e) ==> TableFrame(k.mem, e) != f
    requires f == 0 ==> Harmless(k.mem, w, x)
    ensures var m' := k.mem.Poke(f, w, x);
      && KInv(Kernel(m', k.tasks, k.lastPid), rank) && SameTables(k.mem, m')
      && (Fixed(k.mem, k.tasks) ==> Fixed(m', k.tasks))
  {
    hide Inv, LimitsOk, PidsOk, FramesOk, TreeOk;
    var m', held := k.mem.Poke(f, w, x), TaskFrames(k.tasks);
    if f == 0 {
      DirectoryStore(k.mem, held, w, x);
    } else {
      WriteKeeps(k.mem, held, f, k.mem.ram[f][w := x]);
      assert forall e: nat :: e < ENTRIES ==> m'.Dir(e) == k.mem.Dir(e);
    }
    SameTablesThere(k.mem, m');
    SameTablesSameLayout(k.mem, m', k.tasks);
    if Fixed(k.mem, k.tasks) { SameTablesFixed(k.mem, m', k.tasks); }
  }

  lemma SameWayTransitive(x: Word, y: Word, z: Word)
    requires SameWay(x, y) && SameWay(y, z)
    ensures SameWay(x, z)
  {
  }

  lemma SameWayOpen(x: Word, y: Word)
    requires SameWay(x, y) && Open(y)
    ensures Open(x)
  {
    LowBitsOf32(x as int);
    LowBitsOf32(y as int);
    PresentIfOpen(y);
  }

  lemma PresentIfOpen(y: Word)
    requires Open(y)
    ensures Present(y)
  {
    LowBits(y as int / 8, 7);
    assert y as int == 8 * (y as int / 8) + 7;
  }

  lemma SameTablesOpen(m: Mem, m': Mem)
    requires m.Shape() && m'.Shape() && SameTables(m, m') && AllOpen(m)
    requires forall e: nat :: HasTable(m, e) ==> m'.ram[TableFrame(m, e)] == m.ram[TableFrame(m, e)]
    ensures AllOpen(m')
  {
    hide SameWay, Open;
    SameTablesThere(m, m');
    forall e: nat | HasTable(m', e) ensures Open(m'.Dir(e)) { SameWayOpen(m'.Dir(e), m.Dir(e)); }
    assert forall k: nat, j: nat :: HasPage(m', k, j) ==> HasPage(m, k, j);
  }

  lemma SameTablesFixed(m: Mem, m': Mem, tasks: Slots)
    requires m.Shape() && m'.Shape() && SameTables(m, m') && Fixed(m, tasks)
    requires forall e: nat :: HasTable(m, e) ==> m'.ram[TableFrame(m, e)] == m.ram[TableFrame(m, e)]
    ensures Fixed(m', tasks)
  {
    hide SameWay;
    SameTablesThere(m, m');
    forall e: nat | e < FIRST_TABLE ensures SameWay(m'.Dir(e), KernelDir(e)) {
      SameWayTransitive(m'.Dir(e), m.Dir(e), KernelDir(e));
    }
    SameTablesOpen(m, m');
  }

  lemma SameTablesSameLayout(m: Mem, m': Mem, tasks: Slots)
    requires m.Shape() && m'.Shape() && SameTables(m, m')
    ensures LayoutOk(m, tasks) <==> LayoutOk(m', tasks)
  {
    SameTablesThere(m, m');
  }

  /** The exact condition for task 1's stores to the directory: such a store keeps the
      invariant and every mapping, the kernel's own included, if and only if it is harmless. */
  lemma DirectoryStoreExactly(k: Kernel, w: nat, x: Word)
    requires Reachable(k) && w < ENTRIES
    ensures var k' := Kernel(k.mem.Poke(0, w, x), k.tasks, k.lastPid);
      (exists rank :: KInv(k', rank)) && SameTables(k.mem, k'.mem) <==> Harmless(k.mem, w, x)
  {
    hide Inv, LimitsOk, PidsOk, FramesOk, TreeOk, LayoutOk;
    var rank := ReachableKeeps(k);
    var held, m' := TaskFrames(k.tasks), k.mem.Poke(0, w, x);
    DirectoryStore(k.mem, held, w, x);
    if Harmless(k.mem, w, x) {
      LowIsNoTable(k.mem, held, 0);
      StoreKeeps(k, rank, 0, w, x);
    }
  }

  /** The invariant holds at the end of every run that starts with it. */
  lemma {:induction false} RunKeeps(ks: seq<Kernel>, steps: seq<Step>, rank: seq<nat>) returns (rank': seq<nat>)
    requires IsRun(ks, steps) && KInv(ks[0], rank) && Fixed(ks[0].mem, ks[0].tasks)
    ensures KInv(ks[|steps|], rank') && Fixed(ks[|steps|].mem, ks[|steps|].tasks)
    decreases |steps|
  {
    hide KInv, Steps;
    if |steps| == 0 {
      rank' := rank;
    } else {
      var n := |steps| - 1;
      var r := RunKeeps(ks[..n + 1], steps[..n], rank);
      assert Steps(ks[n], steps[n], ks[n + 1]);
      rank' := StepKeeps(ks[n], r, steps[n], ks[n + 1]);
    }
  }

  /** A state some run from boot reaches. */
  ghost predicate Reachable(k: Kernel) {
    k.Shape() && exists frames, start, end, ks, steps :: FromBoot(frames, start, end, ks, steps) && k == ks[|steps|]
  }

  ghost predicate FromBoot(frames: seq<seq<Word>>, start: Word, end: Word, ks: seq<Kernel>, steps: seq<Step>) {
    && BootFrames(frames)
    && FreeCount(Boot(frames, start, end).mem) >= 2
    && IsRun(ks, steps) && ks[0] == CopyProcess(Boot(frames, start, end), 0).0
  }

  lemma ReachableKeeps(k: Kernel) returns (rank: seq<nat>)
    requires Reachable(k)
    ensures KInv(k, rank) && Fixed(k.mem, k.tasks)
  {
    var frames, start, end, ks, steps :| FromBoot(frames, start, end, ks, steps) && k == ks[|steps|];
    FirstFork(frames, start, end);
    rank := RunKeeps(ks, steps, BOOT_RANK);
  }

  // ---- what holds in every reachable state ----

  /** No managed frame is in two places: a page is mapped once, is no page table, and is no
      task's own page; page tables and task pages are not shared either. */
  lemma NothingIsShared(k: Kernel, a: nat, i: nat, b: nat, j: nat)
    requires Reachable(k)
    ensures TaskPage(k.mem, a, i) && TaskPage(k.mem, b, j) ==>
      PageFrame(k.mem, a, i) != PageFrame(k.mem, b, j) || (a == b && i == j)
    ensures HasTable(k.mem, a) && HasTable(k.mem, b) && TableFrame(k.mem, a) == TableFrame(k.mem, b) ==> a == b
    ensures TaskPage(k.mem, a, i) && HasTable(k.mem, b) ==> PageFrame(k.mem, a, i) != TableFrame(k.mem, b)
    ensures TaskPage(k.mem, a, i) ==> PageFrame(k.mem, a, i) !in TaskFrames(k.tasks)
    ensures HasTable(k.mem, a) ==> TableFrame(k.mem, a) !in TaskFrames(k.tasks)
  {
    var rank := ReachableKeeps(k);
    hide Inv, FramesOk, PidsOk, TreeOk, LayoutOk;
    var m, held := k.mem, TaskFrames(k.tasks);
    if TaskPage(m, a, i) {
      var f := PageFrame(m, a, i);
      if TaskPage(m, b, j) && PageFrame(m, b, j) == f { OneOwner(m, held, Page(a, i), Page(b, j), f); }
      if HasTable(m, b) && TableFrame(m, b) == f { OneOwner(m, held, Page(a, i), Table(b), f); }
      if f in held { OneOwner(m, held, Page(a, i), Held(f), f); }
    }
    if HasTable(m, a) {
      var f := TableFrame(m, a);
      if HasTable(m, b) && TableFrame(m, b) == f { OneOwner(m, held, Table(a), Table(b), f); }
      if f in held { OneOwner(m, held, Table(a), Held(f), f); }
    }
  }

  /** What a task stores is private: all mappings stay, and so do the words of every page that
      any task maps, but for the frame stored to, which no other task maps. */
  lemma StoresArePrivate(k: Kernel, a: nat, j: nat, w: nat, x: Word, k': Kernel, b: nat, i: nat)
    requires Reachable(k) && Stores(k, a, j, w, x, k') && Tame(k.mem, a, j, w, x) && HasPage(k.mem, b, i)
    ensures k'.Shape() && HasPage(k'.mem, b, i) && PageFrame(k'.mem, b, i) == PageFrame(k.mem, b, i) < RAM_FRAMES
    ensures var f, g := PageFrame(k.mem, a, j), PageFrame(k.mem, b, i);
      && k'.mem.ram[g] == (if g == f then k.mem.ram[g][w := x] else k.mem.ram[g])
      && (g == f ==> (b == a && i == j) || (a < FIRST_CLONE && b < FIRST_CLONE))
  {
    hide Inv, TableOk, LayoutOk, Harmless, SameTables, Fixed, Reachable;
    var rank := ReachableKeeps(k);
    var held := TaskFrames(k.tasks);
    PageIsNoTable(k.mem, held, a, j);
    PageIsNoTable(k.mem, held, b, i);
    StoreKeeps(k, rank, PageFrame(k.mem, a, j), w, x);
    PageStays(k.mem, PageFrame(k.mem, a, j), w, x, b, i);
  }

  lemma PageStays(m: Mem, f: nat, w: nat, x: Word, b: nat, i: nat)
    requires m.Shape() && f < RAM_FRAMES && w < ENTRIES && SameTables(m, m.Poke(f, w, x)) && HasPage(m, b, i)
    requires forall e: nat :: HasTable(m, e) ==> TableFrame(m, e) != f
    ensures HasPage(m.Poke(f, w, x), b, i) && PageFrame(m.Poke(f, w, x), b, i) == PageFrame(m, b, i)
  {
    hide SameTables;
    SameTablesThere(m, m.Poke(f, w, x));
  }

  /** What the kernel stores in its data or in a task's own page changes no page of a task >= 2. */
  lemma KernelStoresArePrivate(k: Kernel, f: nat, w: nat, x: Word, k': Kernel, b: nat, i: nat)
    requires Reachable(k) && KernelStores(k, f, w, x, k') && TaskPage(k.mem, b, i)
    ensures k'.Shape() && HasPage(k'.mem, b, i) && PageFrame(k'.mem, b, i) == PageFrame(k.mem, b, i) < RAM_FRAMES
    ensures k'.mem.ram[PageFrame(k.mem, b, i)] == k.mem.ram[PageFrame(k.mem, b, i)]
  {
    hide Inv, TableOk, LayoutOk, Harmless, SameTables, Fixed, Reachable;
    var rank := ReachableKeeps(k);
    KernelStoreIsApart(k, rank, f, w, x, k');
    PageIsNoTable(k.mem, TaskFrames(k.tasks), b, i);
    StoreKeeps(k, rank, f, w, x);
    PageStays(k.mem, f, w, x, b, i);
  }

  /** A task can read and write what it maps: in every reachable state the directory word and the
      table word of each page are present, writable and open to user mode. */
  lemma PagesAreUsable(k: Kernel, a: nat, j: nat)
    requires Reachable(k) && HasPage(k.mem, a, j)
    ensures k.mem.Dir(a) as int % 8 == 7 && k.mem.ram[TableFrame(k.mem, a)][j] as int % 8 == 7
  {
    hide KInv;
    var rank := ReachableKeeps(k);
  }

  /** What the kernel and task 1 map never changes, in numbers: the kernel's directory words 0 to 3
      map 4 MB each, from address 0 on and open to user mode, and words 4 to 15 nothing; task 1
      maps the first megabyte to itself, page for page, and no more. */
  lemma LowMemoryStaysMapped(k: Kernel, e: nat, j: nat)
    requires Reachable(k) && e < 16 && j < ENTRIES
    ensures e < 4 ==> k.mem.Dir(e) as int / 4096 == 1024 * e && k.mem.Dir(e) as int % 32 == 7
                      && k.mem.Dir(e) as int / 128 % 2 == 1
    ensures e >= 4 ==> k.mem.Dir(e) as int % 2 == 0
    ensures HasPage(k.mem, 16, j) <==> j < 256
    ensures j < 256 ==> k.mem.ram[TableFrame(k.mem, 16)][j] as int == 4096 * j + 7
  {
    hide Inv, TableOk, LayoutOk, TaskFrames;
    var rank := ReachableKeeps(k);
    assert SameWay(k.mem.Dir(e), KernelDir(e));
    assert HasTable(k.mem, 16) && k.mem.ram[TableFrame(k.mem, 16)] == LowTable();
    if j < 256 { EntryIs(j); }
  }

  lemma EntryIs(j: nat)
    requires j < 256
    ensures Entry(j) as int == 4096 * j + 7
  {
  }

  /** mem_map counts owners: 1 for a frame with its one owner, and never more than one; a
      frame without owner has 0, or NOT_EXIST if it is not there. */
  lemma CountsAreOwners(k: Kernel, f: nat)
    requires Reachable(k) && Managed(f)
    ensures var c := k.mem.count[f - LOW_FRAMES]; var held := TaskFrames(k.tasks);
      && (c == 0 || c == 1 || c == NOT_EXIST)
      && (c == 1 <==> exists o :: Owns(k.mem, held, o, f))
      && forall o1, o2 :: Owns(k.mem, held, o1, f) && Owns(k.mem, held, o2, f) ==> o1 == o2
  {
    var rank := ReachableKeeps(k);
  }

  /** All pids are distinct, and every task of slot 1 and up has a father in the table. */
  lemma PidsAreDistinct(k: Kernel, i: nat, j: nat)
    requires Reachable(k) && Occupied(k.tasks, i) && Occupied(k.tasks, j)
    ensures k.tasks[i].value.pid == k.tasks[j].value.pid ==> i == j
    ensures i >= 1 ==> PidUsed(k.tasks, k.tasks[i].value.father)
  {
    var rank := ReachableKeeps(k);
    if i >= 1 {
      var x: nat :| IsFather(k.tasks, x, i) && rank[x] < rank[i];
      assert Occupied(k.tasks, x);
    }
  }

  /** A chain of fathers from slot path[0] to task 0. */
  ghost predicate IsAncestry(tasks: Slots, path: seq<nat>) {
    && |path| > 0 && path[|path| - 1] == 0
    && forall x :: 0 <= x < |path| - 1 ==> IsFather(tasks, path[x + 1], path[x])
  }

  /** The father links form a tree rooted at task 0: from every task they lead there. */
  lemma AllDescendFromTask0(k: Kernel, i: nat) returns (path: seq<nat>)
    requires Reachable(k) && Occupied(k.tasks, i)
    ensures IsAncestry(k.tasks, path) && path[0] == i
  {
    var rank := ReachableKeeps(k);
    path := Ancestry(k.tasks, rank, i);
  }

  lemma {:induction false} Ancestry(tasks: Slots, rank: seq<nat>, i: nat) returns (path: seq<nat>)
    requires |tasks| == NUMBER_OF_TASKS && TreeOk(tasks, rank) && Occupied(tasks, i)
    ensures IsAncestry(tasks, path) && path[0] == i
    decreases rank[i]
  {
    if i == 0 {
      path := [0];
    } else {
      var j: nat :| IsFather(tasks, j, i) && rank[j] < rank[i];
      var rest := Ancestry(tasks, rank, j);
      path := [i] + rest;
    }
  }

  /** A live task can always fork and exit, as far as its segment limits go. */
  lemma LimitsAlwaysFit(k: Kernel, t: nat)
    requires Reachable(k) && Live(k.tasks, t)
    ensures LimitFits(k.tasks[t].value.codeLimit) && LimitFits(k.tasks[t].value.dataLimit)
  {
    var rank := ReachableKeeps(k);
  }

  /** exit panics if and only if task 0 or task 1 calls it; every other finds its father, and the
      table is then what AfterExit says, slot by slot. */
  lemma ExitFindsFather(k: Kernel, t: nat, code: int, k': Kernel, r: ExitResult)
    requires Reachable(k) && Exits(k, t, code, k', r)
    ensures r == if t < 2 then Halted(Panic) else Told
    ensures r == Told ==>
      && SameSlots(k.tasks, k'.tasks)
      && forall x: nat :: Occupied(k.tasks, x) ==> k'.tasks[x].value == AfterExit(k.tasks, t, code, x)
  {
    hide KInv, Fixed, DoExit;
    var rank := ReachableKeeps(k);
    ExitExactly(k, rank, t, code);
  }

  /** Tasks 0 and 1 are alive in every reachable state: both panics can happen in each. */
  lemma TwoExitsPanic(k: Kernel, t: nat, code: int)
    requires Reachable(k) && t < 2
    ensures exists k' :: Exits(k, t, code, k', Halted(Panic))
  {
    hide KInv, DoExit;
    var rank := ReachableKeeps(k);
    ExitPanics(k, t, code);
    assert Exits(k, t, code, DoExit(k, t, code).0, Halted(Panic));
  }

  /** fork never panics; it gives a child or -EAGAIN if and only if no slot or some frame is
      free, and else it stores through null. */
  lemma ForkNeverPanics(k: Kernel, cur: nat, k': Kernel, r: ForkResult)
    requires Reachable(k) && Forks(k, cur, k', r)
    ensures !r.Stops? && (r.Child? || r == Again <==> CanTakePage(k)) && (r == NullTask <==> !CanTakePage(k))
  {
    var rank := ReachableKeeps(k);
    hide KInv, CanTakePage;
    ForkKeepsMemory(k, rank, cur);
  }

  // ---- inputs that fail ----

  function KernelDirs(): (d: seq<Word>)
    ensures |d| == ENTRIES && forall e :: 0 <= e < ENTRIES ==> d[e] == KernelDir(e)
  {
    seq(ENTRIES, e requires 0 <= e => KernelDir(e))
  }

  /** Memory that is all zero but for the directory, with two frames above 1 MB. */
  ghost function SmallFrames(): (frames: seq<seq<Word>>)
    ensures BootFrames(frames)
  {
    seq(RAM_FRAMES, _ => Zeros())[0 := KernelDirs()]
  }

  const SMALL_END: Word := 0x10_2000

  /** Right after the first fork. */
  lemma SmallBoot() returns (k: Kernel)
    ensures Reachable(k) && KInv(k, BOOT_RANK) && Fixed(k.mem, k.tasks) && FreeCount(k.mem) == 0 && OnlyTwo(k.tasks)
  {
    hide KInv, CopyProcess;
    hide SmallFrames;
    var k0 := Boot(SmallFrames(), 0x10_0000, SMALL_END);
    SmallCount();
    FirstFork(SmallFrames(), 0x10_0000, SMALL_END);
    k := CopyProcess(k0, 0).0;
    assert FromBoot(SmallFrames(), 0x10_0000, SMALL_END, [k], []);
  }

  lemma SmallCount()
    ensures FreeFrom(InitialCount(0x10_0000, SMALL_END), 0) == 2
  {
    var c := InitialCount(0x10_0000, SMALL_END);
    assert MapIndex(0x10_0000) == 0 && MapIndex(SMALL_END) == 2;
    assert forall i :: 0 <= i < PAGING_PAGES ==> c[i] == if i < 2 then 0 else NOT_EXIST;
    FreeFromNone(c, 2);
  }

  /** A fork that fails: two frames of memory, and task 1 forks.  The state is reachable, a
      slot is free, no frame is. */
  lemma NullTaskHappens() returns (k: Kernel, k': Kernel)
    ensures Reachable(k) && Forks(k, 1, k', NullTask)
  {
    k := SmallBoot();
    assert k.tasks[2].None?;
    ForkKeepsMemory(k, BOOT_RANK, 1);
    k' := CopyProcess(k, 1).0;
  }

  /** Two stores of task 1 that fail: it clears the directory word of its own table, which it
      maps at address 16 * 4, and has no memory any more; or it clears word 0, and the kernel
      has none in its first 4 MB. */
  lemma DirectoryStoreHappens() returns (k: Kernel, k': Kernel, k'': Kernel)
    ensures Reachable(k) && Live(k.tasks, 1) && Stores(k, 16, 0, 16, 0, k') && Stores(k, 16, 0, 0, 0, k'')
    ensures HasTable(k.mem, 16) && !HasTable(k'.mem, 16)
    ensures Present(k.mem.Dir(0)) && !Present(k''.mem.Dir(0)) && !Harmless(k.mem, 0, 0)
  {
    k := SmallBoot();
    var t := TableFrame(k.mem, 16);
    assert k.mem.ram[t][0] == Entry(0) && SameWay(k.mem.Dir(0), KernelDir(0));
    k' := Kernel(k.mem.Poke(0, 16, 0), k.tasks, k.lastPid);
    k'' := Kernel(k.mem.Poke(0, 0, 0), k.tasks, k.lastPid);
  }
}
