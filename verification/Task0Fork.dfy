/** A fork by task 0 after the first one (kernel/fork.c:44-49, mm/memory.c:156-199).  Task 0
    reaches its memory through the 4 MB pages of the kernel, and copy_page_tables takes the
    directory words of those for tables. */
module Task0Fork {
  import opened Paging
  import opened Ownership
  import opened CloneCost
  import opened Tasks
  import opened Fork
  import opened ForkInv
  import opened ForkFixed
  import opened ForkRuns

  /** Frames in use keep their words, but for those in `but`, and stay in use. */
  ghost predicate UsedStay(m: Mem, m': Mem, but: set<nat>)
    requires m.Shape() && m'.Shape()
  {
    forall f: nat :: f < RAM_FRAMES && m.Used(f) ==> m'.Used(f) && (f !in but ==> m'.ram[f] == m.ram[f])
  }

  lemma AllocStays(m: Mem)
    requires m.Shape()
    ensures UsedStay(m, Alloc(m).0, {})
    ensures var (m', f) := Alloc(m); f != 0 ==> !m.Used(f) && m'.Used(f) && m'.ram[f] == Zeros() && f >= LOW_FRAMES
  {
  }

  lemma {:induction false} CopySlotsStays(m: Mem, s: nat, t: nat, j: nat)
    requires m.Shape() && s < RAM_FRAMES && t < RAM_FRAMES && j <= ENTRIES && m.Used(t)
    ensures var m' := CopySlots(m, s, t, j).0; UsedStay(m, m', {t})
    decreases ENTRIES - j
  {
    if j < ENTRIES {
      AllocStays(m);
      var (m1, r) := CopySlot(m, s, t, j);
      hide CopySlot;
      assert UsedStay(m, m1, {t}) by { CopySlotStays(m, s, t, j); }
      if r == Ok { CopySlotsStays(m1, s, t, j + 1); }
    }
  }

  lemma CopySlotStays(m: Mem, s: nat, t: nat, j: nat)
    requires m.Shape() && s < RAM_FRAMES && t < RAM_FRAMES && j < ENTRIES && m.Used(t)
    ensures UsedStay(m, CopySlot(m, s, t, j).0, {t})
  {
    AllocStays(m);
  }

  /** A slot that is absent in the source stays as it is in the table copied into. */
  lemma {:induction false} AbsentSlotStays(m: Mem, s: nat, t: nat, j: nat, x: nat)
    requires m.Shape() && s < RAM_FRAMES && t < RAM_FRAMES && s != t && j <= ENTRIES && x < ENTRIES
    requires m.Used(s) && m.Used(t) && !Present(m.ram[s][x])
    ensures CopySlots(m, s, t, j).0.ram[t][x] == m.ram[t][x]
    decreases ENTRIES - j
  {
    if j < ENTRIES {
      AllocStays(m);
      CopySlotStays(m, s, t, j);
      var (m1, r) := CopySlot(m, s, t, j);
      assert m1.ram[t][x] == m.ram[t][x];
      if r == Ok { AbsentSlotStays(m1, s, t, j + 1, x); }
    }
  }

  /** One round of the outer loop, whatever the source is: only the directory word d changes. */
  lemma CopyDirStays(m: Mem, s: nat, d: nat)
    requires m.Shape() && s < ENTRIES && d < ENTRIES
    ensures var m' := CopyDir(m, s, d).0;
      UsedStay(m, m', {0}) && forall e: nat :: e < ENTRIES && e != d ==> m'.Dir(e) == m.Dir(e)
  {
    AllocStays(m);
    var (m1, t) := Alloc(m);
    if t != 0 {
      var m2 := m1.Poke(0, d, Entry(t));
      if FrameOf(m.Dir(s)) < RAM_FRAMES { CopySlotsStays(m2, FrameOf(m.Dir(s)), t, 0); }
    }
  }

  lemma {:induction false} CopyDirsStays(m: Mem, s: nat, d: nat, n: nat)
    requires m.Shape() && s + n <= ENTRIES && d + n <= ENTRIES
    ensures var m' := CopyDirs(m, s, d, n).0;
      UsedStay(m, m', {0}) && forall e: nat :: e < ENTRIES && !(d <= e < d + n) ==> m'.Dir(e) == m.Dir(e)
    decreases n
  {
    hide CopyDir, Mem.Shape;
    if n > 0 {
      CopyDirStays(m, s, d);
      var (m1, r) := CopyDir(m, s, d);
      if r == Ok { CopyDirsStays(m1, s + 1, d + 1, n - 1); }
    }
  }

  /** Copying the kernel's first directory word takes the directory for a table: slot x of the
      copy is absent if directory word x is. */
  lemma DirectoryAsTable(m: Mem, d: nat, x: nat)
    requires m.Shape() && FIRST_TABLE <= d < ENTRIES && x < ENTRIES && x != d
    requires SameWay(m.Dir(0), KernelDir(0)) && !Present(m.Dir(x)) && CopyDir(m, 0, d).1 == Ok
    ensures var m' := CopyDir(m, 0, d).0;
      HasTable(m', d) && !HasPage(m', d, x) && m'.Used(TableFrame(m', d)) && TableFrame(m', d) != 0
  {
    hide Alloc, CopySlots;
    AllocStays(m);
    var (m1, t) := Alloc(m);
    assert m1.ram[0] == m.ram[0];
    var m2 := m1.Poke(0, d, Entry(t));
    assert FrameOf(m.Dir(0)) == 0 && Present(m.Dir(0)) && !Present(m2.ram[0][x]);
    CopySlotsStays(m2, 0, t, 0);
    AbsentSlotStays(m2, 0, t, 0, x);
    assert CopyDir(m, 0, d) == CopySlots(m2, 0, t, 0);
  }

  /** And it stays so while the other words are copied. */
  lemma FirstTableStays(m: Mem, d: nat, n: nat, x: nat)
    requires m.Shape() && 1 <= n <= d && FIRST_TABLE <= d && d + n <= ENTRIES && x < ENTRIES && x != d
    requires SameWay(m.Dir(0), KernelDir(0)) && !Present(m.Dir(x)) && CopyDirs(m, 0, d, n).1 == Ok
    ensures var m' := CopyDirs(m, 0, d, n).0; HasTable(m', d) && !HasPage(m', d, x)
  {
    hide CopyDir;
    var m1 := CopyDir(m, 0, d).0;
    DirectoryAsTable(m, d, x);
    CopyDirsStays(m1, 1, d + 1, n - 1);
    assert CopyDirs(m, 0, d, n) == CopyDirs(m1, 1, d + 1, n - 1);
    hide CopyDirs;
    assert CopyDirs(m1, 1, d + 1, n - 1).0.Dir(d) == m1.Dir(d);
  }

  /** A fork by task 0 after the first one is no clone: task 0 reaches address 0x4000 through a
      4 MB page, and the child has nothing there. */
  lemma Task0IsNotCloned(k: Kernel, rank: seq<nat>)
    requires KInv(k, rank) && Fixed(k.mem, k.tasks)
    ensures LimitFits(k.tasks[0].value.dataLimit)
    ensures var (k', r) := CopyProcess(k, 0); var slot := FindSlot(k.tasks, 1);
      r.Child? ==> slot >= 2 && HasTable(k'.mem, 16 * slot) && !HasPage(k'.mem, 16 * slot, 4)
  {
    hide Inv, LayoutOk, PidsOk, FramesOk, TreeOk, CopyDirs, Alloc;
    var slot := FindSlot(k.tasks, 1);
    AllocStays(k.mem);
    var (m1, f) := Alloc(k.mem);
    if slot != 0 && f != 0 {
      assert slot >= 2;
      BaseDir(slot);
      assert DirsFor(TASK0_LIMIT) == 4 && Base(0) == 0;
      assert m1.Dir(0) == k.mem.Dir(0) && m1.Dir(4) == k.mem.Dir(4);
      assert SameWay(k.mem.Dir(0), KernelDir(0)) && SameWay(k.mem.Dir(4), KernelDir(4));
      if CopyDirs(m1, 0, 16 * slot, 4).1 == Ok { FirstTableStays(m1, 16 * slot, 4, 4); }
    }
  }

  /** A fork by task 0 in a reachable state, if it gives a child at all, gives one without a
      page at address 0x4000, where task 0 has memory. */
  lemma LaterForkOfTask0(k: Kernel)
    requires Reachable(k)
    ensures Live(k.tasks, 0) && LimitFits(k.tasks[0].value.dataLimit)
    ensures var (k', r) := CopyProcess(k, 0); var slot := FindSlot(k.tasks, 1);
      r.Child? ==> slot >= 2 && HasTable(k'.mem, 16 * slot) && !HasPage(k'.mem, 16 * slot, 4)
  {
    hide KInv, CopyProcess;
    var rank := ReachableKeeps(k);
    Task0IsNotCloned(k, rank);
  }

  // ---- it happens ----

  /** get_free_page takes one frame, if there is one. */
  lemma AllocTakesOne(m: Mem)
    requires m.Shape() && FreeCount(m) > 0
    ensures var (m', f) := Alloc(m); f != 0 && FreeCount(m') == FreeCount(m) - 1
  {
    AllocFails(m);
    FreeFromUpdate(m.count, 0, Alloc(m).1 - LOW_FRAMES);
  }

  /** With a frame for each present word, all below 16 MB, the inner loop succeeds. */
  lemma {:induction false} EnoughForSlots(m: Mem, s: nat, t: nat, j: nat)
    requires m.Shape() && s < RAM_FRAMES && t < RAM_FRAMES && s != t && j <= ENTRIES && m.Used(s) && m.Used(t)
    requires forall x :: 0 <= x < ENTRIES && Present(m.ram[s][x]) ==> FrameOf(m.ram[s][x]) < RAM_FRAMES
    requires FreeCount(m) >= PagesFrom(m.ram[s], j)
    ensures var (m', r) := CopySlots(m, s, t, j);
      r == Ok && FreeCount(m') == FreeCount(m) - PagesFrom(m.ram[s], j)
    decreases ENTRIES - j
  {
    if j < ENTRIES {
      CopySlotStays(m, s, t, j);
      if Present(m.ram[s][j]) { AllocTakesOne(m); }
      EnoughForSlots(CopySlot(m, s, t, j).0, s, t, j + 1);
    }
  }

  lemma {:induction false} FewPages(row: seq<Word>, j: nat, hi: nat)
    requires j <= |row| && forall x :: hi <= x < |row| ==> !Present(row[x])
    ensures PagesFrom(row, j) <= if j < hi then hi - j else 0
    decreases |row| - j
  {
    if j < |row| { FewPages(row, j + 1, hi); }
  }

  /** One round of the outer loop, from a table that is in use and has words only below hi. */
  lemma EnoughForDir(m: Mem, s: nat, d: nat, hi: nat)
    requires m.Shape() && s < ENTRIES && FIRST_TABLE <= d < ENTRIES && Present(m.Dir(s)) && !Present(m.Dir(d))
    requires var f := FrameOf(m.Dir(s)); f < RAM_FRAMES && m.Used(f) && WordsBelow(m.ram[f], hi)
    requires d < hi && FreeCount(m) > hi
    ensures var (m', r) := CopyDir(m, s, d); r == Ok && FreeCount(m') >= FreeCount(m) - 1 - hi
  {
    AllocStays(m);
    AllocTakesOne(m);
    var f := FrameOf(m.Dir(s));
    var (m1, t) := Alloc(m);
    var m2 := m1.Poke(0, d, Entry(t));
    assert WordsBelow(m2.ram[f], hi) && m2.Used(f) && m2.Used(t) && FreeCount(m2) == FreeCount(m1);
    hide Alloc;
    FewPages(m2.ram[f], 0, hi);
    EnoughForSlots(m2, f, t, 0);
  }

  /** Present words lie below hi, and name frames below 16 MB. */
  ghost predicate WordsBelow(row: seq<Word>, hi: nat) {
    forall x :: 0 <= x < |row| && Present(row[x]) ==> x < hi && FrameOf(row[x]) < RAM_FRAMES
  }

  /** The frames that the kernel's words name, apart from the directory: taken for tables they
      are empty. */
  ghost predicate EmptyAbove(m: Mem)
    requires m.Shape()
  {
    forall e: nat :: 1 <= e < 4 ==> m.Used(1024 * e) && m.ram[1024 * e] == Zeros()
  }

  /** The four rounds. */
  lemma {:induction false} EnoughForKernel(m: Mem, s: nat, hi: nat)
    requires m.Shape() && s <= 4 && (forall e: nat :: e < 4 ==> SameWay(m.Dir(e), KernelDir(e))) && EmptyAbove(m)
    requires WordsBelow(m.ram[0], hi) && 36 <= hi <= 64 && FreeCount(m) > 65 * (4 - s)
    requires forall e: nat :: 32 + s <= e < 36 ==> !Present(m.Dir(e))
    ensures CopyDirs(m, s, 32 + s, 4 - s).1 == Ok
    decreases 4 - s
  {
    hide CopyDir, SameWay, KernelDir, WordsBelow, FreeCount, EmptyAbove, UsedStay;
    if s < 4 {
      KernelFrame(m, s);
      ZerosBelow(m, s, hi);
      EnoughForDir(m, s, 32 + s, hi);
      CopyDirStays(m, s, 32 + s);
      DirWordStays(m, s, 32 + s, hi);
      var m1 := CopyDir(m, s, 32 + s).0;
      EmptyStays(m, m1);
      EnoughForKernel(m1, s + 1, hi);
    }
  }

  lemma ZerosBelow(m: Mem, s: nat, hi: nat)
    requires m.Shape() && s < 4 && EmptyAbove(m) && WordsBelow(m.ram[0], hi)
    ensures WordsBelow(m.ram[1024 * s], hi)
  {
  }

  lemma EmptyStays(m: Mem, m': Mem)
    requires m.Shape() && m'.Shape() && EmptyAbove(m) && UsedStay(m, m', {0})
    ensures EmptyAbove(m')
  {
  }

  lemma KernelFrame(m: Mem, s: nat)
    requires m.Shape() && s < 4 && SameWay(m.Dir(s), KernelDir(s)) && EmptyAbove(m)
    ensures Present(m.Dir(s)) && FrameOf(m.Dir(s)) == 1024 * s && m.Used(1024 * s)
    ensures s > 0 ==> m.ram[1024 * s] == Zeros()
  {
  }

  /** The new directory word names a frame below 16 MB. */
  lemma DirWordStays(m: Mem, s: nat, d: nat, hi: nat)
    requires m.Shape() && s < ENTRIES && d < ENTRIES && d < hi && WordsBelow(m.ram[0], hi)
    requires CopyDir(m, s, d).1 == Ok
    ensures WordsBelow(CopyDir(m, s, d).0.ram[0], hi)
  {
    CopyDirStays(m, s, d);
    AllocStays(m);
    var (m1, t) := Alloc(m);
    var m2 := m1.Poke(0, d, Entry(t));
    CopySlotsStays(m2, FrameOf(m.Dir(s)), t, 0);
    var row, row' := m.ram[0], CopyDir(m, s, d).0.ram[0];
    assert row' == row[d := Entry(t)];
  }

  lemma {:induction false} FreeAtLeast(count: seq<nat>, i: nat, n: nat)
    requires i + n <= |count| && forall x :: i <= x < i + n ==> count[x] == 0
    ensures FreeFrom(count, i) >= n
    decreases n
  {
    if n > 0 { FreeAtLeast(count, i + 1, n - 1); }
  }

  const ROOMY_END: Word := 0x40_0000

  /** 3 MB of managed memory, up to 4 MB, and the first fork. */
  lemma RoomyBoot() returns (k: Kernel)
    ensures Reachable(k) && KInv(k, BOOT_RANK) && Fixed(k.mem, k.tasks) && OnlyTwo(k.tasks)
    ensures FreeCount(k.mem) >= 700 && EmptyAbove(k.mem)
  {
    hide KInv, Fixed;
    var k0 := Boot(SmallFrames(), 0x10_0000, ROOMY_END);
    var c := InitialCount(0x10_0000, ROOMY_END);
    assert MapIndex(0x10_0000) == 0 && MapIndex(ROOMY_END) == 768;
    FreeAtLeast(c, 0, 768);
    FirstFork(SmallFrames(), 0x10_0000, ROOMY_END);
    k := CopyProcess(k0, 0).0;
    FirstForkStays(k0);
    assert EmptyAbove(k0.mem);
    assert FromBoot(SmallFrames(), 0x10_0000, ROOMY_END, [k], []);
  }

  lemma FirstForkStays(k: Kernel)
    requires k.Shape() && FindSlot(k.tasks, 1) == 1 && Occupied(k.tasks, 0) && LimitFits(k.tasks[0].value.dataLimit)
    requires CopyProcess(k, 0).1.Child?
    ensures UsedStay(k.mem, CopyProcess(k, 0).0.mem, {0})
  {
    AllocStays(k.mem);
    var m1 := Alloc(k.mem).0;
    AllocStays(m1);
  }

  /** A reachable state in which task 0 forks and gets a child, that is no clone. */
  lemma LaterForkHappens() returns (k: Kernel, k': Kernel, pid: int)
    ensures Reachable(k) && Live(k.tasks, 0) && LimitFits(k.tasks[0].value.dataLimit)
    ensures CopyProcess(k, 0) == (k', Child(pid)) && !HasPage(k'.mem, 16 * FindSlot(k.tasks, 1), 4)
  {
    k := RoomyBoot();
    hide KInv, Alloc, CopyMem, FreeCount, EmptyAbove;
    LaterForkOfTask0(k);
    k' := CopyProcess(k, 0).0;
    pid := FindPid(k.tasks, k.lastPid, 0);
    AllocTakesOne(k.mem);
    RoomyCopy(k, 2, TASK0_LIMIT);
    assert FindSlot(k.tasks, 1) == 2;
  }

  /** copy_mem for it, after the task page has been taken. */
  lemma RoomyCopy(k: Kernel, slot: nat, limit: nat)
    requires KInv(k, BOOT_RANK) && Fixed(k.mem, k.tasks) && OnlyTwo(k.tasks)
    requires FreeCount(k.mem) >= 700 && EmptyAbove(k.mem) && slot == 2 && limit == TASK0_LIMIT
    ensures LimitFits(limit) && CopyMem(Alloc(k.mem).0, slot, 0, limit, limit).1 == Ok
  {
    hide KInv, Alloc, FreeCount, WordsBelow, CopyDirs, CopyMem, Fixed, SameWay, EmptyAbove;
    ShapeOf(k, BOOT_RANK);
    RoomyDirectory(k);
    AllocTakesOne(k.mem);
    var m1 := Alloc(k.mem).0;
    SameDirectory(k.mem);
    assert forall e: nat :: e < ENTRIES ==> m1.Dir(e) == k.mem.Dir(e);
    EnoughForKernel(m1, 0, 36);
    assert DirsFor(limit) == 4;
    CopyMemIs(m1, slot, limit);
  }

  lemma SameDirectory(m: Mem)
    requires m.Shape() && EmptyAbove(m)
    ensures Alloc(m).0.ram[0] == m.ram[0] && EmptyAbove(Alloc(m).0)
  {
    AllocStays(m);
    hide Alloc;
  }

  lemma CopyMemIs(m: Mem, slot: nat, limit: nat)
    requires m.Shape() && 2 <= slot < NUMBER_OF_TASKS && LimitFits(limit)
    requires CopyDirs(m, 0, 16 * slot, DirsFor(limit)).1 == Ok
    ensures CopyMem(m, slot, 0, limit, limit).1 == Ok
  {
    hide CopyDirs, FreePageTables;
    BaseDir(slot);
  }

  lemma RoomyDirectory(k: Kernel)
    requires KInv(k, BOOT_RANK) && Fixed(k.mem, k.tasks) && OnlyTwo(k.tasks)
    ensures WordsBelow(k.mem.ram[0], 36) && forall e: nat :: 32 <= e < 36 ==> !Present(k.mem.Dir(e))
    ensures forall e: nat :: e < 4 ==> SameWay(k.mem.Dir(e), KernelDir(e))
  {
    hide TreeOk, PidsOk, FramesOk;
    assert forall x: nat :: x < ENTRIES ==> k.mem.ram[0][x] == k.mem.Dir(x);
    forall x: nat | x < ENTRIES && Present(k.mem.Dir(x)) ensures x < 36 && FrameOf(k.mem.Dir(x)) < RAM_FRAMES {
      if x < FIRST_TABLE {
        assert SameWay(k.mem.Dir(x), KernelDir(x));
      } else {
        AbsentIsZero(k.mem, TaskFrames(k.tasks), x);
        assert HasTable(k.mem, x) && x % 16 < Extent(k.tasks, x / 16);
        assert x / 16 < 2;
      }
    }
    forall e: nat | 32 <= e < 36 ensures !Present(k.mem.Dir(e)) {
      AbsentIsZero(k.mem, TaskFrames(k.tasks), e);
      assert Extent(k.tasks, e / 16) == 0;
    }
  }
}
