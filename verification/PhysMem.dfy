/** mm/memory.c as it runs: loops over the mem_map array and the frames, in place.  Every
    method is proved to compute the function of the same routine in Paging.dfy. */
module PhysMem {
  import opened Paging

  class PhysMem {
    const memMap: array<nat>        // mem_map
    const ram: array<seq<Word>>     // the frames; ram[0] is the page directory

    ghost predicate Valid()
      reads this, memMap, ram
    {
      View().Shape()
    }

    function View(): Mem
      reads this, memMap, ram
    {
      Mem(memMap[..], ram[..])
    }

    /** mem_init(start, end), on frames with the given contents. */
    constructor (frames: seq<seq<Word>>, start: Word, end: Word)
      requires |frames| == RAM_FRAMES && forall f :: 0 <= f < RAM_FRAMES ==> |frames[f]| == ENTRIES
      ensures Valid() && fresh(memMap) && fresh(ram)
      ensures View() == Mem(InitialCount(start, end), frames)
    {
      var mm := new nat[PAGING_PAGES];
      var i := 0;
      while i < PAGING_PAGES
        invariant 0 <= i <= PAGING_PAGES
        invariant forall x :: 0 <= x < i ==> mm[x] == InitialCount(start, end)[x]
      {
        if i >= MapIndex(start) && i < MapIndex(end) {
          mm[i] := 0;
        } else {
          mm[i] := NOT_EXIST;
        }
        i := i + 1;
      }
      var fr := new seq<Word>[RAM_FRAMES](f requires 0 <= f < RAM_FRAMES => frames[f]);
      memMap, ram := mm, fr;
      new;
      assert memMap[..] == InitialCount(start, end);
      assert ram[..] == frames;
    }

    method GetFreePage() returns (f: nat)
      requires Valid()
      modifies memMap, ram
      ensures Valid() && (View(), f) == Alloc(old(View()))
    {
      var i := 0;
      while i < PAGING_PAGES && memMap[i] != 0
        invariant 0 <= i <= PAGING_PAGES
        invariant FirstFree(memMap[..], i) == FirstFree(memMap[..], 0)
        decreases PAGING_PAGES - i
      {
        i := i + 1;
      }
      if i == PAGING_PAGES { return 0; }
      memMap[i] := memMap[i] + 1;
      assert memMap[..] == old(memMap[..])[i := old(memMap[i]) + 1];
      ghost var counts := memMap[..];
      f := LOW_FRAMES + i;
      var j := 0;
      while j < ENTRIES
        invariant 0 <= j <= ENTRIES
        invariant |ram[f]| == ENTRIES && forall x :: 0 <= x < j ==> ram[f][x] == 0
        invariant ram[..] == old(ram[..])[f := ram[f]] && memMap[..] == counts
      {
        ram[f] := ram[f][j := 0];
        j := j + 1;
      }
      assert ram[f] == Zeros();
    }

    method FreePage(f: nat) returns (r: Status)
      requires Valid()
      modifies memMap
      ensures Valid() && (View(), r) == FreeFrame(old(View()), f)
    {
      if f < LOW_FRAMES { return Panic; }
      if f >= RAM_FRAMES { return Panic; }
      if memMap[f - LOW_FRAMES] >= 1 {
        memMap[f - LOW_FRAMES] := memMap[f - LOW_FRAMES] - 1;
        assert memMap[..] == old(memMap[..])[f - LOW_FRAMES := old(memMap[f - LOW_FRAMES]) - 1];
        return Ok;
      } else {
        return Panic;
      }
    }

    /** A store to word j of frame f. */
    method Store(f: nat, j: nat, w: Word)
      requires Valid() && f < RAM_FRAMES && j < ENTRIES
      modifies ram
      ensures Valid() && View() == old(View()).Poke(f, j, w)
    {
      ram[f] := ram[f][j := w];
      assert ram[..] == old(ram[..])[f := old(ram[f])[j := w]];
    }

    method FreePageTables(from: nat, size: nat) returns (r: Status)
      requires Valid() && from / 0x40_0000 + DirsFor(size) <= ENTRIES
      modifies memMap, ram
      ensures Valid() && (View(), r) == Paging.FreePageTables(old(View()), from, size)
    {
      hide FreeDir, Mem.Shape;
      if from % 0x40_0000 != 0 { return Panic; }
      if from == 0 { return Panic; }
      var dir, n := from / 0x40_0000, DirsFor(size);
      var i := 0;
      while i < n
        invariant 0 <= i <= n && Valid()
        invariant FreeDirs(View(), dir + i, n - i) == FreeDirs(old(View()), dir, n)
      {
        r := FreeDirEntry(dir + i);
        if r != Ok { return; }
        i := i + 1;
      }
      return Ok;
    }

    /** The body of the outer loop of free_page_tables, with the inner loop. */
    method FreeDirEntry(d: nat) returns (r: Status)
      requires Valid() && d < ENTRIES
      modifies memMap, ram
      ensures Valid() && (View(), r) == FreeDir(old(View()), d)
    {
      if !Present(ram[0][d]) { return Ok; }
      var t := FrameOf(ram[0][d]);
      if t >= RAM_FRAMES { return OutOfRam; }
      var j := 0;
      while j < ENTRIES
        invariant 0 <= j <= ENTRIES && Valid()
        invariant FreeSlots(View(), t, j) == FreeSlots(old(View()), t, 0)
      {
        if Present(ram[t][j]) {
          r := FreePage(FrameOf(ram[t][j]));
          if r != Ok { return; }
        }
        Store(t, j, 0);
        j := j + 1;
      }
      r := FreePage(FrameOf(ram[0][d]));
      if r != Ok { return; }
      Store(0, d, 0);
    }

    method CopyPageTables(from: nat, to: nat, size: nat) returns (r: Status)
      requires Valid()
      requires from / 0x40_0000 + DirsFor(size) <= ENTRIES
      requires to / 0x40_0000 + DirsFor(size) <= ENTRIES
      modifies memMap, ram
      ensures Valid() && (View(), r) == Paging.CopyPageTables(old(View()), from, to, size)
    {
      hide CopyDir, Mem.Shape;
      if from % 0x40_0000 != 0 || to % 0x40_0000 != 0 { return Panic; }
      var src, dst, n := from / 0x40_0000, to / 0x40_0000, DirsFor(size);
      var i := 0;
      while i < n
        invariant 0 <= i <= n && Valid()
        invariant CopyDirs(View(), src + i, dst + i, n - i) == CopyDirs(old(View()), src, dst, n)
      {
        r := CopyDirEntry(src + i, dst + i);
        if r != Ok { return; }
        i := i + 1;
      }
      return Ok;
    }

    /** The body of the outer loop of copy_page_tables, with the inner loop. */
    method CopyDirEntry(src: nat, dst: nat) returns (r: Status)
      requires Valid() && src < ENTRIES && dst < ENTRIES
      modifies memMap, ram
      ensures Valid() && (View(), r) == CopyDir(old(View()), src, dst)
    {
      if Present(ram[0][dst]) { return Panic; }
      if !Present(ram[0][src]) { return Panic; }
      var s := FrameOf(ram[0][src]);
      var t := GetFreePage();
      if t == 0 { return NoMem; }
      Store(0, dst, Entry(t));
      if s >= RAM_FRAMES { return OutOfRam; }
      r := CopyTable(s, t);
    }

    /** The inner loop of copy_page_tables. */
    method CopyTable(s: nat, t: nat) returns (r: Status)
      requires Valid() && s < RAM_FRAMES && t < RAM_FRAMES
      modifies memMap, ram
      ensures Valid() && (View(), r) == CopySlots(old(View()), s, t, 0)
    {
      var j := 0;
      while j < ENTRIES
        invariant 0 <= j <= ENTRIES && Valid()
        invariant CopySlots(View(), s, t, j) == CopySlots(old(View()), s, t, 0)
      {
        var fromPage := ram[s][j];
        if Present(fromPage) {
          var page := FrameOf(fromPage);
          var f := GetFreePage();
          if f == 0 { return NoMem; }
          if page >= RAM_FRAMES { return OutOfRam; }
          CopyPageInto(page, f);
          Store(t, j, Entry(f));
        }
        j := j + 1;
      }
      return Ok;
    }

    /** copy_page: `rep movsl` over 1024 words. */
    method CopyPageInto(from: nat, to: nat)
      requires Valid() && from < RAM_FRAMES && to < RAM_FRAMES
      modifies ram
      ensures Valid() && View() == old(View()).CopyPage(from, to)
    {
      var j := 0;
      while j < ENTRIES
        invariant 0 <= j <= ENTRIES
        invariant |ram[to]| == ENTRIES && |ram[from]| == ENTRIES
        invariant ram[..] == old(ram[..])[to := ram[to]]
        invariant forall x :: 0 <= x < ENTRIES ==> ram[to][x] == old(if x < j then ram[from][x] else ram[to][x])
      {
        ram[to] := ram[to][j := ram[from][j]];
        j := j + 1;
      }
      assert ram[to] == old(ram[from]);
    }

    method InitTask1Paging() returns (r: Status)
      requires Valid()
      modifies memMap, ram
      ensures Valid() && (View(), r) == InitTask1(old(View()))
    {
      var page := GetFreePage();
      if page == 0 { return Panic; }
      ghost var m := View();
      var i := 0;
      while i < LOW_FRAMES
        invariant 0 <= i <= LOW_FRAMES
        invariant |ram[page]| == ENTRIES && memMap[..] == m.count
        invariant ram[..] == m.ram[page := ram[page]]
        invariant forall x :: 0 <= x < ENTRIES ==> ram[page][x] == if x < i then Entry(x) else 0
      {
        ram[page] := ram[page][i := Entry(i)];
        i := i + 1;
      }
      assert ram[page] == LowTable();
      Store(0, 16, Entry(page));
      return Ok;
    }
  }
}
