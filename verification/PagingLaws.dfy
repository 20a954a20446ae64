/** Laws of mm/memory.c that hold in any state: which frames mem_init frees, what allocation and
    freeing undo, and what each routine refuses. */
module PagingLaws {
  import opened Paging
  import opened Fork

  // ---- mem_init ----

  /** Frame f is free after mem_init(start, end) just when it lies between the bounds: it ends
      above start and not above end.  A bound below 1 MB wraps around and counts as 4 GB more. */
  lemma FreeFramesAreBetween(start: Word, end: Word, f: nat)
    requires LOW_FRAMES <= f < RAM_FRAMES
    ensures var lo: int := if start < 0x10_0000 then start as int + 0x1_0000_0000 else start as int;
      var hi: int := if end < 0x10_0000 then end as int + 0x1_0000_0000 else end as int;
      InitialCount(start, end)[f - LOW_FRAMES] == 0 <==> lo < 4096 * (f + 1) <= hi
  {
    Index(start, f);
    Index(end, f);
  }

  /** MAP_INDEX against the end of frame f. */
  lemma Index(addr: Word, f: nat)
    requires LOW_FRAMES <= f < RAM_FRAMES
    ensures var a: int := if addr < 0x10_0000 then addr as int + 0x1_0000_0000 else addr as int;
      && MapIndex(addr) == (a - 0x10_0000) / 4096
      && (MapIndex(addr) <= f - LOW_FRAMES <==> a < 4096 * (f + 1))
  {
    var a: int := if addr < 0x10_0000 then addr as int + 0x1_0000_0000 else addr as int;
    assert (addr as int - 0x10_0000) % 0x1_0000_0000 == a - 0x10_0000;
    var q := (a - 0x10_0000) / 4096;
    assert 4096 * q <= a - 0x10_0000 < 4096 * q + 4096;
  }

  // ---- get_free_page, free_page ----

  /** What get_free_page gives is the lowest free frame, all zero, and counted once; free_page of
      it restores the counts, and a second free_page panics. */
  lemma FreeUndoesAlloc(m: Mem)
    requires m.Shape() && Alloc(m).1 != 0
    ensures var (m1, f) := Alloc(m); var (m2, r2) := FreeFrame(m1, f);
      && LOW_FRAMES <= f < RAM_FRAMES && !m.Used(f) && (forall g: nat :: g < f ==> m.Used(g))
      && (forall w: nat :: w < ENTRIES ==> m1.ram[f][w] == 0)
      && (forall g: nat :: g < RAM_FRAMES && g != f ==> m1.ram[g] == m.ram[g] && (m1.Used(g) <==> m.Used(g)))
      && m1.Used(f) && r2 == Ok && m2.count == m.count && m2.ram == m1.ram
      && FreeFrame(m2, f) == (m2, Panic)
  {
  }

  /** free_page panics, and changes nothing, below 1 MB, from 16 MB on, and when the count is 0;
      otherwise it lowers the count of the frame by one and nothing else. */
  lemma FreeRefuses(m: Mem, f: nat)
    requires m.Shape()
    ensures var (m', r) := FreeFrame(m, f);
      && (r == Panic || r == Ok)
      && (r == Panic <==> f < 256 || f >= 4096 || m.count[f - 256] == 0)
      && (r == Panic ==> m' == m)
      && (r == Ok ==> m'.ram == m.ram && |m'.count| == |m.count| && m'.count[f - 256] + 1 == m.count[f - 256])
      && (r == Ok ==> forall x :: 0 <= x < |m.count| && x != f - 256 ==> m'.count[x] == m.count[x])
  {
  }

  // ---- the ranges ----

  /** The directory entries that a size needs: enough for it, and not one more. */
  lemma DirsForCovers(size: nat)
    requires size <= 0xFFC0_0000
    ensures (DirsFor(size) - 1) * 0x40_0000 < size <= DirsFor(size) * 0x40_0000 || (size == 0 && DirsFor(size) == 0)
  {
    var q := (size + 0x3F_FFFF) / 0x40_0000;
    assert 0x40_0000 * q <= size + 0x3F_FFFF < 0x40_0000 * q + 0x40_0000;
  }

  /** Addresses that are not multiples of 4 MB are refused, by both routines, and address 0 is by
      free_page_tables. */
  lemma Alignment(m: Mem, from: nat, to: nat, size: nat)
    requires m.Shape() && from / 0x40_0000 + DirsFor(size) <= ENTRIES && to / 0x40_0000 + DirsFor(size) <= ENTRIES
    ensures from % 0x40_0000 != 0 || from == 0 ==> FreePageTables(m, from, size) == (m, Panic)
    ensures from % 0x40_0000 != 0 || to % 0x40_0000 != 0 ==> CopyPageTables(m, from, to, size) == (m, Panic)
    ensures DirsFor(size) == 0 && from % 0x40_0000 == 0 && to % 0x40_0000 == 0 ==>
      CopyPageTables(m, from, to, size) == (m, Ok) && (from != 0 ==> FreePageTables(m, from, size) == (m, Ok))
  {
  }

  /** copy_page_tables panics, and changes nothing, when its first destination entry is present or
      its first source entry is absent; with neither, and no frame, it returns -ENOMEM. */
  lemma CopyRefuses(m: Mem, s: nat, d: nat, n: nat)
    requires m.Shape() && 1 <= n && s + n <= ENTRIES && d + n <= ENTRIES
    ensures Present(m.Dir(d)) || !Present(m.Dir(s)) ==> CopyDirs(m, s, d, n) == (m, Panic)
    ensures !Present(m.Dir(d)) && Present(m.Dir(s)) && Alloc(m).1 == 0 ==> CopyDirs(m, s, d, n) == (m, NoMem)
  {
    hide Alloc;
    if !Present(m.Dir(d)) && Present(m.Dir(s)) && Alloc(m).1 == 0 { assert Alloc(m).0 == m by { FullStays(m); } }
  }

  lemma FullStays(m: Mem)
    requires m.Shape() && Alloc(m).1 == 0
    ensures Alloc(m).0 == m
  {
  }

  /** An absent entry is skipped by free_page_tables. */
  lemma FreeSkips(m: Mem, d: nat, n: nat)
    requires m.Shape() && 1 <= n && d + n <= ENTRIES && !Present(m.Dir(d))
    ensures FreeDirs(m, d, n) == FreeDirs(m, d + 1, n - 1)
  {
  }

  /** copy_mem panics when the code limit is above the data limit, whatever the slot. */
  lemma LimitsRefused(m: Mem, slot: nat, parent: nat, code: nat, data: nat)
    requires m.Shape() && slot < 64 && parent < 64 && LimitFits(data) && code > data
    ensures CopyMem(m, slot, parent, code, data) == (m, Panic)
  {
  }
}
