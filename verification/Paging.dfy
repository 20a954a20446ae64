/** Physical memory, the frame allocator and the two-level page tables (mm/memory.c).

    Physical memory is a sequence of 4096-byte frames, each of 1024 words; frame 0 is
    the page directory.  This file holds the memory as a value: what each routine does to
    it, and the words a table entry is made of.  The class in PhysMem.dfy runs the loops
    of the original on arrays and is proved to compute exactly these functions. */
module Paging {

  const LOW_FRAMES := 256      // LOW_MEM / PAGE_SIZE: the first megabyte is not managed
  const PAGING_PAGES := 3840   // EXT_MEM_SIZE_LIMIT / PAGE_SIZE: entries of mem_map
  const RAM_FRAMES := 4096     // 16 MB
  const ENTRIES := 1024        // words in a frame, entries in a table
  const NOT_EXIST := 100       // mem_map value of a frame outside the managed range

  newtype Word = w: int | 0 <= w < 0x1_0000_0000

  // ---- table entries ----

  predicate Present(w: Word) { w % 2 == 1 }

  /** The frame number of `w & 0xFFFFF000`. */
  function FrameOf(w: Word): nat { (w / 4096) as nat }

  /** What the word maps is present, writable and open to user mode: bits 0 to 2. */
  predicate Open(w: Word) { w % 8 == 7 }

  /** Directory word x maps what y maps, in the same way: absent like y, or the same frame with
      the same bits for presence, access and caching (0 to 4) and page size (7).  The others are
      the accessed and dirty bits, which the processor sets itself, and bits it ignores. */
  predicate SameWay(x: Word, y: Word) {
    if Present(y) then FrameOf(x) == FrameOf(y) && x % 32 == y % 32 && x / 128 % 2 == y / 128 % 2
    else !Present(x)
  }

  /** The word `addr | 7` for the frame at `addr == 4096 * f`. */
  function Entry(f: nat): (w: Word)
    requires f < 0x10_0000
    ensures Present(w) && FrameOf(w) == f && Open(w)
  {
    EntryBits(f);
    (4096 * f + 7) as Word
  }

  /** Adding a multiple of 8 does not change the low three bits. */
  lemma LowBits(q: int, r: int)
    requires 0 <= r < 8
    ensures (8 * q + r) % 8 == r && (8 * q + r) % 2 == r % 2
  {
  }

  lemma EntryBits(f: nat)
    ensures (4096 * f + 7) / 4096 == f && (4096 * f + 7) % 2 == 1 && (4096 * f + 7) % 8 == 7
  {
    LowBits(512 * f, 7);
    assert 4096 * f + 7 == 8 * (512 * f) + 7;
  }

  lemma LowBitsOf32(x: int)
    ensures x % 8 == x % 32 % 8
  {
    var q, r := x / 32, x % 32;
    LowBits(4 * q + r / 8, r % 8);
    assert x == 8 * (4 * q + r / 8) + r % 8;
  }

  /** Directory word e as head.s:69-76 leaves it: four 4 MB pages for the kernel, then nothing. */
  function KernelDir(e: nat): Word { if e < 4 then (0x40_0000 * e + 0x87) as Word else 0 }

  // ---- memory ----

  /** mem_map and the frames. */
  datatype Mem = Mem(count: seq<nat>, ram: seq<seq<Word>>) {

    ghost predicate Shape() {
      && |count| == PAGING_PAGES
      && |ram| == RAM_FRAMES
      && forall f :: 0 <= f < RAM_FRAMES ==> |ram[f]| == ENTRIES
    }

    /** Directory word k. */
    function Dir(k: nat): Word
      requires Shape() && k < ENTRIES
    {
      ram[0][k]
    }

    /** Store w in word j of frame f. */
    function Poke(f: nat, j: nat, w: Word): (m: Mem)
      requires Shape() && f < RAM_FRAMES && j < ENTRIES
      ensures m.Shape()
    {
      Mem(count, ram[f := ram[f][j := w]])
    }

    /** copy_page(from, to) on frames. */
    function CopyPage(from: nat, to: nat): (m: Mem)
      requires Shape() && from < RAM_FRAMES && to < RAM_FRAMES
      ensures m.Shape()
    {
      Mem(count, ram[to := ram[from]])
    }

    /** Frame f holds something: it is below 1 MB, or its mem_map count is not 0. */
    predicate Used(f: nat)
      requires Shape() && f < RAM_FRAMES
    {
      f < LOW_FRAMES || count[f - LOW_FRAMES] != 0
    }
  }

  /** How a routine ends: normally, with -ENOMEM, in panic(), or by touching physical
      memory above the modelled 16 MB. */
  datatype Status = Ok | NoMem | Panic | OutOfRam

  /** A zeroed frame. */
  function Zeros(): (z: seq<Word>)
    ensures |z| == ENTRIES && forall j :: 0 <= j < ENTRIES ==> z[j] == 0
  {
    seq(ENTRIES, _ => 0)
  }

  // ---- get_free_page, free_page ----

  /** The first index from i on with count 0, or |count|. */
  function FirstFree(count: seq<nat>, i: nat): (r: nat)
    requires i <= |count|
    ensures i <= r <= |count|
    ensures r < |count| ==> count[r] == 0
    ensures forall x :: i <= x < r ==> count[x] != 0
    decreases |count| - i
  {
    if i == |count| || count[i] == 0 then i else FirstFree(count, i + 1)
  }

  /** get_free_page: the lowest free frame, counted and zeroed; frame 0 stands for the
      null address that says there is none. */
  function Alloc(m: Mem): (r: (Mem, nat))
    requires m.Shape()
    ensures r.0.Shape() && r.1 < RAM_FRAMES
  {
    var i := FirstFree(m.count, 0);
    if i == PAGING_PAGES then (m, 0)
    else (Mem(m.count[i := m.count[i] + 1], m.ram[LOW_FRAMES + i := Zeros()]), LOW_FRAMES + i)
  }

  /** free_page of frame f. */
  function FreeFrame(m: Mem, f: nat): (r: (Mem, Status))
    requires m.Shape()
    ensures r.0.Shape()
  {
    if f < LOW_FRAMES || f >= RAM_FRAMES then (m, Panic)
    else if m.count[f - LOW_FRAMES] >= 1 then
      (Mem(m.count[f - LOW_FRAMES := m.count[f - LOW_FRAMES] - 1], m.ram), Ok)
    else (m, Panic)
  }

  // ---- free_page_tables ----

  /** The inner loop of free_page_tables: slots j, j+1, ... of the table in frame t. */
  function FreeSlots(m: Mem, t: nat, j: nat): (r: (Mem, Status))
    requires m.Shape() && t < RAM_FRAMES && j <= ENTRIES
    ensures r.0.Shape()
    decreases ENTRIES - j
  {
    if j == ENTRIES then (m, Ok)
    else
      var (m1, r) := if Present(m.ram[t][j]) then FreeFrame(m, FrameOf(m.ram[t][j])) else (m, Ok);
      if r != Ok then (m1, r) else FreeSlots(m1.Poke(t, j, 0), t, j + 1)
  }

  /** One round of the outer loop of free_page_tables, for directory entry d. */
  function FreeDir(m: Mem, d: nat): (r: (Mem, Status))
    requires m.Shape() && d < ENTRIES
    ensures r.0.Shape()
  {
    if !Present(m.Dir(d)) then (m, Ok)
    else
      var t := FrameOf(m.Dir(d));
      if t >= RAM_FRAMES then (m, OutOfRam)
      else
        var (m1, r1) := FreeSlots(m, t, 0);
        if r1 != Ok then (m1, r1)
        else
          var (m2, r2) := FreeFrame(m1, FrameOf(m1.Dir(d)));
          if r2 != Ok then (m2, r2) else (m2.Poke(0, d, 0), Ok)
  }

  /** The outer loop of free_page_tables: n directory entries from d on. */
  function FreeDirs(m: Mem, d: nat, n: nat): (r: (Mem, Status))
    requires m.Shape() && d + n <= ENTRIES
    ensures r.0.Shape()
    decreases n
  {
    if n == 0 then (m, Ok)
    else
      var (m1, r) := FreeDir(m, d);
      if r != Ok then (m1, r) else FreeDirs(m1, d + 1, n - 1)
  }

  /** Directory entries that `size` bytes need: `(size + 0x3FFFFF) >> 22` on 32 bits. */
  function DirsFor(size: nat): (n: nat)
    ensures n < ENTRIES
  {
    (size + 0x3F_FFFF) % 0x1_0000_0000 / 0x40_0000
  }

  /** free_page_tables(from, size). */
  function FreePageTables(m: Mem, from: nat, size: nat): (r: (Mem, Status))
    requires m.Shape() && from / 0x40_0000 + DirsFor(size) <= ENTRIES
    ensures r.0.Shape()
  {
    if from % 0x40_0000 != 0 || from == 0 then (m, Panic)
    else FreeDirs(m, from / 0x40_0000, DirsFor(size))
  }

  // ---- copy_page_tables ----

  /** One round of the inner loop of copy_page_tables: slot j of the table in frame s,
      copied into the table in frame t. */
  function CopySlot(m: Mem, s: nat, t: nat, j: nat): (r: (Mem, Status))
    requires m.Shape() && s < RAM_FRAMES && t < RAM_FRAMES && j < ENTRIES
    ensures r.0.Shape()
  {
    if !Present(m.ram[s][j]) then (m, Ok)
    else
      var from := FrameOf(m.ram[s][j]);
      var (m1, f) := Alloc(m);
      if f == 0 then (m1, NoMem)
      else if from >= RAM_FRAMES then (m1, OutOfRam)
      else (m1.CopyPage(from, f).Poke(t, j, Entry(f)), Ok)
  }

  /** The inner loop of copy_page_tables: slots j, j+1, ... */
  function CopySlots(m: Mem, s: nat, t: nat, j: nat): (r: (Mem, Status))
    requires m.Shape() && s < RAM_FRAMES && t < RAM_FRAMES && j <= ENTRIES
    ensures r.0.Shape()
    decreases ENTRIES - j
  {
    if j == ENTRIES then (m, Ok)
    else
      var (m1, r) := CopySlot(m, s, t, j);
      if r != Ok then (m1, r) else CopySlots(m1, s, t, j + 1)
  }

  /** One round of the outer loop of copy_page_tables: directory entry s copied to d. */
  function CopyDir(m: Mem, s: nat, d: nat): (r: (Mem, Status))
    requires m.Shape() && s < ENTRIES && d < ENTRIES
    ensures r.0.Shape()
  {
    if Present(m.Dir(d)) then (m, Panic)
    else if !Present(m.Dir(s)) then (m, Panic)
    else
      var from := FrameOf(m.Dir(s));
      var (m1, t) := Alloc(m);
      if t == 0 then (m1, NoMem)
      else
        var m2 := m1.Poke(0, d, Entry(t));
        if from >= RAM_FRAMES then (m2, OutOfRam) else CopySlots(m2, from, t, 0)
  }

  /** The outer loop of copy_page_tables: n directory entries from s on, copied to d on. */
  function CopyDirs(m: Mem, s: nat, d: nat, n: nat): (r: (Mem, Status))
    requires m.Shape() && s + n <= ENTRIES && d + n <= ENTRIES
    ensures r.0.Shape()
    decreases n
  {
    if n == 0 then (m, Ok)
    else
      var (m1, r) := CopyDir(m, s, d);
      if r != Ok then (m1, r) else CopyDirs(m1, s + 1, d + 1, n - 1)
  }

  /** copy_page_tables(from, to, size). */
  function CopyPageTables(m: Mem, from: nat, to: nat, size: nat): (r: (Mem, Status))
    requires m.Shape()
    requires from / 0x40_0000 + DirsFor(size) <= ENTRIES
    requires to / 0x40_0000 + DirsFor(size) <= ENTRIES
    ensures r.0.Shape()
  {
    if from % 0x40_0000 != 0 || to % 0x40_0000 != 0 then (m, Panic)
    else CopyDirs(m, from / 0x40_0000, to / 0x40_0000, DirsFor(size))
  }

  // ---- mem_init, init_task1_paging ----

  /** MAP_INDEX(addr), on 32 bits: an address below LOW_MEM wraps around. */
  function MapIndex(addr: Word): nat { (addr as int - 0x10_0000) % 0x1_0000_0000 / 4096 }

  /** The mem_map that mem_init(start, end) leaves. */
  function InitialCount(start: Word, end: Word): (c: seq<nat>)
    ensures |c| == PAGING_PAGES
    ensures forall i :: 0 <= i < PAGING_PAGES ==> c[i] == 0 || c[i] == NOT_EXIST
  {
    seq(PAGING_PAGES, i requires 0 <= i =>
      if MapIndex(start) <= i < MapIndex(end) then 0 else NOT_EXIST)
  }

  /** Task 1's table: one entry for each frame of the first megabyte. */
  function LowTable(): (t: seq<Word>)
    ensures |t| == ENTRIES
    ensures forall j :: 0 <= j < ENTRIES ==>
              t[j] == if j < LOW_FRAMES then Entry(j) else 0
  {
    seq(ENTRIES, i requires 0 <= i => if i < LOW_FRAMES then Entry(i) else 0)
  }

  /** init_task1_paging: one table, mapping the first megabyte, in directory entry 16. */
  function InitTask1(m: Mem): (r: (Mem, Status))
    requires m.Shape()
    ensures r.0.Shape()
  {
    var (m1, t) := Alloc(m);
    if t == 0 then (m1, Panic)
    else (Mem(m1.count, m1.ram[t := LowTable()]).Poke(0, 16, Entry(t)), Ok)
  }
}
