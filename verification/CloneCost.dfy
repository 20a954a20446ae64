/** When copy_page_tables succeeds: exactly when enough frames are free. */
module CloneCost {
  import opened Paging
  import opened Ownership

  /** Free frames, from index i of mem_map on. */
  function FreeFrom(count: seq<nat>, i: nat): nat
    requires i <= |count|
    decreases |count| - i
  {
    if i == |count| then 0 else (if count[i] == 0 then 1 else 0) + FreeFrom(count, i + 1)
  }

  function FreeCount(m: Mem): nat { FreeFrom(m.count, 0) }

  /** Present entries of a table, from slot j on. */
  function PagesFrom(row: seq<Word>, j: nat): nat
    requires j <= |row|
    decreases |row| - j
  {
    if j == |row| then 0 else (if Present(row[j]) then 1 else 0) + PagesFrom(row, j + 1)
  }

  /** Frames that a copy of the n directory entries from s on takes: a table each, and a
      frame for each present page. */
  ghost function Need(m: Mem, s: nat, n: nat): nat
    requires m.Shape() && forall a: nat :: s <= a < s + n ==> HasTable(m, a)
    decreases n
  {
    if n == 0 then 0 else 1 + PagesFrom(m.ram[TableFrame(m, s)], 0) + Need(m, s + 1, n - 1)
  }

  lemma {:induction false} FreeFromUpdate(count: seq<nat>, i: nat, x: nat)
    requires i <= |count| && x < |count| && count[x] == 0
    ensures FreeFrom(count[x := 1], i) == FreeFrom(count, i) - if i <= x then 1 else 0
    decreases |count| - i
  {
    if i < |count| { FreeFromUpdate(count, i + 1, x); }
  }

  lemma {:induction false} FreeFromNone(count: seq<nat>, i: nat)
    requires i <= |count|
    ensures FreeFrom(count, i) == 0 <==> forall x :: i <= x < |count| ==> count[x] != 0
    decreases |count| - i
  {
    if i < |count| { FreeFromNone(count, i + 1); }
  }

  /** get_free_page fails just when no frame is free. */
  lemma AllocFails(m: Mem)
    requires m.Shape()
    ensures Alloc(m).1 == 0 <==> FreeCount(m) == 0
  {
    FreeFromNone(m.count, 0);
  }

  lemma AllocCost(m: Mem, held: set<nat>)
    requires m.Shape() && Inv(m, held)
    ensures var (m', f) := Alloc(m);
      if f == 0 then FreeCount(m) == 0 && m' == m else FreeCount(m') == FreeCount(m) - 1
  {
    AllocKeeps(m, held);
    var (m', f) := Alloc(m);
    hide Inv;
    if f == 0 { FreeFromNone(m.count, 0); } else { FreeFromUpdate(m.count, 0, f - LOW_FRAMES); }
  }

  lemma CopySlotCost(m: Mem, held: set<nat>, s: nat, t: nat, j: nat)
    requires m.Shape() && Inv(m, held) && s < RAM_FRAMES && t < RAM_FRAMES && j < ENTRIES
    requires CopySlot(m, s, t, j).1 == Ok || CopySlot(m, s, t, j).1 == NoMem
    ensures var (m', r) := CopySlot(m, s, t, j);
      var c: nat := if Present(m.ram[s][j]) then 1 else 0;
      && (r == Ok <==> FreeCount(m) >= c) && (r == Ok ==> FreeCount(m') == FreeCount(m) - c)
  {
    hide Inv;
    if Present(m.ram[s][j]) { AllocCost(m, held); }
  }

  lemma {:induction false} CopySlotsCost(m: Mem, held: set<nat>, src: nat, k: nat, j: nat)
    requires m.Shape() && Inv(m, held) && HasTable(m, src) && HasTable(m, k)
    requires k >= FIRST_CLONE && src != k && j <= ENTRIES
    requires TableFrame(m, src) != TableFrame(m, k) && TableFrame(m, k) != 0
    requires m.Used(TableFrame(m, src)) && m.Used(TableFrame(m, k))
    requires forall x: nat :: j <= x < ENTRIES ==> !Present(m.ram[TableFrame(m, k)][x])
    ensures var s, t := TableFrame(m, src), TableFrame(m, k); var (m', r) := CopySlots(m, s, t, j);
      var c := PagesFrom(m.ram[s], j);
      && (r == Ok <==> FreeCount(m) >= c) && (r == Ok ==> FreeCount(m') == FreeCount(m) - c)
    decreases ENTRIES - j
  {
    hide Inv, CopySlot, FreeCount;
    var s, t := TableFrame(m, src), TableFrame(m, k);
    if j < ENTRIES {
      CopySlotKeeps(m, held, src, k, j);
      CopySlotCost(m, held, s, t, j);
      var (m1, r1) := CopySlot(m, s, t, j);
      if r1 == Ok {
        CopySlotsCost(m1, held, src, k, j + 1);
        assert m1.ram[s] == m.ram[s];
      }
    }
  }

  lemma CopyDirCost(m: Mem, held: set<nat>, s: nat, d: nat)
    requires m.Shape() && Inv(m, held) && HasTable(m, s)
    requires FIRST_CLONE <= d < ENTRIES && !Present(m.Dir(d))
    ensures var (m', r) := CopyDir(m, s, d);
      var c := 1 + PagesFrom(m.ram[TableFrame(m, s)], 0);
      && (r == Ok <==> FreeCount(m) >= c) && (r == Ok ==> FreeCount(m') == FreeCount(m) - c)
  {
    hide Inv;
    NewTableKeeps(m, held, d);
    AllocCost(m, held);
    var (m1, t) := Alloc(m);
    if t != 0 {
      var m2 := m1.Poke(0, d, Entry(t));
      assert HasTable(m2, s) && TableFrame(m2, s) == TableFrame(m, s);
      TablesApart(m2, held, s, d);
      TableOfM(m, held, s);
      CopySlotsCost(m2, held, s, d, 0);
    }
  }

  lemma {:induction false} NeedSame(m: Mem, m1: Mem, held: set<nat>, s: nat, n: nat)
    requires m.Shape() && m1.Shape() && Inv(m, held) && Grew(m, m1, {0})
    requires forall a: nat :: s <= a < s + n ==> HasTable(m, a) && HasTable(m1, a) && m1.Dir(a) == m.Dir(a)
    ensures Need(m1, s, n) == Need(m, s, n)
    decreases n
  {
    hide Inv;
    if n > 0 {
      TableOfM(m, held, s);
      NeedSame(m, m1, held, s + 1, n - 1);
    }
  }

  /** copy_page_tables succeeds if and only if at least Need frames are free, and then it
      takes exactly that many. */
  lemma {:induction false} CopyDirsCost(m: Mem, held: set<nat>, s: nat, d: nat, n: nat)
    requires m.Shape() && Inv(m, held) && CanCopy(m, s, d, n)
    ensures var (m', r) := CopyDirs(m, s, d, n);
      && (r == Ok <==> FreeCount(m) >= Need(m, s, n)) && (r == Ok ==> FreeCount(m') == FreeCount(m) - Need(m, s, n))
    decreases n
  {
    hide Inv, CopyDir, FreeCount, DirCopied;
    if n > 0 {
      CopyDirKeeps(m, held, s, d);
      CopyDirCost(m, held, s, d);
      var (m1, r1) := CopyDir(m, s, d);
      if r1 == Ok {
        CanCopyRest(m, m1, s, d, n);
        forall a: nat | s + 1 <= a < s + n ensures m1.Dir(a) == m.Dir(a) {}
        NeedSame(m, m1, held, s + 1, n - 1);
        CopyDirsCost(m1, held, s + 1, d + 1, n - 1);
      }
    }
  }
}
