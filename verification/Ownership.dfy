/** The ownership invariant of the managed frames, and what copying and freeing a range of
    page tables does under it (mm/memory.c, kernel/fork.c:45-49). */
module Ownership {
  import opened Paging

  /** Who can hold a managed frame: something outside the page tables (a task page, or a
      frame just allocated), directory entry k (its table), or slot j of the table of
      directory entry k (a page). */
  datatype Owner = Held(f: nat) | Table(k: nat) | Page(k: nat, j: nat)

  const FIRST_TABLE := 16   // directory entries below are the kernel's 4 MB pages
  const FIRST_CLONE := 32   // directory entries of tasks >= 2; 16..31 are task 1's

  /** Directory entry k of a task points to a table. */
  ghost predicate HasTable(m: Mem, k: nat)
    requires m.Shape()
  {
    FIRST_TABLE <= k < ENTRIES && Present(m.Dir(k)) && FrameOf(m.Dir(k)) < RAM_FRAMES
  }

  ghost function TableFrame(m: Mem, k: nat): nat
    requires m.Shape() && HasTable(m, k)
  {
    FrameOf(m.Dir(k))
  }

  /** Slot j of the table of directory entry k maps a page. */
  ghost predicate HasPage(m: Mem, k: nat, j: nat)
    requires m.Shape()
  {
    HasTable(m, k) && j < ENTRIES && Present(m.ram[TableFrame(m, k)][j])
  }

  ghost function PageFrame(m: Mem, k: nat, j: nat): nat
    requires m.Shape() && HasPage(m, k, j)
  {
    FrameOf(m.ram[TableFrame(m, k)][j])
  }

  ghost predicate Owns(m: Mem, held: set<nat>, o: Owner, f: nat)
    requires m.Shape()
  {
    match o
    case Held(g) => g in held && g == f
    case Table(k) => HasTable(m, k) && TableFrame(m, k) == f
    case Page(k, j) => k >= FIRST_CLONE && HasPage(m, k, j) && PageFrame(m, k, j) == f
  }

  predicate Managed(f: nat) { LOW_FRAMES <= f < RAM_FRAMES }

  /** Every count is 0, 1 or NOT_EXIST; it is 1 exactly when the frame has an owner, and no
      frame has two; task 1 maps low memory only; an absent directory word is 0. */
  ghost predicate Inv(m: Mem, held: set<nat>)
    requires m.Shape()
  {
    && (forall i :: 0 <= i < PAGING_PAGES ==> m.count[i] == 0 || m.count[i] == 1 || m.count[i] == NOT_EXIST)
    && (forall o, f: nat :: Owns(m, held, o, f) ==> Managed(f) && m.count[f - LOW_FRAMES] == 1)
    && (forall o1, o2, f: nat :: Owns(m, held, o1, f) && Owns(m, held, o2, f) ==> o1 == o2)
    && (forall f: nat :: Managed(f) && m.count[f - LOW_FRAMES] == 1 ==> exists o :: Owns(m, held, o, f))
    && (forall k: nat, j: nat :: HasPage(m, k, j) && k < FIRST_CLONE ==> PageFrame(m, k, j) < LOW_FRAMES)
    && (forall k: nat :: FIRST_TABLE <= k < ENTRIES ==> m.Dir(k) == 0 || HasTable(m, k))
  }

  lemma OneOwner(m: Mem, held: set<nat>, o1: Owner, o2: Owner, f: nat)
    requires m.Shape() && Inv(m, held) && Owns(m, held, o1, f) && Owns(m, held, o2, f)
    ensures o1 == o2
  {
  }

  // ---- single steps ----

  lemma AllocKeeps(m: Mem, held: set<nat>)
    requires m.Shape() && Inv(m, held)
    ensures var (m', f) := Alloc(m);
      if f == 0 then m' == m && forall i :: 0 <= i < PAGING_PAGES ==> m.count[i] != 0
      else
        && Managed(f) && !m.Used(f) && f !in held
        && Inv(m', held + {f})
        && m'.ram == m.ram[f := Zeros()]
        && m'.count == m.count[f - LOW_FRAMES := 1]
  {
    var (m', f) := Alloc(m);
    if f != 0 {
      var h' := held + {f};
      assert forall g: nat :: g in held ==> Owns(m, held, Held(g), g);
      forall k: nat | HasTable(m, k) ensures TableFrame(m, k) != f {
        assert Owns(m, held, Table(k), TableFrame(m, k));
      }
      assert forall k: nat :: HasTable(m', k) <==> HasTable(m, k);
      assert forall k: nat, j: nat :: HasPage(m', k, j) <==> HasPage(m, k, j);
      forall o, g: nat ensures Owns(m', h', o, g) <==> (Owns(m, held, o, g) || (o == Held(f) && g == f)) {}
      forall g: nat | Managed(g) && m'.count[g - LOW_FRAMES] == 1 ensures exists o :: Owns(m', h', o, g) {
        if g == f { assert Owns(m', h', Held(f), f); }
        else { var o :| Owns(m, held, o, g); assert Owns(m', h', o, g); }
      }
    }
  }

  /** A frame other than the directory that is no table may be filled with anything. */
  lemma WriteKeeps(m: Mem, held: set<nat>, f: nat, row: seq<Word>)
    requires m.Shape() && Inv(m, held) && 0 < f < RAM_FRAMES && |row| == ENTRIES
    requires forall k: nat :: HasTable(m, k) ==> TableFrame(m, k) != f
    ensures Inv(Mem(m.count, m.ram[f := row]), held)
  {
    var m' := Mem(m.count, m.ram[f := row]);
    forall k: nat | HasTable(m, k) ensures TableFrame(m, k) != 0 { assert Owns(m, held, Table(k), TableFrame(m, k)); }
    assert forall k: nat :: HasTable(m', k) <==> HasTable(m, k);
    assert forall k: nat, j: nat :: HasPage(m', k, j) <==> HasPage(m, k, j);
    assert forall o, g: nat :: Owns(m', held, o, g) <==> Owns(m, held, o, g);
  }

  /** A held frame may be filled with anything. */
  lemma WriteHeldKeeps(m: Mem, held: set<nat>, f: nat, row: seq<Word>)
    requires m.Shape() && Inv(m, held) && f in held && |row| == ENTRIES
    ensures f < RAM_FRAMES && Inv(Mem(m.count, m.ram[f := row]), held)
  {
    assert Owns(m, held, Held(f), f);
    HeldIsNoTable(m, held, f);
    hide Inv;
    WriteKeeps(m, held, f, row);
  }

  lemma HeldIsNoTable(m: Mem, held: set<nat>, f: nat)
    requires m.Shape() && Inv(m, held) && f in held
    ensures Managed(f)
    ensures forall k: nat :: HasTable(m, k) ==> TableFrame(m, k) != f
    ensures forall b: nat, i: nat :: b >= FIRST_CLONE && HasPage(m, b, i) ==> PageFrame(m, b, i) != f
  {
    assert Owns(m, held, Held(f), f);
    forall k: nat | HasTable(m, k) ensures TableFrame(m, k) != f { assert Owns(m, held, Table(k), TableFrame(m, k)); }
    forall b: nat, i: nat | b >= FIRST_CLONE && HasPage(m, b, i) ensures PageFrame(m, b, i) != f {
      assert Owns(m, held, Page(b, i), PageFrame(m, b, i));
    }
  }

  /** Low memory holds no table, and no page of a task >= 2. */
  lemma LowIsNoTable(m: Mem, held: set<nat>, f: nat)
    requires m.Shape() && Inv(m, held) && f < LOW_FRAMES
    ensures forall k: nat :: HasTable(m, k) ==> TableFrame(m, k) != f
    ensures forall b: nat, i: nat :: b >= FIRST_CLONE && HasPage(m, b, i) ==> PageFrame(m, b, i) != f
  {
    forall k: nat | HasTable(m, k) ensures TableFrame(m, k) != f { assert Owns(m, held, Table(k), TableFrame(m, k)); }
    forall b: nat, i: nat | b >= FIRST_CLONE && HasPage(m, b, i) ensures PageFrame(m, b, i) != f {
      assert Owns(m, held, Page(b, i), PageFrame(m, b, i));
    }
  }

  /** A page of a task: of tasks >= 2 it is managed and mapped there only; of task 1 it lies
      in low memory.  It is never a table. */
  lemma PageIsNoTable(m: Mem, held: set<nat>, a: nat, j: nat)
    requires m.Shape() && Inv(m, held) && HasPage(m, a, j)
    ensures var f := PageFrame(m, a, j);
      && f < RAM_FRAMES && (a >= FIRST_CLONE <==> f >= LOW_FRAMES)
      && (forall k: nat :: HasTable(m, k) ==> TableFrame(m, k) != f)
      && (forall b: nat, i: nat :: HasPage(m, b, i) && PageFrame(m, b, i) == f ==>
            (b == a && i == j) || (b < FIRST_CLONE && a < FIRST_CLONE))
  {
    var f := PageFrame(m, a, j);
    SourceUsed(m, held, a, j);
    if a >= FIRST_CLONE { assert Owns(m, held, Page(a, j), f); }
    forall b: nat, i: nat | HasPage(m, b, i) && PageFrame(m, b, i) == f
      ensures (b == a && i == j) || (b < FIRST_CLONE && a < FIRST_CLONE)
    {
      if b >= FIRST_CLONE { assert Owns(m, held, Page(b, i), f); }
    }
  }

  // ---- stores to the directory ----

  /** Storing x in word w of the directory changes no mapping; and where a task's table is
      absent x is 0. */
  predicate Harmless(m: Mem, w: nat, x: Word)
    requires m.Shape() && w < ENTRIES
  {
    SameWay(x, m.Dir(w)) && (w >= FIRST_TABLE && !Present(m.Dir(w)) ==> x == 0)
  }

  /** Every directory word, the kernel's own included, maps what it mapped. */
  ghost predicate SameTables(m: Mem, m': Mem)
    requires m.Shape() && m'.Shape()
  {
    forall e: nat :: e < ENTRIES ==> SameWay(m'.Dir(e), m.Dir(e))
  }

  lemma SameTablesThere(m: Mem, m': Mem)
    requires m.Shape() && m'.Shape() && SameTables(m, m')
    ensures forall e: nat :: HasTable(m', e) <==> HasTable(m, e)
    ensures forall e: nat :: HasTable(m, e) ==> TableFrame(m', e) == TableFrame(m, e)
  {
    assert forall e: nat :: e < ENTRIES ==> (Present(m'.Dir(e)) <==> Present(m.Dir(e)));
  }

  /** A store to the directory keeps ownership and every mapping if and only if it is harmless. */
  lemma DirectoryStore(m: Mem, held: set<nat>, w: nat, x: Word)
    requires m.Shape() && Inv(m, held) && w < ENTRIES
    ensures Inv(m.Poke(0, w, x), held) && SameTables(m, m.Poke(0, w, x)) <==> Harmless(m, w, x)
  {
    var m' := m.Poke(0, w, x);
    assert forall e: nat :: e < ENTRIES ==> m'.Dir(e) == if e == w then x else m.Dir(e);
    if Harmless(m, w, x) {
      HarmlessMovesNothing(m, w, x);
      SameTablesThere(m, m');
      HarmlessKeeps(m, held, w, x);
    } else if SameWay(x, m.Dir(w)) {
      assert m.Dir(w) == 0 && m'.Dir(w) != 0;
    } else {
      assert !SameWay(m'.Dir(w), m.Dir(w));
    }
  }

  lemma HarmlessKeeps(m: Mem, held: set<nat>, w: nat, x: Word)
    requires m.Shape() && Inv(m, held) && w < ENTRIES && Harmless(m, w, x)
    requires SameTables(m, m.Poke(0, w, x))
    ensures Inv(m.Poke(0, w, x), held)
  {
    hide SameWay;
    var m' := m.Poke(0, w, x);
    assert forall e: nat :: e < ENTRIES ==> m'.Dir(e) == if e == w then x else m.Dir(e);
    SameTablesThere(m, m');
    forall k: nat | HasTable(m, k) ensures TableFrame(m, k) != 0 { assert Owns(m, held, Table(k), TableFrame(m, k)); }
    assert forall k: nat, j: nat :: HasPage(m', k, j) <==> HasPage(m, k, j);
    assert forall o, g: nat :: Owns(m', held, o, g) <==> Owns(m, held, o, g);
  }

  lemma HarmlessMovesNothing(m: Mem, w: nat, x: Word)
    requires m.Shape() && w < ENTRIES && Harmless(m, w, x)
    ensures SameTables(m, m.Poke(0, w, x))
  {
    var m' := m.Poke(0, w, x);
    assert forall e: nat :: e < ENTRIES ==> m'.Dir(e) == if e == w then x else m.Dir(e);
  }

  /** A zeroed held frame becomes the table of an absent directory entry. */
  lemma LinkTableKeeps(m: Mem, held: set<nat>, k: nat, f: nat)
    requires m.Shape() && Inv(m, held) && f in held
    requires FIRST_TABLE <= k < ENTRIES && !Present(m.Dir(k))
    requires Managed(f) && m.ram[f] == Zeros()
    ensures Inv(m.Poke(0, k, Entry(f)), held - {f})
  {
    var h' := held - {f};
    var m' := m.Poke(0, k, Entry(f));
    assert Owns(m, held, Held(f), f);
    assert forall x: nat :: HasTable(m', x) <==> HasTable(m, x) || x == k;
    assert forall x: nat :: HasTable(m, x) ==> TableFrame(m', x) == TableFrame(m, x) && TableFrame(m, x) != 0 by {
      forall x: nat | HasTable(m, x) ensures TableFrame(m, x) != 0 { assert Owns(m, held, Table(x), TableFrame(m, x)); }
    }
    assert forall x: nat, j: nat :: HasPage(m', x, j) <==> HasPage(m, x, j);
    assert forall o, g: nat ::
      Owns(m', h', o, g) <==> (Owns(m, held, o, g) && o != Held(f)) || (o == Table(k) && g == f);
    forall g: nat | Managed(g) && m'.count[g - LOW_FRAMES] == 1 ensures exists o :: Owns(m', h', o, g) {
      if g == f { assert Owns(m', h', Table(k), f); }
      else { var o :| Owns(m, held, o, g); assert Owns(m', h', o, g); }
    }
  }

  /** A held frame becomes the page of an absent slot. */
  lemma LinkPageKeeps(m: Mem, held: set<nat>, k: nat, j: nat, f: nat)
    requires m.Shape() && Inv(m, held) && f in held
    requires k >= FIRST_CLONE && HasTable(m, k) && j < ENTRIES && !HasPage(m, k, j)
    requires Managed(f)
    ensures Inv(m.Poke(TableFrame(m, k), j, Entry(f)), held - {f})
  {
    var h' := held - {f};
    var t := TableFrame(m, k);
    var m' := m.Poke(t, j, Entry(f));
    assert Owns(m, held, Held(f), f) && Owns(m, held, Table(k), t);
    assert forall x: nat :: HasTable(m', x) <==> HasTable(m, x);
    forall x: nat | HasTable(m, x) && x != k ensures TableFrame(m, x) != t {
      assert Owns(m, held, Table(x), TableFrame(m, x));
    }
    assert forall x: nat, y: nat :: HasPage(m', x, y) <==> HasPage(m, x, y) || (x == k && y == j);
    assert forall o, g: nat ::
      Owns(m', h', o, g) <==> (Owns(m, held, o, g) && o != Held(f)) || (o == Page(k, j) && g == f);
    forall g: nat | Managed(g) && m'.count[g - LOW_FRAMES] == 1 ensures exists o :: Owns(m', h', o, g) {
      if g == f { assert Owns(m', h', Page(k, j), f); }
      else { var o :| Owns(m, held, o, g); assert Owns(m', h', o, g); }
    }
  }

  /** Freeing a held frame. */
  lemma FreeHeldKeeps(m: Mem, held: set<nat>, f: nat)
    requires m.Shape() && Inv(m, held) && f in held
    ensures var (m', r) := FreeFrame(m, f);
      r == Ok && Inv(m', held - {f}) && Managed(f) && m' == Mem(m.count[f - LOW_FRAMES := 0], m.ram)
  {
    var (m', r) := FreeFrame(m, f);
    var h' := held - {f};
    assert Owns(m, held, Held(f), f);
    assert forall x: nat :: HasTable(m', x) <==> HasTable(m, x);
    assert forall x: nat, y: nat :: HasPage(m', x, y) <==> HasPage(m, x, y);
    forall o, g: nat ensures Owns(m', h', o, g) <==> (Owns(m, held, o, g) && o != Held(f)) {}
    forall g: nat | Managed(g) && m'.count[g - LOW_FRAMES] == 1 ensures exists o :: Owns(m', h', o, g) {
      var o :| Owns(m, held, o, g); assert Owns(m', h', o, g);
    }
  }

  /** Clearing a slot whose frame, if any, has just been freed (m1). */
  lemma ClearSlotKeeps(m: Mem, held: set<nat>, k: nat, j: nat, m1: Mem)
    requires m.Shape() && Inv(m, held) && k >= FIRST_CLONE && HasTable(m, k) && j < ENTRIES
    requires m1.ram == m.ram && |m1.count| == PAGING_PAGES
    requires forall g: nat :: Managed(g) ==>
      m1.count[g - LOW_FRAMES] == if HasPage(m, k, j) && PageFrame(m, k, j) == g then 0 else m.count[g - LOW_FRAMES]
    ensures m1.Shape() && Inv(m1.Poke(TableFrame(m, k), j, 0), held)
  {
    var t := TableFrame(m, k);
    assert Owns(m, held, Table(k), t);
    var m' := m1.Poke(t, j, 0);
    assert forall x: nat :: HasTable(m', x) <==> HasTable(m, x);
    forall x: nat | HasTable(m, x) && x != k ensures TableFrame(m, x) != t {
      assert Owns(m, held, Table(x), TableFrame(m, x));
    }
    assert forall x: nat, y: nat :: HasPage(m', x, y) <==> HasPage(m, x, y) && !(x == k && y == j);
    forall o, g: nat ensures Owns(m', held, o, g) <==> Owns(m, held, o, g) && o != Page(k, j) {}
    forall g: nat | Managed(g) && m'.count[g - LOW_FRAMES] == 1 ensures exists o :: Owns(m', held, o, g) {
      var o :| Owns(m, held, o, g); assert Owns(m', held, o, g);
    }
    if HasPage(m, k, j) { assert Owns(m, held, Page(k, j), PageFrame(m, k, j)); }
    forall i | 0 <= i < PAGING_PAGES ensures m'.count[i] == 0 || m'.count[i] == 1 || m'.count[i] == NOT_EXIST {
      var g: nat := LOW_FRAMES + i;
      assert Managed(g) && g - LOW_FRAMES == i;
    }
  }

  /** One round of the inner loop of free_page_tables. */
  lemma FreeSlotKeeps(m: Mem, held: set<nat>, k: nat, j: nat)
    requires m.Shape() && Inv(m, held) && k >= FIRST_CLONE && HasTable(m, k) && j < ENTRIES
    ensures var t := TableFrame(m, k);
      var (m1, r) := if Present(m.ram[t][j]) then FreeFrame(m, FrameOf(m.ram[t][j])) else (m, Ok);
      r == Ok && m1.ram == m.ram && Inv(m1.Poke(t, j, 0), held) && OnlyFreed(m, m1)
  {
    var t := TableFrame(m, k);
    if HasPage(m, k, j) { assert Owns(m, held, Page(k, j), PageFrame(m, k, j)); }
    var (m1, r) := if Present(m.ram[t][j]) then FreeFrame(m, FrameOf(m.ram[t][j])) else (m, Ok);
    hide Inv;
    ClearSlotKeeps(m, held, k, j, m1);
  }

  /** The end of one round of the outer loop of free_page_tables: the table is empty. */
  lemma FreeTableKeeps(m: Mem, held: set<nat>, k: nat)
    requires m.Shape() && Inv(m, held) && k >= FIRST_CLONE && HasTable(m, k)
    requires forall j: nat :: !HasPage(m, k, j)
    ensures var (m1, r) := FreeFrame(m, TableFrame(m, k));
      r == Ok && m1.ram == m.ram && Inv(m1.Poke(0, k, 0), held)
      && forall i :: 0 <= i < PAGING_PAGES ==> m1.count[i] == m.count[i] || (m.count[i] == 1 && m1.count[i] == 0)
  {
    var t := TableFrame(m, k);
    assert Owns(m, held, Table(k), t);
    var (m1, r) := FreeFrame(m, t);
    var m' := m1.Poke(0, k, 0);
    assert forall x: nat :: HasTable(m', x) <==> HasTable(m, x) && x != k;
    assert forall x: nat :: HasTable(m, x) ==> TableFrame(m, x) != 0 by {
      forall x: nat | HasTable(m, x) ensures TableFrame(m, x) != 0 { assert Owns(m, held, Table(x), TableFrame(m, x)); }
    }
    assert forall x: nat, y: nat :: HasPage(m', x, y) <==> HasPage(m, x, y) && x != k;
    forall o, g: nat ensures Owns(m', held, o, g) <==> Owns(m, held, o, g) && o != Table(k) {}
    forall g: nat | Managed(g) && m'.count[g - LOW_FRAMES] == 1 ensures exists o :: Owns(m', held, o, g) {
      var o :| Owns(m, held, o, g); assert Owns(m', held, o, g);
    }
  }

  // ---- freeing a range ----

  /** Counts only fall, and only from 1 to 0. */
  ghost predicate OnlyFreed(m: Mem, m': Mem)
    requires m.Shape() && m'.Shape()
  {
    forall i :: 0 <= i < PAGING_PAGES ==> m'.count[i] == m.count[i] || (m.count[i] == 1 && m'.count[i] == 0)
  }

  lemma {:induction false} FreeSlotsKeeps(m: Mem, held: set<nat>, k: nat, j: nat)
    requires m.Shape() && Inv(m, held) && k >= FIRST_CLONE && HasTable(m, k) && j <= ENTRIES
    requires forall x: nat :: x < j ==> !HasPage(m, k, x)
    ensures var t := TableFrame(m, k); var (m', r) := FreeSlots(m, t, j);
      && r == Ok && Inv(m', held) && OnlyFreed(m, m')
      && HasTable(m', k) && TableFrame(m', k) == t
      && (forall x: nat :: !HasPage(m', k, x))
      && (forall f: nat :: f < RAM_FRAMES && f != t ==> m'.ram[f] == m.ram[f])
    decreases ENTRIES - j
  {
    var t := TableFrame(m, k);
    if j < ENTRIES {
      assert Owns(m, held, Table(k), t);
      FreeSlotKeeps(m, held, k, j);
      var (m1, r) := if Present(m.ram[t][j]) then FreeFrame(m, FrameOf(m.ram[t][j])) else (m, Ok);
      var m2 := m1.Poke(t, j, 0);
      assert HasTable(m2, k) && TableFrame(m2, k) == t;
      forall x: nat | x < j + 1 ensures !HasPage(m2, k, x) { assert x < j ==> !HasPage(m, k, x); }
      FreeSlotsKeeps(m2, held, k, j + 1);
    }
  }

  /** m' is m with the directory entries from d on, n of them, absent, and otherwise only
      frames changed that were tables of those entries. */
  ghost predicate RangeFreed(m: Mem, m': Mem, d: nat, n: nat)
    requires m.Shape() && m'.Shape()
  {
    && OnlyFreed(m, m')
    && (forall k: nat :: k < ENTRIES ==> m'.Dir(k) == if d <= k < d + n then 0 else m.Dir(k))
    && (forall f: nat :: 0 < f < RAM_FRAMES && m'.ram[f] != m.ram[f] ==> IsTableIn(m, d, n, f))
  }

  ghost predicate IsTableIn(m: Mem, d: nat, n: nat, f: nat)
    requires m.Shape()
  {
    exists k: nat :: d <= k < d + n && HasTable(m, k) && TableFrame(m, k) == f
  }

  /** One round of the outer loop of free_page_tables. */
  lemma FreeDirKeeps(m: Mem, held: set<nat>, d: nat)
    requires m.Shape() && Inv(m, held) && FIRST_CLONE <= d < ENTRIES
    ensures var (m', r) := FreeDir(m, d); r == Ok && Inv(m', held) && RangeFreed(m, m', d, 1)
  {
    AbsentIsZero(m, held, d);
    if Present(m.Dir(d)) {
      var t := TableFrame(m, d);
      FreeSlotsKeeps(m, held, d, 0);
      var m1 := FreeSlots(m, t, 0).0;
      FreeTableKeeps(m1, held, d);
      var m' := FreeDir(m, d).0;
      forall f: nat | 0 < f < RAM_FRAMES && m'.ram[f] != m.ram[f] ensures IsTableIn(m, d, 1, f) {
        assert f == t;
      }
    }
  }

  lemma AbsentIsZero(m: Mem, held: set<nat>, k: nat)
    requires m.Shape() && Inv(m, held) && FIRST_TABLE <= k < ENTRIES
    ensures Present(m.Dir(k)) ==> HasTable(m, k) && TableFrame(m, k) != 0
    ensures !Present(m.Dir(k)) ==> m.Dir(k) == 0
  {
    assert m.Dir(k) == 0 || HasTable(m, k);
    if HasTable(m, k) { assert Owns(m, held, Table(k), TableFrame(m, k)); }
  }

  lemma RangeFreedJoins(m: Mem, m1: Mem, m2: Mem, d: nat, n: nat)
    requires m.Shape() && m1.Shape() && m2.Shape() && FIRST_CLONE <= d && d + 1 + n <= ENTRIES
    requires RangeFreed(m, m1, d, 1) && RangeFreed(m1, m2, d + 1, n)
    ensures RangeFreed(m, m2, d, n + 1)
  {
    forall f: nat | 0 < f < RAM_FRAMES && m2.ram[f] != m.ram[f] ensures IsTableIn(m, d, n + 1, f) {
      if m1.ram[f] != m.ram[f] {
        assert IsTableIn(m, d, 1, f);
      } else {
        var k: nat :| d + 1 <= k < d + 1 + n && HasTable(m1, k) && TableFrame(m1, k) == f;
        assert HasTable(m, k) && TableFrame(m, k) == f;
      }
    }
  }

  /** free_page_tables over entries of tasks >= 2 never panics; it leaves the entries
      absent and changes nothing else but the frames that were tables of the range. */
  lemma {:induction false} FreeDirsKeeps(m: Mem, held: set<nat>, d: nat, n: nat)
    requires m.Shape() && Inv(m, held) && FIRST_CLONE <= d && d + n <= ENTRIES
    ensures var (m', r) := FreeDirs(m, d, n);
      r == Ok && Inv(m', held) && RangeFreed(m, m', d, n)
    decreases n
  {
    hide Inv;
    if n > 0 {
      FreeDirKeeps(m, held, d);
      var m1 := FreeDir(m, d).0;
      FreeDirsKeeps(m1, held, d + 1, n - 1);
      RangeFreedJoins(m, m1, FreeDirs(m1, d + 1, n - 1).0, d, n - 1);
    }
  }

  // ---- copying a range ----

  /** Nothing that was in use changed, except the frames in `but`; counts only rise, from
      0 to 1. */
  ghost predicate Grew(m: Mem, m': Mem, but: set<nat>)
    requires m.Shape() && m'.Shape()
  {
    && (forall i :: 0 <= i < PAGING_PAGES ==> m'.count[i] == m.count[i] || (m.count[i] == 0 && m'.count[i] == 1))
    && (forall f: nat :: f < RAM_FRAMES && m.Used(f) && f !in but ==> m'.ram[f] == m.ram[f])
  }

  /** Slot j of table t is, in m', a copy of slot j of table s in m: present just when that
      is, the entry is frame|7, the frame was free in m, and the page has the same words.
      When the source page is the directory, which task 1 maps, words lo to hi are those that
      the copy itself has set by then. */
  ghost predicate SlotCopied(m: Mem, m': Mem, s: nat, t: nat, j: nat, lo: nat, hi: nat)
    requires m.Shape() && m'.Shape() && s < RAM_FRAMES && t < RAM_FRAMES && j < ENTRIES
  {
    var from, to := m.ram[s][j], m'.ram[t][j];
    && (Present(to) <==> Present(from))
    && (Present(from) ==>
          var f := FrameOf(to);
          && FrameOf(from) < RAM_FRAMES && Managed(f) && !m.Used(f) && m'.Used(f)
          && to as int == 4096 * f + 7
          && forall w :: 0 <= w < ENTRIES ==>
               m'.ram[f][w] == if FrameOf(from) == 0 && lo <= w <= hi then m'.Dir(w) else m.ram[FrameOf(from)][w])
  }

  /** One round of the inner loop of copy_page_tables. */
  lemma CopySlotKeeps(m: Mem, held: set<nat>, src: nat, k: nat, j: nat)
    requires m.Shape() && Inv(m, held) && k >= FIRST_CLONE && src != k && j < ENTRIES
    requires HasTable(m, src) && HasTable(m, k) && !HasPage(m, k, j)
    ensures var s, t := TableFrame(m, src), TableFrame(m, k); var (m', r) := CopySlot(m, s, t, j);
      && s != t && t != 0 && m.Used(s) && m.Used(t)
      && (r == Ok || r == NoMem) && Inv(m', held) && Grew(m, m', {t})
      && (r == Ok ==> SlotCopied(m, m', s, t, j, 1, 0))
      && (forall x: nat :: x < ENTRIES && x != j ==> m'.ram[t][x] == m.ram[t][x])
  {
    var s, t := TableFrame(m, src), TableFrame(m, k);
    assert Owns(m, held, Table(src), s) && Owns(m, held, Table(k), t);
    if HasPage(m, src, j) {
      var from := PageFrame(m, src, j);
      SourceUsed(m, held, src, j);
      AllocKeeps(m, held);
      var (m1, f) := Alloc(m);
      if f != 0 {
        WriteHeldKeeps(m1, held + {f}, f, m1.ram[from]);
        LinkPageKeeps(m1.CopyPage(from, f), held + {f}, k, j, f);
        assert held + {f} - {f} == held;
      }
    }
  }

  /** The inner loop: every slot from j on is copied, or the allocator ran out. */
  lemma {:induction false} CopySlotsKeeps(m: Mem, held: set<nat>, src: nat, k: nat, j: nat)
    requires m.Shape() && Inv(m, held) && HasTable(m, src) && HasTable(m, k)
    requires k >= FIRST_CLONE && src != k && j <= ENTRIES
    requires TableFrame(m, src) != TableFrame(m, k) && TableFrame(m, k) != 0
    requires m.Used(TableFrame(m, src)) && m.Used(TableFrame(m, k))
    requires forall x: nat :: j <= x < ENTRIES ==> !Present(m.ram[TableFrame(m, k)][x])
    ensures var s, t := TableFrame(m, src), TableFrame(m, k); var (m', r) := CopySlots(m, s, t, j);
      && (r == Ok || r == NoMem) && Inv(m', held) && Grew(m, m', {t})
      && (forall x: nat :: x < j ==> m'.ram[t][x] == m.ram[t][x])
      && (r == Ok ==> forall x: nat :: j <= x < ENTRIES ==> SlotCopied(m, m', s, t, x, 1, 0))
    decreases ENTRIES - j
  {
    hide Inv, CopySlot;
    var s, t := TableFrame(m, src), TableFrame(m, k);
    if j < ENTRIES {
      CopySlotKeeps(m, held, src, k, j);
      var (m1, r1) := CopySlot(m, s, t, j);
      if r1 == Ok {
        CopySlotsKeeps(m1, held, src, k, j + 1);
        var m' := CopySlots(m1, s, t, j + 1).0;
        forall x: nat | j < x < ENTRIES && SlotCopied(m1, m', s, t, x, 1, 0) ensures SlotCopied(m, m', s, t, x, 1, 0) {
          if Present(m.ram[s][x]) { SourceUsed(m, held, src, x); }
        }
      }
    }
  }

  /** A page mapped by a task's table lies in the modelled RAM, in a frame in use, which
      is no table. */
  lemma SourceUsed(m: Mem, held: set<nat>, k: nat, j: nat)
    requires m.Shape() && Inv(m, held) && HasPage(m, k, j)
    ensures PageFrame(m, k, j) < RAM_FRAMES && m.Used(PageFrame(m, k, j))
    ensures forall x: nat :: HasTable(m, x) ==> PageFrame(m, k, j) != TableFrame(m, x)
  {
    if k >= FIRST_CLONE { assert Owns(m, held, Page(k, j), PageFrame(m, k, j)); }
    forall x: nat | HasTable(m, x) ensures PageFrame(m, k, j) != TableFrame(m, x) {
      assert Owns(m, held, Table(x), TableFrame(m, x));
    }
  }

  /** Directory entry b is, in m', a copy of entry a in m, made after those from lo on. */
  ghost predicate DirCopied(m: Mem, m': Mem, a: nat, b: nat, lo: nat)
    requires m.Shape() && m'.Shape() && HasTable(m, a)
  {
    && HasTable(m', b)
    && var t := TableFrame(m', b);
       && m'.Dir(b) as int == 4096 * t + 7 && Managed(t) && !m.Used(t) && m'.Used(t)
       && forall j: nat :: j < ENTRIES ==> SlotCopied(m, m', TableFrame(m, a), t, j, lo, b)
  }

  /** Only the directory words lo..hi differ. */
  ghost predicate SameDirsBut(m: Mem, m': Mem, lo: nat, hi: nat)
    requires m.Shape() && m'.Shape()
  {
    forall k: nat :: k < ENTRIES && !(lo <= k < hi) ==> m'.Dir(k) == m.Dir(k)
  }

  /** The start of a round of the outer loop of copy_page_tables: an empty table at d. */
  lemma NewTableKeeps(m: Mem, held: set<nat>, d: nat)
    requires m.Shape() && Inv(m, held) && FIRST_CLONE <= d < ENTRIES && !Present(m.Dir(d))
    ensures var (m1, t) := Alloc(m);
      if t == 0 then m1 == m
      else
        var m2 := m1.Poke(0, d, Entry(t));
        && Inv(m2, held) && Managed(t) && !m.Used(t) && m2.Used(t) && HasTable(m2, d) && TableFrame(m2, d) == t
        && m2.ram[t] == Zeros() && m2.Dir(d) == Entry(t)
        && Grew(m, m2, {0}) && SameDirsBut(m, m2, d, d + 1)
  {
    AllocKeeps(m, held);
    var (m1, t) := Alloc(m);
    if t != 0 {
      LinkTableKeeps(m1, held + {t}, d, t);
      assert held + {t} - {t} == held;
    }
  }

  /** Two tables of one state are different frames, in use, and none is the directory. */
  lemma TablesApart(m: Mem, held: set<nat>, a: nat, b: nat)
    requires m.Shape() && Inv(m, held) && HasTable(m, a) && HasTable(m, b) && a != b
    ensures TableFrame(m, a) != TableFrame(m, b) && TableFrame(m, a) != 0 && TableFrame(m, b) != 0
    ensures m.Used(TableFrame(m, a)) && m.Used(TableFrame(m, b))
  {
    assert Owns(m, held, Table(a), TableFrame(m, a)) && Owns(m, held, Table(b), TableFrame(m, b));
  }

  /** One round of the outer loop of copy_page_tables. */
  lemma CopyDirKeeps(m: Mem, held: set<nat>, s: nat, d: nat)
    requires m.Shape() && Inv(m, held) && HasTable(m, s)
    requires FIRST_CLONE <= d < ENTRIES && !Present(m.Dir(d))
    ensures var (m', r) := CopyDir(m, s, d);
      && (r == Ok || r == NoMem) && Inv(m', held) && Grew(m, m', {0}) && SameDirsBut(m, m', d, d + 1)
      && (r == Ok ==> DirCopied(m, m', s, d, d))
  {
    hide Inv;
    NewTableKeeps(m, held, d);
    var (m1, t) := Alloc(m);
    if t != 0 {
      var m2 := m1.Poke(0, d, Entry(t));
      var from := TableFrame(m, s);
      assert HasTable(m2, s) && TableFrame(m2, s) == from;
      TablesApart(m2, held, s, d);
      CopySlotsKeeps(m2, held, s, d, 0);
      var (m', r) := CopySlots(m2, from, t, 0);
      TableOfM(m, held, s);
      assert m2.ram[from] == m.ram[from];
      if r == Ok {
        forall j: nat | j < ENTRIES ensures SlotCopied(m, m', from, t, j, d, d) {
          assert SlotCopied(m2, m', from, t, j, 1, 0);
          if Present(m.ram[from][j]) { SourceUsed(m, held, s, j); }
        }
      }
    }
  }

  lemma TableOfM(m: Mem, held: set<nat>, k: nat)
    requires m.Shape() && Inv(m, held) && HasTable(m, k)
    ensures m.Used(TableFrame(m, k)) && TableFrame(m, k) != 0
  {
    assert Owns(m, held, Table(k), TableFrame(m, k));
  }

  /** A copied entry stays copied while later entries are copied. */
  lemma DirCopiedLater(m: Mem, m1: Mem, m': Mem, a: nat, b: nat, lo: nat)
    requires m.Shape() && m1.Shape() && m'.Shape() && HasTable(m, a)
    requires DirCopied(m, m1, a, b, lo) && lo <= b
    requires Grew(m1, m', {0}) && forall w :: lo <= w <= b ==> m'.Dir(w) == m1.Dir(w)
    ensures DirCopied(m, m', a, b, lo)
  {
    var s, t := TableFrame(m, a), TableFrame(m1, b);
    forall j: nat | j < ENTRIES ensures SlotCopied(m, m', s, t, j, lo, b) {
      assert SlotCopied(m, m1, s, t, j, lo, b);
    }
  }

  /** A copy of what m1 has is a copy of what m has, if m grew to m1. */
  lemma DirCopiedEarlier(m: Mem, held: set<nat>, m1: Mem, m': Mem, a: nat, b: nat, lo: nat, mid: nat)
    requires m.Shape() && m1.Shape() && m'.Shape() && Inv(m, held)
    requires HasTable(m, a) && HasTable(m1, a) && m1.Dir(a) == m.Dir(a)
    requires Grew(m, m1, {0}) && SameDirsBut(m, m1, lo, mid) && lo <= mid <= b
    requires DirCopied(m1, m', a, b, mid) && forall w :: lo <= w < mid ==> m'.Dir(w) == m1.Dir(w)
    ensures DirCopied(m, m', a, b, lo)
  {
    hide Inv;
    TableOfM(m, held, a);
    var s, t := TableFrame(m, a), TableFrame(m', b);
    forall j: nat | j < ENTRIES ensures SlotCopied(m, m', s, t, j, lo, b) {
      assert TableFrame(m1, a) == s;
      assert SlotCopied(m1, m', s, t, j, mid, b);
      if Present(m.ram[s][j]) {
        SourceUsed(m, held, a, j);
        var from := PageFrame(m, a, j);
        assert forall w: nat :: w < ENTRIES ==> m.ram[0][w] == m.Dir(w) && m1.ram[0][w] == m1.Dir(w);
      }
    }
  }

  /** Source tables present, destination entries absent, the two ranges apart. */
  ghost predicate CanCopy(m: Mem, s: nat, d: nat, n: nat)
    requires m.Shape()
  {
    && FIRST_TABLE <= s && s + n <= ENTRIES && FIRST_CLONE <= d && d + n <= ENTRIES
    && (s + n <= d || d + n <= s)
    && (forall a: nat :: s <= a < s + n ==> HasTable(m, a))
    && (forall b: nat :: d <= b < d + n ==> !Present(m.Dir(b)))
  }

  /** The n entries from d on are, in m', copies of the n entries from s on in m. */
  ghost predicate DirsCopied(m: Mem, m': Mem, s: nat, d: nat, n: nat)
    requires m.Shape() && m'.Shape() && CanCopy(m, s, d, n)
  {
    forall a: nat, b: nat :: s <= a < s + n && b - d == a - s ==> DirCopied(m, m', a, b, d)
  }

  /** What copying the n entries from s on to d on has made of m, ending with r. */
  ghost predicate Copied(m: Mem, held: set<nat>, s: nat, d: nat, n: nat, m': Mem, r: Status)
    requires m.Shape() && m'.Shape() && CanCopy(m, s, d, n)
  {
    && (r == Ok || r == NoMem) && Inv(m', held) && Grew(m, m', {0}) && SameDirsBut(m, m', d, d + n)
    && (r == Ok ==> DirsCopied(m, m', s, d, n))
  }

  /** copy_page_tables over n source tables and n absent destination entries. */
  lemma {:induction false} CopyDirsKeeps(m: Mem, held: set<nat>, s: nat, d: nat, n: nat)
    requires m.Shape() && Inv(m, held) && CanCopy(m, s, d, n)
    ensures var (m', r) := CopyDirs(m, s, d, n); Copied(m, held, s, d, n, m', r)
    decreases n
  {
    hide Inv, Grew, SameDirsBut, DirCopied, Copied, CanCopy, CopyDir, Mem.Shape;
    if n == 0 {
      CopiedNone(m, held, s, d, n, Ok);
    } else {
      assert s < ENTRIES && d < ENTRIES && HasTable(m, s) && FIRST_CLONE <= d && !Present(m.Dir(d)) by {
        CanCopyFirst(m, s, d, n);
      }
      CopyDirKeeps(m, held, s, d);
      var (m1, r1) := CopyDir(m, s, d);
      if r1 == Ok {
        CanCopyRest(m, m1, s, d, n);
        CopyDirsKeeps(m1, held, s + 1, d + 1, n - 1);
        var (m', r) := CopyDirs(m1, s + 1, d + 1, n - 1);
        CopiedJoins(m, held, m1, m', s, d, n, r);
      } else {
        CopiedFails(m, held, m1, s, d, n, r1);
      }
    }
  }

  lemma CanCopyFirst(m: Mem, s: nat, d: nat, n: nat)
    requires m.Shape() && CanCopy(m, s, d, n) && n > 0
    ensures s < ENTRIES && HasTable(m, s) && FIRST_CLONE <= d < ENTRIES && !Present(m.Dir(d))
  {
  }

  lemma CopiedNone(m: Mem, held: set<nat>, s: nat, d: nat, n: nat, r: Status)
    requires m.Shape() && Inv(m, held) && CanCopy(m, s, d, n) && n == 0 && r == Ok
    ensures Copied(m, held, s, d, n, m, r)
  {
  }

  lemma CopiedFails(m: Mem, held: set<nat>, m1: Mem, s: nat, d: nat, n: nat, r: Status)
    requires m.Shape() && m1.Shape() && CanCopy(m, s, d, n) && n > 0 && r == NoMem
    requires Inv(m1, held) && Grew(m, m1, {0}) && SameDirsBut(m, m1, d, d + 1)
    ensures Copied(m, held, s, d, n, m1, r)
  {
  }

  lemma CanCopyRest(m: Mem, m1: Mem, s: nat, d: nat, n: nat)
    requires m.Shape() && m1.Shape() && CanCopy(m, s, d, n) && n > 0 && SameDirsBut(m, m1, d, d + 1)
    ensures CanCopy(m1, s + 1, d + 1, n - 1)
  {
    forall a: nat | s + 1 <= a < s + n ensures HasTable(m1, a) { assert HasTable(m, a) && m1.Dir(a) == m.Dir(a); }
    forall b: nat | d + 1 <= b < d + n ensures !Present(m1.Dir(b)) { assert m1.Dir(b) == m.Dir(b); }
  }

  lemma CopiedJoins(m: Mem, held: set<nat>, m1: Mem, m': Mem, s: nat, d: nat, n: nat, r: Status)
    requires m.Shape() && m1.Shape() && m'.Shape() && Inv(m, held) && CanCopy(m, s, d, n) && n > 0
    requires Grew(m, m1, {0}) && SameDirsBut(m, m1, d, d + 1) && DirCopied(m, m1, s, d, d)
    requires CanCopy(m1, s + 1, d + 1, n - 1) && Copied(m1, held, s + 1, d + 1, n - 1, m', r)
    ensures Copied(m, held, s, d, n, m', r)
  {
    hide Inv, CanCopy, DirCopied, DirsCopied;
    if r == Ok {
      DirsCopiedJoins(m, held, m1, m', s, d, n);
    }
  }

  lemma DirsCopiedJoins(m: Mem, held: set<nat>, m1: Mem, m': Mem, s: nat, d: nat, n: nat)
    requires m.Shape() && m1.Shape() && m'.Shape() && Inv(m, held) && CanCopy(m, s, d, n) && n > 0
    requires Grew(m, m1, {0}) && SameDirsBut(m, m1, d, d + 1) && DirCopied(m, m1, s, d, d)
    requires Grew(m1, m', {0}) && SameDirsBut(m1, m', d + 1, d + n)
    requires CanCopy(m1, s + 1, d + 1, n - 1)
    requires DirsCopied(m1, m', s + 1, d + 1, n - 1)
    ensures DirsCopied(m, m', s, d, n)
  {
    hide Inv;
    DirCopiedLater(m, m1, m', s, d, d);
    forall a: nat, b: nat | s <= a < s + n && b - d == a - s ensures DirCopied(m, m', a, b, d) {
      if a != s {
        assert DirCopied(m1, m', a, b, d + 1);
        DirCopiedEarlier(m, held, m1, m', a, b, d, d + 1);
      }
    }
  }

  // ---- main results ----

  /** Cloning is all-or-nothing: when the allocator runs out at any point of
      copy_page_tables, free_page_tables over the same range does not panic and restores
      every count and every directory word; no frame that was in use has changed. */
  lemma RollbackRestores(m: Mem, held: set<nat>, s: nat, d: nat, n: nat)
    requires m.Shape() && Inv(m, held) && CanCopy(m, s, d, n)
    requires CopyDirs(m, s, d, n).1 == NoMem
    ensures var (m', r) := FreeDirs(CopyDirs(m, s, d, n).0, d, n);
      r == Ok && Inv(m', held) && Undone(m, m')
  {
    CopyDirsKeeps(m, held, s, d, n);
    var m1 := CopyDirs(m, s, d, n).0;
    FreeDirsKeeps(m1, held, d, n);
    FreeUndoesGrowth(m, m1, FreeDirs(m1, d, n).0, held, d, n);
  }

  /** No count, no directory word and no frame in use is different. */
  ghost predicate Undone(m: Mem, m': Mem)
    requires m.Shape() && m'.Shape()
  {
    && m'.count == m.count && m'.ram[0] == m.ram[0]
    && forall f: nat :: f < RAM_FRAMES && m.Used(f) ==> m'.ram[f] == m.ram[f]
  }

  /** Freeing a range that was absent undoes any growth confined to it. */
  lemma FreeUndoesGrowth(m: Mem, m1: Mem, m': Mem, held: set<nat>, d: nat, n: nat)
    requires m.Shape() && m1.Shape() && m'.Shape() && Inv(m, held) && Inv(m1, held) && Inv(m', held)
    requires FIRST_CLONE <= d && d + n <= ENTRIES
    requires Grew(m, m1, {0}) && SameDirsBut(m, m1, d, d + n) && RangeFreed(m1, m', d, n)
    requires forall b: nat :: d <= b < d + n ==> !Present(m.Dir(b))
    ensures Undone(m, m')
  {
    forall k: nat | k < ENTRIES ensures m'.Dir(k) == m.Dir(k) {
      if d <= k < d + n { AbsentIsZero(m, held, k); }
    }
    assert forall k: nat :: k < ENTRIES ==> m'.ram[0][k] == m'.Dir(k) && m.ram[0][k] == m.Dir(k);
    assert m'.ram[0] == m.ram[0];
    hide Inv;
    forall f: nat | f < RAM_FRAMES && m.Used(f) ensures m'.ram[f] == m.ram[f] {
      if f != 0 && m'.ram[f] != m1.ram[f] {
        var k: nat :| d <= k < d + n && HasTable(m1, k) && TableFrame(m1, k) == f;
        NewTableWasFree(m, m1, held, d, n, k);
      }
    }
    SameOwnersSameCounts(m, m', held);
  }

  /** A table of the range was a free frame before the growth. */
  lemma NewTableWasFree(m: Mem, m1: Mem, held: set<nat>, d: nat, n: nat, k: nat)
    requires m.Shape() && m1.Shape() && Inv(m, held) && Inv(m1, held)
    requires FIRST_CLONE <= d <= k < d + n <= ENTRIES
    requires Grew(m, m1, {0}) && SameDirsBut(m, m1, d, d + n)
    requires forall b: nat :: d <= b < d + n ==> !Present(m.Dir(b))
    requires HasTable(m1, k)
    ensures !m.Used(TableFrame(m1, k))
  {
    var f := TableFrame(m1, k);
    assert Owns(m1, held, Table(k), f);
    if m.Used(f) {
      var o :| Owns(m, held, o, f);
      OwnerStays(m, m1, held, d, n, o, f);
      assert false;
    }
  }

  /** Growth confined to absent directory entries keeps every owner. */
  lemma OwnerStays(m: Mem, m1: Mem, held: set<nat>, d: nat, n: nat, o: Owner, f: nat)
    requires m.Shape() && m1.Shape() && Inv(m, held)
    requires FIRST_CLONE <= d && d + n <= ENTRIES
    requires Grew(m, m1, {0}) && SameDirsBut(m, m1, d, d + n)
    requires forall b: nat :: d <= b < d + n ==> !Present(m.Dir(b))
    requires Owns(m, held, o, f)
    ensures Owns(m1, held, o, f)
    ensures o.Table? ==> !(d <= o.k < d + n)
  {
    match o
    case Held(_) =>
    case Table(k) =>
    case Page(k, j) => TableOfM(m, held, k);
  }

  /** The directory and the tables determine the counts. */
  lemma SameOwnersSameCounts(m: Mem, m': Mem, held: set<nat>)
    requires m.Shape() && m'.Shape() && Inv(m, held) && Inv(m', held)
    requires m'.ram[0] == m.ram[0]
    requires forall f: nat :: f < RAM_FRAMES && m.Used(f) ==> m'.ram[f] == m.ram[f]
    requires forall i :: 0 <= i < PAGING_PAGES ==> (m.count[i] == NOT_EXIST <==> m'.count[i] == NOT_EXIST)
    ensures m'.count == m.count
  {
    assert forall k: nat :: HasTable(m, k) <==> HasTable(m', k);
    forall o, f: nat ensures Owns(m, held, o, f) <==> Owns(m', held, o, f) {
      if o.Page? && HasTable(m, o.k) { TableOfM(m, held, o.k); }
    }
    forall i | 0 <= i < PAGING_PAGES ensures m'.count[i] == m.count[i] {
      var f: nat := LOW_FRAMES + i;
      assert Managed(f) && f - LOW_FRAMES == i;
      if m.count[i] == 1 { var o :| Owns(m, held, o, f); assert Owns(m', held, o, f); }
      if m'.count[i] == 1 { var o :| Owns(m', held, o, f); assert Owns(m, held, o, f); }
    }
  }

  /** Frame f is a table or a page of one of the n directory entries from d on. */
  ghost predicate OwnedInRange(m: Mem, d: nat, n: nat, f: nat)
    requires m.Shape()
  {
    exists o: Owner :: (o.Table? || o.Page?) && d <= o.k < d + n && Owns(m, {}, o, f)
  }

  /** free_page_tables frees exactly the tables and pages of the range. */
  lemma FreedExactly(m: Mem, m': Mem, held: set<nat>, d: nat, n: nat)
    requires m.Shape() && m'.Shape() && Inv(m, held) && Inv(m', held)
    requires FIRST_CLONE <= d && d + n <= ENTRIES && RangeFreed(m, m', d, n)
    ensures forall f: nat :: Managed(f) ==>
      m'.count[f - LOW_FRAMES] == if OwnedInRange(m, d, n, f) then 0 else m.count[f - LOW_FRAMES]
  {
    forall f: nat | Managed(f)
      ensures m'.count[f - LOW_FRAMES] == if OwnedInRange(m, d, n, f) then 0 else m.count[f - LOW_FRAMES]
    {
      if OwnedInRange(m, d, n, f) {
        var o: Owner :| (o.Table? || o.Page?) && d <= o.k < d + n && Owns(m, {}, o, f);
        assert Owns(m, held, o, f);
        if m'.count[f - LOW_FRAMES] == 1 {
          var o' :| Owns(m', held, o', f);
          OwnerWas(m, m', held, d, n, o', f);
          assert false;
        }
      } else if m.count[f - LOW_FRAMES] == 1 {
        var o :| Owns(m, held, o, f);
        assert !o.Held? ==> Owns(m, {}, o, f);
        OwnerRemains(m, m', held, d, n, o, f);
      }
    }
  }

  /** Freeing a range leaves no owner that was not there, and none in the range. */
  lemma OwnerWas(m: Mem, m': Mem, held: set<nat>, d: nat, n: nat, o: Owner, f: nat)
    requires m.Shape() && m'.Shape() && Inv(m, held)
    requires FIRST_CLONE <= d && d + n <= ENTRIES && RangeFreed(m, m', d, n)
    requires Owns(m', held, o, f)
    ensures Owns(m, held, o, f) && (o.Held? || !(d <= o.k < d + n))
  {
    if !o.Held? {
      assert Present(m'.Dir(o.k)) && m'.Dir(o.k) == m.Dir(o.k);
      if o.Page? { TableRowKept(m, m', held, d, n, o.k); }
    }
  }

  lemma OwnerRemains(m: Mem, m': Mem, held: set<nat>, d: nat, n: nat, o: Owner, f: nat)
    requires m.Shape() && m'.Shape() && Inv(m, held)
    requires FIRST_CLONE <= d && d + n <= ENTRIES && RangeFreed(m, m', d, n)
    requires Owns(m, held, o, f) && (o.Held? || !(d <= o.k < d + n))
    ensures Owns(m', held, o, f)
  {
    if !o.Held? {
      assert m'.Dir(o.k) == m.Dir(o.k);
      if o.Page? { TableRowKept(m, m', held, d, n, o.k); }
    }
  }

  /** The tables of other entries are untouched. */
  lemma TableRowKept(m: Mem, m': Mem, held: set<nat>, d: nat, n: nat, k: nat)
    requires m.Shape() && m'.Shape() && Inv(m, held)
    requires FIRST_CLONE <= d && d + n <= ENTRIES && RangeFreed(m, m', d, n)
    requires HasTable(m, k) && !(d <= k < d + n)
    ensures m'.ram[TableFrame(m, k)] == m.ram[TableFrame(m, k)]
  {
    TableOfM(m, held, k);
    var t := TableFrame(m, k);
    if m'.ram[t] != m.ram[t] {
      var x: nat :| d <= x < d + n && HasTable(m, x) && TableFrame(m, x) == t;
      TablesApart(m, held, k, x);
    }
  }

  /** Two ranges from the same entry on, the second at least as long, freed one after the
      other: the second call frees nothing a second time. */
  lemma FreeTwice(m: Mem, held: set<nat>, d: nat, n1: nat, n2: nat)
    requires m.Shape() && Inv(m, held) && FIRST_CLONE <= d && n1 <= n2 && d + n2 <= ENTRIES
    ensures var (m1, r1) := FreeDirs(m, d, n1); var (m2, r2) := FreeDirs(m1, d, n2);
      && r1 == Ok && r2 == Ok && Inv(m1, held) && Inv(m2, held) && RangeFreed(m, m2, d, n2)
      && (n1 == n2 ==> m2 == m1)
  {
    hide Inv, RangeFreed, Mem.Shape;
    FreeDirsKeeps(m, held, d, n1);
    var m1 := FreeDirs(m, d, n1).0;
    FreeDirsKeeps(m1, held, d, n2);
    RangeFreedTwice(m, m1, FreeDirs(m1, d, n2).0, d, n1, n2);
    if n1 == n2 {
      FreeAbsent(m1, d, n1);
    }
  }

  lemma RangeFreedTwice(m: Mem, m1: Mem, m2: Mem, d: nat, n1: nat, n2: nat)
    requires m.Shape() && m1.Shape() && m2.Shape() && FIRST_CLONE <= d && n1 <= n2 && d + n2 <= ENTRIES
    requires RangeFreed(m, m1, d, n1) && RangeFreed(m1, m2, d, n2)
    ensures RangeFreed(m, m2, d, n2)
    ensures forall k: nat :: d <= k < d + n1 ==> !Present(m1.Dir(k))
  {
    forall f: nat | 0 < f < RAM_FRAMES && m2.ram[f] != m.ram[f] ensures IsTableIn(m, d, n2, f) {
      if m1.ram[f] != m.ram[f] {
        assert IsTableIn(m, d, n1, f);
      } else {
        var k: nat :| d <= k < d + n2 && HasTable(m1, k) && TableFrame(m1, k) == f;
        assert m1.Dir(k) == m.Dir(k);
        assert HasTable(m, k) && TableFrame(m, k) == f;
      }
    }
    forall k: nat | d <= k < d + n1 ensures !Present(m1.Dir(k)) { assert m1.Dir(k) == 0; }
  }

  lemma {:induction false} FreeAbsent(m: Mem, d: nat, n: nat)
    requires m.Shape() && d + n <= ENTRIES && forall k: nat :: d <= k < d + n ==> !Present(m.Dir(k))
    ensures FreeDirs(m, d, n) == (m, Ok)
    decreases n
  {
    if n > 0 { FreeAbsent(m, d + 1, n - 1); }
  }
}
