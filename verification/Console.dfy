/** driver/console.c: a window that slides over video memory, proved to show the screen of
    the plain terminal of Terminal.dfy. */
module Console {
  import opened TtyQueue
  import opened Terminal

  const VIDEO_START := 0xB8000   // video_mem_start_addr
  const VIDEO_END := 0xBC000     // video_mem_end_addr
  const CELLS := (VIDEO_END - VIDEO_START) / 2

  /** The letters EGAC at the end of the first line; console_init leaves their attributes. */
  const INFO: seq<Cell> := [0x45, 0x47, 0x41, 0x43]

  // ---- rows of a flat memory ----

  lemma RowFits(y: nat, z: nat, cols: nat)
    requires y < z
    ensures y * cols + cols <= z * cols
  {
    assert z * cols == (y + 1) * cols + (z - y - 1) * cols;
  }

  lemma NextRow(y: nat, cols: nat)
    ensures (y + 1) * cols == y * cols + cols
  {
  }

  /** Row y of the window that starts at cell o; the window has LINES * cols == 25 * cols cells. */
  ghost function RowAt(v: seq<Cell>, o: nat, cols: nat, y: nat): (r: seq<Cell>)
    requires o + 25 * cols <= |v| && y < LINES
    ensures |r| == cols
  {
    RowFits(y, LINES, cols);
    v[o + y * cols..o + y * cols + cols]
  }

  /** The window, row by row. */
  ghost function Rows(v: seq<Cell>, o: nat, cols: nat): (r: seq<seq<Cell>>)
    requires o + 25 * cols <= |v|
    ensures |r| == LINES && forall y :: 0 <= y < LINES ==> r[y] == RowAt(v, o, cols, y) && |r[y]| == cols
  {
    seq(LINES, y requires 0 <= y < LINES => RowAt(v, o, cols, y))
  }

  /** A store inside the window changes one cell of the screen. */
  lemma PlotRows(v: seq<Cell>, o: nat, cols: nat, x: nat, y: nat, w: Cell)
    requires o + 25 * cols <= |v| && x < cols && y < LINES
    ensures o + y * cols + x < |v|
    ensures Rows(v[o + y * cols + x := w], o, cols) == Rows(v, o, cols)[y := Rows(v, o, cols)[y][x := w]]
  {
    hide RowAt;
    RowFits(y, LINES, cols);
    var v' := v[o + y * cols + x := w];
    forall z | 0 <= z < LINES
      ensures RowAt(v', o, cols, z) == if z == y then RowAt(v, o, cols, y)[x := w] else RowAt(v, o, cols, z)
    {
      Apart(y, z, cols);
      PlotRow(v, o, cols, x, y * cols, w, z, z * cols);
    }
  }

  lemma Apart(y: nat, z: nat, cols: nat)
    ensures z < y ==> z * cols + cols <= y * cols
    ensures y < z ==> y * cols + cols <= z * cols
  {
    if z < y { RowFits(z, y, cols); }
    if y < z { RowFits(y, z, cols); }
  }

  lemma PlotRow(v: seq<Cell>, o: nat, cols: nat, x: nat, at: nat, w: Cell, z: nat, zat: nat)
    requires o + 25 * cols <= |v| && x < cols && z < LINES && zat == z * cols && o + at + cols <= |v|
    requires at == zat || at + cols <= zat || zat + cols <= at
    ensures RowAt(v[o + at + x := w], o, cols, z)
         == if at == zat then RowAt(v, o, cols, z)[x := w] else RowAt(v, o, cols, z)
  {
    RowFits(z, LINES, cols);
  }

  lemma SliceOfSlice<T>(v: seq<T>, lo: nat, hi: nat, a: nat, b: nat)
    requires lo <= hi <= |v| && a <= b <= hi - lo
    ensures v[lo..hi][a..b] == v[lo + a..lo + b]
  {
    var part, whole := v[lo..hi][a..b], v[lo + a..lo + b];
    assert forall i :: 0 <= i < b - a ==> part[i] == v[lo..hi][a + i] && whole[i] == v[lo + a + i];
  }

  /** The window at o2 of v2 holds lines 1.. of the window at o1 of v1, and a blank line. */
  ghost predicate Shifted(v1: seq<Cell>, o1: nat, v2: seq<Cell>, o2: nat, cols: nat) {
    && o1 + 25 * cols <= |v1| && o2 + 25 * cols <= |v2|
    && v2[o2..o2 + 24 * cols] == v1[o1 + cols..o1 + 25 * cols]
    && v2[o2 + 24 * cols..o2 + 25 * cols] == BlankRow(cols)
  }

  lemma ShiftedByCells(v1: seq<Cell>, o1: nat, v2: seq<Cell>, o2: nat, cols: nat)
    requires o1 + 25 * cols <= |v1| && o2 + 25 * cols <= |v2|
    requires forall k :: o2 <= k < o2 + 24 * cols ==> v2[k] == v1[o1 + cols + k - o2]
    requires forall k :: o2 + 24 * cols <= k < o2 + 25 * cols ==> v2[k] == BLANK
    ensures Shifted(v1, o1, v2, o2, cols)
  {
  }

  /** Then the screen has scrolled up. */
  lemma ScrolledUp(v1: seq<Cell>, o1: nat, v2: seq<Cell>, o2: nat, cols: nat)
    requires Shifted(v1, o1, v2, o2, cols)
    ensures Rows(v2, o2, cols) == Rows(v1, o1, cols)[1..] + [BlankRow(cols)]
  {
    hide RowAt;
    var r1, r2 := Rows(v1, o1, cols), Rows(v2, o2, cols);
    forall y | 0 <= y < LINES ensures r2[y] == if y < LINES - 1 then r1[y + 1] else BlankRow(cols) {
      ScrolledUpRow(v1, o1, v2, o2, cols, y);
    }
  }

  lemma ScrolledUpRow(v1: seq<Cell>, o1: nat, v2: seq<Cell>, o2: nat, cols: nat, y: nat)
    requires Shifted(v1, o1, v2, o2, cols) && y < LINES
    ensures RowAt(v2, o2, cols, y) == if y < LINES - 1 then RowAt(v1, o1, cols, y + 1) else BlankRow(cols)
  {
    if y < LINES - 1 {
      RowFits(y, LINES - 1, cols);
      RowFits(y, LINES, cols);
      RowFits(y + 1, LINES, cols);
      var a: nat := y * cols;
      NextRow(y, cols);
      SliceOfSlice(v2, o2, o2 + 24 * cols, a, a + cols);
      SliceOfSlice(v1, o1 + cols, o1 + 25 * cols, a, a + cols);
    }
  }

  /** If the window at o of v2 holds a blank line and then lines ..23 of that of v1, the
      screen has scrolled down. */
  lemma ScrolledDown(v1: seq<Cell>, v2: seq<Cell>, o: nat, cols: nat)
    requires o + 25 * cols <= |v1| && o + 25 * cols <= |v2|
    requires v2[o + cols..o + 25 * cols] == v1[o..o + 24 * cols]
    requires v2[o..o + cols] == BlankRow(cols)
    ensures Rows(v2, o, cols) == [BlankRow(cols)] + Rows(v1, o, cols)[..LINES - 1]
  {
    var r1, r2 := Rows(v1, o, cols), Rows(v2, o, cols);
    assert r2[0] == BlankRow(cols);
    forall y | 1 <= y < LINES ensures r2[y] == r1[y - 1] { ScrolledDownRow(v1, v2, o, cols, y); }
  }

  lemma ScrolledDownRow(v1: seq<Cell>, v2: seq<Cell>, o: nat, cols: nat, y: nat)
    requires o + 25 * cols <= |v1| && o + 25 * cols <= |v2| && 1 <= y < LINES
    requires v2[o + cols..o + 25 * cols] == v1[o..o + 24 * cols]
    ensures RowAt(v2, o, cols, y) == RowAt(v1, o, cols, y - 1)
  {
    RowFits(y, LINES, cols);
    RowFits(y - 1, LINES - 1, cols);
    RowFits(y - 1, LINES, cols);
    var a: nat := (y - 1) * cols;
    NextRow(y - 1, cols);
    SliceOfSlice(v2, o + cols, o + 25 * cols, a, a + cols);
    SliceOfSlice(v1, o, o + 24 * cols, a, a + cols);
  }

  class Console {
    const cols: nat                // display_char_per_line
    const vram: array<Cell>        // video memory, one character and attribute each
    var scrollOrigin: int          // scroll_origin_mem, and so on: byte addresses
    var scrollEnd: int
    var curMem: int                // cur_pos_mem
    var curX: nat
    var curY: nat
    var savedX: nat
    var savedY: nat
    var mode: Mode

    function SizePerLine(): nat { cols * 2 }

    /** y * size_per_line */
    function RowOffset(y: nat): nat { y * SizePerLine() }

    /** The cell at a byte address. */
    function CellAt(addr: int): int { (addr - VIDEO_START) / 2 }

    /** Video memory and the window in it. */
    ghost predicate WindowOk()
      reads this, vram
    {
      && 4 <= cols <= 255 && vram.Length == CELLS
      && scrollOrigin >= VIDEO_START && (scrollOrigin - VIDEO_START) % 2 == 0
      && scrollEnd == scrollOrigin + 25 * SizePerLine() <= VIDEO_END
    }

    /** The cursor address agrees with the cursor position, and that lies in the window. */
    ghost predicate CursorOk()
      reads this
    {
      && curX <= cols && curY < LINES && savedX <= cols && savedY < LINES
      && curMem == scrollOrigin + RowOffset(curY) + 2 * curX
    }

    ghost predicate Coherent()
      reads this, vram
    {
      WindowOk() && CursorOk()
    }

    /** The screen that is shown, and the state of the terminal. */
    ghost function View(): (t: Term)
      requires WindowOk()
      reads this, vram
    {
      Term(cols, Rows(vram[..], CellAt(scrollOrigin), cols), curX, curY, savedX, savedY, mode)
    }

    /** console_init: the parameters are what the BIOS left at 0x90000.  The display is
        coherent just when there are 4 columns at least and the BIOS cursor lies on the screen.
        Otherwise cur_goto_pos refuses the position and leaves the cursor address 0, or takes row
        25; with fewer columns part of the text lies in front of video memory, and is not made. */
    constructor (vram: array<Cell>, cols: nat, biosX: nat, biosY: nat)
      requires vram.Length == CELLS && cols <= 255
      modifies vram
      ensures this.vram == vram && this.cols == cols && mode == Normal
      ensures WindowOk() <==> 4 <= cols
      ensures Coherent() <==> 4 <= cols && biosX <= cols && biosY < LINES
      ensures (curX, curY) == if biosX <= cols && biosY <= LINES then (biosX, biosY) else (0, 0)
      ensures forall k :: 0 <= k < CELLS ==>
        vram[k] == if cols - 4 <= k < cols then old(vram[k]) / 0x100 * 0x100 + INFO[k - (cols - 4)] else old(vram[k])
    {
      var i := 0;
      while i < 4
        invariant 0 <= i <= 4
        invariant forall k :: 0 <= k < CELLS ==>
          vram[k] == if cols - 4 <= k < cols - 4 + i then old(vram[k]) / 0x100 * 0x100 + INFO[k - (cols - 4)]
                     else old(vram[k])
      {
        var at := cols - 4 + i;
        if at >= 0 { vram[at] := vram[at] / 0x100 * 0x100 + INFO[i]; }
        i := i + 1;
      }
      this.vram, this.cols, mode := vram, cols, Normal;
      scrollOrigin := VIDEO_START;
      scrollEnd := VIDEO_START + cols * 2 * 25;
      curMem, curX, curY, savedX, savedY := 0, 0, 0, 0, 0;
      new;
      var ok := GotoPos(biosX, biosY);
    }

    /** cur_goto_pos. */
    method GotoPos(x: nat, y: nat) returns (ok: bool)
      modifies this`curX, this`curY, this`curMem
      ensures ok == (x <= cols && y <= LINES)
      ensures ok ==> curX == x && curY == y && curMem == scrollOrigin + RowOffset(y) + x * 2
      ensures !ok ==> curX == old(curX) && curY == old(curY) && curMem == old(curMem)
    {
      if x > cols || y > LINES { return false; }
      curX := x;
      curY := y;
      curMem := scrollOrigin + RowOffset(curY) + curX * 2;
      return true;
    }

    // ---- scrolling ----

    /** Fill n cells from `at` on with blanks. */
    method Blanks(at: nat, n: nat)
      requires at + n <= vram.Length
      modifies vram
      ensures forall k :: 0 <= k < vram.Length ==> vram[k] == if at <= k < at + n then BLANK else old(vram[k])
    {
      var i := 0;
      while i < n
        invariant 0 <= i <= n
        invariant forall k :: 0 <= k < vram.Length ==>
          vram[k] == if at <= k < at + i then BLANK else old(vram[k])
      {
        vram[at + i] := BLANK;
        i := i + 1;
      }
    }

    /** Copy n cells from `from` to `to`, upwards; right for overlapping ranges when to <= from. */
    method CopyForward(to: nat, from: nat, n: nat)
      requires to <= from && from + n <= vram.Length
      modifies vram
      ensures forall k :: 0 <= k < vram.Length ==>
        vram[k] == if to <= k < to + n then old(vram[from + k - to]) else old(vram[k])
    {
      var i := 0;
      while i < n
        invariant 0 <= i <= n
        invariant forall k :: 0 <= k < vram.Length ==>
          vram[k] == if to <= k < to + i then old(vram[from + k - to]) else old(vram[k])
      {
        vram[to + i] := vram[from + i];
        i := i + 1;
      }
    }

    /** Copy n cells from `from` to `to`, downwards; right for overlapping ranges when from <= to. */
    method CopyBackward(to: nat, from: nat, n: nat)
      requires from <= to && to + n <= vram.Length
      modifies vram
      ensures forall k :: 0 <= k < vram.Length ==>
        vram[k] == if to <= k < to + n then old(vram[from + k - to]) else old(vram[k])
    {
      var i := n - 1;
      while i != -1
        invariant -1 <= i < n
        invariant forall k :: 0 <= k < vram.Length ==>
          vram[k] == if to + i < k < to + n then old(vram[from + k - to]) else old(vram[k])
        decreases i + 1
      {
        vram[to + i] := vram[from + i];
        i := i - 1;
      }
    }

    /** scroll_up when the window would leave video memory: the lines are copied to the start. */
    method ShiftToStart()
      requires WindowOk()
      modifies vram, this`scrollOrigin, this`scrollEnd
      ensures WindowOk() && scrollOrigin == VIDEO_START
      ensures Shifted(old(vram[..]), old(CellAt(scrollOrigin)), vram[..], 0, cols)
    {
      scrollOrigin := scrollOrigin + SizePerLine();
      CopyLines(CellAt(scrollOrigin));
      scrollOrigin := VIDEO_START;
      scrollEnd := scrollOrigin + 25 * SizePerLine();
    }

    /** The two loops of that branch, on cells: 24 lines to the start, then a blank line. */
    method CopyLines(from: nat)
      requires cols <= from && from + 24 * cols <= vram.Length && 25 * cols <= vram.Length
      modifies vram
      ensures Shifted(old(vram[..]), from - cols, vram[..], 0, cols)
    {
      hide Shifted;
      ghost var v := vram[..];
      CopyForward(0, from, 24 * cols);
      Blanks(25 * cols - cols, cols);
      ShiftedByCells(v, from - cols, vram[..], 0, cols);
    }

    /** scroll_up otherwise: only the window moves, over a new blank line. */
    method ShiftOrigin()
      requires WindowOk() && scrollEnd + SizePerLine() <= VIDEO_END
      modifies vram, this`scrollOrigin, this`scrollEnd
      ensures WindowOk() && scrollOrigin == old(scrollOrigin) + SizePerLine()
      ensures Shifted(old(vram[..]), old(CellAt(scrollOrigin)), vram[..], CellAt(scrollOrigin), cols)
    {
      hide Shifted;
      ghost var v, o := vram[..], CellAt(scrollOrigin);
      assert CellAt(scrollEnd) == o + 25 * cols;
      Blanks(CellAt(scrollEnd), cols);
      scrollOrigin := scrollOrigin + SizePerLine();
      scrollEnd := scrollEnd + SizePerLine();
      assert CellAt(scrollOrigin) == o + cols;
      ShiftedByCells(v, o, vram[..], o + cols, cols);
    }

    /** scroll_up: the screen moves up one line, whichever branch runs; the cursor keeps its
        position on the screen, so its address moves with the window. */
    method ScrollUp()
      requires Coherent()
      modifies vram, this`scrollOrigin, this`scrollEnd, this`curMem
      ensures Coherent() && View() == old(View()).(rows := old(View()).rows[1..] + [BlankRow(cols)])
    {
      hide Rows, RowOffset, Shifted;
      ghost var v, o := vram[..], CellAt(scrollOrigin);
      if scrollEnd + SizePerLine() > VIDEO_END {
        ShiftToStart();
        curMem := scrollOrigin + RowOffset(curY) + curX * 2;
      } else {
        ShiftOrigin();
        curMem := curMem + SizePerLine();
      }
      ScrolledUp(v, o, vram[..], CellAt(scrollOrigin), cols);
    }

    /** scroll_down: the lines move down in place, the origin stays. */
    method ScrollDown()
      requires WindowOk()
      modifies vram
      ensures WindowOk() && View() == old(View()).(rows := [BlankRow(cols)] + old(View()).rows[..LINES - 1])
    {
      ghost var v := vram[..];
      var o := CellAt(scrollOrigin);
      CopyBackward(o + cols, o, 24 * cols);
      Blanks(o, cols);
      ScrolledDown(v, vram[..], o, cols);
    }

    // ---- cursor movement ----

    method CarriageReturn()
      requires Coherent()
      modifies this`curX, this`curMem
      ensures Coherent() && View() == old(View()).(x := 0)
    {
      curMem := curMem - curX * 2;
      curX := 0;
    }

    method LineFeed()
      requires Coherent()
      modifies vram, this`scrollOrigin, this`scrollEnd, this`curMem, this`curY
      ensures Coherent() && View() == Terminal.LineFeed(old(View()))
    {
      if curY + 1 <= LINES - 1 {
        curY := curY + 1;
        curMem := curMem + SizePerLine();
      } else {
        ScrollUp();
      }
    }

    method ReverseIndex()
      requires Coherent()
      modifies vram, this`curMem, this`curY
      ensures Coherent() && View() == Terminal.ReverseIndex(old(View()))
    {
      if curY > 0 {
        curY := curY - 1;
        curMem := curMem - SizePerLine();
      } else {
        ScrollDown();
      }
    }

    /** Store a cell at the cursor. */
    method StoreAtCursor(w: Cell)
      requires Coherent() && curX < cols
      modifies vram
      ensures Coherent() && View() == Plot(old(View()), curX, curY, w)
    {
      hide Rows;
      PlotRows(vram[..], CellAt(scrollOrigin), cols, curX, curY, w);
      assert CellAt(curMem) == CellAt(scrollOrigin) + curY * cols + curX;
      vram[CellAt(curMem)] := w;
      assert vram[..] == old(vram[..])[CellAt(curMem) := w];
    }

    method Delete()
      requires Coherent()
      modifies vram, this`curX, this`curMem
      ensures Coherent() && View() == Terminal.Delete(old(View()))
    {
      if curX == 0 { return; }
      curX := curX - 1;
      curMem := curMem - 2;
      StoreAtCursor(BLANK);
    }

    // ---- bytes ----

    /** A displayable character, at the margin after a line feed. */
    method PutChar(c: SignedChar)
      requires Coherent() && 0x20 <= c < 0x7F
      modifies vram, this`scrollOrigin, this`scrollEnd, this`curMem, this`curX, this`curY
      ensures Coherent() && View() == Terminal.PutChar(old(View()), c)
    {
      hide Rows;
      if curX >= cols {
        curX := curX - cols;
        curMem := curMem - SizePerLine();
        LineFeed();
      }
      StoreAtCursor((0x0700 + c as int) as Cell);
      curX := curX + 1;
      curMem := curMem + 2;
    }

    method Tab()
      requires Coherent()
      modifies vram, this`scrollOrigin, this`scrollEnd, this`curMem, this`curX, this`curY
      ensures Coherent() && View() == Terminal.Tab(old(View()))
    {
      hide Rows, RowOffset;
      var offset := 8 - curX % 8;
      if curX + offset > cols {
        curX := curX - (cols - offset);
        curMem := curMem - (cols - offset) * 2;
        LineFeed();
      } else {
        curX := curX + offset;
        curMem := curMem + offset * 2;
      }
    }

    /** One byte in state NORMAL. */
    method WriteNormal(c: SignedChar, erase: nat)
      requires Coherent() && mode == Normal
      modifies vram, this
      ensures Coherent() && View() == FeedNormal(old(View()), c, erase)
    {
      hide Rows, RowOffset;
      if c > 0x1F && c < 0x7F {
        PutChar(c);
      } else if c == 0x1B {
        mode := Esc;
      } else if c == 0x0A || c == 0x0B || c == 0x0C {
        LineFeed();
      } else if c == 0x0D {
        CarriageReturn();
      } else if c as int == erase {
        Delete();
      } else if c == 0x08 {
        if curX != 0 {
          curX := curX - 1;
          curMem := curMem - 2;
        }
      } else if c == 0x09 {
        Tab();
      }
    }

    /** One byte after ESC.  ESC E on the last line is accepted by cur_goto_pos and leaves the
        cursor in row 25, below the window; every other byte keeps the console coherent. */
    method WriteEsc(c: SignedChar)
      requires Coherent() && mode == Esc
      modifies vram, this
      ensures WindowOk() && (Coherent() <==> !Strays(old(View()), c))
      ensures Coherent() ==> View() == FeedEsc(old(View()), c)
      ensures !Coherent() ==> curY == LINES && curX == 0 && View().rows == old(View()).rows
    {
      hide Rows, RowOffset;
      mode := Normal;
      if c == 0x5B {
        mode := Csi;
      } else if c == 0x45 {
        var ok := GotoPos(0, curY + 1);
      } else if c == 0x44 {
        LineFeed();
      } else if c == 0x4D {
        ReverseIndex();
      } else if c == 0x37 {
        savedX := curX;
        savedY := curY;
      } else if c == 0x38 {
        var ok := GotoPos(savedX, savedY);
      }
    }

    /** One byte: the console does what the plain terminal does, unless the byte strays. */
    method WriteByte(c: SignedChar, erase: nat)
      requires Coherent()
      modifies vram, this
      ensures WindowOk() && (Coherent() <==> !Strays(old(View()), c))
      ensures Coherent() ==> View() == Feed(old(View()), c, erase)
      ensures !Coherent() ==> curY == LINES && curX == 0 && View().rows == old(View()).rows
    {
      hide Rows, RowOffset;
      match mode {
        case Normal => WriteNormal(c, erase);
        case Esc => WriteEsc(c);
        case Csi =>
      }
    }

    /** console_write, with anything waiting in the write queue.  If no byte strays everything is
        shown and the queue is empty.  Otherwise everything before the byte is shown, the byte
        leaves the cursor in row 25, and the model goes no further. */
    method Write(q: TtyQueue, erase: nat)
      requires Coherent() && q.Valid()
      modifies vram, this, q`tail
      ensures q.Valid() && WindowOk() && (Coherent() <==> Safe(old(View()), old(q.Contents()), erase))
      ensures Coherent() ==> q.Contents() == [] && View() == FeedAll(old(View()), old(q.Contents()), erase)
      ensures !Coherent() ==> var n := SafeLength(old(View()), old(q.Contents()), erase);
        q.Contents() == old(q.Contents())[n + 1..] && curX == 0 && curY == LINES
        && View().rows == FeedAll(old(View()), old(q.Contents())[..n], erase).rows
    {
      hide Rows, RowOffset, FeedNormal, FeedEsc, FeedAll, Safe, SafeLength;
      ghost var t, s := View(), q.Contents();
      ghost var n := 0;
      NothingFed(t, s, erase);
      var nr := ReadSpace(q.head, q.tail);
      while nr != 0
        invariant Coherent() && q.Valid() && n <= |s| && q.Contents() == s[n..] && nr == |s| - n
        invariant Safe(t, s[..n], erase) && View() == FeedAll(t, s[..n], erase)
      {
        nr := nr - 1;
        var c := q.Take();
        assert c == s[n] && q.Contents() == s[n + 1..];
        OneMoreFed(t, s, n, erase);
        WriteByte(c, erase);
        if curY == LINES {
          SafeLengthIs(t, s, n, erase);
          return;
        }
        n := n + 1;
      }
      assert s[..n] == s;
    }

    lemma NothingFed(t: Term, s: seq<SignedChar>, erase: nat)
      requires TermOk(t)
      ensures Safe(t, s[..0], erase) && FeedAll(t, s[..0], erase) == t
    {
    }

    lemma OneMoreFed(t: Term, s: seq<SignedChar>, n: nat, erase: nat)
      requires TermOk(t) && n < |s| && Safe(t, s[..n], erase)
      ensures var t1 := FeedAll(t, s[..n], erase);
        && (Safe(t, s[..n + 1], erase) <==> !Strays(t1, s[n]))
        && (!Strays(t1, s[n]) ==> FeedAll(t, s[..n + 1], erase) == Feed(t1, s[n], erase))
    {
      var t1 := FeedAll(t, s[..n], erase);
      assert s[..n + 1] == s[..n] + [s[n]];
      Terminal.FeedSplit(t, s[..n], [s[n]], erase);
      assert Safe(t1, [s[n]], erase) <==> !Strays(t1, s[n]);
    }
  }

  /** From console_init on: line feeds to the last line and ESC E, and the cursor is below the
      window. */
  method GoAstray(vram: array<Cell>, cols: nat, biosX: nat, biosY: nat, erase: nat) returns (con: Console)
    requires vram.Length == CELLS && 4 <= cols <= 255 && biosX <= cols && biosY < LINES
    modifies vram
    ensures con.WindowOk() && !con.Coherent() && con.curY == LINES
  {
    hide Safe, SafeLength, FeedAll;
    con := new Console(vram, cols, biosX, biosY);
    var q: TtyQueue := new TtyQueue();
    var s := LineFeeds(LINES - 1 - con.curY) + [0x1B, 0x45];
    var i := 0;
    while i < |s|
      invariant 0 <= i <= |s| && q.Valid() && fresh(q) && fresh(q.buf) && q.Contents() == s[..i]
      modifies q`head, q.buf
    {
      q.Put(s[i]);
      i := i + 1;
    }
    assert s[..i] == s;
    NextLineStrays(con.View(), erase);
    con.Write(q, erase);
  }
}
