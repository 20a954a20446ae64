/** A plain grid terminal: what driver/console.c shows, without video memory.  The control
    functions are the subset of section 8.3 of ECMA-48 that the console knows. */
module Terminal {
  import opened TtyQueue

  newtype Cell = x: int | 0 <= x < 0x1_0000

  const LINES := 25
  const BLANK: Cell := 0x0720

  /** console_parse_state; CSI_2 and CSI_3 are never entered. */
  datatype Mode = Normal | Esc | Csi

  /** The screen row by row, the cursor, the saved cursor. x == cols is a pending wrap. */
  datatype Term = Term(cols: nat, rows: seq<seq<Cell>>, x: nat, y: nat, savedX: nat, savedY: nat, mode: Mode)

  function BlankRow(cols: nat): (r: seq<Cell>)
    ensures |r| == cols
  {
    seq(cols, _ => BLANK)
  }

  predicate TermOk(t: Term) {
    && 4 <= t.cols <= 255 && |t.rows| == LINES && (forall y :: 0 <= y < LINES ==> |t.rows[y]| == t.cols)
    && t.x <= t.cols && t.y < LINES && t.savedX <= t.cols && t.savedY < LINES
  }

  function LineFeed(t: Term): (r: Term)
    requires TermOk(t)
    ensures TermOk(r)
  {
    if t.y + 1 < LINES then t.(y := t.y + 1) else t.(rows := t.rows[1..] + [BlankRow(t.cols)])
  }

  function ReverseIndex(t: Term): (r: Term)
    requires TermOk(t)
    ensures TermOk(r)
  {
    if t.y > 0 then t.(y := t.y - 1) else t.(rows := [BlankRow(t.cols)] + t.rows[..LINES - 1])
  }

  /** Store a cell at (x, y). */
  function Plot(t: Term, x: nat, y: nat, w: Cell): (r: Term)
    requires TermOk(t) && x < t.cols && y < LINES
    ensures TermOk(r)
  {
    t.(rows := t.rows[y := t.rows[y][x := w]])
  }

  function PutChar(t: Term, c: SignedChar): (r: Term)
    requires TermOk(t) && 0x20 <= c < 0x7F
    ensures TermOk(r)
  {
    var t1 := if t.x == t.cols then LineFeed(t.(x := 0)) else t;
    Plot(t1, t1.x, t1.y, (0x0700 + c as int) as Cell).(x := t1.x + 1)
  }

  function Delete(t: Term): (r: Term)
    requires TermOk(t)
    ensures TermOk(r)
  {
    if t.x == 0 then t else Plot(t.(x := t.x - 1), t.x - 1, t.y, BLANK)
  }

  /** The next multiple of 8; past the right margin it counts on in the next line. */
  function Tab(t: Term): (r: Term)
    requires TermOk(t)
    ensures TermOk(r)
  {
    var to := t.x + (8 - t.x % 8);
    if to > t.cols then LineFeed(t.(x := to - t.cols)) else t.(x := to)
  }

  function FeedNormal(t: Term, c: SignedChar, erase: nat): (r: Term)
    requires TermOk(t)
    ensures TermOk(r)
  {
    if 0x1F < c < 0x7F then PutChar(t, c)
    else if c == 0x1B then t.(mode := Esc)
    else if c == 0x0A || c == 0x0B || c == 0x0C then LineFeed(t)
    else if c == 0x0D then t.(x := 0)
    else if c as int == erase then Delete(t)
    else if c == 0x08 then t.(x := if t.x > 0 then t.x - 1 else 0)
    else if c == 0x09 then Tab(t)
    else t
  }

  /** Next line (ESC E) on the last line: a terminal would scroll, the console does not. */
  predicate Strays(t: Term, c: SignedChar) { t.mode == Esc && c == 0x45 && t.y == LINES - 1 }

  function FeedEsc(t: Term, c: SignedChar): (r: Term)
    requires TermOk(t) && !Strays(t.(mode := Esc), c)
    ensures TermOk(r)
  {
    var n := t.(mode := Normal);
    if c == 0x5B then t.(mode := Csi)                             // [
    else if c == 0x45 then n.(x := 0, y := t.y + 1)               // E
    else if c == 0x44 then LineFeed(n)                            // D
    else if c == 0x4D then ReverseIndex(n)                        // M
    else if c == 0x37 then n.(savedX := t.x, savedY := t.y)       // 7
    else if c == 0x38 then n.(x := t.savedX, y := t.savedY)       // 8
    else n
  }

  /** One byte. After ESC [ all further bytes are swallowed. */
  function Feed(t: Term, c: SignedChar, erase: nat): (r: Term)
    requires TermOk(t) && !Strays(t, c)
    ensures TermOk(r)
  {
    match t.mode
    case Normal => FeedNormal(t, c, erase)
    case Esc => FeedEsc(t, c)
    case Csi => t
  }

  /** No byte of s strays. */
  predicate Safe(t: Term, s: seq<SignedChar>, erase: nat)
    requires TermOk(t)
    decreases |s|
  {
    s == [] || (!Strays(t, s[0]) && Safe(Feed(t, s[0], erase), s[1..], erase))
  }

  function FeedAll(t: Term, s: seq<SignedChar>, erase: nat): (r: Term)
    requires TermOk(t) && Safe(t, s, erase)
    ensures TermOk(r)
    decreases |s|
  {
    if s == [] then t else FeedAll(Feed(t, s[0], erase), s[1..], erase)
  }

  /** The number of bytes before the first that strays, or of all. */
  function SafeLength(t: Term, s: seq<SignedChar>, erase: nat): (n: nat)
    requires TermOk(t)
    ensures n <= |s| && Safe(t, s[..n], erase) && (n < |s| ==> Strays(FeedAll(t, s[..n], erase), s[n]))
    ensures n == |s| <==> Safe(t, s, erase)
    decreases |s|
  {
    if s == [] then assert s[..0] == s; 0
    else if Strays(t, s[0]) then 0
    else
      var n := SafeLength(Feed(t, s[0], erase), s[1..], erase);
      assert s[..n + 1][1..] == s[1..][..n] && (n + 1 == |s| ==> s[..n + 1] == s);
      1 + n
  }

  /** As many line feeds. */
  function LineFeeds(n: nat): (s: seq<SignedChar>)
    ensures |s| == n
  {
    seq(n, _ => 0x0A)
  }

  lemma {:induction false} LineFeedsGoDown(t: Term, n: nat, erase: nat)
    requires TermOk(t) && t.mode == Normal && t.y + n <= LINES - 1
    ensures Safe(t, LineFeeds(n), erase) && FeedAll(t, LineFeeds(n), erase) == t.(y := t.y + n)
    decreases n
  {
    if n > 0 {
      assert LineFeeds(n)[1..] == LineFeeds(n - 1);
      LineFeedsGoDown(t.(y := t.y + 1), n - 1, erase);
    }
  }

  /** The bytes that lead a terminal in its normal state astray, such as one that has just been
      set up: line feeds to the last line, then ESC E. */
  lemma NextLineStrays(t: Term, erase: nat)
    requires TermOk(t) && t.mode == Normal
    ensures var s := LineFeeds(LINES - 1 - t.y) + [0x1B, 0x45];
      !Safe(t, s, erase) && SafeLength(t, s, erase) == |s| - 1
  {
    var n: nat := LINES - 1 - t.y;
    var s := LineFeeds(n) + [0x1B, 0x45];
    LineFeedsGoDown(t, n, erase);
    var t1 := t.(y := t.y + n);
    FeedSplit(t, LineFeeds(n), [0x1B, 0x45], erase);
    assert Feed(t1, 0x1B, erase) == t1.(mode := Esc) && [0x1B, 0x45][1..] == [0x45];
    assert !Safe(t1, [0x1B, 0x45], erase);
    FeedSplit(t, LineFeeds(n), [0x1B], erase);
    assert Safe(t1, [0x1B], erase);
    assert s[..n + 1] == LineFeeds(n) + [0x1B];
    SafeLengthIs(t, s, n + 1, erase);
  }

  lemma {:induction false} SafeLengthIs(t: Term, s: seq<SignedChar>, n: nat, erase: nat)
    requires TermOk(t) && n < |s| && Safe(t, s[..n], erase) && Strays(FeedAll(t, s[..n], erase), s[n])
    ensures SafeLength(t, s, erase) == n
    decreases n
  {
    if n > 0 {
      assert s[..n][1..] == s[1..][..n - 1];
      SafeLengthIs(Feed(t, s[0], erase), s[1..], n - 1, erase);
    }
  }

  /** Once ESC [ has been read nothing reaches the screen any more. */
  lemma {:induction false} CsiSwallows(t: Term, s: seq<SignedChar>, erase: nat)
    requires TermOk(t) && t.mode == Csi
    ensures Safe(t, s, erase) && FeedAll(t, s, erase) == t
    decreases |s|
  {
    if s != [] { CsiSwallows(t, s[1..], erase); }
  }

  /** Bytes can be fed in two parts. */
  lemma {:induction false} FeedSplit(t: Term, a: seq<SignedChar>, b: seq<SignedChar>, erase: nat)
    requires TermOk(t)
    ensures Safe(t, a + b, erase) <==> Safe(t, a, erase) && Safe(FeedAll(t, a, erase), b, erase)
    ensures Safe(t, a + b, erase) ==> FeedAll(t, a + b, erase) == FeedAll(FeedAll(t, a, erase), b, erase)
    decreases |a|
  {
    if a == [] {
      assert a + b == b;
    } else {
      assert (a + b)[1..] == a[1..] + b;
      if !Strays(t, a[0]) { FeedSplit(Feed(t, a[0], erase), a[1..], b, erase); }
    }
  }
}
