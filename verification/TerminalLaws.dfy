/** What strings of bytes do to the screen (driver/console.c:196-261, 318-427), said of positions
    and cells. */
module TerminalLaws {
  import opened TtyQueue
  import opened Terminal

  predicate Printable(s: seq<SignedChar>) { forall i :: 0 <= i < |s| ==> 0x20 <= s[i] < 0x7F }

  /** The cells that show s: grey on black. */
  function Shown(s: seq<SignedChar>): (r: seq<Cell>)
    requires Printable(s)
    ensures |r| == |s| && forall i :: 0 <= i < |s| ==> r[i] as int == 0x0700 + s[i] as int
  {
    seq(|s|, i requires 0 <= i < |s| => (0x0700 + s[i] as int) as Cell)
  }

  /** The cursor has moved to (x, y), and nothing else has changed but, perhaps, the rows. */
  predicate MovedTo(t: Term, r: Term, x: nat, y: nat) {
    && r.cols == t.cols && r.x == x && r.y == y && r.savedX == t.savedX && r.savedY == t.savedY
    && r.mode == Normal && |r.rows| == LINES == |t.rows|
  }

  /** All lines have moved up by one, and the last one is blank. */
  predicate MovedUp(a: seq<seq<Cell>>, b: seq<seq<Cell>>, cols: nat) {
    && |a| == |b| == LINES
    && (forall i :: 0 <= i < LINES - 1 ==> b[i] == a[i + 1])
    && Blank(b[LINES - 1], cols)
  }

  predicate Blank(row: seq<Cell>, cols: nat) { |row| == cols && forall j :: 0 <= j < cols ==> row[j] == 0x0720 }

  lemma OneByte(t: Term, c: SignedChar, erase: nat)
    requires TermOk(t) && !Strays(t, c)
    ensures Safe(t, [c], erase) && FeedAll(t, [c], erase) == Feed(t, c, erase)
  {
    assert [c][1..] == [];
  }

  /** Two bytes, the first of which is no escape. */
  lemma TwoBytes(t: Term, a: SignedChar, b: SignedChar, erase: nat)
    requires TermOk(t) && !Strays(t, a) && !Strays(Feed(t, a, erase), b)
    ensures Safe(t, [a, b], erase) && FeedAll(t, [a, b], erase) == Feed(Feed(t, a, erase), b, erase)
  {
    assert [a, b][1..] == [b];
    OneByte(Feed(t, a, erase), b, erase);
  }

  // ---- text ----

  /** One character short of the margin: it is shown at the cursor, and the cursor moves on. */
  lemma OneCharacter(t: Term, c: SignedChar, erase: nat)
    requires TermOk(t) && t.mode == Normal && 0x20 <= c < 0x7F && t.x < t.cols
    ensures var r := Feed(t, c, erase);
      && MovedTo(t, r, t.x + 1, t.y)
      && r.rows == t.rows[t.y := t.rows[t.y][..t.x] + Shown([c]) + t.rows[t.y][t.x + 1..]]
  {
    var row := t.rows[t.y];
    assert row[t.x := Shown([c])[0]] == row[..t.x] + Shown([c]) + row[t.x + 1..];
  }

  /** A string that fits in the line is shown from the cursor on, and nothing else changes. */
  lemma {:induction false} TextIsShown(t: Term, s: seq<SignedChar>, erase: nat)
    requires TermOk(t) && t.mode == Normal && Printable(s) && t.x + |s| <= t.cols
    ensures Safe(t, s, erase)
    ensures var r := FeedAll(t, s, erase);
      && MovedTo(t, r, t.x + |s|, t.y)
      && r.rows == t.rows[t.y := t.rows[t.y][..t.x] + Shown(s) + t.rows[t.y][t.x + |s|..]]
    decreases |s|
  {
    hide TermOk, FeedNormal, Shown;
    RowsOk(t);
    var row := t.rows[t.y];
    if s == [] {
      ShownNone();
      assert row[..t.x] + Shown(s) + row[t.x..] == row && t.rows[t.y := row] == t.rows;
    } else {
      OneCharacter(t, s[0], erase);
      var t1 := Feed(t, s[0], erase);
      RowsOk(t1);
      TextIsShown(t1, s[1..], erase);
      TextJoins(row, t.x, s);
      var row1 := row[..t.x] + Shown([s[0]]) + row[t.x + 1..];
      assert t.rows[t.y := row1][t.y := row[..t.x] + Shown(s) + row[t.x + |s|..]]
          == t.rows[t.y := row[..t.x] + Shown(s) + row[t.x + |s|..]];
    }
  }

  lemma TextJoins(row: seq<Cell>, x: nat, s: seq<SignedChar>)
    requires s != [] && Printable(s) && x + |s| <= |row|
    ensures var row1 := row[..x] + Shown([s[0]]) + row[x + 1..];
      |row1| == |row| && row1[..x + 1] + Shown(s[1..]) + row1[x + |s|..] == row[..x] + Shown(s) + row[x + |s|..]
  {
  }

  lemma ShownNone()
    ensures Shown([]) == []
  {
  }

  lemma RowsOk(t: Term)
    requires TermOk(t)
    ensures t.y < LINES == |t.rows| && t.x <= t.cols && |t.rows[t.y]| == t.cols && 4 <= t.cols
  {
  }

  /** A character at the margin is the first of the next line. */
  lemma Wraps(t: Term, c: SignedChar, erase: nat)
    requires TermOk(t) && t.mode == Normal && 0x20 <= c < 0x7F && t.x == t.cols
    ensures FeedAll(t, [c], erase) == FeedAll(t, [0x0D, 0x0A, c], erase)
  {
    OneByte(t, c, erase);
    var t1 := Feed(t, 0x0D, erase);
    assert [0x0D, 0x0A, c][1..] == [0x0A, c];
    TwoBytes(t1, 0x0A, c, erase);
  }

  /** Line feed, vertical tab and form feed: one line down in the same column; on the last line
      the screen moves up. */
  lemma LineFeeds3(t: Term, c: SignedChar, erase: nat)
    requires TermOk(t) && t.mode == Normal && 0x0A <= c <= 0x0C
    ensures var r := Feed(t, c, erase);
      && MovedTo(t, r, t.x, if t.y < 24 then t.y + 1 else 24)
      && (if t.y < 24 then r.rows == t.rows else MovedUp(t.rows, r.rows, t.cols))
  {
  }

  /** A line of text, carriage return and line feed: the text is in its row, and the cursor at the
      start of the next; on the last line the whole has moved up. */
  lemma LineIsShown(t: Term, s: seq<SignedChar>, erase: nat)
    requires TermOk(t) && t.mode == Normal && t.x == 0 && Printable(s) && |s| <= t.cols
    ensures Safe(t, s + [0x0D, 0x0A], erase)
    ensures var r := FeedAll(t, s + [0x0D, 0x0A], erase);
      var shown := t.rows[t.y := Shown(s) + t.rows[t.y][|s|..]];
      && MovedTo(t, r, 0, if t.y < 24 then t.y + 1 else 24)
      && (if t.y < 24 then r.rows == shown else MovedUp(shown, r.rows, t.cols))
  {
    TextIsShown(t, s, erase);
    var t1 := FeedAll(t, s, erase);
    FeedSplit(t, s, [0x0D, 0x0A], erase);
    TwoBytes(t1, 0x0D, 0x0A, erase);
    assert t.rows[t.y][..0] + Shown(s) == Shown(s);
    LineFeeds3(Feed(t1, 0x0D, erase), 0x0A, erase);
  }

  // ---- columns ----

  /** A tab stops at the next multiple of 8 of the line, if there is one; else the count goes on
      in the next line. */
  lemma TabStops(t: Term, erase: nat)
    requires TermOk(t) && t.mode == Normal && erase != 9
    ensures var r, r1 := Feed(t, 0x09, erase), Feed(t, 0x0A, erase);
      if exists s :: t.x < s <= t.cols && s % 8 == 0 then
        && MovedTo(t, r, r.x, t.y) && r.rows == t.rows
        && r.x % 8 == 0 && t.x < r.x <= t.cols && forall s :: t.x < s < r.x ==> s % 8 != 0
      else r.rows == r1.rows && MovedTo(t, r, r.x, r1.y) && (t.cols + r.x) % 8 == 0 && t.x < t.cols + r.x <= t.x + 8
  {
    var to := t.x + (8 - t.x % 8);
    assert to % 8 == 0 && forall s :: t.x < s < to ==> s % 8 != 0 by { NextStop(t.x); }
  }

  lemma NextStop(x: nat)
    ensures var to := x + (8 - x % 8); to % 8 == 0 && x < to <= x + 8 && forall s :: x < s < to ==> s % 8 != 0
  {
    var q := x / 8;
    assert x == 8 * q + x % 8;
    forall s | x < s < 8 * q + 8 ensures s % 8 != 0 { assert s == 8 * q + (s - 8 * q); }
  }

  /** Backspace takes the cursor back over a character, which stays; in column 0 it does nothing. */
  lemma BackspaceGoesBack(t: Term, c: SignedChar, erase: nat)
    requires TermOk(t) && t.mode == Normal && erase != 8 && 0x20 <= c < 0x7F && t.x < t.cols
    ensures FeedAll(t, [c, 0x08], erase) == Feed(t, c, erase).(x := t.x)
    ensures t.x == 0 ==> Feed(t, 0x08, erase) == t
  {
    TwoBytes(t, c, 0x08, erase);
  }

  /** The erase character takes a character back and leaves a blank; in column 0 it does nothing.
      It must be none of the bytes that mean something else. */
  lemma EraseBlanks(t: Term, c: SignedChar, erase: nat)
    requires TermOk(t) && t.mode == Normal && 0x20 <= c < 0x7F && t.x < t.cols
    requires erase < 0x80 && !(0x20 <= erase < 0x7F) && erase != 0x1B && !(0x0A <= erase <= 0x0D)
    ensures var r := FeedAll(t, [c, erase as SignedChar], erase);
      MovedTo(t, r, t.x, t.y) && r.rows == t.rows[t.y := t.rows[t.y][t.x := 0x0720]]
    ensures t.x == 0 ==> Feed(t, erase as SignedChar, erase) == t
  {
    TwoBytes(t, c, erase as SignedChar, erase);
    var shown := t.rows[t.y][t.x := (0x0700 + c as int) as Cell];
    assert shown[t.x := 0x0720] == t.rows[t.y][t.x := 0x0720];
    assert t.rows[t.y := shown][t.y := shown[t.x := 0x0720]] == t.rows[t.y := t.rows[t.y][t.x := 0x0720]];
  }

  /** The other control bytes, and all bytes from 0x80 on, do nothing. */
  lemma OtherBytes(t: Term, c: SignedChar, erase: nat)
    requires TermOk(t) && t.mode == Normal && c as int != erase
    requires c < 0x08 || 0x0E <= c < 0x1B || 0x1C <= c < 0x20 || c == 0x7F
    ensures Feed(t, c, erase) == t
  {
  }

  // ---- escape sequences ----

  /** ESC D is a line feed. */
  lemma EscD(t: Term, erase: nat)
    requires TermOk(t) && t.mode == Normal
    ensures FeedAll(t, [0x1B, 0x44], erase) == FeedAll(t, [0x0A], erase)
  {
    TwoBytes(t, 0x1B, 0x44, erase);
    OneByte(t, 0x0A, erase);
  }

  /** ESC E is a carriage return and a line feed, above the last line. */
  lemma EscE(t: Term, erase: nat)
    requires TermOk(t) && t.mode == Normal && t.y < 24
    ensures Safe(t, [0x1B, 0x45], erase) && FeedAll(t, [0x1B, 0x45], erase) == FeedAll(t, [0x0D, 0x0A], erase)
  {
    TwoBytes(t, 0x1B, 0x45, erase);
    TwoBytes(t, 0x0D, 0x0A, erase);
  }

  /** ESC M goes one line up in the same column, so that it undoes a line feed; on the first line
      the screen moves down. */
  lemma EscM(t: Term, erase: nat)
    requires TermOk(t) && t.mode == Normal
    ensures t.y < 24 ==> FeedAll(t, [0x0A, 0x1B, 0x4D], erase) == t
    ensures var r := FeedAll(t, [0x1B, 0x4D], erase);
      && MovedTo(t, r, t.x, if t.y > 0 then t.y - 1 else 0)
      && (if t.y > 0 then r.rows == t.rows
          else
            && (forall i :: 1 <= i < LINES ==> r.rows[i] == t.rows[i - 1])
            && Blank(r.rows[0], t.cols))
  {
    TwoBytes(t, 0x1B, 0x4D, erase);
    if t.y < 24 {
      assert [0x0A, 0x1B, 0x4D][1..] == [0x1B, 0x4D];
      TwoBytes(Feed(t, 0x0A, erase), 0x1B, 0x4D, erase);
    }
  }

  predicate NoEscape(s: seq<SignedChar>) { forall i :: 0 <= i < |s| ==> s[i] != 0x1B }

  lemma {:induction false} StaysNormal(t: Term, s: seq<SignedChar>, erase: nat)
    requires TermOk(t) && t.mode == Normal && NoEscape(s)
    ensures Safe(t, s, erase)
    ensures var r := FeedAll(t, s, erase);
      r.mode == Normal && r.savedX == t.savedX && r.savedY == t.savedY && r.cols == t.cols
    decreases |s|
  {
    if s != [] {
      var t1 := Feed(t, s[0], erase);
      assert t1.mode == Normal && t1.savedX == t.savedX && t1.savedY == t.savedY && t1.cols == t.cols;
      hide FeedNormal, Feed, TermOk;
      StaysNormal(t1, s[1..], erase);
    }
  }

  /** ESC 7, anything without an escape, ESC 8: the cursor is back where it was, over what has
      been written meanwhile. */
  lemma SaveRestore(t: Term, s: seq<SignedChar>, erase: nat)
    requires TermOk(t) && t.mode == Normal && NoEscape(s)
    ensures Safe(t, [0x1B, 0x37] + s + [0x1B, 0x38], erase) && Safe(t, s, erase)
    ensures var r := FeedAll(t, [0x1B, 0x37] + s + [0x1B, 0x38], erase);
      r.x == t.x && r.y == t.y && r.mode == Normal && r.rows == FeedAll(t, s, erase).rows
  {
    hide FeedAll, Feed;
    StaysNormal(t, s, erase);
    Saves(t, erase);
    var t1 := t.(savedX := t.x, savedY := t.y);
    StaysNormal(t1, s, erase);
    var t2 := FeedAll(t1, s, erase);
    SavedDoesNotShow(t, t1, s, erase);
    FeedSplit(t, [0x1B, 0x37], s, erase);
    FeedSplit(t, [0x1B, 0x37] + s, [0x1B, 0x38], erase);
    Restores(t2, erase);
  }

  lemma Saves(t: Term, erase: nat)
    requires TermOk(t) && t.mode == Normal
    ensures Safe(t, [0x1B, 0x37], erase)
    ensures FeedAll(t, [0x1B, 0x37], erase) == t.(savedX := t.x, savedY := t.y)
  {
    TwoBytes(t, 0x1B, 0x37, erase);
  }

  lemma Restores(t: Term, erase: nat)
    requires TermOk(t) && t.mode == Normal
    ensures Safe(t, [0x1B, 0x38], erase)
    ensures FeedAll(t, [0x1B, 0x38], erase) == t.(x := t.savedX, y := t.savedY)
  {
    TwoBytes(t, 0x1B, 0x38, erase);
  }

  /** The saved position shows nowhere. */
  lemma {:induction false} SavedDoesNotShow(a: Term, b: Term, s: seq<SignedChar>, erase: nat)
    requires TermOk(a) && TermOk(b) && a.mode == Normal && NoEscape(s)
    requires b == a.(savedX := b.savedX, savedY := b.savedY)
    requires Safe(a, s, erase) && Safe(b, s, erase)
    ensures FeedAll(b, s, erase) == FeedAll(a, s, erase).(savedX := b.savedX, savedY := b.savedY)
    decreases |s|
  {
    if s != [] {
      var a1, b1 := Feed(a, s[0], erase), Feed(b, s[0], erase);
      assert b1 == a1.(savedX := b.savedX, savedY := b.savedY) && a1.mode == Normal;
      hide FeedNormal, Feed;
      SavedDoesNotShow(a1, b1, s[1..], erase);
    }
  }

  /** Any other byte after ESC, but for [, is dropped with it. */
  lemma OtherEscapes(t: Term, c: SignedChar, erase: nat)
    requires TermOk(t) && t.mode == Normal && c !in {0x5B, 0x45, 0x44, 0x4D, 0x37, 0x38}
    ensures FeedAll(t, [0x1B, c], erase) == t
  {
    TwoBytes(t, 0x1B, c, erase);
  }
}
