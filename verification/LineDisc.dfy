/** copy_to_cooked (driver/tty_io.c:67-248): the line discipline between read_q and secondary.
    What is echoed to write_q is not part of the model. */
module LineDisc {
  import opened TtyQueue

  const CR: SignedChar := 0x0D
  const NL: SignedChar := 0x0A

  /** The settings copy_to_cooked tests. The characters are bytes and compared with a signed
      char, so one of 128 or more never matches. `canon` is the bit tested at line 103. */
  datatype Termios = Termios(crnl: bool, igncr: bool, nlcr: bool, uclc: bool, canon: bool,
                             kill: nat, erase: nat, eof: nat, start: nat, stop: nat)

  /** `data` counts the marks of text modulo 2^32. */
  datatype State = State(text: seq<SignedChar>, data: nat, stopped: bool)

  /** What a character typed asks for. */
  datatype Key = Ignored | Kills | Erases | Stops | Starts | Stores(c: SignedChar)

  predicate Mark(c: SignedChar, t: Termios) { c == NL || c as int == t.eof }

  function Lower(c: SignedChar): SignedChar { if 65 <= c <= 90 then c + 32 else c }

  function KeyOf(typed: SignedChar, t: Termios): Key {
    if typed == CR && !t.crnl && t.igncr then Ignored
    else
      var d := if typed == CR && t.crnl then NL else if typed == NL && t.nlcr then CR else typed;
      var c := if t.uclc then Lower(d) else d;
      if !t.canon then Stores(c)
      else if c as int == t.kill then Kills
      else if c as int == t.erase then Erases
      else if c as int == t.stop then Stops
      else if c as int == t.start then Starts
      else Stores(c)
  }

  function Erase(w: seq<SignedChar>, t: Termios): seq<SignedChar> {
    if w == [] || Mark(w[|w| - 1], t) then w else w[..|w| - 1]
  }

  function Kill(w: seq<SignedChar>, t: Termios): (r: seq<SignedChar>)
    ensures |r| <= |w|
  {
    if w == [] || Mark(w[|w| - 1], t) then w else Kill(w[..|w| - 1], t)
  }

  function Step(st: State, typed: SignedChar, t: Termios): State {
    match KeyOf(typed, t)
    case Ignored => st
    case Kills => State(Kill(st.text, t), st.data, st.stopped)
    case Erases => State(Erase(st.text, t), st.data, st.stopped)
    case Stops => State(st.text, st.data, true)
    case Starts => State(st.text, st.data, false)
    case Stores(c) => State(st.text + [c], if Mark(c, t) then (st.data + 1) % 0x1_0000_0000 else st.data, st.stopped)
  }

  /** Everything typed, one character after the other. */
  function Feed(st: State, s: seq<SignedChar>, t: Termios): State {
    if s == [] then st else Step(Feed(st, s[..|s| - 1], t), s[|s| - 1], t)
  }

  predicate Full(st: State) { |st.text| >= TTY_BUF_SIZE - 1 }

  /** How much of s is taken if k characters are: all of it, unless secondary fills up. */
  function Taken(st: State, s: seq<SignedChar>, k: nat, t: Termios): (n: nat)
    requires k <= |s|
    ensures k <= n <= |s| && (n < |s| ==> Full(Feed(st, s[..n], t)))
    ensures forall j :: k <= j < n ==> !Full(Feed(st, s[..j], t))
    decreases |s| - k
  {
    if k == |s| || Full(Feed(st, s[..k], t)) then k else Taken(st, s, k + 1, t)
  }

  /** One call of copy_to_cooked with s in read_q: the new state, and what stays in read_q. */
  function Cook(st: State, s: seq<SignedChar>, t: Termios): (State, seq<SignedChar>) {
    var n := Taken(st, s, 0, t);
    (Feed(st, s[..n], t), s[n..])
  }

  // ---- lines ----

  /** Kill leaves exactly the longest prefix that is empty or ends in a mark. */
  lemma {:induction false} KillIsLongest(w: seq<SignedChar>, t: Termios)
    ensures var r := Kill(w, t);
      r == w[..|r|] && (r == [] || Mark(r[|r| - 1], t)) && forall i :: |r| <= i < |w| ==> !Mark(w[i], t)
  {
    if w != [] && !Mark(w[|w| - 1], t) {
      KillIsLongest(w[..|w| - 1], t);
    }
  }

  /** Such a prefix is unique. */
  lemma {:induction false} KillIs(w: seq<SignedChar>, n: nat, t: Termios)
    requires n <= |w| && (n == 0 || Mark(w[n - 1], t)) && forall i :: n <= i < |w| ==> !Mark(w[i], t)
    ensures Kill(w, t) == w[..n]
    decreases |w|
  {
    if n < |w| {
      assert w[..|w| - 1][..n] == w[..n];
      KillIs(w[..|w| - 1], n, t);
    } else {
      assert w[..n] == w;
    }
  }

  function Marks(w: seq<SignedChar>, t: Termios): (n: nat)
    ensures n <= |w|
  {
    if w == [] then 0 else Marks(w[..|w| - 1], t) + if Mark(w[|w| - 1], t) then 1 else 0
  }

  lemma {:induction false} KillKeepsMarks(w: seq<SignedChar>, t: Termios)
    ensures Marks(Kill(w, t), t) == Marks(w, t) && Marks(Erase(w, t), t) == Marks(w, t)
  {
    if w != [] && !Mark(w[|w| - 1], t) {
      KillKeepsMarks(w[..|w| - 1], t);
    }
  }

  /** The lines typed so far, without the one being typed, stay as they are. */
  lemma StepKeepsLines(st: State, typed: SignedChar, t: Termios)
    ensures Kill(st.text, t) <= Kill(Step(st, typed, t).text, t)
  {
    var w, v := st.text, Step(st, typed, t).text;
    KillIsLongest(w, t);
    match KeyOf(typed, t)
    case Stores(c) =>
      assert (w + [c])[..|w|] == w;
    case Kills =>
      assert Kill(v, t) == v by { KillIs(v, |v|, t); }
    case _ =>
  }

  predicate Good(st: State, t: Termios) {
    |st.text| < TTY_BUF_SIZE && st.data == Marks(st.text, t)
  }

  lemma StepKeepsCount(st: State, typed: SignedChar, t: Termios)
    requires Good(st, t) && !Full(st)
    ensures Good(Step(st, typed, t), t)
  {
    hide KeyOf, Mark, Kill, Marks;
    KillKeepsMarks(st.text, t);
    match KeyOf(typed, t)
    case Stores(c) => MarksPush(st.text, c, t);
    case Erases => assert |Erase(st.text, t)| <= |st.text|;
    case _ =>
  }

  lemma MarksPush(w: seq<SignedChar>, c: SignedChar, t: Termios)
    ensures Marks(w + [c], t) == Marks(w, t) + if Mark(c, t) then 1 else 0
  {
    assert (w + [c])[..|w|] == w;
  }

  /** With no reader, `data` stays the number of marks in secondary, which never overflows. */
  lemma {:induction false} FeedKeepsCount(st: State, s: seq<SignedChar>, t: Termios)
    requires Good(st, t) && forall k :: 0 <= k < |s| ==> !Full(Feed(st, s[..k], t))
    ensures Good(Feed(st, s, t), t)
  {
    if s != [] {
      var s' := s[..|s| - 1];
      assert forall k :: 0 <= k < |s| ==> s'[..k] == s[..k];
      assert s' == s[..|s'|];
      FeedKeepsCount(st, s', t);
      StepKeepsCount(Feed(st, s', t), s[|s| - 1], t);
    }
  }

  lemma {:induction false} FeedKeepsLines(st: State, s: seq<SignedChar>, t: Termios)
    ensures Kill(st.text, t) <= Kill(Feed(st, s, t).text, t)
  {
    if s != [] {
      FeedKeepsLines(st, s[..|s| - 1], t);
      StepKeepsLines(Feed(st, s[..|s| - 1], t), s[|s| - 1], t);
    }
  }

  /** What one call promises for every input: secondary does not overflow, `data` counts its
      marks, no finished line is touched, and the call ends with read_q empty or 1023 characters in
      secondary. */
  lemma CookIsSafe(st: State, s: seq<SignedChar>, t: Termios)
    requires Good(st, t)
    ensures var (st', left) := Cook(st, s, t);
      Good(st', t) && Kill(st.text, t) <= st'.text && (left != [] ==> |st'.text| == 1023)
  {
    var n := Taken(st, s, 0, t);
    assert forall k :: 0 <= k < n ==> s[..n][..k] == s[..k];
    FeedKeepsCount(st, s[..n], t);
    FeedKeepsLines(st, s[..n], t);
    KillIsLongest(Feed(st, s[..n], t).text, t);
  }

  // ---- arrival in pieces ----

  lemma {:induction false} FeedSplit(st: State, s: seq<SignedChar>, u: seq<SignedChar>, t: Termios)
    ensures Feed(st, s + u, t) == Feed(Feed(st, s, t), u, t)
    decreases |u|
  {
    if u == [] {
      assert s + u == s;
    } else {
      var u' := u[..|u| - 1];
      assert (s + u)[..|s + u| - 1] == s + u';
      FeedSplit(st, s, u', t);
    }
  }

  lemma TakenIs(st: State, s: seq<SignedChar>, n: nat, t: Termios)
    requires n <= |s| && (n < |s| ==> Full(Feed(st, s[..n], t)))
    requires forall j :: 0 <= j < n ==> !Full(Feed(st, s[..j], t))
    ensures Taken(st, s, 0, t) == n
  {
  }

  /** One call per interrupt or one for all of them: what arrives in pieces is cooked alike. */
  lemma CookSplit(st: State, s: seq<SignedChar>, u: seq<SignedChar>, t: Termios)
    ensures var (st', left) := Cook(st, s, t);
      Cook(st', left + u, t) == Cook(st, s + u, t)
  {
    hide Full, Feed;
    var n := Taken(st, s, 0, t);
    var st', v := Feed(st, s[..n], t), s[n..] + u;
    var m := Taken(st', v, 0, t);
    var w := s + u;
    forall j | 0 <= j <= |v| ensures Feed(st', v[..j], t) == Feed(st, w[..n + j], t) {
      FeedSplit(st, s[..n], v[..j], t);
      assert s[..n] + v[..j] == w[..n + j];
    }
    forall j | 0 <= j < n ensures !Full(Feed(st, w[..j], t)) {
      assert w[..j] == s[..j];
    }
    forall j | n <= j < n + m ensures !Full(Feed(st, w[..j], t)) {
      assert w[..n + (j - n)] == w[..j] && !Full(Feed(st', v[..j - n], t));
    }
    TakenIs(st, w, n + m, t);
    assert v[m..] == w[n + m..];
  }

  // ---- what survives ----

  function Erased(w: seq<SignedChar>, n: nat, t: Termios): seq<SignedChar> {
    if n == 0 then w else Erased(Erase(w, t), n - 1, t)
  }

  /** What the erases and the kill typed later take from w. */
  function Undo(w: seq<SignedChar>, erases: nat, killed: bool, t: Termios): seq<SignedChar> {
    if killed then Kill(w, t) else Erased(w, erases, t)
  }

  /** An independent account of editing, which reads backwards and keeps no line: of what was
      typed before a kill only the part up to the last mark remains; an erase typed later takes
      away the nearest character that no other erase takes, unless a mark stands between. */
  function Survivors(w: seq<SignedChar>, s: seq<SignedChar>, erases: nat, killed: bool, t: Termios): seq<SignedChar>
    decreases |s|
  {
    if s == [] then Undo(w, erases, killed, t)
    else
      var front := s[..|s| - 1];
      match KeyOf(s[|s| - 1], t)
      case Kills => Survivors(w, front, 0, true, t)
      case Erases => Survivors(w, front, erases + 1, killed, t)
      case Stores(c) =>
        if Mark(c, t) then Survivors(w, front, 0, false, t) + [c]
        else if killed then Survivors(w, front, erases, true, t)
        else if erases > 0 then Survivors(w, front, erases - 1, false, t)
        else Survivors(w, front, 0, false, t) + [c]
      case _ => Survivors(w, front, erases, killed, t)
  }

  lemma {:induction false} ErasesStopAtMark(w: seq<SignedChar>, n: nat, t: Termios)
    requires w == [] || Mark(w[|w| - 1], t)
    ensures Erased(w, n, t) == w
  {
    if n > 0 { ErasesStopAtMark(w, n - 1, t); }
  }

  lemma UndoStep(st: State, typed: SignedChar, erases: nat, killed: bool, t: Termios)
    ensures var w := st.text; (Undo(Step(st, typed, t).text, erases, killed, t) == (
      match KeyOf(typed, t)
      case Kills => Undo(w, 0, true, t)
      case Erases => Undo(w, erases + 1, killed, t)
      case Stores(c) =>
        if Mark(c, t) then Undo(w, 0, false, t) + [c]
        else if killed then Undo(w, erases, true, t)
        else if erases > 0 then Undo(w, erases - 1, false, t)
        else Undo(w, 0, false, t) + [c]
      case _ => Undo(w, erases, killed, t)))
  {
    hide KeyOf, Mark;
    var w := st.text;
    match KeyOf(typed, t)
    case Kills =>
      KillIsLongest(w, t);
      ErasesStopAtMark(Kill(w, t), erases, t);
    case Stores(c) =>
      assert (w + [c])[..|w|] == w;
      if Mark(c, t) { ErasesStopAtMark(w + [c], erases, t); }
    case _ =>
  }

  /** Editing forwards and reading backwards agree on every input. */
  lemma {:induction false} EditingIsSurvival(st: State, s: seq<SignedChar>, erases: nat, killed: bool, t: Termios)
    ensures Undo(Feed(st, s, t).text, erases, killed, t) == Survivors(st.text, s, erases, killed, t)
    decreases |s|
  {
    hide Undo, Step, KeyOf, Mark;
    if s == [] {
      assert Feed(st, s, t) == st;
    } else {
      var front, c := s[..|s| - 1], s[|s| - 1];
      UndoStep(Feed(st, front, t), c, erases, killed, t);
      match KeyOf(c, t)
      case Kills => EditingIsSurvival(st, front, 0, true, t);
      case Erases => EditingIsSurvival(st, front, erases + 1, killed, t);
      case Stores(d) =>
        if Mark(d, t) || (!killed && erases == 0) { EditingIsSurvival(st, front, 0, false, t); }
        else if killed { EditingIsSurvival(st, front, erases, true, t); }
        else { EditingIsSurvival(st, front, erases - 1, false, t); }
      case _ => EditingIsSurvival(st, front, erases, killed, t);
    }
  }

  lemma UndoIs(w: seq<SignedChar>, erases: nat, killed: bool, t: Termios)
    ensures Undo(w, erases, killed, t) == if killed then Kill(w, t) else Erased(w, erases, t)
    ensures Undo(w, 0, false, t) == w
  {
  }

  /** What secondary holds after a call, said without running it. */
  lemma CookedText(st: State, s: seq<SignedChar>, t: Termios)
    ensures var (st', left) := Cook(st, s, t);
      left == s[|s| - |left|..] && st'.text == Survivors(st.text, s[..|s| - |left|], 0, false, t)
  {
    var n := Taken(st, s, 0, t);
    EditingIsSurvival(st, s[..n], 0, false, t);
    UndoIs(Feed(st, s[..n], t).text, 0, false, t);
  }

  // ---- the routine ----

  class Tty {
    const termios: Termios
    var stopped: bool
    const readQueue: TtyQueue
    const secondary: TtyQueue

    predicate Valid()
      reads this, readQueue, readQueue.buf, secondary, secondary.buf
    {
      readQueue != secondary && readQueue.buf != secondary.buf && readQueue.Valid() && secondary.Valid()
    }

    function View(): State
      reads this, secondary, secondary.buf
      requires secondary.Valid()
    {
      State(secondary.Contents(), secondary.data, stopped)
    }

    constructor (termios: Termios)
      ensures Valid() && this.termios == termios && View() == State([], 0, false) && readQueue.Contents() == []
      ensures fresh(readQueue) && fresh(secondary) && fresh(readQueue.buf) && fresh(secondary.buf)
    {
      this.termios, stopped := termios, false;
      readQueue := new TtyQueue();
      secondary := new TtyQueue();
    }

    /** The loop behind the kill character. */
    method KillLine()
      requires Valid()
      modifies secondary`head
      ensures Valid() && secondary.Contents() == Kill(old(secondary.Contents()), termios)
    {
      while secondary.Contents() != []
        invariant Valid()
        invariant Kill(secondary.Contents(), termios) == Kill(old(secondary.Contents()), termios)
        decreases |secondary.Contents()|
      {
        var c := secondary.Last();
        if Mark(c, termios) { return; }
        secondary.DropLast();
      }
    }

    /** The erase character. */
    method EraseLast()
      requires Valid()
      modifies secondary`head
      ensures Valid() && secondary.Contents() == Erase(old(secondary.Contents()), termios)
    {
      if secondary.Contents() == [] { return; }
      var c := secondary.Last();
      if !Mark(c, termios) { secondary.DropLast(); }
    }

    /** The body of the loop, after the character was taken. */
    method OneCharacter(typed: SignedChar)
      requires Valid() && |secondary.Contents()| < TTY_BUF_SIZE - 1
      modifies this`stopped, secondary`head, secondary`data, secondary.buf
      ensures Valid() && View() == Step(old(View()), typed, termios)
    {
      hide IndexOk, Kill;
      var c := typed;
      if c == CR {
        if termios.crnl { c := NL; }
        else if termios.igncr { return; }
      } else if c == NL && termios.nlcr {
        c := CR;
      }
      if termios.uclc { c := Lower(c); }
      if termios.canon {
        if c as int == termios.kill { KillLine(); return; }
        if c as int == termios.erase { EraseLast(); return; }
        if c as int == termios.stop { stopped := true; return; }
        if c as int == termios.start { stopped := false; return; }
      }
      assert KeyOf(typed, termios) == Stores(c);
      if Mark(c, termios) { secondary.data := (secondary.data + 1) % 0x1_0000_0000; }
      secondary.Put(c);
    }

    /** copy_to_cooked. */
    method CopyToCooked()
      requires Valid() && |secondary.Contents()| < TTY_BUF_SIZE
      modifies this`stopped, readQueue`tail, secondary`head, secondary`data, secondary.buf
      ensures Valid() && (View(), readQueue.Contents()) == Cook(old(View()), old(readQueue.Contents()), termios)
    {
      hide Step, IndexOk;
      ghost var s, st := readQueue.Contents(), View();
      ghost var n := 0;
      assert s[..0] == [] && s[0..] == s;
      while readQueue.Contents() != [] && |secondary.Contents()| < TTY_BUF_SIZE - 1
        invariant Valid() && 0 <= n <= |s| && readQueue.Contents() == s[n..]
        invariant View() == Feed(st, s[..n], termios)
        invariant forall j :: 0 <= j < n ==> !Full(Feed(st, s[..j], termios))
        decreases |readQueue.Contents()|
      {
        assert s[..n + 1][..n] == s[..n] && s[n + 1..] == s[n..][1..];
        var c := readQueue.Take();
        assert c == s[n];
        OneCharacter(c);
        n := n + 1;
      }
      TakenIs(st, s, n, termios);
    }
  }
}
