/** What copy_to_cooked (driver/tty_io.c:67-248) does with what is typed, said by the settings
    and the numbers of the characters alone. */
module LineLaws {
  import opened TtyQueue
  import opened LineDisc

  // ---- one key ----

  /** The key reaches the line as c: CR is 13 and NL is 10. */
  ghost predicate Arrives(typed: SignedChar, c: SignedChar, t: Termios) {
    && (typed == 13 && t.crnl ==> c == 10)
    && (typed == 13 && !t.crnl ==> c == 13 && !t.igncr)
    && (typed == 10 && t.nlcr ==> c == 13)
    && (typed == 10 && !t.nlcr ==> c == 10)
    && (65 <= typed <= 90 && t.uclc ==> c == typed + 32)
    && (65 <= typed <= 90 && !t.uclc ==> c == typed)
    && (typed < 65 && typed != 10 && typed != 13 ==> c == typed)
    && (typed > 90 ==> c == typed)
  }

  /** The character ends a line that is being typed. */
  ghost predicate EndsLine(c: SignedChar, t: Termios) { c == 10 || c as int == t.eof }

  /** v is the longest prefix of w that is empty or ends a line. */
  ghost predicate FinishedPart(w: seq<SignedChar>, v: seq<SignedChar>, t: Termios) {
    v <= w && (v == [] || EndsLine(v[|v| - 1], t)) && forall i :: |v| <= i < |w| ==> !EndsLine(w[i], t)
  }

  /** Only CR can be ignored, and is just when it is not made NL and is to be ignored. */
  lemma Ignores(st: State, typed: SignedChar, t: Termios)
    ensures (forall c :: !Arrives(typed, c, t)) <==> (typed == 13 && !t.crnl && t.igncr)
    ensures (forall c :: !Arrives(typed, c, t)) ==> Step(st, typed, t) == st
  {
    if typed != 13 || t.crnl || !t.igncr {
      var d: SignedChar := if typed == 13 && t.crnl then 10 else if typed == 10 && t.nlcr then 13 else typed;
      assert Arrives(typed, if t.uclc && 65 <= d <= 90 then d + 32 else d, t);
    }
  }

  /** What every key does that is not ignored: kill before erase before stop before start, and
      only in canonical mode; everything else is stored, and counted if it ends a line. */
  lemma KeyDoes(st: State, typed: SignedChar, c: SignedChar, t: Termios)
    requires Arrives(typed, c, t)
    ensures t.canon && c as int == t.kill ==>
              FinishedPart(st.text, Step(st, typed, t).text, t)
              && Step(st, typed, t).data == st.data && Step(st, typed, t).stopped == st.stopped
    ensures t.canon && c as int != t.kill && c as int == t.erase ==>
              Step(st, typed, t) == if st.text == [] || EndsLine(st.text[|st.text| - 1], t) then st
                                    else State(st.text[..|st.text| - 1], st.data, st.stopped)
    ensures t.canon && c as int != t.kill && c as int != t.erase && c as int == t.stop ==>
              Step(st, typed, t) == State(st.text, st.data, true)
    ensures t.canon && c as int != t.kill && c as int != t.erase && c as int != t.stop && c as int == t.start ==>
              Step(st, typed, t) == State(st.text, st.data, false)
    ensures !t.canon || (c as int !in {t.kill, t.erase, t.stop, t.start}) ==>
              Step(st, typed, t) == State(st.text + [c],
                                          if EndsLine(c, t) then (st.data + 1) % 0x1_0000_0000 else st.data,
                                          st.stopped)
  {
    KillIsLongest(st.text, t);
  }

  // ---- whole lines ----

  /** Keys that are neither translated nor mean anything: letters, digits and the like. */
  ghost predicate Plain(c: SignedChar, t: Termios) {
    && c != 10 && c != 13 && c as int != t.eof && (t.uclc ==> c < 65 || c > 90)
    && c as int !in {t.kill, t.erase, t.stop, t.start}
  }

  ghost predicate AllPlain(s: seq<SignedChar>, t: Termios) { forall i :: 0 <= i < |s| ==> Plain(s[i], t) }

  /** Plain keys are stored as they are, in order. */
  lemma {:induction false} PlainKeysAreStored(st: State, s: seq<SignedChar>, t: Termios)
    requires AllPlain(s, t)
    ensures Feed(st, s, t) == State(st.text + s, st.data, st.stopped)
  {
    hide Step;
    if s == [] {
      assert st.text + s == st.text;
    } else {
      var front, c := s[..|s| - 1], s[|s| - 1];
      PlainKeysAreStored(st, front, t);
      KeyDoes(Feed(st, front, t), c, c, t);
      assert st.text + front + [c] == st.text + s;
    }
  }

  lemma OneMore(st: State, s: seq<SignedChar>, c: SignedChar, t: Termios)
    ensures Feed(st, s + [c], t) == Step(Feed(st, s, t), c, t)
  {
    hide Step;
    assert (s + [c])[..|s|] == s;
  }

  /** Enter sends CR: under CRNL the line reaches secondary, ended by NL, and is counted. */
  lemma EnterEndsLine(st: State, s: seq<SignedChar>, t: Termios)
    requires AllPlain(s, t) && t.crnl && 10 !in {t.kill, t.erase, t.stop, t.start}
    ensures Feed(st, s + [13], t) == State(st.text + s + [10], (st.data + 1) % 0x1_0000_0000, st.stopped)
  {
    hide Step;
    PlainKeysAreStored(st, s, t);
    OneMore(st, s, 13, t);
    KeyDoes(Feed(st, s, t), 13, 10, t);
  }

  /** The erase character typed n times takes back the last n of at least n plain keys. */
  lemma {:induction false} EraseTakesBack(st: State, s: seq<SignedChar>, e: SignedChar, n: nat, t: Termios)
    requires AllPlain(s, t) && n <= |s| && t.canon && e as int == t.erase != t.kill
    requires Arrives(e, e, t)
    ensures Feed(st, s + seq(n, _ => e), t) == State(st.text + s[..|s| - n], st.data, st.stopped)
  {
    hide Step, AllPlain, Arrives;
    if n == 0 {
      assert s + seq(n, _ => e) == s == s[..|s| - n];
      PlainKeysAreStored(st, s, t);
    } else {
      EraseTakesBack(st, s, e, n - 1, t);
      var before := s + seq(n - 1, _ => e);
      assert s + seq(n, _ => e) == before + [e];
      OneMore(st, before, e, t);
      KeyDoes(Feed(st, before, t), e, e, t);
      PlainAt(s, |s| - n, t);
      var w := st.text + s[..|s| - (n - 1)];
      assert w[|w| - 1] == s[|s| - n] && w[..|w| - 1] == st.text + s[..|s| - n];
    }
  }

  lemma PlainAt(s: seq<SignedChar>, i: nat, t: Termios)
    requires AllPlain(s, t) && i < |s|
    ensures !EndsLine(s[i], t)
  {
  }

  /** The kill character takes back the line that was begun, whatever was typed of it. */
  lemma KillTakesBack(st: State, s: seq<SignedChar>, k: SignedChar, t: Termios)
    requires AllPlain(s, t) && t.canon && k as int == t.kill && Arrives(k, k, t)
    requires st.text == [] || EndsLine(st.text[|st.text| - 1], t)
    ensures Feed(st, s + [k], t) == st
  {
    hide Step, Plain, Feed;
    PlainKeysAreStored(st, s, t);
    OneMore(st, s, k, t);
    KeyDoes(Feed(st, s, t), k, k, t);
    var w, v := st.text + s, Step(Feed(st, s, t), k, t).text;
    forall i: nat | |st.text| <= i < |w| ensures !EndsLine(w[i], t) { PlainAt(s, i - |st.text|, t); }
    assert |v| <= |st.text|;
    assert st.text != [] ==> EndsLine(w[|st.text| - 1], t);
  }

  /** Stop and start leave no trace in the text, and the last of them counts. */
  lemma StopAndStart(st: State, s: seq<SignedChar>, x: SignedChar, y: SignedChar, t: Termios)
    requires AllPlain(s, t) && t.canon && Arrives(x, x, t) && Arrives(y, y, t)
    requires x as int == t.stop && x as int !in {t.kill, t.erase}
    requires y as int == t.start && y as int !in {t.kill, t.erase, t.stop}
    ensures Feed(st, [x] + s, t) == State(st.text + s, st.data, true)
    ensures Feed(st, [x] + s + [y], t) == State(st.text + s, st.data, false)
  {
    hide Step, Plain, Arrives, AllPlain;
    KeyDoes(st, x, x, t);
    OneMore(st, [], x, t);
    assert [] + [x] == [x];
    FeedSplit(st, [x], s, t);
    PlainKeysAreStored(Feed(st, [x], t), s, t);
    OneMore(st, [x] + s, y, t);
    KeyDoes(Feed(st, [x] + s, t), y, y, t);
  }
}
