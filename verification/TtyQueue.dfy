/** struct tty_queue and its macros (include/linux/tty.h): a ring of 1024 characters. */
module TtyQueue {
  const TTY_BUF_SIZE := 1024

  newtype SignedChar = x: int | -128 <= x < 128   // char is signed

  // ---- the macros, on indices; 1024 divides 2^32, so & (1024 - 1) is % 1024 ----

  function Inc(p: nat): nat { (p + 1) % TTY_BUF_SIZE }
  function Dec(p: nat): nat { (p - 1) % TTY_BUF_SIZE }
  function ReadSpace(head: nat, tail: nat): nat { (head - tail) % TTY_BUF_SIZE }
  function WriteSpace(head: nat, tail: nat): nat { (tail - head - 1) % TTY_BUF_SIZE }

  predicate IndexOk(buf: seq<SignedChar>, head: nat, tail: nat) {
    |buf| == TTY_BUF_SIZE && head < TTY_BUF_SIZE && tail < TTY_BUF_SIZE
  }

  /** The characters waiting, oldest first. */
  function Waiting(buf: seq<SignedChar>, head: nat, tail: nat): (s: seq<SignedChar>)
    requires IndexOk(buf, head, tail)
    ensures |s| == ReadSpace(head, tail)
  {
    seq(ReadSpace(head, tail), i requires 0 <= i => buf[(tail + i) % TTY_BUF_SIZE])
  }

  /** One slot is never used: 1023 characters fill the ring, and both spaces add up to 1023. */
  lemma Spaces(buf: seq<SignedChar>, head: nat, tail: nat)
    requires IndexOk(buf, head, tail)
    ensures |Waiting(buf, head, tail)| + WriteSpace(head, tail) == TTY_BUF_SIZE - 1
    ensures (ReadSpace(head, tail) == 0) <==> Waiting(buf, head, tail) == []
  {
  }

  /** Storing at head and incrementing it appends, unless the ring was full: then it empties it. */
  lemma PushAppends(buf: seq<SignedChar>, head: nat, tail: nat, c: SignedChar)
    requires IndexOk(buf, head, tail)
    ensures Waiting(buf[head := c], Inc(head), tail) ==
      if WriteSpace(head, tail) == 0 then [] else Waiting(buf, head, tail) + [c]
  {
    hide ReadSpace, WriteSpace;
    var a, b := Waiting(buf, head, tail), Waiting(buf[head := c], Inc(head), tail);
    SpaceAfterPush(head, tail);
    if WriteSpace(head, tail) != 0 {
      forall i | 0 <= i < |a| ensures b[i] == a[i] { SlotsDiffer(head, tail, i); }
    }
  }

  lemma SpaceAfterPush(head: nat, tail: nat)
    requires head < TTY_BUF_SIZE && tail < TTY_BUF_SIZE
    ensures ReadSpace(Inc(head), tail) == if WriteSpace(head, tail) == 0 then 0 else ReadSpace(head, tail) + 1
    ensures (tail + ReadSpace(head, tail)) % TTY_BUF_SIZE == head
  {
    hide ReadSpace, WriteSpace, Inc;
    SpacesAre(head, tail);
    IncIs(head);
    SpacesAre(Inc(head), tail);
  }

  lemma IncIs(p: nat)
    requires p < TTY_BUF_SIZE
    ensures Inc(p) == if p == TTY_BUF_SIZE - 1 then 0 else p + 1
  {
  }

  lemma SpacesAre(head: nat, tail: nat)
    requires head < TTY_BUF_SIZE && tail < TTY_BUF_SIZE
    ensures ReadSpace(head, tail) == if tail <= head then head - tail else head - tail + TTY_BUF_SIZE
    ensures WriteSpace(head, tail) == if head < tail then tail - head - 1 else tail - head - 1 + TTY_BUF_SIZE
  {
  }

  lemma SlotsDiffer(head: nat, tail: nat, i: nat)
    requires head < TTY_BUF_SIZE && tail < TTY_BUF_SIZE && i < ReadSpace(head, tail)
    ensures (tail + i) % TTY_BUF_SIZE != head
  {
  }

  /** Incrementing tail drops the oldest character. */
  lemma PopDrops(buf: seq<SignedChar>, head: nat, tail: nat)
    requires IndexOk(buf, head, tail) && ReadSpace(head, tail) != 0
    ensures var w := Waiting(buf, head, tail);
      |w| > 0 && w[0] == buf[tail] && Waiting(buf, head, Inc(tail)) == w[1..]
  {
  }

  /** LAST is the newest character, and decrementing head removes it. */
  lemma UnpushDrops(buf: seq<SignedChar>, head: nat, tail: nat)
    requires IndexOk(buf, head, tail) && ReadSpace(head, tail) != 0
    ensures var w := Waiting(buf, head, tail);
      |w| > 0 && w[|w| - 1] == buf[Dec(head)] && Waiting(buf, Dec(head), tail) == w[..|w| - 1]
  {
  }

  class TtyQueue {
    var data: nat      // lines waiting
    var head: nat
    var tail: nat
    const buf: array<SignedChar>

    predicate Valid()
      reads this, buf
    {
      IndexOk(buf[..], head, tail)
    }

    function Contents(): seq<SignedChar>
      reads this, buf
      requires Valid()
    {
      Waiting(buf[..], head, tail)
    }

    constructor ()
      ensures Valid() && fresh(buf) && data == 0 && Contents() == []
    {
      data, head, tail := 0, 0, 0;
      buf := new SignedChar[TTY_BUF_SIZE](_ => 0);
    }

    /** `c = buf[tail]; INC(tail);` */
    method Take() returns (c: SignedChar)
      requires Valid() && Contents() != []
      modifies this`tail
      ensures Valid() && [c] + Contents() == old(Contents())
    {
      PopDrops(buf[..], head, tail);
      c := buf[tail];
      tail := Inc(tail);
    }

    /** `buf[head] = c; INC(head);` */
    method Put(c: SignedChar)
      requires Valid()
      modifies this`head, buf
      ensures Valid()
      ensures Contents() == if |old(Contents())| == TTY_BUF_SIZE - 1 then [] else old(Contents()) + [c]
    {
      PushAppends(buf[..], head, tail, c);
      buf[head] := c;
      head := Inc(head);
      assert buf[..] == old(buf[..])[old(head) := c];
    }

    /** LAST */
    method Last() returns (c: SignedChar)
      requires Valid() && Contents() != []
      ensures c == Contents()[|Contents()| - 1]
    {
      UnpushDrops(buf[..], head, tail);
      c := buf[Dec(head)];
    }

    /** `DEC(head);` */
    method DropLast()
      requires Valid() && Contents() != []
      modifies this`head
      ensures Valid() && Contents() == old(Contents()[..|Contents()| - 1])
    {
      UnpushDrops(buf[..], head, tail);
      head := Dec(head);
    }
  }
}
