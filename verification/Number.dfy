/** number and skip_atoi (kernel/vsprintf.c:7-84): what is printed, how long it is, and that
    it can be read back. */
module Number {
  import opened Basics

  newtype Int32 = x: int | -0x8000_0000 <= x < 0x8000_0000

  /** The bits of `type`. */
  datatype Flags = Flags(zeropad: bool, sign: bool, plus: bool, space: bool, left: bool, special: bool, small: bool)

  const UPPER := "0123456789ABCDEFGHIJKLMNOPQRSTUVWXYZ"
  const LOWER := "0123456789abcdefghijklmnopqrstuvwxyz"

  function DigitChar(d: nat, small: bool): char
    requires d < 36
  {
    if small then LOWER[d] else UPPER[d]
  }

  function Repeat(c: char, n: int): (s: string)
    ensures |s| == if n < 0 then 0 else n
    ensures forall i :: 0 <= i < |s| ==> s[i] == c
  {
    if n <= 0 then "" else seq(n, _ => c)
  }

  function Max(a: int, b: int): int { if a < b then b else a }

  /** The digits of n, most significant first. */
  function Digits(n: nat, base: nat, small: bool): (s: string)
    requires 2 <= base <= 36
    ensures |s| >= 1
  {
    if n < base then [DigitChar(n, small)] else Digits(n / base, base, small) + [DigitChar(n % base, small)]
  }

  /** The value that is printed: under SIGN the magnitude of num, else its 32 bits. */
  function Magnitude(num: Int32, f: Flags): (n: nat)
    ensures n < 0x1_0000_0000
  {
    if f.sign then (if num < 0 then -(num as int) else num as int)
    else (num as int) % 0x1_0000_0000
  }

  function SignOf(num: Int32, f: Flags): string {
    if f.sign && num < 0 then "-" else if f.plus then "+" else if f.space then " " else ""
  }

  function Prefix(base: nat, f: Flags): string {
    if f.special && base == 8 then "0" else if f.special && base == 16 then ['0', DigitChar(33, f.small)] else ""
  }

  /** How far sign, prefix and digits fall short of the field width. */
  function Padding(num: Int32, base: nat, size: int, precision: int, f: Flags): int
    requires 2 <= base <= 36
  {
    var d := |Digits(Magnitude(num, f), base, f.small)|;
    size - |SignOf(num, f)| - |Prefix(base, f)| - Max(precision, d)
  }

  /** The text: padding, if any, in one of three places, and zeros up to the precision. */
  function Text(num: Int32, base: nat, size: int, precision: int, f: Flags): string
    requires 2 <= base <= 36
  {
    var d := Digits(Magnitude(num, f), base, f.small);
    Pieces(Padding(num, base, size, precision, f), SignOf(num, f), Prefix(base, f), Max(precision, |d|) - |d|, d, f)
  }

  function Pieces(pad: int, sign: string, prefix: string, zeros: int, digits: string, f: Flags): string {
    Repeat(' ', if !f.left && !f.zeropad then pad else 0) + sign + prefix
    + Repeat('0', if !f.left && f.zeropad then pad else 0) + Repeat('0', zeros) + digits
    + Repeat(' ', if f.left then pad else 0)
  }

  // ---- number, as it runs ----

  function Reversed(s: string): (r: string)
    ensures |r| == |s|
  {
    if s == [] then [] else Reversed(s[1..]) + [s[0]]
  }

  function Pow2(k: nat): nat { if k == 0 then 1 else 2 * Pow2(k - 1) }

  /** The digits of n, none for 0. */
  ghost function DigitsLeft(n: nat, base: nat, small: bool): string
    requires 2 <= base <= 36
  {
    if n == 0 then "" else Digits(n, base, small)
  }

  lemma DivFacts(n: nat, base: nat)
    requires base > 0
    ensures n == n / base * base + n % base && n % base < base
    ensures n < base ==> n / base == 0 && n % base == n
    ensures n >= base ==> n / base > 0
  {
    assert n == n / base * base + n % base;
  }

  lemma OneDigit(n: nat, base: nat, small: bool)
    requires 2 <= base <= 36 && n > 0
    ensures DigitsLeft(n, base, small) == DigitsLeft(n / base, base, small) + [DigitChar(n % base, small)]
  {
    DivFacts(n, base);
  }

  lemma Assoc<T>(a: seq<T>, b: seq<T>, c: seq<T>)
    ensures a + b + c == a + (b + c)
  {
  }

  /** The digit loop: tmp[..i] holds the digits backwards; 32 of its 36 places suffice. */
  method Convert(n: nat, base: nat, small: bool, tmp: array<char>) returns (i: nat)
    requires 2 <= base <= 36 && n < 0x1_0000_0000 && tmp.Length == 36
    modifies tmp
    ensures 1 <= i <= 32 && Reversed(tmp[..i]) == Digits(n, base, small)
  {
    hide Digits, DigitsLeft, DigitChar, Pow2;
    i := 0;
    if n == 0 {
      tmp[0] := '0';
      i := 1;
      assert tmp[..1] == ['0'];
      ZeroDigits(base, small);
      return;
    }
    var num: nat := n;
    Pow2Facts();
    NoDigits(n, base, small);
    assert tmp[..0] == [];
    while num != 0
      invariant 0 <= i <= 32 && num < Pow2(32 - i) && (num == 0 ==> i > 0)
      invariant DigitsLeft(num, base, small) + Reversed(tmp[..i]) == Digits(n, base, small)
      decreases num
    {
      ghost var before := tmp[..i];
      HalvesAtLeast(num, base, 32 - i);
      var d := DigitChar(num % base, small);
      OneDigit(num, base, small);
      Assoc(DigitsLeft(num / base, base, small), [d], Reversed(before));
      tmp[i] := d;
      assert tmp[..i + 1] == before + [d];
      ReversedPush(before, d);
      num := num / base;
      i := i + 1;
    }
    NoDigits(n, base, small);
  }

  lemma ZeroDigits(base: nat, small: bool)
    requires 2 <= base <= 36
    ensures Digits(0, base, small) == "0" == Reversed(['0'])
  {
  }

  lemma NoDigits(n: nat, base: nat, small: bool)
    requires 2 <= base <= 36
    ensures DigitsLeft(0, base, small) == "" && (n > 0 ==> DigitsLeft(n, base, small) == Digits(n, base, small))
    ensures Reversed("") == ""
  {
  }

  lemma Pow2Facts()
    ensures Pow2(0) == 1 && Pow2(32) == 0x1_0000_0000
  {
    Pow2Of32();
  }

  lemma Pow2Of32()
    ensures Pow2(32) == 0x1_0000_0000
  {
    assert Pow2(8) == 256;
    assert Pow2(16) == 0x1_0000;
    assert Pow2(24) == 0x100_0000;
  }

  lemma HalvesAtLeast(n: nat, base: nat, k: nat)
    requires 2 <= base && k >= 1 && n < Pow2(k)
    ensures n / base < Pow2(k - 1) && (n > 0 ==> n / base < n)
  {
    DivFacts(n, base);
    AtLeastDouble(n / base, base);
  }

  lemma AtLeastDouble(q: nat, base: nat)
    requires 2 <= base
    ensures q * base >= 2 * q
  {
    assert q * base == 2 * q + q * (base - 2);
  }

  lemma {:induction false} ReversedPush(s: string, c: char)
    ensures Reversed(s + [c]) == [c] + Reversed(s)
  {
    if s != [] {
      assert (s + [c])[1..] == s[1..] + [c];
      ReversedPush(s[1..], c);
    }
  }

  /** `while (n-- > 0) *str++ = c;` and what it leaves in n. */
  method Emit(out: string, c: char, n: int) returns (str: string, rest: int)
    ensures str == out + Repeat(c, n) && rest == (if n > 0 then -1 else n - 1)
  {
    str, rest := out, n;
    while rest > 0
      invariant n > 0 ==> 0 <= rest <= n
      invariant n <= 0 ==> rest == n
      invariant str == out + Repeat(c, n - rest)
    {
      str := str + [c];
      rest := rest - 1;
    }
    rest := rest - 1;
  }

  /** `while (i-- > 0) *str++ = tmp[i];` */
  method EmitBackwards(out: string, tmp: array<char>, n: nat) returns (str: string)
    requires n <= tmp.Length
    ensures str == out + Reversed(tmp[..n])
  {
    str := out;
    var i := n;
    while i > 0
      invariant 0 <= i <= n
      invariant str + Reversed(tmp[..i]) == out + Reversed(tmp[..n])
    {
      i := i - 1;
      assert tmp[..i + 1] == tmp[..i] + [tmp[i]];
      ReversedPush(tmp[..i], tmp[i]);
      str := str + [tmp[i]];
    }
    assert tmp[..0] == [];
  }

  /** The second half of number: the characters go out in the order of Text. */
  method Layout(width: int, sign: string, prefix: string, zeros: int, tmp: array<char>, n: nat, f: Flags)
    returns (str: string)
    requires n <= tmp.Length
    ensures str == Pieces(width, sign, prefix, zeros, Reversed(tmp[..n]), f)
  {
    hide Repeat, Reversed;
    var zeropad := f.zeropad && !f.left;
    var c := if zeropad then '0' else ' ';
    var size, rest := width, 0;
    str := "";
    NoneLeft(width);
    if !zeropad && !f.left { str, size := Emit(str, ' ', size); }
    str := str + sign;
    str := str + prefix;
    if !f.left { str, size := Emit(str, c, size); }
    str, rest := Emit(str, '0', zeros);
    str := EmitBackwards(str, tmp, n);
    str, size := Emit(str, ' ', size);
  }

  lemma NoneLeft(width: int)
    ensures forall c, n | n <= 0 :: Repeat(c, n) == ""
  {
  }

  /** number: the text stored at str; a base out of range gives null. */
  method Number(num: Int32, base: int, size: int, precision: int, f: Flags) returns (r: Option<string>)
    ensures r == if 2 <= base <= 36 then Some(Text(num, base, size, precision, f)) else None
  {
    hide Digits, Repeat, Pieces;
    if base < 2 || base > 36 { return None; }
    var sign := SignOf(num, f);
    var width := size - |sign|;
    if f.special {
      if base == 16 { width := width - 2; } else if base == 8 { width := width - 1; }
    }
    var tmp := new char[36];
    var i := Convert(Magnitude(num, f), base, f.small, tmp);
    width := width - Max(precision, i);
    var str := Layout(width, sign, Prefix(base, f), Max(precision, i) - i, tmp, i, f);
    r := Some(str);
  }

  // ---- width ----

  /** number emits exactly max(width, sign + prefix + max(precision, digits)) characters. */
  lemma WidthIsExact(num: Int32, base: nat, size: int, precision: int, f: Flags)
    requires 2 <= base <= 36
    ensures var d := |Digits(Magnitude(num, f), base, f.small)|;
      |Text(num, base, size, precision, f)| == Max(size, |SignOf(num, f)| + |Prefix(base, f)| + Max(precision, d))
  {
    hide Digits, Magnitude;
  }

  /** Every number of 32 bits has at most 32 digits. */
  lemma {:induction false} AtMost32Digits(n: nat, base: nat, small: bool, k: nat)
    requires 2 <= base <= 36 && n < Pow2(k) && k >= 1
    ensures |Digits(n, base, small)| <= k
    decreases k
  {
    if n >= base {
      HalvesAtLeast(n, base, k);
      assert Pow2(1) == 2;
      AtMost32Digits(n / base, base, small, k - 1);
    }
  }

  // ---- reading back ----

  function DigitVal(c: char): Option<nat> {
    if '0' <= c <= '9' then Some(c as nat - '0' as nat)
    else if 'A' <= c <= 'Z' then Some(c as nat - 'A' as nat + 10)
    else if 'a' <= c <= 'z' then Some(c as nat - 'a' as nat + 10)
    else None
  }

  predicate IsDigit(c: char, base: nat) { DigitVal(c).Some? && DigitVal(c).value < base }

  /** The digits at the front of s, after those worth acc, and what follows them. */
  function ReadDigits(s: string, base: nat, acc: nat): (nat, string) {
    if s != [] && IsDigit(s[0], base) then ReadDigits(s[1..], base, acc * base + DigitVal(s[0]).value) else (acc, s)
  }

  function SkipBlanks(s: string): string {
    if s != [] && s[0] == ' ' then SkipBlanks(s[1..]) else s
  }

  /** A reader that knows the base only: blanks, a sign, 0x or 0X in base 16, digits, and
      blanks to the end. */
  function Read(s: string, base: nat): Option<int> {
    var t := SkipBlanks(s);
    if t != [] && t[0] == '-' then
      var r := ReadUnsigned(t[1..], base);
      if r.Some? then Some(-(r.value as int)) else None
    else
      var r := ReadUnsigned(if t != [] && t[0] == '+' then t[1..] else t, base);
      if r.Some? then Some(r.value) else None
  }

  function ReadUnsigned(s: string, base: nat): Option<nat> {
    if base == 16 && |s| >= 2 && s[0] == '0' && (s[1] == 'x' || s[1] == 'X') then ReadToEnd(s[2..], base)
    else ReadToEnd(s, base)
  }

  function ReadToEnd(s: string, base: nat): Option<nat> {
    var (n, rest) := ReadDigits(s, base, 0);
    if s != [] && IsDigit(s[0], base) && SkipBlanks(rest) == [] then Some(n) else None
  }

  ghost predicate AllDigits(s: string, base: nat) { forall i :: 0 <= i < |s| ==> IsDigit(s[i], base) }

  /** The value of a string of digits. */
  ghost function Value(s: string, base: nat): nat
    requires AllDigits(s, base)
  {
    if s == [] then 0 else Value(s[..|s| - 1], base) * base + DigitVal(s[|s| - 1]).value
  }

  lemma DigitCharValue(d: nat, small: bool)
    requires d < 36
    ensures DigitVal(DigitChar(d, small)) == Some(d)
  {
    var v := [0, 1, 2, 3, 4, 5, 6, 7, 8, 9, 10, 11, 12, 13, 14, 15, 16, 17, 18, 19, 20, 21, 22, 23, 24, 25, 26, 27, 28,
              29, 30, 31, 32, 33, 34, 35];
    assert v[d] == d;
  }

  /** The digits of n are digits of the base, and are worth n. */
  lemma {:induction false} DigitsAreWorth(n: nat, base: nat, small: bool)
    requires 2 <= base <= 36
    ensures AllDigits(Digits(n, base, small), base) && Value(Digits(n, base, small), base) == n
  {
    hide DigitChar, DigitVal, AllDigits, Value, IsDigit, Digits;
    if n < base {
      FewDigits(n, base, small);
      EmptyValue(base);
      EmptyDigits(base);
      OneDigitWorth("", n, base, small);
      assert "" + [DigitChar(n, small)] == [DigitChar(n, small)];
    } else {
      var q, r := MoreDigits(n, base, small);
      DigitsAreWorth(q, base, small);
      OneDigitWorth(Digits(q, base, small), r, base, small);
    }
  }

  lemma FewDigits(n: nat, base: nat, small: bool)
    requires n < base <= 36 && 2 <= base
    ensures Digits(n, base, small) == [DigitChar(n, small)]
  {
  }

  lemma MoreDigits(n: nat, base: nat, small: bool) returns (q: nat, r: nat)
    requires 2 <= base <= 36 && n >= base
    ensures n == q * base + r && r < base && q < n
    ensures Digits(n, base, small) == Digits(q, base, small) + [DigitChar(r, small)]
  {
    hide DigitChar;
    q, r := n / base, n % base;
    DivFacts(n, base);
  }

  lemma OneDigitWorth(s: string, d: nat, base: nat, small: bool)
    requires d < base <= 36 && AllDigits(s, base)
    ensures AllDigits(s + [DigitChar(d, small)], base)
    ensures Value(s + [DigitChar(d, small)], base) == Value(s, base) * base + d
  {
    hide DigitChar, DigitVal;
    DigitCharValue(d, small);
    assert (s + [DigitChar(d, small)])[..|s|] == s;
  }

  /** Leading zeros are worth nothing. */
  lemma {:induction false} LeadingZeros(k: int, s: string, base: nat)
    requires 2 <= base && AllDigits(s, base)
    ensures AllDigits(Repeat('0', k) + s, base) && Value(Repeat('0', k) + s, base) == Value(s, base)
    decreases |s|, k
  {
    var z := Repeat('0', k);
    if s != [] {
      var t := s[..|s| - 1];
      LeadingZeros(k, t, base);
      assert (z + s)[..|z + s| - 1] == z + t;
    } else if k > 0 {
      assert z + s == z && z[..|z| - 1] == Repeat('0', k - 1) == Repeat('0', k - 1) + s;
      LeadingZeros(k - 1, s, base);
    } else {
      assert z + s == [];
    }
  }

  /** Reading a string of digits, up to something that is no digit. */
  lemma {:induction false} ReadAll(done: string, s: string, rest: string, base: nat)
    requires 2 <= base && AllDigits(done + s, base) && AllDigits(done, base)
    requires rest == [] || !IsDigit(rest[0], base)
    ensures ReadDigits(s + rest, base, Value(done, base)) == (Value(done + s, base), rest)
    decreases |s|
  {
    hide IsDigit, DigitVal;
    if s == [] {
      assert s + rest == rest && done + s == done;
    } else {
      var done' := done + [s[0]];
      assert (s + rest)[0] == s[0] == (done + s)[|done|] && (s + rest)[1..] == s[1..] + rest;
      assert done' + s[1..] == done + s && done'[..|done|] == done;
      assert AllDigits(done', base) by { assert forall i :: 0 <= i < |done'| ==> done'[i] == (done + s)[i]; }
      ReadAll(done', s[1..], rest, base);
    }
  }

  lemma {:induction false} SkipsAllBlanks(k: int, s: string)
    requires s == [] || s[0] != ' '
    ensures SkipBlanks(Repeat(' ', k) + s) == s
    decreases k
  {
    var b := Repeat(' ', k);
    if k > 0 {
      assert (b + s)[1..] == Repeat(' ', k - 1) + s;
      SkipsAllBlanks(k - 1, s);
    } else {
      assert b + s == s;
    }
  }

  lemma ReadsDigits(m: string, b: int, base: nat)
    requires 2 <= base <= 36 && m != [] && AllDigits(m, base)
    ensures ReadToEnd(m + Repeat(' ', b), base) == Some(Value(m, base))
  {
    hide Value;
    var tail := Repeat(' ', b);
    ReadAll("", m, tail, base);
    EmptyValue(base);
    assert "" + m == m;
    SkipsAllBlanks(b, "");
    assert tail + "" == tail;
  }

  lemma ReadsPrefix(pre: string, m: string, b: int, base: nat)
    requires 2 <= base <= 36 && m != [] && AllDigits(m, base)
    requires pre == "" || (base == 16 && (pre == "0x" || pre == "0X"))
    ensures ReadUnsigned(pre + (m + Repeat(' ', b)), base) == Some(Value(m, base))
  {
    hide Value, ReadToEnd;
    ReadsDigits(m, b, base);
    var s := m + Repeat(' ', b);
    if pre == "" {
      assert pre + s == s && IsDigit(m[0], base);
      if |s| >= 2 { assert s[1] == if |m| > 1 then m[1] else ' '; }
    } else {
      assert (pre + s)[2..] == s && (pre + s)[1] == pre[1];
    }
  }

  /** What Read makes of blanks, a sign, a prefix, digits and blanks. */
  lemma ReadShape(a: int, sgn: string, pre: string, m: string, b: int, base: nat)
    requires 2 <= base <= 36 && m != [] && AllDigits(m, base)
    requires sgn == "" || sgn == "-" || sgn == "+"
    requires pre == "" || (base == 16 && (pre == "0x" || pre == "0X"))
    ensures Read(Repeat(' ', a) + (sgn + (pre + (m + Repeat(' ', b)))), base)
         == Some(if sgn == "-" then -(Value(m, base) as int) else Value(m, base))
  {
    hide Value, ReadUnsigned;
    var s := pre + (m + Repeat(' ', b));
    ReadsPrefix(pre, m, b, base);
    assert IsDigit(m[0], base);
    assert s[0] == if pre == "" then m[0] else pre[0];
    hide Repeat, AllDigits, IsDigit;
    assert (sgn + s)[0] == if sgn == "" then s[0] else sgn[0];
    SkipsAllBlanks(a, sgn + s);
    assert (sgn + s)[|sgn|..] == s;
  }

  lemma EmptyValue(base: nat)
    ensures Value("", base) == 0
  {
  }

  lemma RepeatAdd(c: char, m: int, n: int)
    ensures Repeat(c, m) + Repeat(c, n) == Repeat(c, Max(m, 0) + Max(n, 0))
  {
  }

  lemma Regroup(l: string, s: string, p: string, f: string, z: string, d: string, t: string)
    ensures l + s + p + f + z + d + t == l + (s + (p + ((f + z) + d + t)))
  {
    var fz := f + z;
    Assoc(l + s + p, f, z);
    Assoc(l + s + p, fz, d);
    Assoc(l + s + p, fz + d, t);
    Assoc(l + s, p, fz + d + t);
    Assoc(l, s, p + (fz + d + t));
  }

  /** Two runs of zeros are one, and so is the 0 of octal with the zeros it precedes; a sign
      that is a blank counts as one of the blanks before it. */
  lemma PiecesShape(pad: int, s: string, p: string, zeros: int, d: string, f: Flags) returns (a: int, z: int, b: int)
    ensures Pieces(pad, s, p, zeros, d, f)
         == Repeat(' ', a)
            + ((if s == " " then "" else s) + ((if p == "0" then "" else p) + (Repeat('0', z) + d + Repeat(' ', b))))
  {
    hide Repeat;
    var lead := if !f.left && !f.zeropad then pad else 0;
    var fill := if !f.left && f.zeropad then pad else 0;
    b := if f.left then pad else 0;
    Regroup(Repeat(' ', lead), s, p, Repeat('0', fill), Repeat('0', zeros), d, Repeat(' ', b));
    RepeatAdd('0', fill, zeros);
    z := Max(fill, 0) + Max(zeros, 0);
    a := lead;
    OctalZero(p, z, d, Repeat(' ', b));
    if p == "0" { z := Max(z, 0) + 1; }
    var rest := (if p == "0" then "" else p) + (Repeat('0', z) + d + Repeat(' ', b));
    hide Pieces, Max;
    BlankSign(s, a, rest);
    if s == " " { a := Max(a, 0) + 1; }
  }

  lemma OctalZero(p: string, z: int, d: string, t: string)
    ensures p + (Repeat('0', z) + d + t)
         == (if p == "0" then "" else p) + (Repeat('0', if p == "0" then Max(z, 0) + 1 else z) + d + t)
  {
    hide Repeat;
    if p == "0" {
      Assoc(Repeat('0', z), d, t);
      OneMore('0', z, d + t);
      Assoc(Repeat('0', Max(z, 0) + 1), d, t);
      var r := Repeat('0', Max(z, 0) + 1) + d + t;
      assert "" + r == r;
    }
  }

  lemma BlankSign(s: string, a: int, rest: string)
    ensures Repeat(' ', a) + (s + rest)
         == Repeat(' ', if s == " " then Max(a, 0) + 1 else a) + ((if s == " " then "" else s) + rest)
  {
    hide Repeat;
    if s == " " {
      Assoc(Repeat(' ', a), " ", rest);
      RepeatOne(' ');
      RepeatAdd(' ', a, 1);
      assert "" + rest == rest;
    }
  }

  lemma RepeatOne(c: char)
    ensures Repeat(c, 1) == [c]
  {
  }

  lemma OneMore(c: char, n: int, s: string)
    ensures [c] + (Repeat(c, n) + s) == Repeat(c, Max(n, 0) + 1) + s
  {
    RepeatOne(c);
    RepeatAdd(c, 1, n);
    Assoc([c], Repeat(c, n), s);
  }

  /** Print and parse undo each other: for every base, width, precision and flags, reading the
      text of number back gives num, as a signed value under SIGN (the least int included)
      and as an unsigned one otherwise. */
  lemma ReadsBack(num: Int32, base: nat, size: int, precision: int, f: Flags)
    requires 2 <= base <= 36
    ensures Read(Text(num, base, size, precision, f), base)
         == Some(if f.sign then num as int else (num as int) % 0x1_0000_0000)
  {
    hide Digits, Repeat, Value, Read, Pieces, SignOf, Prefix, Magnitude;
    var n, s, p := Magnitude(num, f), SignOf(num, f), Prefix(base, f);
    var d := Digits(n, base, f.small);
    var a, z, b := PiecesShape(Padding(num, base, size, precision, f), s, p, Max(precision, |d|) - |d|, d, f);
    DigitsAreWorth(n, base, f.small);
    LeadingZeros(z, d, base);
    SignAndPrefix(num, base, f);
    ReadShape(a, if s == " " then "" else s, if p == "0" then "" else p, Repeat('0', z) + d, b, base);
  }

  lemma SignAndPrefix(num: Int32, base: nat, f: Flags)
    ensures SignOf(num, f) in {"", "-", "+", " "} && Prefix(base, f) in {"", "0", "0x", "0X"}
    ensures |Prefix(base, f)| == 2 ==> base == 16
    ensures (if SignOf(num, f) == "-" then -(Magnitude(num, f) as int) else Magnitude(num, f))
         == (if f.sign then num as int else (num as int) % 0x1_0000_0000)
  {
  }

  // ---- skip_atoi ----

  /** The low 32 bits of n, as an int. */
  function Wrap(n: int): (w: int)
    ensures -0x8000_0000 <= w < 0x8000_0000 && (w - n) % 0x1_0000_0000 == 0
    ensures -0x8000_0000 <= n < 0x8000_0000 ==> w == n
  {
    (n + 0x8000_0000) % 0x1_0000_0000 - 0x8000_0000
  }

  lemma WrapStep(n: int, m: int, d: int)
    requires Wrap(n) == Wrap(m)
    ensures Wrap(n * 10 + d) == Wrap(m * 10 + d)
  {
    var k := (n + 0x8000_0000) / 0x1_0000_0000 - (m + 0x8000_0000) / 0x1_0000_0000;
    assert n * 10 + d == m * 10 + d + 10 * k * 0x1_0000_0000;
  }

  /** skip_atoi: the digits at the front of s and what follows them; the arithmetic wraps. */
  method SkipAtoi(s: string) returns (i: Int32, rest: string)
    ensures var (n, after) := ReadDigits(s, 10, 0); i as int == Wrap(n) && rest == after
  {
    i, rest := 0, s;
    ghost var n: nat := 0;
    while rest != [] && '0' <= rest[0] <= '9'
      invariant i as int == Wrap(n) && ReadDigits(rest, 10, n) == ReadDigits(s, 10, 0)
    {
      var d: nat := rest[0] as int - '0' as int;
      WrapStep(i as int, n, d);
      i := Wrap(i as int * 10 + d) as Int32;
      n := n * 10 + d;
      rest := rest[1..];
    }
  }

  /** Base-10 output of a non-negative int, followed by no digit, is read back by skip_atoi
      exactly if nothing but zeros stands before the digits: no sign, no leading blanks.
      (A 0 is always read back, as no digits at all read as 0.) */
  lemma AtoiReadsBack(num: Int32, size: int, precision: int, f: Flags, rest: string)
    requires num >= 0 && (rest == [] || !('0' <= rest[0] <= '9'))
    ensures Wrap(ReadDigits(Text(num, 10, size, precision, f) + rest, 10, 0).0) == num as int
       <==> num == 0
            || (!f.plus && !f.space && (f.left || f.zeropad || Padding(num, 10, size, precision, f) <= 0))
  {
    hide Digits, Repeat, Value, Pieces, ReadDigits, Padding, Wrap, IsDigit;
    var n, s, pad := Magnitude(num, f), SignOf(num, f), Padding(num, 10, size, precision, f);
    var d := Digits(n, 10, f.small);
    DigitsAreWorth(n, 10, f.small);
    var zeros := Max(precision, |d|) - |d|;
    if s == "" && (f.left || f.zeropad || pad <= 0) {
      PlainPieces(pad, zeros, d, f, rest);
      WrapSmall(num);
    } else {
      FrontPieces(pad, s, zeros, d, f, rest);
      WrapSmall(0);
    }
  }

  lemma WrapSmall(num: Int32)
    ensures Wrap(num as int) == num as int
  {
  }

  lemma PlainPieces(pad: int, zeros: int, d: string, f: Flags, rest: string)
    requires f.left || f.zeropad || pad <= 0
    requires d != [] && AllDigits(d, 10) && (rest == [] || !('0' <= rest[0] <= '9'))
    ensures ReadDigits(Pieces(pad, "", "", zeros, d, f) + rest, 10, 0).0 == Value(d, 10)
  {
    hide Value, Repeat, AllDigits;
    var fill := if !f.left && f.zeropad then pad else 0;
    var b := if f.left then pad else 0;
    var z := Max(fill, 0) + Max(zeros, 0);
    Regroup("", "", "", Repeat('0', fill), Repeat('0', zeros), d, Repeat(' ', b));
    RepeatAdd('0', fill, zeros);
    NoneLeft(pad);
    var m := Repeat('0', z) + d;
    assert Pieces(pad, "", "", zeros, d, f) == m + Repeat(' ', b);
    LeadingZeros(z, d, 10);
    BlankOrRest(b, rest);
    Assoc(m, Repeat(' ', b), rest);
    assert "" + m == m;
    EmptyValue(10);
    assert AllDigits("", 10) by { EmptyDigits(10); }
    ReadAll("", m, Repeat(' ', b) + rest, 10);
  }

  lemma EmptyDigits(base: nat)
    ensures AllDigits("", base)
  {
  }

  lemma BlankOrRest(b: int, rest: string)
    requires rest == [] || !('0' <= rest[0] <= '9')
    ensures var t := Repeat(' ', b) + rest; t == [] || !IsDigit(t[0], 10)
  {
  }

  /** A sign or a blank in front reads as no digits. */
  lemma FrontPieces(pad: int, s: string, zeros: int, d: string, f: Flags, rest: string)
    requires s == "+" || s == " " || (s == "" && pad > 0 && !f.left && !f.zeropad)
    ensures ReadDigits(Pieces(pad, s, "", zeros, d, f) + rest, 10, 0).0 == 0
  {
    var t := Pieces(pad, s, "", zeros, d, f);
    assert t[0] == ' ' || t[0] == '+';
    assert (t + rest)[0] == t[0];
  }
}
