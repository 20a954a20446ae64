/** The text that number stores (kernel/vsprintf.c:30-84), said by its characters alone. */
module NumberLaws {
  import opened Number

  /** The alphabet: digits, then small letters just under SMALL. */
  ghost predicate InCase(d: string, small: bool) {
    forall i :: 0 <= i < |d| ==>
      '0' <= d[i] <= '9' || if small then 'a' <= d[i] <= 'z' else 'A' <= d[i] <= 'Z'
  }

  lemma CharInCase(d: nat, small: bool)
    requires d < 36
    ensures InCase([DigitChar(d, small)], small) && (DigitChar(d, small) == '0' <==> d == 0)
  {
    DigitCharValue(d, small);
  }

  /** The digits have no leading zero, 0 itself apart, and are in the right case. */
  lemma {:induction false} DigitsLook(n: nat, base: nat, small: bool)
    requires 2 <= base <= 36
    ensures var d := Digits(n, base, small); InCase(d, small) && d != [] && (d[0] == '0' <==> n == 0)
    ensures n == 0 ==> |Digits(n, base, small)| == 1
  {
    hide DigitChar, Digits;
    if n < base {
      FewDigits(n, base, small);
      CharInCase(n, small);
    } else {
      var q, r := MoreDigits(n, base, small);
      DigitsLook(q, base, small);
      CharInCase(r, small);
      assert n == q * base + r;
    }
  }

  /** '-' just for a negative number under SIGN; for any other '+' under PLUS, else a blank
      under SPACE. */
  ghost predicate IsSign(sign: string, num: Int32, f: Flags) {
    && (f.sign && num < 0 ==> sign == "-")
    && (!(f.sign && num < 0) && f.plus ==> sign == "+")
    && (!(f.sign && num < 0) && !f.plus && f.space ==> sign == " ")
    && (!(f.sign && num < 0) && !f.plus && !f.space ==> sign == "")
  }

  /** Under SPECIAL octal starts with 0 and hexadecimal with 0x, or with 0X unless SMALL. */
  ghost predicate IsPrefix(prefix: string, base: nat, f: Flags) {
    && (f.special && base == 8 ==> prefix == "0")
    && (f.special && base == 16 ==> prefix == if f.small then "0x" else "0X")
    && (!f.special || (base != 8 && base != 16) ==> prefix == "")
  }

  /** a blanks in front, z zeros before the digits and b blanks behind: with LEFT the field is
      filled behind, else with zeros under ZEROPAD, else in front. */
  ghost predicate Fills(a: nat, z: nat, b: nat, short: nat, missing: nat, f: Flags) {
    && (f.left ==> a == 0 && z == missing && b == short)
    && (!f.left && f.zeropad ==> a == 0 && z == short + missing && b == 0)
    && (!f.left && !f.zeropad ==> a == short && z == missing && b == 0)
  }

  /** For every number, base, width, precision and flags, character by character: blanks, the
      sign, the prefix, zeros, the digits without a leading zero, blanks.  `missing` is how far
      the digits fall short of the precision, `short` all of it of the width. */
  lemma TextLooks(num: Int32, base: nat, size: int, precision: int, f: Flags)
    returns (a: nat, sign: string, prefix: string, z: nat, d: string, b: nat)
    requires 2 <= base <= 36
    ensures Text(num, base, size, precision, f)
         == seq(a, _ => ' ') + sign + prefix + seq(z, _ => '0') + d + seq(b, _ => ' ')
    ensures IsSign(sign, num, f) && IsPrefix(prefix, base, f)
    ensures d != [] && AllDigits(d, base) && InCase(d, f.small) && (d[0] == '0' ==> d == "0")
    ensures f.sign ==> Value(d, base) == if num < 0 then -(num as int) else num as int
    ensures !f.sign ==> Value(d, base) == (num as int) % 0x1_0000_0000
    ensures var missing := if precision > |d| then precision - |d| else 0;
      var all := |sign| + |prefix| + missing + |d|;
      Fills(a, z, b, if size > all then size - all else 0, missing, f)
  {
    hide Digits, Value, AllDigits, InCase, IsSign, IsPrefix, Pieces, DigitChar;
    d, sign, prefix := Digits(Magnitude(num, f), base, f.small), SignOf(num, f), Prefix(base, f);
    DigitsLook(Magnitude(num, f), base, f.small);
    DigitsAreWorth(Magnitude(num, f), base, f.small);
    SignLooks(num, f);
    PrefixLooks(base, f);
    a, z, b := PiecesLook(Padding(num, base, size, precision, f), sign, prefix, Max(precision, |d|) - |d|, d, f);
  }

  lemma PiecesLook(pad: int, sign: string, prefix: string, zeros: nat, d: string, f: Flags)
    returns (a: nat, z: nat, b: nat)
    ensures Pieces(pad, sign, prefix, zeros, d, f)
         == seq(a, _ => ' ') + sign + prefix + seq(z, _ => '0') + d + seq(b, _ => ' ')
    ensures Fills(a, z, b, if pad > 0 then pad else 0, zeros, f)
  {
    hide Repeat;
    var lead, fill := if !f.left && !f.zeropad then pad else 0, if !f.left && f.zeropad then pad else 0;
    a, z, b := Max(lead, 0), Max(fill, 0) + zeros, Max(if f.left then pad else 0, 0);
    RepeatAdd('0', fill, zeros);
    RepeatIs(' ', lead);
    RepeatIs(' ', if f.left then pad else 0);
    RepeatIs('0', z);
    Assoc(seq(a, _ => ' ') + sign + prefix, Repeat('0', fill), Repeat('0', zeros));
  }

  lemma RepeatIs(c: char, n: int)
    ensures Repeat(c, n) == seq(Max(n, 0), _ => c)
  {
  }

  lemma SignLooks(num: Int32, f: Flags)
    ensures IsSign(SignOf(num, f), num, f)
  {
  }

  lemma PrefixLooks(base: nat, f: Flags)
    ensures IsPrefix(Prefix(base, f), base, f)
  {
  }

  // ---- skip_atoi ----

  /** skip_atoi reads the decimal digits in front, all of them and no further. */
  lemma AtoiStops(s: string, k: nat)
    requires k <= |s| && (forall i :: 0 <= i < k ==> '0' <= s[i] <= '9')
    requires k == |s| || !('0' <= s[k] <= '9')
    ensures AllDigits(s[..k], 10) && ReadDigits(s, 10, 0) == (Value(s[..k], 10), s[k..])
  {
    hide Value;
    EmptyValue(10);
    assert s == s[..k] + s[k..] && s[..k] == "" + s[..k];
    ReadAll("", s[..k], s[k..], 10);
  }
}
