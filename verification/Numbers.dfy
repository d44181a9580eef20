/** strlen, strrev and itoa on NUL-terminated text in a character array, and what itoa's text means. */
module Numbers {
  const NUL: char := '\0'
  const WRAP: int := 0x1_0000_0000

  type Int32 = x: int | -0x8000_0000 <= x < 0x8000_0000

  // ----- text in an array -----

  /** The text s, then NUL, is stored at `off`. */
  ghost predicate TextAt(a: array<char>, off: int, s: string)
    reads a
  {
    && 0 <= off && off + |s| < a.Length
    && a[off + |s|] == NUL
    && forall m :: off <= m < off + |s| ==> a[m] == s[m - off] && a[m] != NUL
  }

  /** Everything outside [lo, hi) is as in `was`. */
  ghost predicate SameElse(a: array<char>, was: seq<char>, lo: int, hi: int)
    reads a
  {
    |was| == a.Length && forall m :: 0 <= m < a.Length && !(lo <= m < hi) ==> a[m] == was[m]
  }

  method Strlen(a: array<char>, off: int, ghost s: string) returns (len: int)
    requires TextAt(a, off, s)
    ensures len == |s|
  {
    len := 0;
    while a[off + len] != NUL
      invariant 0 <= len <= |s|
      decreases |s| - len
    {
      len := len + 1;
    }
  }

  function Reversed(s: string): (r: string)
    ensures |r| == |s|
    ensures forall k :: 0 <= k < |s| ==> r[k] == s[|s| - 1 - k]
  {
    if s == [] then [] else Reversed(s[1..]) + [s[0]]
  }

  /** strrev on a non-empty text. On the empty one its index wraps around, so it has no callers there. */
  method Strrev(a: array<char>, off: int, ghost s: string)
    requires TextAt(a, off, s) && s != []
    modifies a
    ensures TextAt(a, off, Reversed(s)) && SameElse(a, old(a[..]), off, off + |s|)
  {
    var len := Strlen(a, off, s);
    var start, end := 0, len - 1;
    ghost var last := off + |s| - 1;
    while start < end
      invariant 0 <= start <= |s| && end == |s| - 1 - start && start <= end + 2
      invariant forall m :: off <= m < off + start ==> a[m] == s[last - m]
      invariant forall m :: off + end < m <= last ==> a[m] == s[last - m]
      invariant forall m :: off + start <= m <= off + end ==> a[m] == s[m - off]
      invariant SameElse(a, old(a[..]), off, off + |s|)
    {
      var temp := a[off + end];
      a[off + end] := a[off + start];
      a[off + start] := temp;
      start := start + 1;
      end := end - 1;
    }
    forall m | off <= m < off + |s| ensures a[m] == Reversed(s)[m - off] && a[m] != NUL {
      assert a[m] == s[last - m] == old(a[off + (last - m)]);
    }
  }

  // ----- digits -----

  function Digit(d: int): (c: char)
    requires 0 <= d < 36
    ensures c != NUL && c != '-'
  {
    if d > 9 then 'A' + (d - 10) as char else '0' + d as char
  }

  function DigitValue(c: char): int {
    if 'A' <= c <= 'Z' then (c - 'A') as int + 10 else (c as int) - ('0' as int)
  }

  lemma DigitMeans(d: int)
    requires 0 <= d < 36
    ensures DigitValue(Digit(d)) == d
  {
  }

  /** The bases itoa is called with. */
  predicate IsBase(base: int) {
    base == 10 || base == 16
  }

  function Quot(val: nat, base: int): (q: nat)
    requires IsBase(base)
    ensures val > 0 ==> q < val
  {
    if base == 10 then val / 10 else val / 16
  }

  /** The number with a zero digit put after it. */
  function Shifted(x: int, base: int): int
    requires IsBase(base)
  {
    if base == 10 then 10 * x else 16 * x
  }

  function Rem(val: nat, base: int): (r: int)
    requires IsBase(base)
    ensures 0 <= r < base && Shifted(Quot(val, base), base) + r == val
  {
    if base == 10 then val % 10 else val % 16
  }

  predicate Printable(s: string) {
    forall k :: 0 <= k < |s| ==> s[k] != NUL && s[k] != '-'
  }

  /** The digits of val, least significant first; none for zero. */
  function DigitsBackwards(val: nat, base: int): (r: string)
    requires IsBase(base)
    ensures (val > 0 ==> r != []) && Printable(r)
  {
    if val == 0 then [] else [Digit(Rem(val, base))] + DigitsBackwards(Quot(val, base), base)
  }

  /** The unsigned number itoa prints: the magnitude in base 10, the 32-bit pattern otherwise. */
  function Magnitude(value: Int32, base: int): (r: nat)
    ensures r < WRAP
  {
    if value >= 0 then value else if base == 10 then -(value as int) else value as int + WRAP
  }

  function Sign(value: Int32, base: int): string {
    if value < 0 && base == 10 then "-" else ""
  }

  function Backwards(value: Int32, base: int): (r: string)
    requires IsBase(base)
    ensures NUL !in r && (value != 0 ==> r != [])
  {
    DigitsBackwards(Magnitude(value, base), base) + Sign(value, base)
  }

  /** The text of itoa. */
  function Text(value: Int32, base: int): (r: string)
    requires IsBase(base)
    ensures r != [] && NUL !in r
  {
    if value == 0 then "0" else Reversed(Backwards(value, base))
  }

  method Itoa(value: Int32, a: array<char>, off: int, base: int)
    requires IsBase(base) && 0 <= off && off + |Text(value, base)| < a.Length
    modifies a
    ensures TextAt(a, off, Text(value, base)) && SameElse(a, old(a[..]), off, off + |Text(value, base)| + 1)
  {
    if value == 0 {
      a[off] := '0';
      a[off + 1] := NUL;
      return;
    }
    ghost var back := Backwards(value, base);
    WriteBackwards(value, a, off, base);
    Strrev(a, off, back);
  }

  /** Digits, sign and NUL, before the text is reversed. */
  method WriteBackwards(value: Int32, a: array<char>, off: int, base: int)
    requires IsBase(base) && value != 0 && 0 <= off && off + |Backwards(value, base)| < a.Length
    modifies a
    ensures TextAt(a, off, Backwards(value, base)) && SameElse(a, old(a[..]), off, off + |Backwards(value, base)| + 1)
  {
    var negative := value < 0 && base == 10;
    var val: nat := Magnitude(value, base);
    var i := WriteDigits(val, a, off, base, |Backwards(value, base)|);
    if negative {
      a[off + i] := '-';
      i := i + 1;
    }
    a[off + i] := NUL;
  }

  /** itoa's digit loop. */
  method WriteDigits(value: nat, a: array<char>, off: int, base: int, ghost room: int) returns (i: int)
    requires IsBase(base) && 0 <= off && |DigitsBackwards(value, base)| <= room && off + room < a.Length
    modifies a
    ensures i == |DigitsBackwards(value, base)|
    ensures forall m :: off <= m < off + i ==> a[m] == DigitsBackwards(value, base)[m - off]
    ensures SameElse(a, old(a[..]), off, off + i)
  {
    var val: nat := value;
    i := 0;
    ghost var all := DigitsBackwards(value, base);
    while val != 0
      invariant 0 <= i <= |all| && all[i..] == DigitsBackwards(val, base)
      invariant forall m :: off <= m < off + i ==> a[m] == all[m - off]
      invariant SameElse(a, old(a[..]), off, off + i)
      decreases val
    {
      var digit, rest := NextDigit(val, base, all[i..]);
      a[off + i] := digit;
      val := rest;
      i := i + 1;
    }
  }

  /** Takes the lowest digit off. */
  method NextDigit(val: nat, base: int, ghost digits: string) returns (digit: char, rest: nat)
    requires IsBase(base) && val != 0 && digits == DigitsBackwards(val, base)
    ensures digits != [] && digits[0] == digit && digits[1..] == DigitsBackwards(rest, base) && rest < val
  {
    var rem := Rem(val, base);
    rest := Quot(val, base);
    digit := Digit(rem);
  }

  // ----- what the text means -----

  /** The number written by digits, most significant first. */
  function Parse(t: string, base: int): int
    requires IsBase(base)
  {
    if t == [] then 0 else Shifted(Parse(t[..|t| - 1], base), base) + DigitValue(t[|t| - 1])
  }

  function ParseSigned(t: string, base: int): int
    requires IsBase(base)
  {
    if t != [] && t[0] == '-' then -Parse(t[1..], base) else Parse(t, base)
  }

  lemma ParseStep(d: string, base: int)
    requires IsBase(base) && d != []
    ensures Parse(Reversed(d), base) == Shifted(Parse(Reversed(d[1..]), base), base) + DigitValue(d[0])
  {
    assert Reversed(d)[..|d| - 1] == Reversed(d[1..]);
  }

  lemma {:induction false} DigitsParse(val: nat, base: int)
    requires IsBase(base)
    ensures Parse(Reversed(DigitsBackwards(val, base)), base) == val
  {
    if val > 0 {
      var d := DigitsBackwards(val, base);
      DigitsParse(Quot(val, base), base);
      DigitMeans(Rem(val, base));
      assert d[0] == Digit(Rem(val, base)) && d[1..] == DigitsBackwards(Quot(val, base), base);
      ParseStep(d, base);
    }
  }

  /** A sign at the end of the reversed text negates; digits alone read as they are. */
  lemma SignReads(d: string, base: int)
    requires IsBase(base) && Printable(d)
    ensures ParseSigned(Reversed(d + "-"), base) == -Parse(Reversed(d), base)
    ensures d != [] ==> ParseSigned(Reversed(d), base) == Parse(Reversed(d), base)
  {
    assert Reversed(d + "-")[0] == '-' && Reversed(d + "-")[1..] == Reversed(d);
    assert d != [] ==> Reversed(d)[0] == d[|d| - 1] != '-';
  }

  lemma SignedDigitsRead(m: nat, sign: string, base: int)
    requires IsBase(base) && (sign == "-" || (sign == "" && m != 0))
    ensures var v := ParseSigned(Reversed(DigitsBackwards(m, base) + sign), base);
            if sign == "-" then v + m == 0 else v == m
  {
    var d := DigitsBackwards(m, base);
    DigitsParse(m, base);
    SignReads(d, base);
    assert sign == "" ==> d + sign == d;
  }

  /** In base 10 the text reads back as the value, the most negative one included; in base 16 as the
      value's 32-bit pattern. */
  lemma ItoaReadsBack(value: Int32, base: int)
    requires IsBase(base)
    ensures ParseSigned(Text(value, base), base) == if base == 10 then value else value % WRAP
  {
    if value == 0 {
      assert Parse("0"[..0], base) == 0;
    } else {
      SignedDigitsRead(Magnitude(value, base), Sign(value, base), base);
    }
  }

  function Pow(base: nat, n: nat): nat
    requires IsBase(base)
  {
    if n == 0 then 1 else Shifted(Pow(base, n - 1), base)
  }

  lemma {:induction false} DigitsLength(val: nat, base: int, n: nat)
    requires IsBase(base) && val < Pow(base, n)
    ensures |DigitsBackwards(val, base)| <= n
  {
    if val > 0 && n > 0 {
      DigitsLength(Quot(val, base), base, n - 1);
    }
  }

  /** With its NUL the text takes at most 12 bytes in base 10 and 9 in base 16. */
  lemma ItoaFits(value: Int32)
    ensures |Text(value, 10)| + 1 <= 12 && |Text(value, 16)| + 1 <= 9
  {
    assert Pow(10, 10) == 10_000_000_000 && Pow(16, 8) == 0x1_0000_0000;
    DigitsLength(Magnitude(value, 10), 10, 10);
    DigitsLength(Magnitude(value, 16), 16, 8);
  }

  /** A digit of the base, as people write it. */
  predicate IsDigit(c: char, base: int) {
    '0' <= c <= '9' || (base == 16 && 'A' <= c <= 'F')
  }

  /** Digits without a leading zero, or a zero alone. */
  predicate Numeral(s: string, base: int) {
    && s != [] && (forall k :: 0 <= k < |s| ==> IsDigit(s[k], base))
    && (s[0] == '0' ==> |s| == 1)
  }

  lemma {:induction false} DigitsAreDigits(val: nat, base: int)
    requires IsBase(base)
    ensures var d := DigitsBackwards(val, base);
            && (forall k :: 0 <= k < |d| ==> IsDigit(d[k], base))
            && (val > 0 ==> d[|d| - 1] != '0')
  {
    if val > 0 {
      DigitsAreDigits(Quot(val, base), base);
      DigitIs(Rem(val, base), base);
      if Quot(val, base) == 0 { assert DigitsBackwards(val, base) == [Digit(Rem(val, base))]; }
    }
  }

  lemma DigitIs(d: int, base: int)
    requires IsBase(base) && 0 <= d < base
    ensures IsDigit(Digit(d), base) && (d > 0 ==> Digit(d) != '0')
  {
  }

  /** The text of itoa is a numeral, after a minus sign for negative numbers in base 10. */
  lemma TextNumeral(value: Int32, base: int)
    requires IsBase(base)
    ensures var t := Text(value, base);
            if value < 0 && base == 10 then t[0] == '-' && Numeral(t[1..], base) else Numeral(t, base)
  {
    var d := DigitsBackwards(Magnitude(value, base), base);
    DigitsAreDigits(Magnitude(value, base), base);
    if value < 0 && base == 10 {
      assert Reversed(d + "-")[1..] == Reversed(d);
    } else if value != 0 {
      assert d + "" == d;
    }
  }
}
