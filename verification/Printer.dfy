/** The number printer of src/lib/vsprintf.c, and the parser that undoes it. */
module Printer {
  import opened Wrappers

  const TWO_31: int := 0x8000_0000
  const TWO_32: int := 0x1_0000_0000

  type u32 = x: int | 0 <= x < TWO_32

  datatype Flags = Flags(zeropad: bool, sign: bool, plus: bool, space: bool, left: bool, special: bool, small: bool)

  // ----- Digits -------------------------------------------------------------

  /** digits[d]. */
  function DigitChar(d: nat, small: bool): char
    requires d < 36
  {
    if d < 10 then '0' + d as char else (if small then 'a' else 'A') + (d - 10) as char
  }

  function DigitValue(c: char): nat {
    if '0' <= c <= '9' then (c - '0') as nat
    else if 'a' <= c <= 'z' then 10 + (c - 'a') as nat
    else if 'A' <= c <= 'Z' then 10 + (c - 'A') as nat
    else 0
  }

  lemma DigitValueOfChar(d: nat, small: bool)
    requires d < 36
    ensures DigitValue(DigitChar(d, small)) == d
  {
  }

  predicate Below(ds: seq<nat>, base: nat) {
    forall i :: 0 <= i < |ds| ==> ds[i] < base
  }

  /** The digits of n, lowest first, as the loop that divides produces them. */
  function LowFirst(n: nat, base: nat): (ds: seq<nat>)
    requires base >= 2
    ensures Below(ds, base)
  {
    if n == 0 then [] else [n % base] + LowFirst(n / base, base)
  }

  function Digits(n: nat, base: nat): (ds: seq<nat>)
    requires base >= 2
    ensures Below(ds, base)
  {
    if n == 0 then [0] else LowFirst(n, base)
  }

  /** The text of digits given lowest first: highest first. */
  function Text(ds: seq<nat>, small: bool): (s: string)
    requires Below(ds, 36)
    ensures |s| == |ds|
  {
    if ds == [] then "" else Text(ds[1..], small) + [DigitChar(ds[0], small)]
  }

  /** The number that a text stands for. */
  function Value(s: string, base: nat): nat {
    if s == "" then 0 else Value(s[..|s| - 1], base) * base + DigitValue(s[|s| - 1])
  }

  lemma DivMod(n: nat, base: nat)
    requires base > 0
    ensures n == n / base * base + n % base
  {
    var q := n / base;
    assert n == q * base + n % base;
  }

  lemma PushDigit(t: string, d: nat, base: nat, small: bool)
    requires d < 36
    ensures Value(t + [DigitChar(d, small)], base) == Value(t, base) * base + d
  {
    var s := t + [DigitChar(d, small)];
    assert s[..|s| - 1] == t;
    DigitValueOfChar(d, small);
  }

  lemma {:induction false} TextEvaluates(n: nat, base: nat, small: bool)
    requires 2 <= base <= 36
    ensures Value(Text(LowFirst(n, base), small), base) == n
  {
    if n == 0 {
    } else {
      TextEvaluates(n / base, base, small);
      var ds, t := LowFirst(n, base), Text(LowFirst(n / base, base), small);
      assert ds[1..] == LowFirst(n / base, base) && ds[0] == n % base;
      PushDigit(t, ds[0], base, small);
      DivMod(n, base);
    }
  }

  function Pow2(k: nat): nat {
    if k == 0 then 1 else 2 * Pow2(k - 1)
  }

  lemma {:induction false} FewDigits(n: nat, base: nat, k: nat)
    requires base >= 2 && n < Pow2(k)
    ensures |LowFirst(n, base)| <= k
  {
    if n == 0 {
    } else {
      assert n / base <= n / 2 by {
        HalfIsMost(n, base);
      }
      FewDigits(n / base, base, k - 1);
    }
  }

  lemma HalfIsMost(n: nat, base: nat)
    requires base >= 2
    ensures 0 <= n / base <= n / 2
  {
    var q := n / base;
    assert n == q * base + n % base;
    assert q * base >= q * 2;
  }

  lemma ThirtyTwoDigits(n: u32, base: nat)
    requires base >= 2
    ensures 1 <= |Digits(n, base)| <= 32
  {
    assert Pow2(8) == 256;
    assert Pow2(16) == 65536;
    assert Pow2(24) == 0x100_0000;
    assert Pow2(32) == TWO_32;
    FewDigits(n, base, 32);
  }

  // ----- What is printed ----------------------------------------------------

  function Fill(c: char, n: int): (s: string)
    ensures |s| == if n > 0 then n else 0
  {
    if n <= 0 then "" else Fill(c, n - 1) + [c]
  }

  function Max(a: int, b: int): int {
    if a > b then a else b
  }

  /** The sign that is chosen; num is unsigned, and the first test is the one of the code. */
  function Sign(num: u32, f: Flags): string {
    if f.sign && num < 0 then "-" else if f.plus then "+" else if f.space then " " else ""
  }

  function Prefix(base: nat, f: Flags): string {
    if !f.special then "" else if base == 8 then "0" else if base == 16 then (if f.small then "0x" else "0X") else ""
  }

  /** The digits with the zeros that the precision asks for. */
  function Body(num: u32, base: nat, precision: int, f: Flags): string
    requires 2 <= base <= 36
  {
    Fill('0', precision - |Digits(num, base)|) + Text(Digits(num, base), f.small)
  }

  /** The padding before the sign, between prefix and digits, and at the end: the flags
      let at most one of them be there. */
  function Blanks(f: Flags, pad: int): string {
    if f.left || f.zeropad then "" else Fill(' ', pad)
  }

  function Zeros(f: Flags, pad: int): string {
    if !f.left && f.zeropad then Fill('0', pad) else ""
  }

  function Tail(f: Flags, pad: int): string {
    if f.left then Fill(' ', pad) else ""
  }

  /** What number writes. */
  function Printed(num: u32, base: nat, size: int, precision: int, f: Flags): string
    requires 2 <= base <= 36
  {
    var head, body := Sign(num, f) + Prefix(base, f), Body(num, base, precision, f);
    var pad := size - |head| - |body|;
    Blanks(f, pad) + head + Zeros(f, pad) + body + Tail(f, pad)
  }

  /** The width is reached, and passed only by what must be shown. */
  lemma PrintedLength(num: u32, base: nat, size: int, precision: int, f: Flags)
    requires 2 <= base <= 36
    ensures |Printed(num, base, size, precision, f)| ==
            Max(size, |Sign(num, f)| + |Prefix(base, f)| + Max(precision, |Digits(num, base)|))
  {
  }

  lemma {:induction false} ZerosAddNothing(n: int, s: string, base: nat)
    ensures Value(Fill('0', n) + s, base) == Value(s, base)
    decreases |s|, n
  {
    var t := Fill('0', n) + s;
    if s == "" && n <= 0 {
    } else if s == "" {
      ZerosAddNothing(n - 1, s, base);
      assert t[..|t| - 1] == Fill('0', n - 1) + s;
    } else {
      ZerosAddNothing(n, s[..|s| - 1], base);
      assert t[..|t| - 1] == Fill('0', n) + s[..|s| - 1];
    }
  }

  /** The digits shown, zeros included, evaluate to the number. */
  lemma {:induction false} BodyEvaluates(num: u32, base: nat, precision: int, f: Flags)
    requires 2 <= base <= 36
    ensures Value(Body(num, base, precision, f), base) == num
  {
    ZerosAddNothing(precision - |Digits(num, base)|, Text(Digits(num, base), f.small), base);
    if num > 0 {
      TextEvaluates(num, base, f.small);
    } else {
      ZeroEvaluates(base, f.small);
    }
  }

  lemma {:induction false} ZeroEvaluates(base: nat, small: bool)
    requires 2 <= base <= 36
    ensures Value(Text(Digits(0, base), small), base) == 0
  {
    assert Digits(0, base) == [0] && Text([0], small) == "" + ['0'] == "0";
    assert Value("0", base) == Value("0"[..0], base) * base + 0;
  }

  // ----- skip_atoi ----------------------------------------------------------

  predicate IsDigit(c: char) {
    '0' <= c <= '9'
  }

  function DigitRun(s: string): (n: nat)
    ensures n <= |s|
  {
    if s == "" || !IsDigit(s[0]) then 0 else 1 + DigitRun(s[1..])
  }

  lemma {:induction false} DigitRunIs(s: string, n: nat)
    requires n <= |s| && (forall i :: 0 <= i < n ==> IsDigit(s[i])) && (n < |s| ==> !IsDigit(s[n]))
    ensures DigitRun(s) == n
  {
    if n == 0 {
    } else {
      DigitRunIs(s[1..], n - 1);
    }
  }

  /** skip_atoi: the value of the leading digits, and how many there are. The code of a digit is
      added before that of '0' is subtracted; None is a sum that an int cannot hold, which is
      every value from 2147483600 up. */
  method SkipAtoi(s: string) returns (r: Option<(int, nat)>)
    ensures r == if Value(s[..DigitRun(s)], 10) < 2147483600 then Some((Value(s[..DigitRun(s)], 10), DigitRun(s)))
                 else None
  {
    var i, n := 0, 0;
    while n < |s| && IsDigit(s[n])
      invariant n <= |s| && forall j :: 0 <= j < n ==> IsDigit(s[j])
      invariant i == Value(s[..n], 10) < 2147483600
    {
      var sum := i * 10 + s[n] as int;
      assert s[..n + 1][..n] == s[..n];
      if sum >= TWO_31 {
        PrefixIsSmaller(s, n + 1);
        return None;
      }
      i := sum - '0' as int;
      n := n + 1;
    }
    DigitRunIs(s, n);
    return Some((i, n));
  }

  lemma {:induction false} PrefixIsSmaller(s: string, n: nat)
    requires n <= |s| && forall j :: 0 <= j < n ==> IsDigit(s[j])
    ensures n <= DigitRun(s) && Value(s[..n], 10) <= Value(s[..DigitRun(s)], 10)
  {
    RunIsLonger(s, n);
    ValueGrows(s, n, DigitRun(s));
  }

  lemma {:induction false} RunIsLonger(s: string, n: nat)
    requires n <= |s| && forall j :: 0 <= j < n ==> IsDigit(s[j])
    ensures n <= DigitRun(s)
  {
    if n == 0 {
    } else {
      RunIsLonger(s[1..], n - 1);
    }
  }

  lemma {:induction false} ValueGrows(s: string, n: nat, m: nat)
    requires n <= m <= |s|
    ensures Value(s[..n], 10) <= Value(s[..m], 10)
  {
    if n >= m {
    } else {
      ValueGrows(s, n, m - 1);
      assert s[..m][..m - 1] == s[..m - 1];
    }
  }

  function Plain(): Flags {
    Flags(false, false, false, false, false, false, false)
  }

  /** A number printed plainly in base 10 and read back by skip_atoi. */
  lemma ParserUndoesPrinter(num: u32, rest: string)
    requires rest == "" || !IsDigit(rest[0])
    ensures var p := Printed(num, 10, 0, 0, Plain());
            var s := p + rest;
            DigitRun(s) == |p| && s[..DigitRun(s)] == p && Value(p, 10) == num
  {
    var f := Plain();
    var p := Printed(num, 10, 0, 0, f);
    ThirtyTwoDigits(num, 10);
    assert p == Body(num, 10, 0, f);
    assert p == Text(Digits(num, 10), false);
    DecimalText(Digits(num, 10), false);
    DigitRunIs(p + rest, |p|);
    BodyEvaluates(num, 10, 0, f);
  }

  lemma {:induction false} DecimalText(ds: seq<nat>, small: bool)
    requires Below(ds, 10)
    ensures forall i :: 0 <= i < |ds| ==> IsDigit(Text(ds, small)[i])
  {
    if ds == [] {
    } else {
      DecimalText(ds[1..], small);
      assert IsDigit(DigitChar(ds[0], small));
    }
  }

  // ----- Signed numbers -----------------------------------------------------

  /** The unsigned number that number() is given for a signed argument of 32 bits. */
  function Image(v: int): u32
    requires -TWO_31 <= v < TWO_31
  {
    if v < 0 then v + TWO_32 else v
  }

  /** The value of the digits in front. */
  function Leading(s: string): int {
    Value(s[..DigitRun(s)], 10)
  }

  /** The integer that a reader takes a text for: blanks, a sign, digits. */
  function ReadInt(s: string): int {
    if s == "" then 0
    else if s[0] == ' ' then ReadInt(s[1..])
    else if s[0] == '-' then -Leading(s[1..])
    else if s[0] == '+' then Leading(s[1..])
    else Leading(s)
  }

  lemma {:induction false} BlanksAreSkipped(n: int, s: string)
    ensures ReadInt(Fill(' ', n) + s) == ReadInt(s)
  {
    if n <= 0 {
      assert Fill(' ', n) + s == s;
    } else {
      assert Fill(' ', n) + s == Fill(' ', n - 1) + ([' '] + s);
      BlanksAreSkipped(n - 1, [' '] + s);
      assert ([' '] + s)[1..] == s;
    }
  }

  lemma {:induction false} FillIsAll(c: char, n: int)
    ensures forall i :: 0 <= i < |Fill(c, n)| ==> Fill(c, n)[i] == c
  {
    if n <= 0 {
    } else {
      FillIsAll(c, n - 1);
    }
  }

  /** Digits, after at most a plus or a blank, read as their value. */
  lemma {:induction false} DigitsAreRead(sign: string, d: string, t: string)
    requires sign in {"", "+", " "} && d != "" && forall i :: 0 <= i < |d| ==> IsDigit(d[i])
    requires t == "" || t[0] == ' '
    ensures ReadInt(sign + (d + t)) == Value(d, 10)
  {
    DigitRunIs(d + t, |d|);
    assert (d + t)[..|d|] == d && (d + t)[0] == d[0];
    if sign == "" {
      assert sign + (d + t) == d + t;
    } else {
      assert (sign + (d + t))[1..] == d + t;
    }
  }

  /** The digits of a decimal, with the zeros that width or precision puts before them. */
  function Shown(num: u32, pad: int, precision: int, f: Flags): string {
    Zeros(f, pad) + Body(num, 10, precision, f)
  }

  lemma {:induction false} ShownEvaluates(num: u32, pad: int, precision: int, f: Flags)
    ensures Value(Shown(num, pad, precision, f), 10) == num && Shown(num, pad, precision, f) != ""
  {
    var body := Body(num, 10, precision, f);
    BodyEvaluates(num, 10, precision, f);
    if Zeros(f, pad) == "" {
      assert "" + body == body;
    } else {
      ZerosAddNothing(pad, body, 10);
    }
    ThirtyTwoDigits(num, 10);
  }

  lemma {:induction false} ShownIsDigits(num: u32, pad: int, precision: int, f: Flags)
    ensures var d := Shown(num, pad, precision, f); forall i :: 0 <= i < |d| ==> IsDigit(d[i])
  {
    DecimalText(Digits(num, 10), f.small);
    FillIsAll('0', precision - |Digits(num, 10)|);
    FillIsAll('0', pad);
  }

  /** What stands between the blanks of a decimal. */
  lemma {:induction false} DecimalShape(num: u32, size: int, precision: int, f: Flags)
    ensures var pad := size - |Sign(num, f)| - |Body(num, 10, precision, f)|;
            Printed(num, 10, size, precision, f) ==
            Blanks(f, pad) + (Sign(num, f) + (Shown(num, pad, precision, f) + Tail(f, pad)))
  {
    var sign, body := Sign(num, f), Body(num, 10, precision, f);
    var pad := size - |sign| - |body|;
    assert sign + Prefix(10, f) == sign;
    RegroupAll(Blanks(f, pad), sign, Zeros(f, pad), body, Tail(f, pad));
  }

  lemma RegroupAll(a: string, b: string, c: string, d: string, e: string)
    ensures a + b + c + d + e == a + (b + (c + d + e))
  {
    Regroup(a + b, c, d);
    Regroup(a + b, c + d, e);
    Regroup(a, b, c + d + e);
  }

  /** Whatever the width, the precision and the flags, a decimal reads as the unsigned number. */
  lemma {:induction false} DecimalReads(num: u32, size: int, precision: int, f: Flags)
    ensures ReadInt(Printed(num, 10, size, precision, f)) == num
  {
    var pad := size - |Sign(num, f)| - |Body(num, 10, precision, f)|;
    var d, t := Shown(num, pad, precision, f), Tail(f, pad);
    DecimalShape(num, size, precision, f);
    ShownEvaluates(num, pad, precision, f);
    ShownIsDigits(num, pad, precision, f);
    FillIsAll(' ', pad);
    DigitsAreRead(Sign(num, f), d, t);
    if Blanks(f, pad) == "" {
      assert "" + (Sign(num, f) + (d + t)) == Sign(num, f) + (d + t);
    } else {
      BlanksAreSkipped(pad, Sign(num, f) + (d + t));
    }
  }

  /** %d: the text reads as the signed argument exactly when its image is below 2^31. */
  lemma {:induction false} SignedPrintsIff(v: int, size: int, precision: int, f: Flags)
    requires -TWO_31 <= v < TWO_31 && f.sign
    ensures ReadInt(Printed(Image(v), 10, size, precision, f)) == v <==> Image(v) < TWO_31
  {
    DecimalReads(Image(v), size, precision, f);
  }

  /** %d of -1 reads as 4294967295. */
  lemma {:induction false} MinusOneIsLost()
    ensures ReadInt(Printed(Image(-1), 10, -1, -1, Plain().(sign := true))) == 4294967295 != -1
  {
    DecimalReads(Image(-1), -1, -1, Plain().(sign := true));
  }

  // ----- number() as it runs ------------------------------------------------

  method Append(str: string, c: char, n: int) returns (r: string)
    ensures r == str + Fill(c, n)
  {
    r := str;
    var size := n;
    ghost var done := 0;
    assert str + "" == str;
    while size > 0
      invariant done + Max(size, 0) == Max(n, 0) && r == str + Fill(c, done) && done >= 0
    {
      assert str + (Fill(c, done) + [c]) == str + Fill(c, done) + [c];
      r := r + [c];
      size := size - 1;
      done := done + 1;
    }
    FillNone(c, n, done);
  }

  lemma FillNone(c: char, n: int, done: int)
    requires done == Max(n, 0)
    ensures Fill(c, n) == Fill(c, done)
  {
  }

  /** The loop that divides, into the buffer tmp of 36 characters. */
  method Divide(num: u32, base: nat, small: bool, tmp: array<char>) returns (i: nat)
    requires 2 <= base <= 36 && tmp.Length == 36
    modifies tmp
    ensures i == |Digits(num, base)| <= 32
    ensures forall j :: 0 <= j < i ==> tmp[j] == DigitChar(Digits(num, base)[j], small)
  {
    ThirtyTwoDigits(num, base);
    i := 0;
    if num == 0 {
      tmp[0] := '0';
      return 1;
    }
    ghost var ds := LowFirst(num, base);
    var n: nat := num;
    while n != 0
      invariant i + |LowFirst(n, base)| == |ds| && ds[i..] == LowFirst(n, base)
      invariant forall j :: 0 <= j < i ==> tmp[j] == DigitChar(ds[j], small)
      decreases n
    {
      var index := n % base;
      assert ds[i] == ds[i..][0] == index && ds[i..][1..] == ds[i + 1..];
      tmp[i] := DigitChar(index, small);
      HalfIsMost(n, base);
      ghost var q: nat := n / base;
      n := n / base;
      i := i + 1;
    }
  }

  /** number; None is a base that it does not print. */
  method Number(num: u32, base: int, width: int, prec: int, f: Flags) returns (r: Option<string>)
    ensures r == if 2 <= base <= 36 then Some(Printed(num, base, width, prec, f)) else None
  {
    if base < 2 || base > 36 {
      return None;
    }
    var size, precision := width, prec;
    var sign, n: int := "", num;
    if f.sign && n < 0 {
      sign, n := "-", TWO_32 - n;
    } else {
      sign := if f.plus then "+" else if f.space then " " else "";
    }
    if sign != "" {
      size := size - 1;
    }
    if f.special {
      if base == 16 {
        size := size - 2;
      } else if base == 8 {
        size := size - 1;
      }
    }
    assert sign == Sign(num, f) && size == width - |Sign(num, f) + Prefix(base, f)|;
    var tmp := new char[36];
    var i := Divide(n, base, f.small, tmp);
    if i > precision {
      precision := i;
    }
    size := size - precision;
    FillNone('0', prec - i, precision - i);
    assert Fill('0', precision - i) + Text(Digits(num, base), f.small) == Body(num, base, prec, f);
    assert size == width - |Sign(num, f) + Prefix(base, f)| - |Body(num, base, prec, f)|;
    var str := Lay(sign, base, f, size, precision - i, tmp, i, Digits(num, base));
    r := Some(str);
  }

  /** The second half of number: everything is written, pad being what is left of the width. */
  method Lay(sign: string, base: nat, f: Flags, pad: int, more: int, tmp: array<char>, i: nat, ghost ds: seq<nat>)
    returns (str: string)
    requires Below(ds, 36) && i == |ds| <= tmp.Length && forall j :: 0 <= j < i ==> tmp[j] == DigitChar(ds[j], f.small)
    ensures str ==
        Blanks(f, pad) + (sign + Prefix(base, f)) + Zeros(f, pad) + (Fill('0', more) + Text(ds, f.small)) + Tail(f, pad)
  {
    var size := pad;
    str := "";
    if !f.left && !f.zeropad {
      str := Append(str, ' ', size);
      size := -1;
    }
    assert str == Blanks(f, pad);
    var prefix := "";
    if f.special {
      if base == 8 {
        prefix := "0";
      } else if base == 16 {
        prefix := "0" + [if f.small then 'x' else 'X'];
      }
    }
    assert prefix == Prefix(base, f);
    str := str + (sign + prefix);
    ghost var b := str;
    if !f.left {
      str := Append(str, '0', size);
      size := -1;
    }
    assert str == b + Zeros(f, pad);
    str := AppendBody(str, more, tmp, i, ds, f.small);
    ghost var c := str;
    str := Append(str, ' ', size);
    assert str == c + Tail(f, pad);
  }

  method AppendBody(s: string, more: int, tmp: array<char>, i: nat, ghost ds: seq<nat>, ghost small: bool)
    returns (str: string)
    requires Below(ds, 36) && i == |ds| <= tmp.Length && forall j :: 0 <= j < i ==> tmp[j] == DigitChar(ds[j], small)
    ensures str == s + (Fill('0', more) + Text(ds, small))
  {
    str := Append(s, '0', more);
    str := Emit(str, tmp, i, ds, small);
    Regroup(s, Fill('0', more), Text(ds, small));
  }

  lemma Regroup(a: string, b: string, c: string)
    ensures a + b + c == a + (b + c)
  {
  }

  /** The loop that copies the digits, highest first. */
  method Emit(str: string, tmp: array<char>, i: nat, ghost ds: seq<nat>, ghost small: bool) returns (r: string)
    requires Below(ds, 36) && i == |ds| <= tmp.Length && forall j :: 0 <= j < i ==> tmp[j] == DigitChar(ds[j], small)
    ensures r == str + Text(ds, small)
  {
    r := str;
    var k := i;
    assert ds[i..] == [] && str + "" == str;
    while k > 0
      invariant 0 <= k <= i && r == str + Text(ds[k..], small)
    {
      k := k - 1;
      assert ds[k..][1..] == ds[k + 1..];
      assert str + (Text(ds[k + 1..], small) + [tmp[k]]) == str + Text(ds[k + 1..], small) + [tmp[k]];
      r := r + [tmp[k]];
    }
    assert ds[0..] == ds;
  }
}
