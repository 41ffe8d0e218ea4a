/** How number (src/lib/vsprintf.c) lays a text out: what each flag puts in front of the digits,
    which digits these are, and where a width puts blanks and zeros. */
module PrinterLaws {
  import opened Printer

  // ----- The digits ---------------------------------------------------------

  predicate DigitIn(c: char, small: bool) {
    '0' <= c <= '9' || (if small then 'a' <= c <= 'z' else 'A' <= c <= 'Z')
  }

  /** Digits alone: in the case of the flag, worth the number, at least as many as the precision asks
      for, and with no needless zero in front. */
  ghost predicate DigitsFor(s: string, num: nat, base: nat, precision: int, small: bool) {
    && s != "" && |s| >= precision && (forall i :: 0 <= i < |s| ==> DigitIn(s[i], small))
    && Value(s, base) == num && (|s| > precision && |s| > 1 ==> s[0] != '0')
  }

  lemma {:induction false} TextDigits(ds: seq<nat>, small: bool)
    requires Below(ds, 36)
    ensures forall i :: 0 <= i < |ds| ==>
              DigitIn(Text(ds, small)[i], small) && (Text(ds, small)[i] == '0' <==> ds[|ds| - 1 - i] == 0)
  {
    if ds == [] {
    } else {
      TextDigits(ds[1..], small);
    }
  }

  lemma {:induction false} TopDigit(n: nat, base: nat)
    requires base >= 2 && n > 0
    ensures LowFirst(n, base) != [] && LowFirst(n, base)[|LowFirst(n, base)| - 1] != 0
    decreases n
  {
    if n / base == 0 {
      assert LowFirst(n / base, base) == [];
    } else {
      TopDigit(n / base, base);
    }
  }

  predicate AllOf(s: string, c: char) {
    forall i :: 0 <= i < |s| ==> s[i] == c
  }

  lemma {:induction false} FillIs(c: char, n: int)
    ensures AllOf(Fill(c, n), c)
  {
    if n <= 0 {
    } else {
      FillIs(c, n - 1);
    }
  }

  /** Zeros in front of digits. */
  lemma ZerosAndDigits(z: string, t: string, small: bool)
    requires AllOf(z, '0') && forall i :: 0 <= i < |t| ==> DigitIn(t[i], small)
    ensures forall i :: 0 <= i < |z + t| ==> DigitIn((z + t)[i], small)
  {
  }

  lemma FirstDigit(num: u32, base: nat, small: bool)
    requires 2 <= base <= 36
    ensures Text(Digits(num, base), small) != "" && (num > 0 ==> Text(Digits(num, base), small)[0] != '0')
  {
    TextDigits(Digits(num, base), small);
    if num > 0 {
      TopDigit(num, base);
    }
  }

  lemma BodyDigits(num: u32, base: nat, precision: int, f: Flags)
    requires 2 <= base <= 36
    ensures DigitsFor(Body(num, base, precision, f), num, base, precision, f.small)
  {
    var ds := Digits(num, base);
    BodyEvaluates(num, base, precision, f);
    TextDigits(ds, f.small);
    FillIs('0', precision - |ds|);
    ZerosAndDigits(Fill('0', precision - |ds|), Text(ds, f.small), f.small);
    FirstDigit(num, base, f.small);
  }

  // ----- What stands in front of them ---------------------------------------

  /** The text without a width. */
  function Narrow(num: u32, base: nat, precision: int, f: Flags): string
    requires 2 <= base <= 36
  {
    Printed(num, base, 0, precision, f)
  }

  lemma NarrowIs(num: u32, base: nat, precision: int, f: Flags)
    requires 2 <= base <= 36
    ensures Narrow(num, base, precision, f) == Sign(num, f) + Prefix(base, f) + Body(num, base, precision, f)
  {
  }

  /** '+' wins over ' '; either stands in front of everything else. */
  lemma SignPrepends(num: u32, base: nat, precision: int, f: Flags)
    requires 2 <= base <= 36 && (f.plus || f.space)
    ensures Narrow(num, base, precision, f) ==
            (if f.plus then "+" else " ") + Narrow(num, base, precision, f.(plus := false, space := false))
  {
    var g := f.(plus := false, space := false);
    NarrowIs(num, base, precision, f);
    NarrowIs(num, base, precision, g);
    Joined(Sign(num, f), Prefix(base, f), Body(num, base, precision, f));
    Joined(Sign(num, g), Prefix(base, f), Body(num, base, precision, f));
  }

  lemma Joined(a: string, b: string, c: string)
    ensures a + b + c == a + (b + c) && ("" + b) + c == b + c
  {
  }

  lemma NoSign(a: string, b: string)
    ensures "" + a + b == a + b && "" + "" + b == b
  {
  }

  /** "0x" or "0X" for base 16, after the case of the digits, and "0" for base 8. */
  lemma SpecialPrepends(num: u32, base: nat, precision: int, f: Flags)
    requires 2 <= base <= 36 && !f.plus && !f.space && f.special
    ensures Narrow(num, base, precision, f) ==
            (if base == 16 && f.small then "0x" else if base == 16 then "0X" else if base == 8 then "0" else "") +
            Narrow(num, base, precision, f.(special := false))
  {
    var g := f.(special := false);
    NarrowIs(num, base, precision, f);
    NarrowIs(num, base, precision, g);
    NoSign(Prefix(base, f), Body(num, base, precision, f));
  }

  /** With none of these flags there are the digits alone. */
  lemma DigitsAlone(num: u32, base: nat, precision: int, f: Flags)
    requires 2 <= base <= 36 && !f.plus && !f.space && !f.special
    ensures DigitsFor(Narrow(num, base, precision, f), num, base, precision, f.small)
  {
    NarrowIs(num, base, precision, f);
    BodyDigits(num, base, precision, f);
    NoSign("", Body(num, base, precision, f));
  }

  // ----- What a width adds --------------------------------------------------

  /** The characters in front of the digits. */
  function HeadLength(base: nat, f: Flags): nat {
    (if f.plus || f.space then 1 else 0) +
    (if f.special && base == 16 then 2 else if f.special && base == 8 then 1 else 0)
  }

  /** s is u with n blanks behind it, or in front, or with n zeros behind its first h characters. */
  ghost predicate BlanksBehind(u: string, s: string, n: nat) {
    |s| == |u| + n && s[..|u|] == u && AllOf(s[|u|..], ' ')
  }

  ghost predicate BlanksBefore(u: string, s: string, n: nat) {
    |s| == |u| + n && AllOf(s[..n], ' ') && s[n..] == u
  }

  ghost predicate ZerosInside(u: string, s: string, h: nat, n: nat) {
    h <= |u| && |s| == |u| + n && s[..h] == u[..h] && AllOf(s[h..h + n], '0') && s[h + n..] == u[h..]
  }

  lemma Behind(u: string, z: string)
    requires AllOf(z, ' ')
    ensures BlanksBehind(u, u + z, |z|)
  {
  }

  lemma InFront(u: string, z: string)
    requires AllOf(z, ' ')
    ensures BlanksBefore(u, z + u, |z|)
  {
  }

  lemma Inside(a: string, z: string, b: string)
    requires AllOf(z, '0')
    ensures ZerosInside(a + b, a + z + b, |a|, |z|)
  {
    var s := a + z + b;
    assert s[..|a|] == a && s[|a|..|a| + |z|] == z && s[|a| + |z|..] == b && (a + b)[|a|..] == b;
  }

  lemma PaddedIs(num: u32, base: nat, size: int, precision: int, f: Flags, pad: int)
    requires 2 <= base <= 36 && pad == size - |Narrow(num, base, precision, f)|
    ensures var head, body := Sign(num, f) + Prefix(base, f), Body(num, base, precision, f);
            && |head| == HeadLength(base, f) && Narrow(num, base, precision, f) == head + body
            && Printed(num, base, size, precision, f) ==
               if f.left then head + body + Fill(' ', pad)
               else if f.zeropad then head + Fill('0', pad) + body
               else Fill(' ', pad) + head + body
  {
    NarrowIs(num, base, precision, f);
    var head, body := Sign(num, f) + Prefix(base, f), Body(num, base, precision, f);
    EmptyPieces(head, body, Fill(if f.zeropad && !f.left then '0' else ' ', pad));
  }

  lemma EmptyPieces(head: string, body: string, z: string)
    ensures "" + head + "" + body + z == head + body + z
    ensures "" + head + z + body + "" == head + z + body
    ensures z + head + "" + body + "" == z + head + body
  {
  }

  /** A width fills the text up with blanks behind it for LEFT, whatever ZEROPAD says; with zeros
      between sign and prefix and the digits for ZEROPAD; else with blanks in front. */
  lemma WidthPads(num: u32, base: nat, size: int, precision: int, f: Flags)
    requires 2 <= base <= 36
    ensures var u, s := Narrow(num, base, precision, f), Printed(num, base, size, precision, f);
            var n := if size > |u| then size - |u| else 0;
            if f.left then BlanksBehind(u, s, n)
            else if f.zeropad then ZerosInside(u, s, HeadLength(base, f), n)
            else BlanksBefore(u, s, n)
  {
    var pad := size - |Narrow(num, base, precision, f)|;
    var head, body := Sign(num, f) + Prefix(base, f), Body(num, base, precision, f);
    PaddedIs(num, base, size, precision, f, pad);
    FillIs(' ', pad);
    FillIs('0', pad);
    if f.left {
      Behind(head + body, Fill(' ', pad));
    } else if f.zeropad {
      Inside(head, Fill('0', pad), body);
    } else {
      Joined(Fill(' ', pad), head, body);
      InFront(head + body, Fill(' ', pad));
    }
  }
}
