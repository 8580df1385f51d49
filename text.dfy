/**
 * The string layer the source leans on: `toString()` of integers,
 * `padStart(2, '0')`, `Number(...)` of a (possibly signed) digit string and
 * `split(':')`. Only digit-string input is modelled; JavaScript's handling of
 * other text (NaN, whitespace, exponents) is not.
 */
module Text {
  import opened Wrappers

  predicate IsDigit(c: char) { '0' <= c <= '9' }

  predicate AllDigits(s: string) { forall i :: 0 <= i < |s| ==> IsDigit(s[i]) }

  /** A non-empty run of decimal digits. */
  predicate IsNumeral(s: string) { |s| > 0 && AllDigits(s) }

  function DigitChar(d: nat): (c: char)
    requires d < 10
    ensures IsDigit(c)
  {
    ('0' as int + d) as char
  }

  function DigitValue(c: char): (d: nat)
    requires IsDigit(c)
    ensures d < 10 && DigitChar(d) == c
  {
    c as int - '0' as int
  }

  /** The value of a digit string read most significant digit first; "" reads as 0. */
  function DigitsValue(s: string): nat
    requires AllDigits(s)
    decreases |s|
  {
    if s == [] then 0 else 10 * DigitsValue(s[..|s| - 1]) + DigitValue(s[|s| - 1])
  }

  /** No superfluous leading zero: "0" itself, or a text not starting with '0'. */
  predicate NoLeadingZero(s: string) { |s| == 1 || (|s| > 1 && s[0] != '0') }

  /** `n.toString()` for a non-negative integer: the shortest decimal numeral of n. */
  function NatToString(n: nat): (s: string)
    ensures IsNumeral(s) && NoLeadingZero(s)
    ensures DigitsValue(s) == n
    ensures |s| == 1 <==> n < 10
  {
    if n < 10 then
      assert [DigitChar(n)][..0] == [];
      [DigitChar(n)]
    else
      var prefix := NatToString(n / 10);
      var s := prefix + [DigitChar(n % 10)];
      assert s[..|s| - 1] == prefix;
      if |prefix| == 1 then
        assert prefix[..0] == [];
        assert DigitValue(prefix[0]) == n / 10;
        s
      else
        s
  }

  /** `Number(s)` on a digit string with an optional leading minus sign; None stands for NaN. */
  function ParseNumeral(s: string): Option<int> {
    if |s| >= 2 && s[0] == '-' && AllDigits(s[1..]) then Some(0 - DigitsValue(s[1..]) as int)
    else if IsNumeral(s) then Some(DigitsValue(s))
    else None
  }

  /** `i.toString()` for any integer; `Number` reads it back exactly. */
  function IntToString(i: int): (s: string)
    ensures |s| >= 1
    ensures ParseNumeral(s) == Some(i)
    ensures i >= 0 ==> IsNumeral(s)
    ensures NoLeadingZero(s)
  {
    if i < 0 then
      var s := "-" + NatToString(-i);
      assert s[1..] == NatToString(-i);
      s
    else
      NatToString(i)
  }

  /** A natural number's numeral reads back as that number. */
  lemma NumeralOfNat(n: nat)
    ensures ParseNumeral(NatToString(n)) == Some(n)
  {
    assert IntToString(n) == NatToString(n);
  }

  /** `s.padStart(2, '0')`. */
  function PadStart2(s: string): (r: string)
    ensures |r| == if |s| < 2 then 2 else |s|
    ensures r[|r| - |s|..] == s
    ensures forall i :: 0 <= i < |r| - |s| ==> r[i] == '0'
  {
    if |s| >= 2 then s else if |s| == 1 then "0" + s else "00"
  }

  lemma {:induction false} LeadingZero(s: string)
    requires AllDigits(s)
    ensures AllDigits("0" + s) && DigitsValue("0" + s) == DigitsValue(s)
  {
    var t := "0" + s;
    if s == [] {
      assert t[..|t| - 1] == [];
    } else {
      assert t[..|t| - 1] == "0" + s[..|s| - 1];
      LeadingZero(s[..|s| - 1]);
    }
  }

  /** Padding a numeral with a zero does not change what `Number` reads. */
  lemma PaddedNumeral(i: int)
    ensures ParseNumeral(PadStart2(IntToString(i))) == Some(i)
  {
    var s := IntToString(i);
    if |s| < 2 {
      assert i >= 0 && s == NatToString(i);
      LeadingZero(s);
      assert PadStart2(s) == "0" + s;
    }
  }

  /** A numeral of at most two digits, padded, is its two digits. */
  lemma TwoDigits(n: nat)
    requires n < 100
    ensures PadStart2(NatToString(n)) == [DigitChar(n / 10), DigitChar(n % 10)]
  {
    if n >= 10 {
      assert NatToString(n / 10) == [DigitChar(n / 10)];
    }
  }

  /** The numeral of a two-digit number is its two digits. */
  lemma TwoDigitNumeral(n: nat)
    requires 10 <= n < 100
    ensures NatToString(n) == [DigitChar(n / 10), DigitChar(n % 10)]
  {
    assert NatToString(n / 10) == [DigitChar(n / 10)];
  }

  lemma DigitsExclude(s: string, c: char)
    requires AllDigits(s) && !IsDigit(c)
    ensures c !in s
  {
  }

  /** A text that reads as a number holds no character other than digits and '-'. */
  lemma NumeralExcludes(s: string, c: char)
    requires ParseNumeral(s).Some? && !IsDigit(c) && c != '-'
    ensures c !in s
  {
    if |s| >= 2 && s[0] == '-' && AllDigits(s[1..]) {
      DigitsExclude(s[1..], c);
      assert s == [s[0]] + s[1..];
    } else {
      DigitsExclude(s, c);
    }
  }

  /** `s.split(sep)`: the parts between separators, in order, empty ones included. */
  function Split(s: string, sep: char): (parts: seq<string>)
    ensures |parts| >= 1
    ensures sep !in s ==> parts == [s]
  {
    if s == [] then [""]
    else
      assert s == [s[0]] + s[1..];
      var rest := Split(s[1..], sep);
      if s[0] == sep then [""] + rest else [[s[0]] + rest[0]] + rest[1..]
  }

  lemma {:induction false} SplitAtFirst(a: string, sep: char, b: string)
    requires sep !in a
    ensures Split(a + [sep] + b, sep) == [a] + Split(b, sep)
  {
    var s := a + [sep] + b;
    if a == [] {
      assert s[1..] == b;
    } else {
      assert s[1..] == a[1..] + [sep] + b;
      SplitAtFirst(a[1..], sep, b);
      assert a == [a[0]] + a[1..];
    }
  }

  lemma SeparatorAt(x: string, c: char, y: string)
    ensures (x + [c] + y)[|x|] == c
  {
  }

  /** A separator that occurs in neither prefix splits two joined strings at the same place. */
  lemma SeparatorFixesSplit(x: string, y: string, x': string, y': string, c: char)
    requires c !in x && c !in x'
    requires x + [c] + y == x' + [c] + y'
    ensures x == x' && y == y'
  {
    var s := x + [c] + y;
    if |x| < |x'| {
      SeparatorAt(x, c, y);
      assert false;
    } else if |x'| < |x| {
      SeparatorAt(x', c, y');
      assert false;
    }
    assert x == s[..|x|] == x';
    assert y == s[|x| + 1..] == y';
  }

  lemma NatToStringInjective(a: nat, b: nat)
    requires NatToString(a) == NatToString(b)
    ensures a == b
  {
  }

  lemma IntToStringInjective(a: int, b: int)
    requires IntToString(a) == IntToString(b)
    ensures a == b
  {
    assert ParseNumeral(IntToString(a)) == Some(a);
  }
}
