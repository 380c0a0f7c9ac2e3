/** Decimal numerals: `str(n)`, `int(s)`, and what `\d` and `str.isdigit` match (Unicode 15). */
module Decimal {
  import opened Wrappers

  // ------------------------------------------------------------------- digits

  predicate IsDigit(c: char) {
    '0' <= c <= '9'
  }

  predicate AllDigits(s: string) {
    forall i :: 0 <= i < |s| ==> IsDigit(s[i])
  }

  const OTHER_SCRIPTS := 67

  /** The zero of the `k`-th block of ten decimal digits beyond ASCII. */
  function ZeroAt(k: nat): (z: int)
    requires k < OTHER_SCRIPTS
    ensures z >= 0x660 && !(z <= 0x1680 < z + 10) && (z + 10 <= 0x2000 || z > 0x3000)
  {
    if k == 0 then 0x660 else if k == 1 then 0x6F0 else if k == 2 then 0x7C0 else if k == 3 then 0x966 else
    if k == 4 then 0x9E6 else if k == 5 then 0xA66 else if k == 6 then 0xAE6 else if k == 7 then 0xB66 else
    if k == 8 then 0xBE6 else if k == 9 then 0xC66 else if k == 10 then 0xCE6 else if k == 11 then 0xD66 else
    if k == 12 then 0xDE6 else if k == 13 then 0xE50 else if k == 14 then 0xED0 else if k == 15 then 0xF20 else
    if k == 16 then 0x1040 else if k == 17 then 0x1090 else if k == 18 then 0x17E0 else if k == 19 then 0x1810 else
    if k == 20 then 0x1946 else if k == 21 then 0x19D0 else if k == 22 then 0x1A80 else if k == 23 then 0x1A90 else
    if k == 24 then 0x1B50 else if k == 25 then 0x1BB0 else if k == 26 then 0x1C40 else if k == 27 then 0x1C50 else
    if k == 28 then 0xA620 else if k == 29 then 0xA8D0 else if k == 30 then 0xA900 else if k == 31 then 0xA9D0 else
    if k == 32 then 0xA9F0 else if k == 33 then 0xAA50 else if k == 34 then 0xABF0 else if k == 35 then 0xFF10 else
    if k == 36 then 0x104A0 else if k == 37 then 0x10D30 else if k == 38 then 0x11066 else
    if k == 39 then 0x110F0 else if k == 40 then 0x11136 else if k == 41 then 0x111D0 else
    if k == 42 then 0x112F0 else if k == 43 then 0x11450 else if k == 44 then 0x114D0 else
    if k == 45 then 0x11650 else if k == 46 then 0x116C0 else if k == 47 then 0x11730 else
    if k == 48 then 0x118E0 else if k == 49 then 0x11950 else if k == 50 then 0x11C50 else
    if k == 51 then 0x11D50 else if k == 52 then 0x11DA0 else if k == 53 then 0x11F50 else
    if k == 54 then 0x16A60 else if k == 55 then 0x16AC0 else if k == 56 then 0x16B50 else
    if k == 57 then 0x1D7CE else if k == 58 then 0x1D7D8 else if k == 59 then 0x1D7E2 else
    if k == 60 then 0x1D7EC else if k == 61 then 0x1D7F6 else if k == 62 then 0x1E140 else
    if k == 63 then 0x1E2F0 else if k == 64 then 0x1E4F0 else if k == 65 then 0x1E950 else 0x1FBF0
  }

  /** The zero of the block, `k`-th or later, that holds a code point, or -1. */
  function ZeroFrom(c: int, k: nat): (z: int)
    requires k <= OTHER_SCRIPTS
    ensures z == -1 || (0x660 <= z <= c < z + 10 && c != 0x1680 && (c < 0x2000 || c > 0x3000))
    decreases OTHER_SCRIPTS - k
  {
    if k == OTHER_SCRIPTS then -1 else if ZeroAt(k) <= c < ZeroAt(k) + 10 then ZeroAt(k) else ZeroFrom(c, k + 1)
  }

  /** A decimal digit of any script: what `\d` matches and `int` reads. */
  predicate IsDecimal(c: char) {
    IsDigit(c) || ZeroFrom(c as int, 0) != -1
  }

  function DecimalValue(c: char): (d: nat)
    requires IsDecimal(c)
    ensures d < 10
  {
    if IsDigit(c) then (c - '0') as int else c as int - ZeroFrom(c as int, 0)
  }

  predicate AllDecimals(s: string) {
    forall i :: 0 <= i < |s| ==> IsDecimal(s[i])
  }

  /** Superscripts, circled digits and their like: `isdigit` is true of them, `int` refuses them. */
  predicate IsSpecialDigit(c: char) {
    var n := c as int;
    || 0xB2 <= n <= 0xB3 || n == 0xB9 || 0x1369 <= n <= 0x1371 || n == 0x19DA
    || n == 0x2070 || 0x2074 <= n <= 0x2079 || 0x2080 <= n <= 0x2089 || 0x2460 <= n <= 0x2468
    || 0x2474 <= n <= 0x247C || 0x2488 <= n <= 0x2490 || n == 0x24EA || 0x24F5 <= n <= 0x24FD
    || n == 0x24FF || 0x2776 <= n <= 0x277E || 0x2780 <= n <= 0x2788 || 0x278A <= n <= 0x2792
    || 0x10A40 <= n <= 0x10A43 || 0x10E60 <= n <= 0x10E68 || 0x11052 <= n <= 0x1105A || 0x1F100 <= n <= 0x1F10A
  }

  /** `c.isdigit()`. */
  predicate IsDigitLike(c: char) {
    IsDecimal(c) || IsSpecialDigit(c)
  }

  predicate AllDigitLike(s: string) {
    forall i :: 0 <= i < |s| ==> IsDigitLike(s[i])
  }

  /** Below the first other script only the ASCII digits are decimal. */
  lemma DecimalsInAscii(c: char)
    ensures c as int < 0x660 ==> (IsDecimal(c) <==> IsDigit(c))
    ensures IsDigit(c) ==> IsDecimal(c) && DecimalValue(c) == (c - '0') as int
  {
  }

  lemma DigitsAreDecimals(s: string)
    requires AllDigits(s)
    ensures AllDecimals(s)
  {
    hide IsDecimal;
    forall i | 0 <= i < |s| ensures IsDecimal(s[i]) {
      assert IsDigit(s[i]);
      DecimalsInAscii(s[i]);
    }
  }

  // ------------------------------------------------------------------ numbers

  function DigitChar(d: nat): (c: char)
    requires d < 10
    ensures IsDigit(c) && (c - '0') as int == d
  {
    '0' + d as char
  }

  /** `str(n)`. */
  function Digits(n: nat): (s: string)
    ensures s != "" && AllDigits(s)
  {
    if n < 10 then [DigitChar(n)] else Digits(n / 10) + [DigitChar(n % 10)]
  }

  /** `int(s)` for a run of decimal digits. */
  function ParseNat(s: string): nat
    requires AllDecimals(s)
  {
    if s == "" then 0 else ParseNat(s[..|s| - 1]) * 10 + DecimalValue(s[|s| - 1])
  }

  lemma {:induction false} ParseDigits(n: nat)
    ensures AllDecimals(Digits(n)) && ParseNat(Digits(n)) == n
  {
    var s := Digits(n);
    DigitsAreDecimals(s);
    DecimalsInAscii(s[|s| - 1]);
    hide IsDecimal;
    if n >= 10 {
      ParseDigits(n / 10);
      assert s[..|s| - 1] == Digits(n / 10);
    } else {
      assert s[..0] == "";
    }
  }

  /** Length of the longest run of digits at the front: what a greedy `\d+` or `\d*` takes. */
  function DigitRun(s: string): (k: nat)
    ensures k <= |s| && AllDecimals(s[..k])
    ensures k < |s| ==> !IsDecimal(s[k])
  {
    if s == "" || !IsDecimal(s[0]) then 0
    else
      var k := DigitRun(s[1..]);
      assert s[..k + 1] == [s[0]] + s[1..][..k];
      k + 1
  }

  datatype Taken = Taken(value: nat, rest: string)

  /** A leading `(\d+)`, as an integer, and the text after it. */
  function TakeNat(s: string): Option<Taken> {
    var k := DigitRun(s);
    if k == 0 then None else Some(Taken(ParseNat(s[..k]), s[k..]))
  }

  lemma {:induction false} DigitRunStops(digits: string, rest: string)
    requires AllDecimals(digits) && (rest == "" || !IsDecimal(rest[0]))
    ensures DigitRun(digits + rest) == |digits|
  {
    hide IsDecimal;
    if digits == "" {
      assert digits + rest == rest;
    } else {
      assert (digits + rest)[1..] == digits[1..] + rest;
      assert IsDecimal(digits[0]);
      DigitRunStops(digits[1..], rest);
    }
  }

  lemma TakeDigits(n: nat, rest: string)
    requires rest == "" || !IsDecimal(rest[0])
    ensures TakeNat(Digits(n) + rest) == Some(Taken(n, rest))
  {
    hide IsDecimal;
    ParseDigits(n);
    DigitRunStops(Digits(n), rest);
    assert (Digits(n) + rest)[..|Digits(n)|] == Digits(n) && (Digits(n) + rest)[|Digits(n)|..] == rest;
  }
}
