/**
 * JavaScript strings as sequences of UTF-16 code units, and the two pieces of
 * string formatting that template literals perform in the validators: writing a
 * non-negative integer in decimal and writing an array of one-unit strings,
 * which joins the elements with commas.
 */
module Text {

  /** A UTF-16 code unit: the element a JavaScript string is made of. */
  type CodeUnit = u: int | 0 <= u < 0x1_0000

  /** A JavaScript string; its `length` is the number of code units. */
  type Str = seq<CodeUnit>

  const COMMA: CodeUnit := 0x2C
  const ZERO: CodeUnit := 0x30

  /**
   * The code units of a literal written in Dafny. Every literal used here is
   * ASCII, so the replacement unit 0xFFFD never occurs; it only keeps the
   * function total without a precondition each long literal would have to meet.
   */
  function Units(s: string): (r: Str)
    ensures |r| == |s|
  {
    seq(|s|, i requires 0 <= i < |s| => if s[i] as int < 0x1_0000 then s[i] as int else 0xFFFD)
  }

  /** The range of the character class `\x00-\x7F`. */
  predicate IsAscii(u: CodeUnit) {
    u <= 0x7F
  }

  predicate AllAscii(s: Str) {
    forall i :: 0 <= i < |s| ==> IsAscii(s[i])
  }

  predicate IsDigit(u: CodeUnit) {
    ZERO <= u <= ZERO + 9
  }

  predicate AllDigits(s: Str) {
    forall i :: 0 <= i < |s| ==> IsDigit(s[i])
  }

  /** What `${n}` writes for a non-negative integer `n`. */
  function Decimal(n: nat): (r: Str)
    ensures 0 < |r| && AllDigits(r)
    ensures |r| > 1 ==> r[0] != ZERO
    ensures n > 0 ==> r[0] != ZERO
  {
    if n < 10 then [ZERO + n] else Decimal(n / 10) + [ZERO + n % 10]
  }

  /** The number a string of decimal digits denotes. */
  function DigitsValue(s: Str): nat
    requires AllDigits(s)
  {
    if s == [] then 0 else 10 * DigitsValue(s[..|s| - 1]) + (s[|s| - 1] - ZERO)
  }

  lemma {:induction false} DigitsValueOfDecimal(n: nat)
    ensures DigitsValue(Decimal(n)) == n
  {
    if n >= 10 {
      var d := Decimal(n);
      assert d[..|d| - 1] == Decimal(n / 10);
      DigitsValueOfDecimal(n / 10);
    }
  }

  /** The length of the longest run of digits that `s` ends with. */
  function TrailingDigits(s: Str): (k: nat)
    ensures k <= |s|
    ensures forall i :: |s| - k <= i < |s| ==> IsDigit(s[i])
    ensures k < |s| ==> !IsDigit(s[|s| - 1 - k])
  {
    if s != [] && IsDigit(s[|s| - 1]) then TrailingDigits(s[..|s| - 1]) + 1 else 0
  }

  lemma TrailingDigitsAfterNonDigit(x: Str, d: Str)
    requires x != [] && !IsDigit(x[|x| - 1]) && AllDigits(d)
    ensures TrailingDigits(x + d) == |d|
  {
    var s := x + d;
    assert s[|x| - 1] == x[|x| - 1];
    assert forall i :: |x| <= i < |s| ==> s[i] == d[i - |x|];
  }

  /** What `${a}` writes for an array `a` of one-unit strings: the units joined by commas. */
  function JoinUnits(s: Str): (r: Str)
    ensures s != [] ==> |r| == 2 * |s| - 1 && r[0] == s[0] && r[|r| - 1] == s[|s| - 1]
    ensures r == [] <==> s == []
    ensures forall i :: 0 <= i < |r| ==> r[i] == if i % 2 == 0 then s[i / 2] else COMMA
  {
    if |s| <= 1 then s else [s[0], COMMA] + JoinUnits(s[1..])
  }

  /** The units at even positions: reads back the elements of a comma-joined list. */
  function EveryOther(t: Str): (r: Str)
    ensures |r| == (|t| + 1) / 2
  {
    if |t| <= 1 then t else [t[0]] + EveryOther(t[2..])
  }

  lemma {:induction false} EveryOtherOfJoin(s: Str)
    ensures EveryOther(JoinUnits(s)) == s
  {
    if |s| > 1 {
      var j := JoinUnits(s);
      assert j[2..] == JoinUnits(s[1..]);
      EveryOtherOfJoin(s[1..]);
      assert s == [s[0]] + s[1..];
    }
  }
}
