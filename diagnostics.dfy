/**
 * The error texts the validators build from their template literals, and what
 * each text says. `Render` writes a text exactly as the template does; `Decode`
 * reads it back, so that a message is shown to name what it claims to name.
 */
module Diagnostics {
  import opened Wrappers
  import opened Text

  /** What a validator's error text reports. */
  datatype Diagnostic =
    | TooShort(password: Str, length: nat)   // the minimum-length template
    | TooLong(password: Str, length: nat)    // the maximum-length template
    | BadChars(matched: Option<Str>)         // the character-set template; None is `null`
    | Common(password: Str)                  // the commonality template

  const TOO_SHORT_PREFIX := Units("Password must be at least 8 characters. ")
  const TOO_LONG_PREFIX := Units("Password must be no more than 64 characters. ")
  const BAD_CHARS_PREFIX := Units("Password contains an invalid character: ")
  const COMMON_SUFFIX := Units(" is too common. Try making the password more unique")
  const MEASURE_SEPARATOR := Units(" is ")
  const NULL := Units("null")

  /**
   * The diagnostics a validator can produce: a match list, when there is one,
   * is a non-empty list of single non-ASCII code units.
   */
  predicate WellFormed(d: Diagnostic) {
    d.BadChars? && d.matched.Some? ==>
      d.matched.value != [] && forall i :: 0 <= i < |d.matched.value| ==> !IsAscii(d.matched.value[i])
  }

  /**
   * The text of a diagnostic, as the template literal writes it. What the text
   * says is stated by `DecodeRender` and `RenderInjective` below.
   */
  function Render(d: Diagnostic): (m: Str)
    ensures d.TooShort? ==> TOO_SHORT_PREFIX <= m
    ensures d.TooLong? ==> TOO_LONG_PREFIX <= m
    ensures d.BadChars? ==> BAD_CHARS_PREFIX <= m
    ensures d.Common? ==> EndsWith(m, COMMON_SUFFIX)
  {
    match d
    case TooShort(password, length) => TOO_SHORT_PREFIX + password + MEASURE_SEPARATOR + Decimal(length)
    case TooLong(password, length) => TOO_LONG_PREFIX + password + MEASURE_SEPARATOR + Decimal(length)
    case BadChars(None) => BAD_CHARS_PREFIX + NULL
    case BadChars(Some(units)) => BAD_CHARS_PREFIX + JoinUnits(units)
    case Common(password) => password + COMMON_SUFFIX
  }

  predicate EndsWith(m: Str, suffix: Str) {
    |suffix| <= |m| && m[|m| - |suffix|..] == suffix
  }

  /** Splits `<password> is <length>` into the password and the length. */
  function DecodeMeasure(rest: Str): Option<(Str, nat)> {
    var k := TrailingDigits(rest);
    if k == 0 || |rest| < k + |MEASURE_SEPARATOR| then None
    else if rest[|rest| - k - |MEASURE_SEPARATOR|..|rest| - k] != MEASURE_SEPARATOR then None
    else Some((rest[..|rest| - k - |MEASURE_SEPARATOR|], DigitsValue(rest[|rest| - k..])))
  }

  /** Reads an error text back into what it reports, if it is one. */
  function Decode(m: Str): Option<Diagnostic> {
    if EndsWith(m, COMMON_SUFFIX) then
      Some(Common(m[..|m| - |COMMON_SUFFIX|]))
    else if TOO_SHORT_PREFIX <= m then
      match DecodeMeasure(m[|TOO_SHORT_PREFIX|..])
      case None => None
      case Some((password, length)) => Some(TooShort(password, length))
    else if TOO_LONG_PREFIX <= m then
      match DecodeMeasure(m[|TOO_LONG_PREFIX|..])
      case None => None
      case Some((password, length)) => Some(TooLong(password, length))
    else if BAD_CHARS_PREFIX <= m then
      var rest := m[|BAD_CHARS_PREFIX|..];
      if rest == NULL then Some(BadChars(None)) else Some(BadChars(Some(EveryOther(rest))))
    else
      None
  }

  /**
   * The units of the templates that tell the texts apart: unit 9 is the `m` of
   * "must" in both length templates and the `c` of "contains" in the
   * character-set one; unit 17 is the `a` of "at least" against the `n` of
   * "no more"; the commonality text ends in the `e` of "unique", which no
   * other text ends with (they end in a digit, the `l` of "null" or a
   * non-ASCII unit).
   */
  lemma TemplateFacts()
    ensures |TOO_SHORT_PREFIX| == 40 && TOO_SHORT_PREFIX[9] == 'm' as int && TOO_SHORT_PREFIX[17] == 'a' as int
    ensures |TOO_LONG_PREFIX| == 45 && TOO_LONG_PREFIX[9] == 'm' as int && TOO_LONG_PREFIX[17] == 'n' as int
    ensures |BAD_CHARS_PREFIX| == 40 && BAD_CHARS_PREFIX[9] == 'c' as int
    ensures |COMMON_SUFFIX| == 51 && COMMON_SUFFIX[50] == 'e' as int
    ensures |MEASURE_SEPARATOR| == 4 && MEASURE_SEPARATOR[3] == ' ' as int
    ensures |NULL| == 4 && NULL[0] == 'n' as int && NULL[3] == 'l' as int
  {
  }

  lemma DecodeMeasureOfRendered(password: Str, length: nat)
    ensures DecodeMeasure(password + MEASURE_SEPARATOR + Decimal(length)) == Some((password, length))
  {
    TemplateFacts();
    var x, digits := password + MEASURE_SEPARATOR, Decimal(length);
    var rest := x + digits;
    assert x[|x| - 1] == MEASURE_SEPARATOR[3];
    TrailingDigitsAfterNonDigit(x, digits);
    assert rest[|rest| - |digits|..] == digits;
    assert rest[|rest| - |digits| - 4..|rest| - |digits|] == MEASURE_SEPARATOR;
    assert rest[..|rest| - |digits| - 4] == password;
    DigitsValueOfDecimal(length);
  }

  /** The text of a length diagnostic never ends like a commonality text. */
  lemma MeasureNotCommon(prefix: Str, password: Str, length: nat)
    ensures !EndsWith(prefix + password + MEASURE_SEPARATOR + Decimal(length), COMMON_SUFFIX)
  {
    TemplateFacts();
    var m := prefix + password + MEASURE_SEPARATOR + Decimal(length);
    var digits := Decimal(length);
    assert m[|m| - 1] == digits[|digits| - 1];
  }

  lemma {:induction false} DecodeRenderTooShort(password: Str, length: nat)
    ensures Decode(Render(TooShort(password, length))) == Some(TooShort(password, length))
  {
    var rest := password + MEASURE_SEPARATOR + Decimal(length);
    var m := Render(TooShort(password, length));
    TemplateFacts();
    assert m == TOO_SHORT_PREFIX + rest;
    MeasureNotCommon(TOO_SHORT_PREFIX, password, length);
    assert m[|TOO_SHORT_PREFIX|..] == rest;
    DecodeMeasureOfRendered(password, length);
  }

  lemma {:induction false} DecodeRenderTooLong(password: Str, length: nat)
    ensures Decode(Render(TooLong(password, length))) == Some(TooLong(password, length))
  {
    var rest := password + MEASURE_SEPARATOR + Decimal(length);
    var m := Render(TooLong(password, length));
    TemplateFacts();
    assert m == TOO_LONG_PREFIX + rest;
    MeasureNotCommon(TOO_LONG_PREFIX, password, length);
    assert m[17] == TOO_LONG_PREFIX[17] != TOO_SHORT_PREFIX[17];
    assert m[|TOO_LONG_PREFIX|..] == rest;
    DecodeMeasureOfRendered(password, length);
  }

  /** A character-set text starts with its own prefix and ends in a non-`e` unit. */
  lemma BadCharsShape(rest: Str)
    requires rest != [] && rest[|rest| - 1] != 'e' as int
    ensures var m := BAD_CHARS_PREFIX + rest;
      !EndsWith(m, COMMON_SUFFIX) && !(TOO_SHORT_PREFIX <= m) && !(TOO_LONG_PREFIX <= m)
      && BAD_CHARS_PREFIX <= m && m[|BAD_CHARS_PREFIX|..] == rest
  {
    TemplateFacts();
    var m := BAD_CHARS_PREFIX + rest;
    assert m[|m| - 1] == rest[|rest| - 1];
    assert m[9] == 'c' as int;
  }

  lemma {:induction false} DecodeRenderBadChars(matched: Option<Str>)
    requires WellFormed(BadChars(matched))
    ensures Decode(Render(BadChars(matched))) == Some(BadChars(matched))
  {
    TemplateFacts();
    match matched
    case None =>
      BadCharsShape(NULL);
    case Some(units) =>
      var rest := JoinUnits(units);
      BadCharsShape(rest);
      assert rest[0] != NULL[0];
      EveryOtherOfJoin(units);
  }

  lemma DecodeRenderCommon(password: Str)
    ensures Decode(Render(Common(password))) == Some(Common(password))
  {
  }

  /** Every text a validator can produce reads back as what it reports. */
  lemma {:induction false} DecodeRender(d: Diagnostic)
    requires WellFormed(d)
    ensures Decode(Render(d)) == Some(d)
  {
    match d
    case TooShort(password, length) => DecodeRenderTooShort(password, length);
    case TooLong(password, length) => DecodeRenderTooLong(password, length);
    case BadChars(matched) => DecodeRenderBadChars(matched);
    case Common(password) => DecodeRenderCommon(password);
  }

  /** Two different diagnostics never produce the same text. */
  lemma {:induction false} RenderInjective(d: Diagnostic, e: Diagnostic)
    requires WellFormed(d) && WellFormed(e)
    ensures Render(d) == Render(e) <==> d == e
  {
    DecodeRender(d);
    DecodeRender(e);
  }
}
