/**
 * The four validators of index.js. Each is a pure function of the password
 * (and, for the commonality check, of the weak-password list) returning the
 * `{pass, error}` pair; the error text is built whether or not the check passes.
 */
module Validators {
  import opened Wrappers
  import opened Text
  import opened Diagnostics

  type Password = Str

  const MIN_LENGTH := 8
  const MAX_LENGTH := 64

  /** The `{pass, error}` object every validator returns. */
  datatype ValidationResult = ValidationResult(pass: bool, error: Str)

  /** `/[^\x00-\x7F]/.test(s)`: whether some code unit lies outside the ASCII range. */
  predicate HasNonAscii(s: Str)
    ensures HasNonAscii(s) <==> !AllAscii(s)
  {
    s != [] && (!IsAscii(s[0]) || HasNonAscii(s[1..]))
  }

  /**
   * `s.match(/[^\x00-\x7F]/g)` when it matches: every code unit outside the
   * ASCII range, one match per unit, in the order they occur.
   */
  function NonAscii(s: Str): (r: Str)
    ensures |r| <= |s|
    ensures forall i :: 0 <= i < |r| ==> !IsAscii(r[i])
    ensures r == [] <==> AllAscii(s)
  {
    if s == [] then []
    else (if IsAscii(s[0]) then [] else [s[0]]) + NonAscii(s[1..])
  }

  /** Matching distributes over concatenation: no unit is dropped, added or reordered. */
  lemma {:induction false} NonAsciiAppend(a: Str, b: Str)
    ensures NonAscii(a + b) == NonAscii(a) + NonAscii(b)
  {
    if a != [] {
      assert (a + b)[1..] == a[1..] + b;
      NonAsciiAppend(a[1..], b);
    } else {
      assert a + b == b;
    }
  }

  /** A single unit matches exactly when it is not ASCII. */
  lemma NonAsciiUnit(u: CodeUnit)
    ensures NonAscii([u]) == if IsAscii(u) then [] else [u]
  {
  }

  /** The matches hold every non-ASCII unit as often as the password does, and nothing else. */
  lemma {:induction false} NonAsciiCounts(s: Str, u: CodeUnit)
    ensures multiset(NonAscii(s))[u] == if IsAscii(u) then 0 else multiset(s)[u]
  {
    if s != [] {
      assert s == [s[0]] + s[1..];
      NonAsciiCounts(s[1..], u);
    }
  }

  /** `Array.prototype.includes` on a list of strings: a scan for an equal string. */
  predicate Includes(list: seq<Str>, s: Str)
    ensures Includes(list, s) <==> s in list
  {
    list != [] && (list[0] == s || Includes(list[1..], s))
  }

  /** The minimum-length check (index.js `isLongEnough`). */
  function IsLongEnough(password: Password): (r: ValidationResult)
    ensures r.pass <==> |password| >= MIN_LENGTH
    ensures Decode(r.error) == Some(TooShort(password, |password|))
  {
    DecodeRenderTooShort(password, |password|);
    ValidationResult(|password| >= MIN_LENGTH, Render(TooShort(password, |password|)))
  }

  /** The maximum-length check (index.js `isShortEnough`). */
  function IsShortEnough(password: Password): (r: ValidationResult)
    ensures r.pass <==> |password| <= MAX_LENGTH
    ensures Decode(r.error) == Some(TooLong(password, |password|))
  {
    DecodeRenderTooLong(password, |password|);
    ValidationResult(|password| <= MAX_LENGTH, Render(TooLong(password, |password|)))
  }

  /** The character-set check (index.js `isValidCharacters`). */
  function IsValidCharacters(password: Password): (r: ValidationResult)
    ensures r.pass <==> forall i :: 0 <= i < |password| ==> password[i] <= 0x7F
    ensures r.pass ==> Decode(r.error) == Some(BadChars(None))
    ensures !r.pass ==> Decode(r.error) == Some(BadChars(Some(NonAscii(password))))
  {
    var pass := !HasNonAscii(password);
    var badChar := if pass then None else Some(NonAscii(password));
    DecodeRenderBadChars(badChar);
    ValidationResult(pass, Render(BadChars(badChar)))
  }

  /** The commonality check (index.js `isStrong`) against the loaded weak-password list. */
  function IsStrong(weaks: seq<Str>, password: Password): (r: ValidationResult)
    ensures r.pass <==> forall i :: 0 <= i < |weaks| ==> weaks[i] != password
    ensures weaks == [] ==> r.pass
    ensures Decode(r.error) == Some(Common(password))
  {
    DecodeRenderCommon(password);
    ValidationResult(!Includes(weaks, password), Render(Common(password)))
  }
}
