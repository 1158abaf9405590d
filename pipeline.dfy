/**
 * `checkPassword` of index.js: every validator runs, in a fixed order, and the
 * error text of each one that fails is written as one diagnostic line. The
 * lines are returned here instead of being written to the error stream.
 */
module Pipeline {
  import opened Wrappers
  import opened Text
  import opened Diagnostics
  import opened Validators

  /** The entries of the `validators` array. */
  datatype Validator = LongEnough | ShortEnough | ValidCharacters | Strong

  /** The order in which the validators run: cheapest first. */
  const VALIDATORS: seq<Validator> := [LongEnough, ShortEnough, ValidCharacters, Strong]

  /** `fn.call(this, password)` for one entry; `weaks` is the list loaded at start-up. */
  function Run(v: Validator, weaks: seq<Str>, password: Password): (r: ValidationResult)
    ensures r.pass <==> Breaks(v, weaks, password) == []
  {
    match v
    case LongEnough => IsLongEnough(password)
    case ShortEnough => IsShortEnough(password)
    case ValidCharacters => IsValidCharacters(password)
    case Strong => IsStrong(weaks, password)
  }

  /** The lines written once `validators` have run, in order: the error of every one that failed. */
  function Failures(validators: seq<Validator>, weaks: seq<Str>, password: Password): (lines: seq<Str>)
    ensures |lines| <= |validators|
  {
    if validators == [] then []
    else
      Failures(validators[..|validators| - 1], weaks, password)
      + Written(Run(validators[|validators| - 1], weaks, password))
  }

  /** What one step of the loop writes: the error, if the check failed. */
  function Written(res: ValidationResult): (lines: seq<Str>)
    ensures lines == [] <==> res.pass
    ensures |lines| <= 1 && forall i :: 0 <= i < |lines| ==> lines[i] == res.error
  {
    if res.pass then [] else [res.error]
  }

  /** The texts of a list of diagnostics, one line each. */
  function RenderAll(ds: seq<Diagnostic>): (lines: seq<Str>)
    ensures |lines| == |ds|
  {
    seq(|ds|, i requires 0 <= i < |ds| => Render(ds[i]))
  }

  /** Everything `checkPassword(password)` writes. */
  function Report(weaks: seq<Str>, password: Password): seq<Str> {
    Failures(VALIDATORS, weaks, password)
  }

  /** A password every validator accepts. */
  predicate Acceptable(weaks: seq<Str>, password: Password) {
    MIN_LENGTH <= |password| <= MAX_LENGTH && AllAscii(password) && password !in weaks
  }

  /**
   * The rules a password breaks, in pipeline order, stated directly from the
   * four rules rather than through the validators.
   */
  function Violations(weaks: seq<Str>, password: Password): (ds: seq<Diagnostic>)
    ensures |ds| <= 3
    ensures ds == [] <==> Acceptable(weaks, password)
    ensures forall i :: 0 <= i < |ds| ==> WellFormed(ds[i])
  {
    Breaks(LongEnough, weaks, password) + Breaks(ShortEnough, weaks, password)
    + Breaks(ValidCharacters, weaks, password) + Breaks(Strong, weaks, password)
  }

  /** The rule a validator enforces, stated directly: what it reports when the rule is broken. */
  function Breaks(v: Validator, weaks: seq<Str>, password: Password): seq<Diagnostic> {
    match v
    case LongEnough => if |password| < MIN_LENGTH then [TooShort(password, |password|)] else []
    case ShortEnough => if |password| > MAX_LENGTH then [TooLong(password, |password|)] else []
    case ValidCharacters => if AllAscii(password) then [] else [BadChars(Some(NonAscii(password)))]
    case Strong => if password in weaks then [Common(password)] else []
  }

  /**
   * No early exit: whatever failed before it, a failing validator's error is
   * written, right after the lines of the validators that ran before it.
   */
  lemma {:induction false} FailureIsWritten(validators: seq<Validator>, weaks: seq<Str>, password: Password, i: nat)
    requires i < |validators| && !Run(validators[i], weaks, password).pass
    ensures var before := Failures(validators[..i], weaks, password);
      |before| < |Failures(validators, weaks, password)|
      && Failures(validators, weaks, password)[|before|] == Run(validators[i], weaks, password).error
  {
    var n := |validators|;
    var init := validators[..n - 1];
    var last := Written(Run(validators[n - 1], weaks, password));
    assert Failures(validators, weaks, password) == Failures(init, weaks, password) + last;
    if i == n - 1 {
      assert init == validators[..i];
      assert last == [Run(validators[i], weaks, password).error];
    } else {
      assert init[..i] == validators[..i];
      FailureIsWritten(init, weaks, password, i);
    }
  }

  lemma RenderAllAppend(a: seq<Diagnostic>, b: seq<Diagnostic>)
    ensures RenderAll(a + b) == RenderAll(a) + RenderAll(b)
  {
  }

  /** Running one more validator appends what it writes. */
  lemma FailuresSnoc(validators: seq<Validator>, v: Validator, weaks: seq<Str>, password: Password)
    ensures Failures(validators + [v], weaks, password)
      == Failures(validators, weaks, password) + Written(Run(v, weaks, password))
  {
  }

  /** The loop over the four validators, step by step. */
  lemma ReportUnfolded(weaks: seq<Str>, password: Password)
    ensures Report(weaks, password)
      == Written(Run(LongEnough, weaks, password)) + Written(Run(ShortEnough, weaks, password))
      + Written(Run(ValidCharacters, weaks, password)) + Written(Run(Strong, weaks, password))
  {
    var w0, w1 := Written(Run(LongEnough, weaks, password)), Written(Run(ShortEnough, weaks, password));
    var w2, w3 := Written(Run(ValidCharacters, weaks, password)), Written(Run(Strong, weaks, password));
    assert Failures([LongEnough], weaks, password) == w0 by {
      FailuresSnoc([], LongEnough, weaks, password);
      assert [] + [LongEnough] == [LongEnough];
    }
    assert Failures([LongEnough, ShortEnough], weaks, password) == w0 + w1 by {
      FailuresSnoc([LongEnough], ShortEnough, weaks, password);
      assert [LongEnough] + [ShortEnough] == [LongEnough, ShortEnough];
    }
    assert Failures([LongEnough, ShortEnough, ValidCharacters], weaks, password) == w0 + w1 + w2 by {
      FailuresSnoc([LongEnough, ShortEnough], ValidCharacters, weaks, password);
      assert [LongEnough, ShortEnough] + [ValidCharacters] == [LongEnough, ShortEnough, ValidCharacters];
    }
    FailuresSnoc([LongEnough, ShortEnough, ValidCharacters], Strong, weaks, password);
    assert [LongEnough, ShortEnough, ValidCharacters] + [Strong] == VALIDATORS;
  }

  /** What a validator writes is the text of the rule it finds broken, if any. */
  lemma StepMatches(v: Validator, weaks: seq<Str>, password: Password)
    ensures Written(Run(v, weaks, password)) == RenderAll(Breaks(v, weaks, password))
  {
  }

  /** The lines written are exactly the texts of the violated rules, in pipeline order. */
  lemma ReportMatchesViolations(weaks: seq<Str>, password: Password)
    ensures Report(weaks, password) == RenderAll(Violations(weaks, password))
  {
    var b0, b1 := Breaks(LongEnough, weaks, password), Breaks(ShortEnough, weaks, password);
    var b2, b3 := Breaks(ValidCharacters, weaks, password), Breaks(Strong, weaks, password);
    StepMatches(LongEnough, weaks, password);
    StepMatches(ShortEnough, weaks, password);
    StepMatches(ValidCharacters, weaks, password);
    StepMatches(Strong, weaks, password);
    RenderAllAppend(b0, b1);
    RenderAllAppend(b0 + b1, b2);
    RenderAllAppend(b0 + b1 + b2, b3);
    ReportUnfolded(weaks, password);
  }

  /** Every line written reads back as the rule it reports. */
  lemma ReportReadsBack(weaks: seq<Str>, password: Password)
    ensures var lines, ds := Report(weaks, password), Violations(weaks, password);
      |lines| == |ds| && forall i :: 0 <= i < |lines| ==> Decode(lines[i]) == Some(ds[i])
  {
    ReportMatchesViolations(weaks, password);
    var ds := Violations(weaks, password);
    forall i | 0 <= i < |ds| ensures Decode(Render(ds[i])) == Some(ds[i]) {
      DecodeRender(ds[i]);
    }
  }

  /**
   * With no weak-password list loaded, a password is reported exactly as if it
   * were missing from whatever list had been given: the commonality check passes.
   */
  lemma FailOpen(weaks: seq<Str>, password: Password)
    requires password !in weaks
    ensures Report([], password) == Report(weaks, password)
  {
    ReportMatchesViolations([], password);
    ReportMatchesViolations(weaks, password);
  }

  /** What the report promises: at most 3 lines, each reading back as a broken rule, none iff acceptable. */
  lemma ReportSummary(weaks: seq<Str>, password: Password)
    ensures var lines, ds := Report(weaks, password), Violations(weaks, password);
      |lines| == |ds| <= 3
      && (forall i :: 0 <= i < |lines| ==> Decode(lines[i]) == Some(ds[i]))
      && (lines == [] <==> Acceptable(weaks, password))
  {
    ReportReadsBack(weaks, password);
  }

  /** `checkPassword`: runs every validator in order and collects the errors of those that fail. */
  method CheckPassword(weaks: seq<Str>, password: Password) returns (written: seq<Str>)
    ensures written == Report(weaks, password)
    ensures |written| == |Violations(weaks, password)| <= 3
    ensures forall i :: 0 <= i < |written| ==> Decode(written[i]) == Some(Violations(weaks, password)[i])
    ensures written == [] <==> Acceptable(weaks, password)
  {
    var validators := VALIDATORS;
    written := [];
    for i := 0 to |validators|
      invariant written == Failures(validators[..i], weaks, password)
    {
      var res := Run(validators[i], weaks, password);
      if !res.pass {
        written := written + [res.error];
      }
      assert validators[..i + 1][..i] == validators[..i];
    }
    assert written == Report(weaks, password) by {
      assert validators[..|validators|] == validators;
    }
    ReportSummary(weaks, password);
  }
}
