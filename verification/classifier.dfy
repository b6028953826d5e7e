/**
 * `checkTest`: the verdict on one finished run, and the report whose
 * counters it updates; and the failure the fuzz runner forces when
 * `radare2` could not be spawned on a fuzzed file.
 */
module Classifier {
  import opened Common
  import opened Strings
  import opened Database

  /** What a run left on the record: `test.stdout` and `test.stderr`
      (None when the runner set nothing), and `test.fuzz`, set only by the
      fuzz runner when the spawn failed. */
  datatype Captured = Captured(stdout: Option<string>, stderr: Option<string>, fuzz: bool)

  /** The flags `checkTest` sets on the record. */
  datatype Verdict = Verdict(stdoutFail: bool, stderrFail: bool, passes: bool)

  /** `test.stdout.trim()` with `test.stdout` undefined: a TypeError. */
  datatype CheckError = StdoutMissing

  /** The four outcomes, printed `[OK]`, `[FX]`, `[BR]` and `[XX]`. */
  datatype Status = Ok | Fixed | Broken | Failed

  /** A string value JavaScript treats as true: defined and not empty. */
  predicate Truthy(s: Option<string>) {
    s.Some? && s.value != ""
  }

  /** On Windows every `\r` is deleted from a captured stream. */
  function StripCr(win32: bool, s: Option<string>): (r: Option<string>)
    ensures r.Some? <==> s.Some?
    ensures r.Some? ==> '\r' !in r.value || !win32
    ensures !win32 ==> r == s
    ensures win32 && s.Some? ==> r == Some(RemoveAll(s.value, '\r'))
    ensures win32 && s.Some? ==> multiset(r.value) == multiset(s.value)['\r' := 0]
  {
    if win32 && s.Some? then
      assert multiset(RemoveAll(s.value, '\r'))['\r'] == 0;
      Some(RemoveAll(s.value, '\r'))
    else s
  }

  /** Whether stdout fails: never without an expectation; against a base64
      or unspecified-format expectation both sides are trimmed; a literal
      `EXPECT` must match exactly. */
  function StdoutFails(test: TestRecord, stdout: Option<string>): Result<bool, CheckError> {
    if !Truthy(test.expected) then Success(false)
    else if test.expect64 != Some(false) then
      if stdout.None? then Failure(StdoutMissing)
      else Success(Trim(test.expected.value) != Trim(stdout.value))
    else Success(Some(test.expected.value) != stdout)
  }

  /** Whether stderr fails: only against an expectation, exactly. */
  predicate StderrFails(test: TestRecord, stderr: Option<string>) {
    Truthy(test.expectErr) && Some(test.expectErr.value) != stderr
  }

  /** `checkTest(test)` on a run that captured `out`, on Windows when
      `win32` holds. */
  function Check(test: TestRecord, out: Captured, win32: bool): (r: Result<Verdict, CheckError>)
    ensures r.Success? ==> (r.value.passes <==> !r.value.stdoutFail && !r.value.stderrFail)
    ensures r.Failure? <==> Truthy(test.expected) && test.expect64 != Some(false) && out.stdout.None?
    ensures r.Success? && r.value.stdoutFail ==> Truthy(test.expected)
    ensures r.Success? && Truthy(test.expected) && test.expect64 != Some(false) ==>
              (r.value.stdoutFail <==> Trim(test.expected.value) != Trim(StripCr(win32, out.stdout).value))
    ensures r.Success? && Truthy(test.expected) && test.expect64 == Some(false) ==>
              (r.value.stdoutFail <==> StripCr(win32, out.stdout) != test.expected)
    ensures r.Success? ==>
              (r.value.stderrFail <==> Truthy(test.expectErr) && StripCr(win32, out.stderr) != test.expectErr)
  {
    match StdoutFails(test, StripCr(win32, out.stdout))
    case Failure(e) => Failure(e)
    case Success(o) =>
      var e := StderrFails(test, StripCr(win32, out.stderr));
      Success(Verdict(o, e, !o && !e))
  }

  /** The outcome of a record: fixed or ok when it passes, broken or failed
      when not, by its `BROKEN` mark. */
  function StatusOf(passes: bool, broken: bool): (s: Status)
    ensures s == Ok || s == Fixed <==> passes
    ensures s == Fixed || s == Broken <==> broken
  {
    if passes then (if broken then Fixed else Ok) else (if broken then Broken else Failed)
  }

  /** `this.report`: how many records were checked, and how many of each
      outcome. */
  class Report {
    var total: nat
    var success: nat
    var failed: nat
    var broken: nat
    var fixed: nat

    /** Every checked record has exactly one outcome. */
    predicate Valid()
      reads this
    {
      total == success + failed + broken + fixed
    }

    /** The report the constructor starts with. */
    constructor ()
      ensures Valid() && total == 0 && success == 0 && failed == 0 && broken == 0 && fixed == 0
    {
      total, success, failed, broken, fixed := 0, 0, 0, 0, 0;
    }

    /** `checkTest(test)`: the verdict, with one more record counted under
        its outcome; a TypeError leaves the report as it was. */
    method CheckTest(test: TestRecord, out: Captured, win32: bool) returns (r: Result<Verdict, CheckError>)
      requires Valid()
      modifies this
      ensures Valid()
      ensures r == Check(test, out, win32)
      ensures r.Failure? ==> unchanged(this)
      ensures r.Success? ==>
                var s := StatusOf(r.value.passes, test.broken);
                && total == old(total) + 1
                && success == old(success) + (if s == Ok then 1 else 0)
                && fixed == old(fixed) + (if s == Fixed then 1 else 0)
                && broken == old(broken) + (if s == Broken then 1 else 0)
                && failed == old(failed) + (if s == Failed then 1 else 0)
    {
      var stdout := out.stdout;
      var stderr := out.stderr;
      if win32 {
        if stdout.Some? {
          stdout := Some(RemoveAll(stdout.value, '\r'));
        }
        if stderr.Some? {
          stderr := Some(RemoveAll(stderr.value, '\r'));
        }
      }
      assert stdout == StripCr(win32, out.stdout) && stderr == StripCr(win32, out.stderr);
      var stdoutFail: bool;
      if test.expected.Some? && test.expected.value != "" {
        if test.expect64 != Some(false) {
          if stdout.None? {
            return Failure(StdoutMissing);
          }
          stdoutFail := Trim(test.expected.value) != Trim(stdout.value);
        } else {
          stdoutFail := Some(test.expected.value) != stdout;
        }
      } else {
        stdoutFail := false;
      }
      assert StdoutFails(test, stdout) == Success(stdoutFail);
      var stderrFail := if test.expectErr.Some? && test.expectErr.value != "" then Some(test.expectErr.value) != stderr else false;
      var passes := !stdoutFail && !stderrFail;
      Tally(passes, test.broken);
      r := Success(Verdict(stdoutFail, stderrFail, passes));
    }

    /** One more record counted, under its outcome. */
    method Tally(passes: bool, isBroken: bool)
      requires Valid()
      modifies this
      ensures Valid()
      ensures var s := StatusOf(passes, isBroken);
              && total == old(total) + 1
              && success == old(success) + (if s == Ok then 1 else 0)
              && fixed == old(fixed) + (if s == Fixed then 1 else 0)
              && broken == old(broken) + (if s == Broken then 1 else 0)
              && failed == old(failed) + (if s == Failed then 1 else 0)
    {
      total := total + 1;
      if passes {
        if isBroken {
          fixed := fixed + 1;
        } else {
          success := success + 1;
        }
      } else {
        if isBroken {
          broken := broken + 1;
        } else {
          failed := failed + 1;
        }
      }
    }
  }

  // ---------------------------------------------------------------------------
  // Properties

  /** A record with no expectation on either stream always passes. */
  lemma NoExpectations(test: TestRecord, out: Captured, win32: bool)
    requires !Truthy(test.expected) && !Truthy(test.expectErr)
    ensures Check(test, out, win32) == Success(Verdict(false, false, true))
  {
  }

  /** A plain `EXPECT=v` stores `v` with a newline: the output `v` passes
      it when the record's format is not declared literal, and fails it when
      it is. */
  lemma TrailingNewline(test: TestRecord, v: string, stderr: Option<string>, win32: bool)
    requires test.expected == Some(v + "\n") && !Truthy(test.expectErr) && '\r' !in v
    ensures var r := Check(test, Captured(Some(v), stderr, false), win32);
            r.Success? && (r.value.passes <==> test.expect64 != Some(false))
  {
    TrimSnocSpace(v, '\n');
    RemoveAllAbsent(v, '\r');
    assert v + "\n" != v by {
      assert |v + "\n"| != |v|;
    }
  }

  /** On Windows a `\r` before a line break in the output is dropped before
      the exact comparison, so `\r\n` line endings match an expected `\n`;
      elsewhere the same output fails. */
  lemma CarriageReturn(test: TestRecord, a: string, rest: string, win32: bool)
    requires test.expect64 == Some(false) && !Truthy(test.expectErr)
    requires test.expected == Some(a + rest) && rest != "" && rest[0] == '\n'
    requires '\r' !in a && '\r' !in rest
    ensures Check(test, Captured(Some(a + "\r" + rest), None, false), win32).value.passes <==> win32
  {
    var out := a + "\r" + rest;
    if win32 {
      RemoveOne(a, '\r', rest);
    } else {
      assert out[|a|] == '\r' && (a + rest)[|a|] == '\n';
    }
  }

  // ---------------------------------------------------------------------------
  // The fuzz runner

  /** The record `runFuzz` makes for a fuzzed file. */
  function FuzzRecord(dir: string, path: string): (t: TestRecord)
    ensures !t.broken && !Truthy(t.expected) && t.from == dir
  {
    Fresh(dir).(name := Some("fuzz"), path := Some(path))
  }

  /** When the spawn fails, `runTestFuzz` marks the record so that it
      fails: it expects `N` on stderr, records `X` there, and empties the
      script. */
  function ForceFailure(test: TestRecord, stdout: Option<string>): (r: (TestRecord, Captured))
    ensures r.0.expectErr == Some("N") && r.1.stderr == Some("X") && r.1.fuzz
  {
    (test.(expectErr := Some("N"), cmdScript := Some("")), Captured(stdout, Some("X"), true))
  }

  /** A forced record fails on stderr whatever its output. */
  lemma ForcedFails(test: TestRecord, stdout: Option<string>, win32: bool)
    requires !Truthy(test.expected)
    ensures var (t, out) := ForceFailure(test, stdout);
            Check(t, out, win32) == Success(Verdict(false, true, false))
  {
    var (t, out) := ForceFailure(test, stdout);
    if win32 {
      RemoveAllAbsent("X", '\r');
    }
    assert StripCr(win32, out.stderr) == Some("X");
    assert "N" != "X" by { assert "N"[0] != "X"[0]; }
  }

  /** A fuzz case whose spawn errored always counts as failed: the record
      `runFuzz` made, forced by `runTestFuzz`, is checked without a
      TypeError and lands under `[XX]`. */
  lemma ForcedFuzzFails(dir: string, path: string, stdout: Option<string>, win32: bool)
    ensures var (t, out) := ForceFailure(FuzzRecord(dir, path), stdout);
            var r := Check(t, out, win32);
            r.Success? && StatusOf(r.value.passes, t.broken) == Failed
  {
    ForcedFails(FuzzRecord(dir, path), stdout, win32);
  }
}
