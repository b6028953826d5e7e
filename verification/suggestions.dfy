/**
 * The expectation lines `checkTestResult` suggests for a failing record, so
 * that a maintainer can paste the captured output back into the document:
 * `EXPECT64=` with the base64 text, `EXPECT=` in the heredoc or delimited
 * form the record was written in, and `EXPECT_ERR=`. The lemmas read each
 * suggestion back with the parser.
 */
module Suggestions {
  import opened Common
  import opened Strings
  import opened Routing
  import opened Database
  import opened DatabaseFacts
  import opened Classifier

  /** The delimiter of a delimited suggestion: the record's own, `%` when it
      had none. */
  function SuggestDelim(test: TestRecord): char {
    if test.expectDelim.Some? then test.expectDelim.value else '%'
  }

  /** The `EXPECT` suggestion for the captured `stdout`, with `base64` as
      `encode`: none when the record's `EXPECT` form is unknown. */
  function ExpectSuggestion(test: TestRecord, stdout: string, encode: string -> string): (r: Option<string>)
    ensures r.None? <==> test.expect64.None?
  {
    match test.expect64
    case None => None
    case Some(true) => Some(KeyLine("EXPECT64", encode(stdout)))
    case Some(false) =>
      if test.endString.Some? then Some("\n" + KeyLine("EXPECT", "<<" + test.endString.value) + "\n" + stdout)
      else
        var d := SuggestDelim(test);
        Some("\n" + KeyLine("EXPECT", [d] + stdout + [d]) + "\n")
  }

  /** How many newlines `s` holds: `(s.match(/\n/g) || []).length`. */
  function NewlineCount(s: string): nat {
    multiset(s)['\n']
  }

  /** The `EXPECT_ERR` suggestion for the captured `stderr`: a notice when it
      holds more than one newline, the directive otherwise. */
  function ErrSuggestion(stderr: string): string {
    if NewlineCount(stderr) > 1 then "<Multiline EXPECT_ERR is not supported>"
    else KeyLine("EXPECT_ERR", stderr)
  }

  /** The suggestions `checkTestResult` prints for a record with the verdict
      `v`, in order, after `checkTest` left `stdout` and `stderr` on it; `fuzz`
      is `test.fuzz !== undefined`, `verbose` the harness's verbose flag (set
      by `interactive` too; `test.fixed` is never set, so only `broken` counts) and
      `ci` whether `TRAVIS` or `APPVEYOR` is set. */
  function Suggestions(test: TestRecord, v: Verdict, fuzz: bool, stdout: string, stderr: string,
                       verbose: bool, ci: bool, encode: string -> string): (r: seq<string>)
    ensures v.passes || (test.broken && (!verbose || ci)) ==> r == []
    ensures !(v.passes || (test.broken && (!verbose || ci))) ==>
              |r| == (if v.stdoutFail && test.expect64.Some? then 1 else 0) + (if v.stderrFail && !fuzz then 1 else 0)
    ensures !(v.passes || (test.broken && (!verbose || ci))) && v.stdoutFail && test.expect64.Some? ==>
              |r| >= 1 && Some(r[0]) == ExpectSuggestion(test, stdout, encode)
    ensures !(v.passes || (test.broken && (!verbose || ci))) && v.stderrFail && !fuzz ==>
              |r| >= 1 && r[|r| - 1] == ErrSuggestion(stderr)
    ensures (!v.stdoutFail || test.expect64.None?) && (!v.stderrFail || fuzz) ==> r == []
  {
    if v.passes || (test.broken && (!verbose || ci)) then []
    else
      var stdoutLine := if v.stdoutFail && test.expect64.Some? then [ExpectSuggestion(test, stdout, encode).value] else [];
      var stderrLine := if v.stderrFail && !fuzz then [ErrSuggestion(stderr)] else [];
      stdoutLine + stderrLine
  }

  // ---------------------------------------------------------------------------
  // The lines of a suggestion

  /** A directive holds no newline when neither its key nor its value does. */
  lemma KeyLineOneLine(key: string, v: string)
    requires KeyOf(key) != OtherKey && '\n' !in v
    ensures '\n' !in KeyLine(key, v)
  {
    LabelledKeyWord(key);
    var a := KeyLine(key, v);
    forall k | 0 <= k < |a| ensures a[k] != '\n' {
      if k < |key| {
        assert a[k] == key[k] && !IsSpace(key[k]);
      } else if k > |key| {
        assert a[k] == v[k - |key| - 1];
      }
    }
  }

  /** More text after the value of a directive is more of its value. */
  lemma KeyLineAppend(key: string, v: string, w: string)
    ensures KeyLine(key, v + w) == KeyLine(key, v) + w
  {
  }

  /** Text between two newlines: a blank line, its own lines, a blank line. */
  lemma FramedLines(a: string)
    ensures Split("\n" + a + "\n", '\n') == [""] + Split(a, '\n') + [""]
  {
    SplitSep(a, "", '\n');
    assert a + ['\n'] + "" == a + "\n";
    SplitCons("", a + "\n", '\n');
    assert "" + ['\n'] + (a + "\n") == "\n" + a + "\n";
  }

  /** The lines of a delimited suggestion for an output that holds newlines:
      a blank line, the directive with the delimiter and the first output
      line, the middle output lines, the last output line with the delimiter,
      and a blank line. */
  lemma {:induction false} DelimitedLines(key: string, d: char, stdout: string)
    requires '\n' in stdout && d != '\n' && KeyOf(key) != OtherKey
    ensures var ps := Split(stdout, '\n');
            var n := |ps|;
            n >= 2 &&
            Split("\n" + KeyLine(key, [d] + stdout + [d]) + "\n", '\n') ==
            ["", KeyLine(key, [d] + ps[0])] + ps[1..n - 1] + [ps[n - 1] + [d], ""]
  {
    var ps := Split(stdout, '\n');
    var n := |ps|;
    SplitMany(stdout, '\n');
    var p := KeyLine(key, [d]);
    KeyLineOneLine(key, [d]);
    var a := KeyLine(key, [d] + stdout + [d]);
    assert [d] + stdout + [d] == [d] + (stdout + [d]);
    KeyLineAppend(key, [d], stdout + [d]);
    assert a == p + (stdout + [d]);
    WrappedPieces(p, stdout, d);
    var first := p + ps[0];
    var last := ps[n - 1] + [d];
    var mid := ps[1..n - 1];
    var inner := Split(a, '\n');
    assert inner == [first] + mid + [last];
    KeyLineAppend(key, [d], ps[0]);
    assert first == KeyLine(key, [d] + ps[0]);
    FramedLines(a);
    assert Split("\n" + a + "\n", '\n') == [""] + inner + [""];
    Framed("", first, mid, last);
  }

  /** The pieces of a prefix without newlines, an output that holds newlines
      and one more character. */
  lemma WrappedPieces(p: string, stdout: string, d: char)
    requires '\n' !in p && '\n' in stdout && d != '\n'
    ensures var ps := Split(stdout, '\n');
            var n := |ps|;
            n >= 2 && Split(p + (stdout + [d]), '\n') == [p + ps[0]] + ps[1..n - 1] + [ps[n - 1] + [d]]
  {
    var ps := Split(stdout, '\n');
    var n := |ps|;
    SplitMany(stdout, '\n');
    SplitSuffix(stdout, [d], '\n');
    var q := Split(stdout + [d], '\n');
    assert q[0] == ps[0] && q[1..] == ps[1..n - 1] + [ps[n - 1] + [d]];
    SplitPrefix(p, stdout + [d], '\n');
  }

  /** The lines of a delimited suggestion for an output without newlines: a
      blank line, the directive, a blank line. */
  lemma DelimitedLine(key: string, d: char, stdout: string)
    requires '\n' !in stdout && d != '\n' && KeyOf(key) != OtherKey
    ensures Split("\n" + KeyLine(key, [d] + stdout + [d]) + "\n", '\n') ==
            ["", KeyLine(key, [d] + stdout + [d]), ""]
  {
    var v := [d] + stdout + [d];
    assert '\n' !in v;
    KeyLineOneLine(key, v);
    SplitNoSep(KeyLine(key, v), '\n');
    FramedLines(KeyLine(key, v));
  }

  /** A newline, a line, a newline and more text: a blank line, that line,
      and the lines of the rest. */
  lemma {:induction false} AfterLine(a: string, rest: string)
    requires '\n' !in a
    ensures Split("\n" + a + "\n" + rest, '\n') == ["", a] + Split(rest, '\n')
  {
    SplitCons(a, rest, '\n');
    assert "\n" + a + "\n" + rest == "" + ['\n'] + (a + ['\n'] + rest);
    SplitCons("", a + ['\n'] + rest, '\n');
  }

  /** The lines of a heredoc suggestion: a blank line, the directive, and the
      lines of the output. */
  lemma HeredocLines(key: string, term: string, stdout: string)
    requires KeyOf(key) != OtherKey && '\n' !in term
    ensures Split("\n" + KeyLine(key, "<<" + term) + "\n" + stdout, '\n') ==
            ["", KeyLine(key, "<<" + term)] + Split(stdout, '\n')
  {
    assert '\n' !in "<<" + term;
    KeyLineOneLine(key, "<<" + term);
    AfterLine(KeyLine(key, "<<" + term), stdout);
  }

  /** With the terminator added after an output made of whole lines: a blank
      line, the directive, those lines and the terminator. */
  lemma {:induction false} HeredocLinesClosed(key: string, term: string, ls: seq<string>)
    requires KeyOf(key) != OtherKey && '\n' !in term
    requires forall k :: 0 <= k < |ls| ==> '\n' !in ls[k]
    ensures Split("\n" + KeyLine(key, "<<" + term) + "\n" + Lines(ls) + term, '\n') ==
            ["", KeyLine(key, "<<" + term)] + ls + [term]
  {
    var a := KeyLine(key, "<<" + term);
    assert '\n' !in "<<" + term;
    KeyLineOneLine(key, "<<" + term);
    AfterLine(a, Lines(ls) + term);
    assert "\n" + a + "\n" + Lines(ls) + term == "\n" + a + "\n" + (Lines(ls) + term);
    SplitLines(ls, term);
    SplitNoSep(term, '\n');
  }

  /** A text without newlines, then one newline. */
  lemma OneNewline(x: string)
    requires '\n' !in x
    ensures NewlineCount(x + "\n") == 1
  {
    assert multiset(x + "\n") == multiset(x) + multiset{'\n'};
  }

  // ---------------------------------------------------------------------------
  // Reading the suggestions back

  /** The delimited suggestion for an output that holds newlines and not the
      delimiter, cut into lines: the blank first line is skipped, the `EXPECT`
      directive reads the output back exactly and leaves only the blank last
      line to read. */
  lemma DelimitedRoundTrip(source: string, decode: string -> string, test: TestRecord, t: TestRecord,
                           stdout: string, encode: string -> string)
    requires test.expect64 == Some(false) && test.endString.None?
    requires IsDelim(SuggestDelim(test)) && SuggestDelim(test) !in stdout && '\n' in stdout
    requires !Mentions(source, "asm")
    ensures var lines := Split(ExpectSuggestion(test, stdout, encode).value, '\n');
            |lines| >= 4 && lines[0] == "" && lines[|lines| - 1] == "" &&
            StepAt(source, lines, decode, 1, t) ==
            Next(|lines| - 1, t.(expect64 := Some(false), expectDelim := Some(SuggestDelim(test)), expected := Some(stdout)), [])
  {
    var d := SuggestDelim(test);
    var lines := Split(ExpectSuggestion(test, stdout, encode).value, '\n');
    ValueLabels();
    DelimitedLines("EXPECT", d, stdout);
    var ps := Split(stdout, '\n');
    var n := |ps|;
    assert |lines| == n + 2;
    SplitChars(stdout, '\n', d);
    SplitPieces(stdout);
    assert lines[n] == ps[n - 1] + [d] + "";
    assert lines[2..n] == ps[1..n - 1];
    assert forall m :: 1 < m < n ==> lines[m] == ps[m - 1];
    DelimitedBlock(source, lines, decode, 1, t, "EXPECT", d, ps[0], n, ps[n - 1], "");
  }

  /** The delimited suggestion for an output without newlines reads back as
      the output with a newline, as any one-line delimited value does. */
  lemma DelimitedLineRoundTrip(source: string, decode: string -> string, test: TestRecord, t: TestRecord,
                               stdout: string, encode: string -> string)
    requires test.expect64 == Some(false) && test.endString.None?
    requires IsDelim(SuggestDelim(test)) && SuggestDelim(test) !in stdout && '\n' !in stdout
    requires !Mentions(source, "asm")
    ensures var lines := Split(ExpectSuggestion(test, stdout, encode).value, '\n');
            |lines| == 3 && lines[0] == "" && lines[2] == "" &&
            StepAt(source, lines, decode, 1, t) ==
            Next(2, t.(expect64 := Some(false), expectDelim := Some(SuggestDelim(test)), expected := Some(stdout + "\n")), [])
  {
    var d := SuggestDelim(test);
    var lines := Split(ExpectSuggestion(test, stdout, encode).value, '\n');
    ValueLabels();
    DelimitedLine("EXPECT", d, stdout);
    assert lines[1] == "EXPECT" + "=" + ([d] + stdout + [d] + "");
    DelimitedValue(source, lines, decode, 1, t, "EXPECT", d, stdout, "");
  }

  /** The heredoc suggestion as printed has no terminator line: when no line
      of the output starts with the terminator, reading it back throws
      "Unexpected EOF". */
  lemma HeredocAsPrinted(source: string, decode: string -> string, test: TestRecord, t: TestRecord,
                         stdout: string, encode: string -> string)
    requires test.expect64 == Some(false) && test.endString.Some? && NoSpace(test.endString.value)
    requires forall k :: 0 <= k < |Split(stdout, '\n')| ==> !StartsWith(Split(stdout, '\n')[k], test.endString.value)
    requires !Mentions(source, "asm")
    ensures var lines := Split(ExpectSuggestion(test, stdout, encode).value, '\n');
            |lines| >= 3 && lines[0] == "" &&
            StepAt(source, lines, decode, 1, t) == Stop(UnexpectedEof(test.endString.value))
  {
    var term := test.endString.value;
    var lines := Split(ExpectSuggestion(test, stdout, encode).value, '\n');
    NoSpaceOneLine(term);
    ValueLabels();
    HeredocLines("EXPECT", term, stdout);
    assert forall m :: 1 < m < |lines| ==> lines[m] == Split(stdout, '\n')[m - 2];
    assert lines[1] == "EXPECT" + "=" + ("<<" + term);
    HeredocPlain(term);
    HeredocUnterminated(source, lines, decode, 1, t, "EXPECT", "<<" + term, term);
  }

  /** With the terminator line added after an output made of whole lines,
      none starting with the terminator, the heredoc suggestion reads the
      output back exactly and leaves the terminator line to be read next. */
  lemma {:induction false} HeredocRoundTrip(source: string, decode: string -> string, test: TestRecord, t: TestRecord,
                         ls: seq<string>, encode: string -> string)
    requires test.expect64 == Some(false) && test.endString.Some? && NoSpace(test.endString.value)
    requires forall k :: 0 <= k < |ls| ==> '\n' !in ls[k] && !StartsWith(ls[k], test.endString.value)
    requires !Mentions(source, "asm")
    ensures var term := test.endString.value;
            var lines := Split(ExpectSuggestion(test, Lines(ls), encode).value + term, '\n');
            |lines| == |ls| + 3 && lines[0] == "" && lines[|lines| - 1] == term &&
            StepAt(source, lines, decode, 1, t) ==
            Next(|lines| - 1, t.(expect64 := Some(false), endString := Some(term), expected := Some(Lines(ls))), [])
  {
    var term := test.endString.value;
    var lines := Split(ExpectSuggestion(test, Lines(ls), encode).value + term, '\n');
    assert ExpectSuggestion(test, Lines(ls), encode).value + term ==
           "\n" + KeyLine("EXPECT", "<<" + term) + "\n" + Lines(ls) + term;
    NoSpaceOneLine(term);
    ValueLabels();
    ClosedSuggestion("EXPECT", term, ls, lines);
    assert forall m :: 1 < m < |ls| + 2 ==> !StartsWith(lines[m], term);
    assert lines[1] == "EXPECT" + "=" + ("<<" + term);
    HeredocPlain(term);
    ExpectHeredoc(source, lines, decode, 1, t, "EXPECT", "<<" + term, term, |ls| + 2);
  }

  /** `HeredocLinesClosed` line by line. */
  lemma {:induction false} ClosedSuggestion(key: string, term: string, ls: seq<string>, lines: seq<string>)
    requires KeyOf(key) != OtherKey
    requires '\n' !in term && forall k :: 0 <= k < |ls| ==> '\n' !in ls[k]
    requires lines == Split("\n" + KeyLine(key, "<<" + term) + "\n" + Lines(ls) + term, '\n')
    ensures |lines| == |ls| + 3 && lines[0] == "" && lines[|ls| + 2] == term
    ensures lines[1] == key + "=<<" + term && StartsWith(lines[|ls| + 2], term)
    ensures lines[2..|ls| + 2] == ls
    ensures forall m :: 1 < m < |ls| + 2 ==> lines[m] == ls[m - 2]
  {
    HeredocLinesClosed(key, term, ls);
    assert term[..|term|] == term;
  }

  /** The printed `<<term` reads back as a heredoc ended by `term`. */
  lemma HeredocPlain(term: string)
    requires NoSpace(term)
    ensures IsHeredoc(Trim("<<" + term)) && Trim("<<" + term)[2..] == term
  {
    HeredocTrim("", term, "");
    assert "" + "<<" + term + "" == "<<" + term;
  }

  /** A terminator without white space holds no newline. */
  lemma NoSpaceOneLine(term: string)
    requires NoSpace(term)
    ensures '\n' !in term
  {
    forall k | 0 <= k < |term| ensures term[k] != '\n' {
      assert !IsSpace(term[k]);
    }
  }

  /** The base64 suggestion, as a line of a document, reads back the output
      whenever `debase64` undoes `base64` on it. */
  lemma Base64RoundTrip(source: string, lines: seq<string>, decode: string -> string, i: nat,
                        test: TestRecord, t: TestRecord, stdout: string, encode: string -> string)
    requires test.expect64 == Some(true) && decode(encode(stdout)) == stdout
    requires i < |lines| && lines[i] == ExpectSuggestion(test, stdout, encode).value
    requires !Mentions(source, "asm")
    ensures StepAt(source, lines, decode, i, t) == Next(i + 1, t.(expected := Some(stdout), expect64 := Some(true)), [])
  {
    assert lines[i] == "EXPECT64" + "=" + encode(stdout);
    OutputLabels();
    Base64Step(source, lines, decode, i, t, "EXPECT64", encode(stdout));
  }

  /** An `EXPECT64` line (`key` is that key) stores its decoded value. */
  lemma Base64Step(source: string, lines: seq<string>, decode: string -> string, i: nat,
                   t: TestRecord, key: string, v: string)
    requires KeyOf(key) == Expect64Key
    requires i < |lines| && lines[i] == key + "=" + v && !Mentions(source, "asm")
    ensures StepAt(source, lines, decode, i, t) == Next(i + 1, t.(expected := Some(decode(v)), expect64 := Some(true)), [])
  {
    StepKnownKey(source, lines, decode, i, t, key, v);
  }

  /** A one-line error output `x` with its newline: the suggestion is the
      directive followed by a blank line, and reading it back gives the error
      output exactly. */
  lemma ErrRoundTrip(source: string, decode: string -> string, t: TestRecord, x: string)
    requires '\n' !in x && !IsHeredoc(Trim(x)) && !IsDelimited(Trim(x))
    requires !Mentions(source, "asm")
    ensures var lines := Split(ErrSuggestion(x + "\n"), '\n');
            lines == [KeyLine("EXPECT_ERR", x), ""] &&
            StepAt(source, lines, decode, 0, t) == Next(1, t.(expectErr := Some(x + "\n")), [])
  {
    ErrLines(x);
    var lines := Split(ErrSuggestion(x + "\n"), '\n');
    assert lines[0] == "EXPECT_ERR" + "=" + x;
    OutputLabels();
    PlainValue(source, lines, decode, 0, t, "EXPECT_ERR", x);
  }

  /** The lines of the `EXPECT_ERR` suggestion for a one-line error output:
      the directive and a blank line. */
  lemma ErrLines(x: string)
    requires '\n' !in x
    ensures Split(ErrSuggestion(x + "\n"), '\n') == [KeyLine("EXPECT_ERR", x), ""]
  {
    OneNewline(x);
    var a := KeyLine("EXPECT_ERR", x);
    assert ErrSuggestion(x + "\n") == a + ['\n'] + "";
    OutputLabels();
    KeyLineOneLine("EXPECT_ERR", x);
    SplitCons(a, "", '\n');
  }
}
