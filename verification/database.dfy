/**
 * `runTests`: the parser of a test document. It walks the lines with a
 * cursor, fills in a test record from `KEY=VALUE` directives and hands the
 * record to a runner at every routed `RUN` line; in an assembler document
 * every line is expanded by `parseTestAsm` instead.
 *
 * The parser is given twice: as the functions `StepAt`/`ParseFrom`, which
 * say what one line does and what the whole walk produces, and as the
 * method `RunTests`, which moves the cursor back and forth as `runTests`
 * does and is proved to produce the same.
 */
module Database {
  import opened Common
  import opened Strings
  import opened Routing
  import opened AsmLines

  /** A test record: `from` is always set, every other property only once a
      directive sets it (None stands for `undefined`). */
  datatype TestRecord = TestRecord(
    from: string,
    name: Option<string>,
    path: Option<string>,
    args: Option<string>,
    cmdScript: Option<string>,
    cmds: Option<seq<string>>,
    arch: Option<string>,
    bits: Option<string>,
    broken: bool,
    expected: Option<string>,
    expect64: Option<bool>,
    endString: Option<string>,
    expectDelim: Option<char>,
    expectErr: Option<string>,
    file: Option<string>)

  /** `{from: source}`. */
  function Fresh(source: string): TestRecord {
    TestRecord(source, None, None, None, None, None, None, None, false, None, None, None, None, None, None)
  }

  /** What the parser hands on, in the order the promises are pushed. */
  datatype Dispatch =
    | Routed(handler: Handler, test: TestRecord)  // a `RUN` line: the routed runner, with `checkTestResult`
    | Trailing(test: TestRecord)                  // the record left at the end: `runTest` without a callback
    | Assembler(asmTest: AsmTest)                 // one expanded assembler test: `runTestAsm`

  /** Why the parser stops. */
  datatype ParseError =
    | InvalidDatabase(line: string)  // a line with no `=` that is not a routed `RUN`
    | InvalidKey(key: string)        // an unknown key
    | UnexpectedEof(endString: string)
    | DelimitedExpectErr             // `EXPECT_ERR` given as a heredoc or a delimited value
    | PastEndOfInput                 // a `CMDS` heredoc or a delimited value never closed: a TypeError
    | NoTokens(line: string)         // an assembler line with nothing to match: a TypeError

  /** The message of the thrown error; None for the TypeErrors, whose text
      the JavaScript engine chooses. `new Error(message, x)` ignores `x`, so
      neither the line nor the key is part of the message. */
  function Message(e: ParseError): (m: Option<string>)
    ensures m.None? <==> e.PastEndOfInput? || e.NoTokens?
    ensures e.UnexpectedEof? ==> m == Some("Unexpected EOF in EXPECT -- did you forget a " + e.endString + "?")
  {
    match e
    case InvalidDatabase(_) => Some("Invalid database")
    case InvalidKey(_) => Some("Invalid database, key =(")
    case UnexpectedEof(t) => Some("Unexpected EOF in EXPECT -- did you forget a " + t + "?")
    case DelimitedExpectErr => Some("Multiline or delimited EXPECT_ERR is not supported")
    case PastEndOfInput => None
    case NoTokens(_) => None
  }

  /** The line `key=value`. */
  function KeyLine(key: string, value: string): string {
    key + "=" + value
  }

  /** The characters of `/['"%]/`. */
  predicate IsDelim(c: char) {
    c == '\'' || c == '"' || c == '%'
  }

  /** A value given as a heredoc: its trimmed text starts with `<<`. */
  predicate IsHeredoc(vt: string) {
    StartsWith(vt, "<<")
  }

  /** A value given between delimiters: its trimmed text starts with one. */
  predicate IsDelimited(vt: string) {
    vt != "" && IsDelim(vt[0])
  }

  // ---------------------------------------------------------------------------
  // Multi-line values

  /** The first line at or after `j` that starts with the heredoc terminator
      `term`. */
  function HeredocStop(lines: seq<string>, j: nat, term: string): (r: Option<nat>)
    requires j <= |lines|
    ensures r.Some? ==> j <= r.value < |lines| && StartsWith(lines[r.value], term)
    decreases |lines| - j
  {
    if j == |lines| then None
    else if StartsWith(lines[j], term) then Some(j)
    else HeredocStop(lines, j + 1, term)
  }

  /** `HeredocStop` finds the first line from `j` on that starts with
      `term`: `stop`, or None when `stop` is past the last line. */
  lemma {:induction false} HeredocStopIs(lines: seq<string>, j: nat, term: string, stop: nat)
    requires j <= stop <= |lines|
    requires forall m :: j <= m < stop ==> !StartsWith(lines[m], term)
    requires stop < |lines| ==> StartsWith(lines[stop], term)
    ensures HeredocStop(lines, j, term) == if stop == |lines| then None else Some(stop)
    decreases stop - j
  {
    if j < stop {
      HeredocStopIs(lines, j + 1, term, stop);
    }
  }

  /** The first line at or after `j` that holds the delimiter `d`. */
  function DelimClose(lines: seq<string>, j: nat, d: char): (r: Option<nat>)
    requires j <= |lines|
    ensures r.Some? ==> j <= r.value < |lines| && Find(lines[r.value], d, 0) != -1
    decreases |lines| - j
  {
    if j == |lines| then None
    else if Find(lines[j], d, 0) != -1 then Some(j)
    else DelimClose(lines, j + 1, d)
  }

  /** `DelimClose` finds the first line from `j` on that holds `d`: `close`,
      or None when `close` is past the last line. */
  lemma {:induction false} DelimCloseIs(lines: seq<string>, j: nat, d: char, close: nat)
    requires j <= close <= |lines|
    requires forall m :: j <= m < close ==> Find(lines[m], d, 0) == -1
    requires close < |lines| ==> Find(lines[close], d, 0) != -1
    ensures DelimClose(lines, j, d) == if close == |lines| then None else Some(close)
    decreases close - j
  {
    if j < close {
      DelimCloseIs(lines, j + 1, d, close);
    }
  }

  /** A delimited value that starts in `v`, the value part of line `i`, and
      the index of the line after the one that closes it; None when no line
      closes it. */
  function Delimited(lines: seq<string>, i: nat, v: string, d: char): (r: Option<(string, nat)>)
    requires i < |lines| && d in v
    ensures r.Some? ==> i < r.value.1 <= |lines|
  {
    var start := Find(v, d, 0);
    var end := Find(v, d, start + 1);
    if end != -1 then Some((v[start + 1..end] + "\n", i + 1))
    else
      match DelimClose(lines, i + 1, d)
      case None => None
      case Some(c) =>
        Some((v[start + 1..] + "\n" + Lines(lines[i + 1..c]) + lines[c][..Find(lines[c], d, 0)], c + 1))
  }

  /** `test.cmds` as computed from `test.cmdScript`. */
  function CmdList(script: string): seq<string> {
    if script == "" then [] else Split(Trim(script), '\n')
  }

  /** The record with a new command script and its command list. */
  function WithScript(test: TestRecord, script: string): TestRecord {
    test.(cmdScript := Some(script), cmds := Some(CmdList(script)))
  }

  // ---------------------------------------------------------------------------
  // One line

  /** What one line does: the line to read next, the record afterwards and
      what it dispatches; or the error it throws. */
  datatype Step = Next(next: nat, test: TestRecord, out: seq<Dispatch>) | Stop(error: ParseError)

  /** The command script a `CMDS` value on line `i` gives and the line to
      read next: a heredoc, a delimited value, or the plain value with a
      newline unless it is empty; None when a heredoc or a delimited value
      is never closed. */
  function CmdsScript(lines: seq<string>, i: nat, v: string): (r: Option<(string, nat)>)
    requires i < |lines|
    ensures r.Some? ==> i < r.value.1 <= |lines|
  {
    var vt := Trim(v);
    if IsHeredoc(vt) then
      match HeredocStop(lines, i + 1, vt[2..])
      case None => None
      case Some(stop) => Some((Lines(lines[i + 1..stop]), stop))
    else if IsDelimited(vt) then
      TrimInside(v, 0);
      Delimited(lines, i, v, vt[0])
    else Some((if v != "" then v + "\n" else v, i + 1))
  }

  /** A `CMDS` value on line `i` sets the script and its command list. */
  function CmdsValue(lines: seq<string>, i: nat, v: string, test: TestRecord): (s: Step)
    requires i < |lines|
    ensures s.Next? ==> i < s.next <= |lines| && s.out == [] && s.test.from == test.from
  {
    match CmdsScript(lines, i, v)
    case None => Stop(PastEndOfInput)
    case Some(p) => Next(p.1, WithScript(test, p.0), [])
  }

  /** An `EXPECT` value on line `i`: a heredoc (remembering its terminator),
      a delimited value (remembering its delimiter), or the plain value with a
      newline; every form marks the expectation as not base64. */
  function ExpectValue(lines: seq<string>, i: nat, v: string, test: TestRecord): (s: Step)
    requires i < |lines|
    ensures s.Next? ==> i < s.next <= |lines| && s.out == [] && s.test.from == test.from
  {
    var vt := Trim(v);
    var t := test.(expect64 := Some(false));
    if IsHeredoc(vt) then
      var term := vt[2..];
      match HeredocStop(lines, i + 1, term)
      case None => Stop(UnexpectedEof(term))
      case Some(stop) => Next(stop, t.(endString := Some(term), expected := Some(Lines(lines[i + 1..stop]))), [])
    else if IsDelimited(vt) then
      TrimInside(v, 0);
      match Delimited(lines, i, v, vt[0])
      case None => Stop(PastEndOfInput)
      case Some(p) => Next(p.1, t.(expectDelim := Some(vt[0]), expected := Some(p.0)), [])
    else Next(i + 1, t.(expected := Some(v + "\n")), [])
  }

  /** The case labels of the `switch (k)`. */
  datatype Key =
    | NameKey | PathKey | ArgsKey | CmdsKey | Cmds64Key | ArchKey | BitsKey | BrokenKey
    | ExpectKey | Expect64Key | ExpectErrKey | ExpectErr64Key | FileKey
    | OtherKey  // no label matches: the `default` case

  /** The label the key `k` matches. */
  function KeyOf(key: string): Key {
    if key == "NAME" then NameKey
    else if key == "PATH" then PathKey
    else if key == "ARGS" then ArgsKey
    else if key == "CMDS" then CmdsKey
    else if key == "CMDS64" then Cmds64Key
    else if key == "ARCH" then ArchKey
    else if key == "BITS" then BitsKey
    else if key == "BROKEN" then BrokenKey
    else if key == "EXPECT" then ExpectKey
    else if key == "EXPECT64" then Expect64Key
    else if key == "EXPECT_ERR" then ExpectErrKey
    else if key == "EXPECT_ERR64" then ExpectErr64Key
    else if key == "FILE" then FileKey
    else OtherKey
  }

  /** The directive `key=v` on line `i`. Directives never dispatch and never
      change `from`; a heredoc value leaves the terminator line to be read
      next, every other value the line after its last one. */
  function Directive(lines: seq<string>, decode: string -> string, i: nat, key: string, v: string, test: TestRecord): (s: Step)
    requires i < |lines|
    ensures s.Next? ==> i < s.next <= |lines| && s.out == [] && s.test.from == test.from
  {
    match KeyOf(key)
    case NameKey => Next(i + 1, test.(name := Some(v)), [])
    case PathKey => Next(i + 1, test.(path := Some(v)), [])
    case ArgsKey => Next(i + 1, test.(args := Some(v)), [])
    case CmdsKey => CmdsValue(lines, i, v, test)
    case Cmds64Key => Next(i + 1, WithScript(test, decode(v)), [])
    case ArchKey => Next(i + 1, test.(arch := Some(v)), [])
    case BitsKey => Next(i + 1, test.(bits := Some(v)), [])
    case BrokenKey => Next(i + 1, test.(broken := true), [])
    case ExpectKey => ExpectValue(lines, i, v, test)
    case Expect64Key => Next(i + 1, test.(expected := Some(decode(v)), expect64 := Some(true)), [])
    case ExpectErrKey =>
      var vt := Trim(v);
      if IsHeredoc(vt) || IsDelimited(vt) then Stop(DelimitedExpectErr)
      else Next(i + 1, test.(expectErr := Some(v + "\n")), [])
    case ExpectErr64Key => Next(i + 1, test.(expected := Some(decode(v))), [])
    case FileKey => Next(i + 1, test.(file := Some(v)), [])
    case OtherKey => Stop(InvalidKey(key))
  }

  /** The dispatches of the tests an assembler line expands into. */
  function AsmDispatches(ts: seq<AsmTest>): (r: seq<Dispatch>)
    ensures |r| == |ts| && forall k :: 0 <= k < |ts| ==> r[k] == Assembler(ts[k])
  {
    seq(|ts|, k requires 0 <= k < |ts| => Assembler(ts[k]))
  }

  /** One more expanded test, one more dispatch. */
  lemma AsmDispatchesSnoc(ts: seq<AsmTest>, k: nat)
    requires k < |ts|
    ensures AsmDispatches(ts[..k + 1]) == AsmDispatches(ts[..k]) + [Assembler(ts[k])]
  {
    var a := AsmDispatches(ts[..k + 1]);
    var b := AsmDispatches(ts[..k]) + [Assembler(ts[k])];
    assert |a| == |b|;
    forall m | 0 <= m < |a| ensures a[m] == b[m] {
      if m < k {
        assert ts[..k + 1][m] == ts[..k][m];
      }
    }
  }

  /** What line `i` of the document `source` does to the record `test`. */
  function StepAt(source: string, lines: seq<string>, decode: string -> string, i: nat, test: TestRecord): (s: Step)
    requires i < |lines|
    ensures s.Next? ==> i < s.next <= |lines|
  {
    var l := lines[i];
    var line := Trim(l);
    if line == "" || line[0] == '#' then Next(i + 1, test, [])
    else if Mentions(source, "asm") then
      match AsmTests(source, line)
      case None => Stop(NoTokens(line))
      case Some(ts) => Next(i + 1, test, AsmDispatches(ts))
    else if line == "RUN" && CallbackFromPath(test.from).Some? then
      Next(i + 1, Fresh(source), [Routed(CallbackFromPath(test.from).value, test)])
    else DirectiveLine(lines, decode, i, test)
  }

  /** Line `i` read as `KEY=VALUE`, split at its first `=`. */
  function DirectiveLine(lines: seq<string>, decode: string -> string, i: nat, test: TestRecord): (s: Step)
    requires i < |lines|
    ensures s.Next? ==> i < s.next <= |lines| && s.out == [] && s.test.from == test.from
  {
    var l := lines[i];
    var eq := Find(l, '=', 0);
    if eq == -1 then Stop(InvalidDatabase(l))
    else Directive(lines, decode, i, l[..eq], l[eq + 1..], test)
  }

  // ---------------------------------------------------------------------------
  // The whole document

  /** The record left at the end is run when it names a file and has a
      command list (an empty list counts). */
  function Leftover(test: TestRecord): seq<Dispatch> {
    if test.file.Some? && test.file.value != "" && test.cmds.Some? then [Trailing(test)] else []
  }

  /** The dispatches pushed from line `i` on, after `acc`, and the error that
      stops the walk, if any: what was pushed before a throw stays pushed. */
  function ParseFrom(source: string, lines: seq<string>, decode: string -> string, i: nat, test: TestRecord, acc: seq<Dispatch>): (r: (seq<Dispatch>, Option<ParseError>))
    requires i <= |lines|
    ensures |acc| <= |r.0| && r.0[..|acc|] == acc
    decreases |lines| - i
  {
    if i == |lines| then (acc + Leftover(test), None)
    else
      match StepAt(source, lines, decode, i, test)
      case Stop(e) => (acc, Some(e))
      case Next(n, t, out) =>
        var r := ParseFrom(source, lines, decode, n, t, acc + out);
        assert (acc + out)[..|acc|] == acc;
        assert r.0[..|acc + out|][..|acc|] == r.0[..|acc|];
        r
  }

  /** `runTests(source, lines)`, with `debase64` as `decode`. */
  function Parse(source: string, lines: seq<string>, decode: string -> string): (seq<Dispatch>, Option<ParseError>) {
    ParseFrom(source, lines, decode, 0, Fresh(source), [])
  }

  // ---------------------------------------------------------------------------
  // The imperative parser

  /** The heredoc loop: from the line after `i`, gather lines up to the first
      that starts with `term`, then step back so that the loop header's
      increment lands on the terminator line. */
  method ReadHeredoc(lines: seq<string>, i: nat, term: string) returns (value: string, cursor: nat, found: bool)
    requires i < |lines|
    ensures found <==> HeredocStop(lines, i + 1, term).Some?
    ensures found ==> cursor + 1 == HeredocStop(lines, i + 1, term).value
    ensures found ==> value == Lines(lines[i + 1..cursor + 1])
  {
    value := "";
    var j := i + 1;
    while j < |lines| && !StartsWith(lines[j], term)
      invariant i + 1 <= j <= |lines|
      invariant value == Lines(lines[i + 1..j])
      invariant forall m :: i + 1 <= m < j ==> !StartsWith(lines[m], term)
      decreases |lines| - j
    {
      LinesSnoc(lines[i + 1..j], lines[j]);
      assert lines[i + 1..j + 1] == lines[i + 1..j] + [lines[j]];
      value := value + lines[j] + "\n";
      j := j + 1;
    }
    HeredocStopIs(lines, i + 1, term, j);
    found := j < |lines|;
    cursor := j - 1;
  }

  /** The delimited-value loop: the text after the opening delimiter, up to
      the closing one on the same line or on the first later line that holds
      it; the cursor is left on the closing line. */
  method ReadDelimited(lines: seq<string>, i: nat, v: string, d: char) returns (value: string, cursor: nat, found: bool)
    requires i < |lines| && d in v
    ensures found <==> Delimited(lines, i, v, d).Some?
    ensures found ==> Delimited(lines, i, v, d) == Some((value, cursor + 1))
  {
    var start := Find(v, d, 0);
    var end := Find(v, d, start + 1);
    if end != -1 {
      value := v[start + 1..end] + "\n";
      cursor := i;
      found := true;
      return;
    }
    var head := v[start + 1..] + "\n";
    value := head;
    var j := i + 1;
    while j < |lines| && Find(lines[j], d, 0) == -1
      invariant i + 1 <= j <= |lines|
      invariant value == head + Lines(lines[i + 1..j])
      invariant forall m :: i + 1 <= m < j ==> Find(lines[m], d, 0) == -1
      decreases |lines| - j
    {
      ghost var done := lines[i + 1..j];
      LinesSnoc(done, lines[j]);
      assert lines[i + 1..j + 1] == done + [lines[j]];
      assert value + lines[j] + "\n" == head + (Lines(done) + lines[j] + "\n");
      value := value + lines[j] + "\n";
      j := j + 1;
    }
    DelimCloseIs(lines, i + 1, d, j);
    if j == |lines| {
      found := false;
      cursor := i;
      return;
    }
    value := value + lines[j][..Find(lines[j], d, 0)];
    cursor := j;
    found := true;
  }

  /** The `CMDS` reading of the `switch`: the script and where the cursor is
      left. */
  method ReadCmdScript(lines: seq<string>, i: nat, v: string) returns (script: string, cursor: nat, found: bool)
    requires i < |lines|
    ensures found <==> CmdsScript(lines, i, v).Some?
    ensures found ==> CmdsScript(lines, i, v) == Some((script, cursor + 1))
  {
    var vt := Trim(v);
    if IsHeredoc(vt) {
      script, cursor, found := ReadHeredoc(lines, i, vt[2..]);
    } else if IsDelimited(vt) {
      TrimInside(v, 0);
      script, cursor, found := ReadDelimited(lines, i, v, vt[0]);
    } else {
      script := if v != "" then v + "\n" else v;
      cursor, found := i, true;
    }
  }

  /** The `CMDS` case of the `switch`. */
  method ApplyCmds(lines: seq<string>, i: nat, v: string, test: TestRecord)
    returns (updated: TestRecord, cursor: nat, error: Option<ParseError>)
    requires i < |lines|
    ensures error.Some? ==> CmdsValue(lines, i, v, test) == Stop(error.value)
    ensures error.None? ==> CmdsValue(lines, i, v, test) == Next(cursor + 1, updated, [])
  {
    var script, found;
    script, cursor, found := ReadCmdScript(lines, i, v);
    if !found {
      return test, cursor, Some(PastEndOfInput);
    }
    updated := test.(cmdScript := Some(script));
    updated := updated.(cmds := Some(CmdList(script)));
    error := None;
  }

  /** The `EXPECT` case of the `switch`. */
  method ApplyExpect(lines: seq<string>, i: nat, v: string, test: TestRecord)
    returns (updated: TestRecord, cursor: nat, error: Option<ParseError>)
    requires i < |lines|
    ensures error.Some? ==> ExpectValue(lines, i, v, test) == Stop(error.value)
    ensures error.None? ==> ExpectValue(lines, i, v, test) == Next(cursor + 1, updated, [])
  {
    var vt := Trim(v);
    updated := test.(expect64 := Some(false));
    cursor := i;
    error := None;
    if IsHeredoc(vt) {
      var term := vt[2..];
      updated := updated.(endString := Some(term));
      var value, found;
      value, cursor, found := ReadHeredoc(lines, i, term);
      if !found {
        return updated, cursor, Some(UnexpectedEof(term));
      }
      updated := updated.(expected := Some(value));
    } else if IsDelimited(vt) {
      updated := updated.(expectDelim := Some(vt[0]));
      TrimInside(v, 0);
      var value, found;
      value, cursor, found := ReadDelimited(lines, i, v, vt[0]);
      if !found {
        return updated, cursor, Some(PastEndOfInput);
      }
      updated := updated.(expected := Some(value));
    } else {
      updated := updated.(expected := Some(v + "\n"));
    }
  }

  /** The `switch (k)` of the loop body for line `i`: the record afterwards
      and where the cursor is left, or the error thrown. */
  method ApplyDirective(lines: seq<string>, decode: string -> string, i: nat, key: string, v: string, test: TestRecord)
    returns (updated: TestRecord, cursor: nat, error: Option<ParseError>)
    requires i < |lines|
    ensures error.Some? ==> Directive(lines, decode, i, key, v, test) == Stop(error.value)
    ensures error.None? ==> Directive(lines, decode, i, key, v, test) == Next(cursor + 1, updated, [])
  {
    updated := test;
    cursor := i;
    error := None;
    match KeyOf(key) {
      case NameKey =>
        updated := updated.(name := Some(v));
      case PathKey =>
        updated := updated.(path := Some(v));
      case ArgsKey =>
        updated := updated.(args := Some(v));
      case CmdsKey =>
        updated, cursor, error := ApplyCmds(lines, i, v, test);
      case Cmds64Key =>
        var script := decode(v);
        updated := updated.(cmdScript := Some(script));
        updated := updated.(cmds := Some(CmdList(script)));
      case ArchKey =>
        updated := updated.(arch := Some(v));
      case BitsKey =>
        updated := updated.(bits := Some(v));
      case BrokenKey =>
        updated := updated.(broken := true);
      case ExpectKey =>
        updated, cursor, error := ApplyExpect(lines, i, v, test);
      case Expect64Key =>
        updated := updated.(expected := Some(decode(v)));
        updated := updated.(expect64 := Some(true));
      case ExpectErrKey =>
        var vt := Trim(v);
        if IsHeredoc(vt) || IsDelimited(vt) {
          return updated, cursor, Some(DelimitedExpectErr);
        }
        updated := updated.(expectErr := Some(v + "\n"));
      case ExpectErr64Key =>
        updated := updated.(expected := Some(decode(v)));
      case FileKey =>
        updated := updated.(file := Some(v));
      case OtherKey =>
        error := Some(InvalidKey(key));
    }
  }

  /** The `for (let t of tests)` loop: one dispatch per expanded test, in
      order. */
  method PushAsm(ts: seq<AsmTest>) returns (out: seq<Dispatch>)
    ensures out == AsmDispatches(ts)
  {
    out := [];
    for k := 0 to |ts|
      invariant out == AsmDispatches(ts[..k])
    {
      AsmDispatchesSnoc(ts, k);
      out := out + [Assembler(ts[k])];
    }
    assert ts[..|ts|] == ts;
  }

  /** The body of the `for` loop for line `i`: where the cursor goes next,
      the record afterwards and the promises pushed, or the error thrown. */
  method ParseLine(source: string, lines: seq<string>, decode: string -> string, i: nat, test: TestRecord)
    returns (next: nat, updated: TestRecord, out: seq<Dispatch>, error: Option<ParseError>)
    requires i < |lines|
    ensures error.Some? ==> StepAt(source, lines, decode, i, test) == Stop(error.value)
    ensures error.None? ==> StepAt(source, lines, decode, i, test) == Next(next, updated, out)
  {
    next, updated, out, error := i + 1, test, [], None;
    var l := lines[i];
    var line := Trim(l);
    if line == "" || line[0] == '#' {
      return;
    }
    if Mentions(source, "asm") {
      var tests := ParseTestAsm(source, line);
      if tests.None? {
        return next, updated, out, Some(NoTokens(line));
      }
      out := PushAsm(tests.value);
      return;
    }
    if line == "RUN" {
      var callback := CallbackFromPath(test.from);
      if callback.Some? {
        return next, Fresh(source), [Routed(callback.value, test)], None;
      }
    }
    updated, next, error := ApplyLine(lines, decode, i, test);
  }

  /** The rest of the loop body: split the line at its first `=` and apply
      the directive. */
  method ApplyLine(lines: seq<string>, decode: string -> string, i: nat, test: TestRecord)
    returns (updated: TestRecord, next: nat, error: Option<ParseError>)
    requires i < |lines|
    ensures error.Some? ==> DirectiveLine(lines, decode, i, test) == Stop(error.value)
    ensures error.None? ==> DirectiveLine(lines, decode, i, test) == Next(next, updated, [])
  {
    var l := lines[i];
    var eq := Find(l, '=', 0);
    if eq == -1 {
      return test, i + 1, Some(InvalidDatabase(l));
    }
    var cursor;
    updated, cursor, error := ApplyDirective(lines, decode, i, l[..eq], l[eq + 1..], test);
    next := cursor + 1;
  }

  /** `runTests(source, lines)`: its `for` loop over the lines, written as
      a `while` loop on the cursor `i` that the body also moves, pushing a
      dispatch wherever `runTests` pushes a promise. */
  method RunTests(source: string, lines: seq<string>, decode: string -> string)
    returns (dispatched: seq<Dispatch>, error: Option<ParseError>)
    ensures (dispatched, error) == Parse(source, lines, decode)
  {
    var test := Fresh(source);
    dispatched := [];
    var i := 0;
    while i < |lines|
      invariant 0 <= i <= |lines|
      invariant ParseFrom(source, lines, decode, i, test, dispatched) == Parse(source, lines, decode)
      decreases |lines| - i
    {
      var next, updated, out, e := ParseLine(source, lines, decode, i, test);
      if e.Some? {
        return dispatched, e;
      }
      dispatched := dispatched + out;
      test := updated;
      i := next;
    }
    assert ParseFrom(source, lines, decode, i, test, dispatched) == (dispatched + Leftover(test), None);
    ghost var result := dispatched + Leftover(test);
    if test.file.Some? && test.file.value != "" && test.cmds.Some? {
      dispatched := dispatched + [Trailing(test)];
    } else {
      assert Leftover(test) == [];
    }
    assert dispatched == result;
    error := None;
    assert Parse(source, lines, decode) == (result, None);
  }
}
