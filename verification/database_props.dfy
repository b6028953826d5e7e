/**
 * What `runTests` does with each kind of line, stated without the helper
 * functions of the parser: blank and comment lines, `RUN`, heredoc,
 * delimited and plain values, unknown keys; and what a whole document
 * dispatches.
 */
module DatabaseFacts {
  import opened Common
  import opened Strings
  import opened Routing
  import opened AsmLines
  import opened Database

  /** A key the parser can read back from `key=value`: not empty, no white
      space and no `=`, not starting a comment. */
  predicate IsKeyWord(key: string) {
    key != "" && key[0] != '#' && forall k :: 0 <= k < |key| ==> !IsSpace(key[k]) && key[k] != '='
  }

  /** Text without white space. */
  predicate NoSpace(s: string) {
    forall k :: 0 <= k < |s| ==> !IsSpace(s[k])
  }

  /** The characters of the keys of the `switch`. */
  predicate IsWordChar(c: char) {
    ('A' <= c <= 'Z') || ('0' <= c <= '9') || c == '_'
  }

  /** Such a character is neither white space, `=` nor `#`. */
  lemma WordChar(c: char)
    requires IsWordChar(c)
    ensures !IsSpace(c) && c != '=' && c != '#'
  {
  }

  /** The labels of `NAME` and `FILE`. */
  lemma FieldLabels()
    ensures KeyOf("NAME") == NameKey && KeyOf("FILE") == FileKey
  {
  }

  /** The labels of `CMDS` and `EXPECT`. */
  lemma ValueLabels()
    ensures KeyOf("CMDS") == CmdsKey && KeyOf("EXPECT") == ExpectKey
  {
  }

  /** The labels of `EXPECT64` and `EXPECT_ERR`. */
  lemma OutputLabels()
    ensures KeyOf("EXPECT64") == Expect64Key && KeyOf("EXPECT_ERR") == ExpectErrKey
  {
  }

  /** Every key with a label of the `switch` is a word. */
  lemma LabelledKeyWord(key: string)
    requires KeyOf(key) != OtherKey
    ensures IsKeyWord(key)
  {
    forall k | 0 <= k < |key| ensures !IsSpace(key[k]) && key[k] != '=' {
      assert IsWordChar(key[k]);
      WordChar(key[k]);
    }
    WordChar(key[0]);
  }

  // ---------------------------------------------------------------------------
  // Lines that are not directives

  /** Blank lines and comments are skipped and change nothing. */
  lemma SkippedLine(source: string, lines: seq<string>, decode: string -> string, i: nat, test: TestRecord)
    requires i < |lines|
    requires Trim(lines[i]) == "" || Trim(lines[i])[0] == '#'
    ensures StepAt(source, lines, decode, i, test) == Next(i + 1, test, [])
  {
  }

  /** A `RUN` line (white space around it allowed) dispatches the record to
      the runner its path routes to and starts a fresh one; when the path
      routes nowhere, the line has no `=` and the parser throws. */
  lemma RunLine(source: string, lines: seq<string>, decode: string -> string, i: nat, test: TestRecord)
    requires i < |lines| && Trim(lines[i]) == "RUN" && !Mentions(source, "asm")
    ensures CallbackFromPath(test.from).Some? ==>
              StepAt(source, lines, decode, i, test) == Next(i + 1, Fresh(source), [Routed(CallbackFromPath(test.from).value, test)])
    ensures CallbackFromPath(test.from).None? ==>
              StepAt(source, lines, decode, i, test) == Stop(InvalidDatabase(lines[i]))
  {
    var l := lines[i];
    TrimSlice(l);
    var a := |l| - |TrimLeft(l)|;
    forall k | 0 <= k < |l| ensures l[k] != '=' {
      if a <= k < a + 3 {
        assert l[k] == "RUN"[k - a];
      }
    }
  }

  /** `RunLine` for a record routed to `h`. */
  lemma RunRouted(source: string, lines: seq<string>, decode: string -> string, i: nat, test: TestRecord, h: Handler)
    requires i < |lines| && Trim(lines[i]) == "RUN" && !Mentions(source, "asm")
    requires CallbackFromPath(test.from) == Some(h)
    ensures StepAt(source, lines, decode, i, test) == Next(i + 1, Fresh(source), [Routed(h, test)])
  {
    RunLine(source, lines, decode, i, test);
  }

  /** Any other line without `=` throws "Invalid database". */
  lemma StrayLine(source: string, lines: seq<string>, decode: string -> string, i: nat, test: TestRecord)
    requires i < |lines| && !Mentions(source, "asm") && '=' !in lines[i]
    requires Trim(lines[i]) != "" && Trim(lines[i])[0] != '#' && Trim(lines[i]) != "RUN"
    ensures StepAt(source, lines, decode, i, test) == Stop(InvalidDatabase(lines[i]))
  {
  }

  /** A line `key=v` whose key is a word is a directive: the key is what
      comes before its first `=`, the value everything after it. */
  lemma StepDirective(source: string, lines: seq<string>, decode: string -> string, i: nat, test: TestRecord, key: string, v: string)
    requires i < |lines| && lines[i] == key + "=" + v
    requires IsKeyWord(key) && !Mentions(source, "asm")
    ensures StepAt(source, lines, decode, i, test) == Directive(lines, decode, i, key, v, test)
  {
    var l := lines[i];
    assert l[0] == key[0];
    TrimFirst(l);
    assert l[|key|] == '=';
    TrimKeeps(l, |key|);
    var a := |l| - |TrimLeft(l)|;
    assert Trim(l)[|key| - a] == '=';
    assert Trim(l) != "RUN";
    assert StepAt(source, lines, decode, i, test) == DirectiveLine(lines, decode, i, test);
    SplitAtKey(lines, decode, i, test, key, v);
  }

  /** The first `=` of `key=v` is the one after the key. */
  lemma SplitAtKey(lines: seq<string>, decode: string -> string, i: nat, test: TestRecord, key: string, v: string)
    requires i < |lines| && lines[i] == key + "=" + v && IsKeyWord(key)
    ensures DirectiveLine(lines, decode, i, test) == Directive(lines, decode, i, key, v, test)
  {
    var l := lines[i];
    forall k | 0 <= k < |key| ensures l[k] != '=' {
      assert l[k] == key[k];
    }
    assert l[|key|] == '=';
    FindAt(l, '=', 0, |key|);
    assert l[..|key|] == key && l[|key| + 1..] == v;
  }

  /** Any key outside the `switch` throws. */
  lemma UnknownKey(source: string, lines: seq<string>, decode: string -> string, i: nat, test: TestRecord, key: string, v: string)
    requires i < |lines| && lines[i] == key + "=" + v
    requires IsKeyWord(key) && KeyOf(key) == OtherKey && !Mentions(source, "asm")
    ensures StepAt(source, lines, decode, i, test) == Stop(InvalidKey(key))
  {
    StepDirective(source, lines, decode, i, test, key, v);
    UnknownDirective(lines, decode, i, key, v, test);
  }

  /** The `default` case of the `switch`. */
  lemma UnknownDirective(lines: seq<string>, decode: string -> string, i: nat, key: string, v: string, test: TestRecord)
    requires i < |lines| && KeyOf(key) == OtherKey
    ensures Directive(lines, decode, i, key, v, test) == Stop(InvalidKey(key))
  {
  }

  // ---------------------------------------------------------------------------
  // Values

  /** The first line after `i` that starts with `term` is `stop`. */
  lemma HeredocStopAt(lines: seq<string>, i: nat, term: string, stop: nat)
    requires i < stop < |lines| && StartsWith(lines[stop], term)
    requires forall m :: i < m < stop ==> !StartsWith(lines[m], term)
    ensures HeredocStop(lines, i + 1, term) == Some(stop)
  {
    HeredocStopIs(lines, i + 1, term, stop);
  }

  /** `CMDS=<<term`: the script is every following line with a newline, up
      to the first line that starts with `term`, and that line is the next
      one read. */
  lemma CmdsHeredoc(source: string, lines: seq<string>, decode: string -> string, i: nat, test: TestRecord,
                    key: string, v: string, term: string, stop: nat)
    requires KeyOf(key) == CmdsKey
    requires i < stop < |lines| && lines[i] == key + "=" + v && !Mentions(source, "asm")
    requires IsHeredoc(Trim(v)) && term == Trim(v)[2..]
    requires StartsWith(lines[stop], term)
    requires forall m :: i < m < stop ==> !StartsWith(lines[m], term)
    ensures StepAt(source, lines, decode, i, test) == Next(stop, WithScript(test, Lines(lines[i + 1..stop])), [])
  {
    StepKnownKey(source, lines, decode, i, test, key, v);
    HeredocStopAt(lines, i, term, stop);
  }

  /** `EXPECT=<<term`: the expected output is every following line with a
      newline, up to the first line that starts with `term`, and that line is
      the next one read; the terminator is remembered. */
  lemma ExpectHeredoc(source: string, lines: seq<string>, decode: string -> string, i: nat, test: TestRecord,
                      key: string, v: string, term: string, stop: nat)
    requires KeyOf(key) == ExpectKey
    requires i < stop < |lines| && lines[i] == key + "=" + v && !Mentions(source, "asm")
    requires IsHeredoc(Trim(v)) && term == Trim(v)[2..]
    requires StartsWith(lines[stop], term)
    requires forall m :: i < m < stop ==> !StartsWith(lines[m], term)
    ensures StepAt(source, lines, decode, i, test) ==
            Next(stop, test.(expect64 := Some(false), endString := Some(term), expected := Some(Lines(lines[i + 1..stop]))), [])
  {
    StepKnownKey(source, lines, decode, i, test, key, v);
    HeredocStopAt(lines, i, term, stop);
  }

  /** With no line starting with the terminator, a `CMDS` heredoc reads past
      the end of the lines and an `EXPECT` heredoc throws "Unexpected EOF". */
  lemma HeredocUnterminated(source: string, lines: seq<string>, decode: string -> string, i: nat, test: TestRecord,
                            key: string, v: string, term: string)
    requires KeyOf(key) == CmdsKey || KeyOf(key) == ExpectKey
    requires i < |lines| && lines[i] == key + "=" + v && !Mentions(source, "asm")
    requires IsHeredoc(Trim(v)) && term == Trim(v)[2..]
    requires forall m :: i < m < |lines| ==> !StartsWith(lines[m], term)
    ensures StepAt(source, lines, decode, i, test) == Stop(if KeyOf(key) == CmdsKey then PastEndOfInput else UnexpectedEof(term))
  {
    StepKnownKey(source, lines, decode, i, test, key, v);
    HeredocStopIs(lines, i + 1, term, |lines|);
    DirectiveValue(lines, decode, i, key, v, test);
  }

  /** `<<term`, with any white space around it, trims to `<<term` and
      takes the heredoc branch with `term` as the terminator, when `term`
      does not end in white space. */
  lemma HeredocTrim(ws: string, term: string, ws2: string)
    requires forall k :: 0 <= k < |ws| ==> IsSpace(ws[k])
    requires forall k :: 0 <= k < |ws2| ==> IsSpace(ws2[k])
    requires term == [] || !IsSpace(term[|term| - 1])
    ensures var vt := Trim(ws + "<<" + term + ws2);
            vt == "<<" + term && IsHeredoc(vt) && vt[2..] == term
  {
    var x := "<<" + term;
    assert !IsSpace(x[|x| - 1]);
    assert ws + "<<" + term + ws2 == ws + x + ws2;
    PaddedTrim(ws, x, ws2);
    assert x[..2] == "<<";
  }


  /** A plain value (neither a heredoc nor delimited): `CMDS` gets a newline
      unless it is empty, `EXPECT` and `EXPECT_ERR` always get one. */
  lemma PlainValue(source: string, lines: seq<string>, decode: string -> string, i: nat, test: TestRecord, key: string, v: string)
    requires KeyOf(key) == CmdsKey || KeyOf(key) == ExpectKey || KeyOf(key) == ExpectErrKey
    requires i < |lines| && lines[i] == key + "=" + v && !Mentions(source, "asm")
    requires !IsHeredoc(Trim(v)) && !IsDelimited(Trim(v))
    ensures KeyOf(key) == CmdsKey ==>
              StepAt(source, lines, decode, i, test) == Next(i + 1, WithScript(test, if v == "" then "" else v + "\n"), [])
    ensures KeyOf(key) == ExpectKey ==>
              StepAt(source, lines, decode, i, test) == Next(i + 1, test.(expect64 := Some(false), expected := Some(v + "\n")), [])
    ensures KeyOf(key) == ExpectErrKey ==>
              StepAt(source, lines, decode, i, test) == Next(i + 1, test.(expectErr := Some(v + "\n")), [])
  {
    StepKnownKey(source, lines, decode, i, test, key, v);
    if KeyOf(key) == CmdsKey {
      PlainCmds(lines, decode, i, key, v, test);
    }
  }

  /** `PlainValue` for `CMDS`. */
  lemma {:induction false} PlainCmds(lines: seq<string>, decode: string -> string, i: nat, key: string, v: string, test: TestRecord)
    requires i < |lines| && KeyOf(key) == CmdsKey && !IsHeredoc(Trim(v)) && !IsDelimited(Trim(v))
    ensures Directive(lines, decode, i, key, v, test) == Next(i + 1, WithScript(test, if v == "" then "" else v + "\n"), [])
  {
    var script := if v == "" then "" else v + "\n";
    assert CmdsScript(lines, i, v) == Some((script, i + 1));
    assert CmdsValue(lines, i, v, test) == Next(i + 1, WithScript(test, script), []);
  }

  /** The keys that only store their value. */
  lemma FieldValue(source: string, lines: seq<string>, decode: string -> string, i: nat, test: TestRecord, key: string, v: string)
    requires KeyOf(key) in {NameKey, PathKey, ArgsKey, ArchKey, BitsKey, FileKey}
    requires i < |lines| && lines[i] == key + "=" + v && !Mentions(source, "asm")
    ensures KeyOf(key) == NameKey ==> StepAt(source, lines, decode, i, test) == Next(i + 1, test.(name := Some(v)), [])
    ensures KeyOf(key) == PathKey ==> StepAt(source, lines, decode, i, test) == Next(i + 1, test.(path := Some(v)), [])
    ensures KeyOf(key) == ArgsKey ==> StepAt(source, lines, decode, i, test) == Next(i + 1, test.(args := Some(v)), [])
    ensures KeyOf(key) == ArchKey ==> StepAt(source, lines, decode, i, test) == Next(i + 1, test.(arch := Some(v)), [])
    ensures KeyOf(key) == BitsKey ==> StepAt(source, lines, decode, i, test) == Next(i + 1, test.(bits := Some(v)), [])
    ensures KeyOf(key) == FileKey ==> StepAt(source, lines, decode, i, test) == Next(i + 1, test.(file := Some(v)), [])
  {
    StepKnownKey(source, lines, decode, i, test, key, v);
  }

  /** `EXPECT_ERR` given as a heredoc or between delimiters throws. */
  lemma ExpectErrRejected(source: string, lines: seq<string>, decode: string -> string, i: nat, test: TestRecord, key: string, v: string)
    requires KeyOf(key) == ExpectErrKey
    requires i < |lines| && lines[i] == key + "=" + v && !Mentions(source, "asm")
    requires IsHeredoc(Trim(v)) || IsDelimited(Trim(v))
    ensures StepAt(source, lines, decode, i, test) == Stop(DelimitedExpectErr)
  {
    StepKnownKey(source, lines, decode, i, test, key, v);
  }

  /** `StepDirective` for the literal keys of the `switch`. */
  lemma StepKnownKey(source: string, lines: seq<string>, decode: string -> string, i: nat, test: TestRecord, key: string, v: string)
    requires KeyOf(key) != OtherKey
    requires i < |lines| && lines[i] == key + "=" + v && !Mentions(source, "asm")
    ensures StepAt(source, lines, decode, i, test) == Directive(lines, decode, i, key, v, test)
  {
    LabelledKeyWord(key);
    StepDirective(source, lines, decode, i, test, key, v);
  }

  /** `CMDS` and `EXPECT` directives are read by `CmdsValue` and
      `ExpectValue`. */
  lemma DirectiveValue(lines: seq<string>, decode: string -> string, i: nat, key: string, v: string, test: TestRecord)
    requires i < |lines| && (KeyOf(key) == CmdsKey || KeyOf(key) == ExpectKey)
    ensures KeyOf(key) == CmdsKey ==> Directive(lines, decode, i, key, v, test) == CmdsValue(lines, i, v, test)
    ensures KeyOf(key) == ExpectKey ==> Directive(lines, decode, i, key, v, test) == ExpectValue(lines, i, v, test)
  {
  }

  /** A value that starts with a delimiter `d` takes the delimited branch,
      not the heredoc one. */
  lemma DelimitedBranch(v: string, d: char)
    requires v != [] && v[0] == d && IsDelim(d)
    ensures IsDelimited(Trim(v)) && !IsHeredoc(Trim(v)) && Trim(v)[0] == d
    ensures Find(v, d, 0) == 0
  {
    TrimFirst(v);
    var t := Trim(v);
    assert !StartsWith(t, "<<") by {
      if |t| >= 2 {
        assert t[..2][0] == d != '<';
      }
    }
  }

  /** Where the two delimiters of `[d] + body + [d] + rest` are. */
  lemma {:induction false} ClosedOnLine(v: string, d: char, body: string, rest: string)
    requires v == [d] + body + [d] + rest && d !in body
    ensures Find(v, d, 1) == 1 + |body| && v[1..1 + |body|] == body
  {
    forall k | 0 <= k < |body| ensures v[1 + k] == body[k] {}
    FindAt(v, d, 1, 1 + |body|);
  }

  /** A value closed on its own line is the text between the two delimiters,
      with a newline. */
  lemma DelimitedSameLine(lines: seq<string>, i: nat, v: string, d: char, body: string, rest: string)
    requires i < |lines| && v == [d] + body + [d] + rest && IsDelim(d) && d !in body
    ensures IsDelimited(Trim(v)) && !IsHeredoc(Trim(v)) && Trim(v)[0] == d
    ensures Delimited(lines, i, v, d) == Some((body + "\n", i + 1))
  {
    ClosedOnLine(v, d, body, rest);
    DelimitedBranch(v, d);
    assert Delimited(lines, i, v, d) == Some((v[1..1 + |body|] + "\n", i + 1));
  }

  /** The first line after `i` that holds `d` is `c`. */
  lemma DelimCloseAt(lines: seq<string>, i: nat, d: char, c: nat)
    requires i < c < |lines| && d in lines[c]
    requires forall m :: i < m < c ==> d !in lines[m]
    ensures DelimClose(lines, i + 1, d) == Some(c)
  {
    forall m | i < m < c ensures Find(lines[m], d, 0) == -1 {}
    DelimCloseIs(lines, i + 1, d, c);
  }

  /** Where the delimiter of `last + [d] + rest` is. */
  lemma ClosedAt(l: string, d: char, last: string, rest: string)
    requires l == last + [d] + rest && d !in last
    ensures Find(l, d, 0) == |last| && l[..|last|] == last
  {
    FindAt(l, d, 0, |last|);
  }

  /** A value that runs on to later lines: the rest of the opening line, every
      line in between, and the closing line up to its delimiter, with newlines
      after all but the last; the line after the closing one is read next. */
  lemma DelimitedManyLines(lines: seq<string>, i: nat, v: string, d: char, first: string,
                           c: nat, last: string, rest: string)
    requires i < c < |lines| && v == [d] + first && IsDelim(d) && d !in first
    requires lines[c] == last + [d] + rest && d !in last
    requires forall m :: i < m < c ==> d !in lines[m]
    ensures IsDelimited(Trim(v)) && !IsHeredoc(Trim(v)) && Trim(v)[0] == d
    ensures Delimited(lines, i, v, d) == Some((first + "\n" + Lines(lines[i + 1..c]) + last, c + 1))
  {
    DelimitedBranch(v, d);
    assert v[1..] == first;
    assert Find(v, d, 1) == -1;
    ClosedAt(lines[c], d, last, rest);
    DelimCloseAt(lines, i, d, c);
  }

  /** A value that starts with a delimiter and is closed: `CMDS` takes the
      text as its script, `EXPECT` as its expected output, remembering the
      delimiter. */
  lemma DelimitedStep(lines: seq<string>, i: nat, v: string, d: char, test: TestRecord, value: string, next: nat)
    requires i < |lines| && v != [] && v[0] == d && IsDelim(d)
    requires Delimited(lines, i, v, d) == Some((value, next))
    ensures CmdsValue(lines, i, v, test) == Next(next, WithScript(test, value), [])
    ensures ExpectValue(lines, i, v, test) ==
            Next(next, test.(expect64 := Some(false), expectDelim := Some(d), expected := Some(value)), [])
  {
    DelimitedBranch(v, d);
  }

  /** A `CMDS` or `EXPECT` value between delimiters, closed on its own line:
      the text between them with a newline; `EXPECT` also remembers the
      delimiter. */
  lemma DelimitedValue(source: string, lines: seq<string>, decode: string -> string, i: nat, test: TestRecord,
                       key: string, d: char, body: string, rest: string)
    requires KeyOf(key) == CmdsKey || KeyOf(key) == ExpectKey
    requires i < |lines| && lines[i] == key + "=" + ([d] + body + [d] + rest) && !Mentions(source, "asm")
    requires IsDelim(d) && d !in body
    ensures KeyOf(key) == CmdsKey ==>
              StepAt(source, lines, decode, i, test) == Next(i + 1, WithScript(test, body + "\n"), [])
    ensures KeyOf(key) == ExpectKey ==>
              StepAt(source, lines, decode, i, test) ==
              Next(i + 1, test.(expect64 := Some(false), expectDelim := Some(d), expected := Some(body + "\n")), [])
  {
    var v := [d] + body + [d] + rest;
    StepKnownKey(source, lines, decode, i, test, key, v);
    DelimitedSameLine(lines, i, v, d, body, rest);
    DelimitedStep(lines, i, v, d, test, body + "\n", i + 1);
    DirectiveValue(lines, decode, i, key, v, test);
  }

  /** The same for a value that runs on to line `c`. */
  lemma DelimitedBlock(source: string, lines: seq<string>, decode: string -> string, i: nat, test: TestRecord,
                       key: string, d: char, first: string, c: nat, last: string, rest: string)
    requires KeyOf(key) == CmdsKey || KeyOf(key) == ExpectKey
    requires i < c < |lines| && lines[i] == key + "=" + ([d] + first) && !Mentions(source, "asm")
    requires IsDelim(d) && d !in first
    requires lines[c] == last + [d] + rest && d !in last
    requires forall m :: i < m < c ==> d !in lines[m]
    ensures KeyOf(key) == CmdsKey ==>
              StepAt(source, lines, decode, i, test) ==
              Next(c + 1, WithScript(test, first + "\n" + Lines(lines[i + 1..c]) + last), [])
    ensures KeyOf(key) == ExpectKey ==>
              StepAt(source, lines, decode, i, test) ==
              Next(c + 1, test.(expect64 := Some(false), expectDelim := Some(d),
                                expected := Some(first + "\n" + Lines(lines[i + 1..c]) + last)), [])
  {
    var v := [d] + first;
    StepKnownKey(source, lines, decode, i, test, key, v);
    DirectiveValue(lines, decode, i, key, v, test);
    BlockValue(lines, i, test, d, first, c, last, rest);
  }

  /** `DelimitedManyLines` read by `CmdsValue` and `ExpectValue`. */
  lemma BlockValue(lines: seq<string>, i: nat, test: TestRecord, d: char, first: string, c: nat, last: string, rest: string)
    requires i < c < |lines| && IsDelim(d) && d !in first
    requires lines[c] == last + [d] + rest && d !in last
    requires forall m :: i < m < c ==> d !in lines[m]
    ensures var value := first + "\n" + Lines(lines[i + 1..c]) + last;
            CmdsValue(lines, i, [d] + first, test) == Next(c + 1, WithScript(test, value), []) &&
            ExpectValue(lines, i, [d] + first, test) ==
            Next(c + 1, test.(expect64 := Some(false), expectDelim := Some(d), expected := Some(value)), [])
  {
    var value := first + "\n" + Lines(lines[i + 1..c]) + last;
    DelimitedManyLines(lines, i, [d] + first, d, first, c, last, rest);
    DelimitedStep(lines, i, [d] + first, d, test, value, c + 1);
  }

  /** A delimited value that no later line closes reads past the end of the
      lines. */
  lemma DelimitedUnclosed(source: string, lines: seq<string>, decode: string -> string, i: nat, test: TestRecord,
                          key: string, d: char, first: string)
    requires KeyOf(key) == CmdsKey || KeyOf(key) == ExpectKey
    requires i < |lines| && lines[i] == key + "=" + ([d] + first) && !Mentions(source, "asm")
    requires IsDelim(d) && d !in first
    requires forall m :: i < m < |lines| ==> d !in lines[m]
    ensures StepAt(source, lines, decode, i, test) == Stop(PastEndOfInput)
  {
    var v := [d] + first;
    StepKnownKey(source, lines, decode, i, test, key, v);
    DelimitedBranch(v, d);
    assert v[1..] == first;
    assert Find(v, d, 1) == -1;
    forall m | i < m < |lines| ensures Find(lines[m], d, 0) == -1 {}
    DelimCloseIs(lines, i + 1, d, |lines|);
    DirectiveValue(lines, decode, i, key, v, test);
  }

  /** The command list is the trimmed script cut at its newlines: empty
      exactly when the script is, and joining it back with newlines gives the
      trimmed script. */
  lemma CommandList(script: string)
    ensures |CmdList(script)| == 0 <==> script == ""
    ensures forall k :: 0 <= k < |CmdList(script)| ==> '\n' !in CmdList(script)[k]
    ensures script != "" ==> Join(CmdList(script), "\n") == Trim(script)
  {
    if script != "" {
      JoinSplit(Trim(script), '\n');
      SplitFree(Trim(script), '\n');
    }
  }
}
