/**
 * What a whole run of `runTests` can dispatch: records routed by the
 * document's own path, assembler tests exactly in assembler documents, and
 * the leftover record only last and only when nothing was thrown; and what
 * a small document of directives ending in `RUN` dispatches.
 */
module ParseShape {
  import opened Common
  import opened Strings
  import opened Routing
  import opened AsmLines
  import opened Database
  import opened DatabaseFacts

  /** Every dispatch fits the document `source`: routed records come from
      it and go to the runner its path routes to, assembler tests appear
      exactly in assembler documents, the leftover record comes from it. */
  predicate Fits(source: string, ds: seq<Dispatch>) {
    forall k :: 0 <= k < |ds| ==>
      (ds[k].Routed? ==> ds[k].test.from == source && CallbackFromPath(source) == Some(ds[k].handler)) &&
      (ds[k].Assembler? <==> Mentions(source, "asm")) &&
      (ds[k].Trailing? ==> ds[k].test.from == source)
  }

  /** No leftover record among `ds`. */
  predicate NoTrailing(ds: seq<Dispatch>) {
    forall k :: 0 <= k < |ds| ==> !ds[k].Trailing?
  }

  /** What the walk keeps: the record comes from the document, and in an
      assembler document it is never filled in. */
  predicate Tracks(source: string, test: TestRecord) {
    test.from == source && (Mentions(source, "asm") ==> test == Fresh(source))
  }

  /** One line keeps the record tracked and pushes only fitting dispatches,
      none of them the leftover record. */
  lemma StepFits(source: string, lines: seq<string>, decode: string -> string, i: nat, test: TestRecord)
    requires i < |lines| && Tracks(source, test)
    ensures var s := StepAt(source, lines, decode, i, test);
            s.Next? ==> Tracks(source, s.test) && Fits(source, s.out) && NoTrailing(s.out)
  {
    var s := StepAt(source, lines, decode, i, test);
    var line := Trim(lines[i]);
    if line == "" || line[0] == '#' {
      assert s == Next(i + 1, test, []);
    } else if Mentions(source, "asm") {
      if s.Next? {
        assert s.test == test && s.out == AsmDispatches(AsmTests(source, line).value);
      }
    } else if line == "RUN" && CallbackFromPath(test.from).Some? {
      assert s == Next(i + 1, Fresh(source), [Routed(CallbackFromPath(test.from).value, test)]);
    } else {
      assert s == DirectiveLine(lines, decode, i, test);
    }
  }

  /** Concatenation keeps both predicates. */
  lemma FitsConcat(source: string, a: seq<Dispatch>, b: seq<Dispatch>)
    requires Fits(source, a) && Fits(source, b) && NoTrailing(a) && NoTrailing(b)
    ensures Fits(source, a + b) && NoTrailing(a + b)
  {
    forall k | 0 <= k < |a + b| ensures (a + b)[k] == if k < |a| then a[k] else b[k - |a|] {}
  }

  /** The walk from line `i` on. */
  lemma {:induction false} ParseFromFits(source: string, lines: seq<string>, decode: string -> string, i: nat,
                                         test: TestRecord, acc: seq<Dispatch>)
    requires i <= |lines| && Tracks(source, test) && Fits(source, acc) && NoTrailing(acc)
    ensures var r := ParseFrom(source, lines, decode, i, test, acc);
            Fits(source, r.0) &&
            (forall k :: 0 <= k < |r.0| && r.0[k].Trailing? ==> k == |r.0| - 1 && r.1.None?)
    decreases |lines| - i
  {
    if i == |lines| {
      var r := acc + Leftover(test);
      assert r[..|acc|] == acc;
      forall k | 0 <= k < |r| ensures (r[k].Trailing? ==> k == |r| - 1) {
        if k < |acc| {
          assert r[k] == acc[k];
        }
      }
    } else {
      StepFits(source, lines, decode, i, test);
      match StepAt(source, lines, decode, i, test)
      case Stop(_) =>
      case Next(n, t, out) =>
        FitsConcat(source, acc, out);
        ParseFromFits(source, lines, decode, n, t, acc + out);
    }
  }

  /** `runTests` as a whole: routed records all come from the document and
      go to the runner its path routes to; assembler tests are dispatched
      exactly in assembler documents, and nothing else is; the leftover
      record is dispatched at most once, last, and only when nothing was
      thrown. */
  lemma ParseFits(source: string, lines: seq<string>, decode: string -> string)
    ensures var (ds, err) := Parse(source, lines, decode);
            (forall k :: 0 <= k < |ds| && ds[k].Routed? ==>
               ds[k].test.from == source && CallbackFromPath(source) == Some(ds[k].handler)) &&
            (Mentions(source, "asm") ==> forall k :: 0 <= k < |ds| ==> ds[k].Assembler?) &&
            (!Mentions(source, "asm") ==> forall k :: 0 <= k < |ds| ==> !ds[k].Assembler?) &&
            (forall k :: 0 <= k < |ds| && ds[k].Trailing? ==> k == |ds| - 1 && err.None? && ds[k].test.from == source)
  {
    ParseFromFits(source, lines, decode, 0, Fresh(source), []);
  }

  /** A line that steps on continues the walk from where it leads. */
  lemma ParseNext(source: string, lines: seq<string>, decode: string -> string, i: nat, test: TestRecord,
                  acc: seq<Dispatch>, n: nat, t: TestRecord, out: seq<Dispatch>, acc': seq<Dispatch>)
    requires i < |lines| && StepAt(source, lines, decode, i, test) == Next(n, t, out) && acc' == acc + out
    ensures ParseFrom(source, lines, decode, i, test, acc) == ParseFrom(source, lines, decode, n, t, acc')
  {
  }

  /** A line that throws ends the walk with what was pushed before it. */
  lemma ParseStop(source: string, lines: seq<string>, decode: string -> string, i: nat, test: TestRecord,
                  acc: seq<Dispatch>, e: ParseError)
    requires i < |lines| && StepAt(source, lines, decode, i, test) == Stop(e)
    ensures ParseFrom(source, lines, decode, i, test, acc) == (acc, Some(e))
  {
  }

  /** The terminator line of a heredoc is read again as an ordinary line: a
      terminator such as `EOF`, with no `=` and not `RUN`, makes the walk
      throw "Invalid database" right after the value is read. */
  lemma TerminatorRescanned(source: string, lines: seq<string>, decode: string -> string, i: nat, test: TestRecord,
                            acc: seq<Dispatch>, key: string, v: string, term: string, stop: nat)
    requires KeyOf(key) == CmdsKey || KeyOf(key) == ExpectKey
    requires i < stop < |lines| && lines[i] == key + "=" + v && !Mentions(source, "asm")
    requires IsHeredoc(Trim(v)) && term == Trim(v)[2..]
    requires lines[stop] == term && '=' !in term
    requires Trim(term) != "" && Trim(term)[0] != '#' && Trim(term) != "RUN"
    requires forall m :: i < m < stop ==> !StartsWith(lines[m], term)
    ensures ParseFrom(source, lines, decode, i, test, acc) == (acc, Some(InvalidDatabase(term)))
  {
    assert StartsWith(lines[stop], term) by {
      assert term[..|term|] == term;
    }
    var t := if KeyOf(key) == CmdsKey then WithScript(test, Lines(lines[i + 1..stop]))
             else test.(expect64 := Some(false), endString := Some(term), expected := Some(Lines(lines[i + 1..stop])));
    if KeyOf(key) == CmdsKey {
      CmdsHeredoc(source, lines, decode, i, test, key, v, term, stop);
    } else {
      ExpectHeredoc(source, lines, decode, i, test, key, v, term, stop);
    }
    var none: seq<Dispatch> := [];
    assert acc + none == acc;
    ParseNext(source, lines, decode, i, test, acc, stop, t, none, acc);
    StrayLine(source, lines, decode, stop, t);
    ParseStop(source, lines, decode, stop, t, acc, InvalidDatabase(term));
  }

  /** At the end of the lines the walk adds the leftover record, if any. */
  lemma ParseEnd(source: string, lines: seq<string>, decode: string -> string, test: TestRecord, acc: seq<Dispatch>)
    ensures ParseFrom(source, lines, decode, |lines|, test, acc) == (acc + Leftover(test), None)
  {
  }

  /** The record a document `NAME`, `FILE`, `CMDS`, `EXPECT` with plain
      values builds. */
  function Record(source: string, name: string, file: string, cmds: string, expected: string): TestRecord {
    WithScript(Fresh(source).(name := Some(name), file := Some(file)), if cmds == "" then "" else cmds + "\n")
      .(expect64 := Some(false), expected := Some(expected + "\n"))
  }

  /** A document of four plain directives and `RUN` dispatches exactly that
      record, to the runner the path routes to; the fresh record `RUN` leaves
      behind names no file and is not run. */
  lemma OneRecord(source: string, lines: seq<string>, decode: string -> string, h: Handler,
                  name: string, file: string, cmds: string, expected: string)
    requires !Mentions(source, "asm") && CallbackFromPath(source) == Some(h)
    requires !IsHeredoc(Trim(cmds)) && !IsDelimited(Trim(cmds))
    requires !IsHeredoc(Trim(expected)) && !IsDelimited(Trim(expected))
    requires |lines| == 5
    requires lines[0] == KeyLine("NAME", name) && lines[1] == KeyLine("FILE", file)
    requires lines[2] == KeyLine("CMDS", cmds) && lines[3] == KeyLine("EXPECT", expected)
    requires Trim(lines[4]) == "RUN"
    ensures Parse(source, lines, decode) == ([Routed(h, Record(source, name, file, cmds, expected))], None)
  {
    FourDirectives(source, lines, decode, name, file, cmds, expected);
    LastRun(source, lines, decode, Record(source, name, file, cmds, expected), h);
  }

  /** A `RUN` on the last line dispatches the record and nothing else. */
  lemma LastRun(source: string, lines: seq<string>, decode: string -> string, t: TestRecord, h: Handler)
    requires |lines| >= 1 && Trim(lines[|lines| - 1]) == "RUN"
    requires !Mentions(source, "asm") && CallbackFromPath(t.from) == Some(h)
    ensures ParseFrom(source, lines, decode, |lines| - 1, t, []) == ([Routed(h, t)], None)
  {
    var i := |lines| - 1;
    ParseRun(source, lines, decode, i, t, h);
    FreshEnd(source, lines, decode, [Routed(h, t)]);
    assert i + 1 == |lines|;
  }

  /** `ParseNext` after a routed `RUN` line. */
  lemma ParseRun(source: string, lines: seq<string>, decode: string -> string, i: nat, t: TestRecord, h: Handler)
    requires i < |lines| && Trim(lines[i]) == "RUN"
    requires !Mentions(source, "asm") && CallbackFromPath(t.from) == Some(h)
    ensures ParseFrom(source, lines, decode, i, t, []) == ParseFrom(source, lines, decode, i + 1, Fresh(source), [Routed(h, t)])
  {
    var one := [Routed(h, t)];
    var none: seq<Dispatch> := [];
    assert none + one == one;
    RunRouted(source, lines, decode, i, t, h);
    ParseNext(source, lines, decode, i, t, none, i + 1, Fresh(source), one, one);
  }

  /** A fresh record at the end of the lines is not run. */
  lemma FreshEnd(source: string, lines: seq<string>, decode: string -> string, acc: seq<Dispatch>)
    ensures ParseFrom(source, lines, decode, |lines|, Fresh(source), acc) == (acc, None)
  {
    assert Leftover(Fresh(source)) == [];
    assert acc + [] == acc;
  }

  /** The first four lines of that document build the record. */
  lemma FourDirectives(source: string, lines: seq<string>, decode: string -> string,
                       name: string, file: string, cmds: string, expected: string)
    requires !Mentions(source, "asm")
    requires !IsHeredoc(Trim(cmds)) && !IsDelimited(Trim(cmds))
    requires !IsHeredoc(Trim(expected)) && !IsDelimited(Trim(expected))
    requires |lines| >= 4
    requires lines[0] == KeyLine("NAME", name) && lines[1] == KeyLine("FILE", file)
    requires lines[2] == KeyLine("CMDS", cmds) && lines[3] == KeyLine("EXPECT", expected)
    ensures Parse(source, lines, decode) == ParseFrom(source, lines, decode, 4, Record(source, name, file, cmds, expected), [])
  {
    var t2 := Fresh(source).(name := Some(name), file := Some(file));
    TwoFields(source, lines, decode, name, file);
    ValueLabels();
    TwoValues(source, lines, decode, t2, "CMDS", cmds, "EXPECT", expected);
  }

  /** `NAME` and `FILE` on lines 0 and 1. */
  lemma TwoFields(source: string, lines: seq<string>, decode: string -> string, name: string, file: string)
    requires !Mentions(source, "asm") && |lines| >= 2
    requires lines[0] == KeyLine("NAME", name) && lines[1] == KeyLine("FILE", file)
    ensures Parse(source, lines, decode) ==
            ParseFrom(source, lines, decode, 2, Fresh(source).(name := Some(name), file := Some(file)), [])
  {
    var t1 := Fresh(source).(name := Some(name));
    FieldLabels();
    ParseField(source, lines, decode, 0, Fresh(source), "NAME", name);
    ParseField(source, lines, decode, 1, t1, "FILE", file);
  }

  /** Plain `CMDS` and `EXPECT` on lines 2 and 3 (`ck` and `ek` are those
      keys). */
  lemma {:induction false} TwoValues(source: string, lines: seq<string>, decode: string -> string, test: TestRecord,
                                     ck: string, cmds: string, ek: string, expected: string)
    requires KeyOf(ck) == CmdsKey && KeyOf(ek) == ExpectKey
    requires !Mentions(source, "asm") && |lines| >= 4
    requires !IsHeredoc(Trim(cmds)) && !IsDelimited(Trim(cmds))
    requires !IsHeredoc(Trim(expected)) && !IsDelimited(Trim(expected))
    requires lines[2] == KeyLine(ck, cmds) && lines[3] == KeyLine(ek, expected)
    ensures ParseFrom(source, lines, decode, 2, test, []) ==
            ParseFrom(source, lines, decode, 4, WithScript(test, if cmds == "" then "" else cmds + "\n")
                                                 .(expect64 := Some(false), expected := Some(expected + "\n")), [])
  {
    var t3 := WithScript(test, if cmds == "" then "" else cmds + "\n");
    ParsePlain(source, lines, decode, 2, test, ck, cmds);
    ParsePlain(source, lines, decode, 3, t3, ek, expected);
  }

  /** `ParseNext` after a `NAME` or `FILE` line. */
  lemma ParseField(source: string, lines: seq<string>, decode: string -> string, i: nat, test: TestRecord, key: string, v: string)
    requires KeyOf(key) == NameKey || KeyOf(key) == FileKey
    requires i < |lines| && lines[i] == KeyLine(key, v) && !Mentions(source, "asm")
    ensures KeyOf(key) == NameKey ==>
              ParseFrom(source, lines, decode, i, test, []) == ParseFrom(source, lines, decode, i + 1, test.(name := Some(v)), [])
    ensures KeyOf(key) == FileKey ==>
              ParseFrom(source, lines, decode, i, test, []) == ParseFrom(source, lines, decode, i + 1, test.(file := Some(v)), [])
  {
    FieldValue(source, lines, decode, i, test, key, v);
    var none: seq<Dispatch> := [];
    assert none + none == none;
    var t := if KeyOf(key) == NameKey then test.(name := Some(v)) else test.(file := Some(v));
    ParseNext(source, lines, decode, i, test, none, i + 1, t, none, none);
  }

  /** Line `i` holds a plain (neither heredoc nor delimited) `CMDS` or
      `EXPECT` value `v`, outside an asm file. */
  predicate PlainAt(source: string, lines: seq<string>, i: nat, key: string, v: string) {
    && (KeyOf(key) == CmdsKey || KeyOf(key) == ExpectKey)
    && i < |lines| && lines[i] == KeyLine(key, v) && !Mentions(source, "asm")
    && !IsHeredoc(Trim(v)) && !IsDelimited(Trim(v))
  }

  /** `ParseNext` after a plain `CMDS` or `EXPECT` line. */
  lemma ParsePlain(source: string, lines: seq<string>, decode: string -> string, i: nat, test: TestRecord, key: string, v: string)
    requires PlainAt(source, lines, i, key, v)
    ensures KeyOf(key) == CmdsKey ==>
              ParseFrom(source, lines, decode, i, test, []) ==
              ParseFrom(source, lines, decode, i + 1, WithScript(test, if v == "" then "" else v + "\n"), [])
    ensures KeyOf(key) == ExpectKey ==>
              ParseFrom(source, lines, decode, i, test, []) ==
              ParseFrom(source, lines, decode, i + 1, test.(expect64 := Some(false), expected := Some(v + "\n")), [])
  {
    PlainValue(source, lines, decode, i, test, key, v);
    var none: seq<Dispatch> := [];
    assert none + none == none;
    var t := if KeyOf(key) == CmdsKey then WithScript(test, if v == "" then "" else v + "\n")
             else test.(expect64 := Some(false), expected := Some(v + "\n"));
    ParseNext(source, lines, decode, i, test, none, i + 1, t, none, none);
  }
}
