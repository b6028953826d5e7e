/**
 * The argument vector `runTest` hands to `radare2`, the one `runTestFuzz`
 * uses, and `binPath`, which resolves a test file named relative to the
 * harness.
 */
module Invocation {
  import opened Common
  import opened Strings
  import opened Database

  /** The five flags every `runTest` invocation starts with. */
  const FixedFlags: seq<string> := ["-escr.utf8=0", "-escr.color=0", "-escr.interactive=0", "-N", "-Q"]

  /** `binPath(file)`: a file whose name starts with `.` is joined to the
      harness directory by `join`; anything else, `undefined` included, is
      returned as it is. */
  function BinPath(file: Option<string>, join: string -> string): (r: Option<string>)
    ensures file.Some? && file.value != "" && file.value[0] == '.' ==> r == Some(join(file.value))
    ensures !(file.Some? && file.value != "" && file.value[0] == '.') ==> r == file
  {
    match file
    case Some(f) => if f != "" && f[0] == '.' then Some(join(f)) else file
    case None => None
  }

  /** What `spawn` is given: the arguments and, last, `binPath(test.file)`,
      which is `undefined` when the record names no file. */
  datatype Argv = Argv(args: seq<string>, target: Option<string>)

  /** `test.cmds.join(';')` on a record with neither a command list nor a
      command script: a TypeError. */
  datatype ArgvError = NoCommands

  /** `test.args.split(' ')` when `test.args` is a non-empty string. */
  function ExtraArgs(test: TestRecord): seq<string> {
    if test.args.Some? && test.args.value != "" then Split(test.args.value, ' ') else []
  }

  /** The command list `-c` mode uses: the record's own, or, when it has
      none and its script is not empty, the script cut at its newlines
      (without trimming it first). */
  function Commands(test: TestRecord): Option<seq<string>> {
    if test.cmds.None? && test.cmdScript.Some? && test.cmdScript.value != "" then Some(Split(test.cmdScript.value, '\n'))
    else test.cmds
  }

  /** The argument vector of `runTest(test)`: in script mode the script
      file `tmp` is passed with `-i`, otherwise the commands joined by `;`
      with `-c`. */
  function RunArgv(test: TestRecord, useScript: bool, tmp: string, join: string -> string): Result<Argv, ArgvError> {
    if useScript then Success(Argv(FixedFlags + ExtraArgs(test) + ["-i", tmp], BinPath(test.file, join)))
    else if Commands(test).None? then Failure(NoCommands)
    else Success(Argv(FixedFlags + ExtraArgs(test) + ["-c", Join(Commands(test).value, ";")], BinPath(test.file, join)))
  }

  /** `runTest`'s `args.push` sequence; the record comes back with the
      command list `-c` mode rebuilt. */
  method BuildArgv(test: TestRecord, useScript: bool, tmp: string, join: string -> string)
    returns (r: Result<Argv, ArgvError>, updated: TestRecord)
    ensures r == RunArgv(test, useScript, tmp, join)
    ensures updated == if useScript then test else test.(cmds := Commands(test))
  {
    var args := ["-escr.utf8=0", "-escr.color=0", "-escr.interactive=0", "-N", "-Q"];
    updated := test;
    if test.args.Some? && |test.args.value| > 0 {
      args := args + Split(test.args.value, ' ');
    }
    assert args == FixedFlags + ExtraArgs(test);
    if useScript {
      args := args + ["-i", tmp];
    } else {
      if updated.cmds.None? && updated.cmdScript.Some? && updated.cmdScript.value != "" {
        updated := updated.(cmds := Some(Split(updated.cmdScript.value, '\n')));
      }
      assert updated.cmds == Commands(test);
      if updated.cmds.None? {
        return Failure(NoCommands), updated;
      }
      args := args + ["-c", Join(updated.cmds.value, ";")];
    }
    r := Success(Argv(args, BinPath(test.file, join)));
  }

  /** The layout of the vector: the five fixed flags, the `ARGS` words,
      which join back into the `ARGS` text, then `-i` with the script file
      or `-c` with the commands joined by `;`, with the file last; it fails
      exactly in `-c` mode without commands. */
  lemma RunArgvLayout(test: TestRecord, useScript: bool, tmp: string, join: string -> string)
    ensures RunArgv(test, useScript, tmp, join).Failure? <==>
            !useScript && test.cmds.None? && (test.cmdScript.None? || test.cmdScript.value == "")
    ensures var r := RunArgv(test, useScript, tmp, join);
            r.Success? ==>
              var a := r.value.args;
              var n := |a| - 2;
              && 5 <= n && a[..5] == FixedFlags
              && (n == 5 <==> test.args.None? || test.args.value == "")
              && (n > 5 ==> Join(a[5..n], " ") == test.args.value)
              && a[n] == (if useScript then "-i" else "-c")
              && a[n + 1] == (if useScript then tmp else Join(Commands(test).value, ";"))
              && r.value.target == BinPath(test.file, join)
  {
    var r := RunArgv(test, useScript, tmp, join);
    if r.Success? {
      var a := r.value.args;
      var x := ExtraArgs(test);
      var n := |a| - 2;
      assert a[..5] == FixedFlags;
      assert a[5..n] == x;
      if test.args.Some? && test.args.value != "" {
        JoinSplit(test.args.value, ' ');
      }
    }
  }

  /** In `-c` mode a record without a command list runs its script with
      every newline turned into `;`. */
  lemma ScriptAsCommands(test: TestRecord, tmp: string, join: string -> string)
    requires test.cmds.None? && test.cmdScript.Some? && test.cmdScript.value != ""
    ensures var r := RunArgv(test, false, tmp, join);
            r.Success? && r.value.args[|r.value.args| - 1] == Replace(test.cmdScript.value, '\n', ';')
  {
    JoinSplitReplace(test.cmdScript.value, '\n', ';');
  }

  /** The `-c` argument splits back on `;` into the command list when no
      command holds a `;` itself. */
  lemma CommandsRoundTrip(test: TestRecord, tmp: string, join: string -> string)
    requires test.cmds.Some? && |test.cmds.value| >= 1
    requires forall k :: 0 <= k < |test.cmds.value| ==> ';' !in test.cmds.value[k]
    ensures var r := RunArgv(test, false, tmp, join);
            r.Success? && Split(r.value.args[|r.value.args| - 1], ';') == test.cmds.value
  {
    SplitJoin(test.cmds.value, ';');
  }

  /** `binPath` of its own result changes nothing when `join` makes
      absolute paths (they do not start with `.`). */
  lemma BinPathIdempotent(file: Option<string>, join: string -> string)
    requires file.Some? && file.value != "" && file.value[0] == '.' ==>
             join(file.value) == "" || join(file.value)[0] != '.'
    ensures BinPath(BinPath(file, join), join) == BinPath(file, join)
  {
  }

  /** `runTestFuzz`'s arguments: run `?e init` quietly and analyse the fuzzed
      file. */
  function FuzzArgv(path: string): (r: seq<string>)
    ensures |r| == 5 && r[4] == path && r[..4] == ["-c", "?e init", "-qcq", "-A"]
  {
    ["-c", "?e init", "-qcq", "-A", path]
  }
}
