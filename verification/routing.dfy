/**
 * `callbackFromPath`: which runner a test document's records are sent to,
 * chosen by the first directory name the document's path contains.
 */
module Routing {
  import opened Common
  import opened Strings

  /** The two runners a `RUN` line can send a record to. */
  datatype Handler = RunTest | RunTestBin

  /** The routing table in search order: `path.join('db', dir)` with the POSIX
      separator, and the runner for documents under it. */
  const Routes: seq<(string, Handler)> := [
    ("db/anal", RunTest),
    ("db/cmd", RunTest),
    ("db/formats", RunTest),
    ("db/io", RunTest),
    ("db/tools", RunTest),
    ("db/bin", RunTestBin)
  ]

  /** `from.indexOf(dir) !== -1`. */
  predicate Mentions(from: string, dir: string) {
    IndexOf(from, dir, 0) != -1
  }

  /** The index of the first row at or after `k` whose directory `from`
      mentions, or -1. */
  function FirstRoute(from: string, k: nat): (r: int)
    requires k <= |Routes|
    ensures r == -1 <==> forall j :: k <= j < |Routes| ==> !Mentions(from, Routes[j].0)
    ensures r != -1 ==> k <= r < |Routes| && Mentions(from, Routes[r].0)
    ensures r != -1 ==> forall j :: k <= j < r ==> !Mentions(from, Routes[j].0)
    decreases |Routes| - k
  {
    if k == |Routes| then -1
    else if Mentions(from, Routes[k].0) then k
    else FirstRoute(from, k + 1)
  }

  /** `callbackFromPath(from)`: the runner of the first matching row, or
      `null` (None) when no row matches. Since the first five rows all lead to
      `runTest`, a path reaches `runTestBin` only when it mentions `db/bin`
      and none of the other five directories. */
  function CallbackFromPath(from: string): (r: Option<Handler>)
    ensures r == Some(RunTest) <==>
      (exists j :: 0 <= j < 5 && Mentions(from, Routes[j].0))
    ensures r == Some(RunTestBin) <==>
      (forall j :: 0 <= j < 5 ==> !Mentions(from, Routes[j].0)) && Mentions(from, "db/bin")
    ensures r == None <==> forall j :: 0 <= j < |Routes| ==> !Mentions(from, Routes[j].0)
  {
    var k := FirstRoute(from, 0);
    if k == -1 then None else Some(Routes[k].1)
  }
}
