/**
 * `parseTestAsm`: one line of an assembler test document expands into one
 * round-trip test per `d` (disassemble) or `a` (assemble) character of its
 * type code. The architecture settings come from the document's file name,
 * `arch`, `arch_bits` or `arch_cpu_bits`.
 */
module AsmLines {
  import opened Common
  import opened Strings

  // ---------------------------------------------------------------------------
  // The tokenizer: every match of /(".*?"|[^"\s]+)+(?=\s*|\s*$)/g
  //
  // The look-ahead always succeeds, so a match is the longest run of
  // alternatives, each alternative preferring a quoted section (up to the
  // nearest closing quote on the same line) over a run of characters that
  // are neither quotes nor white space.

  /** A character of the alternative `[^"\s]`. */
  predicate IsPlain(c: char) {
    c != '"' && !IsSpace(c)
  }

  /** The index of the quote that closes a quoted section whose text starts at
      `q`: the nearest `"` with no line terminator before it. */
  function QuoteClose(s: string, q: nat): (r: Option<nat>)
    ensures r.Some? ==> q <= r.value < |s| && s[r.value] == '"'
    ensures r.Some? ==> forall k :: q <= k < r.value ==> s[k] != '"' && !IsLineTerminator(s[k])
    decreases |s| - q
  {
    if q >= |s| then None
    else if s[q] == '"' then Some(q)
    else if IsLineTerminator(s[q]) then None
    else QuoteClose(s, q + 1)
  }

  /** Where the match that starts at `p` ends (`p` itself: no match there). */
  function TokenEnd(s: string, p: nat): (e: nat)
    requires p <= |s|
    ensures p <= e <= |s|
    decreases |s| - p
  {
    if p < |s| && IsPlain(s[p]) then TokenEnd(s, p + 1)
    else if p < |s| && s[p] == '"' && QuoteClose(s, p + 1).Some? then
      TokenEnd(s, QuoteClose(s, p + 1).value + 1)
    else p
  }

  /** The matches found by a global search that starts at `p`. */
  function TokensFrom(s: string, p: nat): (r: seq<string>)
    requires p <= |s|
    ensures forall k :: 0 <= k < |r| ==> r[k] != ""
    decreases |s| - p
  {
    if p == |s| then []
    else
      var e := TokenEnd(s, p);
      if e == p then TokensFrom(s, p + 1) else [s[p..e]] + TokensFrom(s, e)
  }

  /** `line.match(...)`; the empty sequence stands for the `null` that
      `match` returns when nothing matches. */
  function Tokens(line: string): seq<string> {
    TokensFrom(line, 0)
  }

  // ---------------------------------------------------------------------------
  // The tests a line expands into

  datatype AsmKind = Disassemble | Assemble

  /** One generated test case: the settings command list `args`, the command
      `cmd` run after it, and the output it must print. */
  datatype AsmTest = AsmTest(
    from: string,
    broken: bool,
    args: string,
    bigEndian: bool,
    kind: AsmKind,
    cmd: string,
    expected: string)

  /** A JavaScript boolean concatenated to a string. */
  function BoolText(b: bool): string {
    if b then "true" else "false"
  }

  /** The last path segment of `source` split on `_`. */
  function FileNameParts(source: string): (r: seq<string>)
    ensures |r| >= 1
  {
    var tree := Split(source, '/');
    Split(tree[|tree| - 1], '_')
  }

  /** The kind of test a type-code character asks for, in the order of the
      type code: an independent statement of which characters count. */
  function Kinds(typ: string): (r: seq<AsmKind>)
    ensures |r| == multiset(typ)['d'] + multiset(typ)['a']
    decreases |typ|
  {
    if typ == [] then []
    else
      var c := typ[|typ| - 1];
      assert typ == typ[..|typ| - 1] + [c];
      Kinds(typ[..|typ| - 1]) + KindOf(c)
  }

  /** The kind of test one type-code character asks for, if any. */
  function KindOf(c: char): (r: seq<AsmKind>)
    ensures |r| == (if c == 'd' || c == 'a' then 1 else 0)
  {
    if c == 'd' then [Disassemble] else if c == 'a' then [Assemble] else []
  }

  /** The test that one character of the type code `typ` produces. */
  function TestFor(source: string, typ: string, c: char, asm: string, hex: string, args: string): seq<AsmTest> {
    var big := 'E' in typ;
    var broken := 'B' in typ;
    if c == 'd' then
      [AsmTest(source, broken, args, big, Disassemble, "e cfg.bigendian=" + BoolText(big) + ";" + "pad " + hex, asm)]
    else if c == 'a' then
      [AsmTest(source, broken, args, big, Assemble, "e cfg.bigendian=" + BoolText(big) + ";" + "pa " + asm, hex)]
    else []
  }

  /** The tests produced by the characters of `part`, a prefix of `typ`. */
  function Expand(source: string, typ: string, part: string, asm: string, hex: string, args: string): seq<AsmTest>
    decreases |part|
  {
    if part == [] then []
    else Expand(source, typ, part[..|part| - 1], asm, hex, args) + TestFor(source, typ, part[|part| - 1], asm, hex, args)
  }

  /** The settings commands in the order they are pushed: bits (or cpu and
      bits), the architecture, then the seek to the offset. */
  function Settings(parts: seq<string>, tokens: seq<string>): seq<string>
    requires 1 <= |parts| <= 3
    requires |tokens| >= 3
  {
    (if |parts| == 2 then ["e asm.bits=" + parts[1]]
     else if |parts| == 3 then ["e asm.cpu=" + parts[1], "e asm.bits=" + parts[2]]
     else [])
    + ["e asm.arch=" + parts[0]]
    + [if |tokens| >= 4 then "s " + tokens[3] else "s 0"]
  }

  /** The tests a line's tokens expand into. */
  function FromTokens(source: string, tokens: seq<string>): seq<AsmTest> {
    var parts := FileNameParts(source);
    if |tokens| < 3 || |parts| > 3 then []
    else
      Expand(source, tokens[0], tokens[0], RemoveAll(tokens[1], '"'), tokens[2], Join(Settings(parts, tokens), ";"))
  }

  /** What `parseTestAsm(source, line)` returns; None when `match` found
      nothing and reading `args.length` throws. */
  function AsmTests(source: string, line: string): Option<seq<AsmTest>> {
    var tokens := Tokens(line);
    if tokens == [] then None else Some(FromTokens(source, tokens))
  }

  /** `parseTestAsm`, building the settings list and the test list by
      appending, as the JavaScript does. */
  method ParseTestAsm(source: string, line: string) returns (r: Option<seq<AsmTest>>)
    ensures r == AsmTests(source, line)
  {
    var args := Tokens(line);
    if args == [] {
      return None;
    }
    if |args| < 3 {
      return Some([]);
    }
    var filetree := Split(source, '/');
    var filename := Split(filetree[|filetree| - 1], '_');
    var r2args: seq<string> := [];
    if |filename| > 3 {
      return Some([]);
    } else if |filename| == 2 {
      r2args := r2args + ["e asm.bits=" + filename[1]];
    } else if |filename| == 3 {
      r2args := r2args + ["e asm.cpu=" + filename[1]];
      r2args := r2args + ["e asm.bits=" + filename[2]];
    }
    r2args := r2args + ["e asm.arch=" + filename[0]];
    var typ := args[0];
    var asm := RemoveAll(args[1], '"');
    var hex := args[2];
    if |args| >= 4 {
      r2args := r2args + ["s " + args[3]];
    } else {
      r2args := r2args + ["s 0"];
    }
    assert r2args == Settings(filename, args);
    var joined := Join(r2args, ";");
    var tests: seq<AsmTest> := [];
    for k := 0 to |typ|
      invariant tests == Expand(source, typ, typ[..k], asm, hex, joined)
    {
      assert typ[..k + 1][..k] == typ[..k];
      var c := typ[k];
      assert Expand(source, typ, typ[..k + 1], asm, hex, joined) == tests + TestFor(source, typ, c, asm, hex, joined);
      var endianess := 'E' in typ;
      // `parseTestAsm` pushes the test and only then sets `broken` on the same
      // object; setting it before the push gives the same list.
      if c == 'd' {
        var t := AsmTest(source, false, joined, endianess, Disassemble,
                         "e cfg.bigendian=" + BoolText(endianess) + ";" + "pad " + hex, asm);
        if 'B' in typ {
          t := t.(broken := true);
        }
        tests := tests + [t];
      } else if c == 'a' {
        var t := AsmTest(source, false, joined, endianess, Assemble,
                         "e cfg.bigendian=" + BoolText(endianess) + ";" + "pa " + asm, hex);
        if 'B' in typ {
          t := t.(broken := true);
        }
        tests := tests + [t];
      }
    }
    assert typ[..|typ|] == typ;
    r := Some(tests);
  }

  // ---------------------------------------------------------------------------
  // Lemmas

  /** The test `t` is one of kind `k` for the type code `typ`: known-broken
      exactly when the code holds `B`, big-endian exactly when it holds `E`;
      a disassemble test expects the assembly text, an assemble test the hex
      bytes. */
  predicate Fits(t: AsmTest, k: AsmKind, source: string, typ: string, asm: string, hex: string, args: string) {
    && t.kind == k
    && t.from == source && t.args == args
    && t.broken == ('B' in typ)
    && t.bigEndian == ('E' in typ)
    && (k == Disassemble ==>
          t.expected == asm && t.cmd == "e cfg.bigendian=" + BoolText('E' in typ) + ";pad " + hex)
    && (k == Assemble ==>
          t.expected == hex && t.cmd == "e cfg.bigendian=" + BoolText('E' in typ) + ";pa " + asm)
  }

  /** One character of the type code gives the test its kind asks for. */
  lemma TestForFits(source: string, typ: string, c: char, asm: string, hex: string, args: string)
    ensures var ts := TestFor(source, typ, c, asm, hex, args);
            var ks := KindOf(c);
            |ts| == |ks| && forall j :: 0 <= j < |ts| ==> Fits(ts[j], ks[j], source, typ, asm, hex, args)
  {
    var big := BoolText('E' in typ);
    assert "e cfg.bigendian=" + big + ";" + "pad " + hex == "e cfg.bigendian=" + big + ";pad " + hex;
    assert "e cfg.bigendian=" + big + ";" + "pa " + asm == "e cfg.bigendian=" + big + ";pa " + asm;
  }

  /** One test per `d` or `a` character of the type code, in order, each
      fitting its kind. */
  lemma {:induction false} ExpandShape(source: string, typ: string, part: string, asm: string, hex: string, args: string)
    ensures var ts := Expand(source, typ, part, asm, hex, args);
            var ks := Kinds(part);
            && |ts| == |ks|
            && (forall j :: 0 <= j < |ts| ==> Fits(ts[j], ks[j], source, typ, asm, hex, args))
    decreases |part|
  {
    if part != [] {
      var init := part[..|part| - 1];
      var c := part[|part| - 1];
      ExpandShape(source, typ, init, asm, hex, args);
      TestForFits(source, typ, c, asm, hex, args);
      var ts0 := Expand(source, typ, init, asm, hex, args);
      var ks0 := Kinds(init);
      var tt := TestFor(source, typ, c, asm, hex, args);
      var kk := KindOf(c);
      var ts := Expand(source, typ, part, asm, hex, args);
      var ks := Kinds(part);
      assert ts == ts0 + tt;
      assert ks == ks0 + kk;
      forall j | 0 <= j < |ts| ensures Fits(ts[j], ks[j], source, typ, asm, hex, args) {
        if j < |ts0| {
          assert ts[j] == ts0[j] && ks[j] == ks0[j];
        } else {
          assert ts[j] == tt[j - |ts0|] && ks[j] == kk[j - |ks0|];
        }
      }
    }
  }

  /** What `parseTestAsm` returns for every line: nothing to match throws;
      fewer than three tokens, or more than three `_` parts in the file name,
      give no tests; otherwise one test per `d`/`a` character with the
      settings joined by `;`. */
  lemma AsmTestsShape(source: string, line: string)
    ensures AsmTests(source, line).None? <==> Tokens(line) == []
    ensures var tokens := Tokens(line);
            var parts := FileNameParts(source);
            AsmTests(source, line).Some? && (|tokens| < 3 || |parts| > 3) ==>
              AsmTests(source, line).value == []
    ensures var tokens := Tokens(line);
            var parts := FileNameParts(source);
            AsmTests(source, line).Some? && |tokens| >= 3 && |parts| <= 3 ==>
              var ts := AsmTests(source, line).value;
              && |ts| == multiset(tokens[0])['d'] + multiset(tokens[0])['a']
              && forall j :: 0 <= j < |ts| ==>
                   && ts[j].args == Join(Settings(parts, tokens), ";")
                   && ts[j].broken == ('B' in tokens[0])
                   && ts[j].bigEndian == ('E' in tokens[0])
                   && (ts[j].kind == Disassemble ==> ts[j].expected == RemoveAll(tokens[1], '"'))
                   && (ts[j].kind == Assemble ==> ts[j].expected == tokens[2])
  {
    var tokens := Tokens(line);
    var parts := FileNameParts(source);
    if |tokens| >= 3 && |parts| <= 3 {
      ExpandShape(source, tokens[0], tokens[0], RemoveAll(tokens[1], '"'), tokens[2], Join(Settings(parts, tokens), ";"));
    }
  }

  /** A run of plain characters is matched up to the first white space. */
  lemma {:induction false} TokenEndPlain(s: string, p: nat, e: nat)
    requires p <= e <= |s|
    requires forall k :: p <= k < e ==> IsPlain(s[k])
    requires e == |s| || IsSpace(s[e])
    ensures TokenEnd(s, p) == e
    decreases e - p
  {
    if p < e {
      TokenEndPlain(s, p + 1, e);
    }
  }

  /** The nearest quote after an opening quote closes the section. */
  lemma {:induction false} QuoteCloseAt(s: string, q: nat, c: nat)
    requires q <= c < |s| && s[c] == '"'
    requires forall k :: q <= k < c ==> s[k] != '"' && !IsLineTerminator(s[k])
    ensures QuoteClose(s, q) == Some(c)
    decreases c - q
  {
    if q < c {
      QuoteCloseAt(s, q + 1, c);
    }
  }

  /** A run of plain characters followed by white space or the end is one
      token. */
  lemma TokensPlain(s: string, p: nat, e: nat)
    requires p < e <= |s|
    requires forall k :: p <= k < e ==> IsPlain(s[k])
    requires e == |s| || IsSpace(s[e])
    ensures TokensFrom(s, p) == [s[p..e]] + TokensFrom(s, e)
  {
    TokenEndPlain(s, p, e);
  }

  /** White space starts no token. */
  lemma TokensSkip(s: string, p: nat)
    requires p < |s| && IsSpace(s[p])
    ensures TokensFrom(s, p) == TokensFrom(s, p + 1)
  {
  }

  /** A quoted section followed by white space or the end is one token. */
  lemma TokensQuoted(s: string, p: nat, c: nat)
    requires p < c < |s| && s[p] == '"' && s[c] == '"'
    requires forall k :: p < k < c ==> s[k] != '"' && !IsLineTerminator(s[k])
    requires c + 1 == |s| || IsSpace(s[c + 1])
    ensures TokensFrom(s, p) == [s[p..c + 1]] + TokensFrom(s, c + 1)
  {
    QuoteCloseAt(s, p + 1, c);
    TokenEndPlain(s, c + 1, c + 1);
  }


  /** A plain run at the end of the line is its last token. */
  lemma {:induction false} LastPlain(s: string, p: nat)
    requires p < |s|
    requires forall k :: p <= k < |s| ==> IsPlain(s[k])
    ensures TokensFrom(s, p) == [s[p..]]
  {
    TokensPlain(s, p, |s|);
    assert s[p..|s|] == s[p..];
    assert TokensFrom(s, |s|) == [];
  }

  /** A quoted section, a space and a final plain run make two tokens. */
  lemma {:induction false} QuotedThenPlain(s: string, p: nat, c: nat)
    requires p < c && c + 2 < |s|
    requires s[p] == '"' && s[c] == '"' && s[c + 1] == ' '
    requires forall k :: p < k < c ==> s[k] != '"' && !IsLineTerminator(s[k])
    requires forall k :: c + 2 <= k < |s| ==> IsPlain(s[k])
    ensures TokensFrom(s, p) == [s[p..c + 1], s[c + 2..]]
  {
    TokensQuoted(s, p, c);
    TokensSkip(s, c + 1);
    LastPlain(s, c + 2);
  }

  /** A plain run and a space, then the rest of the line. */
  lemma PlainThenSpace(s: string, t: nat)
    requires 0 < t < |s| && s[t] == ' '
    requires forall k :: 0 <= k < t ==> IsPlain(s[k])
    ensures TokensFrom(s, 0) == [s[..t]] + TokensFrom(s, t + 1)
  {
    TokensPlain(s, 0, t);
    TokensSkip(s, t);
  }

  /** A line laid out as a plain run, a space, a quoted section, a space and a
      plain run holds exactly those three tokens. */
  lemma {:induction false} ThreeTokens(s: string, t: nat, c: nat)
    requires 0 < t && t + 1 < c && c + 2 < |s|
    requires forall k :: 0 <= k < t ==> IsPlain(s[k])
    requires s[t] == ' ' && s[t + 1] == '"' && s[c] == '"' && s[c + 1] == ' '
    requires forall k :: t + 1 < k < c ==> s[k] != '"' && !IsLineTerminator(s[k])
    requires forall k :: c + 2 <= k < |s| ==> IsPlain(s[k])
    ensures TokensFrom(s, 0) == [s[..t], s[t + 1..c + 1], s[c + 2..]]
  {
    PlainThenSpace(s, t);
    QuotedThenPlain(s, t + 1, c);
  }

  /** An assembler test line `type "asm text" hex`: the quoted text stays one
      token even when it holds spaces. */
  lemma AsmLineTokens(typ: string, asm: string, hex: string)
    requires typ != "" && hex != ""
    requires forall k :: 0 <= k < |typ| ==> IsPlain(typ[k])
    requires forall k :: 0 <= k < |hex| ==> IsPlain(hex[k])
    requires forall k :: 0 <= k < |asm| ==> asm[k] != '"' && !IsLineTerminator(asm[k])
    ensures Tokens(typ + " " + "\"" + asm + "\"" + " " + hex) == [typ, "\"" + asm + "\"", hex]
  {
    var quoted := "\"" + asm + "\"";
    var s := typ + " " + quoted + " " + hex;
    assert s == typ + " " + "\"" + asm + "\"" + " " + hex;
    var t := |typ|;
    var c := t + 1 + |asm| + 1;
    assert s[..t] == typ;
    assert s[t + 1..c + 1] == quoted;
    assert s[c + 2..] == hex;
    forall k | t + 1 < k < c ensures s[k] != '"' && !IsLineTerminator(s[k]) {
      assert s[k] == asm[k - t - 2];
    }
    forall k | c + 2 <= k < |s| ensures IsPlain(s[k]) {
      assert s[k] == hex[k - c - 2];
    }
    ThreeTokens(s, t, c);
  }

  /** The file name `arch_bits` names the architecture and the bits. */
  lemma ArchBitsParts(arch: string, bits: string)
    requires '/' !in arch && '/' !in bits && '_' !in arch && '_' !in bits
    ensures FileNameParts(arch + "_" + bits) == [arch, bits]
  {
    var source := arch + "_" + bits;
    assert '/' !in source by {
      forall k | 0 <= k < |source| ensures source[k] != '/' {
        if k < |arch| { assert source[k] == arch[k]; }
        else if k > |arch| { assert source[k] == bits[k - |arch| - 1]; }
      }
    }
    SplitNoSep(source, '/');
    SplitNoSep(arch, '_');
    SplitNoSep(bits, '_');
    assert source == arch + ['_'] + bits;
    SplitSep(arch, bits, '_');
  }

  /** The quotes around a quoted token are dropped from the assembly text. */
  lemma {:induction false} Unquoted(asm: string)
    requires '"' !in asm
    ensures RemoveAll("\"" + asm + "\"", '"') == asm
  {
    var q := '"';
    var t := asm + [q];
    assert "\"" + asm + "\"" == [q] + t;
    assert ([q] + t)[1..] == t;
    RemoveOne(asm, q, []);
    assert asm + [q] + [] == t;
  }

  /** The settings of an `arch_bits` document whose line has no offset token. */
  lemma ArchBitsSettings(arch: string, bits: string, tokens: seq<string>)
    requires |tokens| == 3
    ensures Join(Settings([arch, bits], tokens), ";") == "e asm.bits=" + bits + ";" + "e asm.arch=" + arch + ";" + "s 0"
  {
    var settings := Settings([arch, bits], tokens);
    assert settings == ["e asm.bits=" + bits, "e asm.arch=" + arch, "s 0"];
    assert Join(settings[1..], ";") == "e asm.arch=" + arch + ";" + Join(settings[2..], ";");
  }

  /** The type code `da` gives a disassemble test, then an assemble test. */
  lemma DisassembleAssemble(source: string, typ: string, asm: string, hex: string, args: string)
    requires typ == "da"
    ensures Expand(source, typ, typ, asm, hex, args) == [
      AsmTest(source, false, args, false, Disassemble, "e cfg.bigendian=false;pad " + hex, asm),
      AsmTest(source, false, args, false, Assemble, "e cfg.bigendian=false;pa " + asm, hex)]
  {
    assert typ[..1] == "d" && typ[..1][..0] == "";
    assert 'E' !in typ && 'B' !in typ;
    var disTest := TestFor(source, typ, 'd', asm, hex, args);
    var asmTest := TestFor(source, typ, 'a', asm, hex, args);
    assert Expand(source, typ, typ[..1], asm, hex, args) == Expand(source, typ, "", asm, hex, args) + disTest;
    assert Expand(source, typ, typ, asm, hex, args) == Expand(source, typ, typ[..1], asm, hex, args) + asmTest;
    assert "e cfg.bigendian=" + BoolText(false) + ";" + "pad " + hex == "e cfg.bigendian=false;pad " + hex;
    assert "e cfg.bigendian=" + BoolText(false) + ";" + "pa " + asm == "e cfg.bigendian=false;pa " + asm;
  }

  /** A `da "asm" hex` line of an `arch_bits` document (such as
      `da "mov eax, ebx" 8948` in `x86_32`): a disassemble test expecting the
      assembly text and an assemble test expecting the hex bytes, both little
      endian, not known to be broken, with the bits, the architecture and
      offset 0 as settings. */
  lemma ArchBitsLine(arch: string, bits: string, asm: string, hex: string)
    requires '/' !in arch && '/' !in bits && '_' !in arch && '_' !in bits
    requires forall k :: 0 <= k < |asm| ==> asm[k] != '"' && !IsLineTerminator(asm[k])
    requires hex != "" && forall k :: 0 <= k < |hex| ==> IsPlain(hex[k])
    ensures var args := "e asm.bits=" + bits + ";" + "e asm.arch=" + arch + ";" + "s 0";
            AsmTests(arch + "_" + bits, "da" + " " + "\"" + asm + "\"" + " " + hex) == Some([
              AsmTest(arch + "_" + bits, false, args, false, Disassemble, "e cfg.bigendian=false;pad " + hex, asm),
              AsmTest(arch + "_" + bits, false, args, false, Assemble, "e cfg.bigendian=false;pa " + asm, hex)])
  {
    var source := arch + "_" + bits;
    var tokens := ["da", "\"" + asm + "\"", hex];
    assert forall k :: 0 <= k < |"da"| ==> IsPlain("da"[k]);
    AsmLineTokens("da", asm, hex);
    ArchBitsParts(arch, bits);
    Unquoted(asm);
    ArchBitsSettings(arch, bits, tokens);
    var args := "e asm.bits=" + bits + ";" + "e asm.arch=" + arch + ";" + "s 0";
    DisassembleAssemble(source, "da", asm, hex, args);
  }
}
