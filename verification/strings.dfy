/**
 * The JavaScript string operations the harness relies on (`trim`, `indexOf`,
 * `startsWith`, `split` on one character, `join`, `repeat`, removal of every
 * occurrence of a character), over strings of code points.
 */
module Strings {

  /** The characters that `String.prototype.trim` strips and that the regular
      expression class `\s` matches: ECMAScript's WhiteSpace and LineTerminator. */
  predicate IsSpace(c: char) {
    || c == ' ' || c == '\t' || c == '\n' || c == '\r' || c == '\U{000B}' || c == '\U{000C}'
    || c == '\U{00A0}' || c == '\U{1680}' || ('\U{2000}' <= c <= '\U{200A}')
    || c == '\U{2028}' || c == '\U{2029}' || c == '\U{202F}' || c == '\U{205F}'
    || c == '\U{3000}' || c == '\U{FEFF}'
  }

  /** The characters the regular-expression wildcard `.` does not match. */
  predicate IsLineTerminator(c: char) {
    c == '\n' || c == '\r' || c == '\U{2028}' || c == '\U{2029}'
  }

  /** `s.startsWith(prefix)`. */
  predicate StartsWith(s: string, prefix: string) {
    |prefix| <= |s| && s[..|prefix|] == prefix
  }

  /** `t` occurs in `s` starting at index `k`. */
  predicate OccursAt(s: string, t: string, k: int) {
    0 <= k && k + |t| <= |s| && s[k..k + |t|] == t
  }

  /** `s.indexOf(c, from)` for a one-character search string: the first index
      at or after `from` holding `c`, or -1. */
  function Find(s: string, c: char, from: nat): (r: int)
    ensures r == -1 || from <= r < |s|
    ensures r != -1 ==> s[r] == c && forall k :: from <= k < r ==> s[k] != c
    ensures r == -1 <==> forall k :: from <= k < |s| ==> s[k] != c
    decreases |s| - from
  {
    if from >= |s| then -1
    else if s[from] == c then from
    else Find(s, c, from + 1)
  }

  /** `s.indexOf(t, from)`: the first index at or after `from` where `t`
      occurs, or -1. */
  function IndexOf(s: string, t: string, from: nat): (r: int)
    requires from <= |s|
    ensures r == -1 || (from <= r && OccursAt(s, t, r))
    ensures r != -1 ==> forall k :: from <= k < r ==> !OccursAt(s, t, k)
    ensures r == -1 <==> forall k :: from <= k ==> !OccursAt(s, t, k)
    decreases |s| - from
  {
    if from + |t| > |s| then -1
    else if s[from..from + |t|] == t then from
    else IndexOf(s, t, from + 1)
  }

  /** `s.trimStart()`: the suffix of `s` that starts at its first non-space. */
  function TrimLeft(s: string): (r: string)
    ensures |r| <= |s| && r == s[|s| - |r|..]
    ensures forall k :: 0 <= k < |s| - |r| ==> IsSpace(s[k])
    ensures r != [] ==> !IsSpace(r[0])
  {
    if |s| > 0 && IsSpace(s[0]) then TrimLeft(s[1..]) else s
  }

  /** `s.trimEnd()`: the prefix of `s` that ends at its last non-space. */
  function TrimRight(s: string): (r: string)
    ensures |r| <= |s| && r == s[..|r|]
    ensures forall k :: |r| <= k < |s| ==> IsSpace(s[k])
    ensures r != [] ==> !IsSpace(r[|r| - 1])
  {
    if |s| > 0 && IsSpace(s[|s| - 1]) then TrimRight(s[..|s| - 1]) else s
  }

  /** `s.trim()`. */
  function Trim(s: string): string {
    TrimRight(TrimLeft(s))
  }

  /** `s.split(c)`: the pieces of `s` between occurrences of `c`; an empty
      string gives one empty piece. */
  function Split(s: string, c: char): (r: seq<string>)
    ensures |r| >= 1
    decreases |s|
  {
    if s == [] then [""]
    else
      var rest := Split(s[1..], c);
      if s[0] == c then [""] + rest
      else [[s[0]] + rest[0]] + rest[1..]
  }

  /** `xs.join(sep)`. */
  function Join(xs: seq<string>, sep: string): string
    decreases |xs|
  {
    if |xs| == 0 then ""
    else if |xs| == 1 then xs[0]
    else xs[0] + sep + Join(xs[1..], sep)
  }

  /** Every line followed by a newline, as `value += line + '\n'` builds it. */
  function Lines(ls: seq<string>): string
    decreases |ls|
  {
    if ls == [] then "" else ls[0] + "\n" + Lines(ls[1..])
  }

  /** `s.repeat(n)`. */
  function Repeat(s: string, n: nat): (r: string)
    ensures |r| == n * |s|
  {
    if n == 0 then "" else s + Repeat(s, n - 1)
  }

  /** `s.replace(/c/g, '')` or `s.split(c).join('')`: `s` without any `c`. */
  function RemoveAll(s: string, c: char): (r: string)
    ensures multiset(r) == multiset(s)[c := 0]
  {
    if s == [] then ""
    else
      assert s == [s[0]] + s[1..];
      if s[0] == c then RemoveAll(s[1..], c) else [s[0]] + RemoveAll(s[1..], c)
  }

  /** `s` with every `c` replaced by `d`. */
  function Replace(s: string, c: char, d: char): (r: string)
    ensures |r| == |s|
    ensures forall k :: 0 <= k < |s| ==> r[k] == if s[k] == c then d else s[k]
  {
    if s == [] then "" else [if s[0] == c then d else s[0]] + Replace(s[1..], c, d)
  }

  // ---------------------------------------------------------------------------
  // Lemmas

  /** `Find` from `from` is `p` when `s[p]` is the first `c` from there on. */
  lemma FindAt(s: string, c: char, from: nat, p: nat)
    requires from <= p < |s| && s[p] == c
    requires forall k :: from <= k < p ==> s[k] != c
    ensures Find(s, c, from) == p
  {
  }

  /** The trimmed string is the slice of `s` between its leading and its
      trailing white space. */
  lemma {:induction false} TrimSlice(s: string)
    ensures |s| - |TrimLeft(s)| + |Trim(s)| <= |s|
    ensures Trim(s) == s[|s| - |TrimLeft(s)|..|s| - |TrimLeft(s)| + |Trim(s)|]
    ensures forall k :: 0 <= k < |s| - |TrimLeft(s)| ==> IsSpace(s[k])
    ensures forall k :: |s| - |TrimLeft(s)| + |Trim(s)| <= k < |s| ==> IsSpace(s[k])
  {
    TrimSliceRight(s);
    TrimSliceTail(s);
  }

  /** `TrimSlice` without its leading white space: the trimmed string sits
      in `s` right after what `trimStart` cut off. */
  lemma TrimSliceRight(s: string)
    ensures |s| - |TrimLeft(s)| + |Trim(s)| <= |s|
    ensures Trim(s) == s[|s| - |TrimLeft(s)|..|s| - |TrimLeft(s)| + |Trim(s)|]
  {
    var l := TrimLeft(s);
    var a := |s| - |l|;
    assert l == s[a..];
    TrimRightInside(s, a, l);
    assert Trim(s) == TrimRight(l);
  }

  /** What follows the trimmed string in `s` is white space. */
  lemma TrimSliceTail(s: string)
    ensures forall k :: |s| - |TrimLeft(s)| + |Trim(s)| <= k < |s| ==> IsSpace(s[k])
  {
    var l := TrimLeft(s);
    TrimRightInside(s, |s| - |l|, l);
  }



  /** `TrimRight` of a suffix `l` of `s`, read in `s`. */
  lemma TrimRightInside(s: string, a: nat, l: string)
    requires a <= |s| && l == s[a..]
    ensures var t := TrimRight(l);
            a + |t| <= |s| && t == s[a..a + |t|] &&
            forall k :: a + |t| <= k < |s| ==> IsSpace(s[k])
  {
    var t := TrimRight(l);
    forall k | a + |t| <= k < |s| ensures IsSpace(s[k]) {
      assert s[k] == l[k - a];
    }
  }

  /** Every character of the trimmed string occurs in the string. */
  lemma TrimInside(s: string, j: nat)
    requires j < |Trim(s)|
    ensures Trim(s)[j] in s
  {
    TrimSlice(s);
    var a := |s| - |TrimLeft(s)|;
    assert Trim(s)[j] == s[a + j];
  }

  /** A string without white space is its own trimming. */
  lemma TrimNoSpace(s: string)
    requires forall k :: 0 <= k < |s| ==> !IsSpace(s[k])
    ensures Trim(s) == s
  {
    assert TrimLeft(s) == s;
  }

  /** Leading white space before a non-space is trimmed away, and the
      non-space becomes the first character. */
  lemma {:induction false} TrimAfterSpaces(ws: string, x: string)
    requires forall k :: 0 <= k < |ws| ==> IsSpace(ws[k])
    requires x != [] && !IsSpace(x[0])
    ensures TrimLeft(ws + x) == x
    ensures Trim(ws + x) != [] && Trim(ws + x)[0] == x[0]
    decreases |ws|
  {
    if ws == [] {
      assert ws + x == x;
    } else {
      assert (ws + x)[1..] == ws[1..] + x;
      TrimAfterSpaces(ws[1..], x);
    }
  }

  /** A character of `s` that is not white space survives trimming at the
      same offset from the first non-space. */
  lemma TrimKeeps(s: string, p: nat)
    requires p < |s| && !IsSpace(s[p])
    ensures var a := |s| - |TrimLeft(s)|;
            a <= p < a + |Trim(s)| && Trim(s)[p - a] == s[p]
  {
    TrimSlice(s);
  }

  /** A string that starts with a non-space keeps its first character. */
  lemma TrimFirst(s: string)
    requires |s| > 0 && !IsSpace(s[0])
    ensures |Trim(s)| > 0 && Trim(s)[0] == s[0]
  {
    TrimKeeps(s, 0);
  }

  /** Splitting the empty string gives one empty piece. */
  lemma SplitEmpty(c: char)
    ensures Split("", c) == [""]
  {
  }

  /** A prefix without the separator joins the first piece. */
  lemma {:induction false} SplitPrefix(a: string, s: string, c: char)
    requires c !in a
    ensures Split(a + s, c) == [a + Split(s, c)[0]] + Split(s, c)[1..]
    decreases |a|
  {
    var r := Split(s, c);
    if a == [] {
      assert a + s == s;
      assert a + r[0] == r[0];
      assert [a + r[0]] + r[1..] == r;
    } else {
      assert (a + s)[1..] == a[1..] + s;
      assert (a + s)[0] == a[0] && a[0] != c;
      SplitPrefix(a[1..], s, c);
      var rest := Split(a[1..] + s, c);
      assert rest == [a[1..] + r[0]] + r[1..];
      assert rest[1..] == r[1..];
      assert [a[0]] + (a[1..] + r[0]) == a + r[0];
    }
  }

  /** A string without the separator is its own single piece. */
  lemma SplitNoSep(s: string, c: char)
    requires c !in s
    ensures Split(s, c) == [s]
  {
    SplitPrefix(s, "", c);
    assert s + "" == s;
  }

  /** A suffix without the separator joins the last piece. */
  lemma {:induction false} SplitSuffix(s: string, b: string, c: char)
    requires c !in b
    ensures var r := Split(s, c);
            Split(s + b, c) == r[..|r| - 1] + [r[|r| - 1] + b]
    decreases |s|
  {
    if s == [] {
      assert s + b == b;
      SplitNoSep(b, c);
    } else {
      SplitSuffix(s[1..], b, c);
      assert s == [s[0]] + s[1..];
      assert s + b == [s[0]] + (s[1..] + b);
      SuffixCons(s[0], s[1..], b, c);
    }
  }

  /** How `Split` treats the first character. */
  lemma SplitFirst(x: char, t: string, c: char)
    ensures Split([x] + t, c) ==
            if x == c then [""] + Split(t, c) else [[x] + Split(t, c)[0]] + Split(t, c)[1..]
  {
    assert ([x] + t)[1..] == t;
  }

  /** `SplitSuffix` for `[x] + t` from `SplitSuffix` for `t`. */
  lemma SuffixCons(x: char, t: string, b: string, c: char)
    requires var r := Split(t, c); Split(t + b, c) == r[..|r| - 1] + [r[|r| - 1] + b]
    ensures var r := Split([x] + t, c); Split([x] + (t + b), c) == r[..|r| - 1] + [r[|r| - 1] + b]
  {
    var r := Split(t, c);
    var q := Split(t + b, c);
    SplitFirst(x, t, c);
    SplitFirst(x, t + b, c);
    if x == c {
      GrowAfterHead("", r, b);
    } else {
      GrowWithHead(x, r, b);
    }
  }

  /** The last of the pieces after a new first piece grows by `b`. */
  lemma GrowAfterHead(h: string, r: seq<string>, b: string)
    requires |r| >= 1
    ensures var g := [h] + r;
            [h] + (r[..|r| - 1] + [r[|r| - 1] + b]) == g[..|g| - 1] + [g[|g| - 1] + b]
  {
    var g := [h] + r;
    assert g[..|g| - 1] == [h] + r[..|r| - 1];
  }

  /** The last of the pieces grows by `b` when the first one gains `x`. */
  lemma GrowWithHead(x: char, r: seq<string>, b: string)
    requires |r| >= 1
    ensures var q := r[..|r| - 1] + [r[|r| - 1] + b];
            var g := [[x] + r[0]] + r[1..];
            [[x] + q[0]] + q[1..] == g[..|g| - 1] + [g[|g| - 1] + b]
  {
    var n := |r|;
    var q := r[..n - 1] + [r[n - 1] + b];
    var g := [[x] + r[0]] + r[1..];
    if n == 1 {
      assert [x] + (r[0] + b) == ([x] + r[0]) + b;
    } else {
      assert q[0] == r[0] && q[1..] == r[1..n - 1] + [r[n - 1] + b];
      assert g[..n - 1] == [[x] + r[0]] + r[1..n - 1];
    }
  }

  /** A separator splits the string into the pieces of either side. */
  lemma {:induction false} SplitSep(a: string, b: string, c: char)
    ensures Split(a + [c] + b, c) == Split(a, c) + Split(b, c)
    decreases |a|
  {
    if a == [] {
      assert a + [c] + b == [c] + b;
      assert ([c] + b)[1..] == b;
    } else {
      assert (a + [c] + b)[1..] == a[1..] + [c] + b;
      SplitSep(a[1..], b, c);
    }
  }

  /** Joining the first piece with a character in front. */
  lemma JoinConsFirst(x: char, r: seq<string>, sep: string)
    requires |r| >= 1
    ensures Join([[x] + r[0]] + r[1..], sep) == [x] + Join(r, sep)
  {
    var xs := [[x] + r[0]] + r[1..];
    if |r| > 1 {
      assert xs[1..] == r[1..];
    }
  }

  /** Joining the pieces with the separator gives the string back. */
  lemma {:induction false} JoinSplit(s: string, c: char)
    ensures Join(Split(s, c), [c]) == s
    decreases |s|
  {
    if s != [] {
      var rest := Split(s[1..], c);
      JoinSplit(s[1..], c);
      if s[0] == c {
        assert ([""] + rest)[1..] == rest;
        assert Join([""] + rest, [c]) == "" + [c] + Join(rest, [c]);
        assert s == [s[0]] + s[1..];
      } else {
        JoinConsFirst(s[0], rest, [c]);
        assert s == [s[0]] + s[1..];
      }
    }
  }

  /** Joining the pieces with another separator replaces the old one. */
  lemma {:induction false} JoinSplitReplace(s: string, c: char, d: char)
    ensures Join(Split(s, c), [d]) == Replace(s, c, d)
    decreases |s|
  {
    if s != [] {
      var rest := Split(s[1..], c);
      JoinSplitReplace(s[1..], c, d);
      if s[0] == c {
        assert ([""] + rest)[1..] == rest;
        assert Join([""] + rest, [d]) == "" + [d] + Join(rest, [d]);
      } else {
        JoinConsFirst(s[0], rest, [d]);
      }
    }
  }

  /** Trailing white space does not reach `trimEnd`'s result. */
  lemma TrimRightSnoc(x: string, c: char)
    requires IsSpace(c)
    ensures TrimRight(x + [c]) == TrimRight(x)
  {
    assert (x + [c])[..|x|] == x;
  }

  /** Appending a space after `trimStart`: it is kept unless everything
      was white space. */
  lemma {:induction false} TrimLeftSnoc(x: string, c: char)
    requires IsSpace(c)
    ensures TrimLeft(x + [c]) == TrimLeft(x) + [c] || (TrimLeft(x) == [] && TrimLeft(x + [c]) == [])
    decreases |x|
  {
    if x == [] {
      assert TrimLeft([c]) == TrimLeft([c][1..]);
    } else if IsSpace(x[0]) {
      assert (x + [c])[1..] == x[1..] + [c];
      TrimLeftSnoc(x[1..], c);
    }
  }

  /** Trailing white space does not reach `trimEnd`'s result, however much
      of it there is. */
  lemma {:induction false} TrimRightSpaces(x: string, ws: string)
    requires forall k :: 0 <= k < |ws| ==> IsSpace(ws[k])
    ensures TrimRight(x + ws) == TrimRight(x)
    decreases |ws|
  {
    if ws == [] {
      assert x + ws == x;
    } else {
      var n := |ws| - 1;
      assert x + ws == (x + ws[..n]) + [ws[n]];
      TrimRightSnoc(x + ws[..n], ws[n]);
      TrimRightSpaces(x, ws[..n]);
    }
  }

  /** White space around a string that starts and ends with a non-space is
      trimmed away. */
  lemma PaddedTrim(ws: string, x: string, ws2: string)
    requires forall k :: 0 <= k < |ws| ==> IsSpace(ws[k])
    requires forall k :: 0 <= k < |ws2| ==> IsSpace(ws2[k])
    requires x != [] && !IsSpace(x[0]) && !IsSpace(x[|x| - 1])
    ensures Trim(ws + x + ws2) == x
  {
    assert ws + x + ws2 == ws + (x + ws2);
    assert (x + ws2)[0] == x[0];
    TrimAfterSpaces(ws, x + ws2);
    TrimRightSpaces(x, ws2);
    assert TrimRight(x) == x;
  }

  /** A trailing white-space character does not change `trim`. */
  lemma TrimSnocSpace(x: string, c: char)
    requires IsSpace(c)
    ensures Trim(x + [c]) == Trim(x)
  {
    TrimLeftSnoc(x, c);
    if TrimLeft(x + [c]) == TrimLeft(x) + [c] {
      TrimRightSnoc(TrimLeft(x), c);
    }
  }

  /** Splitting a join of separator-free pieces gives the pieces back. */
  lemma {:induction false} SplitJoin(xs: seq<string>, c: char)
    requires |xs| >= 1
    requires forall k :: 0 <= k < |xs| ==> c !in xs[k]
    ensures Split(Join(xs, [c]), c) == xs
    decreases |xs|
  {
    if |xs| == 1 {
      SplitNoSep(xs[0], c);
    } else {
      SplitJoin(xs[1..], c);
      SplitNoSep(xs[0], c);
      SplitSep(xs[0], Join(xs[1..], [c]), c);
      assert [xs[0]] + xs[1..] == xs;
    }
  }

  /** Appending one line to a block of lines. */
  lemma {:induction false} LinesSnoc(ls: seq<string>, x: string)
    ensures Lines(ls + [x]) == Lines(ls) + x + "\n"
    decreases |ls|
  {
    if ls != [] {
      assert (ls + [x])[1..] == ls[1..] + [x];
      LinesSnoc(ls[1..], x);
    } else {
      assert ls + [x] == [x];
    }
  }

  /** A block of newline-terminated lines followed by an unterminated last
      line is the newline join of all of them. */
  lemma {:induction false} LinesJoin(mid: seq<string>, last: string)
    ensures Lines(mid) + last == Join(mid + [last], "\n")
    decreases |mid|
  {
    if mid == [] {
      assert mid + [last] == [last];
    } else {
      assert (mid + [last])[1..] == mid[1..] + [last];
      LinesJoin(mid[1..], last);
    }
  }

  /** No piece holds the separator. */
  lemma {:induction false} SplitFree(s: string, c: char)
    ensures forall k :: 0 <= k < |Split(s, c)| ==> c !in Split(s, c)[k]
    decreases |s|
  {
    if s != [] {
      SplitFree(s[1..], c);
    }
  }

  /** A character absent from `s` is absent from every piece. */
  lemma {:induction false} SplitChars(s: string, c: char, x: char)
    requires x !in s
    ensures forall k :: 0 <= k < |Split(s, c)| ==> x !in Split(s, c)[k]
    decreases |s|
  {
    if s != [] {
      assert s[0] in s;
      assert forall y :: y in s[1..] ==> y in s;
      SplitChars(s[1..], c, x);
    }
  }

  /** A string holding the separator has at least two pieces. */
  lemma SplitMany(s: string, c: char)
    requires c in s
    ensures |Split(s, c)| >= 2
  {
    JoinSplit(s, c);
  }

  /** The pieces of a string holding the separator: the first one, a newline,
      the middle ones as lines, and the last one. */
  lemma SplitPieces(s: string)
    requires '\n' in s
    ensures var ps := Split(s, '\n');
            |ps| >= 2 && s == ps[0] + "\n" + Lines(ps[1..|ps| - 1]) + ps[|ps| - 1]
  {
    SplitMany(s, '\n');
    JoinSplit(s, '\n');
    JoinPieces(Split(s, '\n'));
  }

  /** The first element, then the rest followed by `ys`. */
  lemma ConsAppend<T>(xs: seq<T>, ys: seq<T>)
    requires |xs| >= 1
    ensures [xs[0]] + (xs[1..] + ys) == xs + ys
  {
  }

  /** A sequence framed by `e` on both sides. */
  lemma Framed<T>(e: T, x: T, mid: seq<T>, y: T)
    ensures [e] + ([x] + mid + [y]) + [e] == [e, x] + mid + [y, e]
  {
  }

  /** A non-empty tail of a sequence is its middle and its last element. */
  lemma DropLast<T>(xs: seq<T>, i: nat)
    requires i < |xs|
    ensures xs[i..] == xs[i..|xs| - 1] + [xs[|xs| - 1]]
  {
  }

  /** At least two pieces joined with newlines: the first, a newline, the
      middle ones as lines, and the last. */
  lemma {:induction false} JoinPieces(ps: seq<string>)
    requires |ps| >= 2
    ensures Join(ps, "\n") == ps[0] + "\n" + Lines(ps[1..|ps| - 1]) + ps[|ps| - 1]
  {
    var mid := ps[1..|ps| - 1];
    var last := ps[|ps| - 1];
    LinesJoin(mid, last);
    DropLast(ps, 1);
    assert ps[0] + "\n" + (Lines(mid) + last) == ps[0] + "\n" + Lines(mid) + last;
  }

  /** Newline-terminated lines followed by more text split into those lines
      and the pieces of the rest. */
  lemma {:induction false} SplitLines(ls: seq<string>, t: string)
    requires forall k :: 0 <= k < |ls| ==> '\n' !in ls[k]
    ensures Split(Lines(ls) + t, '\n') == ls + Split(t, '\n')
    decreases |ls|
  {
    if ls == [] {
      assert Lines(ls) + t == t;
    } else {
      SplitLines(ls[1..], t);
      LinesCons(ls, t);
      SplitCons(ls[0], Lines(ls[1..]) + t, '\n');
      ConsAppend(ls, Split(t, '\n'));
    }
  }

  /** The first line of a block, then the rest of the block and more text. */
  lemma LinesCons(ls: seq<string>, t: string)
    requires ls != []
    ensures Lines(ls) + t == ls[0] + ['\n'] + (Lines(ls[1..]) + t)
  {
  }

  /** A piece without the separator, the separator, and the rest. */
  lemma SplitCons(a: string, rest: string, c: char)
    requires c !in a
    ensures Split(a + [c] + rest, c) == [a] + Split(rest, c)
  {
    SplitSep(a, rest, c);
    SplitNoSep(a, c);
  }

  /** Multiplying by a natural number keeps the order. */
  lemma MulMono(a: nat, b: nat, m: nat)
    requires a <= b
    ensures a * m <= b * m
  {
  }

  /** The character at each index of a repetition: copy `q` of `s`, offset `j`. */
  lemma {:induction false} RepeatAt(s: string, n: nat, q: nat, j: nat)
    requires j < |s| && q < n
    ensures q * |s| + j < |Repeat(s, n)| && Repeat(s, n)[q * |s| + j] == s[j]
    decreases q
  {
    assert Repeat(s, n) == s + Repeat(s, n - 1);
    MulMono(q + 1, n, |s|);
    assert q * |s| + j < (q + 1) * |s|;
    if q > 0 {
      assert q * |s| == |s| + (q - 1) * |s|;
      RepeatAt(s, n - 1, q - 1, j);
    }
  }

  /** Removing a character distributes over concatenation. */
  lemma {:induction false} RemoveAllConcat(a: string, b: string, c: char)
    ensures RemoveAll(a + b, c) == RemoveAll(a, c) + RemoveAll(b, c)
    decreases |a|
  {
    if a == [] {
      assert a + b == b;
    } else {
      assert (a + b)[1..] == a[1..] + b;
      RemoveAllConcat(a[1..], b, c);
    }
  }

  /** Removing a character that does not occur changes nothing. */
  lemma {:induction false} RemoveAllAbsent(s: string, c: char)
    requires c !in s
    ensures RemoveAll(s, c) == s
    decreases |s|
  {
    if s != [] {
      RemoveAllAbsent(s[1..], c);
      assert s == [s[0]] + s[1..];
    }
  }

  /** Removing the one occurrence of `x` between two `x`-free strings. */
  lemma RemoveOne(a: string, x: char, c: string)
    requires x !in a && x !in c
    ensures RemoveAll(a + [x] + c, x) == a + c
  {
    RemoveAllConcat(a + [x], c, x);
    RemoveAllConcat(a, [x], x);
    RemoveAllAbsent(a, x);
    RemoveAllAbsent(c, x);
    assert [x][1..] == [];
    assert RemoveAll([x], x) == [];
    assert RemoveAll(a + [x], x) == a;
  }
}
