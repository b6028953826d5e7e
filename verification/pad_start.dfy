/**
 * The `String.prototype.padStart` fallback installed on engines without it:
 * the string padded on the left, by repeating the pad string, to the target
 * length.
 */
module PadStart {
  import opened Common
  import opened Strings

  /** `n >> 0` for an integral number: the signed 32-bit integer congruent to
      `n` modulo 2^32. */
  function ToInt32(n: int): (r: int)
    ensures -0x8000_0000 <= r < 0x8000_0000
    ensures (r - n) % 0x1_0000_0000 == 0
  {
    (n + 0x8000_0000) % 0x1_0000_0000 - 0x8000_0000
  }

  /** `String(padString || ' ')`: a missing or empty pad string is one space. */
  function PadText(padString: Option<string>): (p: string)
    ensures p != ""
    ensures padString.Some? && padString.value != "" ==> p == padString.value
  {
    if padString.Some? && padString.value != "" then padString.value else " "
  }

  /** `s.padStart(targetLength, padString)`. */
  function Pad(s: string, targetLength: int, padString: Option<string>): (r: string)
    ensures var t := ToInt32(targetLength);
            |r| == (if |s| > t then |s| else t)
    ensures |r| >= |s| && r[|r| - |s|..] == s
  {
    var t := ToInt32(targetLength);
    var p := PadText(padString);
    if |s| > t then s
    else
      var fill := t - |s|;
      var long := if fill > |p| then p + Repeat(p, fill / |p|) else p;
      assert |long| >= fill by {
        if fill > |p| {
          assert |Repeat(p, fill / |p|)| == (fill / |p|) * |p|;
        }
      }
      long[..fill] + s
  }

  /** The padding is the pad string over and over: its character at
      `q * |p| + j` is `p[j]`. */
  lemma PadCycles(s: string, targetLength: int, padString: Option<string>, q: nat, j: nat)
    requires var t := ToInt32(targetLength);
             j < |PadText(padString)| && q * |PadText(padString)| + j < t - |s|
    ensures Pad(s, targetLength, padString)[q * |PadText(padString)| + j] == PadText(padString)[j]
  {
    var t := ToInt32(targetLength);
    var p := PadText(padString);
    var fill := t - |s|;
    if fill > |p| {
      QuotientBound(|p|, fill, q);
      LongAt(p, fill / |p|, q, j);
    } else {
      assert q == 0 by {
        if q > 0 {
          MulMono(1, q, |p|);
        }
      }
    }
  }

  /** `q * m < fill` bounds `q` by the quotient. */
  lemma QuotientBound(m: nat, fill: nat, q: nat)
    requires m > 0 && q * m < fill
    ensures q <= fill / m
  {
    var n := fill / m;
    if q > n {
      MulMono(n + 1, q, m);
    }
  }

  /** The pad string followed by `n` more copies holds `p[j]` at
      `q * |p| + j` for every `q <= n`. */
  lemma LongAt(p: string, n: nat, q: nat, j: nat)
    requires j < |p| && q <= n
    ensures q * |p| + j < |p + Repeat(p, n)| && (p + Repeat(p, n))[q * |p| + j] == p[j]
  {
    if q > 0 {
      RepeatAt(p, n, q - 1, j);
      assert q * |p| == |p| + (q - 1) * |p|;
    }
  }

  /** A string at least as long as the target is returned unchanged. */
  lemma LongEnough(s: string, targetLength: int, padString: Option<string>)
    requires |s| >= ToInt32(targetLength)
    ensures Pad(s, targetLength, padString) == s
  {
    var t := ToInt32(targetLength);
    if |s| == t {
      assert Pad(s, targetLength, padString) == ""[..0] + s;
    }
  }
}
