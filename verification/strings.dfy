/**
 * The handful of Python `str` operations the sync command and the views rely
 * on: `lower`, `startswith`, `replace` with a one-character needle, `lstrip`
 * with a one-character set, and `", ".join`.
 */
module Strings {

  /** `str.lower` on one character; only the ASCII letters A-Z are mapped. */
  function LowerChar(c: char): char {
    if 'A' <= c <= 'Z' then (c as int + 32) as char else c
  }

  /** `s.lower()`, character by character. */
  function Lower(s: string): (r: string)
    ensures |r| == |s|
    ensures forall i :: 0 <= i < |s| ==> r[i] == LowerChar(s[i])
  {
    seq(|s|, i requires 0 <= i < |s| => LowerChar(s[i]))
  }

  /** `s.startswith(p)`. */
  predicate StartsWith(s: string, p: string) {
    |p| <= |s| && s[..|p|] == p
  }

  /** A prefix that holds with case kept also holds once both sides are lower-cased. */
  lemma LowerKeepsPrefix(s: string, p: string)
    requires StartsWith(s, p)
    ensures StartsWith(Lower(s), Lower(p))
  {
    assert Lower(s)[..|p|] == Lower(p) by {
      forall i | 0 <= i < |p| ensures Lower(s)[..|p|][i] == Lower(p)[i] {
        assert s[i] == s[..|p|][i];
      }
    }
  }

  /** `s.replace(c, rep)`: every occurrence of `c`, not only the last, is rewritten. */
  function ReplaceAll(s: string, c: char, rep: string): (r: string)
    decreases |s|
  {
    if s == [] then []
    else (if s[0] == c then rep else [s[0]]) + ReplaceAll(s[1..], c, rep)
  }

  /** Replacing distributes over concatenation. */
  lemma {:induction false} ReplaceAllAppend(a: string, b: string, c: char, rep: string)
    ensures ReplaceAll(a + b, c, rep) == ReplaceAll(a, c, rep) + ReplaceAll(b, c, rep)
    decreases |a|
  {
    if a == [] {
      assert a + b == b;
    } else {
      assert (a + b)[0] == a[0];
      assert (a + b)[1..] == a[1..] + b;
      ReplaceAllAppend(a[1..], b, c, rep);
    }
  }

  /** When the replacement does not contain `c`, no `c` is left afterwards. */
  lemma {:induction false} ReplaceAllRemoves(s: string, c: char, rep: string)
    requires c !in rep
    ensures c !in ReplaceAll(s, c, rep)
    decreases |s|
  {
    if s != [] {
      ReplaceAllRemoves(s[1..], c, rep);
    }
  }

  /** A text without `c` is left as it is. */
  lemma {:induction false} ReplaceAllUnchanged(s: string, c: char, rep: string)
    requires c !in s
    ensures ReplaceAll(s, c, rep) == s
    decreases |s|
  {
    if s != [] {
      assert s[0] != c;
      assert c !in s[1..] by {
        forall i | 0 <= i < |s[1..]| ensures s[1..][i] != c {
          assert s[1..][i] == s[i + 1];
        }
      }
      ReplaceAllUnchanged(s[1..], c, rep);
      assert s == [s[0]] + s[1..];
    }
  }

  /** Rewriting twice is the same as rewriting once. */
  lemma ReplaceAllIdempotent(s: string, c: char, rep: string)
    requires c !in rep
    ensures ReplaceAll(ReplaceAll(s, c, rep), c, rep) == ReplaceAll(s, c, rep)
  {
    ReplaceAllRemoves(s, c, rep);
    ReplaceAllUnchanged(ReplaceAll(s, c, rep), c, rep);
  }

  /** `s.lstrip(c)`: drop every leading `c`. */
  function LStrip(s: string, c: char): (r: string)
    decreases |s|
  {
    if s != [] && s[0] == c then LStrip(s[1..], c) else s
  }

  /** `n` copies of `c`. */
  function Repeat(c: char, n: nat): (r: string)
    ensures |r| == n
    ensures forall i :: 0 <= i < n ==> r[i] == c
  {
    if n == 0 then [] else [c] + Repeat(c, n - 1)
  }

  /** `s` is a run of `c` followed by `LStrip(s, c)`, which does not itself start with `c`. */
  lemma {:induction false} LStripSplits(s: string, c: char)
    ensures |LStrip(s, c)| <= |s|
    ensures s == Repeat(c, |s| - |LStrip(s, c)|) + LStrip(s, c)
    ensures LStrip(s, c) == [] || LStrip(s, c)[0] != c
    decreases |s|
  {
    if s != [] && s[0] == c {
      LStripSplits(s[1..], c);
      var k := |s[1..]| - |LStrip(s[1..], c)|;
      assert Repeat(c, k + 1) == [c] + Repeat(c, k);
      assert s == [c] + s[1..];
    }
  }

  /** Stripping a run of `c` from a text that does not otherwise start with `c` leaves that text. */
  lemma {:induction false} LStripRepeat(t: string, c: char, n: nat)
    requires t == [] || t[0] != c
    ensures LStrip(Repeat(c, n) + t, c) == t
    decreases n
  {
    if n > 0 {
      var s := Repeat(c, n) + t;
      assert s[0] == c;
      assert s[1..] == Repeat(c, n - 1) + t;
      LStripRepeat(t, c, n - 1);
    }
  }

  /** `sep.join(parts)`. */
  function Join(sep: string, parts: seq<string>): (r: string)
    decreases |parts|
  {
    if parts == [] then ""
    else if |parts| == 1 then parts[0]
    else parts[0] + sep + Join(sep, parts[1..])
  }
}
