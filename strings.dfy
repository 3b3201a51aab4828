/** The few JavaScript string operations the client relies on, with the
    behaviour of their ECMAScript definitions: `\s` and `trim`, an ASCII
    case-insensitive prefix test (what a `/i` regular expression does for
    the ASCII letters of its pattern), `indexOf`, `replace` with a string
    pattern, and `split` on a one-character separator. */
module Strings {

  /** ECMAScript WhiteSpace and LineTerminator code points: exactly what
      `\s` matches and what `String.prototype.trim` removes. */
  predicate IsJsWhitespace(c: char) {
    var n := c as int;
    n == 0x09 || n == 0x0A || n == 0x0B || n == 0x0C || n == 0x0D
    || n == 0x20 || n == 0xA0 || n == 0x1680 || (0x2000 <= n <= 0x200A)
    || n == 0x2028 || n == 0x2029 || n == 0x202F || n == 0x205F
    || n == 0x3000 || n == 0xFEFF
  }

  /** Every character of `s` from `lo` up to `hi` is whitespace. */
  predicate WhitespaceBetween(s: string, lo: int, hi: int) {
    forall i :: lo <= i < hi && 0 <= i < |s| ==> IsJsWhitespace(s[i])
  }

  /** Where a greedy `\s*` that starts at `i` stops: the run from `i` up
      to the result is whitespace, and the character there (if any) is not. */
  function SkipWhitespace(s: string, i: nat): (j: nat)
    requires i <= |s|
    ensures i <= j <= |s|
    ensures WhitespaceBetween(s, i, j)
    ensures j < |s| ==> !IsJsWhitespace(s[j])
    decreases |s| - i
  {
    if i < |s| && IsJsWhitespace(s[i]) then SkipWhitespace(s, i + 1) else i
  }

  /** Where a run of whitespace that ends at `j` starts, looking no further
      back than `lo`: the run from the result up to `j` is whitespace, and
      the character before it (if it is after `lo`) is not. */
  function SkipWhitespaceBack(s: string, lo: nat, j: nat): (k: nat)
    requires lo <= j <= |s|
    ensures lo <= k <= j
    ensures WhitespaceBetween(s, k, j)
    ensures lo < k ==> !IsJsWhitespace(s[k - 1])
    decreases j - lo
  {
    if lo < j && IsJsWhitespace(s[j - 1]) then SkipWhitespaceBack(s, lo, j - 1) else j
  }

  /** A greedy `\s*` from `i` over whitespace up to `j`, followed
      by a character that is not whitespace (or by nothing), stops at `j`. */
  lemma {:induction false} LeadingWhitespaceDropped(s: string, i: nat, j: nat)
    requires i <= j <= |s|
    requires WhitespaceBetween(s, i, j)
    requires j < |s| ==> !IsJsWhitespace(s[j])
    ensures SkipWhitespace(s, i) == j
    decreases j - i
  {
    if i < j {
      LeadingWhitespaceDropped(s, i + 1, j);
    }
  }

  /** `String.prototype.trim`: the result is the piece of `s` between its
      leading run of whitespace and its trailing run of whitespace, and
      neither end of the result is whitespace. */
  function Trim(s: string): (r: string)
    ensures var k := SkipWhitespace(s, 0);
      && k + |r| <= |s| && r == s[k..k + |r|]
      && WhitespaceBetween(s, 0, k) && WhitespaceBetween(s, k + |r|, |s|)
    ensures |r| > 0 ==> !IsJsWhitespace(r[0]) && !IsJsWhitespace(r[|r| - 1])
  {
    var k := SkipWhitespace(s, 0);
    var e := SkipWhitespaceBack(s, k, |s|);
    assert e > k ==> s[k..e][0] == s[k] && s[k..e][e - k - 1] == s[e - 1];
    s[k..e]
  }

  /** `trim` changes a string exactly when one of its ends is whitespace. */
  lemma TrimUnchanged(s: string)
    ensures Trim(s) == s <==> (|s| == 0 || (!IsJsWhitespace(s[0]) && !IsJsWhitespace(s[|s| - 1])))
  {
    if |s| > 0 && !IsJsWhitespace(s[0]) && !IsJsWhitespace(s[|s| - 1]) {
      TrimOfClean(s);
    }
  }

  /** Helper: a string whose ends are not whitespace is its own trim. */
  lemma TrimOfClean(s: string)
    requires |s| > 0 && !IsJsWhitespace(s[0]) && !IsJsWhitespace(s[|s| - 1])
    ensures Trim(s) == s
  {
    assert SkipWhitespace(s, 0) == 0;
    assert SkipWhitespaceBack(s, 0, |s|) == |s|;
    assert s[0..|s|] == s;
  }

  /** A string of whitespace only, split anywhere, trims to nothing. */
  lemma TrimBlank(a: string, b: string)
    requires WhitespaceBetween(a, 0, |a|) && WhitespaceBetween(b, 0, |b|)
    ensures Trim(a + b) == ""
  {
    var s := a + b;
    assert WhitespaceBetween(s, 0, |s|) by {
      forall i | 0 <= i < |s| ensures IsJsWhitespace(s[i]) {
        if i < |a| { assert s[i] == a[i]; } else { assert s[i] == b[i - |a|]; }
      }
    }
    LeadingWhitespaceDropped(s, 0, |s|);
  }

  /** A token whose ends are not whitespace, with whitespace on either
      side, trims to the token. */
  lemma TrimPadded(before: string, t: string, after: string)
    requires WhitespaceBetween(before, 0, |before|) && WhitespaceBetween(after, 0, |after|)
    requires |t| > 0 && !IsJsWhitespace(t[0]) && !IsJsWhitespace(t[|t| - 1])
    ensures Trim(before + t + after) == t
  {
    var s := before + t + after;
    var k := |before|;
    assert WhitespaceBetween(s, 0, k) by {
      forall i | 0 <= i < k ensures IsJsWhitespace(s[i]) { assert s[i] == before[i]; }
    }
    assert s[k] == t[0];
    LeadingWhitespaceDropped(s, 0, k);
    var r := Trim(s);
    assert s[k + |t| - 1] == t[|t| - 1];
    assert |r| >= |t|;
    assert |r| <= |t|;
    assert s[k..k + |t|] == t;
  }

  /** Every character of `Trim(s)` is a character of `s`. */
  lemma TrimKeepsCharacters(s: string, c: char)
    ensures c in Trim(s) ==> c in s
  {
    if c in Trim(s) {
      var k := SkipWhitespace(s, 0);
      var r := Trim(s);
      var i :| 0 <= i < |r| && r[i] == c;
      assert s[k + i] == c;
    }
  }

  /** Lower-cases the ASCII capital letters and leaves every other
      character alone. */
  function AsciiLower(c: char): char {
    if 'A' <= c <= 'Z' then (c as int + 32) as char else c
  }

  /** `s` begins with `word` when ASCII letters are compared without regard
      to case; `word` is written in lower case. This is how a `/i` pattern
      made of ASCII characters matches: no non-ASCII character folds onto an
      ASCII one. */
  predicate StartsWithIgnoreCase(s: string, word: string) {
    |word| <= |s| && forall i :: 0 <= i < |word| ==> AsciiLower(s[i]) == word[i]
  }

  /** `p` occurs in `s` at offset `k`. */
  predicate OccursAt(s: string, p: string, k: int) {
    0 <= k && k + |p| <= |s| && s[k..k + |p|] == p
  }

  /** `indexOf` from position `from` on. */
  function IndexFrom(s: string, p: string, from: nat): (r: int)
    requires from <= |s| + 1
    ensures r == -1 || (from <= r && OccursAt(s, p, r))
    ensures r == -1 ==> forall k :: from <= k ==> !OccursAt(s, p, k)
    ensures r != -1 ==> forall k :: from <= k < r ==> !OccursAt(s, p, k)
    decreases |s| + 1 - from
  {
    if from + |p| > |s| then -1
    else if s[from..from + |p|] == p then from
    else IndexFrom(s, p, from + 1)
  }

  /** `String.prototype.indexOf`: the first offset at which `p` occurs in
      `s`, or -1 when it occurs nowhere. */
  function IndexOf(s: string, p: string): (r: int)
    ensures r == -1 <==> forall k :: !OccursAt(s, p, k)
    ensures r != -1 ==> OccursAt(s, p, r) && forall k :: 0 <= k < r ==> !OccursAt(s, p, k)
  {
    IndexFrom(s, p, 0)
  }

  /** `s.replace(p, rep)` with a string pattern: only the FIRST occurrence
      of `p`, wherever it stands, is replaced. */
  function ReplaceFirst(s: string, p: string, rep: string): string {
    var i := IndexOf(s, p);
    if i == -1 then s else s[..i] + rep + s[i + |p|..]
  }

  /** A string that starts with `p` loses exactly that prefix; a string
      in which `p` does not occur is returned unchanged. */
  lemma ReplaceFirstCases(s: string, p: string, rep: string)
    ensures |p| <= |s| && s[..|p|] == p ==> ReplaceFirst(s, p, rep) == rep + s[|p|..]
    ensures (forall k :: !OccursAt(s, p, k)) ==> ReplaceFirst(s, p, rep) == s
  {
    if |p| <= |s| && s[..|p|] == p {
      assert OccursAt(s, p, 0);
      assert IndexOf(s, p) == 0;
      assert s[..0] == [];
    }
  }

  /** `parts.join(sep)` for a one-character separator. */
  function Join(parts: seq<string>, sep: char): string {
    if |parts| == 0 then ""
    else if |parts| == 1 then parts[0]
    else parts[0] + [sep] + Join(parts[1..], sep)
  }

  /** Every character of a piece is a character of the join. */
  lemma {:induction false} JoinKeepsCharacters(parts: seq<string>, sep: char, i: nat, c: char)
    requires i < |parts| && c in parts[i]
    ensures c in Join(parts, sep)
    decreases i
  {
    if |parts| > 1 {
      var k :| 0 <= k < |parts[i]| && parts[i][k] == c;
      if i == 0 {
        assert Join(parts, sep)[k] == c;
      } else {
        assert parts[1..][i - 1] == parts[i];
        JoinKeepsCharacters(parts[1..], sep, i - 1, c);
        var j :| 0 <= j < |Join(parts[1..], sep)| && Join(parts[1..], sep)[j] == c;
        assert Join(parts, sep)[|parts[0]| + 1 + j] == c;
      }
    }
  }

  /** `s.split(sep)` for a one-character separator: always at least one
      piece, no piece holds the separator, and joining the pieces gives
      back `s`. */
  function Split(s: string, sep: char): (r: seq<string>)
    ensures |r| >= 1
    ensures forall i :: 0 <= i < |r| ==> sep !in r[i]
    ensures Join(r, sep) == s
  {
    if |s| == 0 then [""]
    else
      var rest := Split(s[1..], sep);
      if s[0] == sep then
        assert Join([""] + rest, sep) == [sep] + Join(rest, sep) by {
          assert ([""] + rest)[1..] == rest;
        }
        assert s == [sep] + s[1..];
        [""] + rest
      else
        var r := [[s[0]] + rest[0]] + rest[1..];
        assert Join(r, sep) == [s[0]] + Join(rest, sep) by {
          if |rest| > 1 {
            assert r[1..] == rest[1..];
            assert Join(rest, sep) == rest[0] + [sep] + Join(rest[1..], sep);
          }
        }
        assert s == [s[0]] + s[1..];
        r
  }

  /** A piece without the separator splits to itself, and splitting stops
      at the first separator. */
  lemma {:induction false} SplitAfterPiece(t: string, sep: char, u: string)
    requires sep !in t
    ensures Split(t, sep) == [t]
    ensures Split(t + [sep] + u, sep) == [t] + Split(u, sep)
  {
    if |t| == 0 {
      assert t + [sep] + u == [sep] + u;
      assert ([sep] + u)[1..] == u;
    } else {
      SplitAfterPiece(t[1..], sep, u);
      assert (t + [sep] + u)[1..] == t[1..] + [sep] + u;
      assert [t[0]] + t[1..] == t;
    }
  }

  /** Splitting a join of separator-free pieces gives the pieces back. */
  lemma {:induction false} SplitJoin(parts: seq<string>, sep: char)
    requires |parts| >= 1
    requires forall i :: 0 <= i < |parts| ==> sep !in parts[i]
    ensures Split(Join(parts, sep), sep) == parts
  {
    if |parts| == 1 {
      SplitAfterPiece(parts[0], sep, "");
    } else {
      SplitJoin(parts[1..], sep);
      SplitAfterPiece(parts[0], sep, Join(parts[1..], sep));
      assert [parts[0]] + parts[1..] == parts;
    }
  }
}
