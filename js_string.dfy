/**
 * The JavaScript string built-ins the plugin relies on, over Dafny strings:
 * `String.prototype.trim`, `indexOf` / `replace` with a string pattern, and
 * `Array.prototype.join('\n')` together with its inverse, splitting at '\n'.
 */
module JsString {
  import opened Wrappers

  // ---------------------------------------------------------------------------
  // trim
  // ---------------------------------------------------------------------------

  /** The characters `trim` removes: ECMAScript WhiteSpace and LineTerminator code points. */
  predicate IsWhitespace(c: char) {
    var n := c as int;
    (9 <= n <= 13) || n == 0x20 || n == 0xA0 || n == 0x1680 || (0x2000 <= n <= 0x200A)
    || n == 0x2028 || n == 0x2029 || n == 0x202F || n == 0x205F || n == 0x3000 || n == 0xFEFF
  }

  predicate AllWhitespace(s: string) {
    forall i :: 0 <= i < |s| ==> IsWhitespace(s[i])
  }

  /** The number of whitespace characters `s` starts with. */
  function LeadingWhitespace(s: string): (n: nat)
    ensures n <= |s|
    ensures forall i :: 0 <= i < n ==> IsWhitespace(s[i])
    ensures n < |s| ==> !IsWhitespace(s[n])
    decreases |s|
  {
    if s != [] && IsWhitespace(s[0]) then
      var n := LeadingWhitespace(s[1..]);
      assert forall i :: 1 <= i < n + 1 ==> s[i] == s[1..][i - 1];
      n + 1
    else
      0
  }

  /** The number of whitespace characters `s` ends with. */
  function TrailingWhitespace(s: string): (m: nat)
    ensures m <= |s|
    ensures forall i :: |s| - m <= i < |s| ==> IsWhitespace(s[i])
    ensures m < |s| ==> !IsWhitespace(s[|s| - 1 - m])
    decreases |s|
  {
    if s != [] && IsWhitespace(s[|s| - 1]) then
      var m := TrailingWhitespace(s[..|s| - 1]);
      assert forall i :: 0 <= i < |s| - 1 ==> s[i] == s[..|s| - 1][i];
      m + 1
    else
      0
  }

  /** `String.prototype.trim`: `s` without its leading and trailing whitespace. */
  function Trim(s: string): (r: string)
    ensures |r| <= |s|
    ensures r == [] <==> AllWhitespace(s)
    ensures r != [] ==> !IsWhitespace(r[0]) && !IsWhitespace(r[|r| - 1])
  {
    var n := LeadingWhitespace(s);
    if n == |s| then
      []
    else
      var m := TrailingWhitespace(s);
      assert n < |s| - m;
      s[n..|s| - m]
  }

  /**
   * Trim is characterised independently of how it is computed: whenever `s` is
   * whitespace, then `mid`, then whitespace, and `mid` neither starts nor ends in
   * whitespace, the trimmed string is `mid`.
   */
  lemma TrimCharacterisation(pre: string, mid: string, post: string)
    requires AllWhitespace(pre) && AllWhitespace(post)
    requires mid != [] ==> !IsWhitespace(mid[0]) && !IsWhitespace(mid[|mid| - 1])
    ensures Trim(pre + mid + post) == mid
  {
    var s := pre + mid + post;
    assert forall i :: 0 <= i < |pre| ==> s[i] == pre[i];
    assert forall i :: 0 <= i < |post| ==> s[|pre| + |mid| + i] == post[i];
    if mid == [] {
      assert AllWhitespace(s) by {
        forall i | 0 <= i < |s| ensures IsWhitespace(s[i]) {
          if i >= |pre| { assert s[i] == post[i - |pre|]; }
        }
      }
    } else {
      assert s[|pre|] == mid[0];
      assert s[|pre| + |mid| - 1] == mid[|mid| - 1];
      var n, m := LeadingWhitespace(s), TrailingWhitespace(s);
      assert n == |pre|;
      assert m == |post|;
      assert s[n..|s| - m] == mid;
    }
  }

  /** Trimming twice is trimming once. */
  lemma TrimIdempotent(s: string)
    ensures Trim(Trim(s)) == Trim(s)
  {
    var r := Trim(s);
    assert [] + r + [] == r;
    TrimCharacterisation([], r, []);
  }

  // ---------------------------------------------------------------------------
  // indexOf and replace with a string pattern
  // ---------------------------------------------------------------------------

  /** `pat` occurs in `s` starting at position `i`. */
  predicate OccursAt(s: string, pat: string, i: nat) {
    i + |pat| <= |s| && s[i..i + |pat|] == pat
  }

  lemma OccursAtShift(s: string, pat: string)
    requires s != []
    ensures forall j: nat :: OccursAt(s, pat, j + 1) <==> OccursAt(s[1..], pat, j)
  {
    forall j: nat ensures OccursAt(s, pat, j + 1) <==> OccursAt(s[1..], pat, j) {
      if j + 1 + |pat| <= |s| {
        assert s[1..][j..j + |pat|] == s[j + 1..j + 1 + |pat|];
      }
    }
  }

  /** `String.prototype.indexOf`: the first position at which `pat` occurs, if any. */
  function IndexOf(s: string, pat: string): (r: Option<nat>)
    ensures r.Some? ==> OccursAt(s, pat, r.value)
    ensures r.Some? ==> forall j: nat :: j < r.value ==> !OccursAt(s, pat, j)
    ensures r.None? ==> forall j: nat :: !OccursAt(s, pat, j)
    decreases |s|
  {
    if |pat| <= |s| && s[..|pat|] == pat then
      Some(0)
    else if s == [] then
      None
    else
      OccursAtShift(s, pat);
      assert !OccursAt(s, pat, 0);
      assert forall j: nat :: j > 0 ==> (OccursAt(s, pat, j) <==> OccursAt(s[1..], pat, j - 1));
      match IndexOf(s[1..], pat)
      case None => None
      case Some(i) => Some(i + 1)
  }

  /** The first-occurrence property determines indexOf's answer. */
  lemma IndexOfFirst(s: string, pat: string, i: nat)
    requires OccursAt(s, pat, i)
    requires forall j: nat :: j < i ==> !OccursAt(s, pat, j)
    ensures IndexOf(s, pat) == Some(i)
  {
  }

  /**
   * `s.replace(pat, rep)` with a string pattern: only the first occurrence is
   * replaced; without an occurrence `s` is returned unchanged.
   */
  function ReplaceFirst(s: string, pat: string, rep: string): string {
    match IndexOf(s, pat)
    case None => s
    case Some(i) => s[..i] + rep + s[i + |pat|..]
  }

  /** A string without the pattern comes back unchanged. */
  lemma ReplaceFirstAbsent(s: string, pat: string, rep: string)
    requires forall j: nat :: !OccursAt(s, pat, j)
    ensures ReplaceFirst(s, pat, rep) == s
  {
  }

  /**
   * Only the first occurrence is replaced: when `a` holds no occurrence's start,
   * `a + pat + b` becomes `a + rep + b`, whatever occurrences `b` holds.
   */
  lemma ReplaceFirstAtFirst(a: string, pat: string, b: string, rep: string)
    requires forall j: nat :: j < |a| ==> !OccursAt(a + pat + b, pat, j)
    ensures ReplaceFirst(a + pat + b, pat, rep) == a + rep + b
  {
    var s := a + pat + b;
    assert s[|a|..|a| + |pat|] == pat;
    IndexOfFirst(s, pat, |a|);
    assert s[..|a|] == a;
    assert s[|a| + |pat|..] == b;
  }

  /** One window of `a + rep + b`: it holds `q` only if `a + pat + b` holds `q` too. */
  lemma WindowAcrossReplacement(a: string, pat: string, rep: string, b: string, q: string, j: nat)
    requires q != [] && rep != []
    requires forall k :: 0 <= k < |rep| ==> rep[k] !in q
    requires j + |q| <= |a| ==> !OccursAt(a + pat + b, q, j)
    requires j >= |a| + |rep| ==> !OccursAt(a + pat + b, q, j - |rep| + |pat|)
    ensures !OccursAt(a + rep + b, q, j)
  {
    var s, r := a + pat + b, a + rep + b;
    if j + |q| <= |r| {
      if j + |q| <= |a| {
        assert forall k :: j <= k < j + |q| ==> r[k] == a[k] == s[k];
        assert r[j..j + |q|] == s[j..j + |q|];
      } else if j >= |a| + |rep| {
        var j' := j - |rep| + |pat|;
        assert forall k :: j <= k < j + |q| ==> r[k] == s[k - |rep| + |pat|];
        assert r[j..j + |q|] == s[j'..j' + |q|];
      } else {
        var p := if j < |a| then |a| else j;
        assert r[j..j + |q|][p - j] == rep[p - |a|];
        assert rep[p - |a|] != q[p - j];
      }
    }
  }

  /** Windows that lie inside a common prefix of two strings agree. */
  lemma WindowInCommonPrefix(s: string, s': string, n: nat, q: string, j: nat)
    requires n <= |s| && n <= |s'| && s[..n] == s'[..n]
    requires j + |q| <= n
    ensures OccursAt(s, q, j) <==> OccursAt(s', q, j)
  {
    assert s[j..j + |q|] == s[..n][j..j + |q|];
    assert s'[j..j + |q|] == s'[..n][j..j + |q|];
  }

  /** Starts of occurrences whose window fits in a common prefix are the same in both strings. */
  lemma NoOccurrenceInCommonPrefix(s: string, s': string, n: nat, q: string, m: nat)
    requires n <= |s| && n <= |s'| && s[..n] == s'[..n]
    requires m + |q| <= n + 1
    requires forall j: nat :: j < m ==> !OccursAt(s, q, j)
    ensures forall j: nat :: j < m ==> !OccursAt(s', q, j)
  {
    forall j: nat | j < m ensures !OccursAt(s', q, j) {
      WindowInCommonPrefix(s, s', n, q, j);
    }
  }

  /** A pattern whose first character is absent from `a` starts no occurrence inside `a`. */
  lemma FirstCharAbsent(a: string, rest: string, pat: string)
    requires pat != [] && pat[0] !in a
    ensures forall j: nat :: j < |a| ==> !OccursAt(a + rest, pat, j)
  {
    forall j: nat | j < |a| ensures !OccursAt(a + rest, pat, j) {
      if j + |pat| <= |a + rest| {
        assert (a + rest)[j..j + |pat|][0] == a[j];
      }
    }
  }

  /** A pattern holding a character that `s` lacks never occurs in `s`. */
  lemma CharAbsent(s: string, pat: string, c: char)
    requires c in pat && c !in s
    ensures forall j: nat :: !OccursAt(s, pat, j)
  {
    forall j: nat | j + |pat| <= |s| ensures !OccursAt(s, pat, j) {
      var k :| 0 <= k < |pat| && pat[k] == c;
      assert s[j..j + |pat|][k] == s[j + k];
    }
  }

  /**
   * Replacing cannot create a new occurrence of `q` when no character of the
   * (non-empty) replacement appears in `q`.
   */
  lemma ReplaceFirstKeepsAbsent(s: string, pat: string, rep: string, q: string)
    requires q != []
    requires forall j: nat :: !OccursAt(s, q, j)
    requires rep != []
    requires forall k :: 0 <= k < |rep| ==> rep[k] !in q
    ensures forall j: nat :: !OccursAt(ReplaceFirst(s, pat, rep), q, j)
  {
    match IndexOf(s, pat)
    case None =>
    case Some(i) =>
      var a, b := s[..i], s[i + |pat|..];
      assert s == a + pat + b;
      forall j: nat ensures !OccursAt(a + rep + b, q, j) {
        WindowAcrossReplacement(a, pat, rep, b, q, j);
      }
  }

  // ---------------------------------------------------------------------------
  // join('\n') and splitting at '\n'
  // ---------------------------------------------------------------------------

  predicate NoNewline(s: string) {
    '\n' !in s
  }

  /** `lines.join('\n')`: separators between lines, none after the last. */
  function JoinLines(lines: seq<string>): string
    decreases |lines|
  {
    if lines == [] then ""
    else if |lines| == 1 then lines[0]
    else lines[0] + "\n" + JoinLines(lines[1..])
  }

  /** `s.split('\n')`: the pieces between newlines; the empty string gives one empty piece. */
  function SplitLines(s: string): (lines: seq<string>)
    ensures |lines| >= 1
    decreases |s|
  {
    if s == [] then [""]
    else
      var rest := SplitLines(s[1..]);
      if s[0] == '\n' then [""] + rest
      else [[s[0]] + rest[0]] + rest[1..]
  }

  /** Joining the pieces of a split gives back the string, for every string. */
  lemma {:induction false} JoinSplitLines(s: string)
    ensures JoinLines(SplitLines(s)) == s
    decreases |s|
  {
    if s != [] {
      var rest := SplitLines(s[1..]);
      JoinSplitLines(s[1..]);
      if s[0] == '\n' {
        assert JoinLines([""] + rest) == "" + "\n" + JoinLines(rest) by {
          assert ([""] + rest)[1..] == rest;
        }
        assert s == "\n" + s[1..];
      } else {
        var lines := [[s[0]] + rest[0]] + rest[1..];
        if |rest| == 1 {
          assert JoinLines(lines) == [s[0]] + rest[0];
        } else {
          assert lines[1..] == rest[1..];
          assert JoinLines(rest) == rest[0] + "\n" + JoinLines(rest[1..]);
          assert JoinLines(lines) == [s[0]] + rest[0] + "\n" + JoinLines(rest[1..]);
        }
        assert s == [s[0]] + s[1..];
      }
    }
  }

  lemma {:induction false} SplitWithoutNewline(x: string)
    requires NoNewline(x)
    ensures SplitLines(x) == [x]
    decreases |x|
  {
    if x != [] {
      SplitWithoutNewline(x[1..]);
      assert [x[0]] + x[1..] == x;
    }
  }

  lemma {:induction false} SplitLineThenNewline(x: string, t: string)
    requires NoNewline(x)
    ensures SplitLines(x + "\n" + t) == [x] + SplitLines(t)
    decreases |x|
  {
    var s := x + "\n" + t;
    if x == [] {
      assert s[1..] == t;
    } else {
      assert s[1..] == x[1..] + "\n" + t;
      SplitLineThenNewline(x[1..], t);
      assert [x[0]] + x[1..] == x;
    }
  }

  /** Splitting a join of newline-free lines gives back exactly those lines. */
  lemma {:induction false} SplitJoinLines(lines: seq<string>)
    requires |lines| >= 1
    requires forall i :: 0 <= i < |lines| ==> NoNewline(lines[i])
    ensures SplitLines(JoinLines(lines)) == lines
    decreases |lines|
  {
    if |lines| == 1 {
      SplitWithoutNewline(lines[0]);
    } else {
      SplitJoinLines(lines[1..]);
      SplitLineThenNewline(lines[0], JoinLines(lines[1..]));
      assert [lines[0]] + lines[1..] == lines;
    }
  }
}
