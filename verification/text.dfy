/** String operations the launcher relies on from Python: `str.strip()`,
    `str.startswith`, and the line structure of a text written one
    `'\n'`-terminated line at a time. */
module Text {

  /** The characters Python's `str.isspace()` accepts, the set `str.strip()`
      with no argument removes from both ends: the ASCII controls tab to
      carriage return, the four information separators, space, and the
      Unicode space and line/paragraph separators. */
  predicate IsSpace(c: char) {
    var n := c as int;
    || 0x09 <= n <= 0x0D || 0x1C <= n <= 0x20
    || n == 0x85 || n == 0xA0 || n == 0x1680
    || 0x2000 <= n <= 0x200A || n == 0x2028 || n == 0x2029 || n == 0x202F || n == 0x205F
    || n == 0x3000
  }

  /** Every character of `s` is whitespace (vacuously so for the empty string). */
  predicate AllSpace(s: string) {
    forall k | 0 <= k < |s| :: IsSpace(s[k])
  }

  /** Neither the first nor the last character of `s` is whitespace. */
  predicate Trimmed(s: string) {
    s == [] || (!IsSpace(s[0]) && !IsSpace(s[|s| - 1]))
  }

  /** Python's `s.startswith(prefix)`. */
  predicate StartsWith(s: string, prefix: string) {
    |prefix| <= |s| && s[..|prefix|] == prefix
  }

  /** The number of whitespace characters `s` starts with. */
  function LeadingSpace(s: string, from: nat := 0): (lo: nat)
    requires from <= |s|
    requires forall k | 0 <= k < from :: IsSpace(s[k])
    ensures from <= lo <= |s|
    ensures forall k | 0 <= k < lo :: IsSpace(s[k])
    ensures lo < |s| ==> !IsSpace(s[lo])
    decreases |s| - from
  {
    if from < |s| && IsSpace(s[from]) then LeadingSpace(s, from + 1) else from
  }

  /** Where the text of `s` ends once the whitespace after index `lo` is cut
      off its tail, looking back from `hi`. */
  function TrailingEnd(s: string, lo: nat, hi: nat): (end: nat)
    requires lo <= hi <= |s|
    requires forall k | hi <= k < |s| :: IsSpace(s[k])
    ensures lo <= end <= hi
    ensures forall k | end <= k < |s| :: IsSpace(s[k])
    ensures end > lo ==> !IsSpace(s[end - 1])
  {
    if hi > lo && IsSpace(s[hi - 1]) then TrailingEnd(s, lo, hi - 1) else hi
  }

  /** Python's `s.strip()`: `s` without its leading and trailing whitespace. */
  function Strip(s: string): (r: string)
    ensures Trimmed(r)
    ensures r == [] <==> AllSpace(s)
    ensures exists i | 0 <= i <= |s| - |r| ::
              && s[i..i + |r|] == r
              && AllSpace(s[..i])
              && AllSpace(s[i + |r|..])
  {
    var lo := LeadingSpace(s);
    var hi := TrailingEnd(s, lo, |s|);
    assert AllSpace(s[..lo]) && AllSpace(s[hi..]);
    assert hi == lo ==> AllSpace(s);
    s[lo..hi]
  }

  /** A string with no surrounding whitespace is left alone by `strip()`. */
  lemma StripTrimmed(s: string)
    requires Trimmed(s)
    ensures Strip(s) == s
  {
  }

  /** `strip()` is idempotent. */
  lemma StripIdempotent(s: string)
    ensures Strip(Strip(s)) == Strip(s)
  {
  }

  /** Stripping a text that opens with a non-whitespace character and goes
      on with a non-blank tail keeps the opening intact. */
  lemma StripKeepsPrefix(a: string, b: string)
    requires a != [] && !IsSpace(a[0])
    requires !AllSpace(b)
    ensures StartsWith(Strip(a + b), a)
  {
    var t := a + b;
    assert t[0] == a[0];
    var lo := LeadingSpace(t);
    assert lo == 0;
    var hi := TrailingEnd(t, lo, |t|);
    var j :| 0 <= j < |b| && !IsSpace(b[j]);
    assert t[|a| + j] == b[j];
    assert hi > |a| + j;
    assert Strip(t) == t[..hi];
    assert t[..hi][..|a|] == a;
  }

  /** The index of the first `c` in `s`, or `|s|` when there is none. */
  function IndexOf(s: string, c: char): (r: nat)
    ensures r <= |s|
    ensures r < |s| ==> s[r] == c
    ensures forall k | 0 <= k < r :: s[k] != c
  {
    if s == [] then 0
    else if s[0] == c then 0
    else 1 + IndexOf(s[1..], c)
  }

  /** The text of a file written as `lines`, each followed by `'\n'`. */
  function JoinLines(lines: seq<string>): (t: string)
    ensures |t| >= |lines|
    ensures lines != [] ==> |t| > 0 && t[|t| - 1] == '\n'
  {
    if lines == [] then []
    else lines[0] + "\n" + JoinLines(lines[1..])
  }

  /** The lines of a text as a shell reads them: cut at each `'\n'`; an
      unterminated remainder is a last line of its own. */
  function SplitLines(t: string): (lines: seq<string>)
    ensures forall k | 0 <= k < |lines| :: '\n' !in lines[k]
    decreases |t|
  {
    if t == [] then []
    else
      var i := IndexOf(t, '\n');
      if i == |t| then [t] else [t[..i]] + SplitLines(t[i + 1..])
  }

  /** Splitting a joined text gives back the lines, provided none of them
      holds a line break of its own. */
  lemma {:induction false} SplitJoinLines(lines: seq<string>)
    requires forall k | 0 <= k < |lines| :: '\n' !in lines[k]
    ensures SplitLines(JoinLines(lines)) == lines
  {
    if lines != [] {
      var l := lines[0];
      var rest := JoinLines(lines[1..]);
      var t := l + "\n" + rest;
      assert t == JoinLines(lines);
      var i := IndexOf(t, '\n');
      assert t[|l|] == '\n';
      assert i == |l|;
      assert t[..i] == l;
      assert t[i + 1..] == rest;
      SplitJoinLines(lines[1..]);
    }
  }
}
