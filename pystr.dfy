/** The handful of Python `str` operations that the response cleaner and the
    tone lookup rely on, each characterised by what it returns. */
module PyStr {

  /** `c.isspace()`: the characters Python 3 treats as whitespace (also the
      set matched by `\s` in a `str` regular expression). */
  predicate IsSpace(c: char) {
    var n := c as int;
    (9 <= n <= 13) || (28 <= n <= 32) || n == 0x85 || n == 0xA0 || n == 0x1680
    || (0x2000 <= n <= 0x200A) || n == 0x2028 || n == 0x2029 || n == 0x202F
    || n == 0x205F || n == 0x3000
  }

  predicate AllSpace(s: string) {
    forall i :: 0 <= i < |s| ==> IsSpace(s[i])
  }

  /** `s.lstrip()`: drops the longest all-whitespace prefix. */
  function LStrip(s: string): (r: string)
    ensures |r| <= |s| && r == s[|s| - |r|..]
    ensures forall i :: 0 <= i < |s| - |r| ==> IsSpace(s[i])
    ensures r == [] || !IsSpace(r[0])
  {
    if s != [] && IsSpace(s[0]) then LStrip(s[1..]) else s
  }

  /** `s.rstrip()`: drops the longest all-whitespace suffix. */
  function RStrip(s: string): (r: string)
    ensures |r| <= |s| && r == s[..|r|]
    ensures forall i :: |r| <= i < |s| ==> IsSpace(s[i])
    ensures r == [] || !IsSpace(r[|r| - 1])
  {
    if s != [] && IsSpace(s[|s| - 1]) then RStrip(s[..|s| - 1]) else s
  }

  /** `s.strip()`. */
  function Strip(s: string): (r: string)
    ensures |r| <= |s|
    ensures r == [] <==> AllSpace(s)
    ensures r != [] ==> !IsSpace(r[0]) && !IsSpace(r[|r| - 1])
    ensures IsTrimOf(r, s)
  {
    var t := RStrip(s);
    var r := LStrip(t);
    assert r != [] ==> r[0] == s[|t| - |r|] && r[|r| - 1] == t[|t| - 1];
    TrimmedSlice(s, t, r);
    r
  }

  /** `r` is a slice of `s` with only whitespace before and after it. */
  ghost predicate IsTrimOf(r: string, s: string) {
    exists a :: 0 <= a <= |s| - |r| && r == s[a..a + |r|] && AllSpace(s[..a]) && AllSpace(s[a + |r|..])
  }

  /** Dropping a whitespace suffix and then a whitespace prefix leaves a slice
      of the original with whitespace on both sides. */
  lemma TrimmedSlice(s: string, t: string, r: string)
    requires |t| <= |s| && t == s[..|t|] && forall i :: |t| <= i < |s| ==> IsSpace(s[i])
    requires |r| <= |t| && r == t[|t| - |r|..] && forall i :: 0 <= i < |t| - |r| ==> IsSpace(t[i])
    ensures IsTrimOf(r, s)
  {
    var a := |t| - |r|;
    forall i | 0 <= i < a ensures IsSpace(s[..a][i]) {
      assert s[..a][i] == t[i];
    }
    forall i | 0 <= i < |s| - |t| ensures IsSpace(s[|t|..][i]) {
      assert s[|t|..][i] == s[|t| + i];
    }
    assert r == s[a..a + |r|] && AllSpace(s[..a]) && AllSpace(s[a + |r|..]);
  }

  /** `pat` starts at index `i` of `s`. */
  predicate OccursAt(s: string, pat: string, i: int) {
    0 <= i && i + |pat| <= |s| && s[i..i + |pat|] == pat
  }

  /** `pat in s`. */
  predicate Contains(s: string, pat: string) {
    exists i :: 0 <= i <= |s| - |pat| && OccursAt(s, pat, i)
  }

  function FindFrom(s: string, pat: string, from: nat): (r: int)
    ensures r == -1 || (from <= r && OccursAt(s, pat, r))
    ensures r == -1 ==> forall j :: from <= j ==> !OccursAt(s, pat, j)
    ensures r != -1 ==> forall j :: from <= j < r ==> !OccursAt(s, pat, j)
    decreases |s| - from
  {
    if from + |pat| > |s| then -1
    else if s[from..from + |pat|] == pat then from
    else FindFrom(s, pat, from + 1)
  }

  /** `s.find(pat)`: the first index at which `pat` occurs, or -1. */
  function Find(s: string, pat: string): (r: int)
    ensures r == -1 <==> !Contains(s, pat)
    ensures r != -1 ==> OccursAt(s, pat, r) && forall j :: 0 <= j < r ==> !OccursAt(s, pat, j)
  {
    FindFrom(s, pat, 0)
  }

  /** `s.rfind(c)` for a one-character needle: the last index holding `c`, or -1. */
  function RFind(s: string, c: char): (r: int)
    ensures -1 <= r < |s|
    ensures r != -1 ==> s[r] == c
    ensures forall j :: r < j < |s| ==> s[j] != c
  {
    if s == [] then -1
    else if s[|s| - 1] == c then |s| - 1
    else RFind(s[..|s| - 1], c)
  }

  /** A part cut out of a string contains nothing the whole does not. */
  lemma NoOccurrenceInSlice(s: string, pat: string, a: nat, b: nat)
    requires a <= b <= |s| && !Contains(s, pat)
    ensures !Contains(s[a..b], pat)
  {
    if Contains(s[a..b], pat) {
      var i :| 0 <= i <= |s[a..b]| - |pat| && OccursAt(s[a..b], pat, i);
      forall k | 0 <= k < |pat| ensures s[a + i + k] == pat[k] {
        assert s[a..b][i..i + |pat|][k] == pat[k];
      }
      assert s[a + i..a + i + |pat|] == pat;
      assert OccursAt(s, pat, a + i);
    }
  }

  /** The text before the first occurrence contains no occurrence. */
  lemma NoOccurrenceBeforeFirst(s: string, pat: string, i: nat)
    requires pat != [] && i <= |s|
    requires forall j :: 0 <= j < i ==> !OccursAt(s, pat, j)
    ensures !Contains(s[..i], pat)
  {
    forall j | 0 <= j <= i - |pat| ensures !OccursAt(s[..i], pat, j) {
      assert !OccursAt(s, pat, j);
      assert s[..i][j..j + |pat|] == s[j..j + |pat|];
    }
  }

  /** Stripping never creates an occurrence. */
  lemma NoOccurrenceStrip(s: string, pat: string)
    requires !Contains(s, pat)
    ensures !Contains(Strip(s), pat)
  {
    var t := RStrip(s);
    NoOccurrenceInSlice(s, pat, 0, |t|);
    assert s[0..|t|] == t;
    var u := LStrip(t);
    NoOccurrenceInSlice(t, pat, |t| - |u|, |t|);
    assert t[|t| - |u|..|t|] == u;
  }

  /** Appending a character other than the last one of `pat` creates no occurrence. */
  lemma NoOccurrenceAppend(s: string, pat: string, c: char)
    requires pat != [] && pat[|pat| - 1] != c && !Contains(s, pat)
    ensures !Contains(s + [c], pat)
  {
    if Contains(s + [c], pat) {
      var i :| 0 <= i <= |s| + 1 - |pat| && OccursAt(s + [c], pat, i);
      if i + |pat| <= |s| {
        assert (s + [c])[i..i + |pat|] == s[i..i + |pat|];
        assert OccursAt(s, pat, i);
      }
    }
  }

  /** One character of `s.lower()`, for ASCII letters only: an upper-case
      letter becomes the lower-case letter at the same place in the alphabet,
      and every other character is kept. */
  function LowerChar(c: char): (r: char)
    ensures 'A' <= c <= 'Z' ==> 'a' <= r <= 'z' && r as int - 'a' as int == c as int - 'A' as int
    ensures !('A' <= c <= 'Z') ==> r == c
    ensures !('A' <= r <= 'Z')
  {
    if 'A' <= c <= 'Z' then (c as int + ('a' as int - 'A' as int)) as char else c
  }

  /** `s.lower()`, restricted to ASCII: every upper-case letter is mapped to
      its lower-case form and every other character is kept. */
  function Lower(s: string): (r: string)
    ensures |r| == |s|
    ensures forall i :: 0 <= i < |s| ==> r[i] == LowerChar(s[i])
    ensures forall i :: 0 <= i < |s| ==> !('A' <= r[i] <= 'Z')
  {
    if s == [] then [] else [LowerChar(s[0])] + Lower(s[1..])
  }
}
