/** The few QString operations the code parser relies on: substring search
    (indexOf, contains), whitespace trimming (trimmed) and the bare file name
    of a path (QFileInfo::fileName). */
module Strings {

  /** True when `t` occurs in `s` starting at index `i`. */
  predicate OccursAt(s: string, t: string, i: int)
  {
    0 <= i && i + |t| <= |s| && s[i..i + |t|] == t
  }

  /** QString::indexOf(t, from): the first index at or after `from` where
      `t` occurs in `s`, or -1 when there is none. */
  function IndexOf(s: string, t: string, from: nat): (r: int)
    decreases |s| - from
    ensures r == -1 || (from <= r && OccursAt(s, t, r))
    ensures forall j :: from <= j && (r == -1 || j < r) ==> !OccursAt(s, t, j)
  {
    if from + |t| > |s| then -1
    else if s[from..from + |t|] == t then from
    else IndexOf(s, t, from + 1)
  }

  /** QString::contains(t): whether `t` occurs anywhere in `s`. */
  predicate Contains(s: string, t: string): (b: bool)
    ensures b <==> exists i :: OccursAt(s, t, i)
  {
    IndexOf(s, t, 0) != -1
  }

  /** QChar::isSpace for UTF-16 code units: the controls 9 to 13, U+0085 and
      the Unicode separators (categories Zs, Zl and Zp). */
  predicate IsSpace(c: char)
  {
    ('\t' <= c <= '\r') || c == ' ' || c == '\U{0085}' || c == '\U{00A0}'
    || c == '\U{1680}' || c == '\U{180E}' || ('\U{2000}' <= c <= '\U{200A}')
    || c == '\U{2028}' || c == '\U{2029}' || c == '\U{202F}' || c == '\U{205F}'
    || c == '\U{3000}'
  }

  predicate AllSpace(s: string)
  {
    forall k :: 0 <= k < |s| ==> IsSpace(s[k])
  }

  /** Neither the first nor the last character is whitespace. */
  predicate Unpadded(s: string)
  {
    s == [] || (!IsSpace(s[0]) && !IsSpace(s[|s| - 1]))
  }

  /** The number of whitespace characters `s` starts with. */
  function LeadingSpaces(s: string): (n: nat)
    ensures n <= |s|
    ensures forall k :: 0 <= k < n ==> IsSpace(s[k])
    ensures n < |s| ==> !IsSpace(s[n])
  {
    if s == [] || !IsSpace(s[0]) then 0 else 1 + LeadingSpaces(s[1..])
  }

  /** The number of whitespace characters `s` ends with. */
  function TrailingSpaces(s: string): (n: nat)
    ensures n <= |s|
    ensures forall k :: |s| - n <= k < |s| ==> IsSpace(s[k])
    ensures n < |s| ==> !IsSpace(s[|s| - 1 - n])
  {
    if s == [] || !IsSpace(s[|s| - 1]) then 0 else 1 + TrailingSpaces(s[..|s| - 1])
  }

  /** QString::trimmed: `s` without its leading and trailing whitespace. */
  function Trimmed(s: string): string
  {
    var rest := s[LeadingSpaces(s)..];
    rest[..|rest| - TrailingSpaces(rest)]
  }

  /** Trimming removes exactly the whitespace padding: whatever whitespace
      surrounds an unpadded text, trimming gives back that text. Since every
      string is such a padded text in exactly one way, this determines
      Trimmed completely. */
  lemma TrimmedPadded(p: string, x: string, q: string)
    requires AllSpace(p) && AllSpace(q) && Unpadded(x)
    ensures Trimmed(p + x + q) == x
  {
    var s := p + x + q;
    var i := LeadingSpaces(s);
    if x == [] {
      assert AllSpace(s) by {
        forall k | 0 <= k < |s| ensures IsSpace(s[k]) {
          if k < |p| { assert s[k] == p[k]; } else { assert s[k] == q[k - |p|]; }
        }
      }
      assert i == |s|;
    } else {
      assert s[|p|] == x[0];
      assert i == |p|;
      var rest := s[i..];
      assert rest == x + q;
      var n := TrailingSpaces(rest);
      assert rest[|x| - 1] == x[|x| - 1];
      assert n == |q|;
      assert rest[..|rest| - n] == x;
    }
  }

  /** The result of trimming is a piece of the input with no whitespace
      at either end, and everything trimmed off is whitespace. */
  lemma TrimmedUnpadded(s: string)
    ensures Unpadded(Trimmed(s))
    ensures exists i, j :: 0 <= i <= j <= |s| && Trimmed(s) == s[i..j]
                           && AllSpace(s[..i]) && AllSpace(s[j..])
  {
    var i := LeadingSpaces(s);
    var rest := s[i..];
    var n := TrailingSpaces(rest);
    var j := i + |rest| - n;
    assert Trimmed(s) == s[i..j];
    assert AllSpace(s[..i]);
    assert AllSpace(s[j..]) by {
      forall k | 0 <= k < |s| - j ensures IsSpace(s[j..][k]) {
        assert s[j..][k] == rest[|rest| - n + k];
      }
    }
    if i < j {
      assert s[i..j][0] == rest[0];
      assert s[i..j][j - i - 1] == rest[|rest| - 1 - n];
    }
  }

  /** The index of the last '/' before `end`, or -1 when there is none. */
  function LastSlash(path: string, end: nat): (k: int)
    requires end <= |path|
    ensures -1 <= k < end
    ensures k != -1 ==> path[k] == '/'
    ensures forall m :: k < m < end ==> path[m] != '/'
  {
    if end == 0 then -1
    else if path[end - 1] == '/' then end - 1
    else LastSlash(path, end - 1)
  }

  /** QFileInfo::fileName for a path with '/' separators: the part after the
      last '/', or the whole path when it has none. */
  function FileName(path: string): (r: string)
    ensures |r| <= |path| && r == path[|path| - |r|..]
    ensures forall k :: 0 <= k < |r| ==> r[k] != '/'
    ensures |r| < |path| ==> path[|path| - |r| - 1] == '/'
  {
    path[LastSlash(path, |path|) + 1..]
  }
}
