/** The case-insensitive wildcard match a parser's file-name filters are
    tested with (a QRegExp in Wildcard mode with Qt::CaseInsensitive, used
    through exactMatch): '*' matches any run of characters, '?' any one
    character, every other character itself up to case. */
module Wildcards {

  /** Case folding of one character: ASCII upper-case letters to lower case. */
  function Fold(c: char): (d: char)
    ensures ('A' <= c <= 'Z') ==> d as int == c as int + 32
    ensures !('A' <= c <= 'Z') ==> d == c
  {
    if 'A' <= c <= 'Z' then (c as int + 32) as char else c
  }

  /** `a` and `b` are equal up to case. */
  predicate FoldEqual(a: string, b: string)
  {
    |a| == |b| && forall i :: 0 <= i < |a| ==> Fold(a[i]) == Fold(b[i])
  }

  /** A pattern with no wildcard characters. */
  predicate Literal(p: string)
  {
    forall i :: 0 <= i < |p| ==> p[i] != '*' && p[i] != '?'
  }

  /** Whether the whole of `s` matches pattern `p`. */
  predicate Glob(p: string, s: string)
    decreases |p| + |s|
  {
    if p == [] then s == []
    else if p[0] == '*' then Glob(p[1..], s) || (s != [] && Glob(p, s[1..]))
    else s != [] && (p[0] == '?' || Fold(p[0]) == Fold(s[0])) && Glob(p[1..], s[1..])
  }

  /** Matching ignores case: two names equal up to case match the same
      patterns. */
  lemma {:induction false} GlobIgnoresCase(p: string, s: string, s': string)
    requires FoldEqual(s, s')
    ensures Glob(p, s) == Glob(p, s')
    decreases |p| + |s|
  {
    if p == [] {
    } else if p[0] == '*' {
      GlobIgnoresCase(p[1..], s, s');
      if s != [] {
        GlobIgnoresCase(p, s[1..], s'[1..]);
      }
    } else if s != [] {
      GlobIgnoresCase(p[1..], s[1..], s'[1..]);
    }
  }

  /** A pattern without wildcards matches exactly the names equal to it up
      to case. */
  lemma {:induction false} GlobLiteral(p: string, s: string)
    requires Literal(p)
    ensures Glob(p, s) <==> FoldEqual(p, s)
    decreases |p|
  {
    if p != [] && s != [] {
      GlobLiteral(p[1..], s[1..]);
      if FoldEqual(p[1..], s[1..]) && Fold(p[0]) == Fold(s[0]) {
        forall i | 0 <= i < |p| ensures Fold(p[i]) == Fold(s[i]) {
          if i > 0 { assert p[1..][i - 1] == p[i] && s[1..][i - 1] == s[i]; }
        }
      }
      if FoldEqual(p, s) {
        forall i | 0 <= i < |p| - 1 ensures Fold(p[1..][i]) == Fold(s[1..][i]) {
          assert p[1..][i] == p[i + 1] && s[1..][i] == s[i + 1];
        }
      }
    }
  }

  /** A pattern "*" followed by a literal suffix (such as "*.cpp") matches
      exactly the names that end with that suffix up to case. */
  lemma {:induction false} GlobStarSuffix(lit: string, s: string)
    requires Literal(lit)
    ensures Glob(['*'] + lit, s) <==> |lit| <= |s| && FoldEqual(lit, s[|s| - |lit|..])
    decreases |s|
  {
    var p := ['*'] + lit;
    assert p[1..] == lit;
    GlobLiteral(lit, s);
    if s != [] {
      GlobStarSuffix(lit, s[1..]);
      if |lit| < |s| {
        assert s[1..][|s| - 1 - |lit|..] == s[|s| - |lit|..];
      }
    }
  }

  /** The example filter "*.cpp" accepts the file name "Foo.CPP". */
  lemma CppFilterAcceptsUpperCase()
    ensures Glob("*.cpp", "Foo.CPP")
  {
    GlobStarSuffix(".cpp", "Foo.CPP");
    assert "Foo.CPP"[3..] == ".CPP";
    assert ['*'] + ".cpp" == "*.cpp";
  }
}
