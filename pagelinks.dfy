/** CodeParser::extractPageLinkAndDesc: turning the argument of a
    link-bearing command into a (link, description) pair. */
module PageLinks {
  import opened Options
  import opened Strings

  /** A link target together with the text shown for it. */
  datatype PageLink = PageLink(link: string, desc: string)

  predicate IsBrace(c: char)
  {
    c == '{' || c == '}'
  }

  predicate BraceFree(s: string)
  {
    forall k :: 0 <= k < |s| ==> !IsBrace(s[k])
  }

  /** The braced forms the argument may take as a whole: "{a}", with
      b empty, or "{a}{b}", where neither a nor b holds a brace. */
  predicate BracedForm(s: string, a: string, b: string)
  {
    BraceFree(a) && BraceFree(b)
    && ((s == ['{'] + a + ['}'] && b == []) || s == ['{'] + a + ['}', '{'] + b + ['}'])
  }

  ghost predicate IsBraced(s: string)
  {
    exists a, b :: BracedForm(s, a, b)
  }

  /** The index of the first brace in `s` at or after `from`, or |s|. */
  function FirstBrace(s: string, from: nat): (k: nat)
    requires from <= |s|
    decreases |s| - from
    ensures from <= k <= |s|
    ensures forall m :: from <= m < k ==> !IsBrace(s[m])
    ensures k < |s| ==> IsBrace(s[k])
  {
    if from == |s| || IsBrace(s[from]) then from else FirstBrace(s, from + 1)
  }

  /** An exact match of the regular expression \{([^{}]*)\}(?:\{([^{}]*)\})?
      against `s`: its two captures, the second empty when the optional
      group is absent, or None when `s` does not match. */
  function MatchBraced(s: string): Option<(string, string)>
  {
    if |s| < 2 || s[0] != '{' then None
    else
      var close := FirstBrace(s, 1);
      if close == |s| || s[close] != '}' then None
      else if close == |s| - 1 then Some((s[1..close], []))
      else if s[close + 1] == '{' && s[|s| - 1] == '}' && FirstBrace(s, close + 2) == |s| - 1
      then Some((s[1..close], s[close + 2..|s| - 1]))
      else None
  }

  /** Every match of the regular expression is one of the braced forms, with
      the captures as its parts. */
  lemma MatchBracedSound(s: string)
    requires MatchBraced(s).Some?
    ensures BracedForm(s, MatchBraced(s).value.0, MatchBraced(s).value.1)
  {
    var close := FirstBrace(s, 1);
    var a := s[1..close];
    assert BraceFree(a);
    if close == |s| - 1 {
      assert s == ['{'] + a + ['}'];
    } else {
      var b := s[close + 2..|s| - 1];
      assert BraceFree(b);
      assert s == ['{'] + a + ['}', '{'] + b + ['}'];
    }
  }

  /** Every braced form matches the regular expression, with its parts as
      the captures. */
  lemma MatchBracedComplete(s: string, a: string, b: string)
    requires BracedForm(s, a, b)
    ensures MatchBraced(s) == Some((a, b))
  {
    var close := FirstBrace(s, 1);
    assert s[1 + |a|] == '}';
    assert close == 1 + |a|;
    assert s[1..close] == a;
    if s != ['{'] + a + ['}'] {
      assert s == ['{'] + a + ['}', '{'] + b + ['}'];
      assert s[close + 1] == '{';
      assert s[close + 2..|s| - 1] == b;
      var k := FirstBrace(s, close + 2);
      assert k == |s| - 1;
    }
  }

  /** CodeParser::extractPageLinkAndDesc. */
  function ExtractPageLinkAndDesc(arg: string): PageLink
  {
    match MatchBraced(arg)
    case Some((a, b)) => PageLink(a, if b == [] then a else b)
    case None =>
      var spaceAt := IndexOf(arg, " ", 0);
      if Contains(arg, ".html") && spaceAt != -1
      then PageLink(Trimmed(arg[..spaceAt]), Trimmed(arg[spaceAt..]))
      else PageLink(arg, arg)
  }

  /** A braced argument "{a}{b}" links to a and shows b, or a when b is
      empty; "{a}" links to a and shows a. */
  lemma BracedLink(a: string, b: string)
    requires BraceFree(a) && BraceFree(b)
    ensures ExtractPageLinkAndDesc(['{'] + a + ['}', '{'] + b + ['}'])
            == PageLink(a, if b == [] then a else b)
    ensures ExtractPageLinkAndDesc(['{'] + a + ['}']) == PageLink(a, a)
  {
    MatchBracedComplete(['{'] + a + ['}', '{'] + b + ['}'], a, b);
    MatchBracedComplete(['{'] + a + ['}'], a, []);
  }

  /** An argument that is not braced, holds ".html" and holds a space is
      split at its first space: the link is the trimmed text before it, the
      description the trimmed text from it on. */
  lemma HtmlLink(arg: string, h: int, k: int)
    requires !IsBraced(arg)
    requires OccursAt(arg, ".html", h)
    requires 0 <= k < |arg| && arg[k] == ' ' && forall m :: 0 <= m < k ==> arg[m] != ' '
    ensures ExtractPageLinkAndDesc(arg) == PageLink(Trimmed(arg[..k]), Trimmed(arg[k..]))
  {
    if MatchBraced(arg).Some? {
      MatchBracedSound(arg);
      assert false;
    }
    var spaceAt := IndexOf(arg, " ", 0);
    assert OccursAt(arg, " ", k);
    assert spaceAt == k;
  }

  /** Any other argument is both the link and the description, unchanged. */
  lemma PlainLink(arg: string)
    requires !IsBraced(arg)
    requires (forall h :: !OccursAt(arg, ".html", h)) || (forall m :: 0 <= m < |arg| ==> arg[m] != ' ')
    ensures ExtractPageLinkAndDesc(arg) == PageLink(arg, arg)
  {
    if MatchBraced(arg).Some? {
      MatchBracedSound(arg);
      assert false;
    }
    var spaceAt := IndexOf(arg, " ", 0);
    if spaceAt != -1 {
      assert arg[spaceAt..spaceAt + 1] == " ";
    }
    assert !(Contains(arg, ".html") && spaceAt != -1);
  }

  /** An argument that does not start with '{' is not braced. */
  lemma NotBracedWithoutBrace(s: string)
    requires s == [] || s[0] != '{'
    ensures !IsBraced(s)
  {
  }

  /** A text whose first character never appears in `s` does not occur in `s`. */
  lemma Absent(s: string, t: string)
    requires t != [] && forall k :: 0 <= k < |s| ==> s[k] != t[0]
    ensures forall h :: !OccursAt(s, t, h)
  {
    forall h ensures !OccursAt(s, t, h) {
      if 0 <= h && h + |t| <= |s| {
        assert s[h..h + |t|][0] == s[h];
      }
    }
  }

  /** The worked example "{a}{b}". */
  lemma BracedPairExample(s: string)
    requires s == "{a}{b}"
    ensures ExtractPageLinkAndDesc(s) == PageLink("a", "b")
  {
    assert s == ['{'] + "a" + ['}', '{'] + "b" + ['}'];
    BracedLink("a", "b");
  }

  /** The worked example "{a}". */
  lemma BracedSingleExample(s: string)
    requires s == "{a}"
    ensures ExtractPageLinkAndDesc(s) == PageLink("a", "a")
  {
    assert s == ['{'] + "a" + ['}'];
    BracedLink("a", []);
  }

  /** The worked example "page.html Some Desc". */
  lemma HtmlExample(s: string)
    requires s == "page.html Some Desc"
    ensures ExtractPageLinkAndDesc(s) == PageLink("page.html", "Some Desc")
  {
    NotBracedWithoutBrace(s);
    assert OccursAt(s, ".html", 4) by { assert s[4..9] == ".html"; }
    assert forall m :: 0 <= m < 9 ==> s[m] != ' ';
    HtmlLink(s, 4, 9);
    HtmlExampleHalves(s);
  }

  lemma HtmlExampleHalves(s: string)
    requires s == "page.html Some Desc"
    ensures Trimmed(s[..9]) == "page.html" && Trimmed(s[9..]) == "Some Desc"
  {
    assert s[..9] == [] + "page.html" + [];
    assert s[9..] == " " + "Some Desc" + [];
    TrimmedPadded([], "page.html", []);
    TrimmedPadded(" ", "Some Desc", []);
  }

  /** The worked example "plain text". */
  lemma PlainExample()
    ensures ExtractPageLinkAndDesc("plain text") == PageLink("plain text", "plain text")
  {
    var t := "plain text";
    NotBracedWithoutBrace(t);
    Absent(t, ".html");
    PlainLink(t);
  }
}
