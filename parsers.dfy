/** The values the parser registry is made of: a registered parser plugin
    as its language and file-name filters, the three lookups as queries, and
    the list operations (prepend and removeAll) the registry is changed by. */
module Parsers {
  import opened Options
  import opened Wildcards

  /** A parser plugin: `id` stands for the object's identity; `language`,
      `sourceFilter` and `headerFilter` are what its virtual language(),
      sourceFileNameFilter() and headerFileNameFilter() return.
      `headerFilter` is None for a plugin that keeps the base class's
      headerFileNameFilter. */
  datatype Parser = Parser(id: nat, language: string, sourceFilter: seq<string>,
                           headerFilter: Option<seq<string>>)

  /** CodeParser::headerFileNameFilter, or the plugin's own override. */
  function HeaderFileNameFilter(p: Parser): seq<string>
  {
    match p.headerFilter
    case None => p.sourceFilter
    case Some(f) => f
  }

  /** Some pattern of `patterns` matches the whole of `fileName`. */
  predicate AnyMatches(patterns: seq<string>, fileName: string)
  {
    exists i :: 0 <= i < |patterns| && Glob(patterns[i], fileName)
  }

  /** The three lookups: by language, and by the bare name of a header or a
      source file. */
  datatype Query = ByLanguage(language: string) | ByHeaderFile(fileName: string) | BySourceFile(fileName: string)

  /** Whether parser `p` is the one a lookup asks for. */
  predicate Answers(p: Parser, q: Query)
  {
    match q
    case ByLanguage(l) => p.language == l
    case ByHeaderFile(f) => AnyMatches(HeaderFileNameFilter(p), f)
    case BySourceFile(f) => AnyMatches(p.sourceFilter, f)
  }

  /** The first parser of `ps`, in list order, that answers `q`, or None
      (the null pointer) when no parser does. */
  function FirstAnswering(ps: seq<Parser>, q: Query): (r: Option<Parser>)
    ensures r.None? <==> forall i :: 0 <= i < |ps| ==> !Answers(ps[i], q)
    ensures r.Some? ==> exists i :: 0 <= i < |ps| && ps[i] == r.value && Answers(ps[i], q)
                                    && forall j :: 0 <= j < i ==> !Answers(ps[j], q)
  {
    if ps == [] then None
    else if Answers(ps[0], q) then Some(ps[0])
    else
      var r := FirstAnswering(ps[1..], q);
      assert r.Some? ==> exists i :: 1 <= i < |ps| && ps[i] == r.value && Answers(ps[i], q)
                                     && forall j :: 0 <= j < i ==> !Answers(ps[j], q) by {
        if r.Some? {
          var i :| 0 <= i < |ps[1..]| && ps[1..][i] == r.value && Answers(ps[1..][i], q)
                   && forall j :: 0 <= j < i ==> !Answers(ps[1..][j], q);
          assert forall j :: 1 <= j < i + 1 ==> ps[j] == ps[1..][j - 1];
        }
      }
      r
  }

  /** A parser that answers, with none before it answering, is the one
      the lookup finds. */
  lemma {:induction false} FirstAnsweringAt(ps: seq<Parser>, q: Query, i: int)
    requires 0 <= i < |ps| && Answers(ps[i], q)
    requires forall k :: 0 <= k < i ==> !Answers(ps[k], q)
    ensures FirstAnswering(ps, q) == Some(ps[i])
  {
    if i > 0 {
      assert forall k :: 0 <= k < i - 1 ==> ps[1..][k] == ps[k + 1];
      FirstAnsweringAt(ps[1..], q, i - 1);
    }
  }

  /** QList::removeAll: `ps` without any occurrence of `x`, the others kept
      in their order. */
  function RemoveAll(ps: seq<Parser>, x: Parser): (r: seq<Parser>)
    ensures x !in r
    ensures forall y :: y != x ==> multiset(r)[y] == multiset(ps)[y]
  {
    if ps == [] then []
    else
      assert ps == [ps[0]] + ps[1..];
      (if ps[0] == x then [] else [ps[0]]) + RemoveAll(ps[1..], x)
  }

  /** Removal keeps the relative order of what remains: removing from a
      concatenation removes from each part. */
  lemma {:induction false} RemoveAllDistributes(a: seq<Parser>, b: seq<Parser>, x: Parser)
    ensures RemoveAll(a + b, x) == RemoveAll(a, x) + RemoveAll(b, x)
  {
    if a == [] {
      assert a + b == b;
    } else {
      assert (a + b)[0] == a[0];
      assert (a + b)[1..] == a[1..] + b;
      RemoveAllDistributes(a[1..], b, x);
    }
  }

  /** Removing a parser that is not registered changes nothing. */
  lemma {:induction false} RemoveAllAbsent(ps: seq<Parser>, x: Parser)
    requires x !in ps
    ensures RemoveAll(ps, x) == ps
  {
    if ps != [] {
      RemoveAllAbsent(ps[1..], x);
    }
  }

  /** Constructing a new parser and destroying it again leaves the registry
      as it was. */
  lemma ConstructThenDestroy(ps: seq<Parser>, x: Parser)
    requires x !in ps
    ensures RemoveAll([x] + ps, x) == ps
  {
    assert ([x] + ps)[1..] == ps;
    RemoveAllAbsent(ps, x);
  }

  /** The most recently constructed parser is consulted first: it answers
      every lookup it satisfies, and otherwise the lookup is as before. */
  lemma ConstructedFirst(ps: seq<Parser>, x: Parser, q: Query)
    ensures FirstAnswering([x] + ps, q) == if Answers(x, q) then Some(x) else FirstAnswering(ps, q)
  {
    assert ([x] + ps)[1..] == ps;
  }

  /** Destroying a parser does not change a lookup that another parser
      answered. */
  lemma {:induction false} LookupAfterDestroy(ps: seq<Parser>, x: Parser, q: Query)
    requires FirstAnswering(ps, q).Some? && FirstAnswering(ps, q).value != x
    ensures FirstAnswering(RemoveAll(ps, x), q) == FirstAnswering(ps, q)
  {
    var rest := RemoveAll(ps[1..], x);
    if ps[0] == x {
      assert RemoveAll(ps, x) == rest;
      assert !Answers(ps[0], q);
      assert FirstAnswering(ps, q) == FirstAnswering(ps[1..], q);
      LookupAfterDestroy(ps[1..], x, q);
    } else {
      assert RemoveAll(ps, x) == [ps[0]] + rest;
      ConstructedFirst(rest, ps[0], q);
      if !Answers(ps[0], q) {
        assert FirstAnswering(ps, q) == FirstAnswering(ps[1..], q);
        LookupAfterDestroy(ps[1..], x, q);
      }
    }
  }

  /** When no registered parser overrides the header filter, a header file
      is looked up exactly as a source file of the same name. */
  lemma {:induction false} HeaderLookupDefaultsToSource(ps: seq<Parser>, fileName: string)
    requires forall i :: 0 <= i < |ps| ==> ps[i].headerFilter.None?
    ensures FirstAnswering(ps, ByHeaderFile(fileName)) == FirstAnswering(ps, BySourceFile(fileName))
  {
    if ps != [] {
      HeaderLookupDefaultsToSource(ps[1..], fileName);
    }
  }
}
