# qdoc3 code parser base — a Dafny model

qdoc3, the Qt documentation generator, reads C++ and QML sources through
code-parser plugins that all derive from `CodeParser`. This base class keeps a
process-wide registry of the plugins, picks the plugin for a language, a
header file or a source file by wildcard file-name filters, applies the
metacommands common to every language (`\compat`, `\ingroup`, `\title`, ...) to
documentation nodes and the node tree, splits the argument of link-bearing
commands into a link and a description, and derives the output sub-directory a
file's pages go to from the configured bundle base directory.

The model follows that structure:

- `Strings` — the QString operations relied on: `indexOf`, `contains`,
  `trimmed`, and `QFileInfo::fileName` on '/'-separated paths.
- `Wildcards` — the case-insensitive wildcard match of a file-name filter.
- `PageLinks` — `extractPageLinkAndDesc`, with the braced regular expression as
  an exact-match function proved sound and complete.
- `Parsers` — parsers as values, the three lookups as queries, the first
  answering parser, and `QList::removeAll`.
- `Options` — the optional value a lookup or a match returns.
- `Diagnostics`, `Nodes` — the warnings as values; a node and the tree as
  objects whose fields the metacommands change; group membership.
- `MetaCommands` — what one metacommand does, as a function on values
  (`Interpret`), and its properties.
- `SubDirs` — the path arithmetic of `createOutputSubdirectory`.
- `CodeParsers` — the class `CodeParser` holding the static state (the parser
  list, `showInternal`, `nameToTitle`, `currentSubDir_`, and the example and
  QML class lookups), with one method per operation, each proved against the
  functions above.

`createOutputSubdirectory` reports three distinct warnings: the base
directory missing from the path (codeparser.cpp:377), no sub-directory after
it (382, and 393 for an empty segment), and no file name after the
sub-directory (388). The model keeps all three.

Warnings are returned as values rather than printed. The configuration values
(`showinternal`, the base and output directories) are parameters.

## Model

| member | source | states |
|---|---|---|
| CodeParsers.CodeParser.constructor | tools/qdoc3/codeparser.cpp:73-76 | the static state starts as the source initialises it: no parsers, showInternal false, no recorded titles, empty current sub-directory, empty example and QML class lookups |
| CodeParsers.CodeParser.Construct | tools/qdoc3/codeparser.cpp:82-85 | a new parser is put at the front of the registry, the rest kept in order |
| CodeParsers.CodeParser.Destroy | tools/qdoc3/codeparser.cpp:91-94 | the registry becomes the old one with every occurrence of the parser removed |
| Parsers.RemoveAll | tools/qdoc3/codeparser.cpp:93 | after removal the parser is absent and every other parser occurs as often as before |
| Parsers.RemoveAllDistributes | tools/qdoc3/codeparser.cpp:93 | removal keeps the relative order of the remaining parsers |
| Parsers.RemoveAllAbsent | tools/qdoc3/codeparser.cpp:93 | removing an unregistered parser changes nothing |
| Parsers.ConstructThenDestroy | tools/qdoc3/codeparser.cpp:82-94 | constructing then destroying a parser restores the registry |
| Parsers.ConstructedFirst | tools/qdoc3/codeparser.cpp:84 | the most recently constructed parser wins every lookup it answers; otherwise lookups are as before |
| Parsers.LookupAfterDestroy | tools/qdoc3/codeparser.cpp:91-94 | destroying a parser leaves any lookup another parser answered unchanged |
| CodeParsers.CodeParser.Initialize | tools/qdoc3/codeparser.cpp:133-140 | every registered parser is initialized, in list order; through the base initializeParser, showInternal takes the configured value when at least one parser exists |
| CodeParsers.CodeParser.Terminate | tools/qdoc3/codeparser.cpp:145-152 | every registered parser is terminated, in list order |
| Parsers.HeaderFileNameFilter | tools/qdoc3/codeparser.cpp:112-115 | a plugin without its own header filter uses its source filter; HeaderLookupDefaultsToSource states the consequence for lookups |
| Parsers.FirstAnswering | tools/qdoc3/codeparser.cpp:154-199 | the result is None exactly when no parser answers; otherwise it is a parser that answers and no earlier one does |
| Parsers.FirstAnsweringAt | tools/qdoc3/codeparser.cpp:157-160 | a parser that answers, with no earlier parser answering, is the one the lookup returns |
| CodeParsers.CodeParser.ParserForLanguage | tools/qdoc3/codeparser.cpp:154-163 | the result is the first registered parser of that language, or None |
| CodeParsers.CodeParser.MatchesAny | tools/qdoc3/codeparser.cpp:173-177 | true exactly when some pattern matches the whole file name |
| CodeParsers.CodeParser.ParserForHeaderFile | tools/qdoc3/codeparser.cpp:165-181 | the result is the first parser one of whose header patterns matches the bare file name, or None |
| CodeParsers.CodeParser.ParserForSourceFile | tools/qdoc3/codeparser.cpp:183-199 | the result is the first parser one of whose source patterns matches the bare file name, or None |
| Parsers.HeaderLookupDefaultsToSource | tools/qdoc3/codeparser.cpp:112-115 | when no parser overrides the header filter, a header lookup equals the source lookup |
| Strings.FileName | tools/qdoc3/codeparser.cpp:167 | the file name is the suffix of the path after its last '/' and holds no '/' |
| Wildcards.Glob | tools/qdoc3/codeparser.cpp:174-175 | the case-insensitive wildcard exact match; characterised by GlobIgnoresCase, GlobLiteral and GlobStarSuffix |
| Wildcards.GlobIgnoresCase | tools/qdoc3/codeparser.cpp:174-175 | names equal up to case match the same patterns |
| Wildcards.GlobLiteral | tools/qdoc3/codeparser.cpp:192-193 | a pattern without wildcards matches exactly the names equal to it up to case |
| Wildcards.GlobStarSuffix | tools/qdoc3/codeparser.cpp:192-193 | "*" followed by a literal matches exactly the names ending in that literal up to case |
| Wildcards.CppFilterAcceptsUpperCase | tools/qdoc3/codeparser.cpp:192-193 | the filter "*.cpp" accepts "Foo.CPP" |
| MetaCommands.CommonMetaCommands | tools/qdoc3/codeparser.cpp:204-223 | the seventeen common metacommand names; CommonMetaCommandsHandled ties them to the dispatch |
| MetaCommands.ParseCommand | tools/qdoc3/codeparser.cpp:236-298 | the if-chain of name comparisons; CommandNameParses and ParsedCommandName show it is a bijection between names and commands |
| MetaCommands.Apply | tools/qdoc3/codeparser.cpp:236-309 | the effect of each recognised command on the node value, the tables and the warnings; stated command by command by the lemmas below |
| MetaCommands.Interpret | tools/qdoc3/codeparser.cpp:236-309 | the dispatch followed by Apply, or no effect for an unrecognised name (UnrecognizedIsNoOp) |
| MetaCommands.CommonMetaCommandsHandled | tools/qdoc3/codeparser.cpp:204-223 | a name is a common metacommand exactly when processCommonMetaCommand has a branch for it |
| MetaCommands.CommandNameParses | tools/qdoc3/codeparser.cpp:236-309 | every command's branch is reached by its own name: no branch is shadowed and no two commands share a name |
| MetaCommands.ParsedCommandName | tools/qdoc3/codeparser.cpp:236-309 | a name that reaches a branch is that command's name |
| MetaCommands.UnrecognizedIsNoOp | tools/qdoc3/codeparser.cpp:236-309 | a command name with no branch changes nothing and reports nothing |
| CodeParsers.CodeParser.ProcessCommonMetaCommand | tools/qdoc3/codeparser.cpp:230-310 | the node, the tree and the static tables end as Interpret says, and the warnings are its warnings |
| CodeParsers.CodeParser.ApplyCommand | tools/qdoc3/codeparser.cpp:236-309 | each recognised command changes the node, the tree and the tables as Apply says |
| CodeParsers.CodeParser.SetNodeFields | tools/qdoc3/codeparser.cpp:236-297 | each command that touches no table changes the node's fields and reports warnings as Apply says |
| MetaCommands.CompatAndObsolete | tools/qdoc3/codeparser.cpp:236-239 | \compat sets Compat and warns; \obsolete sets Obsolete only on a node not marked Compat |
| MetaCommands.CompatPrecedence | tools/qdoc3/codeparser.cpp:262-265 | \compat and \obsolete in either order leave the node Compat |
| MetaCommands.InternalRespectsShowInternal | tools/qdoc3/codeparser.cpp:272-277 | \internal makes the node private and internal unless showInternal is set, when it changes nothing |
| MetaCommands.ThreadSafenessOnly | tools/qdoc3/codeparser.cpp:266-297 | \nonreentrant (266-268), \reentrant (278-280) and \threadsafe (295-297) set the thread safeness and nothing else |
| MetaCommands.TitleIgnoredOffPage | tools/qdoc3/codeparser.cpp:287-309 | \title and \subtitle on a non-page node warn and change nothing |
| MetaCommands.TitleOnPage | tools/qdoc3/codeparser.cpp:298-306 | \title on a page sets the title, records it for titleFromName, registers example pages by title, and changes nothing else |
| MetaCommands.SubtitleOnPage | tools/qdoc3/codeparser.cpp:287-291 | \subtitle on a page sets the subtitle and nothing else |
| MetaCommands.TitleOf | tools/qdoc3/codeparser.cpp:317 | QMap::value: the recorded title, or the empty string; see TitleOnPage and UnrecordedTitleIsEmpty |
| CodeParsers.CodeParser.TitleFromName | tools/qdoc3/codeparser.cpp:315-319 | the title recorded in the static nameToTitle table for the page name, or the empty string |
| MetaCommands.UnrecordedTitleIsEmpty | tools/qdoc3/codeparser.cpp:315-319 | titleFromName of a name with no recorded title is the empty string |
| MetaCommands.InGroupAdds | tools/qdoc3/codeparser.cpp:243-245 | \ingroup adds the node to the named group and changes nothing else |
| MetaCommands.InPublicGroupAdds | tools/qdoc3/codeparser.cpp:246-248 | \inpublicgroup adds the node to the named public group and changes nothing else |
| MetaCommands.InQmlModuleAdds | tools/qdoc3/codeparser.cpp:252-258 | \inqmlmodule sets the QML module, adds the node to it and registers it under "identifier::name" |
| MetaCommands.TablesUnchanged | tools/qdoc3/codeparser.cpp:236-309 | only \ingroup, \inpublicgroup, \inqmlmodule and \title touch any table |
| MetaCommands.ApplyIdempotent | tools/qdoc3/codeparser.cpp:236-309 | every command except \pagekeywords given twice has the effect of giving it once |
| MetaCommands.PageKeywordsAppend | tools/qdoc3/codeparser.cpp:284-286 | \pagekeywords appends its argument to the node's keywords |
| Nodes.AddMember | tools/qdoc3/codeparser.cpp:244 | after adding, the node is a member of the group, earlier members keep their order, at most one entry is added, a node already there changes nothing, and other groups are unchanged |
| Nodes.AddMemberIdempotent | tools/qdoc3/codeparser.cpp:244 | adding a member twice is adding it once |
| Nodes.Tree.AddToGroup | tools/qdoc3/codeparser.cpp:244 | the tree's groups become AddMember of the old groups |
| Nodes.Tree.AddToPublicGroup | tools/qdoc3/codeparser.cpp:247 | the tree's public groups become AddMember of the old ones |
| Nodes.Tree.AddToQmlModule | tools/qdoc3/codeparser.cpp:254 | the tree's QML modules become AddMember of the old ones |
| Strings.IndexOf | tools/qdoc3/codeparser.cpp:337 | the result is the first occurrence at or after the start index, or -1 when there is none |
| Strings.Contains | tools/qdoc3/codeparser.cpp:338 | true exactly when the text occurs somewhere in the string |
| Strings.Trimmed | tools/qdoc3/codeparser.cpp:339-340 | QString::trimmed; characterised by TrimmedPadded and TrimmedUnpadded |
| Strings.TrimmedPadded | tools/qdoc3/codeparser.cpp:339-340 | trimming removes exactly the surrounding whitespace of an unpadded text |
| Strings.TrimmedUnpadded | tools/qdoc3/codeparser.cpp:339-340 | the trimmed text is a slice of the input, has no whitespace at either end, and all that was cut is whitespace |
| PageLinks.MatchBraced | tools/qdoc3/codeparser.cpp:328-330 | the exact match of the braced expression with its captures; MatchBracedSound and MatchBracedComplete show it accepts exactly the braced forms |
| PageLinks.ExtractPageLinkAndDesc | tools/qdoc3/codeparser.cpp:324-347 | the (link, description) pair of an argument; BracedLink, HtmlLink and PlainLink fix it for every argument |
| PageLinks.MatchBracedSound | tools/qdoc3/codeparser.cpp:328-330 | every match of the braced expression is "{a}" or "{a}{b}" with brace-free parts as captures |
| PageLinks.MatchBracedComplete | tools/qdoc3/codeparser.cpp:328-330 | every "{a}" or "{a}{b}" with brace-free parts matches, with those parts as captures |
| PageLinks.BracedLink | tools/qdoc3/codeparser.cpp:330-335 | "{a}{b}" links to a and shows b, or a when b is empty; "{a}" links to and shows a |
| PageLinks.HtmlLink | tools/qdoc3/codeparser.cpp:337-341 | an unbraced argument holding ".html" and a space splits at the first space, both halves trimmed |
| PageLinks.PlainLink | tools/qdoc3/codeparser.cpp:342-345 | any other argument is both link and description, unchanged |
| PageLinks.BracedPairExample | tools/qdoc3/codeparser.cpp:330-335 | "{a}{b}" gives the link a with the description b |
| PageLinks.BracedSingleExample | tools/qdoc3/codeparser.cpp:330-335 | "{a}" gives the link a with the description a |
| PageLinks.HtmlExample | tools/qdoc3/codeparser.cpp:337-341 | "page.html Some Desc" gives ("page.html", "Some Desc") |
| PageLinks.PlainExample | tools/qdoc3/codeparser.cpp:342-345 | "plain text" gives ("plain text", "plain text") |
| CodeParsers.CodeParser.SetLink | tools/qdoc3/codeparser.cpp:352-358 | the node's link of the given type becomes the extracted pair; nothing else about the node changes |
| CodeParsers.CodeParser.CreateOutputSubdirectory | tools/qdoc3/codeparser.cpp:370-407 | per outcome of DeriveSubDir: nothing when unconfigured; a warning with currentSubDir_ unchanged; an empty segment stored with a warning; or the sub-directory stored and output/sub requested |
| SubDirs.DeriveSubDir | tools/qdoc3/codeparser.cpp:373-394 | which outcome a path gives; MissingBaseDir, NoSlashAfterBaseDir, NoSlashAfterSubDir, DeriveSubDirAt and FoundSubDirShape cover every case |
| SubDirs.MissingBaseDir | tools/qdoc3/codeparser.cpp:375-378 | a base directory absent from the path is reported and nothing else happens |
| SubDirs.NoSlashAfterBaseDir | tools/qdoc3/codeparser.cpp:380-383 | no '/' at or after the base directory gives only the no-sub-directory warning |
| SubDirs.NoSlashAfterSubDir | tools/qdoc3/codeparser.cpp:385-389 | a sub-directory not closed by '/' gives only the no-file-name warning, quoting the rest of the path |
| SubDirs.DeriveSubDirAt | tools/qdoc3/codeparser.cpp:380-394 | the sub-directory is the text between the first '/' after the base directory and the next '/', or an empty-segment warning when they are adjacent |
| SubDirs.FirstSlashFrom | tools/qdoc3/codeparser.cpp:380 | the first '/' from an index is found by indexOf |
| SubDirs.FoundSubDirShape | tools/qdoc3/codeparser.cpp:384-391 | a found sub-directory is a non-empty slash-free segment between those two slashes |
| SubDirs.SubDirExample | tools/qdoc3/codeparser.cpp:373-396 | base "src" in "/repo/src/sub/file.cpp" gives "sub" |

## Left out

- Creating the output sub-directory (`QDir::exists`, `mkpath`) and the fatal error when that fails: `CreateOutputSubdirectory` returns the directory to be ensured instead.
- Warning message texts and their translation: warnings are values naming which warning and the strings it quotes.
- `Location`: warnings are returned, not attached to a source location.
- Command aliases from the documentation markup: command names are the literal names.
- QRegExp wildcard syntax beyond `*` and `?` (character classes `[...]`), and case folding beyond ASCII letters.
- Platform path separators other than '/' in `QFileInfo::fileName`.
- The virtual parsing entry points (`parseHeaderFile`, `parseSourceFile`, `doneParsingHeaderFiles`, `doneParsingSourceFiles`) and `terminateParser`: they belong to the plugins; `Terminate` records the order parsers are visited in.
- `Config::getBool`: the `showinternal` setting is a parameter of `Initialize`.
- CodeParsers.CodeParser.Initialize: assumes every plugin's `initializeParser` calls the base class's, so the flag is set once per parser; a plugin that does not is not modelled.
- `Generator::baseDir` and `Generator::outputDir`: parameters of `CreateOutputSubdirectory`.
- `Node::qmlModuleIdentifier` is a parameter of the metacommand operations; the unchecked casts to `QmlClassNode`, `FakeNode` and `ExampleNode` are not modelled (the maps hold the node itself).
- tree.cpp and node.cpp are not part of this model: group and QML module membership is modelled as an insertion-ordered set per name, `addToPublicGroup` as touching only the public groups, and `addPageKeywords` as appending.
- A node's other fields (parent, location, documentation, type-specific data) are not modelled; only the fields the metacommands and `setLink` write are.
