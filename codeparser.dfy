/** The CodeParser base class: its process-wide state and the operations
    on it, each proved against the functions of the other modules. */
module CodeParsers {
  import opened Options
  import opened Strings
  import opened Wildcards
  import opened Parsers
  import opened PageLinks
  import opened Diagnostics
  import opened Nodes
  import opened MetaCommands
  import opened SubDirs

  /** The process-wide state: CodeParser's static members (the parser
      list, showInternal, nameToTitle and currentSubDir_), together with the
      two lookups processCommonMetaCommand fills that are static members of
      other node classes (ExampleNode::exampleNodeMap and
      QmlClassNode::moduleMap). */
  class CodeParser {
    var parsers: seq<Parser>
    var showInternal: bool
    var nameToTitle: map<string, string>
    var currentSubDir: string
    var exampleNodeMap: map<string, Node>
    var moduleMap: map<string, Node>

    /** The static members as a program run starts. */
    constructor ()
      ensures parsers == [] && !showInternal && nameToTitle == map[] && currentSubDir == []
      ensures exampleNodeMap == map[] && moduleMap == map[]
    {
      parsers := [];
      showInternal := false;
      nameToTitle := map[];
      currentSubDir := [];
      exampleNodeMap := map[];
      moduleMap := map[];
    }

    /** CodeParser::CodeParser: a parser being constructed puts itself at
        the front of the list. */
    method Construct(p: Parser)
      modifies this`parsers
      ensures parsers == [p] + old(parsers)
    {
      parsers := [p] + parsers;
    }

    /** CodeParser::~CodeParser: a parser being destroyed removes every
        occurrence of itself from the list. */
    method Destroy(p: Parser)
      modifies this`parsers
      ensures parsers == RemoveAll(old(parsers), p)
    {
      parsers := RemoveAll(parsers, p);
    }

    /** CodeParser::initialize: every parser, in list order, is initialized
        with the configuration. Each one's initializeParser runs the base
        class's, which reads showInternal from the configuration, so the
        flag is set exactly when there is a parser to initialize. */
    method Initialize(showInternalSetting: bool) returns (initialized: seq<Parser>)
      modifies this`showInternal
      ensures initialized == parsers
      ensures showInternal == if parsers == [] then old(showInternal) else showInternalSetting
    {
      initialized := [];
      var i := 0;
      while i < |parsers|
        invariant 0 <= i <= |parsers|
        invariant initialized == parsers[..i]
        invariant showInternal == if i == 0 then old(showInternal) else showInternalSetting
      {
        showInternal := showInternalSetting;
        initialized := initialized + [parsers[i]];
        i := i + 1;
      }
    }

    /** CodeParser::terminate: every parser, in list order, is terminated. */
    method Terminate() returns (terminated: seq<Parser>)
      ensures terminated == parsers
    {
      terminated := [];
      var i := 0;
      while i < |parsers|
        invariant 0 <= i <= |parsers|
        invariant terminated == parsers[..i]
      {
        terminated := terminated + [parsers[i]];
        i := i + 1;
      }
    }

    /** CodeParser::parserForLanguage: the first parser in list order whose
        language is `language`, or None. */
    method ParserForLanguage(language: string) returns (r: Option<Parser>)
      ensures r == FirstAnswering(parsers, ByLanguage(language))
    {
      var i := 0;
      while i < |parsers|
        invariant 0 <= i <= |parsers|
        invariant forall k :: 0 <= k < i ==> !Answers(parsers[k], ByLanguage(language))
      {
        if parsers[i].language == language {
          FirstAnsweringAt(parsers, ByLanguage(language), i);
          return Some(parsers[i]);
        }
        i := i + 1;
      }
      return None;
    }

    /** The inner loop of the file lookups: each pattern in turn, as a
        case-insensitive wildcard expression, against the whole file name. */
    static method MatchesAny(patterns: seq<string>, fileName: string) returns (matched: bool)
      ensures matched <==> AnyMatches(patterns, fileName)
    {
      var j := 0;
      while j < |patterns|
        invariant 0 <= j <= |patterns|
        invariant forall k :: 0 <= k < j ==> !Glob(patterns[k], fileName)
      {
        if Glob(patterns[j], fileName) {
          return true;
        }
        j := j + 1;
      }
      return false;
    }

    /** CodeParser::parserForHeaderFile: the first parser in list order one
        of whose header patterns matches the bare file name, or None. */
    method ParserForHeaderFile(filePath: string) returns (r: Option<Parser>)
      ensures r == FirstAnswering(parsers, ByHeaderFile(FileName(filePath)))
    {
      var fileName := FileName(filePath);
      var q := ByHeaderFile(fileName);
      var ps := parsers;
      var i := 0;
      while i < |ps|
        invariant 0 <= i <= |ps|
        invariant forall k :: 0 <= k < i ==> !Answers(ps[k], q)
      {
        var matched := MatchesAny(HeaderFileNameFilter(ps[i]), fileName);
        if matched {
          FirstAnsweringAt(ps, q, i);
          return Some(ps[i]);
        }
        i := i + 1;
      }
      return None;
    }

    /** CodeParser::parserForSourceFile: the first parser in list order one
        of whose source patterns matches the bare file name, or None. */
    method ParserForSourceFile(filePath: string) returns (r: Option<Parser>)
      ensures r == FirstAnswering(parsers, BySourceFile(FileName(filePath)))
    {
      var fileName := FileName(filePath);
      var q := BySourceFile(fileName);
      var ps := parsers;
      var i := 0;
      while i < |ps|
        invariant 0 <= i <= |ps|
        invariant forall k :: 0 <= k < i ==> !Answers(ps[k], q)
      {
        var matched := MatchesAny(ps[i].sourceFilter, fileName);
        if matched {
          FirstAnsweringAt(ps, q, i);
          return Some(ps[i]);
        }
        i := i + 1;
      }
      return None;
    }

    /** The tables processCommonMetaCommand may change, as one value. */
    function TablesOf(tree: Tree): Tables<Node>
      reads this, tree
    {
      Tables(tree.groups, tree.publicGroups, tree.qmlModules, nameToTitle, exampleNodeMap, moduleMap)
    }

    /** CodeParser::processCommonMetaCommand, changing the node, the tree
        and the process-wide lookups in place as Interpret describes. The
        chain of name comparisons is ParseCommand; a name that is none of
        the commands changes nothing. */
    method ProcessCommonMetaCommand(command: string, arg: string, node: Node, tree: Tree,
                                    qmlModuleIdentifier: NodeData -> string)
      returns (warnings: seq<Warning>)
      modifies node, tree, this`nameToTitle, this`exampleNodeMap, this`moduleMap
      ensures var e := Interpret(command, arg, old(node.Data()), node, old(TablesOf(tree)),
                                 showInternal, qmlModuleIdentifier);
              node.Data() == e.node && TablesOf(tree) == e.tables && warnings == e.warnings
    {
      var c := ParseCommand(command);
      if c.Some? {
        warnings := ApplyCommand(c.value, arg, node, tree, qmlModuleIdentifier);
      } else {
        warnings := [];
      }
    }

    /** One branch of processCommonMetaCommand, for a recognised command:
        the commands that add to a table here, the others in SetNodeFields. */
    method ApplyCommand(c: MetaCommand, arg: string, node: Node, tree: Tree,
                        qmlModuleIdentifier: NodeData -> string)
      returns (warnings: seq<Warning>)
      modifies node, tree, this`nameToTitle, this`exampleNodeMap, this`moduleMap
      ensures var e := Apply(c, arg, old(node.Data()), node, old(TablesOf(tree)),
                             showInternal, qmlModuleIdentifier);
              node.Data() == e.node && TablesOf(tree) == e.tables && warnings == e.warnings
    {
      warnings := [];
      match c {
        case CommandInGroup =>
          tree.AddToGroup(node, arg);
        case CommandInPublicGroup =>
          tree.AddToPublicGroup(node, arg);
        case CommandInQmlModule =>
          node.qmlModuleName := arg;
          tree.AddToQmlModule(node, arg);
          var qmid := qmlModuleIdentifier(node.Data());
          moduleMap := moduleMap[qmid + "::" + node.name := node];
        case CommandTitle =>
          if node.kind.Page? {
            node.title := arg;
            if node.kind.subType == Example {
              exampleNodeMap := exampleNodeMap[node.title := node];
            }
            nameToTitle := nameToTitle[node.name := arg];
          } else {
            warnings := [IgnoredCommand("title")];
          }
        case _ =>
          ghost var t := TablesOf(tree);
          warnings := SetNodeFields(c, arg, node, t, qmlModuleIdentifier);
          TablesUnchanged(c, arg, old(node.Data()), node, t, showInternal, qmlModuleIdentifier);
      }
    }

    /** The branches of processCommonMetaCommand that change only the node;
        `t` and `qmlModuleIdentifier` do not influence them. */
    method SetNodeFields(c: MetaCommand, arg: string, node: Node, ghost t: Tables<Node>,
                         ghost qmlModuleIdentifier: NodeData -> string)
      returns (warnings: seq<Warning>)
      requires !(c.CommandInGroup? || c.CommandInPublicGroup? || c.CommandInQmlModule? || c.CommandTitle?)
      modifies node
      ensures var e := Apply(c, arg, old(node.Data()), node, t, showInternal, qmlModuleIdentifier);
              node.Data() == e.node && warnings == e.warnings
    {
      warnings := [];
      match c {
        case CommandCompat =>
          warnings := [CompatUnsupported];
          node.status := Compat;
        case CommandDeprecated =>
          node.status := Deprecated;
        case CommandInModule =>
          node.moduleName := arg;
        case CommandMainClass =>
          node.status := Main;
        case CommandObsolete =>
          if node.status != Compat {
            node.status := Obsolete;
          }
        case CommandNonReentrant =>
          node.threadSafeness := NonReentrant;
        case CommandPreliminary =>
          node.status := Preliminary;
        case CommandInternal =>
          if !showInternal {
            node.access := Private;
            node.status := Internal;
          }
        case CommandReentrant =>
          node.threadSafeness := Reentrant;
        case CommandSince =>
          node.since := arg;
        case CommandPageKeywords =>
          node.pageKeywords := node.pageKeywords + [arg];
        case CommandSubtitle =>
          if node.kind.Page? {
            node.subtitle := arg;
          } else {
            warnings := [IgnoredCommand("subtitle")];
          }
        case CommandThreadSafe =>
          node.threadSafeness := ThreadSafe;
      }
    }

    /** CodeParser::titleFromName: the title recorded for page `name`, or
        the empty string. */
    function TitleFromName(name: string): string
      reads this
    {
      TitleOf(nameToTitle, name)
    }

    /** CodeParser::setLink: the node's link of the given type becomes the
        pair extracted from `arg`; nothing else about the node changes. */
    method SetLink(node: Node, linkType: LinkType, arg: string)
      modifies node
      ensures node.Data() == old(node.Data()).(links := old(node.links)[linkType := ExtractPageLinkAndDesc(arg)])
    {
      var pair := ExtractPageLinkAndDesc(arg);
      node.links := node.links[linkType := pair];
    }

    /** CodeParser::createOutputSubdirectory with the configuration getters
        Generator::baseDir and Generator::outputDir as parameters. The
        directory is not created here: `ensureDir` is the directory the
        source makes sure exists. */
    method CreateOutputSubdirectory(baseDir: string, outputDir: string, filePath: string)
      returns (warnings: seq<Warning>, ensureDir: Option<string>)
      modifies this`currentSubDir
      ensures match DeriveSubDir(baseDir, filePath)
              case Unconfigured => currentSubDir == old(currentSubDir) && warnings == [] && ensureDir == None
              case Failed(w) => currentSubDir == old(currentSubDir) && warnings == [w] && ensureDir == None
              case EmptySegment(w) => currentSubDir == [] && warnings == [w] && ensureDir == None
              case Found(sub) => currentSubDir == sub && warnings == [] && ensureDir == Some(outputDir + "/" + sub)
    {
      warnings, ensureDir := [], None;
      if baseDir != [] {
        var baseIdx := IndexOf(filePath, baseDir, 0);
        if baseIdx == -1 {
          warnings := [NoBaseDirInPath(filePath, baseDir)];
        } else {
          var subDirIdx := IndexOf(filePath, "/", baseIdx);
          if subDirIdx == -1 {
            warnings := [NoSubDirAfterBaseDir(filePath, baseDir)];
          } else {
            subDirIdx := subDirIdx + 1;
            var fileNameIdx := IndexOf(filePath, "/", subDirIdx);
            if fileNameIdx == -1 {
              warnings := [NoFileNameAfterSubDir(filePath, filePath[subDirIdx..])];
            } else {
              currentSubDir := filePath[subDirIdx..fileNameIdx];
              if currentSubDir == [] {
                warnings := [NoSubDirAfterBaseDir(filePath, baseDir)];
              } else {
                ensureDir := Some(outputDir + "/" + currentSubDir);
              }
            }
          }
        }
      }
    }
  }
}
