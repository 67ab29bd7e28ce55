/** CodeParser::processCommonMetaCommand and titleFromName as functions on
    values: what one metacommand does to a node, to the tree's tables and to
    the process-wide lookups. The tables are generic in the type of node
    reference `N`, so the same function specifies the in-place method. */
module MetaCommands {
  import opened Diagnostics
  import opened Options
  import opened Nodes

  /** The tables a metacommand may add to: the tree's groups, public groups
      and QML modules, and the process-wide page-name-to-title index, the
      example pages by title and the QML classes by qualified name. */
  datatype Tables<N> = Tables(
    groups: map<string, seq<N>>,
    publicGroups: map<string, seq<N>>,
    qmlModules: map<string, seq<N>>,
    nameToTitle: map<string, string>,
    exampleNodeMap: map<string, N>,
    moduleMap: map<string, N>)

  /** The outcome of one metacommand: the node's new value, the new tables
      and the warnings reported. */
  datatype Effect<N> = Effect(node: NodeData, tables: Tables<N>, warnings: seq<Warning>)

  /** The metacommands handled here, one per COMMAND_ macro. */
  datatype MetaCommand =
    | CommandCompat | CommandDeprecated | CommandInGroup | CommandInPublicGroup | CommandInModule
    | CommandInQmlModule | CommandMainClass | CommandObsolete | CommandNonReentrant
    | CommandPreliminary | CommandInternal | CommandReentrant | CommandSince
    | CommandPageKeywords | CommandSubtitle | CommandThreadSafe | CommandTitle

  /** The name a command is written with in a documentation comment. */
  function CommandName(c: MetaCommand): string
  {
    match c
    case CommandCompat => "compat"
    case CommandDeprecated => "deprecated"
    case CommandInGroup => "ingroup"
    case CommandInPublicGroup => "inpublicgroup"
    case CommandInModule => "inmodule"
    case CommandInQmlModule => "inqmlmodule"
    case CommandMainClass => "mainclass"
    case CommandObsolete => "obsolete"
    case CommandNonReentrant => "nonreentrant"
    case CommandPreliminary => "preliminary"
    case CommandInternal => "internal"
    case CommandReentrant => "reentrant"
    case CommandSince => "since"
    case CommandPageKeywords => "pagekeywords"
    case CommandSubtitle => "subtitle"
    case CommandThreadSafe => "threadsafe"
    case CommandTitle => "title"
  }

  /** The dispatch on the command's name, tested in the order of the
      source's if-chain; None for a name that is none of them. */
  function ParseCommand(name: string): Option<MetaCommand>
  {
    if name == "compat" then Some(CommandCompat)
    else if name == "deprecated" then Some(CommandDeprecated)
    else if name == "ingroup" then Some(CommandInGroup)
    else if name == "inpublicgroup" then Some(CommandInPublicGroup)
    else if name == "inmodule" then Some(CommandInModule)
    else if name == "inqmlmodule" then Some(CommandInQmlModule)
    else if name == "mainclass" then Some(CommandMainClass)
    else if name == "obsolete" then Some(CommandObsolete)
    else if name == "nonreentrant" then Some(CommandNonReentrant)
    else if name == "preliminary" then Some(CommandPreliminary)
    else if name == "internal" then Some(CommandInternal)
    else if name == "reentrant" then Some(CommandReentrant)
    else if name == "since" then Some(CommandSince)
    else if name == "pagekeywords" then Some(CommandPageKeywords)
    else if name == "subtitle" then Some(CommandSubtitle)
    else if name == "threadsafe" then Some(CommandThreadSafe)
    else if name == "title" then Some(CommandTitle)
    else None
  }

  /** CodeParser::commonMetaCommands: the names of the metacommands every
      code parser hands to processCommonMetaCommand. */
  function CommonMetaCommands(): set<string>
  {
    {"compat", "deprecated", "ingroup", "inmodule", "inqmlmodule", "internal", "mainclass",
     "nonreentrant", "obsolete", "pagekeywords", "preliminary", "inpublicgroup", "reentrant",
     "since", "subtitle", "threadsafe", "title"}
  }

  /** The advertised set and the dispatch agree: a name is in the set
      exactly when processCommonMetaCommand has a branch for it. */
  lemma CommonMetaCommandsHandled(name: string)
    ensures name in CommonMetaCommands() <==> ParseCommand(name).Some?
  {
  }

  /** Every command is recognised by its own name: the dispatch has no
      shadowed branch and no two commands share a name. */
  lemma CommandNameParses(c: MetaCommand)
    ensures ParseCommand(CommandName(c)) == Some(c)
  {
  }

  /** A recognised name is the name of the command it is recognised as. */
  lemma ParsedCommandName(name: string)
    ensures ParseCommand(name).Some? ==> CommandName(ParseCommand(name).value) == name
  {
  }

  /** QMap::value: the title recorded for a page name, or the empty string. */
  function TitleOf(nameToTitle: map<string, string>, name: string): string
  {
    if name in nameToTitle then nameToTitle[name] else ""
  }

  /** What one recognised command does to the node whose value is `n` and
      whose reference is `self`. `qmlModuleIdentifier` is the node model's
      Node::qmlModuleIdentifier, which is not part of this model. */
  function Apply<N(==)>(c: MetaCommand, arg: string, n: NodeData, self: N, t: Tables<N>,
                        showInternal: bool, qmlModuleIdentifier: NodeData -> string): Effect<N>
  {
    match c
    case CommandCompat => Effect(n.(status := Compat), t, [CompatUnsupported])
    case CommandDeprecated => Effect(n.(status := Deprecated), t, [])
    case CommandInGroup => Effect(n, t.(groups := AddMember(t.groups, arg, self)), [])
    case CommandInPublicGroup => Effect(n, t.(publicGroups := AddMember(t.publicGroups, arg, self)), [])
    case CommandInModule => Effect(n.(moduleName := arg), t, [])
    case CommandInQmlModule =>
      var n' := n.(qmlModuleName := arg);
      var key := qmlModuleIdentifier(n') + "::" + n.name;
      Effect(n', t.(qmlModules := AddMember(t.qmlModules, arg, self),
                    moduleMap := t.moduleMap[key := self]), [])
    case CommandMainClass => Effect(n.(status := Main), t, [])
    case CommandObsolete => Effect(if n.status != Compat then n.(status := Obsolete) else n, t, [])
    case CommandNonReentrant => Effect(n.(threadSafeness := NonReentrant), t, [])
    case CommandPreliminary => Effect(n.(status := Preliminary), t, [])
    case CommandInternal =>
      Effect(if !showInternal then n.(access := Private, status := Internal) else n, t, [])
    case CommandReentrant => Effect(n.(threadSafeness := Reentrant), t, [])
    case CommandSince => Effect(n.(since := arg), t, [])
    case CommandPageKeywords => Effect(n.(pageKeywords := n.pageKeywords + [arg]), t, [])
    case CommandSubtitle =>
      if n.kind.Page? then Effect(n.(subtitle := arg), t, [])
      else Effect(n, t, [IgnoredCommand("subtitle")])
    case CommandThreadSafe => Effect(n.(threadSafeness := ThreadSafe), t, [])
    case CommandTitle =>
      if n.kind.Page? then
        var n' := n.(title := arg);
        var examples := if n.kind.subType == Example then t.exampleNodeMap[n'.title := self]
                        else t.exampleNodeMap;
        Effect(n', t.(exampleNodeMap := examples, nameToTitle := t.nameToTitle[n.name := arg]), [])
      else Effect(n, t, [IgnoredCommand("title")])
  }

  /** CodeParser::processCommonMetaCommand: dispatch on the command's name;
      a name that is not a metacommand falls through the chain. */
  function Interpret<N(==)>(command: string, arg: string, n: NodeData, self: N, t: Tables<N>,
                            showInternal: bool, qmlModuleIdentifier: NodeData -> string): Effect<N>
  {
    match ParseCommand(command)
    case None => Effect(n, t, [])
    case Some(c) => Apply(c, arg, n, self, t, showInternal, qmlModuleIdentifier)
  }

  /** A command the interpreter does not recognise changes nothing and
      reports nothing. */
  lemma UnrecognizedIsNoOp<N>(command: string, arg: string, n: NodeData, self: N, t: Tables<N>,
                              showInternal: bool, qmid: NodeData -> string)
    requires forall c :: CommandName(c) != command
    ensures Interpret(command, arg, n, self, t, showInternal, qmid) == Effect(n, t, [])
  {
    if ParseCommand(command).Some? {
      ParsedCommandName(command);
      assert false;
    }
  }

  /** \compat always sets the status to Compat and warns; \obsolete sets
      Obsolete only on a node that is not Compat, and leaves a Compat node
      exactly as it was. */
  lemma CompatAndObsolete<N>(arg: string, n: NodeData, self: N, t: Tables<N>,
                             showInternal: bool, qmid: NodeData -> string)
    ensures Apply(CommandCompat, arg, n, self, t, showInternal, qmid)
            == Effect(n.(status := Compat), t, [CompatUnsupported])
    ensures n.status == Compat ==> Apply(CommandObsolete, arg, n, self, t, showInternal, qmid) == Effect(n, t, [])
    ensures n.status != Compat ==>
              Apply(CommandObsolete, arg, n, self, t, showInternal, qmid) == Effect(n.(status := Obsolete), t, [])
  {
  }

  /** Compat takes precedence whatever the order: \compat then \obsolete,
      and \obsolete then \compat, both end with status Compat. */
  lemma CompatPrecedence<N>(arg: string, n: NodeData, self: N, t: Tables<N>,
                            showInternal: bool, qmid: NodeData -> string)
    ensures var e1 := Interpret("compat", arg, n, self, t, showInternal, qmid);
            Interpret("obsolete", arg, e1.node, self, e1.tables, showInternal, qmid).node.status == Compat
    ensures var e1 := Interpret("obsolete", arg, n, self, t, showInternal, qmid);
            Interpret("compat", arg, e1.node, self, e1.tables, showInternal, qmid).node.status == Compat
  {
    CommandNameParses(CommandCompat);
    CommandNameParses(CommandObsolete);
  }

  /** \internal makes the node private and internal unless internal
      documentation is shown, in which case it changes nothing. */
  lemma InternalRespectsShowInternal<N>(arg: string, n: NodeData, self: N, t: Tables<N>,
                                        showInternal: bool, qmid: NodeData -> string)
    ensures Apply(CommandInternal, arg, n, self, t, showInternal, qmid)
            == Effect(if showInternal then n else n.(access := Private, status := Internal), t, [])
  {
  }

  /** \threadsafe, \reentrant and \nonreentrant change the thread safeness
      and nothing else. */
  lemma ThreadSafenessOnly<N>(c: MetaCommand, arg: string, n: NodeData, self: N, t: Tables<N>,
                              showInternal: bool, qmid: NodeData -> string)
    requires c == CommandThreadSafe || c == CommandReentrant || c == CommandNonReentrant
    ensures Apply(c, arg, n, self, t, showInternal, qmid)
            == Effect(n.(threadSafeness := if c == CommandThreadSafe then ThreadSafe
                                           else if c == CommandReentrant then Reentrant
                                           else NonReentrant), t, [])
  {
  }

  /** \title and \subtitle on a node that is not a page are reported as
      ignored and change neither the node nor any table. */
  lemma TitleIgnoredOffPage<N>(c: MetaCommand, arg: string, n: NodeData, self: N, t: Tables<N>,
                               showInternal: bool, qmid: NodeData -> string)
    requires (c == CommandTitle || c == CommandSubtitle) && !n.kind.Page?
    ensures Apply(c, arg, n, self, t, showInternal, qmid) == Effect(n, t, [IgnoredCommand(CommandName(c))])
  {
  }

  /** \title on a page sets its title, records it under the page's name so
      that titleFromName gives it back, and registers an example page under
      its title; nothing else changes. */
  lemma TitleOnPage<N>(arg: string, n: NodeData, self: N, t: Tables<N>,
                       showInternal: bool, qmid: NodeData -> string)
    requires n.kind.Page?
    ensures var e := Apply(CommandTitle, arg, n, self, t, showInternal, qmid);
            && e.node == n.(title := arg)
            && TitleOf(e.tables.nameToTitle, n.name) == arg
            && (forall other :: other != n.name ==> TitleOf(e.tables.nameToTitle, other) == TitleOf(t.nameToTitle, other))
            && e.tables.exampleNodeMap == (if n.kind.subType == Example then t.exampleNodeMap[arg := self]
                                           else t.exampleNodeMap)
            && e.tables == t.(exampleNodeMap := e.tables.exampleNodeMap, nameToTitle := e.tables.nameToTitle)
            && e.warnings == []
  {
  }

  /** \subtitle on a page sets its subtitle and nothing else. */
  lemma SubtitleOnPage<N>(arg: string, n: NodeData, self: N, t: Tables<N>,
                          showInternal: bool, qmid: NodeData -> string)
    requires n.kind.Page?
    ensures Apply(CommandSubtitle, arg, n, self, t, showInternal, qmid) == Effect(n.(subtitle := arg), t, [])
  {
  }

  /** A page name that no \title has recorded has the empty title. */
  lemma UnrecordedTitleIsEmpty(nameToTitle: map<string, string>, name: string)
    requires name !in nameToTitle
    ensures TitleOf(nameToTitle, name) == ""
  {
  }

  /** \ingroup adds the node to the group named by the argument, keeping
      the members already there and every other group as it was. */
  lemma InGroupAdds<N>(arg: string, n: NodeData, self: N, t: Tables<N>,
                       showInternal: bool, qmid: NodeData -> string)
    ensures var e := Apply(CommandInGroup, arg, n, self, t, showInternal, qmid);
            e.node == n && e.tables == t.(groups := AddMember(t.groups, arg, self)) && e.warnings == []
  {
  }

  /** \inpublicgroup does the same with the public groups. */
  lemma InPublicGroupAdds<N>(arg: string, n: NodeData, self: N, t: Tables<N>,
                             showInternal: bool, qmid: NodeData -> string)
    ensures var e := Apply(CommandInPublicGroup, arg, n, self, t, showInternal, qmid);
            e.node == n && e.tables == t.(publicGroups := AddMember(t.publicGroups, arg, self)) && e.warnings == []
  {
  }

  /** \inqmlmodule sets the node's QML module, adds the node to that module
      and registers it as a QML class under "<module identifier>::<name>". */
  lemma InQmlModuleAdds<N>(arg: string, n: NodeData, self: N, t: Tables<N>,
                           showInternal: bool, qmid: NodeData -> string)
    ensures var e := Apply(CommandInQmlModule, arg, n, self, t, showInternal, qmid);
            && e.node == n.(qmlModuleName := arg)
            && e.tables == t.(qmlModules := AddMember(t.qmlModules, arg, self),
                              moduleMap := t.moduleMap[qmid(e.node) + "::" + n.name := self])
            && e.warnings == []
  {
  }

  /** Only the table commands and \title touch the tables. */
  lemma TablesUnchanged<N>(c: MetaCommand, arg: string, n: NodeData, self: N, t: Tables<N>,
                           showInternal: bool, qmid: NodeData -> string)
    requires !(c.CommandInGroup? || c.CommandInPublicGroup? || c.CommandInQmlModule? || c.CommandTitle?)
    ensures Apply(c, arg, n, self, t, showInternal, qmid).tables == t
  {
  }

  /** Every command but \pagekeywords is idempotent: giving it twice leaves
      the node and the tables as giving it once. */
  lemma ApplyIdempotent<N>(c: MetaCommand, arg: string, n: NodeData, self: N, t: Tables<N>,
                           showInternal: bool, qmid: NodeData -> string)
    requires c != CommandPageKeywords
    ensures var once := Apply(c, arg, n, self, t, showInternal, qmid);
            var twice := Apply(c, arg, once.node, self, once.tables, showInternal, qmid);
            twice.node == once.node && twice.tables == once.tables
  {
    match c {
      case CommandInGroup => AddMemberIdempotent(t.groups, arg, self);
      case CommandInPublicGroup => AddMemberIdempotent(t.publicGroups, arg, self);
      case CommandInQmlModule => AddMemberIdempotent(t.qmlModules, arg, self);
      case _ =>
    }
  }

  /** \pagekeywords appends its argument to the node's keywords. */
  lemma PageKeywordsAppend<N>(arg: string, n: NodeData, self: N, t: Tables<N>,
                              showInternal: bool, qmid: NodeData -> string)
    ensures var e := Apply(CommandPageKeywords, arg, n, self, t, showInternal, qmid);
            e.node == n.(pageKeywords := n.pageKeywords + [arg]) && e.tables == t && e.warnings == []
  {
  }
}
