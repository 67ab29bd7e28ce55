/** The part of the documentation node model the metacommands change: a
    node's value as a record, the node itself as an object, and the tree's
    membership tables. */
module Nodes {
  import opened PageLinks

  /** Node::Status; Commendable is what an unannotated node has. */
  datatype Status = Compat | Obsolete | Deprecated | Preliminary | Commendable | Main | Internal

  datatype Access = Public | Protected | Private

  datatype ThreadSafeness = UnspecifiedSafeness | NonReentrant | Reentrant | ThreadSafe

  /** A page node (Node::Fake) carries a subtype; only example pages matter here. */
  datatype PageSubType = Example | OtherPage

  /** Fake nodes are documentation pages; every other node type documents a
      code entity. */
  datatype NodeKind = Page(subType: PageSubType) | CodeEntity

  /** Node::LinkType. */
  datatype LinkType = StartLink | NextLink | PreviousLink | ContentsLink | IndexLink | InheritsLink

  /** What a node holds, as a value: its name and kind (never changed here)
      and the fields the metacommands and setLink write. `title` and
      `subtitle` belong to page nodes. */
  datatype NodeData = NodeData(
    name: string,
    kind: NodeKind,
    status: Status,
    access: Access,
    threadSafeness: ThreadSafeness,
    moduleName: string,
    qmlModuleName: string,
    since: string,
    pageKeywords: seq<string>,
    title: string,
    subtitle: string,
    links: map<LinkType, PageLink>)

  /** A documentation node, updated in place through its setters. */
  class Node {
    var name: string
    var kind: NodeKind
    var status: Status
    var access: Access
    var threadSafeness: ThreadSafeness
    var moduleName: string
    var qmlModuleName: string
    var since: string
    var pageKeywords: seq<string>
    var title: string
    var subtitle: string
    var links: map<LinkType, PageLink>

    function Data(): NodeData
      reads this
    {
      NodeData(name, kind, status, access, threadSafeness, moduleName, qmlModuleName,
               since, pageKeywords, title, subtitle, links)
    }
  }

  /** Adds `x` to the members of `key`, unless it is a member already; a
      group is an insertion-ordered set of nodes. */
  function AddMember<N(==)>(m: map<string, seq<N>>, key: string, x: N): (r: map<string, seq<N>>)
    ensures key in r && x in r[key]
    ensures forall i :: 0 <= i < |r[key]| ==> r[key][i] == x || (key in m && r[key][i] in m[key])
    ensures key in m ==> |m[key]| <= |r[key]| <= |m[key]| + 1 && r[key][..|m[key]|] == m[key]
    ensures key in m && x in m[key] ==> r == m
    ensures forall k :: k in m && k != key ==> k in r && r[k] == m[k]
    ensures r.Keys == m.Keys + {key}
  {
    if key !in m then m[key := [x]]
    else if x in m[key] then m
    else m[key := m[key] + [x]]
  }

  /** Adding a member twice is adding it once. */
  lemma AddMemberIdempotent<N>(m: map<string, seq<N>>, key: string, x: N)
    ensures AddMember(AddMember(m, key, x), key, x) == AddMember(m, key, x)
  {
    var r := AddMember(m, key, x);
    assert key in r && x in r[key];
  }

  /** The tree's membership tables: group name to its members, public group
      name to its members, QML module name to its members. */
  class Tree {
    var groups: map<string, seq<Node>>
    var publicGroups: map<string, seq<Node>>
    var qmlModules: map<string, seq<Node>>

    /** Tree::addToGroup. */
    method AddToGroup(node: Node, group: string)
      modifies this`groups
      ensures groups == AddMember(old(groups), group, node)
    {
      groups := AddMember(groups, group, node);
    }

    /** Tree::addToPublicGroup. */
    method AddToPublicGroup(node: Node, group: string)
      modifies this`publicGroups
      ensures publicGroups == AddMember(old(publicGroups), group, node)
    {
      publicGroups := AddMember(publicGroups, group, node);
    }

    /** Tree::addToQmlModule. */
    method AddToQmlModule(node: Node, qmlModule: string)
      modifies this`qmlModules
      ensures qmlModules == AddMember(old(qmlModules), qmlModule, node)
    {
      qmlModules := AddMember(qmlModules, qmlModule, node);
    }
  }
}
