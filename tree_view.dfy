/**
 * The full tree view (`BasicComponents/TreeView.py`): nodes carry an id,
 * a name, an optional icon, tags and a selectable flag; the view keeps a
 * root list, a configuration and a single or multiple selection, and
 * offers search, icon choice, expand/collapse-all, and node insertion,
 * removal and moves.
 */
module TreeView {
  import opened Wrappers
  import opened TreeArena
  import PyList

  /** The `TreeNode` fields this view reads besides the tree structure. */
  datatype NodeInfo = NodeInfo(id: Option<string>, name: Option<string>, icon: Option<string>,
                               tags: seq<string>, selectable: bool)

  /** The `TreeViewConfig` fields that decide behaviour (icons, multi-selection). */
  datatype Config = Config(folderIcon: string, fileIcon: string, multiSelect: bool,
                           customIcons: map<string, string>)

  /** What the view reports to its `on_*` callbacks (each reaches its callback when one is set). */
  datatype Notice =
    | DoubleClicked(node: nat)
    | Expanded(node: nat)
    | Collapsed(node: nat)
    | Selected(node: nat)
    | SelectionChanged(node: nat, selection: seq<nat>)

  /** `id or name`: an id that is missing or empty falls back to the name. */
  function DefaultId(id: Option<string>, name: Option<string>): Option<string>
  {
    if id.Some? && id.value != "" then id else name
  }

  /**
   * `TreeNode(id, name, children, expanded, icon, tags, selectable)`:
   * a new parentless node whose id defaults to its name; every given child
   * gets the new node as parent.
   */
  method NewTreeNode(arena: Arena<NodeInfo>, id: Option<string>, name: Option<string>, children: seq<nat>,
                     expanded: bool, icon: Option<string>, tags: seq<string>, selectable: bool)
    returns (n: nat)
    requires arena.Valid() && ProperList(arena.nodes, children)
    requires forall k :: 0 <= k < |children| ==> Free(arena.nodes, children[k])
    modifies arena
    ensures arena.Valid() && n == |old(arena.nodes)| && |arena.nodes| == n + 1
    ensures arena.nodes[n].children == children && arena.nodes[n].parent.None? && arena.nodes[n].expanded == expanded
    ensures arena.nodes[n].data.id == (if id.Some? && id.value != "" then id else name)
    ensures arena.nodes[n].data == NodeInfo(arena.nodes[n].data.id, name, icon, tags, selectable)
    ensures forall k :: 0 <= k < |children| ==> arena.nodes[children[k]].parent == Some(n)
    ensures forall i :: 0 <= i < n && i !in children ==> arena.nodes[i] == old(arena.nodes)[i]
  {
    n := arena.NewNode(children, expanded, NodeInfo(DefaultId(id, name), name, icon, tags, selectable));
  }

  /** The icon of the first tag, in `tags` order, that has a custom icon. */
  function FirstTagIcon(tags: seq<string>, customIcons: map<string, string>): (r: Option<string>)
    ensures r.None? <==> forall k :: 0 <= k < |tags| ==> tags[k] !in customIcons
    ensures r.Some? ==> exists k :: 0 <= k < |tags| && tags[k] in customIcons && r.value == customIcons[tags[k]] &&
                                    forall j :: 0 <= j < k ==> tags[j] !in customIcons
  {
    if tags == [] then None
    else if tags[0] in customIcons then Some(customIcons[tags[0]])
    else
      var rest := FirstTagIcon(tags[1..], customIcons);
      assert rest.Some? ==> exists k :: 1 <= k < |tags| && tags[k] in customIcons && rest.value == customIcons[tags[k]] &&
                                        forall j :: 0 <= j < k ==> tags[j] !in customIcons by {
        if rest.Some? {
          var k :| 0 <= k < |tags[1..]| && tags[1..][k] in customIcons && rest.value == customIcons[tags[1..][k]] &&
                   forall j :: 0 <= j < k ==> tags[1..][j] !in customIcons;
          assert tags[k + 1] == tags[1..][k];
          assert forall j :: 1 <= j < k + 1 ==> tags[j] == tags[1..][j - 1];
        }
      }
      rest
  }

  /**
   * `get_node_icon`: an explicit (non-empty) icon wins; otherwise the
   * custom icon of the first tag that has one; otherwise the folder icon
   * for a node with children and the file icon for a leaf.
   */
  function NodeIcon(info: NodeInfo, hasChildren: bool, config: Config): (icon: string)
    ensures info.icon.Some? && info.icon.value != "" ==> icon == info.icon.value
    ensures !(info.icon.Some? && info.icon.value != "") ==>
              (exists k :: 0 <= k < |info.tags| && info.tags[k] in config.customIcons &&
                           icon == config.customIcons[info.tags[k]] &&
                           forall j :: 0 <= j < k ==> info.tags[j] !in config.customIcons) ||
              ((forall k :: 0 <= k < |info.tags| ==> info.tags[k] !in config.customIcons) &&
               icon == if hasChildren then config.folderIcon else config.fileIcon)
  {
    if info.icon.Some? && info.icon.value != "" then info.icon.value
    else match FirstTagIcon(info.tags, config.customIcons)
      case Some(custom) => custom
      case None => if hasChildren then config.folderIcon else config.fileIcon
  }

  /** The first node of a listing whose id is `target`. */
  ghost function FirstWithId(nodes: seq<Node<NodeInfo>>, s: seq<nat>, target: Option<string>): Option<nat>
  {
    if s == [] then None
    else if s[0] < |nodes| && nodes[s[0]].data.id == target then Some(s[0])
    else FirstWithId(nodes, s[1..], target)
  }

  /** The nodes of a listing that carry `tag`, in listing order. */
  ghost function WithTag(nodes: seq<Node<NodeInfo>>, s: seq<nat>, tag: string): seq<nat>
  {
    if s == [] then []
    else (if s[0] < |nodes| && tag in nodes[s[0]].data.tags then [s[0]] else []) + WithTag(nodes, s[1..], tag)
  }

  lemma {:induction false} FirstWithIdAppend(nodes: seq<Node<NodeInfo>>, a: seq<nat>, b: seq<nat>, target: Option<string>)
    ensures FirstWithId(nodes, a + b, target) ==
            if FirstWithId(nodes, a, target).Some? then FirstWithId(nodes, a, target) else FirstWithId(nodes, b, target)
  {
    if a != [] {
      FirstWithIdAppend(nodes, a[1..], b, target);
      assert (a + b)[1..] == a[1..] + b;
    } else {
      assert a + b == b;
    }
  }

  lemma {:induction false} WithTagAppend(nodes: seq<Node<NodeInfo>>, a: seq<nat>, b: seq<nat>, tag: string)
    ensures WithTag(nodes, a + b, tag) == WithTag(nodes, a, tag) + WithTag(nodes, b, tag)
  {
    if a == [] {
      assert a + b == b;
    } else {
      WithTagAppend(nodes, a[1..], b, tag);
      assert (a + b)[1..] == a[1..] + b;
      var here := if a[0] < |nodes| && tag in nodes[a[0]].data.tags then [a[0]] else [];
      assert WithTag(nodes, a + b, tag) == here + (WithTag(nodes, a[1..], tag) + WithTag(nodes, b, tag));
      AppendAssoc(here, WithTag(nodes, a[1..], tag), WithTag(nodes, b, tag));
    }
  }

  lemma FirstWithIdCons(nodes: seq<Node<NodeInfo>>, x: nat, rest: seq<nat>, target: Option<string>)
    ensures FirstWithId(nodes, [x] + rest, target) ==
            if x < |nodes| && nodes[x].data.id == target then Some(x) else FirstWithId(nodes, rest, target)
  {
    assert ([x] + rest)[1..] == rest;
  }

  lemma WithTagCons(nodes: seq<Node<NodeInfo>>, x: nat, rest: seq<nat>, tag: string)
    ensures WithTag(nodes, [x] + rest, tag) ==
            (if x < |nodes| && tag in nodes[x].data.tags then [x] else []) + WithTag(nodes, rest, tag)
  {
    assert ([x] + rest)[1..] == rest;
  }

  /**
   * One turn of the `find_node_by_id` loop: with no match among the
   * entries listed so far, the next match is `x` itself, else the first
   * match below `x`, else the first match further on.
   */
  lemma FirstWithIdStep(nodes: seq<Node<NodeInfo>>, before: seq<nat>, x: nat, below: seq<nat>, after: seq<nat>,
                        target: Option<string>)
    requires FirstWithId(nodes, before, target).None?
    ensures FirstWithId(nodes, before + ([x] + below), target) ==
            if x < |nodes| && nodes[x].data.id == target then Some(x) else FirstWithId(nodes, below, target)
    ensures FirstWithId(nodes, before + ([x] + below) + after, target) ==
            if FirstWithId(nodes, before + ([x] + below), target).Some? then FirstWithId(nodes, before + ([x] + below), target)
            else FirstWithId(nodes, after, target)
  {
    FirstWithIdAppend(nodes, before, [x] + below, target);
    FirstWithIdCons(nodes, x, below, target);
    FirstWithIdAppend(nodes, before + ([x] + below), after, target);
  }

  /** One turn of the `find_nodes_by_tag` loop: `x` if tagged, then the tagged nodes below it. */
  lemma WithTagStep(nodes: seq<Node<NodeInfo>>, before: seq<nat>, x: nat, below: seq<nat>, tag: string)
    ensures WithTag(nodes, before + ([x] + below), tag) ==
            WithTag(nodes, before, tag) + (if x < |nodes| && tag in nodes[x].data.tags then [x] else []) +
            WithTag(nodes, below, tag)
  {
    WithTagAppend(nodes, before, [x] + below, tag);
    WithTagCons(nodes, x, below, tag);
  }

  /**
   * `find_node_by_id(node_id, ids)`: each node of `ids` is tested, then
   * the nodes below it, before its later siblings.
   */
  method FindNodeByIdIn(nodes: seq<Node<NodeInfo>>, target: Option<string>, ids: seq<nat>,
                        ghost rank: seq<nat>, ghost bound: nat, ghost lo: nat) returns (r: Option<nat>)
    requires Forest(nodes, rank, bound)
    requires forall k :: 0 <= k < |ids| ==> ids[k] < |nodes| && lo <= rank[ids[k]]
    ensures r == FirstWithId(nodes, PreOrder(nodes, rank, bound, ids, lo), target)
    decreases bound - lo, 1
  {
    var i := 0;
    while i < |ids|
      invariant 0 <= i <= |ids|
      invariant FirstWithId(nodes, PreOrder(nodes, rank, bound, ids[..i], lo), target).None?
    {
      var found := FindNodeByIdAt(nodes, target, ids, i, rank, bound, lo);
      if found.Some? {
        return found;
      }
      i := i + 1;
    }
    assert ids[..i] == ids;
    return None;
  }

  /** The body of the `find_node_by_id` loop for `ids[i]`: the node itself if its id matches, else the first match below it. */
  method FindNodeByIdAt(nodes: seq<Node<NodeInfo>>, target: Option<string>, ids: seq<nat>, i: nat,
                        ghost rank: seq<nat>, ghost bound: nat, ghost lo: nat) returns (found: Option<nat>)
    requires Forest(nodes, rank, bound) && i < |ids|
    requires forall k :: 0 <= k < |ids| ==> ids[k] < |nodes| && lo <= rank[ids[k]]
    requires FirstWithId(nodes, PreOrder(nodes, rank, bound, ids[..i], lo), target).None?
    ensures found.Some? ==> found == FirstWithId(nodes, PreOrder(nodes, rank, bound, ids, lo), target)
    ensures found.None? ==> FirstWithId(nodes, PreOrder(nodes, rank, bound, ids[..i + 1], lo), target).None?
    decreases bound - lo, 0
  {
    var x := ids[i];
    ChildrenRankAbove(nodes, rank, bound, x);
    if nodes[x].data.id == target {
      IdLoopStep(nodes, rank, bound, ids, i, lo, target, None);
      return Some(x);
    }
    found := None;
    if |nodes[x].children| > 0 {
      found := FindNodeByIdIn(nodes, target, nodes[x].children, rank, bound, rank[x] + 1);
    }
    IdLoopStep(nodes, rank, bound, ids, i, lo, target, found);
  }

  /** `find_nodes_by_tag(tag, ids)`: a node's own match comes before the matches below it. */
  method FindNodesByTagIn(nodes: seq<Node<NodeInfo>>, tag: string, ids: seq<nat>,
                          ghost rank: seq<nat>, ghost bound: nat, ghost lo: nat) returns (results: seq<nat>)
    requires Forest(nodes, rank, bound)
    requires forall k :: 0 <= k < |ids| ==> ids[k] < |nodes| && lo <= rank[ids[k]]
    ensures results == WithTag(nodes, PreOrder(nodes, rank, bound, ids, lo), tag)
    decreases bound - lo, 1
  {
    results := [];
    var i := 0;
    while i < |ids|
      invariant 0 <= i <= |ids|
      invariant results == WithTag(nodes, PreOrder(nodes, rank, bound, ids[..i], lo), tag)
    {
      var more := FindNodesByTagAt(nodes, tag, ids, i, rank, bound, lo);
      results := results + more;
      i := i + 1;
    }
    assert ids[..i] == ids;
  }

  /** The body of the `find_nodes_by_tag` loop for `ids[i]`: the node if tagged, then the tagged nodes below it. */
  method FindNodesByTagAt(nodes: seq<Node<NodeInfo>>, tag: string, ids: seq<nat>, i: nat,
                          ghost rank: seq<nat>, ghost bound: nat, ghost lo: nat) returns (more: seq<nat>)
    requires Forest(nodes, rank, bound) && i < |ids|
    requires forall k :: 0 <= k < |ids| ==> ids[k] < |nodes| && lo <= rank[ids[k]]
    ensures WithTag(nodes, PreOrder(nodes, rank, bound, ids[..i + 1], lo), tag) ==
            WithTag(nodes, PreOrder(nodes, rank, bound, ids[..i], lo), tag) + more
    decreases bound - lo, 0
  {
    var x := ids[i];
    ChildrenRankAbove(nodes, rank, bound, x);
    more := [];
    if tag in nodes[x].data.tags {
      more := more + [x];
    }
    var below := [];
    if |nodes[x].children| > 0 {
      below := FindNodesByTagIn(nodes, tag, nodes[x].children, rank, bound, rank[x] + 1);
      more := more + below;
    }
    TagLoopStep(nodes, rank, bound, ids, i, lo, tag, more, below);
  }

  /**
   * One turn of the `find_node_by_id` loop: with no match before `ids[i]`,
   * a match is `ids[i]` itself, else the first match below it, and with
   * neither the listing up to `ids[i]`'s subtree still has none.
   */
  lemma IdLoopStep(nodes: seq<Node<NodeInfo>>, rank: seq<nat>, bound: nat, ids: seq<nat>, i: nat, lo: nat,
                   target: Option<string>, found: Option<nat>)
    requires Forest(nodes, rank, bound) && i < |ids|
    requires forall k :: 0 <= k < |ids| ==> ids[k] < |nodes| && lo <= rank[ids[k]]
    requires FirstWithId(nodes, PreOrder(nodes, rank, bound, ids[..i], lo), target).None?
    requires nodes[ids[i]].data.id != target && |nodes[ids[i]].children| > 0 ==>
               found == FirstWithId(nodes, PreOrder(nodes, rank, bound, nodes[ids[i]].children, rank[ids[i]] + 1), target)
    requires |nodes[ids[i]].children| == 0 ==> found.None?
    ensures nodes[ids[i]].data.id == target ==> FirstWithId(nodes, PreOrder(nodes, rank, bound, ids, lo), target) == Some(ids[i])
    ensures nodes[ids[i]].data.id != target && found.Some? ==>
              FirstWithId(nodes, PreOrder(nodes, rank, bound, ids, lo), target) == found
    ensures nodes[ids[i]].data.id != target && found.None? ==>
              FirstWithId(nodes, PreOrder(nodes, rank, bound, ids[..i + 1], lo), target).None?
  {
    if |nodes[ids[i]].children| == 0 {
      assert nodes[ids[i]].children == [];
    }
    PreOrderAt(nodes, rank, bound, ids, i, lo);
    FirstWithIdStep(nodes, PreOrder(nodes, rank, bound, ids[..i], lo), ids[i],
                    PreOrder(nodes, rank, bound, nodes[ids[i]].children, rank[ids[i]] + 1),
                    PreOrder(nodes, rank, bound, ids[i + 1..], lo), target);
  }

  /** One turn of the `find_nodes_by_tag` loop: the node if tagged, then the tagged nodes below it. */
  lemma TagLoopStep(nodes: seq<Node<NodeInfo>>, rank: seq<nat>, bound: nat, ids: seq<nat>, i: nat, lo: nat,
                    tag: string, more: seq<nat>, below: seq<nat>)
    requires Forest(nodes, rank, bound) && i < |ids|
    requires forall k :: 0 <= k < |ids| ==> ids[k] < |nodes| && lo <= rank[ids[k]]
    requires |nodes[ids[i]].children| > 0 ==>
               below == WithTag(nodes, PreOrder(nodes, rank, bound, nodes[ids[i]].children, rank[ids[i]] + 1), tag)
    requires |nodes[ids[i]].children| == 0 ==> below == []
    requires more == (if tag in nodes[ids[i]].data.tags then [ids[i]] else []) + below
    ensures WithTag(nodes, PreOrder(nodes, rank, bound, ids[..i + 1], lo), tag) ==
            WithTag(nodes, PreOrder(nodes, rank, bound, ids[..i], lo), tag) + more
  {
    if |nodes[ids[i]].children| == 0 {
      assert nodes[ids[i]].children == [];
    }
    PreOrderAt(nodes, rank, bound, ids, i, lo);
    var before := PreOrder(nodes, rank, bound, ids[..i], lo);
    var sub := PreOrder(nodes, rank, bound, nodes[ids[i]].children, rank[ids[i]] + 1);
    WithTagStep(nodes, before, ids[i], sub, tag);
    var here := if tag in nodes[ids[i]].data.tags then [ids[i]] else [];
    assert WithTag(nodes, sub, tag) == below;
    AppendAssoc(WithTag(nodes, before, tag), here, below);
  }

  /** Position in `roots` of the first root whose id is `id` (the loop in `remove_node`). */
  function FirstRootWithId(nodes: seq<Node<NodeInfo>>, roots: seq<nat>, id: Option<string>): (r: Option<nat>)
    requires forall k :: 0 <= k < |roots| ==> roots[k] < |nodes|
    ensures r.Some? ==> r.value < |roots| && nodes[roots[r.value]].data.id == id &&
                        forall j :: 0 <= j < r.value ==> nodes[roots[j]].data.id != id
    ensures r.None? ==> forall j :: 0 <= j < |roots| ==> nodes[roots[j]].data.id != id
  {
    if roots == [] then None
    else if nodes[roots[0]].data.id == id then Some(0)
    else match FirstRootWithId(nodes, roots[1..], id)
      case None => None
      case Some(k) => Some(k + 1)
  }

  /**
   * Multi-selection toggle (`select_node` with multi-selection on): a
   * missing list starts empty; the node is removed if present, appended
   * otherwise.
   */
  function ToggledSelection(current: Option<seq<nat>>, n: nat): seq<nat>
  {
    var list := if current.None? then [] else current.value;
    if n in list then PyList.RemoveFirst(list, n) else list + [n]
  }

  predicate Distinct(s: seq<nat>)
  {
    forall a, b :: 0 <= a < b < |s| ==> s[a] != s[b]
  }

  /** Toggling flips the node's membership and keeps the list free of repeats. */
  lemma ToggleFlipsMembership(current: Option<seq<nat>>, n: nat)
    requires current.Some? ==> Distinct(current.value)
    ensures Distinct(ToggledSelection(current, n))
    ensures n in ToggledSelection(current, n) <==> !(current.Some? && n in current.value)
    ensures forall m :: m != n ==> (m in ToggledSelection(current, n) <==> current.Some? && m in current.value)
  {
    var list := if current.None? then [] else current.value;
    if n in list {
      PyList.RemoveFirstUnique(list, n);
      PyList.RemoveFirstOthers(list, n);
    } else {
      assert forall a, b :: 0 <= a < b < |list + [n]| ==> (list + [n])[a] != (list + [n])[b];
    }
  }

  /**
   * Selecting the same node twice: a node that was not selected leaves the
   * list exactly as it was; a node that was selected ends up moved to the
   * end of the list.
   */
  lemma ToggleTwice(current: Option<seq<nat>>, n: nat)
    requires current.Some? ==> Distinct(current.value)
    ensures !(current.Some? && n in current.value) ==>
              ToggledSelection(Some(ToggledSelection(current, n)), n) == (if current.None? then [] else current.value)
    ensures current.Some? && n in current.value ==>
              ToggledSelection(Some(ToggledSelection(current, n)), n) == PyList.RemoveFirst(current.value, n) + [n]
  {
    var list := if current.None? then [] else current.value;
    if n !in list {
      var once := list + [n];
      assert PyList.IndexOf(once, n) == |list| by {
        assert once[|list|] == n;
      }
      assert once[..|list|] == list;
    } else {
      PyList.RemoveFirstUnique(list, n);
    }
  }

  /** The view: a root list over an arena of nodes, a configuration and the selection state. */
  class TreeView {
    const arena: Arena<NodeInfo>
    const config: Config
    var roots: seq<nat>
    var selectedNode: Option<nat>
    var selectedNodes: Option<seq<nat>>

    ghost predicate Valid()
      reads this, arena
    {
      arena.Valid() && RootList(arena.nodes, roots) &&
      (selectedNodes.Some? ==> Distinct(selectedNodes.value))
    }

    /** `TreeView(nodes, config)`: nothing selected; an empty selection list only with multi-selection on. */
    constructor (arena: Arena<NodeInfo>, roots: seq<nat>, config: Config)
      requires arena.Valid() && RootList(arena.nodes, roots)
      ensures Valid() && this.arena == arena && this.roots == roots && this.config == config
      ensures selectedNode.None? && selectedNodes == (if config.multiSelect then Some([]) else None)
    {
      this.arena := arena;
      this.config := config;
      this.roots := roots;
      selectedNodes := if config.multiSelect then Some([]) else None;
      selectedNode := None;
    }

    /** `get_node_level`. */
    method GetNodeLevel(n: nat) returns (level: nat)
      requires Valid() && n < |arena.nodes|
      ensures level == Depth(arena.nodes, arena.rank, arena.bound, n)
      ensures arena.nodes[n].parent.None? ==> level == 0
      ensures arena.nodes[n].parent.Some? ==> level == Depth(arena.nodes, arena.rank, arena.bound, arena.nodes[n].parent.value) + 1
    {
      level := arena.Level(n);
    }

    /** `get_node_icon`. */
    function GetNodeIcon(n: nat): string
      reads this, arena
      requires n < |arena.nodes|
    {
      NodeIcon(arena.nodes[n].data, |arena.nodes[n].children| > 0, config)
    }

    /**
     * `find_node_by_id(node_id)`: the first node of the pre-order listing
     * from the roots whose id is `target`, or nothing; a node it returns
     * carries that id and is reachable from the roots.
     */
    method FindNodeById(target: Option<string>) returns (r: Option<nat>)
      requires Valid()
      ensures r == FirstWithId(arena.nodes, PreOrder(arena.nodes, arena.rank, arena.bound, roots, 0), target)
      ensures r.Some? ==> r.value < |arena.nodes| && arena.nodes[r.value].data.id == target &&
                          Covered(arena.nodes, arena.rank, arena.bound, r.value, roots)
    {
      r := FindNodeByIdIn(arena.nodes, target, roots, arena.rank, arena.bound, 0);
      FirstWithIdFound(arena.nodes, PreOrder(arena.nodes, arena.rank, arena.bound, roots, 0), target);
      if r.Some? {
        PreOrderCovers(arena.nodes, arena.rank, arena.bound, roots, 0, r.value);
      }
    }

    /**
     * `find_nodes_by_tag(tag)`: the nodes of the pre-order listing from
     * the roots that carry `tag`, in that order; each carries the tag and
     * every tagged node reachable from the roots is among them.
     */
    method FindNodesByTag(tag: string) returns (results: seq<nat>)
      requires Valid()
      ensures results == WithTag(arena.nodes, PreOrder(arena.nodes, arena.rank, arena.bound, roots, 0), tag)
      ensures forall y: nat :: y in results <==>
                y < |arena.nodes| && tag in arena.nodes[y].data.tags && Covered(arena.nodes, arena.rank, arena.bound, y, roots)
    {
      results := FindNodesByTagIn(arena.nodes, tag, roots, arena.rank, arena.bound, 0);
      forall y: nat
        ensures y in results <==>
                y < |arena.nodes| && tag in arena.nodes[y].data.tags && Covered(arena.nodes, arena.rank, arena.bound, y, roots)
      {
        WithTagMembers(arena.nodes, PreOrder(arena.nodes, arena.rank, arena.bound, roots, 0), tag, y);
        if y < |arena.nodes| {
          PreOrderCovers(arena.nodes, arena.rank, arena.bound, roots, 0, y);
        }
      }
    }

    /**
     * `expand_all`: every node reachable from the roots that has children
     * ends expanded; leaves and every other field keep their values.
     */
    method ExpandAll()
      requires Valid()
      modifies arena
      ensures Valid() && arena.rank == old(arena.rank) && arena.bound == old(arena.bound)
      ensures arena.nodes == Flagged(old(arena.nodes), arena.rank, arena.bound, roots, true)
    {
      arena.MarkAll(roots, true, 0);
      FlaggedShape(old(arena.nodes), arena.rank, arena.bound, roots, true);
    }

    /**
     * `collapse_all`: every node reachable from the roots that has
     * children ends collapsed; leaves and every other field keep their values.
     */
    method CollapseAll()
      requires Valid()
      modifies arena
      ensures Valid() && arena.rank == old(arena.rank) && arena.bound == old(arena.bound)
      ensures arena.nodes == Flagged(old(arena.nodes), arena.rank, arena.bound, roots, false)
    {
      arena.MarkAll(roots, false, 0);
      FlaggedShape(old(arena.nodes), arena.rank, arena.bound, roots, false);
    }

    /** `get_selected_nodes`: the selection list (or empty) with multi-selection configured, else the single selection. */
    function GetSelectedNodes(): (r: seq<nat>)
      reads this
      ensures config.multiSelect ==> r == if selectedNodes.Some? then selectedNodes.value else []
      ensures !config.multiSelect ==> r == if selectedNode.Some? then [selectedNode.value] else []
    {
      if config.multiSelect then (if selectedNodes.Some? then selectedNodes.value else [])
      else if selectedNode.Some? then [selectedNode.value] else []
    }

    /**
     * `select_node(node, multi_select)`: ignored for a non-selectable node;
     * toggles membership in the selection list when multi-selecting (by
     * argument or by configuration); otherwise drops a non-empty selection
     * list and makes the node the single selection.
     */
    method SelectNode(n: nat, multi: bool) returns (notices: seq<Notice>)
      requires Valid() && n < |arena.nodes|
      modifies this
      ensures Valid()
      ensures !arena.nodes[n].data.selectable ==>
                notices == [] && selectedNode == old(selectedNode) && selectedNodes == old(selectedNodes)
      ensures arena.nodes[n].data.selectable && (multi || config.multiSelect) ==>
                selectedNodes == Some(ToggledSelection(old(selectedNodes), n)) && selectedNode == old(selectedNode) &&
                notices == [SelectionChanged(n, selectedNodes.value)]
      ensures arena.nodes[n].data.selectable && !(multi || config.multiSelect) ==>
                selectedNode == Some(n) && notices == [Selected(n)] &&
                selectedNodes == (if old(selectedNodes).Some? && |old(selectedNodes).value| > 0 then None else old(selectedNodes))
      ensures roots == old(roots)
    {
      if !arena.nodes[n].data.selectable {
        return [];
      }
      var m := multi || config.multiSelect;
      if m {
        ToggleFlipsMembership(selectedNodes, n);
        var list := if selectedNodes.None? then [] else selectedNodes.value;
        if n in list {
          list := PyList.RemoveFirst(list, n);
        } else {
          list := list + [n];
        }
        selectedNodes := Some(list);
        notices := [SelectionChanged(n, list)];
      } else {
        if selectedNodes.Some? && |selectedNodes.value| > 0 {
          selectedNodes := None;
        }
        selectedNode := Some(n);
        notices := [Selected(n)];
      }
    }

    /**
     * `on_node_click`: a double click (`data == "2"`) only notifies; any
     * other click flips `expanded` of a node with children, then selects a
     * selectable node (multi-selecting when Ctrl is held).
     */
    method OnNodeClick(n: nat, data: string, ctrl: bool) returns (notices: seq<Notice>)
      requires Valid() && n < |arena.nodes|
      modifies this, arena
      ensures Valid()
      ensures data == "2" ==>
                notices == [DoubleClicked(n)] && arena.nodes == old(arena.nodes) &&
                selectedNode == old(selectedNode) && selectedNodes == old(selectedNodes)
      ensures data != "2" && |old(arena.nodes)[n].children| > 0 ==>
                arena.nodes == old(arena.nodes)[n := old(arena.nodes)[n].(expanded := !old(arena.nodes)[n].expanded)]
      ensures data != "2" && |old(arena.nodes)[n].children| == 0 ==> arena.nodes == old(arena.nodes)
      ensures data != "2" && !old(arena.nodes)[n].data.selectable ==>
                selectedNode == old(selectedNode) && selectedNodes == old(selectedNodes)
      ensures data != "2" && old(arena.nodes)[n].data.selectable && (ctrl || config.multiSelect) ==>
                selectedNodes == Some(ToggledSelection(old(selectedNodes), n)) && selectedNode == old(selectedNode)
      ensures data != "2" && old(arena.nodes)[n].data.selectable && !(ctrl || config.multiSelect) ==>
                selectedNode == Some(n) &&
                selectedNodes == (if old(selectedNodes).Some? && |old(selectedNodes).value| > 0 then None else old(selectedNodes))
      ensures data != "2" ==>
                notices == (if |old(arena.nodes)[n].children| > 0
                            then [if old(arena.nodes)[n].expanded then Collapsed(n) else Expanded(n)]
                            else []) +
                           (if !old(arena.nodes)[n].data.selectable then []
                            else if ctrl || config.multiSelect then [SelectionChanged(n, selectedNodes.value)]
                            else [Selected(n)])
      ensures roots == old(roots)
    {
      if data == "2" {
        return [DoubleClicked(n)];
      }
      notices := [];
      if |arena.nodes[n].children| > 0 {
        var now := !arena.nodes[n].expanded;
        arena.SetExpanded(n, now);
        notices := notices + [if now then Expanded(n) else Collapsed(n)];
      }
      var picked := SelectNode(n, ctrl);
      notices := notices + picked;
    }

    /**
     * `add_node(parent, new_node, index)`: with no parent the node is
     * appended to the roots; otherwise it is appended (no index) or
     * inserted at `index` with Python's `insert` rules, gets the parent,
     * and the parent ends expanded. The node must be a free node: in no
     * list, and parentless when it becomes a root.
     */
    method AddNode(parent: Option<nat>, n: nat, index: Option<int>) returns (added: nat)
      requires Valid() && n < |arena.nodes| && Free(arena.nodes, n) && n !in roots
      requires parent.None? ==> arena.nodes[n].parent.None?
      requires parent.Some? ==> parent.value < |arena.nodes| &&
                                !Below(arena.nodes, arena.rank, arena.bound, parent.value, n)
      modifies this, arena
      ensures Valid() && added == n
      ensures parent.None? ==> roots == old(roots) + [n] && arena.nodes == old(arena.nodes)
      ensures parent.Some? ==>
                var p := parent.value;
                var placed := AttachedShape(old(arena.nodes), p, n, index);
                roots == old(roots) && arena.nodes == placed[p := placed[p].(expanded := true)]
      ensures multiset(roots) + multiset(AllChildren(arena.nodes)) ==
              multiset(old(roots)) + multiset(AllChildren(old(arena.nodes))) + multiset{n}
      ensures selectedNode == old(selectedNode) && selectedNodes == old(selectedNodes)
    {
      match parent {
        case None =>
          AppendRoot(n);
        case Some(p) =>
          PutUnder(n, p, index);
          assert multiset(old(roots)) + multiset(AllChildren(arena.nodes)) ==
                 multiset(old(roots)) + (multiset(AllChildren(old(arena.nodes))) + multiset{n});
      }
      added := n;
    }

    /** The root case of `add_node`. */
    method AppendRoot(n: nat)
      requires Valid() && n < |arena.nodes| && n !in roots && arena.nodes[n].parent.None?
      modifies this
      ensures Valid() && roots == old(roots) + [n]
      ensures selectedNode == old(selectedNode) && selectedNodes == old(selectedNodes)
    {
      roots := roots + [n];
    }

    /**
     * `remove_node`: a node with a parent leaves that parent's children
     * list (Python raises `ValueError`, reported as `ok == false`, when a
     * stale parent no longer lists it); a node without a parent removes
     * the first root carrying the same id, which need not be the node.
     */
    method RemoveNode(n: nat) returns (ok: bool)
      requires Valid() && n < |arena.nodes|
      modifies this, arena
      ensures Valid()
      ensures old(arena.nodes)[n].parent.Some? ==>
                var p := old(arena.nodes)[n].parent.value;
                roots == old(roots) &&
                (ok <==> n in old(arena.nodes)[p].children) &&
                arena.nodes == if ok then old(arena.nodes)[p := old(arena.nodes)[p].(children := PyList.RemoveFirst(old(arena.nodes)[p].children, n))]
                               else old(arena.nodes)
      ensures old(arena.nodes)[n].parent.None? ==>
                ok && arena.nodes == old(arena.nodes) &&
                roots == match FirstRootWithId(old(arena.nodes), old(roots), old(arena.nodes)[n].data.id)
                         case None => old(roots)
                         case Some(k) => old(roots)[..k] + old(roots)[k + 1..]
      ensures selectedNode == old(selectedNode) && selectedNodes == old(selectedNodes)
    {
      match arena.nodes[n].parent {
        case Some(p) =>
          ok := arena.Detach(p, n);
          RootListKept(old(arena.nodes), arena.nodes, roots, |arena.nodes|);
        case None =>
          RemoveRootWithId(arena.nodes[n].data.id);
          ok := true;
      }
    }

    /** The root branch of `remove_node`: the first root carrying `id` leaves the roots. */
    method RemoveRootWithId(id: Option<string>)
      requires Valid()
      modifies this
      ensures Valid()
      ensures roots == match FirstRootWithId(arena.nodes, old(roots), id)
                       case None => old(roots)
                       case Some(k) => old(roots)[..k] + old(roots)[k + 1..]
      ensures selectedNode == old(selectedNode) && selectedNodes == old(selectedNodes)
    {
      var k := FirstRootWithId(arena.nodes, roots, id);
      if k.Some? {
        RootListDrop(arena.nodes, roots, k.value);
        roots := roots[..k.value] + roots[k.value + 1..];
      }
    }

    /**
     * `move_node(node, new_parent)`: the node leaves its parent's children
     * list, or the roots (Python raises `ValueError`, reported as
     * `ok == false`, when it is in neither), is appended to the new
     * parent's children, takes it as parent, and the new parent ends
     * expanded. The new parent must not be the node or lie below it.
     */
    method MoveNode(n: nat, np: nat) returns (ok: bool)
      requires Valid() && n < |arena.nodes| && np < |arena.nodes|
      requires !Below(arena.nodes, arena.rank, arena.bound, np, n)
      modifies this, arena
      ensures Valid()
      ensures ok <==> match old(arena.nodes)[n].parent
                      case Some(op) => n in old(arena.nodes)[op].children
                      case None => n in old(roots)
      ensures !ok ==> arena.nodes == old(arena.nodes) && roots == old(roots)
      ensures ok ==>
                var detached := match old(arena.nodes)[n].parent
                                case Some(op) => old(arena.nodes)[op := old(arena.nodes)[op].(children := PyList.RemoveFirst(old(arena.nodes)[op].children, n))]
                                case None => old(arena.nodes);
                var placed := AttachedShape(detached, np, n, None);
                arena.nodes == placed[np := placed[np].(expanded := true)] &&
                roots == if old(arena.nodes)[n].parent.None? then PyList.RemoveFirst(old(roots), n) else old(roots)
      ensures ok ==> multiset(roots + AllChildren(arena.nodes)) == multiset(old(roots) + AllChildren(old(arena.nodes)))
      ensures ok ==> Depth(arena.nodes, arena.rank, arena.bound, n) ==
                     old(Depth(arena.nodes, arena.rank, arena.bound, np)) + 1
      ensures selectedNode == old(selectedNode) && selectedNodes == old(selectedNodes)
    {
      ghost var nodes0 := arena.nodes;
      ghost var rank0 := arena.rank;
      ghost var bound0 := arena.bound;
      ok := TakeOut(n);
      if !ok { return; }
      ghost var nodes1 := arena.nodes;
      BelowSameParents(nodes0, nodes1, rank0, bound0, np, n);
      PutUnder(n, np, None);
      EntriesMoved(multiset(old(roots)), multiset(roots), multiset(AllChildren(nodes0)), multiset(AllChildren(nodes1)),
                   multiset(AllChildren(arena.nodes)), n, nodes0[n].parent.Some?);
      ReparentDepth(nodes0, arena.nodes, rank0, bound0, arena.rank, arena.bound, n, np);
    }

    /** The first half of `move_node`: the node leaves the list that holds it. */
    method TakeOut(n: nat) returns (ok: bool)
      requires Valid() && n < |arena.nodes|
      modifies this, arena
      ensures Valid() && arena.rank == old(arena.rank) && arena.bound == old(arena.bound)
      ensures ok <==> match old(arena.nodes)[n].parent
                      case Some(op) => n in old(arena.nodes)[op].children
                      case None => n in old(roots)
      ensures !ok ==> arena.nodes == old(arena.nodes) && roots == old(roots)
      ensures ok ==>
                arena.nodes == (match old(arena.nodes)[n].parent
                                case Some(op) => old(arena.nodes)[op := old(arena.nodes)[op].(children := PyList.RemoveFirst(old(arena.nodes)[op].children, n))]
                                case None => old(arena.nodes)) &&
                roots == (if old(arena.nodes)[n].parent.None? then PyList.RemoveFirst(old(roots), n) else old(roots))
      ensures ok ==> Free(arena.nodes, n) && n !in roots && SameParentsExcept(old(arena.nodes), arena.nodes, |arena.nodes|)
      ensures ok && old(arena.nodes)[n].parent.Some? ==> multiset(AllChildren(arena.nodes)) + multiset{n} == multiset(AllChildren(old(arena.nodes)))
      ensures ok && old(arena.nodes)[n].parent.None? ==> multiset(roots) == multiset(old(roots)) - multiset{n} && n in old(roots)
      ensures selectedNode == old(selectedNode) && selectedNodes == old(selectedNodes)
    {
      match arena.nodes[n].parent {
        case Some(op) =>
          ok := LeaveParent(n, op);
        case None =>
          ok := LeaveRoots(n);
      }
    }

    /** `parent.children.remove(node)` for the node's recorded parent `op`. */
    method LeaveParent(n: nat, op: nat) returns (ok: bool)
      requires Valid() && n < |arena.nodes| && arena.nodes[n].parent == Some(op)
      modifies arena
      ensures Valid() && arena.rank == old(arena.rank) && arena.bound == old(arena.bound)
      ensures ok <==> n in old(arena.nodes)[op].children
      ensures !ok ==> arena.nodes == old(arena.nodes)
      ensures ok ==> arena.nodes == old(arena.nodes)[op := old(arena.nodes)[op].(children := PyList.RemoveFirst(old(arena.nodes)[op].children, n))]
      ensures ok ==> Free(arena.nodes, n) && n !in roots && SameParentsExcept(old(arena.nodes), arena.nodes, |arena.nodes|)
      ensures ok ==> multiset(AllChildren(arena.nodes)) + multiset{n} == multiset(AllChildren(old(arena.nodes)))
    {
      ok := arena.Detach(op, n);
      if ok {
        DetachedEntries(old(arena.nodes), op, n);
        RootListKept(old(arena.nodes), arena.nodes, roots, |arena.nodes|);
      }
    }

    /** `self.nodes.remove(node)` for a node without a parent. */
    method LeaveRoots(n: nat) returns (ok: bool)
      requires Valid() && n < |arena.nodes| && arena.nodes[n].parent.None?
      modifies this
      ensures Valid()
      ensures ok <==> n in old(roots)
      ensures !ok ==> roots == old(roots)
      ensures ok ==> roots == PyList.RemoveFirst(old(roots), n) && multiset(roots) == multiset(old(roots)) - multiset{n}
      ensures ok ==> Free(arena.nodes, n) && n !in roots
      ensures selectedNode == old(selectedNode) && selectedNodes == old(selectedNodes)
    {
      ok := n in roots;
      if ok {
        PyList.RemoveFirstContents(roots, n);
        RootListRemove(arena.nodes, roots, n);
        roots := PyList.RemoveFirst(roots, n);
        RootIsFree(arena.nodes, n);
      }
    }

    /**
     * What `add_node` and `move_node` share: a free node is appended, or
     * inserted at `pos`, under `np`, takes it as parent, and `np` ends
     * expanded (it has a child now, so the `add_node` test for children
     * always passes).
     */
    method PutUnder(n: nat, np: nat, pos: Option<int>)
      requires Valid() && n < |arena.nodes| && np < |arena.nodes| && Free(arena.nodes, n) && n !in roots
      requires !Below(arena.nodes, arena.rank, arena.bound, np, n)
      modifies arena
      ensures Valid()
      ensures var placed := AttachedShape(old(arena.nodes), np, n, pos);
              arena.nodes == placed[np := placed[np].(expanded := true)]
      ensures SameParentsExcept(old(arena.nodes), arena.nodes, n) && arena.nodes[n].parent == Some(np)
      ensures multiset(AllChildren(arena.nodes)) == multiset(AllChildren(old(arena.nodes))) + multiset{n}
    {
      arena.Attach(np, n, pos);
      ghost var placed := arena.nodes;
      if !arena.nodes[np].expanded {
        arena.SetExpanded(np, true);
      } else {
        assert placed == placed[np := placed[np].(expanded := true)];
      }
      RootListKept(old(arena.nodes), arena.nodes, roots, n);
      PlacedExpandedEntries(old(arena.nodes), np, n, pos, arena.nodes);
    }
  }

  /** The multiset bookkeeping of `MoveNode`: one entry leaves a list and joins another. */
  lemma EntriesMoved(roots0: multiset<nat>, roots1: multiset<nat>, before: multiset<nat>, mid: multiset<nat>,
                     after: multiset<nat>, n: nat, hadParent: bool)
    requires after == mid + multiset{n}
    requires hadParent ==> roots1 == roots0 && mid + multiset{n} == before
    requires !hadParent ==> roots1 == roots0 - multiset{n} && n in roots0 && mid == before
    ensures roots1 + after == roots0 + before
  {
    if !hadParent {
      assert roots1 + multiset{n} == roots0;
    }
  }

  lemma DetachedEntries(nodes: seq<Node<NodeInfo>>, op: nat, n: nat)
    requires op < |nodes| && n in nodes[op].children
    ensures multiset(AllChildren(nodes[op := nodes[op].(children := PyList.RemoveFirst(nodes[op].children, n))])) + multiset{n} ==
            multiset(AllChildren(nodes))
  {
    var kids := nodes[op].children;
    var kept := PyList.RemoveFirst(kids, n);
    var detached := nodes[op := nodes[op].(children := kept)];
    AllChildrenUpdate(nodes, op, detached[op]);
    PyList.RemoveFirstContents(kids, n);
    assert multiset(kids) == multiset(kept) + multiset{n};
    MultisetCancel(multiset(AllChildren(nodes)), multiset(AllChildren(detached)), multiset(kept), multiset{n});
  }

  /** A listing's tagged nodes are exactly its members that carry the tag. */
  lemma {:induction false} WithTagMembers(nodes: seq<Node<NodeInfo>>, s: seq<nat>, tag: string, y: nat)
    ensures y in WithTag(nodes, s, tag) <==> y in s && y < |nodes| && tag in nodes[y].data.tags
  {
    if s != [] {
      WithTagMembers(nodes, s[1..], tag, y);
      assert s == [s[0]] + s[1..];
    }
  }

  lemma FirstWithIdFound(nodes: seq<Node<NodeInfo>>, s: seq<nat>, target: Option<string>)
    ensures FirstWithId(nodes, s, target).Some? ==>
              FirstWithId(nodes, s, target).value in s && FirstWithId(nodes, s, target).value < |nodes| && nodes[FirstWithId(nodes, s, target).value].data.id == target
  {
    if s != [] { FirstWithIdFound(nodes, s[1..], target); }
  }
}
