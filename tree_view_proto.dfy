/**
 * The first tree view prototype (`In_Testing/TreeView/TreeView.py`):
 * nodes carry only a name, the view keeps a root list and one selected
 * node, and a click flips expansion and selects. The selection is a
 * single optional node, so at most one node is selected at any time.
 */
module TreeViewProto {
  import opened Wrappers
  import opened TreeArena

  /** What the view reports to `on_node_expand` / `on_node_select` (each reaches its callback when one is set). */
  datatype Notice = ExpandToggled(node: nat) | NodeSelected(node: nat)

  /**
   * `TreeNode(name, children, expanded)`: a new parentless node; every
   * given child gets the new node as parent.
   */
  method NewTreeNode(arena: Arena<string>, name: string, children: seq<nat>, expanded: bool) returns (n: nat)
    requires arena.Valid() && ProperList(arena.nodes, children)
    requires forall k :: 0 <= k < |children| ==> Free(arena.nodes, children[k])
    modifies arena
    ensures arena.Valid() && n == |old(arena.nodes)| && |arena.nodes| == n + 1
    ensures arena.nodes[n] == Node(children, None, expanded, name)
    ensures forall k :: 0 <= k < |children| ==> arena.nodes[children[k]].parent == Some(n)
    ensures forall i :: 0 <= i < n && i !in children ==> arena.nodes[i] == old(arena.nodes)[i]
  {
    n := arena.NewNode(children, expanded, name);
  }

  /** The view: a root list over an arena of named nodes and the selected node. */
  class TreeView {
    const arena: Arena<string>
    var roots: seq<nat>
    var selectedNode: Option<nat>

    ghost predicate Valid()
      reads this, arena
    {
      arena.Valid() && RootList(arena.nodes, roots)
    }

    /** `TreeView(nodes)`: nothing selected. */
    constructor (arena: Arena<string>, roots: seq<nat>)
      requires arena.Valid() && RootList(arena.nodes, roots)
      ensures Valid() && this.arena == arena && this.roots == roots && selectedNode.None?
    {
      this.arena := arena;
      this.roots := roots;
      selectedNode := None;
    }

    /** `get_node_level`: the number of ancestors. */
    method GetNodeLevel(n: nat) returns (level: nat)
      requires Valid() && n < |arena.nodes|
      ensures level == Depth(arena.nodes, arena.rank, arena.bound, n)
      ensures arena.nodes[n].parent.None? ==> level == 0
      ensures arena.nodes[n].parent.Some? ==> level == Depth(arena.nodes, arena.rank, arena.bound, arena.nodes[n].parent.value) + 1
    {
      level := arena.Level(n);
    }

    /** `select_node`: the node becomes the one selected node. */
    method SelectNode(n: nat)
      requires Valid() && n < |arena.nodes|
      modifies this
      ensures Valid() && selectedNode == Some(n) && roots == old(roots)
    {
      selectedNode := Some(n);
    }

    /**
     * `on_node_click`: a node with children flips `expanded` and reports
     * it, whichever way it went; then the node is selected and reported.
     */
    method OnNodeClick(n: nat) returns (notices: seq<Notice>)
      requires Valid() && n < |arena.nodes|
      modifies this, arena
      ensures Valid() && roots == old(roots) && selectedNode == Some(n)
      ensures |old(arena.nodes)[n].children| > 0 ==>
                arena.nodes == old(arena.nodes)[n := old(arena.nodes)[n].(expanded := !old(arena.nodes)[n].expanded)] &&
                notices == [ExpandToggled(n), NodeSelected(n)]
      ensures |old(arena.nodes)[n].children| == 0 ==> arena.nodes == old(arena.nodes) && notices == [NodeSelected(n)]
    {
      notices := [];
      if |arena.nodes[n].children| > 0 {
        arena.SetExpanded(n, !arena.nodes[n].expanded);
        notices := notices + [ExpandToggled(n)];
      }
      SelectNode(n);
      notices := notices + [NodeSelected(n)];
    }

    /** `expand_all`: every node reachable from the roots that has children ends expanded. */
    method ExpandAll()
      requires Valid()
      modifies arena
      ensures Valid() && arena.rank == old(arena.rank) && arena.bound == old(arena.bound)
      ensures arena.nodes == Flagged(old(arena.nodes), arena.rank, arena.bound, roots, true)
    {
      arena.MarkAll(roots, true, 0);
      FlaggedShape(old(arena.nodes), arena.rank, arena.bound, roots, true);
    }

    /** `collapse_all`: every node reachable from the roots that has children ends collapsed. */
    method CollapseAll()
      requires Valid()
      modifies arena
      ensures Valid() && arena.rank == old(arena.rank) && arena.bound == old(arena.bound)
      ensures arena.nodes == Flagged(old(arena.nodes), arena.rank, arena.bound, roots, false)
    {
      arena.MarkAll(roots, false, 0);
      FlaggedShape(old(arena.nodes), arena.rank, arena.bound, roots, false);
    }
  }
}
