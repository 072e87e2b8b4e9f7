/**
 * The prototype tree view under test (`In_Testing/TreeView/test/Treevieww.py`):
 * nodes carry only a name, the view keeps a root list and one selected
 * node, and a click flips expansion and selects; children can be added
 * and removed.
 */
module TreeViewTestProto {
  import opened Wrappers
  import opened TreeArena
  import PyList

  /** What the view reports to `on_node_expand` / `on_node_select` (each reaches its callback when one is set). */
  datatype Notice = ExpandToggled(node: nat) | NodeSelected(node: nat)

  /**
   * `TreeNode(name, children, expanded)`: a new parentless node; every
   * given child gets the new node as parent.
   */
  method NewTreeNode(arena: Arena<string>, name: string, children: seq<nat>, expanded: bool) returns (n: nat)
    requires arena.Valid() && ProperList(arena.nodes, children)
    requires forall k :: 0 <= k < |children| ==> Free(arena.nodes, children[k])
    modifies arena
    ensures arena.Valid() && n == |old(arena.nodes)| && |arena.nodes| == n + 1
    ensures arena.nodes[n] == Node(children, None, expanded, name)
    ensures forall k :: 0 <= k < |children| ==> arena.nodes[children[k]].parent == Some(n)
    ensures forall i :: 0 <= i < n && i !in children ==> arena.nodes[i] == old(arena.nodes)[i]
  {
    n := arena.NewNode(children, expanded, name);
  }

  /** The view: a root list over an arena of named nodes and the selected node. */
  class TreeView {
    const arena: Arena<string>
    var roots: seq<nat>
    var selectedNode: Option<nat>

    ghost predicate Valid()
      reads this, arena
    {
      arena.Valid() && RootList(arena.nodes, roots)
    }

    /** `TreeView(nodes)`: nothing selected. */
    constructor (arena: Arena<string>, roots: seq<nat>)
      requires arena.Valid() && RootList(arena.nodes, roots)
      ensures Valid() && this.arena == arena && this.roots == roots && selectedNode.None?
    {
      this.arena := arena;
      this.roots := roots;
      selectedNode := None;
    }

    /** `get_node_level`: the number of ancestors. */
    method GetNodeLevel(n: nat) returns (level: nat)
      requires Valid() && n < |arena.nodes|
      ensures level == Depth(arena.nodes, arena.rank, arena.bound, n)
      ensures arena.nodes[n].parent.None? ==> level == 0
      ensures arena.nodes[n].parent.Some? ==> level == Depth(arena.nodes, arena.rank, arena.bound, arena.nodes[n].parent.value) + 1
    {
      level := arena.Level(n);
    }

    /** `select_node`: the node becomes the one selected node. */
    method SelectNode(n: nat)
      requires Valid() && n < |arena.nodes|
      modifies this
      ensures Valid() && selectedNode == Some(n) && roots == old(roots)
    {
      selectedNode := Some(n);
    }

    /**
     * `on_node_click`: a node with children flips `expanded` and reports
     * it, whichever way it went; then the node is selected and reported.
     */
    method OnNodeClick(n: nat) returns (notices: seq<Notice>)
      requires Valid() && n < |arena.nodes|
      modifies this, arena
      ensures Valid() && roots == old(roots) && selectedNode == Some(n)
      ensures |old(arena.nodes)[n].children| > 0 ==>
                arena.nodes == old(arena.nodes)[n := old(arena.nodes)[n].(expanded := !old(arena.nodes)[n].expanded)] &&
                notices == [ExpandToggled(n), NodeSelected(n)]
      ensures |old(arena.nodes)[n].children| == 0 ==> arena.nodes == old(arena.nodes) && notices == [NodeSelected(n)]
    {
      notices := [];
      if |arena.nodes[n].children| > 0 {
        arena.SetExpanded(n, !arena.nodes[n].expanded);
        notices := notices + [ExpandToggled(n)];
      }
      SelectNode(n);
      notices := notices + [NodeSelected(n)];
    }

    /**
     * `add_child_node(parent, new_node)`: the node is appended to the
     * parent's children, takes it as parent, and the parent ends expanded.
     * The node must be in no list yet, and the parent must not be the
     * node or lie below it.
     */
    method AddChildNode(p: nat, n: nat)
      requires Valid() && p < |arena.nodes| && n < |arena.nodes| && Free(arena.nodes, n) && n !in roots
      requires !Below(arena.nodes, arena.rank, arena.bound, p, n)
      modifies arena
      ensures Valid()
      ensures var placed := AttachedShape(old(arena.nodes), p, n, None);
              arena.nodes == placed[p := placed[p].(expanded := true)]
      ensures arena.nodes[p].children == old(arena.nodes)[p].children + [n] && arena.nodes[n].parent == Some(p)
      ensures Depth(arena.nodes, arena.rank, arena.bound, n) == old(Depth(arena.nodes, arena.rank, arena.bound, p)) + 1
      ensures multiset(AllChildren(arena.nodes)) == multiset(AllChildren(old(arena.nodes))) + multiset{n}
    {
      ghost var nodes0 := arena.nodes;
      ghost var rank0 := arena.rank;
      ghost var bound0 := arena.bound;
      arena.Attach(p, n, None);
      ghost var placed := arena.nodes;
      if !arena.nodes[p].expanded {
        arena.SetExpanded(p, true);
      } else {
        assert placed == placed[p := placed[p].(expanded := true)];
      }
      RootListKept(nodes0, arena.nodes, roots, n);
      PlacedExpandedEntries(nodes0, p, n, None, arena.nodes);
      ReparentDepth(nodes0, arena.nodes, rank0, bound0, arena.rank, arena.bound, n, p);
    }

    /**
     * `remove_node`: a node with a parent leaves that parent's children
     * list (Python raises `ValueError`, reported as `ok == false`, when a
     * stale parent no longer lists it); a node without a parent is left
     * where it is.
     */
    method RemoveNode(n: nat) returns (ok: bool)
      requires Valid() && n < |arena.nodes|
      modifies arena
      ensures Valid() && arena.rank == old(arena.rank) && arena.bound == old(arena.bound)
      ensures old(arena.nodes)[n].parent.None? ==> ok && arena.nodes == old(arena.nodes)
      ensures old(arena.nodes)[n].parent.Some? ==>
                var p := old(arena.nodes)[n].parent.value;
                (ok <==> n in old(arena.nodes)[p].children) &&
                arena.nodes == if ok then old(arena.nodes)[p := old(arena.nodes)[p].(children := PyList.RemoveFirst(old(arena.nodes)[p].children, n))]
                               else old(arena.nodes)
      ensures ok && old(arena.nodes)[n].parent.Some? ==> Free(arena.nodes, n)
    {
      match arena.nodes[n].parent {
        case Some(p) =>
          ok := arena.Detach(p, n);
          RootListKept(old(arena.nodes), arena.nodes, roots, |arena.nodes|);
        case None =>
          ok := true;
      }
    }

    /** `expand_all`: every node reachable from the roots that has children ends expanded. */
    method ExpandAll()
      requires Valid()
      modifies arena
      ensures Valid() && arena.rank == old(arena.rank) && arena.bound == old(arena.bound)
      ensures arena.nodes == Flagged(old(arena.nodes), arena.rank, arena.bound, roots, true)
    {
      arena.MarkAll(roots, true, 0);
      FlaggedShape(old(arena.nodes), arena.rank, arena.bound, roots, true);
    }

    /** `collapse_all`: every node reachable from the roots that has children ends collapsed. */
    method CollapseAll()
      requires Valid()
      modifies arena
      ensures Valid() && arena.rank == old(arena.rank) && arena.bound == old(arena.bound)
      ensures arena.nodes == Flagged(old(arena.nodes), arena.rank, arena.bound, roots, false)
    {
      arena.MarkAll(roots, false, 0);
      FlaggedShape(old(arena.nodes), arena.rank, arena.bound, roots, false);
    }
  }
}
