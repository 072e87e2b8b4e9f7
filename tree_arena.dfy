/**
 * The node graph shared by the three tree views. Python `TreeNode`
 * objects refer to each other through `children` lists and a `parent`
 * back-pointer; here every node lives at an index of one arena and those
 * references are indices. A ghost `rank` numbers the nodes so that a
 * parent always ranks below its children, which is what makes parent
 * chains finite and recursion over children terminate.
 */
module TreeArena {
  import opened Wrappers
  import PyList

  /** A `TreeNode`: its ordered children, its parent pointer, its expanded flag and the view-specific payload. */
  datatype Node<D> = Node(children: seq<nat>, parent: Option<nat>, expanded: bool, data: D)

  /** Every child reference is in range and points back at its parent; parents are in range; no list repeats a node. */
  ghost predicate WellFormed<D>(nodes: seq<Node<D>>)
  {
    (forall i, k :: 0 <= i < |nodes| && 0 <= k < |nodes[i].children| ==>
       nodes[i].children[k] < |nodes| && nodes[nodes[i].children[k]].parent == Some(i)) &&
    (forall i :: 0 <= i < |nodes| && nodes[i].parent.Some? ==> nodes[i].parent.value < |nodes|) &&
    (forall i, a, b :: 0 <= i < |nodes| && 0 <= a < b < |nodes[i].children| ==>
       nodes[i].children[a] != nodes[i].children[b])
  }

  /** `rank` strictly increases from a node's parent to the node, and stays below `bound`. */
  ghost predicate Ranked<D>(nodes: seq<Node<D>>, rank: seq<nat>, bound: nat)
  {
    |rank| == |nodes| &&
    forall i :: 0 <= i < |nodes| ==>
      rank[i] < bound &&
      (nodes[i].parent.Some? ==> nodes[i].parent.value < |nodes| && rank[nodes[i].parent.value] < rank[i])
  }

  ghost predicate Forest<D>(nodes: seq<Node<D>>, rank: seq<nat>, bound: nat)
  {
    WellFormed(nodes) && Ranked(nodes, rank, bound)
  }

  /** Node `c` is in nobody's children list. */
  ghost predicate Free<D>(nodes: seq<Node<D>>, c: nat)
  {
    forall i, k :: 0 <= i < |nodes| && 0 <= k < |nodes[i].children| ==> nodes[i].children[k] != c
  }

  /** A list of node references (a root list or a children list) that is in range and repeats nothing. */
  ghost predicate ProperList<D>(nodes: seq<Node<D>>, ids: seq<nat>)
  {
    (forall k :: 0 <= k < |ids| ==> ids[k] < |nodes|) &&
    (forall a, b :: 0 <= a < b < |ids| ==> ids[a] != ids[b])
  }

  /** A tree view's root list: a proper list of parentless nodes. */
  ghost predicate RootList<D>(nodes: seq<Node<D>>, roots: seq<nat>)
  {
    ProperList(nodes, roots) &&
    forall k :: 0 <= k < |roots| ==> nodes[roots[k]].parent.None?
  }

  /** Two arenas that differ at most in expanded flags and payloads. */
  ghost predicate SameShape<D>(a: seq<Node<D>>, b: seq<Node<D>>)
  {
    |a| == |b| &&
    forall i :: 0 <= i < |a| ==> a[i].children == b[i].children && a[i].parent == b[i].parent
  }

  /**
   * The number of ancestors of `i`, following `parent` pointers;
   * `get_node_level` computes it with a loop.
   */
  ghost function Depth<D>(nodes: seq<Node<D>>, rank: seq<nat>, bound: nat, i: nat): nat
    requires Ranked(nodes, rank, bound) && i < |nodes|
    decreases rank[i]
  {
    match nodes[i].parent
    case None => 0
    case Some(p) => Depth(nodes, rank, bound, p) + 1
  }

  /** `j` is `a` or lies below `a` when following parent pointers up from `j`. */
  ghost predicate Below<D>(nodes: seq<Node<D>>, rank: seq<nat>, bound: nat, j: nat, a: nat)
    requires Ranked(nodes, rank, bound) && j < |nodes|
    decreases rank[j]
  {
    j == a || (nodes[j].parent.Some? && Below(nodes, rank, bound, nodes[j].parent.value, a))
  }

  /**
   * Node `i` is reached by walking down children lists from a member of
   * `ids`: it is in `ids`, or it is in its parent's children list and the
   * parent is reached. With `ids` the root list these are the nodes a
   * view shows (when expanded).
   */
  ghost predicate Covered<D>(nodes: seq<Node<D>>, rank: seq<nat>, bound: nat, i: nat, ids: seq<nat>)
    requires Ranked(nodes, rank, bound) && i < |nodes|
    decreases rank[i]
  {
    i in ids ||
    (nodes[i].parent.Some? && i in nodes[nodes[i].parent.value].children &&
     Covered(nodes, rank, bound, nodes[i].parent.value, ids))
  }

  lemma {:induction false} CoveredNone<D>(nodes: seq<Node<D>>, rank: seq<nat>, bound: nat, i: nat)
    requires Ranked(nodes, rank, bound) && i < |nodes|
    ensures !Covered(nodes, rank, bound, i, [])
    decreases rank[i]
  {
    if nodes[i].parent.Some? { CoveredNone(nodes, rank, bound, nodes[i].parent.value); }
  }

  /** Being reached from `a + b` is being reached from `a` or from `b`. */
  lemma {:induction false} CoveredAppend<D>(nodes: seq<Node<D>>, rank: seq<nat>, bound: nat, i: nat, a: seq<nat>, b: seq<nat>)
    requires Ranked(nodes, rank, bound) && i < |nodes|
    ensures Covered(nodes, rank, bound, i, a + b) <==>
            Covered(nodes, rank, bound, i, a) || Covered(nodes, rank, bound, i, b)
    decreases rank[i]
  {
    if nodes[i].parent.Some? { CoveredAppend(nodes, rank, bound, nodes[i].parent.value, a, b); }
  }

  /** Being reached from the single node `x` is being `x` or being reached from `x`'s children. */
  lemma {:induction false} CoveredSingle<D>(nodes: seq<Node<D>>, rank: seq<nat>, bound: nat, i: nat, x: nat)
    requires Forest(nodes, rank, bound) && i < |nodes| && x < |nodes|
    ensures Covered(nodes, rank, bound, i, [x]) <==>
            i == x || Covered(nodes, rank, bound, i, nodes[x].children)
    decreases rank[i]
  {
    ChildPointsBack(nodes, rank, bound, x, i);
    if nodes[i].parent.Some? {
      CoveredSingle(nodes, rank, bound, nodes[i].parent.value, x);
    }
  }

  /** A node found in `x`'s children list has `x` as its parent. */
  lemma ChildPointsBack<D>(nodes: seq<Node<D>>, rank: seq<nat>, bound: nat, x: nat, i: nat)
    requires Forest(nodes, rank, bound) && x < |nodes|
    ensures i in nodes[x].children ==> nodes[i].parent == Some(x)
  {
    if i in nodes[x].children {
      var k :| 0 <= k < |nodes[x].children| && nodes[x].children[k] == i;
    }
  }

  /** Reachability only depends on children lists and parent pointers. */
  lemma {:induction false} CoveredShape<D>(a: seq<Node<D>>, b: seq<Node<D>>, rank: seq<nat>, bound: nat, i: nat, ids: seq<nat>)
    requires SameShape(a, b) && Ranked(a, rank, bound) && Ranked(b, rank, bound) && i < |a|
    ensures Covered(a, rank, bound, i, ids) == Covered(b, rank, bound, i, ids)
    decreases rank[i]
  {
    if a[i].parent.Some? { CoveredShape(a, b, rank, bound, a[i].parent.value, ids); }
  }

  lemma SameShapeForest<D>(a: seq<Node<D>>, b: seq<Node<D>>, rank: seq<nat>, bound: nat)
    requires SameShape(a, b) && Forest(a, rank, bound)
    ensures Forest(b, rank, bound)
  {
    assert forall i :: 0 <= i < |a| ==> a[i].children == b[i].children && a[i].parent == b[i].parent;
  }

  /**
   * The arena after `expand_all` (`flag` true) or `collapse_all` (`flag`
   * false) started from `ids`: every node reached from `ids` that has
   * children gets the flag; every other node is left as it was.
   */
  ghost function Flagged<D>(nodes: seq<Node<D>>, rank: seq<nat>, bound: nat, ids: seq<nat>, flag: bool): (r: seq<Node<D>>)
    requires Ranked(nodes, rank, bound)
    ensures |r| == |nodes|
  {
    seq(|nodes|, i requires 0 <= i < |nodes| =>
      if |nodes[i].children| > 0 && Covered(nodes, rank, bound, i, ids)
      then nodes[i].(expanded := flag) else nodes[i])
  }

  lemma FlaggedShape<D>(nodes: seq<Node<D>>, rank: seq<nat>, bound: nat, ids: seq<nat>, flag: bool)
    requires Forest(nodes, rank, bound)
    ensures SameShape(nodes, Flagged(nodes, rank, bound, ids, flag))
    ensures Forest(Flagged(nodes, rank, bound, ids, flag), rank, bound)
  {
    SameShapeForest(nodes, Flagged(nodes, rank, bound, ids, flag), rank, bound);
  }

  /** One more list entry processed by the `expand_recursive`/`collapse_recursive` loop. */
  lemma FlaggedStep<D>(orig: seq<Node<D>>, rank: seq<nat>, bound: nat, ids: seq<nat>, k: nat, flag: bool, after: seq<Node<D>>)
    requires Forest(orig, rank, bound) && k < |ids| && ids[k] < |orig|
    requires |orig[ids[k]].children| > 0
    requires var cur := Flagged(orig, rank, bound, ids[..k], flag);
             var mid := cur[ids[k] := cur[ids[k]].(expanded := flag)];
             Ranked(mid, rank, bound) && after == Flagged(mid, rank, bound, orig[ids[k]].children, flag)
    ensures after == Flagged(orig, rank, bound, ids[..k + 1], flag)
  {
    var x := ids[k];
    var cur := Flagged(orig, rank, bound, ids[..k], flag);
    var mid := cur[x := cur[x].(expanded := flag)];
    var goal := Flagged(orig, rank, bound, ids[..k + 1], flag);
    assert ids[..k + 1] == ids[..k] + [x];
    forall i | 0 <= i < |orig| ensures after[i] == goal[i] {
      assert mid[i].children == orig[i].children && mid[i].parent == orig[i].parent;
      FlaggedShape(orig, rank, bound, ids[..k], flag);
      assert SameShape(orig, mid);
      CoveredShape(orig, mid, rank, bound, i, orig[x].children);
      CoveredAppend(orig, rank, bound, i, ids[..k], [x]);
      CoveredSingle(orig, rank, bound, i, x);
    }
  }

  lemma FlaggedSkip<D>(orig: seq<Node<D>>, rank: seq<nat>, bound: nat, ids: seq<nat>, k: nat, flag: bool)
    requires Forest(orig, rank, bound) && k < |ids| && ids[k] < |orig|
    requires |orig[ids[k]].children| == 0
    ensures Flagged(orig, rank, bound, ids[..k], flag) == Flagged(orig, rank, bound, ids[..k + 1], flag)
  {
    var x := ids[k];
    assert ids[..k + 1] == ids[..k] + [x];
    forall i | 0 <= i < |orig|
      ensures Flagged(orig, rank, bound, ids[..k], flag)[i] == Flagged(orig, rank, bound, ids[..k + 1], flag)[i]
    {
      CoveredAppend(orig, rank, bound, i, ids[..k], [x]);
      CoveredSingle(orig, rank, bound, i, x);
      CoveredNone(orig, rank, bound, i);
    }
  }

  /**
   * `collapse_all` after `expand_all` leaves the same arena as
   * `collapse_all` alone: every reached node with children ends collapsed
   * and every other node keeps its flag.
   */
  lemma CollapseAfterExpand<D>(nodes: seq<Node<D>>, rank: seq<nat>, bound: nat, roots: seq<nat>)
    requires Forest(nodes, rank, bound)
    ensures Ranked(Flagged(nodes, rank, bound, roots, true), rank, bound)
    ensures Flagged(Flagged(nodes, rank, bound, roots, true), rank, bound, roots, false) ==
            Flagged(nodes, rank, bound, roots, false)
  {
    var e := Flagged(nodes, rank, bound, roots, true);
    FlaggedShape(nodes, rank, bound, roots, true);
    forall i | 0 <= i < |nodes|
      ensures Flagged(e, rank, bound, roots, false)[i] == Flagged(nodes, rank, bound, roots, false)[i]
    {
      CoveredShape(nodes, e, rank, bound, i, roots);
    }
  }

  /**
   * The nodes reached from `ids` in the order the view lists them:
   * each node, then everything below it, then the rest of the list.
   * `lo` is a lower bound on the ranks in `ids` and only serves
   * termination; an entry that breaks the ranking is skipped, which never
   * happens in a `Forest` (see `PreOrderAt`).
   */
  ghost function PreOrder<D>(nodes: seq<Node<D>>, rank: seq<nat>, bound: nat, ids: seq<nat>, lo: nat): seq<nat>
    decreases bound - lo, |ids|
  {
    if ids == [] then []
    else
      var x := ids[0];
      if x < |nodes| && x < |rank| && lo <= rank[x] < bound then
        [x] + PreOrder(nodes, rank, bound, nodes[x].children, rank[x] + 1) + PreOrder(nodes, rank, bound, ids[1..], lo)
      else PreOrder(nodes, rank, bound, ids[1..], lo)
  }

  lemma {:induction false} PreOrderAppend<D>(nodes: seq<Node<D>>, rank: seq<nat>, bound: nat, a: seq<nat>, b: seq<nat>, lo: nat)
    ensures PreOrder(nodes, rank, bound, a + b, lo) == PreOrder(nodes, rank, bound, a, lo) + PreOrder(nodes, rank, bound, b, lo)
    decreases |a|
  {
    if a == [] {
      assert a + b == b;
    } else {
      PreOrderAppend(nodes, rank, bound, a[1..], b, lo);
      assert (a + b)[0] == a[0] && (a + b)[1..] == a[1..] + b;
      var x := a[0];
      if x < |nodes| && x < |rank| && lo <= rank[x] < bound {
        var head := [x] + PreOrder(nodes, rank, bound, nodes[x].children, rank[x] + 1);
        AppendAssoc(head, PreOrder(nodes, rank, bound, a[1..], lo), PreOrder(nodes, rank, bound, b, lo));
      }
    }
  }

  lemma AppendAssoc<T>(x: seq<T>, y: seq<T>, z: seq<T>)
    ensures x + (y + z) == x + y + z
  {
  }

  /** The listing of a list whose first entry respects the ranking. */
  lemma PreOrderHead<D>(nodes: seq<Node<D>>, rank: seq<nat>, bound: nat, ids: seq<nat>, lo: nat)
    requires ids != [] && ids[0] < |nodes| && ids[0] < |rank| && lo <= rank[ids[0]] < bound
    ensures PreOrder(nodes, rank, bound, ids, lo) ==
            [ids[0]] + PreOrder(nodes, rank, bound, nodes[ids[0]].children, rank[ids[0]] + 1) +
            PreOrder(nodes, rank, bound, ids[1..], lo)
  {
  }

  /**
   * Splitting the listing of `ids` at entry `i`: the entries before it,
   * the entry with everything below it, and the entries after it.
   */
  lemma PreOrderAt<D>(nodes: seq<Node<D>>, rank: seq<nat>, bound: nat, ids: seq<nat>, i: nat, lo: nat)
    requires Forest(nodes, rank, bound) && i < |ids|
    requires forall k :: 0 <= k < |ids| ==> ids[k] < |nodes| && lo <= rank[ids[k]]
    ensures rank[ids[i]] < bound
    ensures forall k :: 0 <= k < |nodes[ids[i]].children| ==>
              nodes[ids[i]].children[k] < |nodes| && rank[ids[i]] + 1 <= rank[nodes[ids[i]].children[k]]
    ensures PreOrder(nodes, rank, bound, ids[..i + 1], lo) ==
            PreOrder(nodes, rank, bound, ids[..i], lo) +
            ([ids[i]] + PreOrder(nodes, rank, bound, nodes[ids[i]].children, rank[ids[i]] + 1))
    ensures PreOrder(nodes, rank, bound, ids, lo) ==
            PreOrder(nodes, rank, bound, ids[..i + 1], lo) + PreOrder(nodes, rank, bound, ids[i + 1..], lo)
  {
    var x := ids[i];
    ChildrenRankAbove(nodes, rank, bound, x);
    assert ids[..i + 1] == ids[..i] + [x];
    PreOrderAppend(nodes, rank, bound, ids[..i], [x], lo);
    PreOrderHead(nodes, rank, bound, [x], lo);
    assert [x][1..] == [];
    assert ids == ids[..i + 1] + ids[i + 1..];
    PreOrderAppend(nodes, rank, bound, ids[..i + 1], ids[i + 1..], lo);
  }

  lemma ChildrenRankAbove<D>(nodes: seq<Node<D>>, rank: seq<nat>, bound: nat, x: nat)
    requires Forest(nodes, rank, bound) && x < |nodes|
    ensures rank[x] + 1 <= bound
    ensures forall k :: 0 <= k < |nodes[x].children| ==>
              nodes[x].children[k] < |nodes| && rank[x] + 1 <= rank[nodes[x].children[k]]
  {
    forall k | 0 <= k < |nodes[x].children|
      ensures nodes[x].children[k] < |nodes| && rank[x] + 1 <= rank[nodes[x].children[k]]
    {
      assert nodes[nodes[x].children[k]].parent == Some(x);
    }
  }

  /** The pre-order listing holds exactly the nodes reached from `ids`. */
  lemma {:induction false} PreOrderCovers<D>(nodes: seq<Node<D>>, rank: seq<nat>, bound: nat, ids: seq<nat>, lo: nat, y: nat)
    requires Forest(nodes, rank, bound) && y < |nodes|
    requires forall k :: 0 <= k < |ids| ==> ids[k] < |nodes| && lo <= rank[ids[k]]
    ensures y in PreOrder(nodes, rank, bound, ids, lo) <==> Covered(nodes, rank, bound, y, ids)
    decreases bound - lo, |ids|
  {
    if ids == [] {
      CoveredNone(nodes, rank, bound, y);
    } else {
      var x := ids[0];
      ChildrenRankAbove(nodes, rank, bound, x);
      PreOrderHead(nodes, rank, bound, ids, lo);
      PreOrderCovers(nodes, rank, bound, nodes[x].children, rank[x] + 1, y);
      PreOrderCovers(nodes, rank, bound, ids[1..], lo, y);
      assert ids == [x] + ids[1..];
      CoveredAppend(nodes, rank, bound, y, [x], ids[1..]);
      CoveredSingle(nodes, rank, bound, y, x);
    }
  }

  /**
   * The arena of all tree nodes. Methods here are the pieces of
   * `TreeNode.__init__`, `get_node_level`, the expand/collapse recursion
   * and the children-list edits the views perform.
   */
  class Arena<D> {
    var nodes: seq<Node<D>>
    ghost var rank: seq<nat>
    ghost var bound: nat

    ghost predicate Valid()
      reads this
    {
      Forest(nodes, rank, bound)
    }

    constructor ()
      ensures Valid() && nodes == []
    {
      nodes := [];
      rank := [];
      bound := 0;
    }

    /**
     * `TreeNode(...)`: a parentless node with the given children, each of
     * which gets the new node as parent. The children must not sit in
     * another node's children list.
     */
    method NewNode(children: seq<nat>, expanded: bool, data: D) returns (id: nat)
      requires Valid() && ProperList(nodes, children)
      requires forall k :: 0 <= k < |children| ==> Free(nodes, children[k])
      modifies this
      ensures Valid()
      ensures id == |old(nodes)| && |nodes| == id + 1
      ensures nodes[id] == Node(children, None, expanded, data)
      ensures forall i :: 0 <= i < id ==>
                nodes[i] == if i in children then old(nodes)[i].(parent := Some(id)) else old(nodes)[i]
    {
      id := |nodes|;
      ghost var before := nodes;
      nodes := nodes + [Node(children, None, expanded, data)];
      var k := 0;
      while k < |children|
        invariant 0 <= k <= |children| && |nodes| == id + 1
        invariant rank == old(rank) && bound == old(bound)
        invariant nodes[id] == Node(children, None, expanded, data)
        invariant forall i :: 0 <= i < id ==>
                    nodes[i] == if i in children[..k] then before[i].(parent := Some(id)) else before[i]
      {
        var c := children[k];
        nodes := nodes[c := nodes[c].(parent := Some(id))];
        assert children[..k + 1] == children[..k] + [c];
        k := k + 1;
      }
      assert children[..k] == children;
      ghost var r0 := rank;
      assert |r0| == id;
      rank := seq(id, i requires 0 <= i < id => r0[i] + 1) + [0];
      bound := bound + 1;
      NewNodeForest(before, nodes, old(rank), rank, old(bound), children, id);
    }

    /** `get_node_level`: counts the ancestors by walking `parent` pointers. */
    method Level(i: nat) returns (level: nat)
      requires Valid() && i < |nodes|
      ensures level == Depth(nodes, rank, bound, i)
    {
      level := 0;
      var current := nodes[i].parent;
      while current.Some?
        invariant current.Some? ==> current.value < |nodes|
        invariant level + (if current.Some? then Depth(nodes, rank, bound, current.value) + 1 else 0) ==
                  Depth(nodes, rank, bound, i)
        decreases if current.Some? then rank[current.value] + 1 else 0
      {
        level := level + 1;
        current := nodes[current.value].parent;
      }
    }

    /** `expand_recursive` (`flag` true) / `collapse_recursive` (`flag` false) over `ids`. */
    method MarkAll(ids: seq<nat>, flag: bool, ghost lo: nat)
      requires Valid() && lo <= bound
      requires forall k :: 0 <= k < |ids| ==> ids[k] < |nodes| && lo <= rank[ids[k]]
      modifies this
      ensures Valid() && rank == old(rank) && bound == old(bound)
      ensures nodes == Flagged(old(nodes), rank, bound, ids, flag)
      decreases bound - lo
    {
      forall i | 0 <= i < |nodes| ensures !Covered(nodes, rank, bound, i, ids[..0]) {
        CoveredNone(nodes, rank, bound, i);
      }
      var k := 0;
      while k < |ids|
        invariant 0 <= k <= |ids|
        invariant Valid() && rank == old(rank) && bound == old(bound)
        invariant nodes == Flagged(old(nodes), rank, bound, ids[..k], flag)
      {
        var x := ids[k];
        FlaggedShape(old(nodes), rank, bound, ids[..k], flag);
        if |nodes[x].children| > 0 {
          nodes := nodes[x := nodes[x].(expanded := flag)];
          SameShapeForest(old(nodes), nodes, rank, bound);
          ChildrenRankAbove(nodes, rank, bound, x);
          MarkAll(nodes[x].children, flag, rank[x] + 1);
          FlaggedStep(old(nodes), rank, bound, ids, k, flag, nodes);
        } else {
          FlaggedSkip(old(nodes), rank, bound, ids, k, flag);
        }
        k := k + 1;
      }
      assert ids[..k] == ids;
    }

    /** Sets one node's expanded flag and changes nothing else. */
    method SetExpanded(i: nat, value: bool)
      requires Valid() && i < |nodes|
      modifies this
      ensures Valid() && rank == old(rank) && bound == old(bound)
      ensures nodes == old(nodes)[i := old(nodes)[i].(expanded := value)]
    {
      nodes := nodes[i := nodes[i].(expanded := value)];
      SameShapeForest(old(nodes), nodes, rank, bound);
    }

    /**
     * `p.children.remove(c)`: removes `c` from `p`'s children list, or
     * reports the `ValueError` Python raises when it is not there.
     * `c` keeps its (now stale) parent pointer, as in the source.
     */
    method Detach(p: nat, c: nat) returns (ok: bool)
      requires Valid() && p < |nodes|
      modifies this
      ensures Valid() && rank == old(rank) && bound == old(bound)
      ensures ok <==> c in old(nodes)[p].children
      ensures ok ==> nodes == old(nodes)[p := old(nodes)[p].(children := PyList.RemoveFirst(old(nodes)[p].children, c))]
      ensures ok ==> Free(nodes, c)
      ensures !ok ==> nodes == old(nodes)
    {
      ok := c in nodes[p].children;
      if ok {
        ghost var before := nodes;
        var kids := PyList.RemoveFirst(nodes[p].children, c);
        PyList.RemoveFirstContents(nodes[p].children, c);
        PyList.RemoveFirstUnique(nodes[p].children, c);
        nodes := nodes[p := nodes[p].(children := kids)];
        DetachForest(before, nodes, rank, bound, p, c);
      }
    }

    /**
     * `p.children.append(c)` (no `pos`) or `p.children.insert(pos, c)`,
     * then `c.parent = p`. `c` must be in no children list, and `p` must not
     * be `c` or lie below it, so that no parent cycle arises.
     */
    method Attach(p: nat, c: nat, pos: Option<int>)
      requires Valid() && p < |nodes| && c < |nodes| && Free(nodes, c)
      requires !Below(nodes, rank, bound, p, c)
      modifies this
      ensures Valid()
      ensures nodes == AttachedShape(old(nodes), p, c, pos)
      ensures SameParentsExcept(old(nodes), nodes, c)
    {
      ghost var before := nodes;
      ghost var oldRank := rank;
      ghost var oldBound := bound;
      var kids := Placed(nodes[p].children, c, pos);
      PlacedDistinct(nodes[p].children, c, pos);
      nodes := nodes[p := nodes[p].(children := kids)];
      nodes := nodes[c := nodes[c].(parent := Some(p))];
      rank := seq(|before|, j requires 0 <= j < |before| =>
                if Below(before, oldRank, oldBound, j, c) then oldRank[j] + oldRank[p] + 1 else oldRank[j]);
      bound := oldBound + oldBound;
      AttachForest(before, nodes, oldRank, rank, oldBound, p, c, pos);
    }

    /** Walks up from `j` and reports whether it meets `a`: whether `j` is `a` or lies below it. */
    method IsAtOrBelow(j: nat, a: nat) returns (r: bool)
      requires Valid() && j < |nodes|
      ensures r == Below(nodes, rank, bound, j, a)
    {
      var cur: nat := j;
      while true
        invariant cur < |nodes| && Below(nodes, rank, bound, cur, a) == Below(nodes, rank, bound, j, a)
        decreases rank[cur]
      {
        if cur == a { return true; }
        match nodes[cur].parent {
          case None => return false;
          case Some(q) => cur := q;
        }
      }
    }
  }

  /** The arena after `c` is placed in `p`'s children list and given `p` as parent. */
  function AttachedShape<D>(nodes: seq<Node<D>>, p: nat, c: nat, pos: Option<int>): seq<Node<D>>
    requires p < |nodes| && c < |nodes|
  {
    nodes[p := nodes[p].(children := Placed(nodes[p].children, c, pos))][c := nodes[c].(parent := Some(p))]
  }

  /** Every node other than `c` keeps its parent pointer. */
  ghost predicate SameParentsExcept<D>(a: seq<Node<D>>, b: seq<Node<D>>, c: nat)
  {
    |a| == |b| && forall i :: 0 <= i < |a| && i != c ==> a[i].parent == b[i].parent
  }

  /** A root list stays one when only a non-root's parent pointer changes. */
  lemma RootListKept<D>(a: seq<Node<D>>, b: seq<Node<D>>, roots: seq<nat>, c: nat)
    requires RootList(a, roots) && SameParentsExcept(a, b, c) && c !in roots
    ensures RootList(b, roots)
  {
  }

  /** Removing an entry from a root list leaves a root list without it. */
  lemma RootListRemove<D>(nodes: seq<Node<D>>, roots: seq<nat>, c: nat)
    requires RootList(nodes, roots) && c in roots
    ensures RootList(nodes, PyList.RemoveFirst(roots, c)) && c !in PyList.RemoveFirst(roots, c)
  {
    PyList.RemoveFirstUnique(roots, c);
    PyList.RemoveFirstContents(roots, c);
  }

  /** Dropping the entry at `k` from a root list leaves a root list. */
  lemma RootListDrop<D>(nodes: seq<Node<D>>, roots: seq<nat>, k: nat)
    requires RootList(nodes, roots) && k < |roots|
    ensures RootList(nodes, roots[..k] + roots[k + 1..])
  {
    var r := roots[..k] + roots[k + 1..];
    forall i | 0 <= i < |r| ensures r[i] == roots[if i < k then i else i + 1] {}
  }

  /** A parentless node is in no children list. */
  lemma RootIsFree<D>(nodes: seq<Node<D>>, r: nat)
    requires WellFormed(nodes) && r < |nodes| && nodes[r].parent.None?
    ensures Free(nodes, r)
  {
  }

  /** Being below a node depends on parent pointers only. */
  lemma {:induction false} BelowSameParents<D>(a: seq<Node<D>>, b: seq<Node<D>>, rank: seq<nat>, bound: nat, j: nat, x: nat)
    requires Ranked(a, rank, bound) && Ranked(b, rank, bound) && SameParentsExcept(a, b, |a|) && j < |a|
    ensures Below(a, rank, bound, j, x) == Below(b, rank, bound, j, x)
    decreases rank[j]
  {
    if a[j].parent.Some? { BelowSameParents(a, b, rank, bound, a[j].parent.value, x); }
  }

  /**
   * Re-parenting `c` leaves the depth of every node that is not `c` and
   * not below it unchanged, whatever ranking witnesses the new arena.
   */
  lemma {:induction false} DepthKept<D>(a: seq<Node<D>>, b: seq<Node<D>>, rank: seq<nat>, bound: nat,
                                        rank': seq<nat>, bound': nat, c: nat, j: nat)
    requires Ranked(a, rank, bound) && Ranked(b, rank', bound') && SameParentsExcept(a, b, c) && j < |a|
    requires !Below(a, rank, bound, j, c)
    ensures Depth(b, rank', bound', j) == Depth(a, rank, bound, j)
    decreases rank[j]
  {
    if a[j].parent.Some? { DepthKept(a, b, rank, bound, rank', bound', c, a[j].parent.value); }
  }

  /** Every children list of the arena, concatenated in node order. */
  ghost function AllChildren<D>(nodes: seq<Node<D>>): seq<nat>
  {
    if nodes == [] then [] else AllChildren(nodes[..|nodes| - 1]) + nodes[|nodes| - 1].children
  }

  /** Replacing one children list replaces its entries in the whole multiset of list entries. */
  lemma {:induction false} AllChildrenUpdate<D>(nodes: seq<Node<D>>, p: nat, n: Node<D>)
    requires p < |nodes|
    ensures multiset(AllChildren(nodes[p := n])) + multiset(nodes[p].children) ==
            multiset(AllChildren(nodes)) + multiset(n.children)
    decreases |nodes|
  {
    var last := |nodes| - 1;
    var nodes' := nodes[p := n];
    if p == last {
      assert nodes'[..last] == nodes[..last];
    } else {
      var rest := AllChildren(nodes[..last]);
      var rest' := AllChildren(nodes'[..last]);
      var tail := nodes[last].children;
      assert nodes'[..last] == nodes[..last][p := n];
      AllChildrenUpdate(nodes[..last], p, n);
      assert nodes[..last][p] == nodes[p] && nodes'[last] == nodes[last];
      assert multiset(rest') + multiset(nodes[p].children) == multiset(rest) + multiset(n.children);
      assert AllChildren(nodes') == rest' + tail;
      assert AllChildren(nodes) == rest + tail;
      assert multiset(rest' + tail) == multiset(rest') + multiset(tail);
      assert multiset(rest + tail) == multiset(rest) + multiset(tail);
      MultisetShift(multiset(rest'), multiset(rest), multiset(nodes[p].children), multiset(n.children), multiset(tail));
    }
  }

  /** Adding the same entries on both sides of a multiset equation keeps it. */
  lemma MultisetShift<T>(a': multiset<T>, a: multiset<T>, p: multiset<T>, n: multiset<T>, t: multiset<T>)
    requires a' + p == a + n
    ensures a' + t + p == a + t + n
  {
    forall e ensures (a' + t + p)[e] == (a + t + n)[e] {
      assert (a' + p)[e] == (a + n)[e];
    }
  }

  lemma MultisetCancel<T>(a: multiset<T>, b: multiset<T>, k: multiset<T>, c: multiset<T>)
    requires a + k == b + (k + c)
    ensures a == b + c
  {
    forall e ensures a[e] == (b + c)[e] {
      assert (a + k)[e] == (b + (k + c))[e];
    }
  }

  /** Changing a node's parent pointer or expanded flag leaves the list entries alone. */
  lemma AllChildrenSameKids<D>(nodes: seq<Node<D>>, i: nat, n: Node<D>)
    requires i < |nodes| && n.children == nodes[i].children
    ensures multiset(AllChildren(nodes[i := n])) == multiset(AllChildren(nodes))
  {
    AllChildrenUpdate(nodes, i, n);
    MultisetCancel(multiset(AllChildren(nodes[i := n])), multiset(AllChildren(nodes)), multiset(n.children), multiset{});
  }

  /** Attaching `c` under `p` adds exactly one entry, `c`, to the lists. */
  lemma AttachedEntries<D>(nodes: seq<Node<D>>, p: nat, c: nat, pos: Option<int>)
    requires p < |nodes| && c < |nodes| && p != c
    ensures multiset(AllChildren(AttachedShape(nodes, p, c, pos))) == multiset(AllChildren(nodes)) + multiset{c}
  {
    var kids := nodes[p].children;
    var mid := nodes[p := nodes[p].(children := Placed(kids, c, pos))];
    AllChildrenUpdate(nodes, p, mid[p]);
    assert multiset(mid[p].children) == multiset(kids) + multiset{c};
    MultisetCancel(multiset(AllChildren(mid)), multiset(AllChildren(nodes)), multiset(kids), multiset{c});
    AllChildrenSameKids(mid, c, nodes[c].(parent := Some(p)));
    assert AttachedShape(nodes, p, c, pos) == mid[c := nodes[c].(parent := Some(p))];
  }

  /** The children list after `append(c)` (no position) or `insert(pos, c)`. */
  function Placed(kids: seq<nat>, c: nat, pos: Option<int>): (r: seq<nat>)
    ensures multiset(r) == multiset(kids) + multiset{c}
  {
    match pos
    case None => kids + [c]
    case Some(i) => PyList.Insert(kids, i, c)
  }

  lemma PlacedDistinct(kids: seq<nat>, c: nat, pos: Option<int>)
    requires forall a, b :: 0 <= a < b < |kids| ==> kids[a] != kids[b]
    requires c !in kids
    ensures forall a, b :: 0 <= a < b < |Placed(kids, c, pos)| ==> Placed(kids, c, pos)[a] != Placed(kids, c, pos)[b]
  {
    var r := Placed(kids, c, pos);
    var k := if pos.None? then |kids| else PyList.InsertPos(|kids|, pos.value);
    assert r == kids[..k] + [c] + kids[k..] by {
      if pos.None? { assert kids[..k] == kids && kids[k..] == []; }
    }
    forall a, b | 0 <= a < b < |r| ensures r[a] != r[b] {
      var ia := if a < k then a else a - 1;
      var ib := if b < k then b else b - 1;
      if a != k && b != k {
        assert r[a] == kids[ia] && r[b] == kids[ib];
      } else if a == k {
        assert r[b] == kids[ib];
      } else {
        assert r[a] == kids[ia];
      }
    }
  }

  lemma NewNodeForest<D>(before: seq<Node<D>>, after: seq<Node<D>>, rank: seq<nat>, rank': seq<nat>,
                         bound: nat, children: seq<nat>, id: nat)
    requires Forest(before, rank, bound) && ProperList(before, children) && id == |before|
    requires forall k :: 0 <= k < |children| ==> Free(before, children[k])
    requires |after| == id + 1 && after[id].children == children && after[id].parent.None?
    requires forall i :: 0 <= i < id ==>
               after[i] == if i in children then before[i].(parent := Some(id)) else before[i]
    requires rank' == seq(id, i requires 0 <= i < id => rank[i] + 1) + [0]
    ensures Forest(after, rank', bound + 1)
  {
    forall i, k | 0 <= i < |after| && 0 <= k < |after[i].children|
      ensures after[i].children[k] < |after| && after[after[i].children[k]].parent == Some(i)
    {
      var c := after[i].children[k];
      if i < id {
        assert before[i].children[k] == c;
        assert c !in children by {
          forall m | 0 <= m < |children| ensures children[m] != c {
            assert Free(before, children[m]);
          }
        }
      }
    }
    forall i | 0 <= i < |after| && after[i].parent.Some?
      ensures after[i].parent.value < |after| && rank'[after[i].parent.value] < rank'[i]
    {
    }
  }

  lemma DetachForest<D>(before: seq<Node<D>>, after: seq<Node<D>>, rank: seq<nat>, bound: nat, p: nat, c: nat)
    requires Forest(before, rank, bound) && p < |before| && c in before[p].children
    requires after == before[p := before[p].(children := PyList.RemoveFirst(before[p].children, c))]
    ensures Forest(after, rank, bound) && Free(after, c)
  {
    PyList.RemoveFirstContents(before[p].children, c);
    PyList.RemoveFirstUnique(before[p].children, c);
    var k0 :| 0 <= k0 < |before[p].children| && before[p].children[k0] == c;
    assert before[c].parent == Some(p);
    forall i, k | 0 <= i < |after| && 0 <= k < |after[i].children|
      ensures after[i].children[k] < |after| && after[after[i].children[k]].parent == Some(i)
      ensures after[i].children[k] != c
    {
      var x := after[i].children[k];
      if i == p {
        assert x in before[p].children;
        var m :| 0 <= m < |before[p].children| && before[p].children[m] == x;
      } else {
        assert before[i].children[k] == x;
        assert before[x].parent == Some(i);
      }
    }
    forall i, a, b | 0 <= i < |after| && 0 <= a < b < |after[i].children|
      ensures after[i].children[a] != after[i].children[b]
    {
    }
  }

  lemma AttachForest<D>(before: seq<Node<D>>, after: seq<Node<D>>, rank: seq<nat>, rank': seq<nat>, bound: nat,
                        p: nat, c: nat, pos: Option<int>)
    requires Forest(before, rank, bound) && p < |before| && c < |before| && Free(before, c)
    requires !Below(before, rank, bound, p, c)
    requires after == before[p := before[p].(children := Placed(before[p].children, c, pos))]
                            [c := before[c].(parent := Some(p))]
    requires rank' == seq(|before|, j requires 0 <= j < |before| =>
                if Below(before, rank, bound, j, c) then rank[j] + rank[p] + 1 else rank[j])
    ensures Forest(after, rank', bound + bound)
  {
    assert p != c;
    var kids := Placed(before[p].children, c, pos);
    assert c !in before[p].children by {
      forall m | 0 <= m < |before[p].children| ensures before[p].children[m] != c {}
    }
    PlacedDistinct(before[p].children, c, pos);
    forall i, k | 0 <= i < |after| && 0 <= k < |after[i].children|
      ensures after[i].children[k] < |after| && after[after[i].children[k]].parent == Some(i)
    {
      var x := after[i].children[k];
      if i == p {
        assert x in multiset(kids);
        if x != c {
          assert x in before[p].children;
          var m :| 0 <= m < |before[p].children| && before[p].children[m] == x;
        }
      } else {
        assert before[i].children[k] == x;
        assert x != c;
      }
    }
    forall i, a, b | 0 <= i < |after| && 0 <= a < b < |after[i].children|
      ensures after[i].children[a] != after[i].children[b]
    {
    }
    forall j | 0 <= j < |after|
      ensures rank'[j] < bound + bound
      ensures after[j].parent.Some? ==> after[j].parent.value < |after| && rank'[after[j].parent.value] < rank'[j]
    {
      if j != c && before[j].parent.Some? {
        var q := before[j].parent.value;
        if Below(before, rank, bound, q, c) {
          assert Below(before, rank, bound, j, c);
        }
      }
    }
  }

  /** Attaching a node and then expanding its new parent adds exactly that node to the list entries. */
  lemma PlacedExpandedEntries<D>(nodes: seq<Node<D>>, np: nat, n: nat, pos: Option<int>, final: seq<Node<D>>)
    requires n < |nodes| && np < |nodes| && n != np
    requires final == AttachedShape(nodes, np, n, pos)[np := AttachedShape(nodes, np, n, pos)[np].(expanded := true)]
    ensures multiset(AllChildren(final)) == multiset(AllChildren(nodes)) + multiset{n}
  {
    var placed := AttachedShape(nodes, np, n, pos);
    AttachedEntries(nodes, np, n, pos);
    AllChildrenSameKids(placed, np, placed[np].(expanded := true));
  }

  /** A node re-parented under `np`, where `np` is not below it, ends one level below `np`'s old level. */
  lemma ReparentDepth<D>(nodes0: seq<Node<D>>, final: seq<Node<D>>, rank0: seq<nat>, bound0: nat,
                  rank: seq<nat>, bound: nat, n: nat, np: nat)
    requires Ranked(nodes0, rank0, bound0) && Ranked(final, rank, bound)
    requires n < |nodes0| && np < |nodes0| && SameParentsExcept(nodes0, final, n) && final[n].parent == Some(np)
    requires !Below(nodes0, rank0, bound0, np, n)
    ensures Depth(final, rank, bound, n) == Depth(nodes0, rank0, bound0, np) + 1
  {
    DepthKept(nodes0, final, rank0, bound0, rank, bound, n, np);
  }

}
