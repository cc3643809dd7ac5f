/** The laid-out hierarchy that the chart draws.
    The layout itself (summing, sorting, circle packing) is done by d3 and
    is taken here as given: every node carries its name, depth, parent and
    the circle (x, y, r) the packer assigned to it. */
module Layout {

  /** One laid-out node. `parent` is the index of the parent node, or -1
      for the root (whose parent is null). */
  datatype Node = Node(name: string, depth: nat, parent: int, x: real, y: real, r: real)

  /** The nodes in `descendants()` order: index 0 is the root. */
  datatype Tree = Tree(nodes: seq<Node>) {

    /** What the hierarchy and the packer guarantee: a single root at depth 0
        without a parent, every other node one level below its parent, and a
        positive radius for the root and for every node that has children
        (the packer grows each enclosing circle by its padding). */
    predicate Valid() {
      && |nodes| > 0
      && nodes[0].depth == 0 && nodes[0].parent == -1 && nodes[0].r > 0.0
      && (forall i :: 1 <= i < |nodes| ==> Linked(i))
    }

    /** Node i (not the root) has a parent in the tree, one level above it,
        whose circle has a positive radius. */
    predicate Linked(i: nat)
      requires 1 <= i < |nodes|
    {
      && 0 <= nodes[i].parent < |nodes|
      && nodes[i].depth == nodes[nodes[i].parent].depth + 1
      && nodes[nodes[i].parent].r > 0.0
    }

    /** Node i is a child of node f: its parent link names f. */
    predicate IsChild(i: nat, f: nat)
      requires i < |nodes|
    {
      nodes[i].parent == f
    }

    /** `d.children` is set exactly when some node names i as its parent. */
    predicate HasChildren(i: nat) {
      exists j :: 1 <= j < |nodes| && nodes[j].parent == i
    }

    /** The root is the only node at depth 0. */
    lemma OnlyRootAtDepthZero(i: nat)
      requires Valid() && i < |nodes|
      ensures nodes[i].depth == 0 <==> i == 0
    {
      if i != 0 {
        assert Linked(i);
      }
    }

    /** A node with children has a circle of positive radius. */
    lemma InnerRadiusPositive(i: nat)
      requires Valid() && HasChildren(i)
      ensures i < |nodes| && nodes[i].r > 0.0
    {
      var j :| 1 <= j < |nodes| && nodes[j].parent == i;
      assert Linked(j);
    }

    /** The indices of the children of f. */
    function Children(f: nat): set<nat> {
      set i: nat | i < |nodes| && nodes[i].parent == f
    }

    /** The ancestor reached from i by following k parent links. */
    function Climb(i: nat, k: nat): (a: nat)
      requires Valid() && i < |nodes| && k <= nodes[i].depth
      ensures a < |nodes| && nodes[a].depth == nodes[i].depth - k
      decreases k
    {
      if k == 0 then i else assert Linked(i); Climb(nodes[i].parent as nat, k - 1)
    }

    /** The depth-1 ancestor of i (the top-level branch i belongs to), or i
        itself when i is the root or a top-level node. */
    function TopAncestor(i: nat): (a: nat)
      requires Valid() && i < |nodes|
      ensures a < |nodes|
      ensures nodes[a].depth == if nodes[i].depth == 0 then 0 else 1
      ensures a == Climb(i, nodes[i].depth - nodes[a].depth)
    {
      if nodes[i].depth <= 1 then i else Climb(i, nodes[i].depth - 1)
    }

    /** One more step up is the parent of where k steps lead. */
    lemma {:induction false} ClimbStep(i: nat, k: nat)
      requires Valid() && i < |nodes| && k < nodes[i].depth
      ensures Climb(i, k) != 0
      ensures Climb(i, k + 1) == nodes[Climb(i, k)].parent
      decreases k
    {
      assert Linked(i);
      if k > 0 {
        ClimbStep(nodes[i].parent as nat, k - 1);
      }
    }

    /** Climbing k steps and then m steps is climbing k + m steps. */
    lemma {:induction false} ClimbAdd(i: nat, k: nat, m: nat)
      requires Valid() && i < |nodes| && k + m <= nodes[i].depth
      ensures Climb(Climb(i, k), m) == Climb(i, k + m)
      decreases k
    {
      if k > 0 {
        assert Linked(i);
        ClimbAdd(nodes[i].parent as nat, k - 1, m);
      }
    }

    /** Every node below a top-level node (an ancestor at some depth >= 1)
        has the same top-level ancestor as the node it descends from. */
    lemma SameBranchSameTop(i: nat, k: nat)
      requires Valid() && i < |nodes| && k < nodes[i].depth
      ensures TopAncestor(Climb(i, k)) == TopAncestor(i)
    {
      var a := Climb(i, k);
      if nodes[a].depth > 1 {
        ClimbAdd(i, k, nodes[a].depth - 1);
      }
    }
  }
}
