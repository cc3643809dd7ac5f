/** Per-node style rules of main.js: fill and stroke colour keyed on the
    top-level branch, the depth-dependent lightness bump, stroke width,
    which circles take pointer events, and the label baseline offset. */
module Style {
  import opened Layout

  /** A colour as d3.hsl holds it: hue, saturation, lightness. */
  datatype Hsl = Hsl(h: real, s: real, l: real)

  /** The colour configuration. `palette` stands for the categorical colour
      scale keyed on a node name, converted to HSL; which colour a name
      receives is the library's business, but one name always receives one
      colour. `hexcolor` is the fixed single colour, converted to HSL. */
  datatype Scheme = Scheme(multicolor: bool, hexcolor: Hsl, palette: string -> Hsl)

  /** The colour chosen for a branch whose top-level node is named `name`. */
  function BaseColour(scheme: Scheme, name: string): Hsl {
    if scheme.multicolor then scheme.palette(name) else scheme.hexcolor
  }

  /** The stroke colour of node i: the base colour of its top-level branch. */
  function StrokeColour(t: Tree, scheme: Scheme, i: nat): Hsl
    requires t.Valid() && i < |t.nodes|
  {
    BaseColour(scheme, t.nodes[t.TopAncestor(i)].name)
  }

  /** How much the fill lightness of a node at `depth` is raised. The
      multiplier is the node's own depth, so depth 2 is raised by 0.2. */
  function LightnessBump(depth: nat): real {
    if depth == 1 then 0.0 else depth as real * 0.1
  }

  /** The fill colour of node i: the stroke colour, lightened by depth. */
  function FillColour(t: Tree, scheme: Scheme, i: nat): Hsl
    requires t.Valid() && i < |t.nodes|
  {
    var c := StrokeColour(t, scheme, i);
    c.(l := c.l + LightnessBump(t.nodes[i].depth))
  }

  /** The loop shared by setCircleColor and setStrokeColor: follow parent
      links while the depth is above 1. It stops at the node's top-level
      ancestor, so at depth 1 (or at the root) and after exactly
      depth - 1 steps. */
  method ClimbToBranch(t: Tree, i: nat) returns (a: nat)
    requires t.Valid() && i < |t.nodes|
    ensures a == t.TopAncestor(i)
  {
    a := i;
    ghost var k: nat := 0;
    while t.nodes[a].depth > 1
      invariant a < |t.nodes| && k <= t.nodes[i].depth
      invariant a == t.Climb(i, k) && t.nodes[a].depth == t.nodes[i].depth - k
      invariant t.nodes[i].depth >= 1 ==> t.nodes[a].depth >= 1
      decreases t.nodes[a].depth
    {
      t.ClimbStep(i, k);
      assert t.Linked(a);
      a := t.nodes[a].parent as nat;
      k := k + 1;
    }
  }

  /** setCircleColor: the base colour of the branch, its lightness raised by
      the node's depth. */
  method SetCircleColor(t: Tree, scheme: Scheme, i: nat) returns (c: Hsl)
    requires t.Valid() && i < |t.nodes|
    ensures c == FillColour(t, scheme, i)
  {
    var depth := t.nodes[i].depth;
    var top := ClimbToBranch(t, i);
    c := BaseColour(scheme, t.nodes[top].name);
    c := c.(l := c.l + (if depth == 1 then 0.0 else depth as real * 0.1));
  }

  /** setStrokeColor: the base colour of the branch, unchanged. */
  method SetStrokeColor(t: Tree, scheme: Scheme, i: nat) returns (c: Hsl)
    requires t.Valid() && i < |t.nodes|
    ensures c == StrokeColour(t, scheme, i)
  {
    var top := ClimbToBranch(t, i);
    c := BaseColour(scheme, t.nodes[top].name);
  }

  /** All nodes of one top-level branch share its stroke colour, and their
      fills differ from it only in lightness. */
  lemma BranchSharesStroke(t: Tree, scheme: Scheme, i: nat, k: nat)
    requires t.Valid() && i < |t.nodes| && k < t.nodes[i].depth
    ensures StrokeColour(t, scheme, t.Climb(i, k)) == StrokeColour(t, scheme, i)
    ensures FillColour(t, scheme, i).h == StrokeColour(t, scheme, t.Climb(i, k)).h
    ensures FillColour(t, scheme, i).s == StrokeColour(t, scheme, t.Climb(i, k)).s
  {
    t.SameBranchSameTop(i, k);
  }

  /** With multicolor off, every node is stroked with hexcolor and filled
      with hexcolor lightened by its depth, whatever the names. */
  lemma MonochromeUsesHexcolor(t: Tree, scheme: Scheme, i: nat)
    requires t.Valid() && i < |t.nodes| && !scheme.multicolor
    ensures StrokeColour(t, scheme, i) == scheme.hexcolor
    ensures FillColour(t, scheme, i)
         == scheme.hexcolor.(l := scheme.hexcolor.l + LightnessBump(t.nodes[i].depth))
  {
  }

  /** The fill of a top-level node equals its stroke; below that the fill is
      strictly lighter, by a tenth per level of the node's own depth, and
      deeper nodes of a branch are lighter than shallower ones. */
  lemma FillLightening(t: Tree, scheme: Scheme, i: nat, k: nat)
    requires t.Valid() && i < |t.nodes| && k < t.nodes[i].depth
    ensures t.nodes[i].depth == 1 ==> FillColour(t, scheme, i) == StrokeColour(t, scheme, i)
    ensures t.nodes[i].depth >= 2 ==>
      FillColour(t, scheme, i).l == StrokeColour(t, scheme, i).l + t.nodes[i].depth as real / 10.0
    ensures 0 < k ==>
      FillColour(t, scheme, t.Climb(i, k)).l < FillColour(t, scheme, i).l
  {
    if 0 < k {
      t.SameBranchSameTop(i, k);
    }
  }

  /** `stroke-width`: 3px exactly on the top-level circles, 1px elsewhere. */
  function StrokeWidth(t: Tree, i: nat): (px: nat)
    requires t.Valid() && i < |t.nodes|
    ensures px == 3 <==> i != 0 && t.TopAncestor(i) == i
    ensures px == 1 <==> !(i != 0 && t.TopAncestor(i) == i)
  {
    t.OnlyRootAtDepthZero(i);
    if t.nodes[i].depth == 1 then 3 else 1
  }

  /** `pointer-events`: a circle takes clicks exactly when its node has
      children ('none' on leaves, the default otherwise). */
  predicate TakesPointerEvents(t: Tree, i: nat) {
    t.HasChildren(i)
  }

  /** The two font sizes the ordinal `fontsize` scale is given: depth 1
      gets 30px and depth 3 gets 20px. Other depths are left to d3's
      implicit-domain behaviour. */
  predicate StatedFontSizes(fontSize: nat -> real) {
    fontSize(1) == 30.0 && fontSize(3) == 20.0
  }

  /** The extra vertical offset of a label below its node's screen centre. */
  function LabelOffset(fontSize: nat -> real, depth: nat): real {
    fontSize(depth) / 4.0
  }
}
