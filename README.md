# Zoomable circle packing: node styling, zoom state and screen map

This project models the node-level logic that `main.js` wraps around d3 in a
zoomable circle-packing chart. d3 lays out the tree. The chart colours each
circle by its top-level branch. A click on a circle zooms the view onto that
node, and a click on the background zooms back out to the root. During the
zoom, the labels fade so that only the children of the focused node stay
visible.

The laid-out tree is an input (`Layout.Tree`). It is a sequence of nodes in
`descendants()` order, with index 0 the root. Each node carries its name,
depth, parent index (-1 for the root) and the circle `(x, y, r)` that the
packer assigned. Coordinates are Dafny `real`s.

- `layout.dfy` (`Layout`): the tree and its well-formedness.
  - `Climb(i, k)` is the node reached from i by k parent links.
  - `TopAncestor(i)` is the depth-1 ancestor of i, which names its branch.
- `style.dfy` (`Style`): `setCircleColor`, `setStrokeColor`, stroke width,
  pointer events and the label offset.
  - The walk up the parent chain is one method, `ClimbToBranch`. Both colour
    functions of the source contain this same loop.
  - It is proved against `TopAncestor`.
  - The colours it yields are proved equal to the specification functions
    `StrokeColour` and `FillColour`.
  - `BaseColour` is the choice between the palette colour of the branch
    name and the fixed hexcolor (main.js:50, 62).
  - `LightnessBump` is the depth term of the fill (main.js:51).
  - `TakesPointerEvents` is the leaf rule for `pointer-events` (main.js:81).
  - `StatedFontSizes` is the two entries of the `fontsize` scale
    (main.js:32-34), and `LabelOffset` is the quarter-font-size drop of a
    label (main.js:121).
- `screen.dfy` (`Screen`): the affine map that zoomTo applies.
  - It takes a view `(cx, cy, diameter)` and sets k = width / diameter.
  - It maps layout `(x, y, r)` to screen `((x - cx) k, (y - cy) k, r k)`.
  - `ScreenX`, `ScreenY` and `ScreenR` are the three coordinates of that map
    (main.js:121-123). `FocusView` is the zoom target
    `(n.x, n.y, 4 n.r)` of a node (main.js:114, 132).
  - `LayoutX` and `LayoutY` have no counterpart in the code. They are the
    inverse map, defined here only to state that the map can be inverted.
  - The lemmas prove that this map has an inverse, scales distances by k, and
    preserves nesting and separation of circles.
- `chart.dfy` (`Zoom`): the class `Chart`.
  - Its fields are `focus`, `view`, the circle and label arrays, and the
    pending label transition.
  - It also has the click handlers, `zoomTo` and `zoom`, and the
    transition's start and end events.
  - Its invariant `Valid()` says that between transitions the displayed
    labels are exactly the children of `focus`.
  - `Duration` is the transition length: 7500 ms while Alt is held, else
    750 ms (main.js:130).
  - `InitialLabel` is the initial `fill-opacity` and `display` of each label
    (main.js:106-107).
  - `Settle` is where the transition leaves one selected label: its target
    opacity (main.js:141) and its end-event `display` rule (main.js:146).

Three behaviours of the code are easy to misread, and the model keeps each
as written:

- **Fill lightness.** The fill lightness is raised by `depth * 0.1` below the
  top level. Depth 1 gets 0, and depth 2 already gets 0.2.
- **Font size.** `fontsize` is an ordinal scale with the domain `[1, 3]` and
  the range `[30, 20]`. It fixes depth 1 at 30 and depth 3 at 20 and gives
  depth 2 no size of its own.
- **Clicking the focused circle.** The circle handler does nothing on the
  focus, but it does not stop the event either. The event bubbles to the svg
  handler, which zooms to the root. `ClickNode` models the circle handler
  alone, which changes nothing on the focus. `Click` models the whole event.

## Model

| member | source | states |
|---|---|---|
| `Layout.Tree.Climb` | main.js:47-49 | climbing k parent links (k at most the depth) reaches a node whose depth is exactly k less |
| `Layout.Tree.TopAncestor` | main.js:47-49 | the walk's stopping node has depth 1, or depth 0 for the root, and is the node itself or the ancestor that many links up |
| `Layout.Tree.ClimbStep` | main.js:48 | one more iteration of the walk moves to the parent of the current node, which is never the root while the depth is above 0 |
| `Layout.Tree.ClimbAdd` | main.js:47-49 | climbing k links then m links is the same as climbing k + m links |
| `Layout.Tree.SameBranchSameTop` | main.js:58-60 | every ancestor of a node at depth 1 or deeper walks to the same top-level node as the node does |
| `Layout.Tree.OnlyRootAtDepthZero` | main.js:47 | the root is the only node at depth 0, so the walk never reaches the root from any other node |
| `Layout.Tree.InnerRadiusPositive` | main.js:21 | a node with children has a positive radius, so its zoom view has a positive diameter |
| `Style.ClimbToBranch` | main.js:46-49 | the loop ends at the node's top-level ancestor: the node reached by climbing depth - 1 links, which has depth 1 (the root stays where it is) |
| `Style.SetCircleColor` | main.js:45-54 | the fill is the base colour of the node's top-level branch with its lightness raised by the depth bump |
| `Style.SetStrokeColor` | main.js:56-63 | the stroke is the base colour of the node's top-level branch |
| `Style.BranchSharesStroke` | main.js:50-62 | every node in one depth-1 branch has that branch's stroke colour, and each fill has the same hue and saturation as the stroke |
| `Style.MonochromeUsesHexcolor` | main.js:50 | with multicolor off every stroke is hexcolor and every fill is hexcolor lightened by the depth bump |
| `Style.FillLightening` | main.js:51 | at depth 1 fill equals stroke; at depth 2 or more the fill lightness is the stroke's plus depth / 10; a node is strictly lighter than each of its ancestors below the root |
| `Style.StrokeWidth` | main.js:80 | 3px exactly on the top-level circles (non-root nodes that are their own top-level ancestor), 1px on all others |
| `Screen.Scale` | main.js:117 | k is positive for a positive width and k times the view diameter is the width |
| `Screen.ScreenRoundTrip` | main.js:121-123 | the layout-to-screen map and its inverse undo each other in both directions |
| `Screen.FocusViewFillsQuarter` | main.js:117-132 | at a node's zoom target view the node is centred at the screen origin with screen radius width / 4 |
| `Screen.ScreenDistance` | main.js:122-123 | squared screen distance between two points is k squared times their squared layout distance |
| `Screen.NestingPreserved` | main.js:122-123 | a circle nested in another in layout space stays nested on screen |
| `Screen.SeparationPreserved` | main.js:122-123 | two sibling circles that do not overlap in layout space do not overlap on screen |
| `Zoom.Receiver` | main.js:71-88 | a click aimed at a circle is delivered to a circle that takes pointer events, which is the circle itself or its parent's, or to the background; leaves never receive it |
| `Zoom.Chart.LabelBaseline` | main.js:121-122 | a drawn label has its circle's x and sits a quarter of its font size below the circle's centre: 7.5 below at depth 1 and 5 below at depth 3 |
| `Zoom.Chart.DisplayedAreChildren` | main.js:136-147 | between transitions the set of displayed labels equals the set of children of the focus |
| `Zoom.Chart.constructor` | main.js:104-114 | initially focus is the root, the view is (root.x, root.y, 4 root.r), and everything is drawn there; exactly the root's children are displayed with opacity 1, and all other labels are hidden with opacity 0 |
| `Zoom.Chart.ZoomTo` | main.js:116-124 | view becomes v; every circle is placed at ((x - cx) k, (y - cy) k) with radius r k; every label is placed at the same point dropped by a quarter of its font size; label visibility is unchanged |
| `Zoom.Chart.Zoom` | main.js:126-138 | focus becomes d, and a transition is scheduled with its duration; it selects exactly the labels that are children of d or displayed now; the view is unchanged |
| `Zoom.Chart.TransitionStart` | main.js:142-144 | each selected label that is a child of the focus is set to displayed; every other label is unchanged |
| `Zoom.Chart.TransitionEnd` | main.js:131-147 | the view reaches (focus.x, focus.y, 4 focus.r) and is drawn there; the displayed labels are exactly the focus's children, with opacity 1; all others are hidden with opacity 0; labels the filter left out keep their display and opacity |
| `Zoom.Chart.ClickNode` | main.js:88 | on a node other than the focus it zooms there and stops propagation, scheduling a transition that selects the children of the node and the displayed labels; on the focus it changes nothing and propagates |
| `Zoom.Chart.ClickBackground` | main.js:71 | focus becomes the root and a transition of the chosen duration is scheduled; it selects the root's children and the displayed labels |
| `Zoom.Chart.Click` | main.js:71-88 | a click resolves to the root when it is delivered to the background or to the focused circle; otherwise it resolves to the receiving node; it always schedules a transition that selects the new focus's children and the displayed labels |

## Left out

- The d3 layout (`d3.hierarchy`, `sum`, `sort`, `d3.pack` with its padding,
  main.js:19-26): this is foreign library code. Its output is taken as the
  input tree.
  - `Layout.Tree.Valid` assumes what the packer guarantees: depths, parent
    links, and a positive radius on the root and every inner node.
  - `Zoom.Receiver` relies on three facts about the drawing that are not
    modelled: circles nest, siblings do not overlap, and circles are painted
    in `descendants()` order. The last makes a parent lie beneath its
    children, so it is the topmost circle under a leaf.
- `d3.interpolateZoom` and the frame-by-frame tween (main.js:131-134): foreign
  and frame-driven.
  - A frame is a call of `ZoomTo` with whatever view the interpolator
    produces. `TransitionEnd` draws the final frame at the target view.
  - Intermediate label opacities are not modelled. Opacity changes only at
    the end of the transition.
- Interruption by a newer transition: this is d3 behaviour. In the model, a
  `Zoom` while a transition is pending replaces that transition. The d3
  transitions still running on labels that the new filter does not select are
  not modelled.
- The colour palette (`d3.scaleOrdinal(d3.schemeCategory10)`), `d3.hsl`
  conversion and the fixed parse of `'#0099cc'`: foreign.
  - `Style.Scheme` carries the palette as a function from name to colour,
    and `hexcolor` as a given colour.
  - The first-seen order in which the palette assigns colours is not
    modelled.
  - Clamping of a lightness above 1 when the colour is rendered is not
    modelled.
- `Zoom.Chart.LabelBaseline`: states the label drop only for depths 1 and 3.
  These are the only sizes the code fixes. Other depths fall to d3's
  implicit ordinal domain, which is not visible here.
- DOM and SVG plumbing: `viewBox`, styles, text shadow, font weight and label
  text (main.js:65-70, 90-112). Also hover stroke changes (main.js:82-87),
  which do not affect zoom state.
- Window dimensions (main.js:5-6): `width` is a constructor parameter. `height`
  only feeds the layout and the `viewBox`. The unused `format` (main.js:17) is
  not modelled.
- The imports (main.js:1-3): stylesheet, background module and data. They
  only supply data or side effects.
- Zero width: `width` may be 0. The circles then collapse to the origin with
  radius 0, and each label to the point (0, fontSize(depth) / 4). The inverse
  map (`Screen.LayoutX`, `Screen.LayoutY`) and `Screen.ScreenRoundTrip` need a
  positive width.
- Floating point: all arithmetic is over exact reals. A zero root radius,
  where JavaScript would divide by zero, is excluded by `Layout.Tree.Valid`.
