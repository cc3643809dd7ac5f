/** The view-to-screen map of zoomTo: a view (cx, cy, diameter) shows the
    layout square of side `diameter` centred on (cx, cy) across the whole
    viewport width, so layout coordinates are shifted by the centre and
    scaled by k = width / diameter. */
module Screen {
  import opened Layout

  /** The `view` triple `[cx, cy, diameter]`. */
  datatype View = View(cx: real, cy: real, diameter: real)

  /** The view zoom targets for a node: its centre, four times its radius. */
  function FocusView(n: Node): View {
    View(n.x, n.y, n.r * 4.0)
  }

  /** The zoom factor: the viewport width over the view's diameter. */
  function Scale(width: real, v: View): (k: real)
    requires v.diameter > 0.0
    ensures width > 0.0 ==> k > 0.0
    ensures k * v.diameter == width
  {
    width / v.diameter
  }

  /** Horizontal screen coordinate of layout x. */
  function ScreenX(width: real, v: View, x: real): real
    requires v.diameter > 0.0
  {
    (x - v.cx) * Scale(width, v)
  }

  /** Vertical screen coordinate of layout y. */
  function ScreenY(width: real, v: View, y: real): real
    requires v.diameter > 0.0
  {
    (y - v.cy) * Scale(width, v)
  }

  /** Screen radius of a layout radius. */
  function ScreenR(width: real, v: View, r: real): real
    requires v.diameter > 0.0
  {
    r * Scale(width, v)
  }

  /** The layout x that lands at screen x `sx`: the inverse map. */
  function LayoutX(width: real, v: View, sx: real): real
    requires v.diameter > 0.0 && width > 0.0
  {
    sx / Scale(width, v) + v.cx
  }

  /** The layout y that lands at screen y `sy`. */
  function LayoutY(width: real, v: View, sy: real): real
    requires v.diameter > 0.0 && width > 0.0
  {
    sy / Scale(width, v) + v.cy
  }

  /** The screen map is invertible: each direction undoes the other. */
  lemma ScreenRoundTrip(width: real, v: View, x: real, y: real, sx: real, sy: real)
    requires v.diameter > 0.0 && width > 0.0
    ensures LayoutX(width, v, ScreenX(width, v, x)) == x
    ensures LayoutY(width, v, ScreenY(width, v, y)) == y
    ensures ScreenX(width, v, LayoutX(width, v, sx)) == sx
    ensures ScreenY(width, v, LayoutY(width, v, sy)) == sy
  {
  }

  /** The view centre is drawn at the screen origin, and at a node's focus
      view that node is centred with screen radius width / 4. */
  lemma FocusViewFillsQuarter(width: real, n: Node)
    requires n.r > 0.0
    ensures ScreenX(width, FocusView(n), n.x) == 0.0
    ensures ScreenY(width, FocusView(n), n.y) == 0.0
    ensures ScreenR(width, FocusView(n), n.r) == width / 4.0
  {
  }

  /** Squared distance between two layout points. */
  function Dist2(x1: real, y1: real, x2: real, y2: real): real {
    (x1 - x2) * (x1 - x2) + (y1 - y2) * (y1 - y2)
  }

  /** The map scales all distances by k: squared screen distance is k^2
      times squared layout distance. */
  lemma ScreenDistance(width: real, v: View, x1: real, y1: real, x2: real, y2: real)
    requires v.diameter > 0.0
    ensures var k := Scale(width, v);
      Dist2(ScreenX(width, v, x1), ScreenY(width, v, y1), ScreenX(width, v, x2), ScreenY(width, v, y2))
        == k * k * Dist2(x1, y1, x2, y2)
  {
  }

  /** Multiplying by a non-negative factor keeps an inequality. */
  lemma MulMonotone(c: real, a: real, b: real)
    requires c >= 0.0 && a <= b
    ensures c * a <= c * b
  {
    assert c * b - c * a == c * (b - a);
  }

  /** A circle nested in another in layout space (centre distance at most
      the difference of the radii) stays nested on screen. */
  lemma NestingPreserved(width: real, v: View, c: Node, p: Node)
    requires v.diameter > 0.0 && width >= 0.0
    requires 0.0 <= c.r <= p.r && Dist2(c.x, c.y, p.x, p.y) <= (p.r - c.r) * (p.r - c.r)
    ensures ScreenR(width, v, c.r) <= ScreenR(width, v, p.r)
    ensures Dist2(ScreenX(width, v, c.x), ScreenY(width, v, c.y), ScreenX(width, v, p.x), ScreenY(width, v, p.y))
         <= (ScreenR(width, v, p.r) - ScreenR(width, v, c.r)) * (ScreenR(width, v, p.r) - ScreenR(width, v, c.r))
  {
    var k := Scale(width, v);
    var kk := k * k;
    var dist := Dist2(c.x, c.y, p.x, p.y);
    var d := p.r - c.r;
    var dd := d * d;
    ScreenDistance(width, v, c.x, c.y, p.x, p.y);
    var sd := Dist2(ScreenX(width, v, c.x), ScreenY(width, v, c.y), ScreenX(width, v, p.x), ScreenY(width, v, p.y));
    assert sd == kk * dist;
    var e := ScreenR(width, v, p.r) - ScreenR(width, v, c.r);
    assert e == d * k;
    assert e * e == kk * dd;
    MulMonotone(kk, dist, dd);
  }

  /** Two circles apart in layout space (centre distance at least the sum of
      the radii) stay apart on screen. */
  lemma SeparationPreserved(width: real, v: View, a: Node, b: Node)
    requires v.diameter > 0.0 && width >= 0.0
    requires 0.0 <= a.r && 0.0 <= b.r && Dist2(a.x, a.y, b.x, b.y) >= (a.r + b.r) * (a.r + b.r)
    ensures Dist2(ScreenX(width, v, a.x), ScreenY(width, v, a.y), ScreenX(width, v, b.x), ScreenY(width, v, b.y))
         >= (ScreenR(width, v, a.r) + ScreenR(width, v, b.r)) * (ScreenR(width, v, a.r) + ScreenR(width, v, b.r))
  {
    var k := Scale(width, v);
    var kk := k * k;
    var dist := Dist2(a.x, a.y, b.x, b.y);
    var s := a.r + b.r;
    var ss := s * s;
    ScreenDistance(width, v, a.x, a.y, b.x, b.y);
    var sd := Dist2(ScreenX(width, v, a.x), ScreenY(width, v, a.y), ScreenX(width, v, b.x), ScreenY(width, v, b.y));
    assert sd == kk * dist;
    var e := ScreenR(width, v, a.r) + ScreenR(width, v, b.r);
    assert e == s * k;
    assert e * e == kk * ss;
    MulMonotone(kk, ss, dist);
  }
}
