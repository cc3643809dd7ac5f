/** The zoom/focus state machine of main.js: the module-level `focus` and
    `view`, the circles and labels bound to the nodes, the click handlers,
    zoomTo and zoom, and the start and end events of the label transition
    that zoom schedules. */
module Zoom {
  import opened Layout
  import opened Screen
  import opened Style

  datatype Option<T> = None | Some(value: T)

  /** One label: its `transform` translate(tx, ty), whether its `display`
      is 'inline' (true) or 'none' (false), and its `fill-opacity`. */
  datatype Label = Label(tx: real, ty: real, display: bool, opacity: real)

  /** One circle: its `transform` translate(tx, ty) and its `r`. */
  datatype Circle = Circle(tx: real, ty: real, r: real)

  /** The label transition zoom schedules: its duration, which labels the
      filter selected (`touched`), and whether its start event has fired. */
  datatype Transition = Transition(duration: nat, touched: seq<bool>, started: bool)

  /** The element a click is delivered to. */
  datatype Hit = Background | CircleOf(node: nat)

  /** Transition duration in milliseconds: slow motion while Alt is held. */
  function Duration(altKey: bool): nat {
    if altKey then 7500 else 750
  }

  /** The label state set up before the first zoomTo: shown, and opaque,
      exactly for the children of the root. */
  function InitialLabel(t: Tree, i: nat): Label
    requires i < |t.nodes|
  {
    var shown := t.IsChild(i, 0);
    Label(0.0, 0.0, shown, if shown then 1.0 else 0.0)
  }

  /** The end of the transition for one selected label: its opacity reaches
      1 if it is a child of the focus and 0 otherwise, and a label that is
      not a child of the focus is set to display 'none'. */
  function Settle(l: Label, child: bool): Label {
    l.(opacity := if child then 1.0 else 0.0, display := child && l.display)
  }

  /** Where a click aimed at the circle of node i is delivered. A leaf's
      circle has pointer-events 'none', so the click falls through to the
      circle beneath it, its parent's (the packer nests every circle in its
      parent's and keeps siblings apart), or to the background when the
      parent is the root, which has no circle. */
  function Receiver(t: Tree, i: nat): (h: Hit)
    requires t.Valid() && 1 <= i < |t.nodes|
    ensures h.CircleOf? ==> 1 <= h.node < |t.nodes| && TakesPointerEvents(t, h.node)
    ensures h.CircleOf? ==> h.node == i || h.node == t.nodes[i].parent
    ensures h == CircleOf(i) <==> TakesPointerEvents(t, i)
    ensures h == Background <==> !TakesPointerEvents(t, i) && t.nodes[i].parent == 0
  {
    if TakesPointerEvents(t, i) then CircleOf(i)
    else if t.nodes[i].parent == 0 then Background
    else
      assert t.Linked(i);
      var p := t.nodes[i].parent as nat;
      assert t.HasChildren(p) by { assert t.nodes[i].parent == p; }
      CircleOf(p)
  }

  class Chart {
    const tree: Tree
    const width: real
    /** The ordinal `fontsize` scale. */
    const fontSize: nat -> real
    /** circles[j] is the circle of tree.nodes[j + 1]: the root has none. */
    const circles: array<Circle>
    /** labels[i] is the label of tree.nodes[i]. */
    const labels: array<Label>
    var focus: nat
    var view: View
    var transition: Option<Transition>

    /** The circle of node i as zoomTo draws it at view v. */
    function CircleAt(v: View, i: nat): Circle
      requires i < |tree.nodes| && v.diameter > 0.0
    {
      var n := tree.nodes[i];
      Circle(ScreenX(width, v, n.x), ScreenY(width, v, n.y), ScreenR(width, v, n.r))
    }

    /** The horizontal label position of node i at view v: the x of its
        circle's centre. */
    function LabelX(v: View, i: nat): real
      requires i < |tree.nodes| && v.diameter > 0.0
    {
      ScreenX(width, v, tree.nodes[i].x)
    }

    /** The vertical label position of node i at view v: the y of its
        circle's centre, dropped by a quarter of the label's font size. */
    function LabelY(v: View, i: nat): real
      requires i < |tree.nodes| && v.diameter > 0.0
    {
      ScreenY(width, v, tree.nodes[i].y) + LabelOffset(fontSize, tree.nodes[i].depth)
    }

    /** Every label shows, opaque, exactly when its node is a child of f. */
    ghost predicate ShowsChildrenOf(f: nat)
      reads labels
      requires labels.Length == |tree.nodes|
    {
      forall i :: 0 <= i < labels.Length ==>
        && labels[i].display == tree.IsChild(i, f)
        && labels[i].opacity == if tree.IsChild(i, f) then 1.0 else 0.0
    }

    /** The indices of the labels whose display is 'inline'. */
    ghost function DisplayedLabels(): set<nat>
      reads labels
    {
      set i: nat | i < labels.Length && labels[i].display
    }

    /** The object invariant. Between transitions the displayed labels are
        exactly the children of the focus. While a transition is pending,
        every label its filter left out is hidden and not a child of the
        focus, and once it has started every child of the focus is
        displayed. A hidden label is always transparent. */
    ghost predicate Valid()
      reads this, labels
    {
      && tree.Valid() && width >= 0.0 && StatedFontSizes(fontSize)
      && labels.Length == |tree.nodes| && circles.Length == |tree.nodes| - 1
      && focus < |tree.nodes| && tree.nodes[focus].r > 0.0
      && view.diameter > 0.0
      && (forall i :: 0 <= i < labels.Length && !labels[i].display ==> labels[i].opacity == 0.0)
      && match transition
         case None => ShowsChildrenOf(focus)
         case Some(tr) =>
           && |tr.touched| == labels.Length
           && (forall i :: 0 <= i < labels.Length && !tr.touched[i] ==>
                 !labels[i].display && !tree.IsChild(i, focus))
           && (tr.started ==> forall i :: 0 <= i < labels.Length && tree.IsChild(i, focus) ==>
                 labels[i].display)
    }

    /** Every circle and label is drawn where zoomTo puts it for `view`. */
    ghost predicate Rendered()
      reads this, labels, circles
      requires labels.Length == |tree.nodes| && circles.Length == |tree.nodes| - 1
      requires view.diameter > 0.0
    {
      && (forall j :: 0 <= j < circles.Length ==> circles[j] == CircleAt(view, j + 1))
      && (forall i :: 0 <= i < labels.Length ==>
            labels[i].tx == LabelX(view, i) && labels[i].ty == LabelY(view, i))
    }

    /** Between transitions, the set of displayed labels is the set of
        children of the focus. */
    lemma DisplayedAreChildren()
      requires Valid() && transition.None?
      ensures DisplayedLabels() == tree.Children(focus)
    {
      forall i: nat
        ensures i in DisplayedLabels() <==> i in tree.Children(focus)
      {
        if i < labels.Length {
          assert labels[i].display == tree.IsChild(i, focus);
        }
      }
    }

    /** A drawn label sits on its circle's vertical axis, a quarter of its
        font size below the circle's centre: 7.5 below for a top-level
        node and 5 below for a node at depth 3. (The root has no circle.) */
    lemma LabelBaseline(i: nat)
      requires Valid() && Rendered() && i < labels.Length
      ensures 1 <= i ==> labels[i].tx == circles[i - 1].tx
      ensures 1 <= i ==> labels[i].ty == circles[i - 1].ty + fontSize(tree.nodes[i].depth) / 4.0
      ensures tree.nodes[i].depth == 1 ==> 1 <= i && labels[i].ty == circles[i - 1].ty + 7.5
      ensures tree.nodes[i].depth == 3 ==> 1 <= i && labels[i].ty == circles[i - 1].ty + 5.0
    {
      tree.OnlyRootAtDepthZero(i);
      if 1 <= i {
        assert circles[i - 1] == CircleAt(view, i);
      }
    }

    /** The initial drawing: focus is the root, only the root's children are
        labelled, and everything is drawn at the view (root.x, root.y,
        4 * root.r). */
    constructor (tree: Tree, width: real, fontSize: nat -> real)
      requires tree.Valid() && width >= 0.0 && StatedFontSizes(fontSize)
      ensures Valid() && Rendered()
      ensures this.tree == tree && this.width == width && this.fontSize == fontSize
      ensures focus == 0 && transition == None && view == FocusView(tree.nodes[0])
      ensures forall i :: 0 <= i < labels.Length ==>
        && labels[i].display == tree.IsChild(i, 0)
        && labels[i].opacity == if tree.IsChild(i, 0) then 1.0 else 0.0
      ensures DisplayedLabels() == tree.Children(0)
      ensures fresh(labels) && fresh(circles)
    {
      this.tree := tree;
      this.width := width;
      this.fontSize := fontSize;
      var n := |tree.nodes|;
      labels := new Label[n](i requires 0 <= i < n => InitialLabel(tree, i));
      circles := new Circle[n - 1](_ => Circle(0.0, 0.0, 0.0));
      focus := 0;
      view := FocusView(tree.nodes[0]);
      transition := None;
      new;
      ZoomTo(FocusView(tree.nodes[0]));
      DisplayedAreChildren();
    }

    /** zoomTo(v): record v as the view and redraw every label and circle
        with k = width / v[2]. Label visibility is untouched. */
    method ZoomTo(v: View)
      requires Valid() && v.diameter > 0.0
      modifies this`view, labels, circles
      ensures Valid() && Rendered() && view == v
      ensures forall i :: 0 <= i < labels.Length ==>
        labels[i].display == old(labels[i].display) && labels[i].opacity == old(labels[i].opacity)
    {
      view := v;
      var i := 0;
      while i < labels.Length
        invariant 0 <= i <= labels.Length && view == v
        invariant forall j :: 0 <= j < i ==>
          labels[j] == old(labels[j]).(tx := LabelX(v, j), ty := LabelY(v, j))
        invariant forall j :: i <= j < labels.Length ==> labels[j] == old(labels[j])
      {
        labels[i] := labels[i].(tx := LabelX(v, i), ty := LabelY(v, i));
        i := i + 1;
      }
      var j := 0;
      while j < circles.Length
        invariant 0 <= j <= circles.Length
        invariant view == v
        invariant forall m :: 0 <= m < j ==> circles[m] == CircleAt(v, m + 1)
        invariant forall m :: 0 <= m < labels.Length ==>
          labels[m] == old(labels[m]).(tx := LabelX(v, m), ty := LabelY(v, m))
      {
        circles[j] := CircleAt(v, j + 1);
        j := j + 1;
      }
    }

    /** zoom(d): make d the focus and schedule a transition whose label
        filter selects every label that is a child of d or is displayed now.
        Nothing is drawn yet. */
    method Zoom(d: nat, altKey: bool)
      requires Valid() && d < |tree.nodes| && (d == 0 || tree.HasChildren(d))
      modifies this`focus, this`transition
      ensures Valid() && focus == d
      ensures transition.Some? && !transition.value.started
      ensures transition.value.duration == Duration(altKey)
      ensures |transition.value.touched| == labels.Length
      ensures forall i :: 0 <= i < labels.Length ==>
        transition.value.touched[i] == (tree.IsChild(i, d) || labels[i].display)
    {
      if d != 0 {
        tree.InnerRadiusPositive(d);
      }
      focus := d;
      var touched: seq<bool> := [];
      var i := 0;
      while i < labels.Length
        invariant 0 <= i <= labels.Length && |touched| == i
        invariant forall j :: 0 <= j < i ==> touched[j] == (tree.IsChild(j, d) || labels[j].display)
      {
        touched := touched + [tree.IsChild(i, d) || labels[i].display];
        i := i + 1;
      }
      transition := Some(Transition(Duration(altKey), touched, false));
    }

    /** The start event of the label transition: every selected label that
        is a child of the focus is set to display 'inline' so it can fade in. */
    method TransitionStart()
      requires Valid() && transition.Some? && !transition.value.started
      modifies labels, this`transition
      ensures Valid()
      ensures transition == Some(old(transition.value).(started := true))
      ensures forall i :: 0 <= i < labels.Length ==>
        labels[i] == if transition.value.touched[i] && tree.IsChild(i, focus)
                     then old(labels[i]).(display := true)
                     else old(labels[i])
    {
      var tr := transition.value;
      var i := 0;
      while i < labels.Length
        invariant 0 <= i <= labels.Length
        invariant forall j :: 0 <= j < i ==>
          labels[j] == if tr.touched[j] && tree.IsChild(j, focus) then old(labels[j]).(display := true) else old(labels[j])
        invariant forall j :: i <= j < labels.Length ==> labels[j] == old(labels[j])
      {
        if tr.touched[i] && tree.IsChild(i, focus) {
          labels[i] := labels[i].(display := true);
        }
        i := i + 1;
      }
      transition := Some(tr.(started := true));
    }

    /** The end of the transition: the view has reached the focus view
        (focus.x, focus.y, 4 * focus.r) and is drawn there, every selected
        label has settled, and the displayed labels are exactly the children
        of the focus, opaque, while all others are hidden and transparent. */
    method TransitionEnd()
      requires Valid() && transition.Some? && transition.value.started
      modifies labels, circles, this`view, this`transition
      ensures Valid() && Rendered() && transition == None
      ensures view == FocusView(tree.nodes[focus])
      ensures forall i :: 0 <= i < labels.Length ==>
        && labels[i].display == tree.IsChild(i, focus)
        && labels[i].opacity == if tree.IsChild(i, focus) then 1.0 else 0.0
      ensures forall i :: 0 <= i < labels.Length && !old(transition.value.touched[i]) ==>
        labels[i].display == old(labels[i].display) && labels[i].opacity == old(labels[i].opacity)
      ensures DisplayedLabels() == tree.Children(focus)
    {
      var tr := transition.value;
      var i := 0;
      while i < labels.Length
        invariant 0 <= i <= labels.Length
        invariant forall j :: 0 <= j < i ==>
          labels[j] == if tr.touched[j] then Settle(old(labels[j]), tree.IsChild(j, focus)) else old(labels[j])
        invariant forall j :: i <= j < labels.Length ==> labels[j] == old(labels[j])
        invariant view == old(view) && transition == old(transition)
      {
        if tr.touched[i] {
          labels[i] := Settle(labels[i], tree.IsChild(i, focus));
        }
        i := i + 1;
      }
      transition := None;
      ZoomTo(FocusView(tree.nodes[focus]));
      DisplayedAreChildren();
    }

    /** The circle click handler: on any node but the focus it zooms there
        and stops the event; on the focus it does nothing and lets the event
        propagate. */
    method ClickNode(d: nat, altKey: bool) returns (propagate: bool)
      requires Valid() && 1 <= d < |tree.nodes| && TakesPointerEvents(tree, d)
      modifies this`focus, this`transition
      ensures Valid()
      ensures propagate <==> old(focus) == d
      ensures propagate ==> focus == old(focus) && transition == old(transition)
      ensures !propagate ==> focus == d && transition.Some? && !transition.value.started
      ensures !propagate ==> transition.value.duration == Duration(altKey)
      ensures !propagate ==> |transition.value.touched| == labels.Length
      ensures !propagate ==> forall i :: 0 <= i < labels.Length ==>
        transition.value.touched[i] == (tree.IsChild(i, d) || labels[i].display)
    {
      if focus != d {
        Zoom(d, altKey);
        propagate := false;
      } else {
        propagate := true;
      }
    }

    /** The background click handler: zoom out to the root. */
    method ClickBackground(altKey: bool)
      requires Valid()
      modifies this`focus, this`transition
      ensures Valid() && focus == 0
      ensures transition.Some? && !transition.value.started
      ensures transition.value.duration == Duration(altKey)
      ensures |transition.value.touched| == labels.Length
      ensures forall i :: 0 <= i < labels.Length ==>
        transition.value.touched[i] == (tree.IsChild(i, focus) || labels[i].display)
    {
      Zoom(0, altKey);
    }

    /** A click aimed at the circle of node i: delivered by Receiver, handled
        by that circle, and bubbling to the background unless the circle
        handler stopped it. So clicking a node other than the focus zooms to
        it, while clicking the focus, or a leaf whose parent is the root,
        zooms out to the root. */
    method Click(i: nat, altKey: bool)
      requires Valid() && 1 <= i < |tree.nodes|
      modifies this`focus, this`transition
      ensures Valid()
      ensures match Receiver(tree, i)
        case Background => focus == 0
        case CircleOf(d) => focus == if old(focus) == d then 0 else d
      ensures transition.Some? && !transition.value.started
      ensures transition.value.duration == Duration(altKey)
      ensures |transition.value.touched| == labels.Length
      ensures forall i :: 0 <= i < labels.Length ==>
        transition.value.touched[i] == (tree.IsChild(i, focus) || labels[i].display)
    {
      match Receiver(tree, i)
      case Background =>
        ClickBackground(altKey);
      case CircleOf(d) =>
        var propagate := ClickNode(d, altKey);
        if propagate {
          ClickBackground(altKey);
        }
    }
  }
}
