/**
 * The drawing half of `drawNewickTree`: the pixel mapping `toX`/`toY`,
 * `drawNode`, which draws a placed tree as a right-angled cladogram in
 * pre-order, and the root stem. Canvas calls are recorded as a list of
 * segments on a `Canvas` object; styling is not modelled.
 */
module Cladogram {
  import opened Newick
  import opened TreeLayout
  import opened TreePositions

  /** One drawing command: a stroked straight path, a leaf name, or a leaf dot (radius 4). */
  datatype Segment =
    | Line(x1: real, y1: real, x2: real, y2: real)
    | Label(text: string, x: real, y: real)
    | Dot(x: real, y: real)

  /** The fixed padding `pad` around the plot, in pixels. */
  const PadLeft: real := 40.0
  const PadRight: real := 120.0
  const PadTop: real := 30.0
  const PadBottom: real := 30.0

  /** What the pixel mapping depends on: the depth scale, the leaf count and the canvas size. */
  datatype Frame = Frame(maxD: real, leafCount: nat, w: real, h: real)

  /** `numLeaves - 1 || 1`: the leaf count less one, or 1 when that is zero. */
  function Denominator(n: nat): (r: int)
    ensures r != 0
    ensures n >= 2 ==> r == n - 1
    ensures n == 1 ==> r == 1
  {
    if n - 1 == 0 then 1 else n - 1
  }

  /** `toX(depth)`: the depth scaled into the plot width. */
  function ToX(f: Frame, depth: real): real
    requires f.maxD != 0.0
  {
    PadLeft + (depth / f.maxD) * (f.w - PadLeft - PadRight)
  }

  /** `toY(leafPos)`: the leaf position scaled into the plot height. */
  function ToY(f: Frame, pos: real): real {
    PadTop + (pos / Denominator(f.leafCount) as real) * (f.h - PadTop - PadBottom)
  }

  /**
   * The mapping puts depth 0 at the left padding and depth `maxD` at the
   * right padding, leaf 0 at the top padding and, with more than one leaf,
   * the last leaf at the bottom padding; with one leaf the vertical scale
   * is the plot height itself.
   */
  lemma FrameEnds(f: Frame, pos: real)
    requires f.maxD != 0.0
    ensures ToX(f, 0.0) == 40.0
    ensures ToX(f, f.maxD) == f.w - 120.0
    ensures ToY(f, 0.0) == 30.0
    ensures f.leafCount >= 2 ==> ToY(f, (f.leafCount - 1) as real) == f.h - 30.0
    ensures f.leafCount == 1 ==> ToY(f, pos) == 30.0 + pos * (f.h - 60.0)
  {
    assert f.maxD / f.maxD == 1.0;
    if f.leafCount >= 2 {
      var d := (f.leafCount - 1) as real;
      assert d / d == 1.0;
    }
  }

  /** `x <= y` scaled by a non-negative factor stays in order. */
  lemma ScaleMono(x: real, y: real, c: real)
    requires x <= y && c >= 0.0
    ensures x * c <= y * c
  {
  }

  /** `x <= y` divided by a positive divisor stays in order. */
  lemma DivMono(x: real, y: real, d: real)
    requires x <= y && d > 0.0
    ensures x / d <= y / d
  {
  }

  /** When the plot has a non-negative height and there is a leaf, lower positions are drawn higher up. */
  lemma ToYMono(f: Frame, a: real, b: real)
    requires f.h >= PadTop + PadBottom && f.leafCount >= 1
    requires a <= b
    ensures ToY(f, a) <= ToY(f, b)
  {
    var d := Denominator(f.leafCount) as real;
    assert d > 0.0;
    DivMono(a, b, d);
    ScaleMono(a / d, b / d, f.h - PadTop - PadBottom);
  }

  /** When the plot has a non-negative width and the depth scale is positive, deeper nodes are drawn further right. */
  lemma ToXMono(f: Frame, a: real, b: real)
    requires f.w >= PadLeft + PadRight && f.maxD > 0.0
    requires a <= b
    ensures ToX(f, a) <= ToX(f, b)
  {
    DivMono(a, b, f.maxD);
    ScaleMono(a / f.maxD, b / f.maxD, f.w - PadLeft - PadRight);
  }

  /** `node.children.map(c => toY(c.yPos))`. */
  function ChildRows(f: Frame, ps: seq<Placed>): (r: seq<real>)
    ensures |r| == |ps|
  {
    seq(|ps|, i requires 0 <= i < |ps| => ToY(f, ps[i].yPos))
  }

  /**
   * What `drawNode(node, parentDepth)` draws, in order: for a node with
   * children the vertical bar at its depth spanning its children's rows,
   * then each child's branch; for a leaf its name 8 pixels right of its
   * point, then its dot.
   */
  function NodeSegments(f: Frame, p: Placed, parentDepth: real): seq<Segment>
    requires f.maxD != 0.0
    decreases p, 1
  {
    var depth := parentDepth + p.length;
    var x := ToX(f, depth);
    if p.children != [] then
      var ys := ChildRows(f, p.children);
      [Line(x, MinOf(ys), x, MaxOf(ys))] + Branches(f, p.children, depth, |p.children|)
    else
      [Label(p.name, x + 8.0, ToY(f, p.yPos)), Dot(x, ToY(f, p.yPos))]
  }

  /** What the `forEach` over the children draws for the first `n` of them. */
  function Branches(f: Frame, kids: seq<Placed>, depth: real, n: nat): seq<Segment>
    requires f.maxD != 0.0
    requires n <= |kids|
    decreases kids, n
  {
    if n == 0 then [] else Branches(f, kids, depth, n - 1) + Branch(f, kids[n - 1], depth)
  }

  /** One child's turn: the horizontal line from the parent's bar to the child's depth at the child's row, then the child. */
  function Branch(f: Frame, c: Placed, depth: real): seq<Segment>
    requires f.maxD != 0.0
    decreases c, 2
  {
    var cy := ToY(f, c.yPos);
    [Line(ToX(f, depth), cy, ToX(f, depth + c.length), cy)] + NodeSegments(f, c, depth)
  }

  /** The whole drawing of a placed tree: the root stem from depth 0 to the root's length, then `drawNode(root, 0)`. */
  function Picture(f: Frame, p: Placed): seq<Segment>
    requires f.maxD != 0.0
  {
    var y := ToY(f, p.yPos);
    [Line(ToX(f, 0.0), y, ToX(f, p.length), y)] + NodeSegments(f, p, 0.0)
  }

  /** The frame `drawNewickTree` uses for a parsed tree on a `w` by `h` canvas. */
  function FrameFor(t: Node, w: real, h: real): (f: Frame)
    ensures f.maxD != 0.0
  {
    Frame(MaxD(t), |Leaves(t)|, w, h)
  }

  /** Everything `drawNewickTree` draws for a parsed tree, title and styling aside. */
  function TreeDrawing(t: Node, w: real, h: real): seq<Segment> {
    Picture(FrameFor(t, w, h), Assigned(t, 0).value)
  }

  /** Everything `drawNewickTree(ctx, newickStr, labels, w, h)` draws, title and styling aside. */
  function TreePicture(newick: string, read: NumberReader, w: real, h: real): seq<Segment> {
    TreeDrawing(Parsed(newick, read), w, h)
  }

  /** The rows of the leaf names in a drawing, in drawing order. */
  function LabelRows(segs: seq<Segment>): seq<real> {
    if segs == [] then []
    else (if segs[0].Label? then [segs[0].y] else []) + LabelRows(segs[1..])
  }

  /** The leaf names in a drawing, in drawing order. */
  function LabelTexts(segs: seq<Segment>): seq<string> {
    if segs == [] then []
    else (if segs[0].Label? then [segs[0].text] else []) + LabelTexts(segs[1..])
  }

  /** Picking out the labels distributes over concatenation. */
  lemma LabelsConcat(a: seq<Segment>, b: seq<Segment>)
    ensures LabelRows(a + b) == LabelRows(a) + LabelRows(b)
    ensures LabelTexts(a + b) == LabelTexts(a) + LabelTexts(b)
  {
    LabelRowsConcat(a, b);
    LabelTextsConcat(a, b);
  }

  /** Picking out the label rows distributes over concatenation. */
  lemma {:induction false} LabelRowsConcat(a: seq<Segment>, b: seq<Segment>)
    ensures LabelRows(a + b) == LabelRows(a) + LabelRows(b)
    decreases |a|
  {
    if a == [] {
      assert [] + b == b;
    } else {
      assert (a + b)[0] == a[0];
      assert (a + b)[1..] == a[1..] + b;
      LabelRowsConcat(a[1..], b);
    }
  }

  /** Picking out the label names distributes over concatenation. */
  lemma {:induction false} LabelTextsConcat(a: seq<Segment>, b: seq<Segment>)
    ensures LabelTexts(a + b) == LabelTexts(a) + LabelTexts(b)
    decreases |a|
  {
    if a == [] {
      assert [] + b == b;
    } else {
      assert (a + b)[0] == a[0];
      assert (a + b)[1..] == a[1..] + b;
      LabelTextsConcat(a[1..], b);
    }
  }

  /** The rows of a list of leaf positions. */
  function Rows(f: Frame, ys: seq<real>): (r: seq<real>)
    ensures |r| == |ys|
  {
    seq(|ys|, j requires 0 <= j < |ys| => ToY(f, ys[j]))
  }

  /** `Rows` distributes over concatenation. */
  lemma RowsConcat(f: Frame, a: seq<real>, b: seq<real>)
    ensures Rows(f, a + b) == Rows(f, a) + Rows(f, b)
  {
    assert forall j | |a| <= j < |a + b| :: (a + b)[j] == b[j - |a|];
  }

  /** The columns of the leaf dots in a drawing, in drawing order. */
  function DotColumns(segs: seq<Segment>): seq<real> {
    if segs == [] then []
    else (if segs[0].Dot? then [segs[0].x] else []) + DotColumns(segs[1..])
  }

  /** Picking out the dot columns distributes over concatenation. */
  lemma {:induction false} DotColumnsConcat(a: seq<Segment>, b: seq<Segment>)
    ensures DotColumns(a + b) == DotColumns(a) + DotColumns(b)
    decreases |a|
  {
    if a == [] {
      assert [] + b == b;
    } else {
      assert (a + b)[0] == a[0];
      assert (a + b)[1..] == a[1..] + b;
      DotColumnsConcat(a[1..], b);
    }
  }

  /** The columns of a list of depths. */
  function Columns(f: Frame, xs: seq<real>): (r: seq<real>)
    requires f.maxD != 0.0
    ensures |r| == |xs|
  {
    seq(|xs|, j requires 0 <= j < |xs| => ToX(f, xs[j]))
  }

  /** `Columns` distributes over concatenation. */
  lemma ColumnsConcat(f: Frame, a: seq<real>, b: seq<real>)
    requires f.maxD != 0.0
    ensures Columns(f, a + b) == Columns(f, a) + Columns(f, b)
  {
    assert forall j | |a| <= j < |a + b| :: (a + b)[j] == b[j - |a|];
  }

  /**
   * The depth `drawNode` recomputes from `parentDepth` is the `x` that
   * `layoutTree` gives the node: a node with children has its bar, and a
   * leaf its name and dot, at `toX` of that `x`.
   */
  lemma NodeAtLayoutX(f: Frame, p: Placed, d: real)
    requires f.maxD != 0.0
    ensures var x, y := ToX(f, Layout(Unplace(p), d).x), ToY(f, p.yPos);
      && (p.children != [] ==> NodeSegments(f, p, d)[0].Line? && NodeSegments(f, p, d)[0].x1 == x == NodeSegments(f, p, d)[0].x2)
      && (p.children == [] ==> NodeSegments(f, p, d) == [Label(p.name, x + 8.0, y), Dot(x, y)])
  {
    UnplaceAllAt(p.children);
  }

  /**
   * The leaf dots of a subtree's drawing stand, left to right, at `toX`
   * of the `x` that `layoutTree` gives its leaves.
   */
  lemma {:induction false} NodeDots(f: Frame, p: Placed, d: real)
    requires f.maxD != 0.0
    ensures DotColumns(NodeSegments(f, p, d)) == Columns(f, LaidLeafXs(Layout(Unplace(p), d)))
    decreases p, 1
  {
    var depth := d + p.length;
    var x := ToX(f, depth);
    if p.children != [] {
      var ys := ChildRows(f, p.children);
      var bar := Line(x, MinOf(ys), x, MaxOf(ys));
      DotColumnsConcat([bar], Branches(f, p.children, depth, |p.children|));
      BranchDots(f, p.children, depth, |p.children|);
      var ls := LaidKids(UnplaceAll(p.children), depth, 0);
      UnplacedLeafXs(p, d);
      assert ls[..|p.children|] == ls;
    } else {
      var y := ToY(f, p.yPos);
      assert NodeSegments(f, p, d) == [Label(p.name, x + 8.0, y)] + [Dot(x, y)];
      DotColumnsConcat([Label(p.name, x + 8.0, y)], [Dot(x, y)]);
      UnplacedLeafX(p, d);
      assert Columns(f, [depth]) == [x];
    }
  }

  /** The branches of the first `n` children put those children's leaf dots at their layout columns. */
  lemma {:induction false} BranchDots(f: Frame, kids: seq<Placed>, depth: real, n: nat)
    requires f.maxD != 0.0
    requires n <= |kids|
    ensures n <= |LaidKids(UnplaceAll(kids), depth, 0)|
      && DotColumns(Branches(f, kids, depth, n)) == Columns(f, LaidLeafXsAll(LaidKids(UnplaceAll(kids), depth, 0)[..n]))
    decreases kids, n
  {
    UnplaceAllAt(kids);
    LaidKidsLength(UnplaceAll(kids), depth, 0);
    var ls := LaidKids(UnplaceAll(kids), depth, 0);
    if n > 0 {
      var c := kids[n - 1];
      assert Branches(f, kids, depth, n) == Branches(f, kids, depth, n - 1) + Branch(f, c, depth);
      DotColumnsConcat(Branches(f, kids, depth, n - 1), Branch(f, c, depth));
      BranchDots(f, kids, depth, n - 1);
      ChildDots(f, c, depth);
      LaidKidsAt(UnplaceAll(kids), depth, 0, n - 1);
      assert LaidLeafXs(ls[n - 1]) == LaidLeafXs(Layout(Unplace(c), depth));
      assert ls[..n] == ls[..n - 1] + [ls[n - 1]];
      LaidLeafXsSnoc(ls[..n - 1], ls[n - 1]);
      ColumnsConcat(f, LaidLeafXsAll(ls[..n - 1]), LaidLeafXs(ls[n - 1]));
    } else {
      assert ls[..0] == [];
    }
  }

  /** One child's branch puts the child's leaf dots at their layout columns. */
  lemma ChildDots(f: Frame, c: Placed, depth: real)
    requires f.maxD != 0.0
    ensures DotColumns(Branch(f, c, depth)) == Columns(f, LaidLeafXs(Layout(Unplace(c), depth)))
    decreases c, 2
  {
    var cy := ToY(f, c.yPos);
    DotColumnsConcat([Line(ToX(f, depth), cy, ToX(f, depth + c.length), cy)], NodeSegments(f, c, depth));
    NodeDots(f, c, depth);
  }

  /**
   * In the whole drawing the leaf dots stand, left to right, at `toX` of
   * the `x` that `layoutTree` gives the leaves, which are the leaf depths.
   */
  lemma PictureDots(t: Node, w: real, h: real)
    ensures DotColumns(TreeDrawing(t, w, h)) == Columns(FrameFor(t, w, h), LaidLeafXs(Layout(t, 0.0)))
    ensures DotColumns(TreeDrawing(t, w, h)) == Columns(FrameFor(t, w, h), LeafDepths(t, 0.0))
  {
    var f := FrameFor(t, w, h);
    var p := Assigned(t, 0).value;
    var y := ToY(f, p.yPos);
    DotColumnsConcat([Line(ToX(f, 0.0), y, ToX(f, p.length), y)], NodeSegments(f, p, 0.0));
    NodeDots(f, p, 0.0);
    UnplaceAssigned(t, 0);
    LayoutLeafXs(t, 0.0);
  }

  /** When the deepest leaf is not at depth 0, some leaf dot stands on the right padding. */
  lemma DeepestDot(t: Node, w: real, h: real)
    requires MaxDepth(t, 0.0) != 0.0
    ensures w - 120.0 in DotColumns(TreeDrawing(t, w, h))
  {
    var f := FrameFor(t, w, h);
    var ds := LeafDepths(t, 0.0);
    PictureDots(t, w, h);
    MaxDepthIsDeepestLeaf(t, 0.0);
    var j :| 0 <= j < |ds| && ds[j] == MaxDepth(t, 0.0);
    FrameEnds(f, 0.0);
    assert Columns(f, ds)[j] == w - 120.0;
  }

  /**
   * `drawNode` writes exactly one name per leaf, in left-to-right leaf order,
   * each on the row of that leaf's `yPos`.
   */
  lemma {:induction false} NodeLabels(f: Frame, p: Placed, d: real)
    requires f.maxD != 0.0
    ensures LabelRows(NodeSegments(f, p, d)) == Rows(f, LeafYs(p))
    ensures LabelTexts(NodeSegments(f, p, d)) == LeafNames(p)
    decreases p, 1
  {
    var depth := d + p.length;
    var x := ToX(f, depth);
    if p.children != [] {
      var ys := ChildRows(f, p.children);
      var bar := Line(x, MinOf(ys), x, MaxOf(ys));
      LabelsConcat([bar], Branches(f, p.children, depth, |p.children|));
      BranchLabels(f, p.children, depth, |p.children|);
      assert p.children[..|p.children|] == p.children;
    } else {
      var y := ToY(f, p.yPos);
      assert NodeSegments(f, p, d) == [Label(p.name, x + 8.0, y)] + [Dot(x, y)];
      LabelsConcat([Label(p.name, x + 8.0, y)], [Dot(x, y)]);
    }
  }

  /** The branches of the first `n` children write the names of those children's leaves, on their rows. */
  lemma {:induction false} BranchLabels(f: Frame, kids: seq<Placed>, depth: real, n: nat)
    requires f.maxD != 0.0
    requires n <= |kids|
    ensures LabelRows(Branches(f, kids, depth, n)) == Rows(f, LeafYsAll(kids[..n]))
    ensures LabelTexts(Branches(f, kids, depth, n)) == LeafNamesAll(kids[..n])
    decreases kids, n
  {
    if n > 0 {
      var c := kids[n - 1];
      var init := kids[..n - 1];
      assert Branches(f, kids, depth, n) == Branches(f, kids, depth, n - 1) + Branch(f, c, depth);
      LabelsConcat(Branches(f, kids, depth, n - 1), Branch(f, c, depth));
      BranchLabels(f, kids, depth, n - 1);
      ChildLabels(f, c, depth);
      assert kids[..n] == init + [c];
      LeafYsSnoc(init, c);
      LeafNamesSnoc(init, c);
      RowsConcat(f, LeafYsAll(init), LeafYs(c));
    } else {
      assert kids[..0] == [];
    }
  }

  /** One child's branch writes the names of the child's leaves, on their rows. */
  lemma ChildLabels(f: Frame, c: Placed, depth: real)
    requires f.maxD != 0.0
    ensures LabelRows(Branch(f, c, depth)) == Rows(f, LeafYs(c))
    ensures LabelTexts(Branch(f, c, depth)) == LeafNames(c)
    decreases c, 2
  {
    var cy := ToY(f, c.yPos);
    LabelsConcat([Line(ToX(f, depth), cy, ToX(f, depth + c.length), cy)], NodeSegments(f, c, depth));
    NodeLabels(f, c, depth);
  }

  /**
   * The names `drawNewickTree` writes are the leaves' names in `getLeaves`
   * order, the `j`-th on the row of leaf position `j`: the first on the top
   * padding and, with two leaves or more, the last on the bottom padding.
   */
  lemma PictureLabels(t: Node, w: real, h: real)
    ensures LabelTexts(TreeDrawing(t, w, h)) == Names(Leaves(t))
    ensures LabelRows(TreeDrawing(t, w, h)) == Rows(FrameFor(t, w, h), Consecutive(0, |Leaves(t)|))
    ensures var rows := LabelRows(TreeDrawing(t, w, h));
      && rows != [] && rows[0] == 30.0
      && (|rows| >= 2 ==> rows[|rows| - 1] == h - 30.0)
  {
    var f := FrameFor(t, w, h);
    var p := Assigned(t, 0).value;
    var y := ToY(f, p.yPos);
    LabelsConcat([Line(ToX(f, 0.0), y, ToX(f, p.length), y)], NodeSegments(f, p, 0.0));
    NodeLabels(f, p, 0.0);
    AssignedLeafYs(t, 0);
    AssignedLeafNames(t, 0);
    RowEnds(f);
  }

  /** The rows of leaf positions `0 .. leafCount - 1` start on the top padding and end on the bottom padding. */
  lemma RowEnds(f: Frame)
    requires f.maxD != 0.0 && f.leafCount >= 1
    ensures var rows := Rows(f, Consecutive(0, f.leafCount));
      && rows[0] == 30.0
      && (f.leafCount >= 2 ==> rows[f.leafCount - 1] == f.h - 30.0)
  {
    var n := f.leafCount;
    FrameEnds(f, 0.0);
    assert Consecutive(0, n)[0] == 0.0;
    if n >= 2 {
      assert Consecutive(0, n)[n - 1] == (n - 1) as real;
    }
  }

  /**
   * The branch into a centred node reaches it on a row within the node's
   * own vertical bar, so the drawing is connected; `assignY` centres every
   * node.
   */
  lemma BarMeetsBranch(f: Frame, p: Placed)
    requires f.h >= PadTop + PadBottom && f.leafCount >= 1
    requires p.children != [] && Centred(p)
    ensures MinOf(ChildRows(f, p.children)) <= ToY(f, p.yPos) <= MaxOf(ChildRows(f, p.children))
  {
    var ps := p.children;
    var ys, rows := Ys(ps), ChildRows(f, ps);
    MinMaxOf(ys);
    MinMaxOf(rows);
    var lo :| 0 <= lo < |ys| && ys[lo] == MinOf(ys);
    var hi :| 0 <= hi < |ys| && ys[hi] == MaxOf(ys);
    assert rows[lo] == ToY(f, ys[lo]) && rows[hi] == ToY(f, ys[hi]);
    ToYMono(f, ys[lo], p.yPos);
    ToYMono(f, p.yPos, ys[hi]);
  }

  /** The root stem of the drawing lies within the plot's vertical padding. */
  lemma RootStemInPlot(t: Node, w: real, h: real)
    requires h >= PadTop + PadBottom
    ensures TreeDrawing(t, w, h)[0].Line?
    ensures 30.0 <= TreeDrawing(t, w, h)[0].y1 <= h - 30.0
  {
    var f := FrameFor(t, w, h);
    var n := |Leaves(t)|;
    var p := Assigned(t, 0).value;
    AssignedPlacement(t, 0);
    assert 0.0 <= p.yPos <= (n - 1) as real;
    FrameEnds(f, 0.0);
    ToYMono(f, 0.0, p.yPos);
    ToYMono(f, p.yPos, (n - 1) as real);
    if n == 1 {
      assert ToY(f, (n - 1) as real) == 30.0;
    }
  }

  /** The canvas, reduced to the list of what has been drawn on it. */
  class Canvas {
    var segments: seq<Segment>

    /** A blank canvas. */
    constructor ()
      ensures segments == []
    {
      segments := [];
    }

    /** Draws one segment (`beginPath`/`moveTo`/`lineTo`/`stroke`, `fillText` or `arc`/`fill`). */
    method Draw(s: Segment)
      modifies this
      ensures segments == old(segments) + [s]
    {
      segments := segments + [s];
    }
  }

  /** `drawNode(node, parentDepth)`. */
  method DrawNode(canvas: Canvas, f: Frame, node: Placed, parentDepth: real)
    requires f.maxD != 0.0
    modifies canvas
    ensures canvas.segments == old(canvas.segments) + NodeSegments(f, node, parentDepth)
    decreases node
  {
    var depth := parentDepth + node.length;
    var x := ToX(f, depth);
    var y := ToY(f, node.yPos);
    if |node.children| > 0 {
      var ys := ChildRows(f, node.children);
      var bar := Line(x, MinOf(ys), x, MaxOf(ys));
      canvas.Draw(bar);
      var i := 0;
      while i < |node.children|
        invariant 0 <= i <= |node.children|
        invariant canvas.segments == old(canvas.segments) + [bar] + Branches(f, node.children, depth, i)
      {
        var c := node.children[i];
        var cx := ToX(f, depth + c.length);
        var cy := ToY(f, c.yPos);
        canvas.Draw(Line(x, cy, cx, cy));
        DrawNode(canvas, f, c, depth);
        i := i + 1;
      }
    } else {
      canvas.Draw(Label(node.name, x + 8.0, y));
      canvas.Draw(Dot(x, y));
    }
  }

  /**
   * `drawNewickTree` without styling: parse, lay out, count the leaves,
   * place them, find the depth scale, draw the root stem, then the tree.
   */
  method DrawNewickTree(canvas: Canvas, newick: string, read: NumberReader, w: real, h: real)
    modifies canvas
    ensures canvas.segments == old(canvas.segments) + TreePicture(newick, read, w, h)
  {
    var tree := ParseNewick(newick, read);
    var layout := LayoutTree(tree, 0.0);
    StripLayout(tree, 0.0);
    var shape := Strip(layout);
    var numLeaves := |Leaves(shape)|;
    var placed, _ := AssignY(shape, 0);
    var maxD := MaxD(shape);
    var f := Frame(maxD, numLeaves, w, h);
    var rootY := ToY(f, placed.yPos);
    canvas.Draw(Line(ToX(f, 0.0), rootY, ToX(f, placed.length), rootY));
    DrawNode(canvas, f, placed, 0.0);
  }
}
