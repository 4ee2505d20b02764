/**
 * The two passes of `drawNewickTree` that place the tree before drawing:
 * `assignY`, which numbers the leaves left to right with a shared counter
 * and puts every inner node at the mean of its children, and `maxDepth`,
 * the largest root-to-leaf sum of branch lengths.
 */
module TreePositions {
  import opened Newick
  import opened TreeLayout

  /** A node after `assignY`: the parsed fields and the `yPos` it was given. */
  datatype Placed = Placed(name: string, length: real, yPos: real, children: seq<Placed>)

  /** A value together with the leaf counter after producing it. */
  datatype Counted<T> = Counted(value: T, next: nat)

  /** Sum of the `yPos` of a list of nodes, added left to right as `reduce` does. */
  function SumY(ps: seq<Placed>): real {
    if ps == [] then 0.0 else SumY(ps[..|ps| - 1]) + ps[|ps| - 1].yPos
  }

  /** What `assignY` gives the tree when the counter starts at `k`, and the counter afterwards. */
  function Assigned(t: Node, k: nat): (r: Counted<Placed>)
    ensures r.next == k + |Leaves(t)|
    decreases t, 1
  {
    if t.children == [] then
      Counted(Placed(t.name, t.length, k as real, []), k + 1)
    else
      var kids := AssignedFrom(t.children, 0, k);
      Counted(Placed(t.name, t.length, SumY(kids.value) / |kids.value| as real, kids.value), kids.next)
  }

  /** `assignY` over the children from index `i` on, threading the counter. */
  function AssignedFrom(kids: seq<Node>, i: nat, k: nat): (r: Counted<seq<Placed>>)
    requires i <= |kids|
    ensures |r.value| == |kids| - i
    ensures r.next == k + |LeavesFrom(kids, i)|
    decreases kids, |kids| - i
  {
    if i == |kids| then
      Counted([], k)
    else
      var first := Assigned(kids[i], k);
      var rest := AssignedFrom(kids, i + 1, first.next);
      Counted([first.value] + rest.value, rest.next)
  }

  /** `assignY(node)` with the closure's `leafIdx` passed in and handed back. */
  method AssignY(t: Node, leafIdx: nat) returns (p: Placed, nextIdx: nat)
    ensures Counted(p, nextIdx) == Assigned(t, leafIdx)
    decreases t, 1
  {
    if t.children == [] {
      return Placed(t.name, t.length, leafIdx as real, []), leafIdx + 1;
    }
    var children;
    children, nextIdx := AssignChildren(t.children, leafIdx);
    var sum := ReduceY(children);
    p := Placed(t.name, t.length, sum / |children| as real, children);
  }

  /** `node.children.forEach(assignY)`, threading `leafIdx` through the children in order. */
  method AssignChildren(kids: seq<Node>, leafIdx: nat) returns (children: seq<Placed>, nextIdx: nat)
    ensures Counted(children, nextIdx) == AssignedFrom(kids, 0, leafIdx)
    decreases kids, 0
  {
    children := [];
    nextIdx := leafIdx;
    var i := 0;
    while i < |kids|
      invariant 0 <= i <= |kids|
      invariant children + AssignedFrom(kids, i, nextIdx).value == AssignedFrom(kids, 0, leafIdx).value
      invariant AssignedFrom(kids, i, nextIdx).next == AssignedFrom(kids, 0, leafIdx).next
    {
      var c;
      ghost var before := nextIdx;
      c, nextIdx := AssignY(kids[i], nextIdx);
      assert AssignedFrom(kids, i, before).value == [c] + AssignedFrom(kids, i + 1, nextIdx).value;
      assert children + ([c] + AssignedFrom(kids, i + 1, nextIdx).value)
          == (children + [c]) + AssignedFrom(kids, i + 1, nextIdx).value;
      children := children + [c];
      i := i + 1;
    }
    assert AssignedFrom(kids, i, nextIdx) == Counted([], nextIdx);
    assert children + [] == children;
  }

  /** `node.children.reduce((s, c) => s + c.yPos, 0)`. */
  method ReduceY(children: seq<Placed>) returns (sum: real)
    ensures sum == SumY(children)
  {
    sum := 0.0;
    var j := 0;
    while j < |children|
      invariant 0 <= j <= |children|
      invariant sum == SumY(children[..j])
    {
      assert children[..j + 1][..j] == children[..j];
      sum := sum + children[j].yPos;
      j := j + 1;
    }
    assert children[..j] == children;
  }

  /** The parsed tree that `assignY` annotated. */
  function Unplace(p: Placed): Node {
    Node(p.name, p.length, UnplaceAll(p.children))
  }

  /** `Unplace` over a list of children. */
  function UnplaceAll(ps: seq<Placed>): seq<Node> {
    if ps == [] then [] else [Unplace(ps[0])] + UnplaceAll(ps[1..])
  }

  /** `Unplace` of a list with a first tree. */
  lemma UnplaceCons(first: Placed, rest: seq<Placed>)
    ensures UnplaceAll([first] + rest) == [Unplace(first)] + UnplaceAll(rest)
  {
    assert ([first] + rest)[1..] == rest;
  }

  /** `Unplace` over a list keeps its length and applies to each entry. */
  lemma {:induction false} UnplaceAllAt(ps: seq<Placed>)
    ensures |UnplaceAll(ps)| == |ps|
    ensures forall j | 0 <= j < |ps| :: UnplaceAll(ps)[j] == Unplace(ps[j])
    decreases |ps|
  {
    if ps != [] {
      UnplaceAllAt(ps[1..]);
      assert forall j | 1 <= j < |ps| :: ps[1..][j - 1] == ps[j];
    }
  }

  /** The layout of an unplaced leaf is at its own depth. */
  lemma UnplacedLeafX(p: Placed, d: real)
    requires p.children == []
    ensures LaidLeafXs(Layout(Unplace(p), d)) == [d + p.length]
  {
  }

  /** The layout of an unplaced inner node lays out its unplaced children, one entry per child. */
  lemma UnplacedLeafXs(p: Placed, d: real)
    requires p.children != []
    ensures var ls := LaidKids(UnplaceAll(p.children), d + p.length, 0);
      && |ls| == |p.children|
      && LaidLeafXs(Layout(Unplace(p), d)) == LaidLeafXsAll(ls)
  {
    UnplaceAllAt(p.children);
    LaidKidsLength(UnplaceAll(p.children), d + p.length, 0);
  }

  /** The `yPos` of the leaves of a placed tree, left to right. */
  function LeafYs(p: Placed): seq<real>
    decreases p, 1
  {
    if p.children == [] then [p.yPos] else LeafYsAll(p.children)
  }

  /** `LeafYs` over a list of children, concatenated. */
  function LeafYsAll(ps: seq<Placed>): seq<real>
    decreases ps, 0
  {
    if ps == [] then [] else LeafYs(ps[0]) + LeafYsAll(ps[1..])
  }

  /** The leaves of a list with a first tree are that tree's leaves, then the rest's. */
  lemma LeafYsCons(first: Placed, rest: seq<Placed>)
    ensures LeafYsAll([first] + rest) == LeafYs(first) + LeafYsAll(rest)
  {
    assert ([first] + rest)[1..] == rest;
  }

  /** Appending a tree to a list appends its leaves. */
  lemma {:induction false} LeafYsSnoc(ps: seq<Placed>, last: Placed)
    ensures LeafYsAll(ps + [last]) == LeafYsAll(ps) + LeafYs(last)
    decreases |ps|
  {
    if ps == [] {
      assert [] + [last] == [last];
      assert [last][1..] == [];
    } else {
      assert (ps + [last])[1..] == ps[1..] + [last];
      LeafYsSnoc(ps[1..], last);
    }
  }

  /** The names of the leaves of a placed tree, left to right. */
  function LeafNames(p: Placed): seq<string>
    decreases p, 1
  {
    if p.children == [] then [p.name] else LeafNamesAll(p.children)
  }

  /** `LeafNames` over a list of children, concatenated. */
  function LeafNamesAll(ps: seq<Placed>): seq<string>
    decreases ps, 0
  {
    if ps == [] then [] else LeafNames(ps[0]) + LeafNamesAll(ps[1..])
  }

  /** Appending a tree to a list appends its leaf names. */
  lemma {:induction false} LeafNamesSnoc(ps: seq<Placed>, last: Placed)
    ensures LeafNamesAll(ps + [last]) == LeafNamesAll(ps) + LeafNames(last)
    decreases |ps|
  {
    if ps == [] {
      assert [] + [last] == [last];
      assert [last][1..] == [];
    } else {
      assert (ps + [last])[1..] == ps[1..] + [last];
      LeafNamesSnoc(ps[1..], last);
    }
  }

  /** The names of a list of nodes. */
  function Names(ns: seq<Node>): (r: seq<string>)
    ensures |r| == |ns|
  {
    seq(|ns|, j requires 0 <= j < |ns| => ns[j].name)
  }

  /** `assignY` keeps the leaves' names in `getLeaves` order. */
  lemma {:induction false} AssignedLeafNames(t: Node, k: nat)
    ensures LeafNames(Assigned(t, k).value) == Names(Leaves(t))
    decreases t, 1
  {
    if t.children != [] {
      AssignedFromLeafNames(t.children, 0, k);
    } else {
      assert Leaves(t) == [t];
    }
  }

  /** The leaf names of the children from `i` on, as placed, are those of `getLeaves`. */
  lemma {:induction false} AssignedFromLeafNames(kids: seq<Node>, i: nat, k: nat)
    requires i <= |kids|
    ensures LeafNamesAll(AssignedFrom(kids, i, k).value) == Names(LeavesFrom(kids, i))
    decreases kids, |kids| - i
  {
    if i < |kids| {
      var first := Assigned(kids[i], k);
      var rest := AssignedFrom(kids, i + 1, first.next);
      assert AssignedFrom(kids, i, k).value == [first.value] + rest.value;
      LeafNamesCons(first.value, rest.value);
      AssignedLeafNames(kids[i], k);
      AssignedFromLeafNames(kids, i + 1, first.next);
      NamesConcat(Leaves(kids[i]), LeavesFrom(kids, i + 1));
    } else {
      assert Names([]) == [];
    }
  }

  /** The leaf names of a list with a first tree are that tree's, then the rest's. */
  lemma LeafNamesCons(first: Placed, rest: seq<Placed>)
    ensures LeafNamesAll([first] + rest) == LeafNames(first) + LeafNamesAll(rest)
  {
    assert ([first] + rest)[1..] == rest;
  }

  /** `Names` distributes over concatenation. */
  lemma NamesConcat(a: seq<Node>, b: seq<Node>)
    ensures Names(a + b) == Names(a) + Names(b)
  {
    assert forall j | |a| <= j < |a + b| :: (a + b)[j] == b[j - |a|];
  }

  /** `n` consecutive leaf numbers starting at `k`. */
  function Consecutive(k: nat, n: nat): (r: seq<real>)
    ensures |r| == n
    ensures forall j | 0 <= j < n :: r[j] == (k + j) as real
  {
    seq(n, j requires 0 <= j < n => (k + j) as real)
  }

  /** The smallest of a non-empty list of numbers (`Math.min(...xs)`). */
  function MinOf(xs: seq<real>): real
    requires xs != []
  {
    if |xs| == 1 then xs[0]
    else
      var rest := MinOf(xs[1..]);
      if xs[0] <= rest then xs[0] else rest
  }

  /** The largest of a non-empty list of numbers (`Math.max(...xs)`). */
  function MaxOf(xs: seq<real>): real
    requires xs != []
  {
    if |xs| == 1 then xs[0]
    else
      var rest := MaxOf(xs[1..]);
      if xs[0] >= rest then xs[0] else rest
  }

  /** `MinOf` is a member of the list and no member is smaller; `MaxOf` likewise from above. */
  lemma {:induction false} MinMaxOf(xs: seq<real>)
    requires xs != []
    ensures MinOf(xs) in xs && MaxOf(xs) in xs
    ensures forall i | 0 <= i < |xs| :: MinOf(xs) <= xs[i] <= MaxOf(xs)
    decreases |xs|
  {
    if |xs| > 1 {
      MinMaxOf(xs[1..]);
      assert forall i | 1 <= i < |xs| :: xs[i] == xs[1..][i - 1];
    }
  }

  /** The `yPos` of each node of a list. */
  function Ys(ps: seq<Placed>): seq<real> {
    seq(|ps|, i requires 0 <= i < |ps| => ps[i].yPos)
  }

  /** Every node of the tree has its `yPos` in `[lo, hi]`. */
  predicate InRange(p: Placed, lo: real, hi: real)
    decreases p
  {
    && lo <= p.yPos <= hi
    && forall i {:trigger InRange(p.children[i], lo, hi)} | 0 <= i < |p.children| :: InRange(p.children[i], lo, hi)
  }

  /** Every tree of the list lies within `[lo, hi]` and is centred. */
  predicate AllPlaced(ps: seq<Placed>, lo: real, hi: real) {
    forall j | 0 <= j < |ps| :: InRange(ps[j], lo, hi) && Centred(ps[j])
  }

  /** Every node with children has its `yPos` between the least and the greatest of its children's. */
  predicate Centred(p: Placed)
    decreases p
  {
    && (p.children != [] ==> MinOf(Ys(p.children)) <= p.yPos <= MaxOf(Ys(p.children)))
    && forall i {:trigger Centred(p.children[i])} | 0 <= i < |p.children| :: Centred(p.children[i])
  }

  /** Leaf numbers of consecutive blocks join into one block. */
  lemma ConsecutiveJoin(k: nat, a: nat, b: nat)
    ensures Consecutive(k, a) + Consecutive(k + a, b) == Consecutive(k, a + b)
  {
    var l := Consecutive(k, a) + Consecutive(k + a, b);
    forall j | 0 <= j < a + b
      ensures l[j] == Consecutive(k, a + b)[j]
    {
      if j >= a {
        assert l[j] == Consecutive(k + a, b)[j - a];
      }
    }
  }

  /**
   * `assignY` numbers the leaves left to right: started at `k`, the leaves
   * of the tree get `k, k + 1, ...`, so the leaves of any subtree occupy one
   * contiguous block of numbers.
   */
  lemma {:induction false} AssignedLeafYs(t: Node, k: nat)
    ensures LeafYs(Assigned(t, k).value) == Consecutive(k, |Leaves(t)|)
    decreases t, 1
  {
    if t.children != [] {
      AssignedFromLeafYs(t.children, 0, k);
    }
  }

  /** The leaves of the children from `i` on are numbered consecutively from `k`. */
  lemma {:induction false} AssignedFromLeafYs(kids: seq<Node>, i: nat, k: nat)
    requires i <= |kids|
    ensures LeafYsAll(AssignedFrom(kids, i, k).value) == Consecutive(k, |LeavesFrom(kids, i)|)
    decreases kids, |kids| - i
  {
    if i < |kids| {
      var first := Assigned(kids[i], k);
      var rest := AssignedFrom(kids, i + 1, first.next);
      var n, m := |Leaves(kids[i])|, |LeavesFrom(kids, i + 1)|;
      assert AssignedFrom(kids, i, k).value == [first.value] + rest.value;
      LeafYsCons(first.value, rest.value);
      AssignedLeafYs(kids[i], k);
      AssignedFromLeafYs(kids, i + 1, first.next);
      assert first.next == k + n && |LeavesFrom(kids, i)| == n + m;
      ConsecutiveJoin(k, n, m);
    } else {
      assert Consecutive(k, 0) == [];
    }
  }

  /** `assignY` keeps the tree: names, lengths and children in order. */
  lemma {:induction false} UnplaceAssigned(t: Node, k: nat)
    ensures Unplace(Assigned(t, k).value) == t
    decreases t, 1
  {
    if t.children != [] {
      UnplaceAssignedFrom(t.children, 0, k);
    }
  }

  /** `Unplace` over the children numbered from `i` on gives those children back. */
  lemma {:induction false} UnplaceAssignedFrom(kids: seq<Node>, i: nat, k: nat)
    requires i <= |kids|
    ensures UnplaceAll(AssignedFrom(kids, i, k).value) == kids[i..]
    decreases kids, |kids| - i
  {
    if i < |kids| {
      var first := Assigned(kids[i], k);
      var rest := AssignedFrom(kids, i + 1, first.next);
      assert AssignedFrom(kids, i, k).value == [first.value] + rest.value;
      UnplaceCons(first.value, rest.value);
      UnplaceAssigned(kids[i], k);
      UnplaceAssignedFrom(kids, i + 1, first.next);
      assert kids[i..] == [kids[i]] + kids[i + 1..];
    }
  }

  /** Bounds on every member of a list bound the sum, as repeated sums. */
  lemma {:induction false} SumYBounds(ps: seq<Placed>, lo: real, hi: real)
    requires forall i | 0 <= i < |ps| :: lo <= ps[i].yPos <= hi
    ensures Times(|ps|, lo) <= SumY(ps) <= Times(|ps|, hi)
    decreases |ps|
  {
    if ps != [] {
      var init := ps[..|ps| - 1];
      assert forall i | 0 <= i < |init| :: init[i] == ps[i];
      SumYBounds(init, lo, hi);
    }
  }

  /** The mean `yPos` of a non-empty list lies within any bounds on its members. */
  lemma MeanBounds(ps: seq<Placed>, lo: real, hi: real)
    requires ps != []
    requires forall i | 0 <= i < |ps| :: lo <= ps[i].yPos <= hi
    ensures lo <= SumY(ps) / |ps| as real <= hi
  {
    SumYBounds(ps, lo, hi);
    MeanOf(SumY(ps), |ps|, lo, hi);
  }

  /** A total within `n` copies of `lo` and of `hi` has its mean within `[lo, hi]`. */
  lemma MeanOf(c: real, n: nat, lo: real, hi: real)
    requires n > 0
    requires Times(n, lo) <= c <= Times(n, hi)
    ensures lo <= c / n as real <= hi
  {
    TimesProduct(n, lo);
    TimesProduct(n, hi);
    DivBounds(c, n as real, lo, hi);
  }

  /**
   * Every node `assignY` places, started at `k`, lies within the numbers of
   * its own leaves, and every node with children lies between the least and
   * the greatest `yPos` of its children.
   */
  lemma {:induction false} AssignedPlacement(t: Node, k: nat)
    ensures InRange(Assigned(t, k).value, k as real, (k + |Leaves(t)| - 1) as real)
    ensures Centred(Assigned(t, k).value)
    decreases t, 1
  {
    if t.children != [] {
      var p := Assigned(t, k).value;
      assert p.children == AssignedFrom(t.children, 0, k).value;
      assert |LeavesFrom(t.children, 0)| == |Leaves(t)|;
      AssignedFromPlacement(t.children, 0, k);
      NodePlacement(p, k as real, (k + |Leaves(t)| - 1) as real);
    }
  }

  /** A node at the mean of its children, which all lie within `[lo, hi]` and are centred, does too and is. */
  lemma NodePlacement(p: Placed, lo: real, hi: real)
    requires p.children != []
    requires p.yPos == SumY(p.children) / |p.children| as real
    requires AllPlaced(p.children, lo, hi)
    ensures InRange(p, lo, hi)
    ensures Centred(p)
  {
    var ps := p.children;
    forall j | 0 <= j < |ps|
      ensures lo <= ps[j].yPos <= hi
    {
      assert InRange(ps[j], lo, hi);
    }
    var ys := Ys(ps);
    var least, most := MinOf(ys), MaxOf(ys);
    MinMaxOf(ys);
    forall j | 0 <= j < |ps|
      ensures least <= ps[j].yPos <= most
    {
      assert ys[j] == ps[j].yPos;
    }
    MeanBounds(ps, least, most);
    MeanBounds(ps, lo, hi);
    assert AllPlaced(ps, lo, hi);
  }

  /** The children from `i` on, numbered from `k`, lie within the numbers of their own leaves and are centred. */
  lemma {:induction false} AssignedFromPlacement(kids: seq<Node>, i: nat, k: nat)
    requires i <= |kids|
    ensures AllPlaced(AssignedFrom(kids, i, k).value, k as real, (k + |LeavesFrom(kids, i)| - 1) as real)
    decreases kids, |kids| - i
  {
    if i < |kids| {
      var first := Assigned(kids[i], k);
      var rest := AssignedFrom(kids, i + 1, first.next);
      assert AssignedFrom(kids, i, k).value == [first.value] + rest.value;
      var lo, hi := k as real, (k + |LeavesFrom(kids, i)| - 1) as real;
      AssignedPlacement(kids[i], k);
      AssignedFromPlacement(kids, i + 1, first.next);
      var b := (k + |Leaves(kids[i])| - 1) as real;
      var c, d := first.next as real, (first.next + |LeavesFrom(kids, i + 1)| - 1) as real;
      assert b <= hi && lo <= c && d <= hi;
      ConsPlacement(first.value, rest.value, lo, b, c, d, lo, hi);
      assert AllPlaced(AssignedFrom(kids, i, k).value, lo, hi);
    } else {
      assert AssignedFrom(kids, i, k).value == [];
    }
  }

  /** A first node within `[a, b]` and later ones within `[c, d]` all lie within a range holding both. */
  lemma ConsPlacement(first: Placed, rest: seq<Placed>, a: real, b: real, c: real, d: real, lo: real, hi: real)
    requires InRange(first, a, b) && Centred(first)
    requires AllPlaced(rest, c, d)
    requires lo <= a && b <= hi && lo <= c && d <= hi
    ensures AllPlaced([first] + rest, lo, hi)
  {
    var ps := [first] + rest;
    forall j | 0 <= j < |ps|
      ensures InRange(ps[j], lo, hi) && Centred(ps[j])
    {
      if j == 0 {
        RangeWiden(first, a, b, lo, hi);
      } else {
        assert ps[j] == rest[j - 1];
        RangeWiden(rest[j - 1], c, d, lo, hi);
      }
    }
  }

  /** A tree within `[lo, hi]` is within any wider range. */
  lemma {:induction false} RangeWiden(p: Placed, lo: real, hi: real, lo2: real, hi2: real)
    requires InRange(p, lo, hi)
    requires lo2 <= lo && hi <= hi2
    ensures InRange(p, lo2, hi2)
    decreases p
  {
    forall i | 0 <= i < |p.children|
      ensures InRange(p.children[i], lo2, hi2)
    {
      RangeWiden(p.children[i], lo, hi, lo2, hi2);
    }
  }

  /** `maxDepth(node, d)`: the depth `d` plus the node's length, and at a node with children the largest of theirs. */
  function MaxDepth(t: Node, d: real): real
    decreases t, 1
  {
    var nd := d + t.length;
    if t.children == [] then nd else MaxOf(ChildDepths(t.children, nd))
  }

  /** `node.children.map(c => maxDepth(c, nd))`. */
  function ChildDepths(kids: seq<Node>, nd: real): seq<real>
    decreases kids, 0
  {
    seq(|kids|, i requires 0 <= i < |kids| => MaxDepth(kids[i], nd))
  }

  /** The depth of every leaf, left to right: the sum of the lengths on its path, the root's included. */
  function LeafDepths(t: Node, d: real): seq<real>
    decreases t, 1
  {
    if t.children == [] then [d + t.length] else LeafDepthsFrom(t.children, d + t.length, 0)
  }

  /** `LeafDepths` of the children from `i` on, concatenated. */
  function LeafDepthsFrom(kids: seq<Node>, nd: real, i: nat): seq<real>
    requires i <= |kids|
    decreases kids, |kids| - i
  {
    if i == |kids| then [] else LeafDepths(kids[i], nd) + LeafDepthsFrom(kids, nd, i + 1)
  }

  /**
   * `layoutTree` puts every leaf at its depth: the `x` of its leaves, left
   * to right, are the leaf depths `maxDepth` ranges over.
   */
  lemma {:induction false} LayoutLeafXs(t: Node, d: real)
    ensures LaidLeafXs(Layout(t, d)) == LeafDepths(t, d)
    decreases t, 1
  {
    if t.children != [] {
      LaidKidsLeafXs(t.children, d + t.length, 0);
    }
  }

  /** The laid-out children from `i` on have their leaves at the depths of those children's leaves. */
  lemma {:induction false} LaidKidsLeafXs(kids: seq<Node>, nd: real, i: nat)
    requires i <= |kids|
    ensures LaidLeafXsAll(LaidKids(kids, nd, i)) == LeafDepthsFrom(kids, nd, i)
    decreases kids, |kids| - i
  {
    if i < |kids| {
      var first := Layout(kids[i], nd).(y := Before(kids, i) as real);
      var rest := LaidKids(kids, nd, i + 1);
      assert LaidKids(kids, nd, i) == [first] + rest;
      assert ([first] + rest)[1..] == rest;
      assert LaidLeafXs(first) == LaidLeafXs(Layout(kids[i], nd));
      LayoutLeafXs(kids[i], nd);
      LaidKidsLeafXs(kids, nd, i + 1);
    }
  }

  /** `maxDepth` is the depth of some leaf, and no leaf is deeper. */
  lemma {:induction false} MaxDepthIsDeepestLeaf(t: Node, d: real)
    ensures MaxDepth(t, d) in LeafDepths(t, d)
    ensures forall x | x in LeafDepths(t, d) :: x <= MaxDepth(t, d)
    decreases t, 2
  {
    if t.children != [] {
      var kids, nd := t.children, d + t.length;
      var ds := ChildDepths(kids, nd);
      MinMaxOf(ds);
      var j :| 0 <= j < |ds| && ds[j] == MaxOf(ds);
      assert ds[j] == MaxDepth(kids[j], nd);
      LeafDepthsFromHas(kids, nd, 0, j);
      forall i | 0 <= i < |kids|
        ensures MaxDepth(kids[i], nd) <= MaxOf(ds)
      {
        assert ds[i] == MaxDepth(kids[i], nd);
      }
      LeafDepthsFromBound(kids, nd, 0, MaxOf(ds));
    }
  }

  /** The deepest leaf of child `j` is among the leaves of the children from `i` on. */
  lemma {:induction false} LeafDepthsFromHas(kids: seq<Node>, nd: real, i: nat, j: nat)
    requires i <= j < |kids|
    ensures MaxDepth(kids[j], nd) in LeafDepthsFrom(kids, nd, i)
    decreases kids, |kids| - i
  {
    if i == j {
      MaxDepthIsDeepestLeaf(kids[j], nd);
    } else {
      LeafDepthsFromHas(kids, nd, i + 1, j);
    }
  }

  /** No leaf of the children from `i` on is deeper than a bound on their `maxDepth`. */
  lemma {:induction false} LeafDepthsFromBound(kids: seq<Node>, nd: real, i: nat, m: real)
    requires i <= |kids|
    requires forall j | i <= j < |kids| :: MaxDepth(kids[j], nd) <= m
    ensures forall x | x in LeafDepthsFrom(kids, nd, i) :: x <= m
    decreases kids, |kids| - i
  {
    if i < |kids| {
      MaxDepthIsDeepestLeaf(kids[i], nd);
      LeafDepthsFromBound(kids, nd, i + 1, m);
    }
  }

  /** `maxDepth(layout) || 1`: the depth that `toX` scales by, never zero. */
  function MaxD(t: Node): (r: real)
    ensures r != 0.0
    ensures MaxDepth(t, 0.0) != 0.0 ==> r == MaxDepth(t, 0.0)
  {
    var m := MaxDepth(t, 0.0);
    if m == 0.0 then 1.0 else m
  }
}
