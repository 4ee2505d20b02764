/**
 * The two layout passes of the phylogenetic tree builder over a parsed
 * tree: `layoutTree`, which copies the tree adding a depth `x`, a leaf
 * count and an offset `y`, and `getLeaves`, which lists the leaves left to
 * right.
 */
module TreeLayout {
  import opened Newick

  /** A node of `layoutTree`'s copy: the parsed fields plus `x`, `y` and `leaves`. */
  datatype LaidOut = LaidOut(name: string, length: real, children: seq<LaidOut>, x: real, y: real, leaves: nat)

  /** `getLeaves(node)`: the leaves of the tree, left to right. */
  function Leaves(t: Node): (r: seq<Node>)
    ensures |r| >= 1
    ensures t.children == [] ==> r == [t]
    decreases t, 1
  {
    if t.children == [] then [t] else LeavesFrom(t.children, 0)
  }

  /** `kids.slice(i).flatMap(getLeaves)`. */
  function LeavesFrom(kids: seq<Node>, i: nat): (r: seq<Node>)
    requires i <= |kids|
    ensures i < |kids| ==> |r| >= 1
    decreases kids, |kids| - i
  {
    if i == |kids| then [] else Leaves(kids[i]) + LeavesFrom(kids, i + 1)
  }

  /** Everything `getLeaves` returns is a leaf. */
  lemma {:induction false} LeavesAreLeaves(t: Node)
    ensures forall i | 0 <= i < |Leaves(t)| :: Leaves(t)[i].children == []
    decreases t, 1
  {
    if t.children != [] {
      LeavesFromAreLeaves(t.children, 0);
    }
  }

  /** Everything the children from `i` on contribute is a leaf. */
  lemma {:induction false} LeavesFromAreLeaves(kids: seq<Node>, i: nat)
    requires i <= |kids|
    ensures forall j | 0 <= j < |LeavesFrom(kids, i)| :: LeavesFrom(kids, i)[j].children == []
    decreases kids, |kids| - i
  {
    if i < |kids| {
      LeavesAreLeaves(kids[i]);
      LeavesFromAreLeaves(kids, i + 1);
      var a: seq<Node>, b: seq<Node> := Leaves(kids[i]), LeavesFrom(kids, i + 1);
      forall j | 0 <= j < |a + b|
        ensures (a + b)[j].children == []
      {
        if j >= |a| {
          assert (a + b)[j] == b[j - |a|];
        }
      }
    }
  }

  /** Number of leaves of the children before index `i`: the offset of child `i`'s first leaf. */
  function Before(kids: seq<Node>, i: nat): nat
    requires i <= |kids|
  {
    if i == 0 then 0 else Before(kids, i - 1) + |Leaves(kids[i - 1])|
  }

  /** Sum over the children before `i` of the centre of each one's leaf block, `offset + leaves / 2`. */
  function Centres(kids: seq<Node>, i: nat): real
    requires i <= |kids|
  {
    if i == 0 then 0.0 else Centres(kids, i - 1) + Before(kids, i - 1) as real + |Leaves(kids[i - 1])| as real / 2.0
  }

  /**
   * What `layoutTree(t, depth)` returns: every node gets `x = depth +
   * length`; a leaf counts one leaf and a node with children the sum of its
   * laid-out children's counts; a child's `y` is the number of leaves of
   * its earlier siblings; a node with children gets for `y` the mean
   * centre of its children's leaf blocks, less one half.
   */
  function Layout(t: Node, depth: real): LaidOut
    decreases t, 1
  {
    if t.children == [] then
      LaidOut(t.name, t.length, [], depth + t.length, 0.0, 1)
    else
      LaidOut(t.name, t.length, LaidKids(t.children, depth + t.length, 0), depth + t.length,
              Centres(t.children, |t.children|) / |t.children| as real - 0.5,
              LeafSum(LaidKids(t.children, depth + t.length, 0)))
  }

  /** The sum of the `leaves` counts of a list of laid-out nodes. */
  function LeafSum(rs: seq<LaidOut>): nat {
    if rs == [] then 0 else rs[0].leaves + LeafSum(rs[1..])
  }

  /** The laid-out children from index `i` on, each with its `y` reset to its offset. */
  function LaidKids(kids: seq<Node>, depth: real, i: nat): seq<LaidOut>
    requires i <= |kids|
    decreases kids, |kids| - i
  {
    if i == |kids| then [] else [Layout(kids[i], depth).(y := Before(kids, i) as real)] + LaidKids(kids, depth, i + 1)
  }

  /** The parsed tree a laid-out tree was made from. */
  function Strip(r: LaidOut): Node {
    Node(r.name, r.length, StripAll(r.children))
  }

  /** `Strip` over a list of children. */
  function StripAll(rs: seq<LaidOut>): seq<Node>
    decreases rs
  {
    if rs == [] then [] else [Strip(rs[0])] + StripAll(rs[1..])
  }

  /** The `x` of the leaves of a laid-out tree, left to right. */
  function LaidLeafXs(r: LaidOut): seq<real>
    decreases r, 1
  {
    if r.children == [] then [r.x] else LaidLeafXsAll(r.children)
  }

  /** `LaidLeafXs` over a list of laid-out children, concatenated. */
  function LaidLeafXsAll(rs: seq<LaidOut>): seq<real>
    decreases rs, 0
  {
    if rs == [] then [] else LaidLeafXs(rs[0]) + LaidLeafXsAll(rs[1..])
  }

  /** Appending a laid-out tree to a list appends its leaves' `x`. */
  lemma {:induction false} LaidLeafXsSnoc(rs: seq<LaidOut>, last: LaidOut)
    ensures LaidLeafXsAll(rs + [last]) == LaidLeafXsAll(rs) + LaidLeafXs(last)
    decreases |rs|
  {
    if rs == [] {
      assert [] + [last] == [last];
      assert [last][1..] == [];
    } else {
      assert (rs + [last])[1..] == rs[1..] + [last];
      LaidLeafXsSnoc(rs[1..], last);
    }
  }

  /** The leaves of a list of children concatenate their leaf lists. */
  lemma LeavesFromSplit(kids: seq<Node>, i: nat)
    requires i < |kids|
    ensures LeavesFrom(kids, i) == Leaves(kids[i]) + LeavesFrom(kids, i + 1)
  {
  }

  /** The children before `i` hold `Before(kids, i)` leaves, those from `i` on the rest. */
  lemma {:induction false} BeforeAndAfter(kids: seq<Node>, i: nat)
    requires i <= |kids|
    ensures Before(kids, i) + |LeavesFrom(kids, i)| == |LeavesFrom(kids, 0)|
    decreases i
  {
    if i > 0 {
      BeforeAndAfter(kids, i - 1);
    }
  }

  /** The leaf count of a node with children is the sum of its children's counts. */
  lemma LeafCountSum(t: Node)
    requires t.children != []
    ensures |Leaves(t)| == Before(t.children, |t.children|)
  {
    BeforeAndAfter(t.children, |t.children|);
  }

  /** The laid-out children are exactly the children, laid out one level deeper. */
  lemma {:induction false} LaidKidsAt(kids: seq<Node>, depth: real, i: nat, j: nat)
    requires i <= j < |kids|
    ensures |LaidKids(kids, depth, i)| == |kids| - i
    ensures LaidKids(kids, depth, i)[j - i] == Layout(kids[j], depth).(y := Before(kids, j) as real)
    decreases j - i
  {
    LaidKidsLength(kids, depth, i);
    if i < j {
      LaidKidsAt(kids, depth, i + 1, j);
    }
  }

  /** `LaidKids` has one entry per remaining child. */
  lemma {:induction false} LaidKidsLength(kids: seq<Node>, depth: real, i: nat)
    requires i <= |kids|
    ensures |LaidKids(kids, depth, i)| == |kids| - i
    decreases |kids| - i
  {
    if i < |kids| {
      LaidKidsLength(kids, depth, i + 1);
    }
  }

  /**
   * `layoutTree`: every node's `x` is its depth plus its length, its
   * `leaves` is its number of leaves, and child `i`'s `y` is the number of
   * leaves of the children before it.
   */
  lemma LayoutFields(t: Node, depth: real, i: nat)
    requires i < |t.children|
    ensures Layout(t, depth).x == depth + t.length
    ensures Layout(t, depth).leaves == |Leaves(t)|
    ensures |Layout(t, depth).children| == |t.children|
    ensures Layout(t, depth).children[i].x == depth + t.length + t.children[i].length
    ensures Layout(t, depth).children[i].leaves == |Leaves(t.children[i])|
    ensures Layout(t, depth).children[i].y == Before(t.children, i) as real
  {
    LaidKidsAt(t.children, depth + t.length, 0, i);
    LayoutLeaves(t, depth);
    LayoutLeaves(t.children[i], depth + t.length);
  }

  /** Laying out keeps the parsed tree: names, lengths and children in order. */
  lemma {:induction false} StripLayout(t: Node, depth: real)
    ensures Strip(Layout(t, depth)) == t
    decreases t, 1
  {
    if t.children != [] {
      StripLaidKids(t.children, depth + t.length, 0);
    }
  }

  /** `Strip` over the laid-out children from `i` on gives those children back. */
  lemma {:induction false} StripLaidKids(kids: seq<Node>, depth: real, i: nat)
    requires i <= |kids|
    ensures StripAll(LaidKids(kids, depth, i)) == kids[i..]
    decreases kids, |kids| - i
  {
    if i < |kids| {
      var rest := LaidKids(kids, depth, i + 1);
      var first := Layout(kids[i], depth).(y := Before(kids, i) as real);
      assert LaidKids(kids, depth, i) == [first] + rest;
      assert ([first] + rest)[1..] == rest;
      StripLayout(kids[i], depth);
      StripLaidKids(kids, depth, i + 1);
      assert kids[i..] == [kids[i]] + kids[i + 1..];
    }
  }

  /** Bounds on a quotient by a positive number. */
  lemma DivBounds(c: real, k: real, lo: real, hi: real)
    requires k > 0.0
    requires k * lo <= c <= k * hi
    ensures lo <= c / k <= hi
  {
  }

  /** The offsets never decrease from one child to a later one. */
  lemma {:induction false} BeforeMono(kids: seq<Node>, i: nat, j: nat)
    requires i <= j <= |kids|
    ensures Before(kids, i) <= Before(kids, j)
    decreases j - i
  {
    if i < j {
      BeforeMono(kids, i, j - 1);
    }
  }

  /** The centre of child `j`'s leaf block lies between one half and the total leaf count less one half. */
  lemma CentreBounds(kids: seq<Node>, j: nat)
    requires j < |kids|
    ensures 0.5 <= Before(kids, j) as real + |Leaves(kids[j])| as real / 2.0 <= Before(kids, |kids|) as real - 0.5
  {
    BeforeMono(kids, j + 1, |kids|);
    assert Before(kids, j + 1) == Before(kids, j) + |Leaves(kids[j])|;
  }

  /** `n * x` as a sum of `n` copies of `x`. */
  function Times(n: nat, x: real): real {
    if n == 0 then 0.0 else Times(n - 1, x) + x
  }

  /** A sum of `n` copies of `x` is the product. */
  lemma {:induction false} TimesProduct(n: nat, x: real)
    ensures Times(n, x) == n as real * x
  {
    if n > 0 {
      TimesProduct(n - 1, x);
      assert n as real * x == (n - 1) as real * x + x;
    }
  }

  /** The sum of the first `i` leaf-block centres lies between `i / 2` and `i` times the total less one half. */
  lemma {:induction false} CentresBounds(kids: seq<Node>, i: nat)
    requires i <= |kids|
    ensures Times(i, 0.5) <= Centres(kids, i) <= Times(i, Before(kids, |kids|) as real - 0.5)
    decreases i
  {
    if i > 0 {
      CentresBounds(kids, i - 1);
      CentreBounds(kids, i - 1);
    }
  }

  /**
   * The `y` of a node with children lies within its own leaf block:
   * between 0 and its number of leaves less one.
   */
  lemma LayoutYBounds(t: Node, depth: real)
    requires t.children != []
    ensures 0.0 <= Layout(t, depth).y <= |Leaves(t)| as real - 1.0
  {
    var n := |t.children|;
    CentresBounds(t.children, n);
    TimesProduct(n, 0.5);
    TimesProduct(n, Before(t.children, n) as real - 0.5);
    LeafCountSum(t);
    DivBounds(Centres(t.children, n), n as real, 0.5, |Leaves(t)| as real - 0.5);
  }

  /** `layoutTree(node, depth)` as the source computes it: the children by `map`, then one `forEach` over them. */
  method LayoutTree(t: Node, depth: real) returns (r: LaidOut)
    ensures r == Layout(t, depth)
    decreases t
  {
    if t.children == [] {
      return LaidOut(t.name, t.length, [], depth + t.length, 0.0, 1);
    }
    var kids := t.children;
    var d := depth + t.length;
    var children: seq<LaidOut> := [];
    var i := 0;
    while i < |kids|
      invariant 0 <= i <= |kids|
      invariant |children| == i
      invariant forall j {:trigger children[j]} | 0 <= j < i :: children[j] == Layout(kids[j], d)
    {
      var c := LayoutTree(kids[i], d);
      children := children + [c];
      i := i + 1;
    }
    var leafCount: nat := 0;
    var yPos := 0.0;
    i := 0;
    while i < |children|
      invariant 0 <= i <= |children| == |kids|
      invariant leafCount == Before(kids, i)
      invariant yPos == Centres(kids, i)
      invariant forall j {:trigger children[j]} | 0 <= j < i :: children[j] == Layout(kids[j], d).(y := Before(kids, j) as real)
      invariant forall j {:trigger children[j]} | i <= j < |children| :: children[j] == Layout(kids[j], d)
    {
      LayoutLeaves(kids[i], d);
      children := children[i := children[i].(y := leafCount as real)];
      leafCount := leafCount + children[i].leaves;
      yPos := yPos + children[i].y + children[i].leaves as real / 2.0;
      i := i + 1;
    }
    LayoutFromParts(t, depth, children);
    r := LaidOut(t.name, t.length, children, d, yPos / |children| as real - 0.5, leafCount);
  }

  /** A node with children laid out from its laid-out, offset children. */
  lemma LayoutFromParts(t: Node, depth: real, children: seq<LaidOut>)
    requires t.children != []
    requires |children| == |t.children|
    requires forall j {:trigger children[j]} | 0 <= j < |t.children| ::
      children[j] == Layout(t.children[j], depth + t.length).(y := Before(t.children, j) as real)
    ensures Layout(t, depth) == LaidOut(t.name, t.length, children, depth + t.length,
                                        Centres(t.children, |t.children|) / |t.children| as real - 0.5,
                                        Before(t.children, |t.children|))
  {
    LeafCountSum(t);
    LayoutLeaves(t, depth);
    LaidKidsAll(t.children, depth + t.length, children);
  }

  /**
   * The count `layoutTree` accumulates is the number of leaves `getLeaves`
   * lists, for every subtree.
   */
  lemma {:induction false} LayoutLeaves(t: Node, depth: real)
    ensures Layout(t, depth).leaves == |Leaves(t)|
    decreases t, 1
  {
    if t.children != [] {
      LeafSumLaidKids(t.children, depth + t.length, 0);
    }
  }

  /** The laid-out children from `i` on count the leaves those children contribute. */
  lemma {:induction false} LeafSumLaidKids(kids: seq<Node>, depth: real, i: nat)
    requires i <= |kids|
    ensures LeafSum(LaidKids(kids, depth, i)) == |LeavesFrom(kids, i)|
    decreases kids, |kids| - i
  {
    if i < |kids| {
      var first := Layout(kids[i], depth).(y := Before(kids, i) as real);
      var rest := LaidKids(kids, depth, i + 1);
      assert LaidKids(kids, depth, i) == [first] + rest;
      assert ([first] + rest)[1..] == rest;
      LayoutLeaves(kids[i], depth);
      LeafSumLaidKids(kids, depth, i + 1);
    }
  }

  /** A list whose every entry is the corresponding laid-out child is `LaidKids`. */
  lemma LaidKidsAll(kids: seq<Node>, depth: real, children: seq<LaidOut>)
    requires |children| == |kids|
    requires forall j {:trigger children[j]} | 0 <= j < |kids| :: children[j] == Layout(kids[j], depth).(y := Before(kids, j) as real)
    ensures children == LaidKids(kids, depth, 0)
  {
    LaidKidsLength(kids, depth, 0);
    forall j | 0 <= j < |kids|
      ensures children[j] == LaidKids(kids, depth, 0)[j]
    {
      LaidKidsAt(kids, depth, 0, j);
    }
  }
}
