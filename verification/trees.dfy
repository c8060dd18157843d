/** Trees of pool addresses, and trees with a hole (the path from the hole up to the root). */
module Trees {
  import opened Wrappers

  type Ptr = nat

  datatype Tree = Nil | Node(left: Tree, n: Ptr, red: bool, right: Tree)

  /** What lies above a subtree: InLeft means the subtree is the left child of n. */
  datatype Path =
    | Top
    | InLeft(n: Ptr, red: bool, right: Tree, up: Path)
    | InRight(left: Tree, n: Ptr, red: bool, up: Path)

  ghost function Nodes(t: Tree): set<Ptr> {
    if t.Nil? then {} else Nodes(t.left) + {t.n} + Nodes(t.right)
  }

  ghost function PathNodes(c: Path): set<Ptr> {
    match c
    case Top => {}
    case InLeft(n, _, r, up) => {n} + Nodes(r) + PathNodes(up)
    case InRight(l, n, _, up) => Nodes(l) + {n} + PathNodes(up)
  }

  ghost predicate Distinct(t: Tree) {
    t.Node? ==>
      && Distinct(t.left) && Distinct(t.right)
      && t.n !in Nodes(t.left) && t.n !in Nodes(t.right) && Nodes(t.left) !! Nodes(t.right)
  }

  ghost predicate PathDistinct(c: Path) {
    match c
    case Top => true
    case InLeft(n, _, r, up) =>
      Distinct(r) && PathDistinct(up) && n !in Nodes(r) && n !in PathNodes(up) && Nodes(r) !! PathNodes(up)
    case InRight(l, n, _, up) =>
      Distinct(l) && PathDistinct(up) && n !in Nodes(l) && n !in PathNodes(up) && Nodes(l) !! PathNodes(up)
  }

  /** Filling the hole. */
  ghost function Whole(t: Tree, c: Path): Tree
    decreases c
  {
    if c.Top? then t else Whole(Lift(t, c), c.up)
  }

  /** The other child of the node above the hole. */
  ghost function Sibling(c: Path): Tree
    requires c != Top
  {
    if c.InLeft? then c.right else c.left
  }

  ghost function WithSibling(c: Path, s: Tree): (c': Path)
    requires c != Top
    ensures c' != Top && c'.n == c.n && c'.up == c.up && c'.red == c.red && Sibling(c') == s
  {
    match c
    case InLeft(n, red, _, up) => InLeft(n, red, s, up)
    case InRight(_, n, red, up) => InRight(s, n, red, up)
  }

  /** The path with another colour just above the hole. */
  ghost function Tint(c: Path, red: bool): (c': Path)
    requires c != Top
    ensures c' != Top && c'.n == c.n && c'.up == c.up && c'.red == red && Sibling(c') == Sibling(c)
  {
    match c
    case InLeft(n, _, r, up) => InLeft(n, red, r, up)
    case InRight(l, n, _, up) => InRight(l, n, red, up)
  }

  /** The subtree one level up. */
  ghost function Lift(t: Tree, c: Path): Tree
    requires c != Top
  {
    if c.InLeft? then Node(t, c.n, c.red, c.right) else Node(c.left, c.n, c.red, t)
  }

  /** The path seen from the sibling of the hole, once the hole holds t. */
  ghost function Across(t: Tree, c: Path): Path
    requires c != Top
  {
    if c.InLeft? then InRight(t, c.n, c.red, c.up) else InLeft(c.n, c.red, t, c.up)
  }

  ghost function Depth(c: Path): nat { if c.Top? then 0 else 1 + Depth(c.up) }

  // ----- in-order sequence

  ghost function InOrder(t: Tree): seq<Ptr> {
    if t.Nil? then [] else InOrder(t.left) + [t.n] + InOrder(t.right)
  }

  ghost function Front(c: Path): seq<Ptr> {
    match c
    case Top => []
    case InLeft(_, _, _, up) => Front(up)
    case InRight(l, n, _, up) => Front(up) + InOrder(l) + [n]
  }

  ghost function Back(c: Path): seq<Ptr> {
    match c
    case Top => []
    case InLeft(n, _, r, up) => [n] + InOrder(r) + Back(up)
    case InRight(_, _, _, up) => Back(up)
  }

  /** The in-order sequence of the whole tree around a hole filled with t. */
  ghost function Around(t: Tree, c: Path): seq<Ptr> {
    Front(c) + InOrder(t) + Back(c)
  }

  /** A rotation does not change the order. */
  lemma TurnedOrder(x: Tree, n: Ptr, y: Tree, m: Ptr, z: Tree, lower: bool, upper: bool, upper': bool, lower': bool)
    ensures InOrder(Node(Node(x, n, lower, y), m, upper, z)) == InOrder(Node(x, n, upper', Node(y, m, lower', z)))
  {
    var a, b, d := InOrder(x), InOrder(y), InOrder(z);
    assert (a + [n] + b) + [m] + d == a + [n] + (b + [m] + d);
  }

  lemma SameAround(t: Tree, t': Tree, c: Path)
    requires InOrder(t) == InOrder(t')
    ensures Around(t, c) == Around(t', c)
  {}

  lemma AroundUp(t: Tree, c: Path)
    requires c != Top
    ensures Around(Lift(t, c), c.up) == Around(t, c)
  {
    var f, a, z := Front(c.up), InOrder(t), Back(c.up);
    match c
    case InLeft(n, _, r, _) =>
      var b := InOrder(r);
      assert f + (a + [n] + b) + z == f + a + ([n] + b + z);
    case InRight(l, n, _, _) =>
      var b := InOrder(l);
      assert f + (b + [n] + a) + z == (f + b + [n]) + a + z;
  }

  lemma {:induction false} WholeOrder(t: Tree, c: Path)
    ensures InOrder(Whole(t, c)) == Around(t, c)
    decreases c
  {
    if c != Top {
      WholeOrder(Lift(t, c), c.up);
      AroundUp(t, c);
    }
  }

  lemma {:induction false} WholeNodes(t: Tree, c: Path)
    ensures Nodes(Whole(t, c)) == Nodes(t) + PathNodes(c)
    decreases c
  {
    if c != Top { WholeNodes(Lift(t, c), c.up); }
  }

  lemma AroundSplit(t: Tree, c: Path)
    requires t.Node?
    ensures Around(t, c) == (Front(c) + InOrder(t.left)) + [t.n] + (InOrder(t.right) + Back(c))
  {}

  /** The root of a subtree in the order of the whole tree, and what follows it. */
  lemma Neighbours(t: Tree, c: Path)
    requires t.Node?
    ensures var o, i, r := Around(t, c), |Front(c)| + |InOrder(t.left)|, InOrder(t.right) + Back(c);
      && i < |o| && o[i] == t.n && (i + 1 < |o| <==> r != []) && (r != [] ==> o[i + 1] == r[0])
  {
    AroundSplit(t, c);
  }

  lemma {:induction false} OrderNodes(t: Tree)
    ensures forall n :: n in InOrder(t) <==> n in Nodes(t)
  {
    if t.Node? {
      OrderNodes(t.left);
      OrderNodes(t.right);
    }
  }

  /** In a tree without repeated addresses no address occurs twice in order. */
  lemma {:induction false} OrderDistinct(t: Tree)
    requires Distinct(t)
    ensures NoDup(InOrder(t))
  {
    if t.Node? {
      OrderDistinct(t.left);
      OrderDistinct(t.right);
      OrderNodes(t.left);
      OrderNodes(t.right);
      var l, r := InOrder(t.left), InOrder(t.right);
      var s := l + [t.n] + r;
      forall i, j | 0 <= i < j < |s| ensures s[i] != s[j] {
        if i < |l| { assert s[i] == l[i] && s[i] in Nodes(t.left); }
        if i > |l| { assert s[i] == r[i - |l| - 1]; }
        if j > |l| { assert s[j] == r[j - |l| - 1] && s[j] in Nodes(t.right); }
      }
    }
  }

  /** Every address in the tree can be brought to the top of a subtree. */
  lemma {:induction false} FocusOn(t: Tree, c: Path, n: Ptr) returns (t': Tree, c': Path)
    requires n in Nodes(t)
    ensures t'.Node? && t'.n == n && Whole(t', c') == Whole(t, c)
  {
    if t.n == n {
      t', c' := t, c;
    } else if n in Nodes(t.left) {
      t', c' := FocusOn(t.left, InLeft(t.n, t.red, t.right, c), n);
    } else {
      t', c' := FocusOn(t.right, InRight(t.left, t.n, t.red, c), n);
    }
  }

  // ----- the ends of the order around a hole

  /** The node above the hole is next to the hole, so it is an end of the order only if nothing lies beyond the hole. */
  ghost predicate EndsApart(c: Path) {
    && (c.InLeft? ==> Back(c) != [] && Back(c)[0] == c.n && (Front(c) != [] ==> Front(c)[0] != c.n))
    && (c.InRight? ==> Front(c) != [] && Front(c)[|Front(c)| - 1] == c.n && (Back(c) != [] ==> Back(c)[|Back(c)| - 1] != c.n))
  }

  lemma HoleEnds(c: Path)
    requires NoDup(Front(c) + Back(c))
    ensures EndsApart(c)
  {
    var f, z := Front(c), Back(c);
    var o := f + z;
    if c.InLeft? && f != [] { assert o[0] == f[0] && o[|f|] == z[0]; }
    if c.InRight? && z != [] { assert o[|f| - 1] == f[|f| - 1] && o[|o| - 1] == z[|z| - 1]; }
  }

  // ----- mirror image

  ghost function Mirror(t: Tree): Tree {
    if t.Nil? then Nil else Node(Mirror(t.right), t.n, t.red, Mirror(t.left))
  }

  ghost function MirrorPath(c: Path): Path {
    match c
    case Top => Top
    case InLeft(n, red, r, up) => InRight(Mirror(r), n, red, MirrorPath(up))
    case InRight(l, n, red, up) => InLeft(n, red, Mirror(l), MirrorPath(up))
  }

  lemma {:induction false} MirrorTree(t: Tree)
    ensures Mirror(Mirror(t)) == t && Nodes(Mirror(t)) == Nodes(t) && Distinct(Mirror(t)) == Distinct(t)
  {
    if t.Node? { MirrorTree(t.left); MirrorTree(t.right); }
  }

  lemma {:induction false} MirrorPathTwice(c: Path)
    ensures MirrorPath(MirrorPath(c)) == c && PathNodes(MirrorPath(c)) == PathNodes(c)
    ensures PathDistinct(MirrorPath(c)) == PathDistinct(c)
  {
    match c
    case Top =>
    case InLeft(_, _, r, up) => MirrorTree(r); MirrorPathTwice(up);
    case InRight(l, _, _, up) => MirrorTree(l); MirrorPathTwice(up);
  }
}
