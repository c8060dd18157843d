/** Taking a node out of the tree: the functional side of the two unlinking cases. */
module Unlink {
  import opened Wrappers
  import opened Trees
  import opened NodePool
  import opened Balance
  import opened Positions

  /** The ends of the order after t's root has given way to its only child x. */
  lemma SplicedFirst(t: Tree, c: Path, x: Tree)
    requires t.Node? && NoDup(Around(t, c))
    requires (t.left.Nil? && x == t.right) || (t.right.Nil? && x == t.left)
    ensures First(Around(x, c)) == if First(Around(t, c)) != t.n then First(Around(t, c))
      else if x.Nil? then Above(c) else First(InOrder(x))
  {
    var f, l, r, z := Front(c), InOrder(t.left), InOrder(t.right), Back(c);
    var o := Around(t, c);
    assert o == f + l + [t.n] + (r + z);
    assert o[|f + l|] == t.n;
    if f + l != [] {
      assert o[0] == (f + l)[0] == Around(x, c)[0];
    } else {
      assert x == t.right;
    }
  }

  lemma SplicedLast(t: Tree, c: Path, x: Tree)
    requires t.Node? && NoDup(Around(t, c))
    requires (t.left.Nil? && x == t.right) || (t.right.Nil? && x == t.left)
    ensures Last(Around(x, c)) == if Last(Around(t, c)) != t.n then Last(Around(t, c))
      else if x.Nil? then Above(c) else Last(InOrder(x))
  {
    var f, l, r, z := Front(c), InOrder(t.left), InOrder(t.right), Back(c);
    SplicedShape(t, c, x);
    LastOf(f + l + [t.n], r + z);
    LastOf(if t.left.Nil? then f else f + l, r + z);
    LastOf(f, l);
    if r + z == [] { assert x == t.left; LastAbove(c); }
  }

  lemma SplicedShape(t: Tree, c: Path, x: Tree)
    requires t.Node?
    requires (t.left.Nil? && x == t.right) || (t.right.Nil? && x == t.left)
    ensures var f, l, rz := Front(c), InOrder(t.left), InOrder(t.right) + Back(c);
      && Around(t, c) == (f + l + [t.n]) + rz && Around(t, c)[|f + l|] == t.n
      && Around(x, c) == (if t.left.Nil? then f else f + l) + rz
  {
    AroundSplit(t, c);
    assert Around(x, c) == Front(c) + (InOrder(x) + Back(c));
  }

  lemma LastOf(a: seq<Ptr>, b: seq<Ptr>)
    ensures Last(a + b) == if b != [] then Last(b) else Last(a)
  {
    assert b == [] ==> a + b == a;
  }

  lemma LastAbove(c: Path)
    requires Back(c) == []
    ensures Last(Front(c)) == Above(c)
  {}

  /** Going up from the hole, e is the first node whose right subtree holds the hole. */
  ghost predicate Spine(c: Path, e: Ptr) {
    c != Top && (if c.n == e then c.InRight? else c.InLeft? && Spine(c.up, e))
  }

  /** The path with e replaced by p. */
  ghost function Renamed(c: Path, e: Ptr, p: Ptr): (c': Path)
    requires Spine(c, e)
    ensures c' != Top
  {
    match c
    case InLeft(n, red, r, up) => InLeft(n, red, r, Renamed(up, e, p))
    case InRight(l, _, red, up) => InRight(l, p, red, up)
  }

  /** The leftmost node of a subtree, reached along left links only. */
  lemma {:induction false} MinFocus(t: Tree, c: Path, e: Ptr) returns (t': Tree, c': Path)
    requires t.Node? && Spine(c, e) && Distinct(t) && e !in Nodes(t)
    ensures t'.Node? && t'.left.Nil? && Spine(c', e)
    ensures Whole(t', c') == Whole(t, c) && Front(c') == Front(c)
    ensures InOrder(t)[0] == t'.n
    ensures Nodes(t') <= Nodes(t) && PathNodes(c) <= PathNodes(c')
    ensures if t' == t then c' == c else c'.InLeft? && c'.n in Nodes(t) && t.n in PathNodes(c') && t'.n != t.n
    decreases t
  {
    if t.left.Nil? {
      t', c' := t, c;
    } else {
      t', c' := MinFocus(t.left, InLeft(t.n, t.red, t.right, c), e);
    }
  }

  /** e with both its children, and the leftmost node on its right in its own focus. */
  ghost predicate TwoViews(k: Pool, te: Tree, ce: Path, t: Tree, c: Path) {
    && At(k, te, ce) && te.Node? && te.left.Node? && te.right.Node?
    && At(k, t, c) && t.Node? && t.left.Nil? && Spine(c, te.n) && Nodes(t) <= Nodes(te.right)
    && (if t == te.right then c == InRight(te.left, te.n, te.red, ce)
        else c.InLeft? && c.n in Nodes(te.right) && te.right.n in PathNodes(c))
  }

  /** What the relinking code reads, and which of these addresses differ. */
  lemma ReadRelink(k: Pool, te: Tree, ce: Path, t: Tree, c: Path)
    requires TwoViews(k, te, ce, t, c)
    ensures var e, l, r, u := te.n, te.left.n, te.right.n, Above(ce);
      && e < |k.left| && k.left[e] == l && k.right[e] == r && k.parent[e] == u
      && l < |k.left| && r < |k.left| && u < |k.left|
      && e != HEAD && l != HEAD && r != HEAD && e != l && e != r && l != r && u != e && u != l && u != r
      && (u == HEAD <==> k.parent[HEAD] == e) && (u == HEAD || k.left[u] == e || k.right[u] == e)
      && (u == HEAD || k.parent[HEAD] != l)
    ensures var e, l, r, u, s, x, px := te.n, te.left.n, te.right.n, Above(ce), t.n, RootOf(t.right), c.n;
      && s < |k.left| && k.right[s] == x && x < |k.left| && k.parent[s] == px && px < |k.left|
      && s != HEAD && s != e && s != l && s != u && k.parent[HEAD] != s && px != HEAD && px != s && px != l && px != u
      && x != s && x != e && x != l && (x != HEAD ==> x != u && x != px && x != r && k.parent[x] == s)
      && (if t == te.right then s == r && px == e else s != r && px != e && k.left[px] == s)
  {
    var e := te.n;
    assert e in Nodes(te) && te.left.n in Nodes(te.left) && te.right.n in Nodes(te.right) && t.n in Nodes(t);
    assert t.right.Node? ==> t.right.n in Nodes(t.right);
    assert Rep(k, t.right, t.n);
    assert ce != Top ==> ce.n in PathNodes(ce);
    assert c.n in PathNodes(c);
    SpliceCells(k, te, ce);
    SpliceCells(k, t, c);
  }

  lemma {:induction false} RenamedState(c: Path, e: Ptr, p: Ptr, b: nat)
    requires Spine(c, e) && PathBal(c, b) && PathNoRedRed(c) && TopBlack(c)
    ensures var c' := Renamed(c, e, p); PathBal(c', b) && PathNoRedRed(c') && TopBlack(c') && PathRed(c') == PathRed(c)
  {
    if c.InLeft? { RenamedState(c.up, e, p, if c.red then b else b + 1); }
  }

  lemma {:induction false} RenamedOrder(c: Path, e: Ptr, p: Ptr)
    requires Spine(c, e)
    ensures var f := Front(c); f != [] && Front(Renamed(c, e, p)) == f[..|f| - 1] + [p] && f[|f| - 1] == e
    ensures Back(Renamed(c, e, p)) == Back(c)
  {
    if c.InLeft? { RenamedOrder(c.up, e, p); }
  }

  lemma {:induction false} RenamedNodes(c: Path, e: Ptr, p: Ptr)
    requires Spine(c, e) && PathDistinct(c)
    ensures e in PathNodes(c) && PathNodes(Renamed(c, e, p)) == PathNodes(c) - {e} + {p}
  {
    if c.InLeft? { RenamedNodes(c.up, e, p); }
  }

  /** One node on the path gives its place to p. */
  lemma {:induction false} RenamedAt(k: Pool, t: Tree, c: Path, e: Ptr, p: Ptr)
    requires At(k, t, c) && Spine(c, e)
    requires p < |k.left| && p != HEAD && p !in Nodes(t) && p !in PathNodes(c)
    ensures CanReplaceNode(k, e, p) && At(Replaced(k, e, p), t, Renamed(c, e, p))
    decreases c
  {
    FocusUp(k, t, c);
    var u := Lift(t, c);
    if c.InRight? {
      SpliceCells(k, u, c.up);
      ReplaceAt(k, u, c.up, p);
    } else {
      RenamedAt(k, u, c.up, e, p);
    }
    FocusUp(Replaced(k, e, p), t, Renamed(c, e, p));
  }

  /** Relinking a node with two children: p, the leftmost node on its right, leaves its place and takes over e's. */
  lemma RelinkAt(k: Pool, t: Tree, c: Path, e: Ptr)
    requires At(k, t, c) && t.Node? && t.left.Nil? && Spine(c, e)
    ensures CanSplice(k, t.n, RootOf(t.right))
    ensures var k1 := Spliced(k, t.n, RootOf(t.right));
      CanReplaceNode(k1, e, t.n) && At(Replaced(k1, e, t.n), t.right, Renamed(c, e, t.n))
  {
    SpliceCells(k, t, c);
    SpliceAt(k, t, c, t.right);
    assert t.n in Nodes(t);
    RenamedAt(Spliced(k, t.n, RootOf(t.right)), t.right, c, e, t.n);
  }

  /** Removing a node with at most one child: what is left is settled if the node was red. */
  lemma SpliceState(t: Tree, c: Path, x: Tree) returns (b: nat)
    requires t.Node? && RedBlack(Whole(t, c))
    requires (t.left.Nil? && x == t.right) || (t.right.Nil? && x == t.left)
    ensures PathNoRedRed(c) && TopBlack(c) && NoRedRed(x)
    ensures if t.red then Settled(x, c, b) else EraseState(x, c, b)
  {
    var b' := SplitBalanced(t, c);
    b := if t.red then b' else b' - 1;
  }

  lemma RelinkState(t: Tree, c: Path, e: Ptr) returns (b: nat)
    requires t.Node? && t.left.Nil? && Spine(c, e) && RedBlack(Whole(t, c))
    ensures var c' := Renamed(c, e, t.n);
      if t.red then Settled(t.right, c', b) else EraseState(t.right, c', b)
  {
    b := SpliceState(t, c, t.right);
    RenamedState(c, e, t.n, if t.red then b else b + 1);
  }

  ghost predicate CanRelink(k: Pool, e: Ptr, s: Ptr) {
    && Sized(k) && e < |k.left| && s < |k.left| && k.left[e] < |k.left| && k.right[e] < |k.left| && k.parent[e] < |k.left|
    && k.right[s] < |k.left| && k.parent[s] < |k.left|
    && var l, r, u, x, px := k.left[e], k.right[e], k.parent[e], k.right[s], k.parent[s];
    && e != HEAD && l != HEAD && r != HEAD && e != l && e != r && l != r && u != e && u != l && u != r
    && (u == HEAD <==> k.parent[HEAD] == e) && (u == HEAD || k.left[u] == e || k.right[u] == e)
    && s != HEAD && s != e && s != l && s != u && k.parent[HEAD] != s && px != HEAD && px != s && px != l && px != u
    && x != s && x != e && x != l && (x != HEAD ==> x != u && x != px && x != r && k.parent[x] == s)
    && (if s == r then px == e else px != e && k.left[px] == s)
  }

  /** The children of e (and, apart from it, the child of s) after s has come between. */
  ghost function Adopted(k: Pool, e: Ptr, s: Ptr): (k': Pool)
    requires CanRelink(k, e, s)
    ensures Sized(k') && |k'.left| == |k.left|
  {
    var l, r, x, px := k.left[e], k.right[e], k.right[s], k.parent[s];
    if s == r then Pool(k.left[s := l], k.parent[l := s], k.right, k.red)
    else Pool(k.left[s := l][px := x],
              (if x == HEAD then k.parent else k.parent[x := px])[l := s][r := s],
              k.right[s := r], k.red)
  }

  /** The links after s has left its place and taken over e's. */
  ghost function Relinked(k: Pool, e: Ptr, s: Ptr): (k': Pool)
    requires CanRelink(k, e, s)
    ensures Sized(k') && |k'.left| == |k.left|
  {
    var k1 := Hook(Adopted(k, e, s), k.parent[e], e, s);
    Pool(k1.left, k1.parent[s := k.parent[e]], k1.right, k.red[s := k.red[e]][e := k.red[s]])
  }

  /** Taking s out first only moves its child up. */
  ghost function Parted(k: Pool, e: Ptr, s: Ptr): (k': Pool)
    requires CanRelink(k, e, s)
    ensures Sized(k') && |k'.left| == |k.left| && CanReplaceNode(k', e, s)
  {
    var x, px := k.right[s], k.parent[s];
    Pool(if s == k.right[e] then k.left else k.left[px := x],
         if x == HEAD then k.parent else k.parent[x := px],
         if s == k.right[e] then k.right[e := x] else k.right, k.red)
  }

  lemma PartedIsSpliced(k: Pool, e: Ptr, s: Ptr)
    requires CanRelink(k, e, s)
    ensures CanSplice(k, s, k.right[s]) && Spliced(k, s, k.right[s]) == Parted(k, e, s)
  {}

  lemma RelinkedLeft(k: Pool, e: Ptr, s: Ptr, n: Ptr)
    requires CanRelink(k, e, s) && n != e && n < |k.left|
    ensures Replaced(Parted(k, e, s), e, s).left[n] == Relinked(k, e, s).left[n]
  {
    if s == k.right[e] { LeftOfChild(k, e, s, n); } else { LeftOfDeeper(k, e, s, n); }
  }

  lemma LeftOfChild(k: Pool, e: Ptr, s: Ptr, n: Ptr)
    requires CanRelink(k, e, s) && n != e && n < |k.left| && s == k.right[e]
    ensures Replaced(Parted(k, e, s), e, s).left[n] == Relinked(k, e, s).left[n]
  {}

  lemma LeftOfDeeper(k: Pool, e: Ptr, s: Ptr, n: Ptr)
    requires CanRelink(k, e, s) && n != e && n < |k.left| && s != k.right[e]
    ensures Replaced(Parted(k, e, s), e, s).left[n] == Relinked(k, e, s).left[n]
  {}

  lemma RelinkedRed(k: Pool, e: Ptr, s: Ptr, n: Ptr)
    requires CanRelink(k, e, s) && n != e && n < |k.left|
    ensures Replaced(Parted(k, e, s), e, s).red[n] == Relinked(k, e, s).red[n]
  {}

  lemma RelinkedRight(k: Pool, e: Ptr, s: Ptr, n: Ptr)
    requires CanRelink(k, e, s) && n != e && n < |k.left|
    ensures Replaced(Parted(k, e, s), e, s).right[n] == Relinked(k, e, s).right[n]
  {
    if s == k.right[e] { RightOfChild(k, e, s, n); } else { RightOfDeeper(k, e, s, n); }
  }

  lemma RightOfChild(k: Pool, e: Ptr, s: Ptr, n: Ptr)
    requires CanRelink(k, e, s) && n != e && n < |k.left| && s == k.right[e]
    ensures Replaced(Parted(k, e, s), e, s).right[n] == Relinked(k, e, s).right[n]
  {}

  lemma RightOfDeeper(k: Pool, e: Ptr, s: Ptr, n: Ptr)
    requires CanRelink(k, e, s) && n != e && n < |k.left| && s != k.right[e]
    ensures Replaced(Parted(k, e, s), e, s).right[n] == Relinked(k, e, s).right[n]
  {}

  lemma RelinkedParent(k: Pool, e: Ptr, s: Ptr, n: Ptr)
    requires CanRelink(k, e, s) && n != e && n < |k.left|
    ensures Replaced(Parted(k, e, s), e, s).parent[n] == Relinked(k, e, s).parent[n]
  {
    if s == k.right[e] { ParentOfChild(k, e, s, n); } else { ParentOfDeeper(k, e, s, n); }
  }

  lemma ParentOfChild(k: Pool, e: Ptr, s: Ptr, n: Ptr)
    requires CanRelink(k, e, s) && n != e && n < |k.left| && s == k.right[e]
    ensures Replaced(Parted(k, e, s), e, s).parent[n] == Relinked(k, e, s).parent[n]
  {}

  lemma ParentOfDeeper(k: Pool, e: Ptr, s: Ptr, n: Ptr)
    requires CanRelink(k, e, s) && n != e && n < |k.left| && s != k.right[e]
    ensures Replaced(Parted(k, e, s), e, s).parent[n] == Relinked(k, e, s).parent[n]
  {}

  /** Relinking is taking s out and then putting it in e's place, except for what is left in e. */
  lemma RelinkedSame(k: Pool, e: Ptr, s: Ptr, n: Ptr)
    requires CanRelink(k, e, s) && n != e
    ensures CanSplice(k, s, k.right[s]) && CanReplaceNode(Spliced(k, s, k.right[s]), e, s)
    ensures Same(Replaced(Spliced(k, s, k.right[s]), e, s), Relinked(k, e, s), n)
  {
    PartedIsSpliced(k, e, s);
    if n < |k.left| {
      RelinkedLeft(k, e, s, n);
      RelinkedRed(k, e, s, n);
      RelinkedRight(k, e, s, n);
      RelinkedParent(k, e, s, n);
    }
  }

  /** After the relinking the hole is where s was, and s stands where e was. */
  lemma RelinkedAt(k: Pool, te: Tree, ce: Path, t: Tree, c: Path)
    requires TwoViews(k, te, ce, t, c)
    ensures CanRelink(k, te.n, t.n)
    ensures At(Relinked(k, te.n, t.n), t.right, Renamed(c, te.n, t.n))
  {
    RelinkReady(k, te, ce, t, c);
    RelinkAt(k, t, c, te.n);
    NotRenamed(k, t, c, te.n);
    RelinkedFrame(k, te.n, t.n, t.right, Renamed(c, te.n, t.n));
  }

  lemma RelinkReady(k: Pool, te: Tree, ce: Path, t: Tree, c: Path)
    requires TwoViews(k, te, ce, t, c)
    ensures CanRelink(k, te.n, t.n) && k.right[t.n] == RootOf(t.right)
  {
    ReadRelink(k, te, ce, t, c);
  }

  lemma RelinkedFrame(k: Pool, e: Ptr, s: Ptr, t: Tree, c: Path)
    requires CanRelink(k, e, s) && CanSplice(k, s, k.right[s]) && CanReplaceNode(Spliced(k, s, k.right[s]), e, s)
    requires At(Replaced(Spliced(k, s, k.right[s]), e, s), t, c) && e !in Nodes(t) && e !in PathNodes(c)
    ensures At(Relinked(k, e, s), t, c)
  {
    forall n | n in Nodes(t) || n in PathNodes(c) || n == HEAD
      ensures Same(Replaced(Spliced(k, s, k.right[s]), e, s), Relinked(k, e, s), n)
    {
      RelinkedSame(k, e, s, n);
    }
    AtFrame(Replaced(Spliced(k, s, k.right[s]), e, s), Relinked(k, e, s), t, c);
  }

  lemma NotRenamed(k: Pool, t: Tree, c: Path, e: Ptr)
    requires At(k, t, c) && t.Node? && Spine(c, e)
    ensures e !in Nodes(t.right) && e !in PathNodes(Renamed(c, e, t.n))
  {
    RenamedNodes(c, e, t.n);
    assert t.n in Nodes(t) && e in PathNodes(c);
  }

  /** The order once the root of the subtree t is gone. */
  ghost function Without(t: Tree, c: Path): seq<Ptr>
    requires t.Node?
  {
    Front(c) + InOrder(t.left) + (InOrder(t.right) + Back(c))
  }

  lemma SplicedOrder(t: Tree, c: Path, x: Tree)
    requires t.Node?
    requires (t.left.Nil? && x == t.right) || (t.right.Nil? && x == t.left)
    ensures Around(x, c) == Without(t, c)
  {
    assert Around(x, c) == Front(c) + (InOrder(x) + Back(c));
  }

  /** The leftmost node on the right of a node with two children, brought into focus. */
  lemma TwoViewsFrom(k: Pool, te: Tree, ce: Path) returns (t: Tree, c: Path)
    requires At(k, te, ce) && te.Node? && te.left.Node? && te.right.Node?
    ensures TwoViews(k, te, ce, t, c) && Whole(t, c) == Whole(te, ce)
    ensures t.n == First(InOrder(te.right) + Back(ce))
    ensures Around(t.right, Renamed(c, te.n, t.n)) == Without(te, ce)
    ensures First(Without(te, ce)) == First(Around(te, ce)) && Last(Without(te, ce)) == Last(Around(te, ce))
  {
    var c0 := InRight(te.left, te.n, te.red, ce);
    t, c := MinFocus(te.right, c0, te.n);
    FocusUp(k, te.right, c0);
    FocusWhole(k, te.right, c0);
    FocusWhole(k, t, c);
    RelinkedOrder(te, ce, t, c);
  }

  lemma RelinkedOrder(te: Tree, ce: Path, t: Tree, c: Path)
    requires te.Node? && te.left.Node? && te.right.Node? && t.Node? && t.left.Nil? && Spine(c, te.n)
    requires Whole(t, c) == Whole(te, ce) && Front(c) == Front(ce) + InOrder(te.left) + [te.n]
    ensures Around(t.right, Renamed(c, te.n, t.n)) == Without(te, ce)
    ensures First(Without(te, ce)) == First(Around(te, ce)) && Last(Without(te, ce)) == Last(Around(te, ce))
  {
    WholeOrder(t, c);
    WholeOrder(te, ce);
    RenamedOrder(c, te.n, t.n);
    var f, r := Front(ce) + InOrder(te.left), InOrder(te.right) + Back(ce);
    AroundSplit(te, ce);
    assert InOrder(t) == [t.n] + InOrder(t.right);
    assert Front(c) == f + [te.n];
    assert Front(Renamed(c, te.n, t.n)) == f + [t.n];
    TakenOver(f, te.n, r, t.n, InOrder(t.right), Back(c));
  }

  lemma TakenOver(f: seq<Ptr>, e: Ptr, r: seq<Ptr>, s: Ptr, x: seq<Ptr>, z: seq<Ptr>)
    requires f + [e] + r == (f + [e]) + ([s] + x) + z
    ensures (f + [s]) + x + z == f + r
    ensures f != [] ==> First(f + r) == First(f + [e] + r)
    ensures r != [] ==> Last(f + r) == Last(f + [e] + r)
  {
    assert (f + [e]) + ([s] + x) + z == f + [e] + ([s] + x + z);
    assert r == (f + [e] + r)[|f| + 1..] == [s] + x + z;
  }

  lemma WithoutSize(t: Tree, c: Path)
    requires t.Node?
    ensures |Without(t, c)| + 1 == |InOrder(Whole(t, c))|
  {
    WholeOrder(t, c);
  }

  /** Where n stands in the order of a tree, and what is left without it. */
  lemma Place(tree: Tree, n: Ptr) returns (t: Tree, c: Path, i: nat)
    requires Distinct(tree) && n in Nodes(tree)
    ensures t.Node? && t.n == n && Whole(t, c) == tree
    ensures i < |InOrder(tree)| && InOrder(tree)[i] == n && NoDup(InOrder(tree))
    ensures Without(t, c) == InOrder(tree)[..i] + InOrder(tree)[i + 1..]
    ensures First(InOrder(t.right) + Back(c)) == if i + 1 < |InOrder(tree)| then InOrder(tree)[i + 1] else HEAD
  {
    t, c := FocusOn(tree, Top, n);
    WholeOrder(t, c);
    i := PlaceAround(t, c);
    OrderDistinct(tree);
  }

  lemma PlaceAround(t: Tree, c: Path) returns (i: nat)
    requires t.Node?
    ensures var o := Around(t, c); i < |o| && o[i] == t.n && Without(t, c) == o[..i] + o[i + 1..]
    ensures var o := Around(t, c); First(InOrder(t.right) + Back(c)) == if i + 1 < |o| then o[i + 1] else HEAD
  {
    AroundSplit(t, c);
    var f, r := Front(c) + InOrder(t.left), InOrder(t.right) + Back(c);
    i := |f|;
    Dropped(f, t.n, r);
    NextBehind(f, t.n, r);
  }

  lemma NextBehind(f: seq<Ptr>, e: Ptr, r: seq<Ptr>)
    ensures var o := f + [e] + r; o[|f|] == e && First(r) == if |f| + 1 < |o| then o[|f| + 1] else HEAD
  {}

  lemma Dropped(f: seq<Ptr>, e: Ptr, r: seq<Ptr>)
    ensures var o := f + [e] + r; |f| < |o| && f + r == o[..|f|] + o[|f| + 1..]
  {
    var o := f + [e] + r;
    assert o[..|f|] == f && o[|f| + 1..] == r;
  }

  /** Dropping one place of the order drops exactly its node. */
  lemma RemovedNodes(t: Tree, t': Tree, i: nat)
    requires i < |InOrder(t)| && InOrder(t') == InOrder(t)[..i] + InOrder(t)[i + 1..] && NoDup(InOrder(t))
    ensures Nodes(t') == Nodes(t) - {InOrder(t)[i]}
  {
    OrderNodes(t);
    OrderNodes(t');
    DroppedElements(InOrder(t), InOrder(t'), i);
  }

  lemma DroppedElements(o: seq<Ptr>, o': seq<Ptr>, i: nat)
    requires i < |o| && o' == o[..i] + o[i + 1..] && NoDup(o)
    ensures forall n :: n in o' <==> n in o && n != o[i]
  {
    forall n ensures n in o' <==> n in o && n != o[i] {
      if n in o && n != o[i] {
        var j :| 0 <= j < |o| && o[j] == n;
        assert n == if j < i then o'[j] else o'[j - 1];
      }
    }
  }
}
