module NodePool {
  import opened Trees
  const HEAD: Ptr := 0

  datatype Pool = Pool(left: seq<Ptr>, parent: seq<Ptr>, right: seq<Ptr>, red: seq<bool>)

  ghost predicate Sized(k: Pool) {
    0 < |k.left| == |k.parent| == |k.right| == |k.red|
  }

  ghost function RootOf(t: Tree): Ptr { if t.Nil? then HEAD else t.n }
  ghost function Above(c: Path): Ptr { if c.Top? then HEAD else c.n }

  ghost predicate Cell(k: Pool, n: Ptr, left: Ptr, parent: Ptr, right: Ptr, red: bool)
    requires Sized(k)
  {
    n < |k.left| && k.left[n] == left && k.parent[n] == parent && k.right[n] == right && k.red[n] == red
  }

  ghost predicate Same(k: Pool, k': Pool, n: Ptr)
    requires Sized(k) && Sized(k')
  {
    n < |k.left| ==> Cell(k', n, k.left[n], k.parent[n], k.right[n], k.red[n])
  }

  ghost predicate Rep(k: Pool, t: Tree, parent: Ptr)
    requires Sized(k)
  {
    t.Node? ==>
      && Cell(k, t.n, RootOf(t.left), parent, RootOf(t.right), t.red)
      && Rep(k, t.left, t.n) && Rep(k, t.right, t.n)
  }

  ghost predicate PathRep(k: Pool, c: Path, hole: Ptr)
    requires Sized(k)
  {
    match c
    case Top => k.parent[HEAD] == hole
    case InLeft(n, red, r, up) =>
      Cell(k, n, hole, Above(up), RootOf(r), red) && Rep(k, r, n) && PathRep(k, up, n)
    case InRight(l, n, red, up) =>
      Cell(k, n, RootOf(l), Above(up), hole, red) && Rep(k, l, n) && PathRep(k, up, n)
  }

  ghost predicate At(k: Pool, t: Tree, c: Path) {
    && Sized(k) && !k.red[HEAD]
    && HEAD !in Nodes(t) && HEAD !in PathNodes(c)
    && Distinct(t) && PathDistinct(c) && Nodes(t) !! PathNodes(c)
    && Rep(k, t, Above(c)) && PathRep(k, c, RootOf(t))
  }

  lemma {:induction false} RepFrame(k: Pool, k': Pool, t: Tree, parent: Ptr)
    requires Sized(k) && Sized(k') && Rep(k, t, parent)
    requires forall n :: n in Nodes(t) ==> Same(k, k', n)
    ensures Rep(k', t, parent)
  {
    if t.Node? {
      assert t.n in Nodes(t);
      assert Same(k, k', t.n);
      RepFrame(k, k', t.left, t.n);
      RepFrame(k, k', t.right, t.n);
    }
  }

  // The same tree hung under another parent.
  lemma {:induction false} RepMove(k: Pool, k': Pool, t: Tree, parent: Ptr, parent': Ptr)
    requires Sized(k) && Sized(k') && Rep(k, t, parent) && Distinct(t)
    requires t.Node? ==> Cell(k', t.n, k.left[t.n], parent', k.right[t.n], k.red[t.n])
    requires forall n :: n in Nodes(t) && n != t.n ==> Same(k, k', n)
    ensures Rep(k', t, parent')
  {
    if t.Node? {
      RepFrame(k, k', t.left, t.n);
      RepFrame(k, k', t.right, t.n);
    }
  }

  lemma {:induction false} PathFrame(k: Pool, k': Pool, c: Path, hole: Ptr)
    requires Sized(k) && Sized(k') && PathRep(k, c, hole)
    requires k'.parent[HEAD] == k.parent[HEAD]
    requires forall n :: n in PathNodes(c) ==> Same(k, k', n)
    ensures PathRep(k', c, hole)
  {
    if c != Top {
      assert c.n in PathNodes(c);
      assert Same(k, k', c.n);
      match c
      case InLeft(n, _, r, up) => RepFrame(k, k', r, n); PathFrame(k, k', up, n);
      case InRight(l, n, _, up) => RepFrame(k, k', l, n); PathFrame(k, k', up, n);
    }
  }

  // Whatever points at `was` from above points at `now`.
  ghost function Hook(k: Pool, above: Ptr, was: Ptr, now: Ptr): (k': Pool)
    requires Sized(k) && above < |k.left|
    ensures Sized(k') && |k'.left| == |k.left|
  {
    if k.parent[HEAD] == was then k.(parent := k.parent[HEAD := now])
    else if k.left[above] == was then k.(left := k.left[above := now])
    else k.(right := k.right[above := now])
  }

  lemma {:induction false} TopIsRoot(k: Pool, c: Path, hole: Ptr)
    requires Sized(k) && PathRep(k, c, hole) && c != Top
    ensures k.parent[HEAD] in PathNodes(c) && c.n in PathNodes(c)
  {
    if c.up != Top { TopIsRoot(k, c.up, c.n); }
  }

  lemma {:induction false} HookPath(k: Pool, k': Pool, c: Path, was: Ptr, now: Ptr)
    requires Sized(k) && Sized(k') && PathRep(k, c, was) && Above(c) < |k.left| && PathDistinct(c)
    requires HEAD !in PathNodes(c) && was !in PathNodes(c) && was != HEAD
    requires k'.parent[HEAD] == Hook(k, Above(c), was, now).parent[HEAD]
    requires forall n :: n in PathNodes(c) ==> Same(Hook(k, Above(c), was, now), k', n)
    ensures PathRep(k', c, now)
  {
    if c != Top {
      TopIsRoot(k, c, was);
      assert Same(Hook(k, Above(c), was, now), k', c.n);
      forall n | n in PathNodes(c.up) || (c.InLeft? && n in Nodes(c.right)) || (c.InRight? && n in Nodes(c.left)) ensures Same(k, k', n) {
        assert Same(Hook(k, Above(c), was, now), k', n);
      }
      match c
      case InLeft(n, _, r, up) =>
        RepFrame(k, k', r, n); PathFrame(k, k', up, n);
      case InRight(l, n, _, up) =>
        RepFrame(k, k', l, n); PathFrame(k, k', up, n);
    }
  }

  ghost predicate CanRotateLeft(k: Pool, w: Ptr) {
    Sized(k) && w < |k.left| && k.right[w] < |k.left| && k.parent[w] < |k.left| && k.left[k.right[w]] < |k.left|
  }

  /** What the rotation code needs: the four addresses it reads are different where it matters. */
  ghost predicate Rotatable(k: Pool, w: Ptr) {
    CanRotateLeft(k, w) &&
    var p, u := k.right[w], k.parent[w];
    var b := k.left[p];
    p != w && p != HEAD && w != HEAD && u != w && u != p && b != w && b != p && (u == HEAD ==> k.parent[HEAD] == w)
  }

  ghost function LRotated(k: Pool, w: Ptr): (k': Pool)
    requires CanRotateLeft(k, w)
    ensures Sized(k') && |k'.left| == |k.left|
  {
    var p := k.right[w];
    var b, u := k.left[p], k.parent[w];
    var k1 := Hook(k, u, w, p);
    Pool(k1.left[p := w],
         (if b == HEAD then k1.parent else k1.parent[b := w])[p := u][w := p],
         k1.right[w := b],
         k.red)
  }

  ghost function RotatedLeft(t: Tree): Tree
    requires t.Node? && t.right.Node?
  {
    Node(Node(t.left, t.n, t.red, t.right.left), t.right.n, t.right.red, t.right.right)
  }

  lemma AtFrame(k: Pool, k': Pool, t: Tree, c: Path)
    requires At(k, t, c) && Sized(k') && !k'.red[HEAD] && k'.parent[HEAD] == k.parent[HEAD]
    requires forall n :: n in Nodes(t) || n in PathNodes(c) ==> Same(k, k', n)
    ensures At(k', t, c)
  {
    RepFrame(k, k', t, Above(c));
    PathFrame(k, k', c, RootOf(t));
  }

  /** Writing the head's ends does not disturb the tree. */
  lemma HeadFrame(k: Pool, k': Pool, t: Tree, c: Path)
    requires At(k, t, c) && Sized(k') && |k'.left| == |k.left| && k'.parent == k.parent && k'.red == k.red
    requires forall n :: 0 < n < |k.left| ==> k'.left[n] == k.left[n] && k'.right[n] == k.right[n]
    ensures At(k', t, c)
  {
    AtFrame(k, k', t, c);
  }

  lemma {:induction false} NodesInPool(k: Pool, t: Tree, parent: Ptr)
    requires Sized(k) && Rep(k, t, parent)
    ensures forall n :: n in Nodes(t) ==> n < |k.left|
  {
    if t.Node? {
      NodesInPool(k, t.left, t.n);
      NodesInPool(k, t.right, t.n);
    }
  }

  // ----- moving the focus

  lemma FocusUp(k: Pool, t: Tree, c: Path)
    requires c != Top
    ensures At(k, t, c) <==> At(k, Lift(t, c), c.up)
  {}

  lemma FocusAcross(k: Pool, t: Tree, c: Path)
    requires c != Top
    ensures At(k, t, c) <==> At(k, Sibling(c), Across(t, c))
  {
    FocusUp(k, t, c);
    FocusUp(k, Sibling(c), Across(t, c));
    assert Lift(Sibling(c), Across(t, c)) == Lift(t, c);
  }

  lemma {:induction false} FocusWhole(k: Pool, t: Tree, c: Path)
    ensures At(k, Whole(t, c), Top) <==> At(k, t, c)
    decreases c
  {
    if c != Top {
      FocusUp(k, t, c);
      FocusWhole(k, Lift(t, c), c.up);
    }
  }

  // ----- colours

  ghost function Painted(k: Pool, n: Ptr, col: bool): (k': Pool)
    ensures Sized(k) ==> Sized(k') && |k'.left| == |k.left|
  {
    if n < |k.red| then k.(red := k.red[n := col]) else k
  }

  lemma PaintAt(k: Pool, t: Tree, c: Path, col: bool)
    requires At(k, t, c) && t.Node?
    ensures At(Painted(k, t.n, col), t.(red := col), c)
  {
    var k' := Painted(k, t.n, col);
    RepFrame(k, k', t.left, t.n);
    RepFrame(k, k', t.right, t.n);
    PathFrame(k, k', c, t.n);
  }

  /** Painting the focus black; a missing child is the head, which is black already. */
  lemma BlackenedAt(k: Pool, t: Tree, c: Path)
    requires At(k, t, c)
    ensures At(Painted(k, RootOf(t), false), if t.Nil? then Nil else t.(red := false), c)
  {
    if t.Node? {
      PaintAt(k, t, c, false);
    } else {
      assert Painted(k, HEAD, false) == k;
    }
  }

  lemma PaintAbove(k: Pool, t: Tree, c: Path, col: bool)
    requires At(k, t, c) && c != Top
    ensures At(Painted(k, c.n, col), t, Tint(c, col))
  {
    var k' := Painted(k, c.n, col);
    FocusUp(k, t, c);
    PaintAt(k, Lift(t, c), c.up, col);
    FocusUp(k', t, Tint(c, col));
  }

  lemma PaintSibling(k: Pool, t: Tree, c: Path, col: bool)
    requires At(k, t, c) && c != Top && Sibling(c).Node?
    ensures At(Painted(k, Sibling(c).n, col), t, WithSibling(c, Sibling(c).(red := col)))
  {
    var s := Sibling(c);
    var k' := Painted(k, s.n, col);
    FocusAcross(k, t, c);
    PaintAt(k, s, Across(t, c), col);
    FocusAcross(k', t, WithSibling(c, s.(red := col)));
  }

  lemma PaintLeft(k: Pool, t: Tree, c: Path, col: bool)
    requires At(k, t, c) && t.Node? && t.left.Node?
    ensures At(Painted(k, t.left.n, col), t.(left := t.left.(red := col)), c)
  {
    FocusUp(k, t.left, InLeft(t.n, t.red, t.right, c));
    PaintAt(k, t.left, InLeft(t.n, t.red, t.right, c), col);
    FocusUp(Painted(k, t.left.n, col), t.left.(red := col), InLeft(t.n, t.red, t.right, c));
  }

  lemma PaintRight(k: Pool, t: Tree, c: Path, col: bool)
    requires At(k, t, c) && t.Node? && t.right.Node?
    ensures At(Painted(k, t.right.n, col), t.(right := t.right.(red := col)), c)
  {
    FocusUp(k, t.right, InRight(t.left, t.n, t.red, c));
    PaintAt(k, t.right, InRight(t.left, t.n, t.red, c), col);
    FocusUp(Painted(k, t.right.n, col), t.right.(red := col), InRight(t.left, t.n, t.red, c));
  }

  // ----- rotations

  lemma RotateCells(k: Pool, t: Tree, c: Path)
    requires At(k, t, c) && t.Node? && t.right.Node?
    ensures Above(c) < |k.left| && t.n < |k.left| && t.right.n < |k.left| && RootOf(t.right.left) < |k.left|
    ensures k.right[t.n] == t.right.n && k.parent[t.n] == Above(c) && k.left[t.right.n] == RootOf(t.right.left)
    ensures t.n != HEAD && t.right.n != HEAD && t.n != t.right.n
    ensures Above(c) != t.n && Above(c) != t.right.n
    ensures t.right.left.Node? ==> t.right.left.n != t.n && t.right.left.n != t.right.n && t.right.left.n != Above(c) && t.right.left.n != HEAD
    ensures c.Top? <==> k.parent[HEAD] == t.n
    ensures c.InLeft? ==> k.left[c.n] == t.n && k.right[c.n] != t.n
    ensures c.InRight? ==> k.right[c.n] == t.n && k.left[c.n] != t.n
  {
    assert Rep(k, t.right, t.n);
    assert Distinct(t.right) && Rep(k, t.right.left, t.right.n);
    assert t.right.left.Node? ==> t.right.left.n in Nodes(t.right);
    assert t.right.n in Nodes(t.right);
    assert t.n in Nodes(t);
    if c != Top { TopIsRoot(k, c, t.n); }
  }

  lemma RotateReady(k: Pool, t: Tree, c: Path)
    requires At(k, t, c) && t.Node?
    ensures t.right.Node? ==> Rotatable(k, t.n)
    ensures t.left.Node? ==> Rotatable(MirrorPool(k), t.n)
  {
    if t.right.Node? { RotateCells(k, t, c); }
    if t.left.Node? {
      MirrorAt(k, t, c);
      RotateCells(MirrorPool(k), Mirror(t), MirrorPath(c));
    }
  }

  /** What the code reads in and above the hole. */
  lemma ReadAbove(k: Pool, t: Tree, c: Path)
    requires At(k, t, c)
    ensures RootOf(t) < |k.left| && k.red[RootOf(t)] == (t.Node? && t.red)
    ensures t.Node? ==> k.parent[t.n] == Above(c) && t.n != HEAD
    ensures Above(c) < |k.left| && k.red[Above(c)] == (c != Top && c.red)
    ensures c.Top? <==> k.parent[HEAD] == RootOf(t)
  {
    if c != Top { TopIsRoot(k, c, RootOf(t)); }
  }

  /** What the code reads next to the hole. */
  lemma ReadBeside(k: Pool, t: Tree, c: Path)
    requires At(k, t, c) && c != Top
    ensures c.n < |k.left| && c.n != HEAD && k.parent[c.n] == Above(c.up)
    ensures c.InLeft? ==> k.left[c.n] == RootOf(t) && k.right[c.n] == RootOf(Sibling(c))
    ensures c.InRight? ==> k.right[c.n] == RootOf(t) && k.left[c.n] == RootOf(Sibling(c))
    ensures t.Node? || Sibling(c).Node? ==> RootOf(t) != RootOf(Sibling(c))
    ensures RootOf(Sibling(c)) < |k.left| && k.red[RootOf(Sibling(c))] == (Sibling(c).Node? && Sibling(c).red)
  {
    FocusAcross(k, t, c);
    ReadAbove(k, Sibling(c), Across(t, c));
    assert RootOf(t) == HEAD || RootOf(t) in Nodes(t);
    assert Sibling(c).Node? ==> Sibling(c).n in Nodes(Sibling(c)) && Sibling(c).n in PathNodes(c);
  }

  // The cells a left rotation leaves alone.
  lemma LRotateFrame(k: Pool, t: Tree, c: Path, n: Ptr)
    requires At(k, t, c) && t.Node? && t.right.Node?
    requires n != t.n && n != t.right.n && n != RootOf(t.right.left) && n != Above(c) && n != HEAD
    requires CanRotateLeft(k, t.n)
    ensures Same(k, LRotated(k, t.n), n)
  {
    RotateCells(k, t, c);
  }

  lemma LRotateRep(k: Pool, t: Tree, c: Path)
    requires At(k, t, c) && t.Node? && t.right.Node?
    requires CanRotateLeft(k, t.n)
    ensures Rep(LRotated(k, t.n), RotatedLeft(t), Above(c))
  {
    var w, p, a, b, cc := t.n, t.right.n, t.left, t.right.left, t.right.right;
    var k' := LRotated(k, w);
    RotateCells(k, t, c);
    assert Rep(k, t.right, w) && Distinct(t.right);
    assert c != Top ==> Above(c) in PathNodes(c);
    forall n | n in Nodes(a) || n in Nodes(cc) || (n in Nodes(b) && n != b.n) ensures Same(k, k', n) {
      LRotateFrame(k, t, c, n);
    }
    RepFrame(k, k', a, w);
    RepFrame(k, k', cc, p);
    RepMove(k, k', b, p, w);
  }

  lemma LRotatePath(k: Pool, t: Tree, c: Path)
    requires At(k, t, c) && t.Node? && t.right.Node?
    requires CanRotateLeft(k, t.n)
    ensures PathRep(LRotated(k, t.n), c, t.right.n)
  {
    var k' := LRotated(k, t.n);
    RotateCells(k, t, c);
    assert t.right.n in Nodes(t) && (t.right.left.Node? ==> t.right.left.n in Nodes(t.right));
    HookPath(k, k', c, t.n, t.right.n);
  }

  lemma RotatedDistinct(t: Tree)
    requires t.Node? && t.right.Node? && Distinct(t)
    ensures Distinct(RotatedLeft(t)) && Nodes(RotatedLeft(t)) == Nodes(t)
  {
    var l := Node(t.left, t.n, t.red, t.right.left);
    assert Distinct(t.right) && Distinct(l);
    assert Nodes(t) == Nodes(t.left) + {t.n} + (Nodes(t.right.left) + {t.right.n} + Nodes(t.right.right));
    assert Nodes(l) == Nodes(t.left) + {t.n} + Nodes(t.right.left);
  }

  lemma LRotateAt(k: Pool, t: Tree, c: Path)
    requires At(k, t, c) && t.Node? && t.right.Node?
    requires CanRotateLeft(k, t.n)
    ensures At(LRotated(k, t.n), RotatedLeft(t), c)
  {
    LRotateRep(k, t, c);
    LRotatePath(k, t, c);
    RotatedDistinct(t);
  }

  // ----- right rotations are left rotations in a mirror

  ghost function MirrorPool(k: Pool): Pool { Pool(k.right, k.parent, k.left, k.red) }

  lemma {:induction false} MirrorRep(k: Pool, t: Tree, parent: Ptr)
    requires Sized(k)
    ensures Rep(MirrorPool(k), Mirror(t), parent) <==> Rep(k, t, parent)
  {
    if t.Node? {
      MirrorRep(k, t.left, t.n);
      MirrorRep(k, t.right, t.n);
    }
  }

  lemma {:induction false} MirrorPathRep(k: Pool, c: Path, hole: Ptr)
    requires Sized(k)
    ensures PathRep(MirrorPool(k), MirrorPath(c), hole) <==> PathRep(k, c, hole)
  {
    match c
    case Top =>
    case InLeft(n, _, r, up) => MirrorRep(k, r, n); MirrorPathRep(k, up, n);
    case InRight(l, n, _, up) => MirrorRep(k, l, n); MirrorPathRep(k, up, n);
  }

  lemma MirrorAt(k: Pool, t: Tree, c: Path)
    ensures At(MirrorPool(k), Mirror(t), MirrorPath(c)) <==> At(k, t, c)
  {
    MirrorTree(t);
    MirrorPathTwice(c);
    if Sized(k) {
      MirrorRep(k, t, Above(c));
      MirrorPathRep(k, c, RootOf(t));
    }
  }

  ghost function RRotated(k: Pool, w: Ptr): (k': Pool)
    requires CanRotateLeft(MirrorPool(k), w)
    ensures Sized(k') && |k'.left| == |k.left|
  {
    MirrorPool(LRotated(MirrorPool(k), w))
  }

  ghost function RotatedRight(t: Tree): Tree
    requires t.Node? && t.left.Node?
  {
    Node(t.left.left, t.left.n, t.left.red, Node(t.left.right, t.n, t.red, t.right))
  }

  lemma RRotateAt(k: Pool, t: Tree, c: Path)
    requires At(k, t, c) && t.Node? && t.left.Node?
    ensures CanRotateLeft(MirrorPool(k), t.n)
    ensures At(RRotated(k, t.n), RotatedRight(t), c)
  {
    var k', t', c' := MirrorPool(k), Mirror(t), MirrorPath(c);
    MirrorAt(k, t, c);
    RotateCells(k', t', c');
    LRotateAt(k', t', c');
    MirrorTree(t.left.left); MirrorTree(t.left.right); MirrorTree(t.right);
    MirrorPathTwice(c);
    assert Mirror(RotatedLeft(t')) == RotatedRight(t);
    MirrorAt(LRotated(k', t'.n), RotatedLeft(t'), c');
  }

  // ----- putting a new leaf into the hole

  ghost function Attached(k: Pool, c: Path, n: Ptr): (k': Pool)
    requires Sized(k) && Above(c) < |k.left|
    ensures Sized(k') && |k'.left| == |k.left|
  {
    match c
    case Top => k.(parent := k.parent[HEAD := n])
    case InLeft(w, _, _, _) => k.(left := k.left[w := n])
    case InRight(_, w, _, _) => k.(right := k.right[w := n])
  }

  lemma AttachAt(k: Pool, c: Path, n: Ptr)
    requires At(k, Nil, c) && n !in PathNodes(c) && n != HEAD
    requires Cell(k, n, HEAD, Above(c), HEAD, true) && Above(c) < |k.left|
    ensures At(Attached(k, c, n), Node(Nil, n, true, Nil), c)
  {
    var k' := Attached(k, c, n);
    match c
    case Top =>
    case InLeft(w, _, r, up) => RepFrame(k, k', r, w); PathFrame(k, k', up, w);
    case InRight(l, w, _, up) => RepFrame(k, k', l, w); PathFrame(k, k', up, w);
  }

  // ----- taking out a node with at most one child

  ghost predicate CanSplice(k: Pool, e: Ptr, x: Ptr) {
    Sized(k) && e < |k.left| && x < |k.left| && k.parent[e] < |k.left|
  }

  ghost function Spliced(k: Pool, e: Ptr, x: Ptr): (k': Pool)
    requires CanSplice(k, e, x)
    ensures Sized(k') && |k'.left| == |k.left|
  {
    var k1 := Hook(k, k.parent[e], e, x);
    if x == HEAD then k1 else k1.(parent := k1.parent[x := k.parent[e]])
  }

  lemma SpliceCells(k: Pool, t: Tree, c: Path)
    requires At(k, t, c) && t.Node?
    ensures Above(c) < |k.left| && t.n < |k.left| && RootOf(t.left) < |k.left| && RootOf(t.right) < |k.left|
    ensures k.parent[t.n] == Above(c) && Above(c) != t.n && t.n != HEAD
    ensures c != Top ==> k.parent[HEAD] in PathNodes(c)
    ensures c.Top? <==> k.parent[HEAD] == t.n
    ensures c.InLeft? ==> k.left[c.n] == t.n && k.right[c.n] != t.n
    ensures c.InRight? ==> k.right[c.n] == t.n && k.left[c.n] != t.n
  {
    assert t.n in Nodes(t);
    assert Rep(k, t.left, t.n) && Rep(k, t.right, t.n);
    if c != Top { TopIsRoot(k, c, t.n); }
  }

  lemma SpliceAt(k: Pool, t: Tree, c: Path, x: Tree)
    requires At(k, t, c) && t.Node?
    requires (t.left.Nil? && x == t.right) || (t.right.Nil? && x == t.left)
    requires CanSplice(k, t.n, RootOf(x))
    ensures At(Spliced(k, t.n, RootOf(x)), x, c)
  {
    var k' := Spliced(k, t.n, RootOf(x));
    SpliceCells(k, t, c);
    assert c != Top ==> Above(c) in PathNodes(c);
    assert Nodes(x) <= Nodes(t) && t.n !in Nodes(x);
    RepMove(k, k', x, t.n, Above(c));
    HookPath(k, k', c, t.n, RootOf(x));
  }

  // ----- one node taking the place of another

  ghost predicate CanReplaceNode(k: Pool, e: Ptr, p: Ptr) {
    Sized(k) && e < |k.left| && p < |k.left|
    && k.left[e] < |k.left| && k.right[e] < |k.left| && k.parent[e] < |k.left|
  }

  ghost function Replaced(k: Pool, e: Ptr, p: Ptr): (k': Pool)
    requires CanReplaceNode(k, e, p)
    ensures Sized(k') && |k'.left| == |k.left|
  {
    var l, r, u := k.left[e], k.right[e], k.parent[e];
    var k1 := Hook(k, u, e, p);
    var q1 := if l == HEAD then k1.parent else k1.parent[l := p];
    var q2 := if r == HEAD then q1 else q1[r := p];
    Pool(k1.left[p := l], q2[p := u], k1.right[p := r], k1.red[p := k.red[e]])
  }

  ghost predicate CanReplace(k: Pool, t: Tree, c: Path, p: Ptr) {
    && At(k, t, c) && t.Node? && p != HEAD && p !in Nodes(t) && p !in PathNodes(c)
    && CanReplaceNode(k, t.n, p)
  }

  lemma ReplaceFrame(k: Pool, t: Tree, c: Path, p: Ptr, n: Ptr)
    requires CanReplace(k, t, c, p)
    requires n != p && n != RootOf(t.left) && n != RootOf(t.right) && n != Above(c) && n != HEAD
    ensures Same(k, Replaced(k, t.n, p), n)
  {
    SpliceCells(k, t, c);
  }

  lemma ReplaceSide(k: Pool, t: Tree, c: Path, p: Ptr, side: Tree)
    requires CanReplace(k, t, c, p) && (side == t.left || side == t.right)
    ensures Rep(Replaced(k, t.n, p), side, p)
  {
    var k' := Replaced(k, t.n, p);
    SpliceCells(k, t, c);
    assert c != Top ==> Above(c) in PathNodes(c);
    assert t.left.Node? ==> t.left.n in Nodes(t.left);
    assert t.right.Node? ==> t.right.n in Nodes(t.right);
    forall n | n in Nodes(side) && n != RootOf(side) ensures Same(k, k', n) {
      ReplaceFrame(k, t, c, p, n);
    }
    RepMove(k, k', side, t.n, p);
  }

  lemma ReplacePath(k: Pool, t: Tree, c: Path, p: Ptr)
    requires CanReplace(k, t, c, p)
    ensures PathRep(Replaced(k, t.n, p), c, p)
  {
    SpliceCells(k, t, c);
    assert t.left.Node? ==> t.left.n in Nodes(t.left);
    assert t.right.Node? ==> t.right.n in Nodes(t.right);
    HookPath(k, Replaced(k, t.n, p), c, t.n, p);
  }

  lemma ReplaceAt(k: Pool, t: Tree, c: Path, p: Ptr)
    requires CanReplace(k, t, c, p)
    ensures At(Replaced(k, t.n, p), t.(n := p), c)
  {
    ReplaceSide(k, t, c, p, t.left);
    ReplaceSide(k, t, c, p, t.right);
    ReplacePath(k, t, c, p);
    SpliceCells(k, t, c);
  }
}
