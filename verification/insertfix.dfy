/** The steps of the loop that restores the colours after an insertion. */
module InsertFix {
  import opened Trees
  import opened NodePool
  import opened Balance

  /** A red parent is never the root, so the grandparent is a node, and it is black. */
  lemma GrandparentExists(t: Tree, c: Path, b: nat)
    requires InsertState(t, c, b) && PathRed(c)
    ensures c.up != Top && !c.up.red && PathNoRedRed(c.up) && TopBlack(c.up)
    ensures !IsRed(Sibling(c))
  {}

  // ----- red uncle

  ghost function Recoloured(t: Tree, c: Path): Tree
    requires c != Top && c.up != Top && Sibling(c.up).Node?
  {
    Lift(Lift(t, Tint(c, false)), Tint(WithSibling(c.up, Sibling(c.up).(red := false)), true))
  }

  lemma RecolourAt(k: Pool, t: Tree, c: Path)
    requires At(k, t, c) && c != Top && c.up != Top && Sibling(c.up).Node?
    ensures At(Painted(Painted(Painted(k, c.n, false), Sibling(c.up).n, false), c.up.n, true), Recoloured(t, c), c.up.up)
  {
    var k1 := Painted(k, c.n, false);
    var c1 := Tint(c, false);
    PaintAbove(k, t, c, false);
    FocusUp(k1, t, c1);
    var t1 := Lift(t, c1);
    var k2 := Painted(k1, Sibling(c.up).n, false);
    PaintSibling(k1, t1, c1.up, false);
    var c2 := WithSibling(c.up, Sibling(c.up).(red := false));
    PaintAbove(k2, t1, c2, true);
    FocusUp(Painted(k2, c.up.n, true), t1, Tint(c2, true));
  }

  lemma RecolourState(t: Tree, c: Path, b: nat)
    requires InsertState(t, c, b) && PathRed(c) && c.up != Top && IsRed(Sibling(c.up))
    ensures InsertState(Recoloured(t, c), c.up.up, b + 1)
  {
    var u := c.up;
    assert PathBal(u, b) && PathNoRedRed(u) && TopBlack(u) && !u.red;
    assert Bal(Sibling(u), b) && NoRedRed(Sibling(u));
    assert Bal(Sibling(u).(red := false), b + 1) && NoRedRed(Sibling(u).(red := false));
    assert Bal(Sibling(c), b) && NoRedRed(Sibling(c));
    var p := Lift(t, Tint(c, false));
    assert Bal(p, b + 1) && NoRedRed(p);
  }

  lemma RecolourOrder(t: Tree, c: Path)
    requires c != Top && c.up != Top && Sibling(c.up).Node?
    ensures Around(Recoloured(t, c), c.up.up) == Around(t, c)
  {
    AroundUp(t, c);
    AroundUp(Lift(t, c), c.up);
    assert InOrder(Lift(t, Tint(c, false))) == InOrder(Lift(t, c));
    assert InOrder(Sibling(c.up).(red := false)) == InOrder(Sibling(c.up));
    assert InOrder(Recoloured(t, c)) == InOrder(Lift(Lift(t, c), c.up));
  }

  // ----- black uncle: outer grandchild

  /** The path above t once its grandparent has been rotated down to the other side. */
  ghost function Outer(c: Path): Path
    requires c != Top && c.up != Top && c.InLeft? == c.up.InLeft?
  {
    if c.InLeft? then InLeft(c.n, false, Node(c.right, c.up.n, true, c.up.right), c.up.up)
    else InRight(Node(c.up.left, c.up.n, true, c.left), c.n, false, c.up.up)
  }

  ghost function RecolouredOuter(k: Pool, c: Path): Pool
    requires c != Top && c.up != Top
  {
    Painted(Painted(k, c.n, false), c.up.n, true)
  }

  lemma OuterPaint(k: Pool, t: Tree, c: Path)
    requires At(k, t, c) && c != Top && c.up != Top
    ensures At(RecolouredOuter(k, c), Lift(Lift(t, Tint(c, false)), Tint(c.up, true)), c.up.up)
  {
    var k1 := Painted(k, c.n, false);
    var c1 := Tint(c, false);
    PaintAbove(k, t, c, false);
    FocusUp(k1, t, c1);
    PaintAbove(k1, Lift(t, c1), c.up, true);
    FocusUp(RecolouredOuter(k, c), Lift(t, c1), Tint(c.up, true));
  }

  lemma OuterLeftAt(k: Pool, t: Tree, c: Path)
    requires At(k, t, c) && c.InLeft? && c.up.InLeft?
    ensures CanRotateLeft(MirrorPool(RecolouredOuter(k, c)), c.up.n)
    ensures At(RRotated(RecolouredOuter(k, c), c.up.n), t, Outer(c))
  {
    var k1 := RecolouredOuter(k, c);
    var g := Lift(Lift(t, Tint(c, false)), Tint(c.up, true));
    OuterPaint(k, t, c);
    RRotateAt(k1, g, c.up.up);
    assert RotatedRight(g) == Lift(t, Outer(c));
    FocusUp(RRotated(k1, c.up.n), t, Outer(c));
  }

  lemma OuterRightAt(k: Pool, t: Tree, c: Path)
    requires At(k, t, c) && c.InRight? && c.up.InRight?
    ensures CanRotateLeft(RecolouredOuter(k, c), c.up.n)
    ensures At(LRotated(RecolouredOuter(k, c), c.up.n), t, Outer(c))
  {
    var k1 := RecolouredOuter(k, c);
    var g := Lift(Lift(t, Tint(c, false)), Tint(c.up, true));
    OuterPaint(k, t, c);
    RotateCells(k1, g, c.up.up);
    LRotateAt(k1, g, c.up.up);
    assert RotatedLeft(g) == Lift(t, Outer(c));
    FocusUp(LRotated(k1, c.up.n), t, Outer(c));
  }

  lemma OuterState(t: Tree, c: Path, b: nat)
    requires InsertState(t, c, b) && PathRed(c) && c.up != Top && c.InLeft? == c.up.InLeft? && !IsRed(Sibling(c.up))
    ensures InsertState(t, Outer(c), b) && !PathRed(Outer(c))
  {
    var u := c.up;
    assert PathBal(u, b) && PathNoRedRed(u) && TopBlack(u) && !u.red;
    assert Bal(Sibling(u), b) && NoRedRed(Sibling(u));
    assert Bal(Sibling(c), b) && NoRedRed(Sibling(c)) && !IsRed(Sibling(c));
    assert PathBal(u.up, b + 1) && PathNoRedRed(u.up);
    var s := Sibling(Outer(c));
    assert Bal(s, b) && NoRedRed(s);
  }

  lemma OuterOrder(t: Tree, c: Path)
    requires c != Top && c.up != Top && c.InLeft? == c.up.InLeft?
    ensures Around(t, Outer(c)) == Around(t, c)
  {
    AroundUp(t, c);
    AroundUp(Lift(t, c), c.up);
    AroundUp(t, Outer(c));
    if c.InLeft? {
      TurnedOrder(t, c.n, c.right, c.up.n, c.up.right, c.red, c.up.red, false, true);
    } else {
      TurnedOrder(c.up.left, c.up.n, c.left, c.n, t, true, false, c.up.red, c.red);
    }
    SameAround(Lift(Lift(t, c), c.up), Lift(t, Outer(c)), c.up.up);
  }

  // ----- black uncle: inner grandchild

  /** The parent and the path above it after it has been rotated below t. */
  ghost function InnerTree(t: Tree, c: Path): Tree
    requires c != Top && t.Node?
  {
    if c.InLeft? then Node(t.right, c.n, c.red, c.right) else Node(c.left, c.n, c.red, t.left)
  }

  ghost function InnerPath(t: Tree, c: Path): Path
    requires c != Top && t.Node?
  {
    if c.InLeft? then InRight(t.left, t.n, t.red, c.up) else InLeft(t.n, t.red, t.right, c.up)
  }

  lemma InnerLeftAt(k: Pool, t: Tree, c: Path)
    requires At(k, t, c) && c.InRight? && t.Node?
    ensures CanRotateLeft(k, c.n) && At(LRotated(k, c.n), InnerTree(t, c), InnerPath(t, c))
  {
    FocusUp(k, t, c);
    RotateCells(k, Lift(t, c), c.up);
    LRotateAt(k, Lift(t, c), c.up);
    FocusUp(LRotated(k, c.n), InnerTree(t, c), InnerPath(t, c));
  }

  lemma InnerRightAt(k: Pool, t: Tree, c: Path)
    requires At(k, t, c) && c.InLeft? && t.Node?
    ensures CanRotateLeft(MirrorPool(k), c.n) && At(RRotated(k, c.n), InnerTree(t, c), InnerPath(t, c))
  {
    FocusUp(k, t, c);
    RRotateAt(k, Lift(t, c), c.up);
    FocusUp(RRotated(k, c.n), InnerTree(t, c), InnerPath(t, c));
  }

  lemma InnerState(t: Tree, c: Path, b: nat)
    requires InsertState(t, c, b) && PathRed(c)
    ensures InsertState(InnerTree(t, c), InnerPath(t, c), b) && PathRed(InnerPath(t, c))
  {
    assert Bal(Sibling(c), b) && NoRedRed(Sibling(c)) && !IsRed(Sibling(c));
    assert PathBal(c.up, b) && PathNoRedRed(c.up);
  }

  lemma InnerOrder(t: Tree, c: Path)
    requires c != Top && t.Node?
    ensures Around(InnerTree(t, c), InnerPath(t, c)) == Around(t, c)
  {
    AroundUp(t, c);
    AroundUp(InnerTree(t, c), InnerPath(t, c));
    var g' := Lift(InnerTree(t, c), InnerPath(t, c));
    if c.InLeft? {
      TurnedOrder(t.left, t.n, t.right, c.n, c.right, t.red, c.red, g'.red, g'.right.red);
    } else {
      TurnedOrder(c.left, c.n, t.left, t.n, t.right, g'.left.red, g'.red, c.red, t.red);
    }
    SameAround(Lift(t, c), g', c.up);
  }

  // ----- the steps as the loop takes them

  lemma RecolourStep(k: Pool, t: Tree, c: Path, b: nat)
    requires At(k, t, c) && InsertState(t, c, b) && PathRed(c) && c.up != Top && IsRed(Sibling(c.up))
    ensures At(Painted(Painted(Painted(k, c.n, false), Sibling(c.up).n, false), c.up.n, true), Recoloured(t, c), c.up.up)
    ensures InsertState(Recoloured(t, c), c.up.up, b + 1)
    ensures Around(Recoloured(t, c), c.up.up) == Around(t, c)
  {
    RecolourAt(k, t, c);
    RecolourState(t, c, b);
    RecolourOrder(t, c);
  }

  lemma InnerStep(k: Pool, t: Tree, c: Path, b: nat)
    requires At(k, t, c) && InsertState(t, c, b) && PathRed(c)
    ensures c.InRight? ==> Rotatable(k, c.n) && At(LRotated(k, c.n), InnerTree(t, c), InnerPath(t, c))
    ensures c.InLeft? ==> Rotatable(MirrorPool(k), c.n) && At(RRotated(k, c.n), InnerTree(t, c), InnerPath(t, c))
    ensures InsertState(InnerTree(t, c), InnerPath(t, c), b) && PathRed(InnerPath(t, c))
    ensures Around(InnerTree(t, c), InnerPath(t, c)) == Around(t, c)
  {
    FocusUp(k, t, c);
    RotateReady(k, Lift(t, c), c.up);
    if c.InRight? { InnerLeftAt(k, t, c); } else { InnerRightAt(k, t, c); }
    InnerState(t, c, b);
    InnerOrder(t, c);
  }

  lemma OuterStep(k: Pool, t: Tree, c: Path, b: nat)
    requires At(k, t, c) && InsertState(t, c, b) && PathRed(c) && c.up != Top && !IsRed(Sibling(c.up))
    requires c.InLeft? == c.up.InLeft?
    ensures var k1 := RecolouredOuter(k, c);
      && (c.InRight? ==> Rotatable(k1, c.up.n) && At(LRotated(k1, c.up.n), t, Outer(c)))
      && (c.InLeft? ==> Rotatable(MirrorPool(k1), c.up.n) && At(RRotated(k1, c.up.n), t, Outer(c)))
    ensures InsertState(t, Outer(c), b) && !PathRed(Outer(c))
    ensures Around(t, Outer(c)) == Around(t, c)
  {
    OuterPaint(k, t, c);
    RotateReady(RecolouredOuter(k, c), Lift(Lift(t, Tint(c, false)), Tint(c.up, true)), c.up.up);
    if c.InRight? { OuterRightAt(k, t, c); } else { OuterLeftAt(k, t, c); }
    OuterState(t, c, b);
    OuterOrder(t, c);
  }
}
