/** The steps of the loop that restores the black count after a removal. */
module EraseFix {
  import opened Trees
  import opened NodePool
  import opened Balance

  /** The sibling's child on the side of the hole. */
  ghost function Near(c: Path): Tree
    requires c != Top && Sibling(c).Node?
  {
    if c.InLeft? then c.right.left else c.left.right
  }

  /** The sibling's child away from the hole. */
  ghost function Far(c: Path): Tree
    requires c != Top && Sibling(c).Node?
  {
    if c.InLeft? then c.right.right else c.left.left
  }

  /** The path of the hole once its parent has been rotated down and its sibling up. */
  ghost function SiblingUp(c: Path): (c': Path)
    requires c != Top && Sibling(c).Node?
    ensures c' != Top
  {
    var s := Sibling(c);
    match c
    case InLeft(n, red, _, up) => InLeft(n, red, s.left, InLeft(s.n, s.red, s.right, up))
    case InRight(_, n, red, up) => InRight(s.right, n, red, InRight(s.left, s.n, s.red, up))
  }

  lemma SiblingUpLeftAt(k: Pool, t: Tree, c: Path)
    requires At(k, t, c) && c.InLeft? && Sibling(c).Node?
    ensures CanRotateLeft(k, c.n) && At(LRotated(k, c.n), t, SiblingUp(c))
  {
    var u, c' := Lift(t, c), SiblingUp(c);
    FocusUp(k, t, c);
    RotateCells(k, u, c.up);
    LRotateAt(k, u, c.up);
    FocusUp(LRotated(k, c.n), t, c');
    FocusUp(LRotated(k, c.n), Lift(t, c'), c'.up);
  }

  lemma SiblingUpRightAt(k: Pool, t: Tree, c: Path)
    requires At(k, t, c) && c.InRight? && Sibling(c).Node?
    ensures CanRotateLeft(MirrorPool(k), c.n) && At(RRotated(k, c.n), t, SiblingUp(c))
  {
    var u, c' := Lift(t, c), SiblingUp(c);
    FocusUp(k, t, c);
    RRotateAt(k, u, c.up);
    FocusUp(RRotated(k, c.n), t, c');
    FocusUp(RRotated(k, c.n), Lift(t, c'), c'.up);
  }

  lemma SiblingUpOrder(t: Tree, c: Path)
    requires c != Top && Sibling(c).Node?
    ensures Around(t, SiblingUp(c)) == Around(t, c)
  {
    var c' := SiblingUp(c);
    AroundUp(t, c);
    AroundUp(t, c');
    AroundUp(Lift(t, c'), c'.up);
    var s := Sibling(c);
    if c.InLeft? {
      TurnedOrder(t, c.n, s.left, s.n, s.right, c.red, s.red, c.red, s.red);
    } else {
      TurnedOrder(s.left, s.n, s.right, c.n, t, s.red, c.red, s.red, c.red);
    }
    SameAround(Lift(t, c), Lift(Lift(t, c'), c'.up), c.up);
  }

  // ----- red sibling

  ghost function RedSibling(c: Path): (c': Path)
    requires c != Top && Sibling(c).Node?
    ensures c' != Top && Sibling(c').Node?
  {
    Tint(WithSibling(c, Sibling(c).(red := false)), true)
  }

  lemma RedSiblingAt(k: Pool, t: Tree, c: Path)
    requires At(k, t, c) && c != Top && Sibling(c).Node?
    ensures At(Painted(Painted(k, Sibling(c).n, false), c.n, true), t, RedSibling(c))
  {
    PaintSibling(k, t, c, false);
    PaintAbove(Painted(k, Sibling(c).n, false), t, WithSibling(c, Sibling(c).(red := false)), true);
  }

  lemma RedSiblingState(t: Tree, c: Path, b: nat)
    requires EraseState(t, c, b) && c != Top && IsRed(Sibling(c))
    ensures Sibling(c).Node?
    ensures EraseState(t, SiblingUp(RedSibling(c)), b)
    ensures var s := Sibling(SiblingUp(RedSibling(c))); s.Node? && !s.red
  {
    SiblingExists(t, c, b);
    var c' := SiblingUp(RedSibling(c));
    assert Bal(Near(c), b + 1) && Bal(Far(c), b + 1) && NoRedRed(Near(c)) && NoRedRed(Far(c));
    assert PathBal(c'.up, b + 1) && PathNoRedRed(c'.up) && TopBlack(c'.up);
  }

  // ----- both nephews black

  lemma BlackNephewsState(t: Tree, c: Path, b: nat)
    requires EraseState(t, c, b) && c != Top && !IsRed(t) && !IsRed(Sibling(c))
    requires Sibling(c).Node? && !IsRed(Near(c)) && !IsRed(Far(c))
    ensures EraseState(Lift(t, WithSibling(c, Sibling(c).(red := true))), c.up, if c.red then b else b + 1)
  {
    SiblingExists(t, c, b);
    var s := Sibling(c).(red := true);
    assert Bal(s, b) && NoRedRed(s);
  }

  lemma PaintedOrder(t: Tree, c: Path, red: bool)
    requires c != Top && Sibling(c).Node?
    ensures Around(t, WithSibling(c, Sibling(c).(red := red))) == Around(t, c)
  {
    assert InOrder(Sibling(c).(red := red)) == InOrder(Sibling(c));
  }

  // ----- far nephew black

  /** The sibling after its near child has been rotated above it. */
  ghost function NearUp(c: Path): (s: Tree)
    requires c != Top && Sibling(c).Node? && Near(c).Node?
    ensures s.Node?
  {
    var s, m := Sibling(c), Near(c);
    if c.InLeft? then Node(m.left, m.n, false, Node(m.right, s.n, true, s.right))
    else Node(Node(s.left, s.n, true, m.left), m.n, false, m.right)
  }

  lemma NearUpLeftAt(k: Pool, t: Tree, c: Path)
    requires At(k, t, c) && c.InLeft? && Sibling(c).Node? && Near(c).Node?
    ensures var k1 := Painted(Painted(k, Near(c).n, false), Sibling(c).n, true);
      CanRotateLeft(MirrorPool(k1), Sibling(c).n) && At(RRotated(k1, Sibling(c).n), t, WithSibling(c, NearUp(c)))
  {
    var s, a := Sibling(c), Across(t, c);
    FocusAcross(k, t, c);
    PaintLeft(k, s, a, false);
    var s1 := s.(left := s.left.(red := false));
    PaintAt(Painted(k, Near(c).n, false), s1, a, true);
    var k1 := Painted(Painted(k, Near(c).n, false), s.n, true);
    RRotateAt(k1, s1.(red := true), a);
    FocusAcross(RRotated(k1, s.n), t, WithSibling(c, NearUp(c)));
  }

  lemma NearUpRightAt(k: Pool, t: Tree, c: Path)
    requires At(k, t, c) && c.InRight? && Sibling(c).Node? && Near(c).Node?
    ensures var k1 := Painted(Painted(k, Near(c).n, false), Sibling(c).n, true);
      CanRotateLeft(k1, Sibling(c).n) && At(LRotated(k1, Sibling(c).n), t, WithSibling(c, NearUp(c)))
  {
    var s, a := Sibling(c), Across(t, c);
    FocusAcross(k, t, c);
    PaintRight(k, s, a, false);
    var s1 := s.(right := s.right.(red := false));
    PaintAt(Painted(k, Near(c).n, false), s1, a, true);
    var k1 := Painted(Painted(k, Near(c).n, false), s.n, true);
    RotateCells(k1, s1.(red := true), a);
    LRotateAt(k1, s1.(red := true), a);
    FocusAcross(LRotated(k1, s.n), t, WithSibling(c, NearUp(c)));
  }

  lemma NearUpState(t: Tree, c: Path, b: nat)
    requires EraseState(t, c, b) && c != Top && Sibling(c).Node? && !IsRed(Sibling(c))
    requires IsRed(Near(c)) && !IsRed(Far(c))
    ensures EraseState(t, WithSibling(c, NearUp(c)), b)
    ensures var c' := WithSibling(c, NearUp(c)); !IsRed(Sibling(c')) && IsRed(Far(c'))
  {
    SiblingExists(t, c, b);
    var m := Near(c);
    assert Bal(m, b) && NoRedRed(m) && Bal(Far(c), b);
    assert Bal(m.left, b) && Bal(m.right, b);
    var f := Far(WithSibling(c, NearUp(c)));
    assert Bal(f, b) && NoRedRed(f);
    assert Bal(NearUp(c), b + 1) && NoRedRed(NearUp(c));
  }

  lemma NearUpOrder(t: Tree, c: Path)
    requires c != Top && Sibling(c).Node? && Near(c).Node?
    ensures Around(t, WithSibling(c, NearUp(c))) == Around(t, c)
  {
    var s, m := Sibling(c), Near(c);
    var x, y, z := InOrder(m.left), InOrder(m.right), InOrder(Far(c));
    if c.InLeft? {
      assert InOrder(s) == InOrder(m) + [s.n] + z;
      assert InOrder(NearUp(c)) == x + [m.n] + InOrder(NearUp(c).right);
      assert x + [m.n] + y + [s.n] + z == x + [m.n] + (y + [s.n] + z);
    } else {
      assert InOrder(s) == z + [s.n] + InOrder(m);
      assert InOrder(NearUp(c)) == InOrder(NearUp(c).left) + [m.n] + y;
      assert z + [s.n] + (x + [m.n] + y) == z + [s.n] + x + [m.n] + y;
    }
    assert InOrder(NearUp(c)) == InOrder(s);
  }

  // ----- far nephew red

  /** The colours set before the last rotation. */
  ghost function FarTinted(c: Path): (c': Path)
    requires c != Top && Sibling(c).Node? && Far(c).Node?
    ensures c' != Top && Sibling(c').Node?
  {
    var s := Sibling(c);
    match c
    case InLeft(n, red, _, up) => InLeft(n, false, s.(red := red, right := s.right.(red := false)), up)
    case InRight(_, n, red, up) => InRight(s.(red := red, left := s.left.(red := false)), n, false, up)
  }

  lemma FarTintedAt(k: Pool, t: Tree, c: Path)
    requires At(k, t, c) && c != Top && Sibling(c).Node? && Far(c).Node?
    ensures At(Painted(Painted(Painted(k, Sibling(c).n, c.red), c.n, false), Far(c).n, false), t, FarTinted(c))
  {
    var s := Sibling(c).(red := c.red);
    var k1 := Painted(k, s.n, c.red);
    var k2 := Painted(k1, c.n, false);
    var k3 := Painted(k2, Far(c).n, false);
    PaintSibling(k, t, c, c.red);
    var c1 := WithSibling(c, s);
    PaintAbove(k1, t, c1, false);
    var c2 := Tint(c1, false);
    FocusAcross(k2, t, c2);
    if c.InLeft? { PaintRight(k2, s, Across(t, c2), false); } else { PaintLeft(k2, s, Across(t, c2), false); }
    FocusAcross(k3, t, FarTinted(c));
  }

  lemma FarTintedOrder(t: Tree, c: Path)
    requires c != Top && Sibling(c).Node? && Far(c).Node?
    ensures Around(t, FarTinted(c)) == Around(t, c)
  {
    assert InOrder(Far(c).(red := false)) == InOrder(Far(c));
    assert InOrder(Sibling(FarTinted(c))) == InOrder(Sibling(c));
  }

  lemma FarState(t: Tree, c: Path, b: nat)
    requires EraseState(t, c, b) && c != Top && !IsRed(t) && Sibling(c).Node? && !IsRed(Sibling(c)) && IsRed(Far(c))
    ensures Settled(t, SiblingUp(FarTinted(c)), b)
  {
    SiblingExists(t, c, b);
    var c' := SiblingUp(FarTinted(c));
    var f := Far(c).(red := false);
    assert Bal(Near(c), b) && NoRedRed(Near(c)) && Bal(Far(c), b) && NoRedRed(Far(c));
    assert Bal(f, b + 1) && NoRedRed(f);
    assert PathBal(c'.up, b + 1) && PathNoRedRed(c'.up) && TopBlack(c'.up);
  }

  // ----- the steps as the loop takes them

  lemma RedSiblingStep(k: Pool, t: Tree, c: Path, b: nat)
    requires At(k, t, c) && EraseState(t, c, b) && c != Top && IsRed(Sibling(c))
    ensures var k1 := Painted(Painted(k, Sibling(c).n, false), c.n, true);
      var c' := SiblingUp(RedSibling(c));
      && (c.InLeft? ==> Rotatable(k1, c.n) && At(LRotated(k1, c.n), t, c'))
      && (c.InRight? ==> Rotatable(MirrorPool(k1), c.n) && At(RRotated(k1, c.n), t, c'))
      && EraseState(t, c', b) && Sibling(c').Node? && !Sibling(c').red && Around(t, c') == Around(t, c)
  {
    var k1 := Painted(Painted(k, Sibling(c).n, false), c.n, true);
    var c1 := RedSibling(c);
    RedSiblingAt(k, t, c);
    FocusUp(k1, t, c1);
    RotateReady(k1, Lift(t, c1), c1.up);
    if c.InLeft? { SiblingUpLeftAt(k1, t, c1); } else { SiblingUpRightAt(k1, t, c1); }
    RedSiblingState(t, c, b);
    PaintedOrder(t, c, false);
    SiblingUpOrder(t, c1);
  }

  lemma BlackNephewsStep(k: Pool, t: Tree, c: Path, b: nat)
    requires At(k, t, c) && EraseState(t, c, b) && c != Top && !IsRed(t)
    requires Sibling(c).Node? && !IsRed(Sibling(c)) && !IsRed(Near(c)) && !IsRed(Far(c))
    ensures var t' := Lift(t, WithSibling(c, Sibling(c).(red := true)));
      && At(Painted(k, Sibling(c).n, true), t', c.up)
      && EraseState(t', c.up, if c.red then b else b + 1) && Around(t', c.up) == Around(t, c)
  {
    var c1 := WithSibling(c, Sibling(c).(red := true));
    PaintSibling(k, t, c, true);
    FocusUp(Painted(k, Sibling(c).n, true), t, c1);
    BlackNephewsState(t, c, b);
    PaintedOrder(t, c, true);
    AroundUp(t, c1);
  }

  lemma NearUpStep(k: Pool, t: Tree, c: Path, b: nat)
    requires At(k, t, c) && EraseState(t, c, b) && c != Top && Sibling(c).Node? && !IsRed(Sibling(c))
    requires IsRed(Near(c)) && !IsRed(Far(c))
    ensures var k1 := Painted(Painted(k, Near(c).n, false), Sibling(c).n, true);
      var c' := WithSibling(c, NearUp(c));
      && (c.InLeft? ==> Rotatable(MirrorPool(k1), Sibling(c).n) && At(RRotated(k1, Sibling(c).n), t, c'))
      && (c.InRight? ==> Rotatable(k1, Sibling(c).n) && At(LRotated(k1, Sibling(c).n), t, c'))
      && EraseState(t, c', b) && !IsRed(Sibling(c')) && IsRed(Far(c')) && Around(t, c') == Around(t, c)
  {
    var s, a, m := Sibling(c), Across(t, c), Near(c);
    FocusAcross(k, t, c);
    if c.InLeft? {
      PaintLeft(k, s, a, false);
      PaintAt(Painted(k, m.n, false), s.(left := m.(red := false)), a, true);
      RotateReady(Painted(Painted(k, m.n, false), s.n, true), s.(left := m.(red := false), red := true), a);
      NearUpLeftAt(k, t, c);
    } else {
      PaintRight(k, s, a, false);
      PaintAt(Painted(k, m.n, false), s.(right := m.(red := false)), a, true);
      RotateReady(Painted(Painted(k, m.n, false), s.n, true), s.(right := m.(red := false), red := true), a);
      NearUpRightAt(k, t, c);
    }
    NearUpState(t, c, b);
    NearUpOrder(t, c);
  }

  lemma FarStep(k: Pool, t: Tree, c: Path, b: nat)
    requires At(k, t, c) && EraseState(t, c, b) && c != Top && !IsRed(t)
    requires Sibling(c).Node? && !IsRed(Sibling(c)) && IsRed(Far(c))
    ensures var k1 := Painted(Painted(Painted(k, Sibling(c).n, c.red), c.n, false), Far(c).n, false);
      var c' := SiblingUp(FarTinted(c));
      && (c.InLeft? ==> Rotatable(k1, c.n) && At(LRotated(k1, c.n), t, c'))
      && (c.InRight? ==> Rotatable(MirrorPool(k1), c.n) && At(RRotated(k1, c.n), t, c'))
      && Settled(t, c', b) && Around(t, c') == Around(t, c)
  {
    var k1 := Painted(Painted(Painted(k, Sibling(c).n, c.red), c.n, false), Far(c).n, false);
    var c1 := FarTinted(c);
    FarTintedAt(k, t, c);
    FocusUp(k1, t, c1);
    RotateReady(k1, Lift(t, c1), c1.up);
    if c.InLeft? { SiblingUpLeftAt(k1, t, c1); } else { SiblingUpRightAt(k1, t, c1); }
    FarState(t, c, b);
    FarTintedOrder(t, c);
    SiblingUpOrder(t, c1);
  }

  /** What the code reads below the sibling. */
  lemma ReadNephews(k: Pool, t: Tree, c: Path)
    requires At(k, t, c) && c != Top && Sibling(c).Node?
    ensures var s := Sibling(c);
      s.n < |k.left|
      && k.left[s.n] == RootOf(s.left) && RootOf(s.left) < |k.left| && k.red[RootOf(s.left)] == IsRed(s.left)
      && k.right[s.n] == RootOf(s.right) && RootOf(s.right) < |k.left| && k.red[RootOf(s.right)] == IsRed(s.right)
  {
    FocusAcross(k, t, c);
    var s, a := Sibling(c), Across(t, c);
    FocusUp(k, s.left, InLeft(s.n, s.red, s.right, a));
    ReadAbove(k, s.left, InLeft(s.n, s.red, s.right, a));
    FocusUp(k, s.right, InRight(s.left, s.n, s.red, a));
    ReadAbove(k, s.right, InRight(s.left, s.n, s.red, a));
  }
}
