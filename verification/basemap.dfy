module BaseMaps {
  import opened Wrappers
  import opened Trees
  import opened NodePool
  import opened Balance
  import opened InsertFix
  import opened EraseFix
  import opened Positions
  import opened Unlink

  class BaseMap {
    var left: seq<Ptr>
    var parent: seq<Ptr>
    var right: seq<Ptr>
    var red: seq<bool>
    var size: nat
    ghost var tree: Tree

    // An empty map: only the head, linked to itself.
    constructor ()
      ensures Valid() && tree == Nil && |left| == 1
    {
      left, parent, right, red := [HEAD], [HEAD], [HEAD], [false];
      size, tree := 0, Nil;
      new;
      assert Bal(Nil, 0);
    }

    ghost function Links(): Pool
      reads this
    {
      Pool(left, parent, right, red)
    }

    method LRotate(w: Ptr)
      requires Rotatable(Links(), w)
      modifies this`left, this`parent, this`right
      ensures Links() == LRotated(old(Links()), w) && SameEnds()
    {
      var p := right[w];
      right := right[w := left[p]];
      if left[p] != HEAD { parent := parent[left[p] := w]; }
      parent := parent[p := parent[w]];
      if w == parent[HEAD] {
        parent := parent[HEAD := p];
      } else if w == left[parent[w]] {
        left := left[parent[w] := p];
      } else {
        right := right[parent[w] := p];
      }
      left := left[p := w];
      parent := parent[w := p];
    }

    method RRotate(w: Ptr)
      requires Rotatable(MirrorPool(Links()), w)
      modifies this`left, this`parent, this`right
      ensures Links() == RRotated(old(Links()), w) && SameEnds()
    {
      var p := left[w];
      left := left[w := right[p]];
      if right[p] != HEAD { parent := parent[right[p] := w]; }
      parent := parent[p := parent[w]];
      if w == parent[HEAD] {
        parent := parent[HEAD := p];
      } else if w == right[parent[w]] {
        right := right[parent[w] := p];
      } else {
        left := left[parent[w] := p];
      }
      right := right[p := w];
      parent := parent[w := p];
    }

    // One node is painted black, then another one red.
    method PaintBoth(black: Ptr, other: Ptr)
      requires Sized(Links()) && black < |left| && other < |left|
      modifies this`red
      ensures Links() == Painted(Painted(old(Links()), black, false), other, true)
    {
      red := red[black := false];
      red := red[other := true];
    }

    /** The family of the hole as the code sees it: parent, grandparent and uncle. */
    lemma ReadUncle(t: Tree, c: Path, b: nat)
      requires At(Links(), t, c) && InsertState(t, c, b) && PathRed(c)
      ensures c.up != Top && t.n < |parent| && parent[t.n] == c.n && c.n < |parent| && parent[c.n] == c.up.n && c.up.n < |parent|
      ensures red[c.n]
      ensures var u := if c.up.InLeft? then right[c.up.n] else left[c.up.n];
        u == RootOf(Sibling(c.up)) && u < |parent| && red[u] == IsRed(Sibling(c.up))
      ensures c.up.InLeft? <==> c.n == left[c.up.n]
      ensures c.InLeft? ==> t.n == left[c.n] && t.n != right[c.n]
      ensures c.InRight? ==> t.n == right[c.n] && t.n != left[c.n]
    {
      var k := Links();
      GrandparentExists(t, c, b);
      ReadAbove(k, t, c);
      ReadBeside(k, t, c);
      FocusUp(k, t, c);
      ReadAbove(k, Lift(t, c), c.up);
      ReadBeside(k, Lift(t, c), c.up);
    }

    twostate predicate SameEnds()
      reads this
    {
      |left| == old(|left|) && 0 < |left| && 0 < |right| && 0 < old(|left|) && 0 < old(|right|)
      && left[HEAD] == old(left[HEAD]) && right[HEAD] == old(right[HEAD])
    }

    // An inner grandchild is rotated outwards.
    method InsertTurnLeft(p: Ptr, ghost t: Tree, ghost c: Path, ghost b: nat)
      returns (p': Ptr, ghost t': Tree, ghost c': Path)
      requires At(Links(), t, c) && InsertState(t, c, b) && t.n == p && PathRed(c) && c.up.InLeft?
      modifies this`left, this`parent, this`right
      ensures At(Links(), t', c') && InsertState(t', c', b) && t'.n == p' && PathRed(c') && c'.InLeft? && c'.up == c.up
      ensures Around(t', c') == Around(t, c) && SameEnds()
    {
      ReadUncle(t, c, b);
      p', t', c' := p, t, c;
      if p == right[parent[p]] {
        p' := parent[p];
        InnerStep(Links(), t, c, b);
        LRotate(p');
        t', c' := InnerTree(t, c), InnerPath(t, c);
      }
    }

    // The black-uncle case when the parent is a left child.
    method InsertRotateLeft(p: Ptr, ghost t: Tree, ghost c: Path, ghost b: nat)
      returns (p': Ptr, ghost t': Tree, ghost c': Path, ghost b': nat)
      requires At(Links(), t, c) && InsertState(t, c, b) && t.n == p && PathRed(c)
      requires c.up.InLeft? && !IsRed(Sibling(c.up))
      modifies this`left, this`parent, this`right, this`red
      ensures At(Links(), t', c') && InsertState(t', c', b') && t'.n == p' && !PathRed(c')
      ensures Around(t', c') == Around(t, c) && SameEnds()
    {
      p', t', c' := InsertTurnLeft(p, t, c, b);
      InsertOuterLeft(p', t', c', b);
      c', b' := Outer(c'), b;
    }

    // The last rotation of that case.
    method InsertOuterLeft(p: Ptr, ghost t: Tree, ghost c: Path, ghost b: nat)
      requires At(Links(), t, c) && InsertState(t, c, b) && t.n == p && PathRed(c)
      requires c.InLeft? && c.up.InLeft? && !IsRed(Sibling(c.up))
      modifies this`left, this`parent, this`right, this`red
      ensures At(Links(), t, Outer(c)) && InsertState(t, Outer(c), b) && !PathRed(Outer(c))
      ensures Around(t, Outer(c)) == Around(t, c) && SameEnds()
    {
      ReadUncle(t, c, b);
      OuterStep(Links(), t, c, b);
      PaintBoth(parent[p], parent[parent[p]]);
      RRotate(parent[parent[p]]);
    }

    // With a red uncle both of them turn black and the grandparent red.
    method InsertRecolour(p: Ptr, w: Ptr, ghost t: Tree, ghost c: Path, ghost b: nat)
      returns (p': Ptr, ghost t': Tree, ghost c': Path, ghost b': nat)
      requires At(Links(), t, c) && InsertState(t, c, b) && t.n == p && PathRed(c)
      requires c.up != Top && IsRed(Sibling(c.up)) && w == Sibling(c.up).n
      modifies this`red
      ensures At(Links(), t', c') && InsertState(t', c', b') && t'.n == p'
      ensures Around(t', c') == Around(t, c) && c' == c.up.up
    {
      ReadUncle(t, c, b);
      RecolourStep(Links(), t, c, b);
      red := red[parent[p] := false];
      PaintBoth(w, parent[parent[p]]);
      p' := parent[parent[p]];
      t', c', b' := Recoloured(t, c), c.up.up, b + 1;
    }

    // One round of the insert loop when the parent is a left child.
    method InsertFixLeft(p: Ptr, ghost t: Tree, ghost c: Path, ghost b: nat)
      returns (p': Ptr, ghost t': Tree, ghost c': Path, ghost b': nat)
      requires At(Links(), t, c) && InsertState(t, c, b) && t.n == p && PathRed(c) && c.up.InLeft?
      modifies this`left, this`parent, this`right, this`red
      ensures At(Links(), t', c') && InsertState(t', c', b') && t'.n == p'
      ensures Around(t', c') == Around(t, c) && SameEnds()
      ensures PathRed(c') ==> Depth(c') < Depth(c)
    {
      ReadUncle(t, c, b);
      var w := right[parent[parent[p]]];
      if red[w] {
        p', t', c', b' := InsertRecolour(p, w, t, c, b);
      } else {
        p', t', c', b' := InsertRotateLeft(p, t, c, b);
      }
    }

    // An inner grandchild is rotated outwards.
    method InsertTurnRight(p: Ptr, ghost t: Tree, ghost c: Path, ghost b: nat)
      returns (p': Ptr, ghost t': Tree, ghost c': Path)
      requires At(Links(), t, c) && InsertState(t, c, b) && t.n == p && PathRed(c) && c.up.InRight?
      modifies this`left, this`parent, this`right
      ensures At(Links(), t', c') && InsertState(t', c', b) && t'.n == p' && PathRed(c') && c'.InRight? && c'.up == c.up
      ensures Around(t', c') == Around(t, c) && SameEnds()
    {
      ReadUncle(t, c, b);
      p', t', c' := p, t, c;
      if p == left[parent[p]] {
        p' := parent[p];
        InnerStep(Links(), t, c, b);
        RRotate(p');
        t', c' := InnerTree(t, c), InnerPath(t, c);
      }
    }

    // The black-uncle case when the parent is a right child.
    method InsertRotateRight(p: Ptr, ghost t: Tree, ghost c: Path, ghost b: nat)
      returns (p': Ptr, ghost t': Tree, ghost c': Path, ghost b': nat)
      requires At(Links(), t, c) && InsertState(t, c, b) && t.n == p && PathRed(c)
      requires c.up.InRight? && !IsRed(Sibling(c.up))
      modifies this`left, this`parent, this`right, this`red
      ensures At(Links(), t', c') && InsertState(t', c', b') && t'.n == p' && !PathRed(c')
      ensures Around(t', c') == Around(t, c) && SameEnds()
    {
      p', t', c' := InsertTurnRight(p, t, c, b);
      InsertOuterRight(p', t', c', b);
      c', b' := Outer(c'), b;
    }

    // The last rotation of that case.
    method InsertOuterRight(p: Ptr, ghost t: Tree, ghost c: Path, ghost b: nat)
      requires At(Links(), t, c) && InsertState(t, c, b) && t.n == p && PathRed(c)
      requires c.InRight? && c.up.InRight? && !IsRed(Sibling(c.up))
      modifies this`left, this`parent, this`right, this`red
      ensures At(Links(), t, Outer(c)) && InsertState(t, Outer(c), b) && !PathRed(Outer(c))
      ensures Around(t, Outer(c)) == Around(t, c) && SameEnds()
    {
      ReadUncle(t, c, b);
      OuterStep(Links(), t, c, b);
      PaintBoth(parent[p], parent[parent[p]]);
      LRotate(parent[parent[p]]);
    }

    // One round of the insert loop when the parent is a right child.
    method InsertFixRight(p: Ptr, ghost t: Tree, ghost c: Path, ghost b: nat)
      returns (p': Ptr, ghost t': Tree, ghost c': Path, ghost b': nat)
      requires At(Links(), t, c) && InsertState(t, c, b) && t.n == p && PathRed(c) && c.up.InRight?
      modifies this`left, this`parent, this`right, this`red
      ensures At(Links(), t', c') && InsertState(t', c', b') && t'.n == p'
      ensures Around(t', c') == Around(t, c) && SameEnds()
      ensures PathRed(c') ==> Depth(c') < Depth(c)
    {
      ReadUncle(t, c, b);
      var w := left[parent[parent[p]]];
      if red[w] {
        p', t', c', b' := InsertRecolour(p, w, t, c, b);
      } else {
        p', t', c', b' := InsertRotateRight(p, t, c, b);
      }
    }

    // A red sibling is painted black and rotated above its parent.
    method EraseRedSiblingLeft(x: Ptr, px: Ptr, ghost t: Tree, ghost c: Path, ghost b: nat)
      returns (p: Ptr, ghost c': Path)
      requires At(Links(), t, c) && EraseState(t, c, b) && RootOf(t) == x && Above(c) == px && c.InLeft?
      modifies this`left, this`parent, this`right, this`red
      ensures At(Links(), t, c') && EraseState(t, c', b) && Above(c') == px && c'.InLeft?
      ensures Sibling(c').Node? && !Sibling(c').red && p == Sibling(c').n
      ensures Around(t, c') == Around(t, c) && SameEnds()
      ensures c' == c || c'.red
    {
      SiblingExists(t, c, b);
      ReadBeside(Links(), t, c);
      p, c' := right[px], c;
      if red[p] {
        RedSiblingStep(Links(), t, c, b);
        PaintBoth(p, px);
        LRotate(px);
        c' := SiblingUp(RedSibling(c));
        ReadBeside(Links(), t, c');
        p := right[px];
      }
    }

    // A red nephew next to the hole is rotated to the far side.
    method EraseTurnLeft(s: Ptr, px: Ptr, ghost t: Tree, ghost c: Path, ghost b: nat)
      returns (p: Ptr, ghost c': Path)
      requires At(Links(), t, c) && EraseState(t, c, b) && Above(c) == px && c.InLeft?
      requires Sibling(c).Node? && !Sibling(c).red && s == Sibling(c).n && (IsRed(Near(c)) || IsRed(Far(c)))
      modifies this`left, this`parent, this`right, this`red
      ensures At(Links(), t, c') && EraseState(t, c', b) && Above(c') == px && c'.InLeft?
      ensures Sibling(c').Node? && !Sibling(c').red && p == Sibling(c').n && IsRed(Far(c'))
      ensures Around(t, c') == Around(t, c) && SameEnds()
    {
      p, c' := s, c;
      ReadNephews(Links(), t, c);
      if !red[right[p]] {
        NearUpStep(Links(), t, c, b);
        PaintBoth(left[p], p);
        RRotate(p);
        c' := WithSibling(c, NearUp(c));
        ReadBeside(Links(), t, c');
        p := right[px];
      }
    }

    // With a red far nephew one rotation settles the black count for good.
    method EraseFarLeft(p: Ptr, px: Ptr, ghost t: Tree, ghost c: Path, ghost b: nat)
      returns (ghost c': Path)
      requires At(Links(), t, c) && EraseState(t, c, b) && Above(c) == px && c.InLeft? && !IsRed(t)
      requires Sibling(c).Node? && !Sibling(c).red && p == Sibling(c).n && IsRed(Far(c))
      modifies this`left, this`parent, this`right, this`red
      ensures At(Links(), t, c') && Settled(t, c', b)
      ensures Around(t, c') == Around(t, c) && SameEnds()
    {
      ReadAbove(Links(), t, c);
      ReadNephews(Links(), t, c);
      FarStep(Links(), t, c, b);
      red := red[p := red[px]];
      red := red[px := false];
      red := red[right[p] := false];
      LRotate(px);
      c' := SiblingUp(FarTinted(c));
    }

    // The second half of a round, once the sibling p is black: two black nephews or not.
    method EraseNephewsLeft(x: Ptr, px: Ptr, s: Ptr, ghost t: Tree, ghost c: Path, ghost b: nat)
      returns (x': Ptr, done: bool, ghost t': Tree, ghost c': Path, ghost b': nat)
      requires At(Links(), t, c) && EraseState(t, c, b) && RootOf(t) == x && Above(c) == px && c.InLeft? && !IsRed(t)
      requires Sibling(c).Node? && !Sibling(c).red && s == Sibling(c).n
      modifies this`left, this`parent, this`right, this`red
      ensures At(Links(), t', c') && RootOf(t') == x'
      ensures if done then Settled(t', c', b') else t'.Node? && EraseState(t', c', b') && t'.red == c.red && c' == c.up
      ensures Around(t', c') == Around(t, c) && SameEnds()
    {
      var p := s;
      ReadNephews(Links(), t, c);
      if !red[left[p]] && !red[right[p]] {
        BlackNephewsStep(Links(), t, c, b);
        red := red[p := true];
        t', c', b' := Lift(t, WithSibling(c, Sibling(c).(red := true))), c.up, if c.red then b else b + 1;
        x', done := px, false;
      } else {
        p, c' := EraseTurnLeft(p, px, t, c, b);
        c' := EraseFarLeft(p, px, t, c', b);
        x', done, t', b' := x, true, t, b;
      }
    }

    // One round of the erase loop when x is a left child.
    method EraseFixLeft(x: Ptr, px: Ptr, ghost t: Tree, ghost c: Path, ghost b: nat)
      returns (x': Ptr, done: bool, ghost t': Tree, ghost c': Path, ghost b': nat)
      requires At(Links(), t, c) && EraseState(t, c, b) && RootOf(t) == x && Above(c) == px && c.InLeft? && !IsRed(t)
      modifies this`left, this`parent, this`right, this`red
      ensures At(Links(), t', c') && RootOf(t') == x'
      ensures if done then Settled(t', c', b') else t'.Node? && EraseState(t', c', b')
      ensures Around(t', c') == Around(t, c) && SameEnds()
      ensures done || IsRed(t') || Depth(c') < Depth(c)
    {
      var p;
      p, c' := EraseRedSiblingLeft(x, px, t, c, b);
      x', done, t', c', b' := EraseNephewsLeft(x, px, p, t, c', b);
    }

    // A red sibling is painted black and rotated above its parent.
    method EraseRedSiblingRight(x: Ptr, px: Ptr, ghost t: Tree, ghost c: Path, ghost b: nat)
      returns (p: Ptr, ghost c': Path)
      requires At(Links(), t, c) && EraseState(t, c, b) && RootOf(t) == x && Above(c) == px && c.InRight?
      modifies this`left, this`parent, this`right, this`red
      ensures At(Links(), t, c') && EraseState(t, c', b) && Above(c') == px && c'.InRight?
      ensures Sibling(c').Node? && !Sibling(c').red && p == Sibling(c').n
      ensures Around(t, c') == Around(t, c) && SameEnds()
      ensures c' == c || c'.red
    {
      SiblingExists(t, c, b);
      ReadBeside(Links(), t, c);
      p, c' := left[px], c;
      if red[p] {
        RedSiblingStep(Links(), t, c, b);
        PaintBoth(p, px);
        RRotate(px);
        c' := SiblingUp(RedSibling(c));
        ReadBeside(Links(), t, c');
        p := left[px];
      }
    }

    // A red nephew next to the hole is rotated to the far side.
    method EraseTurnRight(s: Ptr, px: Ptr, ghost t: Tree, ghost c: Path, ghost b: nat)
      returns (p: Ptr, ghost c': Path)
      requires At(Links(), t, c) && EraseState(t, c, b) && Above(c) == px && c.InRight?
      requires Sibling(c).Node? && !Sibling(c).red && s == Sibling(c).n && (IsRed(Near(c)) || IsRed(Far(c)))
      modifies this`left, this`parent, this`right, this`red
      ensures At(Links(), t, c') && EraseState(t, c', b) && Above(c') == px && c'.InRight?
      ensures Sibling(c').Node? && !Sibling(c').red && p == Sibling(c').n && IsRed(Far(c'))
      ensures Around(t, c') == Around(t, c) && SameEnds()
    {
      p, c' := s, c;
      ReadNephews(Links(), t, c);
      if !red[left[p]] {
        NearUpStep(Links(), t, c, b);
        PaintBoth(right[p], p);
        LRotate(p);
        c' := WithSibling(c, NearUp(c));
        ReadBeside(Links(), t, c');
        p := left[px];
      }
    }

    // With a red far nephew one rotation settles the black count for good.
    method EraseFarRight(p: Ptr, px: Ptr, ghost t: Tree, ghost c: Path, ghost b: nat)
      returns (ghost c': Path)
      requires At(Links(), t, c) && EraseState(t, c, b) && Above(c) == px && c.InRight? && !IsRed(t)
      requires Sibling(c).Node? && !Sibling(c).red && p == Sibling(c).n && IsRed(Far(c))
      modifies this`left, this`parent, this`right, this`red
      ensures At(Links(), t, c') && Settled(t, c', b)
      ensures Around(t, c') == Around(t, c) && SameEnds()
    {
      ReadAbove(Links(), t, c);
      ReadNephews(Links(), t, c);
      FarStep(Links(), t, c, b);
      red := red[p := red[px]];
      red := red[px := false];
      red := red[left[p] := false];
      RRotate(px);
      c' := SiblingUp(FarTinted(c));
    }

    // The second half of a round, once the sibling p is black: two black nephews or not.
    method EraseNephewsRight(x: Ptr, px: Ptr, s: Ptr, ghost t: Tree, ghost c: Path, ghost b: nat)
      returns (x': Ptr, done: bool, ghost t': Tree, ghost c': Path, ghost b': nat)
      requires At(Links(), t, c) && EraseState(t, c, b) && RootOf(t) == x && Above(c) == px && c.InRight? && !IsRed(t)
      requires Sibling(c).Node? && !Sibling(c).red && s == Sibling(c).n
      modifies this`left, this`parent, this`right, this`red
      ensures At(Links(), t', c') && RootOf(t') == x'
      ensures if done then Settled(t', c', b') else t'.Node? && EraseState(t', c', b') && t'.red == c.red && c' == c.up
      ensures Around(t', c') == Around(t, c) && SameEnds()
    {
      var p := s;
      ReadNephews(Links(), t, c);
      if !red[right[p]] && !red[left[p]] {
        BlackNephewsStep(Links(), t, c, b);
        red := red[p := true];
        t', c', b' := Lift(t, WithSibling(c, Sibling(c).(red := true))), c.up, if c.red then b else b + 1;
        x', done := px, false;
      } else {
        p, c' := EraseTurnRight(p, px, t, c, b);
        c' := EraseFarRight(p, px, t, c', b);
        x', done, t', b' := x, true, t, b;
      }
    }

    // One round of the erase loop when x is a right child.
    method EraseFixRight(x: Ptr, px: Ptr, ghost t: Tree, ghost c: Path, ghost b: nat)
      returns (x': Ptr, done: bool, ghost t': Tree, ghost c': Path, ghost b': nat)
      requires At(Links(), t, c) && EraseState(t, c, b) && RootOf(t) == x && Above(c) == px && c.InRight? && !IsRed(t)
      modifies this`left, this`parent, this`right, this`red
      ensures At(Links(), t', c') && RootOf(t') == x'
      ensures if done then Settled(t', c', b') else t'.Node? && EraseState(t', c', b')
      ensures Around(t', c') == Around(t, c) && SameEnds()
      ensures done || IsRed(t') || Depth(c') < Depth(c)
    {
      var p;
      p, c' := EraseRedSiblingRight(x, px, t, c, b);
      x', done, t', c', b' := EraseNephewsRight(x, px, p, t, c', b);
    }

    // ----- unlinking

    // Whatever points at e from above points at x.
    method Repoint(e: Ptr, x: Ptr)
      requires Sized(Links()) && e < |parent| && parent[e] < |parent| && (parent[e] == HEAD ==> parent[HEAD] == e)
      modifies this`left, this`parent, this`right
      ensures Links() == Hook(old(Links()), old(parent[e]), e, x) && SameEnds()
    {
      if parent[HEAD] == e {
        parent := parent[HEAD := x];
      } else if left[parent[e]] == e {
        left := left[parent[e] := x];
      } else {
        right := right[parent[e] := x];
      }
    }

    // The first half of the relinking: s takes over the children of e.
    method Adopt(e: Ptr, s: Ptr, x: Ptr) returns (px: Ptr)
      requires CanRelink(Links(), e, s) && x == right[s]
      modifies this`left, this`parent, this`right
      ensures Links() == Adopted(old(Links()), e, s) && SameEnds()
      ensures px == if s == old(right[e]) then s else old(parent[s])
    {
      parent := parent[left[e] := s];
      left := left[s := left[e]];
      if s == right[e] {
        px := s;
      } else {
        px := parent[s];
        if x != HEAD { parent := parent[x := px]; }
        left := left[px := x];
        right := right[s := right[e]];
        parent := parent[right[e] := s];
      }
    }

    // A node e with two children: its successor s leaves its own place and takes over e's.
    method Relink(e: Ptr, s: Ptr) returns (x: Ptr, px: Ptr)
      requires CanRelink(Links(), e, s)
      modifies this`left, this`parent, this`right, this`red
      ensures Links() == Relinked(old(Links()), e, s) && SameEnds()
      ensures x == old(right[s]) && px == if s == old(right[e]) then s else old(parent[s])
    {
      x := right[s];
      px := Adopt(e, s, x);
      TakePlace(e, s);
    }

    // The second half: s is hung where e was, and they exchange their colours.
    method TakePlace(e: Ptr, s: Ptr)
      requires Sized(Links()) && e < |parent| && s < |parent| && e != HEAD && parent[e] < |parent|
      requires parent[e] == HEAD ==> parent[HEAD] == e
      modifies this`left, this`parent, this`right, this`red
      ensures var k := Hook(old(Links()), old(parent[e]), e, s);
        Links() == Pool(k.left, k.parent[s := old(parent[e])], k.right, old(red)[s := old(red[e])][e := old(red[s])])
      ensures SameEnds()
    {
      Repoint(e, s);
      parent := parent[s := parent[e]];
      var col := red[s];
      red := red[s := red[e]];
      red := red[e := col];
    }

    // ----- walking

    /** The head holds the ends of the order. */
    ghost predicate Ends(o: seq<Ptr>)
      reads this
    {
      0 < |left| && 0 < |right| && left[HEAD] == First(o) && right[HEAD] == Last(o)
    }

    /** The representation: a linked red-black tree, its ends and root kept in the head, its size kept in size. */
    ghost predicate Valid()
      reads this
    {
      && At(Links(), tree, Top)
      && RedBlack(tree)
      && Ends(InOrder(tree))
      && size == |InOrder(tree)|
    }

    method Min(x: Ptr, ghost t: Tree, ghost c: Path) returns (p: Ptr)
      requires At(Links(), t, c) && t.Node? && t.n == x
      ensures InOrder(t) != [] && p == InOrder(t)[0]
    {
      ghost var t', c' := t, c;
      p := x;
      BelowFocus(t', c');
      while left[p] != HEAD
        invariant At(Links(), t', c') && t'.Node? && t'.n == p && First(InOrder(t)) == First(InOrder(t'))
        invariant p < |left| && left[p] == RootOf(t'.left)
        decreases t'
      {
        p := left[p];
        EndsDown(t');
        t', c' := t'.left, InLeft(t'.n, t'.red, t'.right, c');
        BelowFocus(t', c');
      }
      EndsDown(t');
    }

    method Max(x: Ptr, ghost t: Tree, ghost c: Path) returns (p: Ptr)
      requires At(Links(), t, c) && t.Node? && t.n == x
      ensures InOrder(t) != [] && p == InOrder(t)[|InOrder(t)| - 1]
    {
      ghost var t', c' := t, c;
      p := x;
      BelowFocus(t', c');
      while right[p] != HEAD
        invariant At(Links(), t', c') && t'.Node? && t'.n == p && Last(InOrder(t)) == Last(InOrder(t'))
        invariant p < |left| && right[p] == RootOf(t'.right)
        decreases t'
      {
        p := right[p];
        EndsDown(t');
        t', c' := t'.right, InRight(t'.left, t'.n, t'.red, c');
        BelowFocus(t', c');
      }
      EndsDown(t');
    }

    /** The ends of a subtree's order are those of the subtree further out, or its root. */
    lemma EndsDown(t: Tree)
      requires t.Node?
      ensures First(InOrder(t)) == if t.left.Node? then First(InOrder(t.left)) else t.n
      ensures Last(InOrder(t)) == if t.right.Node? then Last(InOrder(t.right)) else t.n
    {}

    /** What the code reads in the node in focus. */
    lemma BelowFocus(t: Tree, c: Path)
      requires At(Links(), t, c) && t.Node?
      ensures t.n < |left| && t.n != HEAD && left[t.n] == RootOf(t.left) && right[t.n] == RootOf(t.right)
      ensures parent[t.n] == Above(c) && Above(c) < |left|
      ensures left[t.n] < |left| && right[t.n] < |left|
      ensures (left[t.n] == HEAD <==> t.left.Nil?) && (right[t.n] == HEAD <==> t.right.Nil?)
      ensures At(Links(), t.left, InLeft(t.n, t.red, t.right, c))
      ensures At(Links(), t.right, InRight(t.left, t.n, t.red, c))
    {
      FocusUp(Links(), t.left, InLeft(t.n, t.red, t.right, c));
      FocusUp(Links(), t.right, InRight(t.left, t.n, t.red, c));
      SpliceCells(Links(), t, c);
      assert t.n in Nodes(t);
      assert t.left.Node? ==> t.left.n in Nodes(t.left);
      assert t.right.Node? ==> t.right.n in Nodes(t.right);
    }

    /** Both ways down from the node in focus. */
    lemma Branches(t: Tree, c: Path)
      requires At(Links(), t, c) && t.Node?
      ensures var l, r := InLeft(t.n, t.red, t.right, c), InRight(t.left, t.n, t.red, c);
        && t.n < |left| && t.n != HEAD
        && left[t.n] == RootOf(t.left) && At(Links(), t.left, l) && Around(t.left, l) == Around(t, c)
        && right[t.n] == RootOf(t.right) && At(Links(), t.right, r) && Around(t.right, r) == Around(t, c)
        && First(Back(l)) == t.n && Last(Front(r)) == t.n
    {
      BelowFocus(t, c);
      AroundUp(t.left, InLeft(t.n, t.red, t.right, c));
      AroundUp(t.right, InRight(t.left, t.n, t.red, c));
    }

    /** Only a missing child is the head. */
    lemma HeadOnly(t: Tree, c: Path)
      requires At(Links(), t, c)
      ensures t.Node? ==> t.n != HEAD
    {
      assert t.Node? ==> t.n in Nodes(t);
    }

    /** The place of the focus in the order. */
    lemma FocusOrder(t: Tree, c: Path)
      requires Valid() && Whole(t, c) == tree && t.Node?
      ensures At(Links(), t, c) && Around(t, c) == InOrder(tree)
      ensures var i := |Front(c)| + |InOrder(t.left)|; 0 <= i < |InOrder(tree)| && InOrder(tree)[i] == t.n
      ensures forall i :: 0 <= i < |InOrder(tree)| && InOrder(tree)[i] == t.n ==> i == |Front(c)| + |InOrder(t.left)|
    {
      Neighbours(t, c);
      FocusWhole(Links(), t, c);
      WholeOrder(t, c);
      OrderDistinct(tree);
    }

    method Inc(ptr: Ptr) returns (r: Ptr)
      requires Valid() && (ptr == HEAD || ptr in Nodes(tree))
      ensures r == Next(InOrder(tree), ptr)
    {
      OrderNodes(tree);
      OrderDistinct(tree);
      if ptr == HEAD {
        return left[HEAD];
      }
      ghost var t, c := FocusOn(tree, Top, ptr);
      FocusOrder(t, c);
      Neighbours(t, c);
      BelowFocus(t, c);
      if right[ptr] != HEAD {
        r := Min(right[ptr], t.right, InRight(t.left, t.n, t.red, c));
      } else {
        r := UpRight(ptr, t, c);
      }
    }

    // Climbs while it comes from the right.
    method UpRight(ptr: Ptr, ghost t: Tree, ghost c: Path) returns (p: Ptr)
      requires At(Links(), t, c) && t.Node? && t.n == ptr
      ensures p == if Back(c) == [] then HEAD else Back(c)[0]
    {
      ghost var t', c' := t, c;
      var ptr' := ptr;
      BelowFocus(t', c');
      p := parent[ptr'];
      while p != HEAD && ptr' == right[p]
        invariant At(Links(), t', c') && t'.Node? && t'.n == ptr' && p == Above(c') && p < |right|
        invariant Back(c') == Back(c)
        decreases Depth(c')
      {
        ReadBeside(Links(), t', c');
        FocusUp(Links(), t', c');
        ptr' := p;
        t', c' := Lift(t', c'), c'.up;
        BelowFocus(t', c');
        p := parent[ptr'];
      }
      if c' != Top { ReadBeside(Links(), t', c'); }
    }

    // Climbs while it comes from the left.
    method UpLeft(ptr: Ptr, ghost t: Tree, ghost c: Path) returns (p: Ptr, top: Ptr)
      requires At(Links(), t, c) && t.Node? && t.n == ptr
      ensures p == if Front(c) == [] then HEAD else Front(c)[|Front(c)| - 1]
      ensures p == HEAD ==> top == parent[HEAD]
    {
      ghost var t', c' := t, c;
      top := ptr;
      BelowFocus(t', c');
      p := parent[top];
      while p != HEAD && top == left[p]
        invariant At(Links(), t', c') && t'.Node? && t'.n == top && p == Above(c') && p < |left|
        invariant Front(c') == Front(c)
        decreases Depth(c')
      {
        ReadBeside(Links(), t', c');
        FocusUp(Links(), t', c');
        top := p;
        t', c' := Lift(t', c'), c'.up;
        BelowFocus(t', c');
        p := parent[top];
      }
      if c' != Top { ReadBeside(Links(), t', c'); }
    }

    method Dec(ptr: Ptr) returns (r: Ptr)
      requires Valid() && (ptr == HEAD || ptr in Nodes(tree))
      ensures r == Prev(InOrder(tree), parent[HEAD], ptr)
    {
      OrderNodes(tree);
      OrderDistinct(tree);
      if ptr == HEAD {
        return right[HEAD];
      }
      ghost var t, c := FocusOn(tree, Top, ptr);
      FocusOrder(t, c);
      BelowFocus(t, c);
      if left[ptr] != HEAD {
        r := Max(left[ptr], t.left, InLeft(t.n, t.red, t.right, c));
      } else {
        var p, top := UpLeft(ptr, t, c);
        r := if p != HEAD then p else top;
      }
    }

    // ----- insertion

    // Hangs the new red leaf n below w and keeps the head's ends.
    method LinkLeaf(goLeft: bool, w: Ptr, n: Ptr, ghost c: Path)
      requires At(Links(), Nil, c) && Ends(Front(c) + Back(c)) && w == Above(c) && (c != Top ==> goLeft == c.InLeft?)
      requires EndsApart(c)
      requires n != HEAD && n !in PathNodes(c) && Cell(Links(), n, HEAD, w, HEAD, true)
      modifies this`left, this`parent, this`right
      ensures At(Links(), Node(Nil, n, true, Nil), c) && Ends(Front(c) + [n] + Back(c)) && |left| == old(|left|)
    {
      ReadAbove(Links(), Nil, c);
      if w == HEAD {
        LinkRoot(n, c);
      } else if goLeft {
        LinkLeft(w, n, c);
      } else {
        LinkRight(w, n, c);
      }
    }

    method LinkRoot(n: Ptr, ghost c: Path)
      requires At(Links(), Nil, c) && c == Top && n != HEAD && Cell(Links(), n, HEAD, HEAD, HEAD, true)
      modifies this`left, this`parent, this`right
      ensures At(Links(), Node(Nil, n, true, Nil), c) && Ends(Front(c) + [n] + Back(c)) && |left| == old(|left|)
    {
      AttachAt(Links(), c, n);
      parent := parent[HEAD := n];
      ghost var k := Links();
      left := left[HEAD := n];
      right := right[HEAD := n];
      HeadFrame(k, Links(), Node(Nil, n, true, Nil), c);
    }

    method LinkLeft(w: Ptr, n: Ptr, ghost c: Path)
      requires At(Links(), Nil, c) && Ends(Front(c) + Back(c)) && w == Above(c) && c.InLeft? && EndsApart(c)
      requires n != HEAD && n !in PathNodes(c) && Cell(Links(), n, HEAD, w, HEAD, true)
      modifies this`left
      ensures At(Links(), Node(Nil, n, true, Nil), c) && Ends(Front(c) + [n] + Back(c)) && |left| == old(|left|)
    {
      AttachAt(Links(), c, n);
      ReadBeside(Links(), Nil, c);
      left := left[w := n];
      ghost var k := Links();
      if w == left[HEAD] {
        left := left[HEAD := n];
      }
      HeadFrame(k, Links(), Node(Nil, n, true, Nil), c);
    }

    method LinkRight(w: Ptr, n: Ptr, ghost c: Path)
      requires At(Links(), Nil, c) && Ends(Front(c) + Back(c)) && w == Above(c) && c.InRight? && EndsApart(c)
      requires n != HEAD && n !in PathNodes(c) && Cell(Links(), n, HEAD, w, HEAD, true)
      modifies this`right
      ensures At(Links(), Node(Nil, n, true, Nil), c) && Ends(Front(c) + [n] + Back(c)) && |left| == old(|left|)
    {
      AttachAt(Links(), c, n);
      ReadBeside(Links(), Nil, c);
      right := right[w := n];
      ghost var k := Links();
      if w == right[HEAD] {
        right := right[HEAD := n];
      }
      HeadFrame(k, Links(), Node(Nil, n, true, Nil), c);
    }

    // The links _buynode and _insert give a new node before it is hung below w.
    method ClearChildren(n: Ptr, ghost c: Path)
      requires At(Links(), Nil, c) && n !in PathNodes(c) && n != HEAD && n < |left|
      modifies this`left, this`right
      ensures At(Links(), Nil, c) && SameEnds() && left[n] == right[n] == HEAD
    {
      left := left[n := HEAD];
      right := right[n := HEAD];
      AtFrame(old(Links()), Links(), Nil, c);
    }

    // The loop that restores the colours above a new red leaf.
    method InsertFix(n: Ptr, ghost t0: Tree, ghost c0: Path, ghost b0: nat)
      requires At(Links(), t0, c0) && InsertState(t0, c0, b0) && t0.n == n
      modifies this`left, this`parent, this`right, this`red, this`tree
      ensures At(Links(), tree, Top) && RedBlack(tree) && InOrder(tree) == Around(t0, c0) && SameEnds()
    {
      var p := n;
      ghost var t, c, b := t0, c0, b0;
      ReadAbove(Links(), t, c);
      while red[parent[p]]
        invariant At(Links(), t, c) && InsertState(t, c, b) && t.n == p
        invariant p < |left| && parent[p] < |left| && red[parent[p]] == PathRed(c)
        invariant Around(t, c) == Around(t0, c0) && SameEnds()
        decreases if PathRed(c) then Depth(c) + 1 else 0
      {
        ReadUncle(t, c, b);
        if parent[p] == left[parent[parent[p]]] {
          p, t, c, b := InsertFixLeft(p, t, c, b);
        } else {
          p, t, c, b := InsertFixRight(p, t, c, b);
        }
        ReadAbove(Links(), t, c);
      }
      BlackenRoot(t, c, b);
    }

    // The last line of the loop's part: the root is painted black.
    method BlackenRoot(ghost t: Tree, ghost c: Path, ghost b: nat)
      requires At(Links(), t, c) && InsertState(t, c, b) && !PathRed(c)
      modifies this`red, this`tree
      ensures At(Links(), tree, Top) && RedBlack(tree) && InOrder(tree) == Around(t, c)
    {
      InsertDone(t, c, b);
      WholeOrder(t, c);
      FocusWhole(Links(), t, c);
      ghost var u := Whole(t, c);
      assert u.Node? by { WholeNodes(t, c); assert t.n in Nodes(u); }
      ReadAbove(Links(), u, Top);
      PaintAt(Links(), u, Top, false);
      red := red[parent[HEAD] := false];
      tree := u.(red := false);
      assert c != Top ==> tree == u;
    }

    /** A hole of the map's own tree is ready to take a red leaf. */
    lemma HoleReady(c: Path, n: Ptr)
      requires Valid() && Whole(Nil, c) == tree
      ensures At(Links(), Nil, c) && PathNodes(c) == Nodes(tree) && InOrder(tree) == Front(c) + Back(c)
      ensures EndsApart(c) && InsertState(Node(Nil, n, true, Nil), c, 0)
    {
      WholeOrder(Nil, c);
      WholeNodes(Nil, c);
      OrderDistinct(tree);
      assert Around(Nil, c) == Front(c) + Back(c);
      HoleEnds(c);
      FocusWhole(Links(), Nil, c);
      var b := SplitBalanced(Nil, c);
    }

    lemma LeafOrder(n: Ptr, c: Path)
      ensures Around(Node(Nil, n, true, Nil), c) == Front(c) + [n] + Back(c)
    {
      assert InOrder(Node(Nil, n, true, Nil)) == [n];
    }

    // _insert: n becomes a leaf below w, in the hole described by c.
    method InsertNode(goLeft: bool, w: Ptr, n: Ptr, ghost c: Path)
      requires Valid() && Whole(Nil, c) == tree && w == Above(c) && (c != Top ==> goLeft == c.InLeft?)
      requires n != HEAD && n !in Nodes(tree) && n < |left| && parent[n] == w && red[n]
      modifies this
      ensures Valid() && InOrder(tree) == Front(c) + [n] + Back(c) && |left| == old(|left|)
    {
      HoleReady(c, n);
      ClearChildren(n, c);
      size := size + 1;
      LinkLeaf(goLeft, w, n, c);
      LeafOrder(n, c);
      InsertFix(n, Node(Nil, n, true, Nil), c, 0);
    }

    // ----- removal

    // A node e with at most one child x: x takes its place, and the head's ends are moved off e.
    method UnlinkLeaf(e: Ptr, x: Ptr, ghost t: Tree, ghost c: Path, ghost tx: Tree) returns (px: Ptr)
      requires At(Links(), t, c) && t.Node? && t.n == e && Ends(Around(t, c))
      requires (t.left.Nil? && tx == t.right) || (t.right.Nil? && tx == t.left)
      requires x == RootOf(tx)
      requires NoDup(Around(t, c))
      modifies this`left, this`parent, this`right
      ensures At(Links(), tx, c) && px == Above(c) && Ends(Around(tx, c)) && |left| == old(|left|)
    {
      BelowFocus(t, c);
      SpliceCells(Links(), t, c);
      SpliceAt(Links(), t, c, tx);
      px := parent[e];
      if x != HEAD { parent := parent[x := px]; }
      Repoint(e, x);
      assert Links() == Spliced(old(Links()), e, x);
      MoveEnds(e, x, px, t, c, tx);
    }

    method MoveEnds(e: Ptr, x: Ptr, px: Ptr, ghost t: Tree, ghost c: Path, ghost tx: Tree)
      requires At(Links(), tx, c) && Ends(Around(t, c)) && t.Node? && t.n == e && px == Above(c) && x == RootOf(tx)
      requires (t.left.Nil? && tx == t.right) || (t.right.Nil? && tx == t.left)
      requires NoDup(Around(t, c))
      modifies this`left, this`right
      ensures At(Links(), tx, c) && Ends(Around(tx, c)) && |left| == old(|left|)
    {
      ghost var k := Links();
      SplicedFirst(t, c, tx);
      SplicedLast(t, c, tx);
      if left[HEAD] == e {
        if x == HEAD {
          left := left[HEAD := px];
        } else {
          var m := Min(x, tx, c);
          left := left[HEAD := m];
        }
      }
      HeadFrame(k, Links(), tx, c);
      if right[HEAD] == e {
        if x == HEAD {
          right := right[HEAD := px];
        } else {
          var m := Max(x, tx, c);
          right := right[HEAD := m];
        }
      }
      HeadFrame(k, Links(), tx, c);
    }

    // A node with two children gives its place to its successor s.
    method UnlinkInner(e: Ptr, s: Ptr, ghost te: Tree, ghost ce: Path, ghost t: Tree, ghost c: Path)
      returns (x: Ptr, px: Ptr)
      requires TwoViews(Links(), te, ce, t, c) && te.n == e && t.n == s
      modifies this`left, this`parent, this`right, this`red
      ensures At(Links(), t.right, Renamed(c, e, s)) && x == RootOf(t.right) && px == Above(Renamed(c, e, s)) && SameEnds()
      ensures e < |red| && red[e] == t.red
    {
      ghost var k := Links();
      ReadRelink(k, te, ce, t, c);
      x, px := Relink(e, s);
      RelinkedAt(k, te, ce, t, c);
    }

    // The last step of the removal: x is painted black.
    method Blacken(x: Ptr, ghost t: Tree, ghost c: Path)
      requires At(Links(), t, c) && RootOf(t) == x && RedBlack(Whole(Blackened(t), c))
      modifies this`red, this`tree
      ensures At(Links(), tree, Top) && RedBlack(tree) && InOrder(tree) == Around(t, c) && SameEnds()
    {
      ReadAbove(Links(), t, c);
      BlackenedAt(Links(), t, c);
      red := red[x := false];
      tree := Whole(Blackened(t), c);
      FocusWhole(Links(), Blackened(t), c);
      WholeOrder(Blackened(t), c);
      assert InOrder(Blackened(t)) == InOrder(t);
    }

    // The loop that restores the black count above x.
    method EraseFix(x0: Ptr, px0: Ptr, ghost t0: Tree, ghost c0: Path, ghost b0: nat)
      requires At(Links(), t0, c0) && EraseState(t0, c0, b0) && RootOf(t0) == x0 && Above(c0) == px0
      modifies this`left, this`parent, this`right, this`red, this`tree
      ensures At(Links(), tree, Top) && RedBlack(tree) && InOrder(tree) == Around(t0, c0) && SameEnds()
    {
      var x;
      ghost var t, c;
      x, t, c := EraseRise(x0, px0, t0, c0, b0);
      Blacken(x, t, c);
    }

    method EraseRise(x0: Ptr, px0: Ptr, ghost t0: Tree, ghost c0: Path, ghost b0: nat)
      returns (x: Ptr, ghost t: Tree, ghost c: Path)
      requires At(Links(), t0, c0) && EraseState(t0, c0, b0) && RootOf(t0) == x0 && Above(c0) == px0
      modifies this`left, this`parent, this`right, this`red
      ensures At(Links(), t, c) && RootOf(t) == x && RedBlack(Whole(Blackened(t), c))
      ensures Around(t, c) == Around(t0, c0) && SameEnds()
    {
      var px, done := px0, false;
      ghost var b := b0;
      x, t, c := x0, t0, c0;
      ReadAbove(Links(), t, c);
      while !done && x != parent[HEAD] && !red[x]
        invariant At(Links(), t, c) && RootOf(t) == x
        invariant if done then Settled(t, c, b) else EraseState(t, c, b) && Above(c) == px
        invariant Around(t, c) == Around(t0, c0) && SameEnds()
        invariant x < |left| && red[x] == IsRed(t) && (c.Top? <==> parent[HEAD] == x)
        decreases !done, if IsRed(t) then 0 else Depth(c) + 1
      {
        SiblingExists(t, c, b);
        ReadBeside(Links(), t, c);
        if x == left[px] {
          x, done, t, c, b := EraseFixLeft(x, px, t, c, b);
        } else {
          x, done, t, c, b := EraseFixRight(x, px, t, c, b);
        }
        ReadAbove(Links(), t, c);
        if !done { px := parent[x]; }
      }
      if done { SettledDone(t, c, b); } else { EraseDone(t, c, b); }
    }

    // The black count is restored if a black node has gone.
    method EraseBalance(e: Ptr, x: Ptr, px: Ptr, ghost t: Tree, ghost c: Path, ghost b: nat)
      requires At(Links(), t, c) && RootOf(t) == x && Above(c) == px && e < |red|
      requires if red[e] then Settled(t, c, b) else EraseState(t, c, b)
      modifies this`left, this`parent, this`right, this`red, this`tree
      ensures At(Links(), tree, Top) && RedBlack(tree) && InOrder(tree) == Around(t, c) && SameEnds()
    {
      if !red[e] {
        EraseFix(x, px, t, c, b);
      } else {
        SettledDone(t, c, b);
        assert Blackened(t) == t;
        tree := Whole(t, c);
        FocusWhole(Links(), t, c);
        WholeOrder(t, c);
      }
    }

    // A node with at most one child gives way to it.
    method UnlinkOuter(e: Ptr, x: Ptr, ghost t: Tree, ghost c: Path, ghost t': Tree) returns (px: Ptr, ghost b: nat)
      requires At(Links(), t, c) && t.Node? && t.n == e && RedBlack(Whole(t, c)) && NoDup(Around(t, c)) && Ends(Around(t, c))
      requires (t.left.Nil? && t' == t.right) || (t.right.Nil? && t' == t.left)
      requires x == RootOf(t')
      modifies this`left, this`parent, this`right
      ensures At(Links(), t', c) && Above(c) == px && e < |red|
      ensures if red[e] then Settled(t', c, b) else EraseState(t', c, b)
      ensures Around(t', c) == Without(t, c) && Ends(Without(t, c)) && |left| == old(|left|)
    {
      ReadAbove(Links(), t, c);
      b := SpliceState(t, c, t');
      px := UnlinkLeaf(e, x, t, c, t');
      SplicedOrder(t, c, t');
    }

    // Both unlinking cases of _erase; the subtree left in the hole comes back as t', c'.
    method Unlink(e: Ptr, s: Ptr, ghost t: Tree, ghost c: Path)
      returns (x: Ptr, px: Ptr, ghost t': Tree, ghost c': Path, ghost b: nat)
      requires Valid() && t.Node? && t.n == e && Whole(t, c) == tree
      requires s == First(InOrder(t.right) + Back(c))
      modifies this`left, this`parent, this`right, this`red
      ensures At(Links(), t', c') && RootOf(t') == x && Above(c') == px && e < |red|
      ensures if red[e] then Settled(t', c', b) else EraseState(t', c', b)
      ensures Around(t', c') == Without(t, c) && Ends(Without(t, c)) && |left| == old(|left|)
    {
      FocusOrder(t, c);
      OrderDistinct(tree);
      BelowFocus(t, c);
      ReadAbove(Links(), t, c);
      if left[e] == HEAD {
        x, t', c' := right[e], t.right, c;
        px, b := UnlinkOuter(e, x, t, c, t');
      } else if right[e] == HEAD {
        x, t', c' := left[e], t.left, c;
        px, b := UnlinkOuter(e, x, t, c, t');
      } else {
        ghost var ts, cs := TwoViewsFrom(Links(), t, c);
        FocusWhole(Links(), ts, cs);
        b := RelinkState(ts, cs, e);
        x, px := UnlinkInner(e, s, t, c, ts, cs);
        t', c' := ts.right, Renamed(cs, e, s);
      }
    }

    /** The node before a hole is last in front of it; without one the hole is at begin. */
    lemma BeforeHole(c: Path)
      requires Valid() && Whole(Nil, c) == tree
      ensures InOrder(tree) == Front(c) + Back(c)
      ensures c.InRight? ==> Front(c) != [] && Above(c) == Front(c)[|Front(c)| - 1]
      ensures !c.InRight? && Front(c) == [] ==> Above(c) == left[HEAD]
      ensures !c.InRight? && Front(c) != [] ==> Above(c) != left[HEAD] && Above(c) in Nodes(tree)
      ensures !c.InRight? && Front(c) != [] ==> Prev(InOrder(tree), parent[HEAD], Above(c)) == Front(c)[|Front(c)| - 1]
    {
      HoleReady(c, HEAD);
      OrderNodes(tree);
      OrderDistinct(tree);
      if c.InLeft? {
        assert InOrder(tree)[|Front(c)|] == c.n;
        IndexUnique(InOrder(tree), |Front(c)|);
      }
    }

    // _erase: takes the node ptr out and returns its successor; e is the node the caller frees, HEAD for none.
    method EraseNode(ptr: Ptr) returns (r: Ptr, e: Ptr)
      requires Valid() && (size == 0 || ptr in Nodes(tree))
      modifies this
      ensures Valid() && |left| == old(|left|)
      ensures old(size) == 0 ==> r == HEAD && e == HEAD && tree == old(tree)
      ensures old(size) > 0 ==> e == ptr && Nodes(tree) == old(Nodes(tree)) - {ptr}
      ensures var o := old(InOrder(tree)); old(size) > 0 ==>
        && ptr in o && r == Next(o, ptr)
        && InOrder(tree) == o[..IndexOf(o, ptr)] + o[IndexOf(o, ptr) + 1..]
    {
      if size == 0 {
        return HEAD, HEAD;
      }
      ghost var t, c, i := Place(tree, ptr);
      IndexUnique(InOrder(tree), i);
      r := Inc(ptr);
      e := ptr;
      EraseAt(e, r, t, c);
      RemovedNodes(old(tree), tree, i);
    }

    method EraseAt(e: Ptr, s: Ptr, ghost t: Tree, ghost c: Path)
      requires Valid() && t.Node? && t.n == e && Whole(t, c) == tree
      requires s == First(InOrder(t.right) + Back(c))
      modifies this
      ensures Valid() && |left| == old(|left|) && InOrder(tree) == Without(t, c)
    {
      WithoutSize(t, c);
      var x, px;
      ghost var t', c', b;
      x, px, t', c', b := Unlink(e, s, t, c);
      EraseBalance(e, x, px, t', c', b);
      size := size - 1;
    }

    // ----- nodes that are not in the tree

    lemma EmptyTree()
      requires Valid()
      ensures size == 0 <==> tree == Nil
    {}

    lemma RootFocus()
      requires Valid()
      ensures parent[HEAD] == RootOf(tree)
    {}

    /** The order has no repetition and does not contain the head. */
    lemma DistinctNodes()
      requires Valid()
      ensures Distinct(tree) && HEAD !in Nodes(tree)
    {
      OrderFacts();
      OrderNodes(tree);
    }

    lemma OrderFacts()
      requires Valid()
      ensures NoDup(InOrder(tree)) && HEAD !in InOrder(tree) && |InOrder(tree)| == size
      ensures forall n :: n in InOrder(tree) <==> n in Nodes(tree)
    {
      OrderDistinct(tree);
      OrderNodes(tree);
    }

    lemma TreeInPool()
      requires Valid()
      ensures forall n :: n in Nodes(tree) ==> n < |left|
    {
      NodesInPool(Links(), tree, HEAD);
    }

    // clear: the head is linked to itself again; the nodes are no longer reached.
    method Clear()
      requires Valid()
      modifies this
      ensures Valid() && tree == Nil && |left| == old(|left|)
    {
      size := 0;
      red := red[HEAD := false];
      parent := parent[HEAD := HEAD];
      left := left[HEAD := HEAD];
      right := right[HEAD := HEAD];
      tree := Nil;
      assert Bal(Nil, 0);
    }

    // Drops every slot but the head's.
    method Shrink()
      requires Valid() && tree == Nil
      modifies this
      ensures Valid() && tree == Nil && |left| == 1
    {
      left, parent, right, red := left[..1], parent[..1], right[..1], red[..1];
    }

    // _buynode with memory never used before: a red node below w.
    method NewNode(w: Ptr) returns (n: Ptr)
      requires Valid()
      modifies this`left, this`parent, this`right, this`red
      ensures Valid() && n == old(|left|) && |left| == old(|left|) + 1
      ensures n != HEAD && n !in Nodes(tree) && parent[n] == w && red[n]
      ensures forall m :: m in Nodes(tree) ==> m < old(|left|)
    {
      n := |left|;
      NodesInPool(Links(), tree, HEAD);
      left, parent, right, red := left + [HEAD], parent + [w], right + [HEAD], red + [true];
      AtFrame(old(Links()), Links(), tree, Top);
    }

    // _buynode with the memory of a node that was freed.
    method ReuseNode(n: Ptr, w: Ptr)
      requires Valid() && n != HEAD && n < |left| && n !in Nodes(tree)
      modifies this`left, this`parent, this`right, this`red
      ensures Valid() && |left| == old(|left|) && parent[n] == w && red[n]
    {
      parent := parent[n := w];
      red := red[n := true];
      right := right[n := HEAD];
      left := left[n := HEAD];
      AtFrame(old(Links()), Links(), tree, Top);
    }
  }
}
