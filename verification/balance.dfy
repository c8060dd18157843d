/** Red-black balance of trees and of trees with a hole. */
module Balance {
  import opened Trees

  ghost predicate IsRed(t: Tree) { t.Node? && t.red }
  ghost predicate PathRed(c: Path) { c != Top && c.red }

  /** Every path from t down to a missing child passes b black nodes. */
  ghost predicate Bal(t: Tree, b: nat) {
    if t.Nil? then b == 0
    else if t.red then Bal(t.left, b) && Bal(t.right, b)
    else b >= 1 && Bal(t.left, b - 1) && Bal(t.right, b - 1)
  }

  /** No red node of t has a red child. */
  ghost predicate NoRedRed(t: Tree) {
    t.Node? ==>
      && NoRedRed(t.left) && NoRedRed(t.right)
      && (t.red ==> !IsRed(t.left) && !IsRed(t.right))
  }

  /** Below the root of t no red node has a red child. */
  ghost predicate NoRedRedBelow(t: Tree) {
    t.Node? ==> NoRedRed(t.left) && NoRedRed(t.right)
  }

  ghost predicate RedBlack(t: Tree) {
    !IsRed(t) && NoRedRed(t) && exists b: nat :: Bal(t, b)
  }

  /** The tree around the hole is balanced as soon as the hole holds a tree with b black nodes on every path. */
  ghost predicate PathBal(c: Path, b: nat) {
    match c
    case Top => true
    case InLeft(_, red, r, up) => Bal(r, b) && PathBal(up, if red then b else b + 1)
    case InRight(l, _, red, up) => Bal(l, b) && PathBal(up, if red then b else b + 1)
  }

  ghost predicate PathNoRedRed(c: Path) {
    match c
    case Top => true
    case InLeft(_, red, r, up) => NoRedRed(r) && (red ==> !IsRed(r) && !PathRed(up)) && PathNoRedRed(up)
    case InRight(l, _, red, up) => NoRedRed(l) && (red ==> !IsRed(l) && !PathRed(up)) && PathNoRedRed(up)
  }

  ghost predicate TopBlack(c: Path) {
    c != Top ==> if c.up.Top? then !c.red else TopBlack(c.up)
  }

  lemma {:induction false} WholeBalanced(t: Tree, c: Path, b: nat)
    requires Bal(t, b) && PathBal(c, b)
    requires NoRedRed(t) && PathNoRedRed(c) && TopBlack(c)
    requires !IsRed(t) || (c != Top && !c.red)
    ensures RedBlack(Whole(t, c))
    decreases c
  {
    if c != Top { WholeBalanced(Lift(t, c), c.up, if c.red then b else b + 1); }
  }

  /** In a balanced tree every hole is balanced. */
  lemma {:induction false} SplitBalanced(t: Tree, c: Path) returns (b: nat)
    requires RedBlack(Whole(t, c))
    ensures Bal(t, b) && PathBal(c, b) && NoRedRed(t) && PathNoRedRed(c) && TopBlack(c)
    ensures !IsRed(t) || (c != Top && !c.red)
    decreases c
  {
    if c == Top {
      b :| Bal(t, b);
    } else {
      var b' := SplitBalanced(Lift(t, c), c.up);
      b := if c.red then b' else b' - 1;
    }
  }

  // ----- insertion

  /** The state of the insert loop: only the red root of t may have a red parent. */
  ghost predicate InsertState(t: Tree, c: Path, b: nat) {
    IsRed(t) && NoRedRed(t) && Bal(t, b) && PathNoRedRed(c) && PathBal(c, b) && TopBlack(c)
  }

  lemma InsertDone(t: Tree, c: Path, b: nat)
    requires InsertState(t, c, b) && !PathRed(c)
    ensures c == Top ==> RedBlack(t.(red := false))
    ensures c != Top ==> RedBlack(Whole(t, c))
  {
    if c == Top {
      assert Bal(t.(red := false), b + 1);
    } else {
      WholeBalanced(t, c, b);
    }
  }

  // ----- removal

  /** The state of the erase loop: t has one black node too few on every path. */
  ghost predicate EraseState(t: Tree, c: Path, b: nat) {
    NoRedRedBelow(t) && Bal(t, b) && PathNoRedRed(c) && PathBal(c, b + 1) && TopBlack(c)
    && (!IsRed(t) ==> NoRedRed(t))
  }

  /** A node with a black node too few below it always has a sibling. */
  lemma SiblingExists(t: Tree, c: Path, b: nat)
    requires EraseState(t, c, b) && c != Top
    ensures Sibling(c).Node? && Bal(Sibling(c), b + 1) && NoRedRed(Sibling(c))
    ensures PathBal(c.up, if c.red then b + 1 else b + 2) && PathNoRedRed(c.up)
    ensures c.red ==> !IsRed(Sibling(c)) && !PathRed(c.up)
    ensures c.up != Top ==> TopBlack(c.up)
  {}

  ghost function Blackened(t: Tree): Tree { if t.Nil? then Nil else t.(red := false) }

  lemma EraseDone(t: Tree, c: Path, b: nat)
    requires EraseState(t, c, b) && (c == Top || IsRed(t))
    ensures RedBlack(Whole(Blackened(t), c))
  {
    assert t.Node? && !t.red ==> Blackened(t) == t;
    WholeBalanced(Blackened(t), c, if IsRed(t) then b + 1 else b);
  }

  /** The state in which the erase loop is left by break: nothing is missing any more. */
  ghost predicate Settled(t: Tree, c: Path, b: nat) {
    Bal(t, b) && PathBal(c, b) && NoRedRed(t) && PathNoRedRed(c) && TopBlack(c) && !IsRed(t)
  }

  lemma SettledDone(t: Tree, c: Path, b: nat)
    requires Settled(t, c, b)
    ensures RedBlack(Whole(Blackened(t), c))
  {
    assert Blackened(t) == t;
    WholeBalanced(t, c, b);
  }

  // ----- height

  ghost function Height(t: Tree): nat {
    if t.Nil? then 0
    else 1 + if Height(t.left) > Height(t.right) then Height(t.left) else Height(t.right)
  }

  ghost function Pow2(n: nat): nat { if n == 0 then 1 else 2 * Pow2(n - 1) }

  lemma {:induction false} BlackHeight(t: Tree, b: nat)
    requires Bal(t, b) && NoRedRed(t)
    ensures Pow2(b) <= |InOrder(t)| + 1
    ensures Height(t) <= 2 * b + if IsRed(t) then 1 else 0
  {
    if t.Node? {
      var b' := if t.red then b else b - 1;
      BlackHeight(t.left, b');
      BlackHeight(t.right, b');
    }
  }

  lemma {:induction false} Pow2Monotone(m: nat, n: nat)
    requires m <= n
    ensures Pow2(m) <= Pow2(n)
  {
    if m < n { Pow2Monotone(m, n - 1); }
  }

  /** No search path of a red-black tree is longer than twice the binary logarithm of size + 1. */
  lemma HeightBound(t: Tree)
    requires RedBlack(t)
    ensures Pow2((Height(t) + 1) / 2) <= |InOrder(t)| + 1
  {
    var b: nat :| Bal(t, b);
    BlackHeight(t, b);
    Pow2Monotone((Height(t) + 1) / 2, b);
  }
}
