/** The map and the multi-map over the red-black tree: keys, values, searches and node reuse. */
module Maps {
  import opened Trees
  import opened NodePool
  import opened Balance
  import opened Positions
  import opened KeyOrder
  import opened BaseMaps

  class Map<K(!new), V> {
    const base: BaseMap
    const multi: bool
    var less: (K, K) -> bool
    var key: map<Ptr, K>
    var value: map<Ptr, V>
    var free: seq<Ptr>

    ghost function Order(): seq<Ptr>
      reads this, base
    {
      InOrder(base.tree)
    }

    ghost predicate Valid()
      reads this, base
    {
      base.Valid() && Keyed(base.tree, key, value, less, multi) && Spare(free, key.Keys, |base.left|)
    }

    constructor (less: (K, K) -> bool, multi: bool)
      requires StrictWeak(less)
      ensures Valid() && Order() == [] && this.less == less && this.multi == multi && fresh(base)
    {
      base := new BaseMap();
      this.less, this.multi := less, multi;
      key, value, free := map[], map[], [];
    }

    // ----- searches

    /** A search takes at most twice the binary logarithm of size + 1 steps. */
    lemma StepsBound(steps: nat)
      requires Valid() && steps <= Height(base.tree)
      ensures Pow2((steps + 1) / 2) <= base.size + 1
    {
      base.OrderFacts();
      HeightBound(base.tree);
      Pow2Monotone((steps + 1) / 2, (Height(base.tree) + 1) / 2);
    }

    /** What one step of a descent at node t.n knows about the keys on either side. */
    lemma Descend(t: Tree, c: Path, k: K)
      requires Valid() && At(base.Links(), t, c) && t.Node? && Around(t, c) == Order()
      ensures var l, r := InRight(t.left, t.n, t.red, c), InLeft(t.n, t.red, t.right, c);
        && t.n in key
        && (if less(key[t.n], k) then AllBelow(Front(l), key, less, k) else NoneBelow(Back(r), key, less, k))
        && (if less(k, key[t.n]) then AllAbove(Back(r), key, less, k) else NoneAbove(Front(l), key, less, k))
    {
      DescendKeys(Around(t, c), t, c, key, less, multi, k);
    }

    // The descent of _lbound: it ends in the hole between the keys below k and the others.
    method LowerHole(k: K) returns (r: Ptr, ghost c: Path, ghost steps: nat)
      requires Valid()
      ensures Around(Nil, c) == Order() && r == First(Back(c))
      ensures AllBelow(Front(c), key, less, k) && NoneBelow(Back(c), key, less, k)
      ensures steps <= Height(base.tree)
    {
      ghost var t := base.tree;
      var p := base.parent[HEAD];
      c, r, steps := Top, HEAD, 0;
      WholeOrder(t, c);
      while p != HEAD
        invariant At(base.Links(), t, c) && p == RootOf(t) && Around(t, c) == Order()
        invariant r == First(Back(c)) && AllBelow(Front(c), key, less, k) && NoneBelow(Back(c), key, less, k)
        invariant steps + Height(t) <= Height(base.tree)
        decreases t
      {
        base.Branches(t, c);
        Descend(t, c, k);
        steps := steps + 1;
        if less(key[p], k) {
          p := base.right[p];
          t, c := t.right, InRight(t.left, t.n, t.red, c);
        } else {
          r := p;
          p := base.left[p];
          t, c := t.left, InLeft(t.n, t.red, t.right, c);
        }
      }
      base.HeadOnly(t, c);
    }

    /** The descent to the upper bound of k has come to t: what is in front of it is not above k, what is behind is. */
    ghost predicate Searching(t: Tree, c: Path, k: K)
      reads this, base
    {
      && At(base.Links(), t, c) && Whole(t, c) == base.tree && Around(t, c) == Order()
      && NoneAbove(Front(c), key, less, k) && AllAbove(Back(c), key, less, k)
    }

    lemma SearchNode(t: Tree, c: Path, k: K)
      requires Valid() && Searching(t, c, k) && t.Node?
      ensures t.n in key && t.n < |base.left| && t.n != HEAD
    {
      base.Branches(t, c);
      Descend(t, c, k);
    }

    lemma SearchLeft(t: Tree, c: Path, k: K)
      requires Valid() && Searching(t, c, k) && t.Node? && t.n in key && less(k, key[t.n])
      ensures var l := InLeft(t.n, t.red, t.right, c);
        Searching(t.left, l, k) && t.n < |base.left| && base.left[t.n] == RootOf(t.left) && First(Back(l)) == t.n
    {
      base.Branches(t, c);
      Descend(t, c, k);
    }

    lemma SearchRight(t: Tree, c: Path, k: K)
      requires Valid() && Searching(t, c, k) && t.Node? && t.n in key && !less(k, key[t.n])
      ensures var r := InRight(t.left, t.n, t.red, c);
        Searching(t.right, r, k) && t.n < |base.left| && base.right[t.n] == RootOf(t.right) && Back(r) == Back(c)
    {
      base.Branches(t, c);
      Descend(t, c, k);
    }

    // The descent of _ubound.
    method UpperHole(k: K) returns (r: Ptr, ghost c: Path, ghost steps: nat)
      requires Valid()
      ensures Around(Nil, c) == Order() && r == First(Back(c))
      ensures NoneAbove(Front(c), key, less, k) && AllAbove(Back(c), key, less, k)
      ensures steps <= Height(base.tree)
    {
      ghost var t := base.tree;
      var p := base.parent[HEAD];
      c, r, steps := Top, HEAD, 0;
      WholeOrder(t, c);
      while p != HEAD
        invariant Searching(t, c, k) && p == RootOf(t) && r == First(Back(c))
        invariant steps + Height(t) <= Height(base.tree)
        decreases t
      {
        SearchNode(t, c, k);
        steps := steps + 1;
        if less(k, key[p]) {
          SearchLeft(t, c, k);
          r := p;
          p := base.left[p];
          t, c := t.left, InLeft(t.n, t.red, t.right, c);
        } else {
          SearchRight(t, c, k);
          p := base.right[p];
          t, c := t.right, InRight(t.left, t.n, t.red, c);
        }
      }
      base.HeadOnly(t, c);
    }

    // _lbound
    method LowerBound(k: K) returns (r: Ptr, ghost i: nat, ghost steps: nat)
      requires Valid()
      ensures LowerAt(Order(), key, less, k, i) && r == NodeAt(Order(), i)
      ensures (r == HEAD || r in Order()) && LowerAt(Order(), key, less, k, PlaceOf(Order(), r))
      ensures steps <= Height(base.tree) && Pow2((steps + 1) / 2) <= base.size + 1
    {
      ghost var c;
      r, c, steps := LowerHole(k);
      StepsBound(steps);
      i := |Front(c)|;
      LowerSplit(Front(c), Back(c), key, less, k);
      assert Around(Nil, c) == Front(c) + Back(c);
      base.OrderFacts();
      PlaceOfNode(Order(), i);
    }

    // _ubound
    method UpperBound(k: K) returns (r: Ptr, ghost i: nat, ghost steps: nat)
      requires Valid()
      ensures UpperAt(Order(), key, less, k, i) && r == NodeAt(Order(), i)
      ensures (r == HEAD || r in Order()) && UpperAt(Order(), key, less, k, PlaceOf(Order(), r))
      ensures steps <= Height(base.tree) && Pow2((steps + 1) / 2) <= base.size + 1
    {
      ghost var c;
      r, c, steps := UpperHole(k);
      StepsBound(steps);
      i := |Front(c)|;
      UpperSplit(Front(c), Back(c), key, less, k);
      assert Around(Nil, c) == Front(c) + Back(c);
      base.OrderFacts();
      PlaceOfNode(Order(), i);
    }

    // equal_range: exactly the nodes whose keys are equivalent to k lie between the two results.
    method EqualRange(k: K) returns (first: Ptr, last: Ptr, ghost i: nat, ghost j: nat)
      requires Valid()
      ensures i <= j <= |Order()| && first == NodeAt(Order(), i) && last == NodeAt(Order(), j)
      ensures LowerAt(Order(), key, less, k, i) && UpperAt(Order(), key, less, k, j)
      ensures LowerAt(Order(), key, less, k, PlaceOf(Order(), first)) && UpperAt(Order(), key, less, k, PlaceOf(Order(), last))
      ensures forall m :: 0 <= m < |Order()| ==>
        Order()[m] in key && (i <= m < j <==> !less(key[Order()[m]], k) && !less(k, key[Order()[m]]))
    {
      ghost var steps;
      first, i, steps := LowerBound(k);
      last, j, steps := UpperBound(k);
      RangeOfEquals(Order(), key, less, k, i, j);
    }

    // find: the first node with a key equivalent to k, or the end.
    method Find(k: K) returns (r: Ptr)
      requires Valid()
      ensures r == HEAD ==> forall n :: n in key ==> less(key[n], k) || less(k, key[n])
      ensures r != HEAD ==> r in key && !less(key[r], k) && !less(k, key[r])
      ensures r != HEAD ==> r in Order() && LowerAt(Order(), key, less, k, IndexOf(Order(), r))
    {
      ghost var i, steps;
      var p;
      p, i, steps := LowerBound(k);
      OrderNodes(base.tree);
      OrderDistinct(base.tree);
      if i < |Order()| { IndexUnique(Order(), i); }
      FoundOrNot(Order(), key, less, multi, k, i);
      r := if p == HEAD || less(k, key[p]) then HEAD else p;
    }

    // ----- insertion

    // The descent of insert: it ends in the hole at the upper bound of k.
    method InsertHole(k: K) returns (w: Ptr, goLeft: bool, ghost c: Path, ghost steps: nat)
      requires Valid()
      ensures Whole(Nil, c) == base.tree && Around(Nil, c) == Order() && At(base.Links(), Nil, c)
      ensures w == Above(c) && goLeft == !c.InRight?
      ensures NoneAbove(Front(c), key, less, k) && AllAbove(Back(c), key, less, k)
      ensures steps <= Height(base.tree) && Pow2((steps + 1) / 2) <= base.size + 1
    {
      w, goLeft, c, steps := InsertDescent(k);
      StepsBound(steps);
    }

    method InsertDescent(k: K) returns (w: Ptr, goLeft: bool, ghost c: Path, ghost steps: nat)
      requires Valid()
      ensures Searching(Nil, c, k) && w == Above(c) && goLeft == !c.InRight? && steps <= Height(base.tree)
    {
      ghost var t := base.tree;
      var x := base.parent[HEAD];
      w, goLeft := HEAD, true;
      c, steps := Top, 0;
      WholeOrder(t, c);
      while x != HEAD
        invariant Searching(t, c, k) && x == RootOf(t) && w == Above(c) && goLeft == !c.InRight?
        invariant steps + Height(t) <= Height(base.tree)
        decreases t
      {
        SearchNode(t, c, k);
        steps := steps + 1;
        w := x;
        goLeft := less(k, key[x]);
        if goLeft {
          SearchLeft(t, c, k);
          x := base.left[x];
          t, c := t.left, InLeft(t.n, t.red, t.right, c);
        } else {
          SearchRight(t, c, k);
          x := base.right[x];
          t, c := t.right, InRight(t.left, t.n, t.red, c);
        }
      }
      base.HeadOnly(t, c);
    }

    // _buynode: freed nodes are used again, the last freed first.
    method BuyNode(w: Ptr) returns (n: Ptr)
      requires Valid()
      modifies this`free, base
      ensures Valid() && base.tree == old(base.tree)
      ensures n != HEAD && n !in key && n < |base.left| && n !in free && base.parent[n] == w && base.red[n]
      ensures if old(free) == [] then free == [] else old(free) == free + [n]
    {
      if free != [] {
        n := free[|free| - 1];
        free := free[..|free| - 1];
        base.ReuseNode(n, w);
      } else {
        SpareMore(free, key.Keys, |base.left|);
        n := base.NewNode(w);
      }
    }

    // The key and the value are constructed in the new node.
    method NewItem(w: Ptr, k: K, v: V) returns (n: Ptr)
      requires Valid()
      modifies this, base
      ensures less == old(less) && base.Valid() && base.tree == old(base.tree)
      ensures n != HEAD && n !in Nodes(base.tree) && n !in old(key) && n < |base.left| && base.parent[n] == w && base.red[n]
      ensures key == old(key)[n := k] && value == old(value)[n := v] && Spare(free, key.Keys, |base.left|)
    {
      n := BuyNode(w);
      SpareTaken(free, key.Keys, |base.left|, n);
      value := value[n := v];
      key := key[n := k];
      assert key.Keys == old(key).Keys + {n};
    }

    method InsertAt(goLeft: bool, w: Ptr, k: K, v: V, ghost c: Path) returns (n: Ptr)
      requires Valid() && Whole(Nil, c) == base.tree && w == Above(c) && (c != Top ==> goLeft == c.InLeft?)
      requires NoneAbove(Front(c), key, less, k) && AllAbove(Back(c), key, less, k)
      requires multi || AllBelow(Front(c), key, less, k)
      modifies this, base
      ensures Valid() && less == old(less)
      ensures n != HEAD && n !in old(key) && Order() == Front(c) + [n] + Back(c)
      ensures key == old(key)[n := k] && value == old(value)[n := v]
    {
      n := NewItem(w, k, v);
      HangItem(goLeft, w, n, c, k, v, old(key), old(value));
    }

    // The new node is hung into the tree.
    method HangItem(goLeft: bool, w: Ptr, n: Ptr, ghost c: Path, ghost k: K, ghost v: V, ghost key0: map<Ptr, K>, ghost value0: map<Ptr, V>)
      requires base.Valid() && Keyed(base.tree, key0, value0, less, multi) && key == key0[n := k] && value == value0[n := v]
      requires n != HEAD && n !in Nodes(base.tree) && n < |base.left| && base.parent[n] == w && base.red[n]
      requires Spare(free, key.Keys, |base.left|)
      requires Whole(Nil, c) == base.tree && w == Above(c) && (c != Top ==> goLeft == c.InLeft?)
      requires NoneAbove(Front(c), key0, less, k) && AllAbove(Back(c), key0, less, k)
      requires multi || AllBelow(Front(c), key0, less, k)
      modifies base
      ensures Valid() && Order() == Front(c) + [n] + Back(c)
    {
      WholeOrder(Nil, c);
      KeyedInsertAny(base.tree, Front(c), n, Back(c), key0, value0, less, multi, k, v);
      base.InsertNode(goLeft, w, n, c);
    }

    // In a map the node before the hole is the only one that may have an equivalent key.
    method Twin(w: Ptr, goLeft: bool, k: K, ghost c: Path) returns (p: Ptr)
      requires Valid() && !multi && Whole(Nil, c) == base.tree && w == Above(c) && goLeft == !c.InRight?
      requires NoneAbove(Front(c), key, less, k) && AllAbove(Back(c), key, less, k)
      ensures p == HEAD ==> AllBelow(Front(c), key, less, k)
      ensures p != HEAD ==> p in key && !less(key[p], k) && !less(k, key[p])
    {
      p := w;
      base.BeforeHole(c);
      if goLeft && p == base.left[HEAD] {
        return HEAD;
      }
      if goLeft { p := base.Dec(p); }
      if less(key[p], k) {
        LastBelow(Front(c), Back(c), key, less, k);
        p := HEAD;
      }
    }

    lemma HolePlace(c: Path, k: K)
      requires Around(Nil, c) == Order() && NoneAbove(Front(c), key, less, k) && AllAbove(Back(c), key, less, k)
      ensures UpperAt(Order(), key, less, k, |Front(c)|) && Order() == Front(c) + Back(c)
      ensures |Front(c)| <= |Order()| && Order()[..|Front(c)|] == Front(c) && Order()[|Front(c)|..] == Back(c)
    {
      assert Around(Nil, c) == Front(c) + Back(c);
      UpperSplit(Front(c), Back(c), key, less, k);
      Halves(Order(), Front(c), Back(c));
    }

    // insert: at the upper bound of k, unless this is a map that already has an equivalent key.
    method Insert(k: K, v: V) returns (r: Ptr, inserted: bool, ghost i: nat)
      requires Valid()
      modifies this, base
      ensures Valid() && less == old(less)
      ensures UpperAt(old(Order()), old(key), less, k, i)
      ensures inserted <==> multi || forall n :: n in old(key) ==> less(old(key)[n], k) || less(k, old(key)[n])
      ensures inserted ==>
        && r != HEAD && r !in old(key)
        && Order() == old(Order())[..i] + [r] + old(Order())[i..]
        && key == old(key)[r := k] && value == old(value)[r := v]
      ensures !inserted ==>
        && r in key && !less(key[r], k) && !less(k, key[r])
        && base.tree == old(base.tree) && key == old(key) && value == old(value)
    {
      var w, goLeft;
      ghost var c, steps;
      w, goLeft, c, steps := InsertHole(k);
      i := |Front(c)|;
      HolePlace(c, k);
      if !multi {
        r := Twin(w, goLeft, k, c);
        if r != HEAD {
          return r, false, i;
        }
        NoTwin(base.tree, Front(c), Back(c), key, less, k);
      }
      r := InsertAt(goLeft, w, k, v, c);
      inserted := true;
    }

    // ----- removal

    // _destval, _destkey and _freenode
    method Free(e: Ptr)
      requires e in key && e in value && 0 < e < |base.left| && Spare(free, key.Keys, |base.left|)
      modifies this`key, this`value, this`free
      ensures key == old(key) - {e} && value == old(value) - {e} && Spare(free, key.Keys, |base.left|)
    {
      SpareGiven(free, key.Keys, |base.left|, e);
      value := value - {e};
      key := key - {e};
      assert key.Keys == old(key).Keys - {e};
      free := free + [e];
    }

    // erase: exactly the given node goes; the successor comes back.
    method Erase(ptr: Ptr) returns (r: Ptr)
      requires Valid() && (base.size == 0 || ptr in key)
      modifies this, base
      ensures Valid() && less == old(less)
      ensures old(base.size) == 0 ==> r == HEAD && base.tree == old(base.tree) && key == old(key) && value == old(value)
      ensures var o := old(Order()); old(base.size) > 0 ==>
        && ptr in o && r == Next(o, ptr)
        && Order() == o[..IndexOf(o, ptr)] + o[IndexOf(o, ptr) + 1..]
        && key == old(key) - {ptr} && value == old(value) - {ptr}
    {
      base.TreeInPool();
      ghost var t := base.tree;
      var e;
      r, e := base.EraseNode(ptr);
      if e != HEAD {
        FreeErased(e, t);
      }
    }

    // A node that has left the tree is freed with its key and value.
    method FreeErased(e: Ptr, ghost t: Tree)
      requires base.Valid() && Keyed(t, key, value, less, multi) && Spare(free, key.Keys, |base.left|)
      requires e in InOrder(t) && 0 < e < |base.left| && Nodes(base.tree) == Nodes(t) - {e}
      requires Order() == InOrder(t)[..IndexOf(InOrder(t), e)] + InOrder(t)[IndexOf(InOrder(t), e) + 1..]
      modifies this`key, this`value, this`free
      ensures Valid() && key == old(key) - {e} && value == old(value) - {e}
    {
      OrderNodes(t);
      KeyedErase(t, base.tree, e, key, value, less, multi);
      Free(e);
    }

    // Frees a whole subtree: right children by recursion, left children in the loop.
    method FreeAll(x0: Ptr, ghost t0: Tree, ghost c0: Path)
      requires At(base.Links(), t0, c0) && x0 == RootOf(t0)
      requires Nodes(t0) <= key.Keys && key.Keys == value.Keys && Spare(free, key.Keys, |base.left|)
      modifies this`key, this`value, this`free
      ensures key == old(key) - Nodes(t0) && value == old(value) - Nodes(t0) && Spare(free, key.Keys, |base.left|)
      decreases t0, 1
    {
      var x := x0;
      ghost var t, c, gone := t0, c0, {};
      base.HeadOnly(t, c);
      while x != HEAD
        invariant At(base.Links(), t, c) && x == RootOf(t) && (t == t0 || t < t0) && (t.Node? ==> t.n != HEAD)
        invariant gone + Nodes(t) == Nodes(t0) && gone !! Nodes(t)
        invariant key == old(key) - gone && value == old(value) - gone
        invariant key.Keys == value.Keys && Spare(free, key.Keys, |base.left|)
        decreases t
      {
        StillThere(old(key), gone, t, t0);
        x := FreeTop(x, t, c);
        SplitNodes(t, gone, Nodes(t0));
        LessLess(old(key), gone, {t.n} + Nodes(t.right));
        LessLess(old(value), gone, {t.n} + Nodes(t.right));
        gone := gone + ({t.n} + Nodes(t.right));
        t, c := t.left, InLeft(t.n, t.red, t.right, c);
        base.HeadOnly(t, c);
      }
    }

    lemma StillThere(m: map<Ptr, K>, gone: set<Ptr>, t: Tree, t0: Tree)
      requires Nodes(t0) <= m.Keys && gone + Nodes(t) == Nodes(t0) && gone !! Nodes(t)
      ensures Nodes(t) <= (m - gone).Keys
    {}

    lemma LessLess<T>(m: map<Ptr, T>, a: set<Ptr>, b: set<Ptr>)
      ensures (m - a) - b == m - (a + b)
    {}

    lemma SplitNodes(t: Tree, gone: set<Ptr>, all: set<Ptr>)
      requires t.Node? && Distinct(t) && gone + Nodes(t) == all && gone !! Nodes(t)
      ensures var gone' := gone + ({t.n} + Nodes(t.right)); gone' + Nodes(t.left) == all && gone' !! Nodes(t.left)
    {}

    // One round of the loop: everything of the subtree but its left part.
    method FreeTop(x: Ptr, ghost t: Tree, ghost c: Path) returns (y: Ptr)
      requires At(base.Links(), t, c) && t.Node? && x == t.n
      requires Nodes(t) <= key.Keys && key.Keys == value.Keys && Spare(free, key.Keys, |base.left|)
      modifies this`key, this`value, this`free
      ensures At(base.Links(), t.left, InLeft(t.n, t.red, t.right, c)) && y == RootOf(t.left)
      ensures var gone := {t.n} + Nodes(t.right); key == old(key) - gone && value == old(value) - gone
      ensures key.Keys == value.Keys && Spare(free, key.Keys, |base.left|)
      decreases t, 0
    {
      base.BelowFocus(t, c);
      assert Distinct(t);
      FreeAll(base.right[x], t.right, InRight(t.left, t.n, t.red, c));
      y := base.left[x];
      Free(x);
    }

    // erase of all nodes at once: they are freed without touching the links, then the head is reset.
    method EraseAll()
      requires Valid()
      modifies this, base
      ensures Valid() && less == old(less) && base.tree == Nil && key == map[] && value == map[]
    {
      base.RootFocus();
      FreeAll(base.parent[HEAD], base.tree, Top);
      base.Clear();
    }

    // One round of the range loop: the iterator moves on before its node goes.
    method EraseStep(first: Ptr, last: Ptr, ghost t0: Tree, ghost i: nat, ghost m: nat, ghost j: nat,
                     ghost key0: map<Ptr, K>, ghost value0: map<Ptr, V>)
      returns (next: Ptr, ghost m': nat)
      requires Valid() && Distinct(t0) && HEAD !in Nodes(t0) && i <= m <= j <= |InOrder(t0)| && first != last
      requires Order() == Cut(InOrder(t0), i, m) && first == NodeAt(InOrder(t0), m) && last == NodeAt(InOrder(t0), j)
      requires SubMap(key, key0) && SubMap(value, value0)
      modifies this, base
      ensures Valid() && less == old(less)
      ensures m' == m + 1 <= j && Order() == Cut(InOrder(t0), i, m') && next == NodeAt(InOrder(t0), m')
      ensures SubMap(key, key0) && SubMap(value, value0)
    {
      OrderDistinct(t0);
      OrderNodes(t0);
      RangePlace(InOrder(t0), i, m);
      base.OrderFacts();
      next := base.Inc(first);
      m' := m + 1;
      SubMapLess(key, first, key0);
      SubMapLess(value, first, value0);
      var r := Erase(first);
    }

    // The loop of erase(first, last).
    method EraseLoop(first0: Ptr, last: Ptr, ghost i: nat, ghost j: nat) returns (first: Ptr)
      requires Valid() && i <= j <= |Order()| && first0 == NodeAt(Order(), i) && last == NodeAt(Order(), j)
      modifies this, base
      ensures Valid() && less == old(less) && first == last
      ensures Order() == Cut(old(Order()), i, j) && SubMap(key, old(key)) && SubMap(value, old(value))
    {
      base.DistinctNodes();
      ghost var t0, m := base.tree, i;
      first := first0;
      CutNothing(InOrder(t0), i);
      while first != last
        invariant Valid() && less == old(less) && i <= m <= j
        invariant Order() == Cut(InOrder(t0), i, m) && first == NodeAt(InOrder(t0), m)
        invariant SubMap(key, old(key)) && SubMap(value, old(value))
        decreases j - m
      {
        first, m := EraseStep(first, last, t0, i, m, j, old(key), old(value));
      }
      RangeEnd(t0, m, j);
    }

    method EraseStretch(first0: Ptr, last: Ptr, ghost i: nat, ghost j: nat) returns (first: Ptr)
      requires Valid() && i <= j <= |Order()| && first0 == NodeAt(Order(), i) && last == NodeAt(Order(), j)
      modifies this, base
      ensures Valid() && less == old(less) && first == last
      ensures var o := old(Order()); var gone := Elements(o[i..j]);
        Order() == Cut(o, i, j) && key == old(key) - gone && value == old(value) - gone
    {
      base.DistinctNodes();
      first := EraseLoop(first0, last, i, j);
      StretchCut(old(base.tree), base.tree, old(key), key, old(value), value, less, multi, i, j);
    }

    // erase(first, last): exactly the nodes from place i up to, but not including, place j go.
    method EraseRange(first: Ptr, last: Ptr, ghost i: nat, ghost j: nat) returns (r: Ptr)
      requires Valid() && i <= j <= |Order()| && first == NodeAt(Order(), i) && last == NodeAt(Order(), j)
      modifies this, base
      ensures Valid() && less == old(less) && r == last
      ensures var o := old(Order()); var gone := Elements(o[i..j]);
        Order() == Cut(o, i, j) && key == old(key) - gone && value == old(value) - gone
    {
      if first == base.left[HEAD] && last == HEAD {
        base.OrderFacts();
        WholeRange(Order(), i, j);
        ElementsAll(base.tree);
        EraseAll();
        assert old(key) - old(key).Keys == map[];
        r := base.left[HEAD];
      } else {
        r := EraseStretch(first, last, i, j);
      }
    }

    // erase(k): exactly the nodes with a key equivalent to k go, a stretch of the order.
    method EraseKey(k: K)
      requires Valid()
      modifies this, base
      ensures Valid() && less == old(less)
      ensures var gone := Twins(old(key), less, k); key == old(key) - gone && value == old(value) - gone
      ensures exists i: nat, j: nat :: i <= j <= |old(Order())| && Order() == old(Order())[..i] + old(Order())[j..]
    {
      ghost var o := Order();
      if base.size == 0 {
        base.EmptyTree();
        assert Twins(key, less, k) == {};
        assert Order() == o[..0] + o[0..];
        return;
      }
      var first, last;
      ghost var i, j;
      first, last, i, j := EqualRange(k);
      StretchOfTwins(base.tree, key, less, k, i, j);
      var r := EraseRange(first, last, i, j);
      assert Order() == o[..i] + o[j..];
    }

    // clear: every node is freed and the allocator starts afresh.
    method Clear()
      requires Valid()
      modifies this, base
      ensures Valid() && less == old(less) && base.tree == Nil && key == map[] && value == map[] && free == [] && |base.left| == 1
    {
      if base.size != 0 {
        base.OrderFacts();
        var r := EraseRange(base.left[HEAD], HEAD, 0, |Order()|);
        base.Clear();
      }
      base.EmptyTree();
      base.Shrink();
      free := [];
    }

    // Inserts a key that is not below any other at the end.
    method AppendItem(k: K, v: V, ghost xo: seq<Ptr>, ghost xkey: map<Ptr, K>, ghost xvalue: map<Ptr, V>, ghost m: nat)
      requires Valid() && NoneAbove(Order(), key, less, k) && (!multi ==> AllBelow(Order(), key, less, k))
      requires m < |xo| && SameItems(Order(), key, value, xo[..m], xkey, xvalue)
      requires xo[m] in xkey && xo[m] in xvalue && xkey[xo[m]] == k && xvalue[xo[m]] == v
      modifies this, base
      ensures Valid() && less == old(less)
      ensures SameItems(Order(), key, value, xo[..m + 1], xkey, xvalue)
    {
      base.OrderFacts();
      ghost var o, key0, value0 := Order(), key, value;
      var r, inserted;
      ghost var i;
      r, inserted, i := Insert(k, v);
      Appended(o, key0, less, k, i);
      ItemsAppended(o, o + [r], r, key0, value0, k, v, xo, xkey, xvalue, m);
      assert o + [r] + [] == o + [r];
    }

    // operator=: the nodes of x in order, with equal keys and values; duplicates keep their order.
    method Assign(x: Map<K, V>)
      requires Valid() && x.Valid() && (x == this || x.base != base) && x.multi == multi
      modifies this, base
      ensures Valid() && less == old(x.less)
      ensures SameItems(Order(), key, value, old(x.Order()), old(x.key), old(x.value))
    {
      if x == this {
        OrderNodes(base.tree);
        return;
      }
      Clear();
      less := x.less;
      CopyNodes(x);
    }

    // The loop of operator=.
    method CopyNodes(x: Map<K, V>)
      requires Valid() && x.Valid() && x != this && x.base != base && x.multi == multi && x.less == less && base.tree == Nil
      modifies this, base
      ensures Valid() && less == old(less)
      ensures SameItems(Order(), key, value, x.Order(), x.key, x.value)
    {
      x.base.DistinctNodes();
      ghost var xo, m := x.Order(), 0;
      var p := x.base.left[HEAD];
      while p != HEAD
        invariant Valid() && less == x.less && m <= |xo| && p == NodeAt(xo, m)
        invariant SameItems(Order(), key, value, xo[..m], x.key, x.value)
        decreases |xo| - m
      {
        p, m := CopyNode(x, p, xo, m);
      }
      RangeEnd(x.base.tree, m, |xo|);
      assert xo[..m] == xo;
    }

    // One round of operator=.
    method CopyNode(x: Map<K, V>, p: Ptr, ghost xo: seq<Ptr>, ghost m: nat) returns (next: Ptr, ghost m': nat)
      requires Valid() && x.Valid() && x != this && x.base != base && x.multi == multi && x.less == less
      requires xo == x.Order() && m < |xo| && p == NodeAt(xo, m)
      requires SameItems(Order(), key, value, xo[..m], x.key, x.value)
      modifies this, base
      ensures Valid() && less == x.less && m' == m + 1 <= |xo| && next == NodeAt(xo, m')
      ensures SameItems(Order(), key, value, xo[..m'], x.key, x.value)
    {
      AppendNode(x, p, xo, m);
      next := x.Following(p, m);
      m' := m + 1;
    }

    // One node of x in operator=.
    method AppendNode(x: Map<K, V>, p: Ptr, ghost xo: seq<Ptr>, ghost m: nat)
      requires Valid() && x.Valid() && x != this && x.base != base && x.multi == multi && x.less == less
      requires xo == x.Order() && m < |xo| && p == NodeAt(xo, m)
      requires SameItems(Order(), key, value, xo[..m], x.key, x.value)
      modifies this, base
      ensures Valid() && less == old(less)
      ensures SameItems(Order(), key, value, xo[..m + 1], x.key, x.value)
    {
      AppendReady(Order(), key, value, xo, x.base.tree, x.key, x.value, less, multi, m);
      AppendItem(x.key[p], x.value[p], xo, x.key, x.value, m);
    }

    method Following(p: Ptr, ghost m: nat) returns (next: Ptr)
      requires Valid() && m < |Order()| && p == NodeAt(Order(), m)
      ensures next == NodeAt(Order(), m + 1)
    {
      base.OrderFacts();
      IndexUnique(Order(), m);
      next := base.Inc(p);
    }
  }
}
