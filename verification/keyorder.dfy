/** Sequences of nodes ordered by their keys. */
module KeyOrder {
  import opened Trees
  import opened Positions

  /** key_compare is a strict weak order. */
  ghost predicate StrictWeak<K(!new)>(less: (K, K) -> bool) {
    && (forall a :: !less(a, a))
    && (forall a, b, c :: less(a, b) && less(b, c) ==> less(a, c))
    && (forall a, b, c :: !less(a, b) && !less(b, c) ==> !less(a, c))
  }

  ghost predicate AllBelow<K>(s: seq<Ptr>, key: map<Ptr, K>, less: (K, K) -> bool, k: K) {
    forall n :: n in s ==> n in key && less(key[n], k)
  }

  ghost predicate NoneBelow<K>(s: seq<Ptr>, key: map<Ptr, K>, less: (K, K) -> bool, k: K) {
    forall n :: n in s ==> n in key && !less(key[n], k)
  }

  ghost predicate AllAbove<K>(s: seq<Ptr>, key: map<Ptr, K>, less: (K, K) -> bool, k: K) {
    forall n :: n in s ==> n in key && less(k, key[n])
  }

  ghost predicate NoneAbove<K>(s: seq<Ptr>, key: map<Ptr, K>, less: (K, K) -> bool, k: K) {
    forall n :: n in s ==> n in key && !less(k, key[n])
  }

  /** The nodes before place i have keys below k, those from i on do not. */
  ghost predicate LowerAt<K>(o: seq<Ptr>, key: map<Ptr, K>, less: (K, K) -> bool, k: K, i: nat) {
    i <= |o| && AllBelow(o[..i], key, less, k) && NoneBelow(o[i..], key, less, k)
  }

  /** The nodes before place i have keys not above k, those from i on have keys above k. */
  ghost predicate UpperAt<K>(o: seq<Ptr>, key: map<Ptr, K>, less: (K, K) -> bool, k: K, i: nat) {
    i <= |o| && NoneAbove(o[..i], key, less, k) && AllAbove(o[i..], key, less, k)
  }

  /** In a map the keys rise strictly along the order; in a multi-map they never fall. */
  ghost predicate Sorted<K>(o: seq<Ptr>, key: map<Ptr, K>, less: (K, K) -> bool, multi: bool) {
    o != [] ==>
      && o[0] in key
      && (if multi then NoneBelow(o[1..], key, less, key[o[0]]) else AllAbove(o[1..], key, less, key[o[0]]))
      && Sorted(o[1..], key, less, multi)
  }

  /** Around any node of a sorted sequence. */
  lemma {:induction false} SortedAround<K(!new)>(a: seq<Ptr>, x: Ptr, b: seq<Ptr>, key: map<Ptr, K>, less: (K, K) -> bool, multi: bool)
    requires StrictWeak(less) && Sorted(a + [x] + b, key, less, multi)
    ensures x in key && NoneAbove(a, key, less, key[x]) && NoneBelow(b, key, less, key[x])
    ensures !multi ==> AllBelow(a, key, less, key[x]) && AllAbove(b, key, less, key[x])
    decreases |a|
  {
    var o := a + [x] + b;
    if a == [] {
      assert o[1..] == b;
    } else {
      assert o[1..] == a[1..] + [x] + b;
      SortedAround(a[1..], x, b, key, less, multi);
      assert x in o[1..];
      assert a == [a[0]] + a[1..];
    }
  }

  /** One step of the search for the lower bound settles one side of the node. */
  lemma LowerStep<K(!new)>(a: seq<Ptr>, x: Ptr, b: seq<Ptr>, key: map<Ptr, K>, less: (K, K) -> bool, multi: bool, k: K)
    requires StrictWeak(less) && Sorted(a + [x] + b, key, less, multi)
    ensures x in key
    ensures if less(key[x], k) then AllBelow(a + [x], key, less, k) else NoneBelow([x] + b, key, less, k)
  {
    SortedAround(a, x, b, key, less, multi);
  }

  lemma UpperStep<K(!new)>(a: seq<Ptr>, x: Ptr, b: seq<Ptr>, key: map<Ptr, K>, less: (K, K) -> bool, multi: bool, k: K)
    requires StrictWeak(less) && Sorted(a + [x] + b, key, less, multi)
    ensures x in key
    ensures if less(k, key[x]) then AllAbove([x] + b, key, less, k) else NoneAbove(a + [x], key, less, k)
  {
    SortedAround(a, x, b, key, less, multi);
  }

  lemma LowerSplit<K>(a: seq<Ptr>, b: seq<Ptr>, key: map<Ptr, K>, less: (K, K) -> bool, k: K)
    requires AllBelow(a, key, less, k) && NoneBelow(b, key, less, k)
    ensures LowerAt(a + b, key, less, k, |a|)
  {}

  lemma UpperSplit<K>(a: seq<Ptr>, b: seq<Ptr>, key: map<Ptr, K>, less: (K, K) -> bool, k: K)
    requires NoneAbove(a, key, less, k) && AllAbove(b, key, less, k)
    ensures UpperAt(a + b, key, less, k, |a|)
  {}

  /** What one step of a descent at node t.n knows about the keys on either side. */
  lemma DescendKeys<K(!new)>(o: seq<Ptr>, t: Tree, c: Path, key: map<Ptr, K>, less: (K, K) -> bool, multi: bool, k: K)
    requires StrictWeak(less) && Sorted(o, key, less, multi) && t.Node? && o == Around(t, c)
    ensures var l, r := InRight(t.left, t.n, t.red, c), InLeft(t.n, t.red, t.right, c);
      && t.n in key
      && (if less(key[t.n], k) then AllBelow(Front(l), key, less, k) else NoneBelow(Back(r), key, less, k))
      && (if less(k, key[t.n]) then AllAbove(Back(r), key, less, k) else NoneAbove(Front(l), key, less, k))
  {
    var a, b := Front(c) + InOrder(t.left), InOrder(t.right) + Back(c);
    AroundSplit(t, c);
    SidesOf(t, c);
    LowerStep(a, t.n, b, key, less, multi, k);
    UpperStep(a, t.n, b, key, less, multi, k);
  }

  lemma SidesOf(t: Tree, c: Path)
    requires t.Node?
    ensures Front(InRight(t.left, t.n, t.red, c)) == (Front(c) + InOrder(t.left)) + [t.n]
    ensures Back(InLeft(t.n, t.red, t.right, c)) == [t.n] + (InOrder(t.right) + Back(c))
  {}

  /** Between the two bounds lie exactly the nodes with equivalent keys. */
  lemma RangeOfEquals<K(!new)>(o: seq<Ptr>, key: map<Ptr, K>, less: (K, K) -> bool, k: K, i: nat, j: nat)
    requires StrictWeak(less) && LowerAt(o, key, less, k, i) && UpperAt(o, key, less, k, j)
    ensures i <= j
    ensures forall m :: 0 <= m < |o| ==> o[m] in key && (i <= m < j <==> !less(key[o[m]], k) && !less(k, key[o[m]]))
  {
    forall m | 0 <= m < |o|
      ensures o[m] in key && (m < i <==> less(key[o[m]], k)) && (m < j <==> !less(k, key[o[m]]))
    {
      if m < i { assert o[m] == o[..i][m]; } else { assert o[m] == o[i..][m - i]; }
      if m < j { assert o[m] == o[..j][m]; } else { assert o[m] == o[j..][m - j]; }
    }
    assert j < |o| ==> o[j] in key;
  }

  /** At the lower bound of k stands a node with an equivalent key, unless there is none. */
  lemma FoundOrNot<K(!new)>(o: seq<Ptr>, key: map<Ptr, K>, less: (K, K) -> bool, multi: bool, k: K, i: nat)
    requires StrictWeak(less) && Sorted(o, key, less, multi) && LowerAt(o, key, less, k, i)
    ensures i < |o| ==> o[i] in key && !less(key[o[i]], k)
    ensures i == |o| || less(k, key[o[i]]) ==> forall n :: n in o ==> n in key && (less(key[n], k) || less(k, key[n]))
  {
    assert o == o[..i] + o[i..];
    if i < |o| {
      assert o == o[..i] + [o[i]] + o[i + 1..];
      SortedAround(o[..i], o[i], o[i + 1..], key, less, multi);
      assert o[i..] == [o[i]] + o[i + 1..];
    }
  }

  /** What holds of the keys behind the first one also holds of a new key among them. */
  lemma OneMoreBehind<K>(s: seq<Ptr>, s': seq<Ptr>, n: Ptr, key: map<Ptr, K>, less: (K, K) -> bool, multi: bool, first: K, k: K)
    requires if multi then NoneBelow(s, key, less, first) && !less(k, first) else AllAbove(s, key, less, first) && less(first, k)
    requires forall m :: m in s' ==> m == n || m in s
    ensures if multi then NoneBelow(s', key[n := k], less, first) else AllAbove(s', key[n := k], less, first)
  {}

  lemma SameMembers(a: seq<Ptr>, n: Ptr, b: seq<Ptr>)
    ensures forall m :: m in a + [n] + b ==> m == n || m in a + b
  {}

  /** A new key put between the keys not above it and the keys above it. */
  lemma {:induction false} SortedInsert<K(!new)>(a: seq<Ptr>, n: Ptr, b: seq<Ptr>, key: map<Ptr, K>, less: (K, K) -> bool, multi: bool, k: K)
    requires StrictWeak(less) && Sorted(a + b, key, less, multi) && n !in a && n !in b
    requires NoneAbove(a, key, less, k) && AllAbove(b, key, less, k) && (multi || AllBelow(a, key, less, k))
    ensures Sorted(a + [n] + b, key[n := k], less, multi)
    decreases |a|
  {
    var key' := key[n := k];
    var o := a + [n] + b;
    if a == [] {
      assert o[1..] == b && a + b == b;
      SortedOtherKey(b, n, key, less, multi, k);
    } else {
      assert o[1..] == a[1..] + [n] + b && (a + b)[1..] == a[1..] + b;
      SortedInsert(a[1..], n, b, key, less, multi, k);
      SameMembers(a[1..], n, b);
      assert a[0] in a && (a + b)[0] == a[0] == o[0];
      OneMoreBehind(a[1..] + b, a[1..] + [n] + b, n, key, less, multi, key[a[0]], k);
    }
  }

  lemma {:induction false} SortedOtherKey<K>(o: seq<Ptr>, n: Ptr, key: map<Ptr, K>, less: (K, K) -> bool, multi: bool, k: K)
    requires Sorted(o, key, less, multi) && n !in o
    ensures Sorted(o, key[n := k], less, multi)
  {
    if o != [] { SortedOtherKey(o[1..], n, key, less, multi, k); }
  }

  lemma {:induction false} SortedSuffix<K>(m: seq<Ptr>, b: seq<Ptr>, key: map<Ptr, K>, less: (K, K) -> bool, multi: bool)
    requires Sorted(m + b, key, less, multi)
    ensures Sorted(b, key, less, multi)
  {
    if m == [] {
      assert m + b == b;
    } else {
      assert (m + b)[1..] == m[1..] + b;
      SortedSuffix(m[1..], b, key, less, multi);
    }
  }

  /** Taking a stretch out of a sorted sequence. */
  lemma {:induction false} SortedCut<K>(a: seq<Ptr>, m: seq<Ptr>, b: seq<Ptr>, key: map<Ptr, K>, less: (K, K) -> bool, multi: bool)
    requires Sorted(a + m + b, key, less, multi)
    ensures Sorted(a + b, key, less, multi)
  {
    if a == [] {
      assert a + m + b == m + b && a + b == b;
      SortedSuffix(m, b, key, less, multi);
    } else {
      assert (a + m + b)[1..] == a[1..] + m + b && (a + b)[1..] == a[1..] + b;
      SortedCut(a[1..], m, b, key, less, multi);
      assert forall n :: n in (a + b)[1..] ==> n in (a + m + b)[1..];
    }
  }

  lemma {:induction false} SortedSameKeys<K>(o: seq<Ptr>, key: map<Ptr, K>, key': map<Ptr, K>, less: (K, K) -> bool, multi: bool)
    requires Sorted(o, key, less, multi)
    requires forall n :: n in o && n in key ==> n in key' && key'[n] == key[n]
    ensures Sorted(o, key', less, multi)
  {
    if o != [] { SortedSameKeys(o[1..], key, key', less, multi); }
  }

  lemma Halves(o: seq<Ptr>, f: seq<Ptr>, b: seq<Ptr>)
    requires o == f + b
    ensures o[..|f|] == f && o[|f|..] == b
  {}

  lemma SortedDrop<K>(o: seq<Ptr>, i: nat, j: nat, key: map<Ptr, K>, key': map<Ptr, K>, less: (K, K) -> bool, multi: bool)
    requires i <= j <= |o| && Sorted(o, key, less, multi)
    requires forall n :: n in o[..i] + o[j..] && n in key ==> n in key' && key'[n] == key[n]
    ensures Sorted(o[..i] + o[j..], key', less, multi)
  {
    assert o == o[..i] + o[i..j] + o[j..];
    SortedCut(o[..i], o[i..j], o[j..], key, less, multi);
    SortedSameKeys(o[..i] + o[j..], key, key', less, multi);
  }

  /** In a map, if the key just before the hole is below k, all keys before the hole are. */
  lemma LastBelow<K(!new)>(a: seq<Ptr>, b: seq<Ptr>, key: map<Ptr, K>, less: (K, K) -> bool, k: K)
    requires StrictWeak(less) && Sorted(a + b, key, less, false) && a != []
    requires a[|a| - 1] in key && less(key[a[|a| - 1]], k)
    ensures AllBelow(a, key, less, k)
  {
    var f, p := a[..|a| - 1], a[|a| - 1];
    assert a == f + [p] && a + b == f + [p] + b;
    SortedAround(f, p, b, key, less, false);
  }

  // ----- the data of a whole tree

  /** Exactly the nodes of the tree have a key and a value, and the keys are sorted along the order. */
  ghost predicate Keyed<K(!new), V>(t: Tree, key: map<Ptr, K>, value: map<Ptr, V>, less: (K, K) -> bool, multi: bool) {
    StrictWeak(less) && key.Keys == Nodes(t) && value.Keys == Nodes(t) && Sorted(InOrder(t), key, less, multi)
  }

  /** Slots of the pool that can be used again: each once, none of them in use. */
  ghost predicate Spare(free: seq<Ptr>, used: set<Ptr>, slots: nat) {
    free == [] ||
    var rest, n := free[..|free| - 1], free[|free| - 1];
      Spare(rest, used, slots) && 0 < n < slots && n !in used && n !in rest
  }

  lemma {:induction false} SpareMore(free: seq<Ptr>, used: set<Ptr>, slots: nat)
    requires Spare(free, used, slots)
    ensures Spare(free, used, slots + 1) && slots !in free
  {
    if free != [] { SpareMore(free[..|free| - 1], used, slots); }
  }

  lemma {:induction false} SpareTaken(free: seq<Ptr>, used: set<Ptr>, slots: nat, n: Ptr)
    requires Spare(free, used, slots) && n !in free
    ensures Spare(free, used + {n}, slots)
  {
    if free != [] { SpareTaken(free[..|free| - 1], used, slots, n); }
  }

  lemma SpareGiven(free: seq<Ptr>, used: set<Ptr>, slots: nat, n: Ptr)
    requires Spare(free, used, slots) && n in used && 0 < n < slots
    ensures Spare(free + [n], used - {n}, slots)
  {
    SpareFewer(free, used, used - {n}, slots);
    SpareNotUsed(free, used, slots);
    assert (free + [n])[..|free|] == free;
  }

  lemma {:induction false} SpareFewer(free: seq<Ptr>, used: set<Ptr>, used': set<Ptr>, slots: nat)
    requires Spare(free, used, slots) && used' <= used
    ensures Spare(free, used', slots)
  {
    if free != [] { SpareFewer(free[..|free| - 1], used, used', slots); }
  }

  lemma {:induction false} SpareNotUsed(free: seq<Ptr>, used: set<Ptr>, slots: nat)
    requires Spare(free, used, slots)
    ensures forall n :: n in free ==> n !in used
  {
    if free != [] {
      SpareNotUsed(free[..|free| - 1], used, slots);
      assert free == free[..|free| - 1] + [free[|free| - 1]];
    }
  }

  lemma KeyedInsert<K(!new), V>(t: Tree, t': Tree, a: seq<Ptr>, n: Ptr, b: seq<Ptr>, key: map<Ptr, K>, value: map<Ptr, V>,
                                less: (K, K) -> bool, multi: bool, k: K, v: V)
    requires Keyed(t, key, value, less, multi) && n !in key
    requires InOrder(t) == a + b && InOrder(t') == a + [n] + b
    requires NoneAbove(a, key, less, k) && AllAbove(b, key, less, k) && (multi || AllBelow(a, key, less, k))
    ensures Keyed(t', key[n := k], value[n := v], less, multi)
  {
    OrderNodes(t);
    OrderNodes(t');
    assert n !in a + b;
    SortedInsert(a, n, b, key, less, multi, k);
  }

  /** The same for whatever tree the node is put into. */
  lemma KeyedInsertAny<K(!new), V>(t: Tree, a: seq<Ptr>, n: Ptr, b: seq<Ptr>, key: map<Ptr, K>, value: map<Ptr, V>,
                                   less: (K, K) -> bool, multi: bool, k: K, v: V)
    requires Keyed(t, key, value, less, multi) && n !in key && InOrder(t) == a + b
    requires NoneAbove(a, key, less, k) && AllAbove(b, key, less, k) && (multi || AllBelow(a, key, less, k))
    ensures forall t' :: InOrder(t') == a + [n] + b ==> Keyed(t', key[n := k], value[n := v], less, multi)
  {
    forall t' | InOrder(t') == a + [n] + b ensures Keyed(t', key[n := k], value[n := v], less, multi) {
      KeyedInsert(t, t', a, n, b, key, value, less, multi, k, v);
    }
  }

  /** If all keys before the hole are below k and all behind it above, none is equivalent. */
  lemma NoTwin<K(!new)>(t: Tree, a: seq<Ptr>, b: seq<Ptr>, key: map<Ptr, K>, less: (K, K) -> bool, k: K)
    requires key.Keys == Nodes(t) && InOrder(t) == a + b
    requires AllBelow(a, key, less, k) && AllAbove(b, key, less, k)
    ensures forall n :: n in key ==> less(key[n], k) || less(k, key[n])
  {
    OrderNodes(t);
    assert forall n :: n in key ==> n in a + b;
  }

  lemma KeyedErase<K(!new), V>(t: Tree, t': Tree, n: Ptr, key: map<Ptr, K>, value: map<Ptr, V>, less: (K, K) -> bool, multi: bool)
    requires Keyed(t, key, value, less, multi) && n in InOrder(t) && Nodes(t') == Nodes(t) - {n}
    requires InOrder(t') == InOrder(t)[..IndexOf(InOrder(t), n)] + InOrder(t)[IndexOf(InOrder(t), n) + 1..]
    ensures Keyed(t', key - {n}, value - {n}, less, multi)
  {
    OrderNodes(t');
    var i := IndexOf(InOrder(t), n);
    assert forall m :: m in InOrder(t') ==> m in (key - {n}).Keys;
    SortedDrop(InOrder(t), i, i + 1, key, key - {n}, less, multi);
  }

  /** If exactly a stretch of the order is gone and no other key or value has changed, the maps are cut by its nodes. */
  lemma StretchCut<K(!new), V>(t: Tree, t': Tree, key: map<Ptr, K>, key': map<Ptr, K>, value: map<Ptr, V>, value': map<Ptr, V>,
                               less: (K, K) -> bool, multi: bool, i: nat, j: nat)
    requires Keyed(t, key, value, less, multi) && Keyed(t', key', value', less, multi)
    requires SubMap(key', key) && SubMap(value', value)
    requires Distinct(t) && i <= j <= |InOrder(t)| && InOrder(t') == Cut(InOrder(t), i, j)
    ensures var gone := Elements(InOrder(t)[i..j]); key' == key - gone && value' == value - gone
  {
    OrderDistinct(t);
    ElementsAll(t);
    ElementsAll(t');
    CutElements(InOrder(t), i, j);
    SubMapIsCut(key', key, Elements(InOrder(t)[i..j]));
    SubMapIsCut(value', value, Elements(InOrder(t)[i..j]));
  }

  /** The nodes whose keys are equivalent to k. */
  ghost function Twins<K(!new)>(key: map<Ptr, K>, less: (K, K) -> bool, k: K): set<Ptr> {
    set n | n in key && !less(key[n], k) && !less(k, key[n])
  }

  lemma StretchOfTwins<K(!new)>(t: Tree, key: map<Ptr, K>, less: (K, K) -> bool, k: K, i: nat, j: nat)
    requires StrictWeak(less) && key.Keys == Nodes(t)
    requires LowerAt(InOrder(t), key, less, k, i) && UpperAt(InOrder(t), key, less, k, j)
    ensures i <= j && Elements(InOrder(t)[i..j]) == Twins(key, less, k)
  {
    var o := InOrder(t);
    OrderNodes(t);
    RangeOfEquals(o, key, less, k, i, j);
    forall n | n in key ensures n in Elements(o[i..j]) <==> n in Twins(key, less, k) {
      var m :| 0 <= m < |o| && o[m] == n;
      assert i <= m < j ==> o[i..j][m - i] == n;
    }
    assert forall n :: n in o[i..j] ==> n in o;
  }

  // ----- copying

  /** The same keys and values, place by place. */
  ghost predicate SameItems<K, V>(o: seq<Ptr>, key: map<Ptr, K>, value: map<Ptr, V>,
                                  o': seq<Ptr>, key': map<Ptr, K>, value': map<Ptr, V>)
  {
    && |o| == |o'|
    && forall i :: 0 <= i < |o| ==>
      && o[i] in key && o[i] in value && o'[i] in key' && o'[i] in value'
      && key[o[i]] == key'[o'[i]] && value[o[i]] == value'[o'[i]]
  }

  /** After the first m nodes of a sorted tree have been copied, the next one goes to the end. */
  lemma AppendReady<K(!new), V>(o: seq<Ptr>, key: map<Ptr, K>, value: map<Ptr, V>, xo: seq<Ptr>, t: Tree, xkey: map<Ptr, K>, xvalue: map<Ptr, V>,
                                less: (K, K) -> bool, multi: bool, m: nat)
    requires Keyed(t, xkey, xvalue, less, multi) && xo == InOrder(t) && m < |xo|
    requires SameItems(o, key, value, xo[..m], xkey, xvalue)
    ensures xo[m] in xkey && xo[m] in xvalue
    ensures NoneAbove(o, key, less, xkey[xo[m]]) && (!multi ==> AllBelow(o, key, less, xkey[xo[m]]))
  {
    OrderNodes(t);
    assert xo == xo[..m] + [xo[m]] + xo[m + 1..];
    SortedAround(xo[..m], xo[m], xo[m + 1..], xkey, less, multi);
    forall n | n in o ensures n in key && !less(xkey[xo[m]], key[n]) && (!multi ==> less(key[n], xkey[xo[m]])) {
      var i :| 0 <= i < |o| && o[i] == n;
      assert xo[..m][i] in xo[..m];
    }
  }

  lemma FirstIsIn<T>(s: seq<T>)
    ensures s != [] ==> exists x :: x in s
  {
    assert s != [] ==> s[0] in s;
  }

  /** The upper bound of a key above which there is none is the end. */
  lemma Appended<K>(o: seq<Ptr>, key: map<Ptr, K>, less: (K, K) -> bool, k: K, i: nat)
    requires UpperAt(o, key, less, k, i) && NoneAbove(o, key, less, k)
    ensures i == |o| && o[..i] == o && o[i..] == []
  {
    FirstIsIn(o[i..]);
    assert forall n :: n in o[i..] ==> n in o;
  }

  lemma ItemsAppended<K, V>(o: seq<Ptr>, o': seq<Ptr>, r: Ptr, key: map<Ptr, K>, value: map<Ptr, V>, k: K, v: V,
                            xo: seq<Ptr>, xkey: map<Ptr, K>, xvalue: map<Ptr, V>, m: nat)
    requires m < |xo| && SameItems(o, key, value, xo[..m], xkey, xvalue) && r !in o && o' == o + [r]
    requires xo[m] in xkey && xo[m] in xvalue && xkey[xo[m]] == k && xvalue[xo[m]] == v
    ensures SameItems(o', key[r := k], value[r := v], xo[..m + 1], xkey, xvalue)
  {
    assert xo[..m + 1] == xo[..m] + [xo[m]];
    forall i | 0 <= i < m ensures o'[i] == o[i] && o[i] != r && xo[..m][i] == xo[i] { assert o[i] in o; }
  }
}
