/** Positions in the in-order sequence: what the iterators compute. */
module Positions {
  import opened Wrappers
  import opened Trees
  import opened NodePool

  ghost function First(o: seq<Ptr>): Ptr { if o == [] then HEAD else o[0] }
  ghost function Last(o: seq<Ptr>): Ptr { if o == [] then HEAD else o[|o| - 1] }

  ghost function IndexOf(o: seq<Ptr>, n: Ptr): (i: nat)
    requires n in o
    ensures i < |o| && o[i] == n
  {
    if o[0] == n then 0 else 1 + IndexOf(o[1..], n)
  }

  /** The node at place i, the head beyond the last place. */
  ghost function NodeAt(o: seq<Ptr>, i: nat): Ptr { if i < |o| then o[i] else HEAD }

  /** operator++: from the end it wraps to the first node. */
  ghost function Next(o: seq<Ptr>, n: Ptr): Ptr {
    if n in o then NodeAt(o, IndexOf(o, n) + 1) else First(o)
  }

  /** operator--: from the end to the last node; from the first node it ends up at the root. */
  ghost function Prev(o: seq<Ptr>, root: Ptr, n: Ptr): Ptr {
    if n !in o then Last(o)
    else if IndexOf(o, n) == 0 then root
    else o[IndexOf(o, n) - 1]
  }

  ghost function Advance(o: seq<Ptr>, n: Ptr, steps: nat): Ptr
    decreases steps
  {
    if steps == 0 then n else Advance(o, Next(o, n), steps - 1)
  }

  lemma IndexUnique(o: seq<Ptr>, i: nat)
    requires NoDup(o) && i < |o|
    ensures IndexOf(o, o[i]) == i
  {}

  /** Where an iterator stands: the end behind all places. */
  ghost function PlaceOf(o: seq<Ptr>, n: Ptr): nat { if n in o then IndexOf(o, n) else |o| }

  lemma PlaceOfNode(o: seq<Ptr>, i: nat)
    requires NoDup(o) && HEAD !in o && i <= |o|
    ensures PlaceOf(o, NodeAt(o, i)) == i
  {
    if i < |o| { IndexUnique(o, i); }
  }

  lemma {:induction false} AdvanceFrom(o: seq<Ptr>, i: nat, steps: nat)
    requires NoDup(o) && HEAD !in o && i + steps <= |o|
    ensures Advance(o, NodeAt(o, i), steps) == NodeAt(o, i + steps)
    decreases steps
  {
    if steps > 0 {
      IndexUnique(o, i);
      AdvanceFrom(o, i + 1, steps - 1);
    }
  }

  /** From begin, ++ visits every node once, in order, and is at end after exactly size steps. */
  lemma WalkVisitsAll(o: seq<Ptr>, i: nat)
    requires NoDup(o) && HEAD !in o && i <= |o|
    ensures Advance(o, First(o), i) == NodeAt(o, i)
    ensures Advance(o, First(o), i) == HEAD <==> i == |o|
  {
    AdvanceFrom(o, 0, i);
    assert i < |o| ==> o[i] in o;
  }

  /** -- undoes ++ everywhere but at the end of a map that is not empty, where ++ wraps around. */
  lemma DecUndoesInc(o: seq<Ptr>, root: Ptr, n: Ptr)
    requires NoDup(o) && HEAD !in o && (n == HEAD || n in o) && (if o == [] then root == HEAD else root in o)
    ensures Prev(o, root, Next(o, n)) == n <==> n != HEAD || o == []
  {
    if n in o {
      var i := IndexOf(o, n);
      if i + 1 < |o| { IndexUnique(o, i + 1); }
    } else if o != [] {
      IndexUnique(o, 0);
    }
  }

  /** ++ undoes -- everywhere but at begin of a map that is not empty, where -- goes to the root. */
  lemma IncUndoesDec(o: seq<Ptr>, root: Ptr, n: Ptr)
    requires NoDup(o) && HEAD !in o && (n == HEAD || n in o) && (if o == [] then root == HEAD else root in o)
    ensures Next(o, Prev(o, root, n)) == n <==> o == [] || n != o[0]
  {
    if n in o {
      var i := IndexOf(o, n);
      if i == 0 {
        assert NodeAt(o, IndexOf(o, root) + 1) != o[0];
      } else {
        IndexUnique(o, i - 1);
        IndexUnique(o, 0);
      }
    } else if o != [] {
      IndexUnique(o, |o| - 1);
    }
  }

  ghost function Elements(o: seq<Ptr>): set<Ptr> { set n | n in o }

  lemma ElementsAll(t: Tree)
    ensures Elements(InOrder(t)) == Nodes(t)
  {
    OrderNodes(t);
  }

  /** Only the whole order starts at begin and stops at end. */
  lemma WholeRange(o: seq<Ptr>, i: nat, j: nat)
    requires NoDup(o) && HEAD !in o && i <= j <= |o| && NodeAt(o, i) == First(o) && NodeAt(o, j) == HEAD
    ensures o[i..j] == o && o[..i] + o[j..] == []
  {
    forall m | 0 <= m < |o| ensures o[m] != HEAD { assert o[m] in o; }
  }

  /** The next node of a range after the ones before place m are gone. */
  lemma RangePlace(o: seq<Ptr>, i: nat, m: nat)
    requires NoDup(o) && HEAD !in o && i <= m < |o|
    ensures var o' := Cut(o, i, m);
      && o[m] in o' && o[m] != HEAD && IndexOf(o', o[m]) == i && Next(o', o[m]) == NodeAt(o, m + 1)
      && o'[..i] + o'[i + 1..] == Cut(o, i, m + 1)
  {
    var o' := Cut(o, i, m);
    assert o'[i] == o[m];
    assert NoDup(o');
    IndexUnique(o', i);
  }

  /** The order without the places from i up to, but not including, m. */
  ghost function Cut(o: seq<Ptr>, i: nat, m: nat): seq<Ptr>
    requires i <= m <= |o|
  {
    o[..i] + o[m..]
  }

  ghost predicate SubMap<T>(f': map<Ptr, T>, f: map<Ptr, T>) {
    forall n :: n in f' ==> n in f && f'[n] == f[n]
  }

  lemma SubMapLess<T>(f': map<Ptr, T>, n: Ptr, f: map<Ptr, T>)
    requires SubMap(f', f)
    ensures SubMap(f' - {n}, f)
  {}

  lemma SubMapIsCut<T>(f': map<Ptr, T>, f: map<Ptr, T>, gone: set<Ptr>)
    requires SubMap(f', f) && f'.Keys == f.Keys - gone
    ensures f' == f - gone
  {}

  lemma CutElements(o: seq<Ptr>, i: nat, j: nat)
    requires NoDup(o) && i <= j <= |o|
    ensures Elements(o[..i] + o[j..]) == Elements(o) - Elements(o[i..j])
  {
    assert o == o[..i] + o[i..j] + o[j..];
    forall n | n in o[i..j] ensures n !in o[..i] + o[j..] {
      var m :| i <= m < j && o[m] == n;
    }
  }

  lemma CutNothing(o: seq<Ptr>, i: nat)
    requires i <= |o|
    ensures Cut(o, i, i) == o
  {}

  lemma RangeEnd(t: Tree, m: nat, j: nat)
    requires Distinct(t) && HEAD !in Nodes(t) && m <= j <= |InOrder(t)|
    ensures NodeAt(InOrder(t), m) == NodeAt(InOrder(t), j) <==> m == j
  {
    OrderDistinct(t);
    OrderNodes(t);
    assert m < |InOrder(t)| ==> InOrder(t)[m] in InOrder(t);
  }
}
