/** The priority queue of a connection (msg_que.h): three lists, the lowest number first. */
module MsgQueue {
  import opened Wrappers

  const PRIORITY: nat := 3

  datatype Outcome = Pushed | Blocked | Full

  /** What comes out if nothing more goes in. */
  ghost function Drain<T>(q: seq<seq<T>>): seq<T> {
    if q == [] then [] else q[0] + Drain(q[1..])
  }

  /** The priority a message is queued with. */
  function Check(priority: nat): (p: nat)
    ensures p < PRIORITY
  {
    if priority >= PRIORITY then PRIORITY - 1 else priority
  }

  lemma {:induction false} DrainSplit<T>(q: seq<seq<T>>, i: nat)
    requires i <= |q|
    ensures Drain(q) == Drain(q[..i]) + Drain(q[i..])
  {
    if i == 0 {
      assert q[0..] == q;
    } else {
      DrainSplit(q[1..], i - 1);
      assert q[..i][1..] == q[1..][..i - 1] && q[i..] == q[1..][i - 1..];
    }
  }

  lemma {:induction false} DrainEmpty<T>(q: seq<seq<T>>)
    ensures Drain(q) == [] <==> forall i :: 0 <= i < |q| ==> q[i] == []
  {
    if q != [] {
      DrainEmpty(q[1..]);
      assert forall i :: 0 < i < |q| ==> q[i] == q[1..][i - 1];
      assert (forall i :: 0 <= i < |q| ==> q[i] == []) ==> forall i :: 0 <= i < |q| - 1 ==> q[1..][i] == q[i + 1];
    }
  }

  /** The list that is served next: the first one that is not empty. */
  ghost predicate Top<T>(q: seq<seq<T>>, i: nat) {
    i < |q| && q[i] != [] && forall k :: 0 <= k < i ==> q[k] == []
  }

  lemma DrainTop<T>(q: seq<seq<T>>, i: nat)
    requires Top(q, i)
    ensures Drain(q) == q[i] + Drain(q[i + 1..])
  {
    DrainSplit(q, i);
    DrainEmpty(q[..i]);
    assert q[i..][1..] == q[i + 1..];
  }

  class MessageQueue<T> {
    const capacity: nat
    var blocked: bool
    var queue: seq<seq<T>>

    ghost predicate Valid()
      reads this
    {
      |queue| == PRIORITY && forall i :: 0 <= i < PRIORITY ==> |queue[i]| <= capacity
    }

    constructor (capacity: nat)
      ensures Valid() && Drain(queue) == [] && !blocked && this.capacity == capacity
    {
      this.capacity := capacity;
      blocked, queue := false, seq(PRIORITY, i => []);
      new;
      DrainEmpty(queue);
    }

    // push: behind all messages of the same or a more urgent priority, before all others.
    method Push(item: T, priority: nat) returns (r: Outcome)
      requires Valid()
      modifies this`queue
      ensures Valid()
      ensures r == if blocked then Blocked else if |old(queue)[Check(priority)]| == capacity then Full else Pushed
      ensures r != Pushed ==> queue == old(queue)
      ensures r == Pushed ==> var p := Check(priority);
        Drain(queue) == Drain(old(queue)[..p + 1]) + [item] + Drain(old(queue)[p + 1..])
    {
      if blocked {
        return Blocked;
      }
      var p := Check(priority);
      if |queue[p]| == capacity {
        return Full;
      }
      queue := queue[p := queue[p] + [item]];
      DrainSplit(queue, p + 1);
      Behind(old(queue), queue, p, item);
      return Pushed;
    }

    // pop: the first message of the most urgent list that is not empty.
    method Pop() returns (r: Option<T>)
      requires Valid()
      modifies this`queue
      ensures Valid()
      ensures if old(Drain(queue)) == [] then r == None && queue == old(queue)
        else r == Some(old(Drain(queue))[0]) && Drain(queue) == old(Drain(queue))[1..]
    {
      var index := 0;
      while index < PRIORITY
        invariant index <= PRIORITY && queue == old(queue) && forall k :: 0 <= k < index ==> queue[k] == []
      {
        if queue[index] != [] {
          DrainTop(queue, index);
          r := Some(queue[index][0]);
          queue := queue[index := queue[index][1..]];
          Served(old(queue), queue, index);
          return;
        }
        index := index + 1;
      }
      DrainEmpty(queue);
      r := None;
    }

    // touch: the list that will be served next.
    method Touch() returns (r: Option<nat>)
      requires Valid()
      ensures r.None? <==> Drain(queue) == []
      ensures r.Some? ==> Top(queue, r.value)
    {
      var index := 0;
      while index < PRIORITY
        invariant index <= PRIORITY && forall k :: 0 <= k < index ==> queue[k] == []
      {
        if queue[index] != [] {
          DrainTop(queue, index);
          return Some(index);
        }
        index := index + 1;
      }
      DrainEmpty(queue);
      r := None;
    }

    method Block() returns (changed: bool)
      modifies this`blocked
      ensures blocked && changed == !old(blocked)
    {
      changed := !blocked;
      blocked := true;
    }

    method Unblock() returns (changed: bool)
      modifies this`blocked
      ensures !blocked && changed == old(blocked)
    {
      changed := blocked;
      blocked := false;
    }
  }

  lemma Behind<T>(q: seq<seq<T>>, q': seq<seq<T>>, p: nat, item: T)
    requires p < |q| && q' == q[p := q[p] + [item]]
    ensures Drain(q'[..p + 1]) == Drain(q[..p + 1]) + [item] && q'[p + 1..] == q[p + 1..]
  {
    DrainSplit(q'[..p + 1], p);
    DrainSplit(q[..p + 1], p);
    assert q'[..p + 1][..p] == q[..p + 1][..p];
    assert q'[..p + 1][p..] == [q[p] + [item]] && q[..p + 1][p..] == [q[p]];
    assert [q[p] + [item]][1..] == [] && [q[p]][1..] == [];
  }

  lemma Served<T>(q: seq<seq<T>>, q': seq<seq<T>>, i: nat)
    requires Top(q, i) && q' == q[i := q[i][1..]]
    ensures Drain(q) != [] && Drain(q') == Drain(q)[1..]
  {
    DrainTop(q, i);
    DrainSplit(q', i);
    DrainEmpty(q'[..i]);
    assert q'[..i] == q[..i];
    assert q'[i..][0] == q[i][1..] && q'[i..][1..] == q[i + 1..];
    TailOf(q[i], Drain(q[i + 1..]));
  }

  lemma TailOf<T>(a: seq<T>, b: seq<T>)
    requires a != []
    ensures (a + b)[1..] == a[1..] + b
  {}
}
