/** Asynchronous requests of a user connection (msg_user.cpp): each is answered by its reply or by its timeout. Every
    method is one stretch of code under the wait mutex, or what follows a callback; threads interleave between them. */
module AsyncReplies {
  import opened Wrappers

  // Markers are keys of a map; the order of numbers stands for theirs.
  type Marker = nat
  type Msg(==)

  datatype Answer = ByReply(msg: Msg) | ByTimeout

  ghost function Markers(replies: seq<(Marker, Msg)>): set<Marker> { set r | r in replies :: r.0 }
  ghost function Messages(replies: seq<(Marker, Msg)>): set<Msg> { set r | r in replies :: r.1 }

  ghost predicate Distinct(replies: seq<(Marker, Msg)>) {
    forall i, j :: 0 <= i < j < |replies| ==> replies[i].0 != replies[j].0 && replies[i].1 != replies[j].1
  }

  lemma Queued(replies: seq<(Marker, Msg)>, m: Marker, msg: Msg)
    requires Distinct(replies) && m !in Markers(replies) && msg !in Messages(replies)
    ensures Distinct(replies + [(m, msg)])
    ensures Markers(replies + [(m, msg)]) == Markers(replies) + {m} && Messages(replies + [(m, msg)]) == Messages(replies) + {msg}
  {
    var q := replies + [(m, msg)];
    assert forall i :: 0 <= i < |replies| ==> replies[i] in replies;
    assert forall r :: r in q <==> r in replies || r == (m, msg);
  }

  lemma Unqueued(replies: seq<(Marker, Msg)>)
    requires Distinct(replies) && replies != []
    ensures Distinct(replies[1..]) && replies[0].0 !in Markers(replies[1..]) && replies[0].1 !in Messages(replies[1..])
    ensures Markers(replies) == Markers(replies[1..]) + {replies[0].0} && Messages(replies) == Messages(replies[1..]) + {replies[0].1}
  {
    assert replies == [replies[0]] + replies[1..];
    assert forall r :: r in replies <==> r == replies[0] || r in replies[1..];
  }

  predicate First(s: set<Marker>, m: Marker) { m in s && forall n :: n in s ==> m <= n }

  lemma {:induction false} FirstExists(s: set<Marker>)
    requires s != {}
    ensures exists m :: First(s, m)
  {
    var x :| x in s;
    var rest := s - {x};
    if rest == {} {
      assert s == {x};
      assert First(s, x);
    } else {
      FirstExists(rest);
      var y :| First(rest, y);
      assert forall n :: n in s ==> n == x || n in rest;
      assert First(s, if x < y then x else y);
    }
  }

  // The loop of pop_async_timeouted: the first of the waits, in the order of their markers, that has expired.
  method FirstExpired(waiting: map<Marker, int>, now: int) returns (r: Option<Marker>)
    ensures r == None <==> forall m :: m in waiting ==> waiting[m] >= now
    ensures r.Some? ==> r.value in waiting && waiting[r.value] < now
    ensures r.Some? ==> forall m :: m in waiting && waiting[m] < now ==> r.value <= m
  {
    var rest := waiting.Keys;
    while rest != {}
      invariant rest <= waiting.Keys
      invariant forall m :: m in waiting && m !in rest ==> waiting[m] >= now
    {
      FirstExists(rest);
      var m :| First(rest, m);
      if waiting[m] < now {
        return Some(m);
      }
      rest := rest - {m};
    }
    return None;
  }

  class AsyncReplies {
    var waiting: map<Marker, int>          // _async_map: when the wait expires
    var replies: seq<(Marker, Msg)>        // _async_list

    ghost var issued: set<Marker>          // the markers of all requests
    ghost var fired: map<Marker, Answer>   // those whose callback has begun, and what for
    ghost var pushed: set<Msg>             // the asynchronous replies that have arrived
    ghost var inCallback: set<Msg>
    ghost var kept: set<Msg>               // handed over to the user for good
    ghost var destroyed: set<Msg>

    // Every marker is in one place only, and none is lost.
    ghost predicate MarkersKept()
      reads this
    {
      && Distinct(replies) && issued == waiting.Keys + Markers(replies) + fired.Keys
      && waiting.Keys !! Markers(replies) && waiting.Keys !! fired.Keys && Markers(replies) !! fired.Keys
    }

    // Every reply is in one place only, and none is lost.
    ghost predicate MessagesKept()
      reads this
    {
      && pushed == Messages(replies) + inCallback + kept + destroyed
      && Messages(replies) !! inCallback && Messages(replies) !! kept && Messages(replies) !! destroyed
      && inCallback !! kept && inCallback !! destroyed && kept !! destroyed
      && (forall m :: m in fired && fired[m].ByReply? ==> fired[m].msg in pushed && fired[m].msg !in Messages(replies))
    }

    ghost predicate Valid()
      reads this
    {
      MarkersKept() && MessagesKept()
    }

    constructor ()
      ensures Valid() && issued == {} && pushed == {} && fired == map[] && waiting == map[] && replies == []
    {
      waiting, replies := map[], [];
      issued, fired, pushed, inCallback, kept, destroyed := {}, map[], {}, {}, {}, {};
    }

    // send_async up to the sending: the wait begins before the request goes out.
    method SendAsync(marker: Marker, expires: int)
      requires Valid() && marker !in issued
      modifies this`waiting, this`issued
      ensures Valid() && issued == old(issued) + {marker} && waiting == old(waiting)[marker := expires]
    {
      waiting := waiting[marker := expires];
      issued := issued + {marker};
    }

    // push_msg of an asynchronous reply: the wait moves to the list, or nobody waits any more and the reply goes.
    method PushReply(marker: Marker, msg: Msg)
      requires Valid() && msg !in pushed
      modifies this`waiting, this`replies, this`pushed, this`destroyed
      ensures Valid() && pushed == old(pushed) + {msg}
      ensures if marker in old(waiting)
        then waiting == old(waiting) - {marker} && replies == old(replies) + [(marker, msg)] && destroyed == old(destroyed)
        else waiting == old(waiting) && replies == old(replies) && destroyed == old(destroyed) + {msg}
    {
      pushed := pushed + {msg};
      if marker in waiting {
        Queued(replies, marker, msg);
        replies := replies + [(marker, msg)];
        waiting := waiting - {marker};
      } else {
        destroyed := destroyed + {msg};
      }
    }

    // pop_async, after which the callback runs.
    method PopAsync() returns (r: Option<(Marker, Msg)>)
      requires Valid()
      modifies this`replies, this`fired, this`inCallback
      ensures Valid()
      ensures old(replies) == [] ==> r == None && replies == [] && fired == old(fired) && inCallback == old(inCallback)
      ensures old(replies) != [] ==> r == Some(old(replies)[0]) && replies == old(replies)[1..]
      ensures r.Some? ==> r.value.0 !in old(fired) && fired == old(fired)[r.value.0 := ByReply(r.value.1)]
      ensures r.Some? ==> inCallback == old(inCallback) + {r.value.1}
    {
      if replies == [] {
        return None;
      }
      var first := replies[0];
      Unqueued(replies);
      replies := replies[1..];
      fired, inCallback := fired[first.0 := ByReply(first.1)], inCallback + {first.1};
      return Some(first);
    }

    // After async_callback: the user keeps the reply, or it is destroyed.
    method CallbackDone(msg: Msg, keep: bool)
      requires Valid() && msg in inCallback
      modifies this`inCallback, this`kept, this`destroyed
      ensures Valid() && inCallback == old(inCallback) - {msg}
      ensures kept == old(kept) + (if keep then {msg} else {}) && destroyed == old(destroyed) + (if keep then {} else {msg})
    {
      inCallback := inCallback - {msg};
      if keep { kept := kept + {msg}; } else { destroyed := destroyed + {msg}; }
    }

    // pop_async_timeouted, after which the callback runs with an error message: the waits are gone through in the order
    // of their markers.
    method PopTimeouted(now: int) returns (r: Option<Marker>)
      requires Valid()
      modifies this`waiting, this`fired
      ensures Valid()
      ensures r == None <==> forall m :: m in old(waiting) ==> old(waiting)[m] >= now
      ensures r == None ==> waiting == old(waiting) && fired == old(fired)
      ensures r.Some? ==> r.value in old(waiting) && old(waiting)[r.value] < now && r.value !in old(fired)
      ensures r.Some? ==> forall m :: m in old(waiting) && old(waiting)[m] < now ==> r.value <= m
      ensures r.Some? ==> waiting == old(waiting) - {r.value} && fired == old(fired)[r.value := ByTimeout]
    {
      r := FirstExpired(waiting, now);
      if r.Some? {
        waiting := waiting - {r.value};
        fired := fired[r.value := ByTimeout];
      }
    }
  }
}
