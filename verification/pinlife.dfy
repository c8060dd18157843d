/** The life of the pins of an asynchronous gate (aiogate.cpp), as a state machine: a step is one stretch of code under
    the pin mutex, and threads interleave between steps. */
module PinLife {
  import opened Wrappers

  type Id = nat
  type Tid = nat

  datatype Kind = Accept | Connect | Send | Recv | Bind

  // _in_progress_mask, _callback_invoking_mask (with the thread that runs the callback) and _still_alive
  datatype Pin = Pin(progress: set<Kind>, invoking: map<Kind, Tid>, alive: bool)

  // Where a thread stands between two steps.
  datatype Place =
    | InCallback(id: Id, kind: Kind)   // between lock_pin and unlock_pin
    | Closing(id: Id)                  // about to call initiate_close
    | Receiving(id: Id)                // about to call recv, after on_recv
    | OnClosing(id: Id)                // in on_close
    | Releasing(id: Id)                // has closed the port's socket, about to destroy the pin

  datatype Event =
    | Start(id: Id, kind: Kind)
    | End(id: Id, kind: Kind)
    | Dead(id: Id)
    | Removed(id: Id)
    | OnClose(id: Id)
    | Destroyed(id: Id)

  datatype State = State(
    pins: map<Id, Pin>,              // _pin_map
    closing: seq<Id>,                // _pin_list
    threads: map<Tid, Place>,        // the busy threads
    pending: set<(Id, Kind)>,        // what the socket port has been asked for and has not answered
    used: set<Id>,                   // idents ever assigned
    log: seq<Event>)

  const START := State(map[], [], map[], {}, {}, [])

  // ----- the steps

  datatype Action =
    | DoAccept(t: Tid, id: Id)
    | DoBind(t: Tid, id: Id)
    | DoConnect(id: Id)
    | Connected(t: Tid, id: Id, addresses: bool)
    | SendDone(t: Tid, id: Id, more: bool, accepts: bool)
    | Received(t: Tid, id: Id, broken: bool)
    | Failed(t: Tid, id: Id, kind: Kind)
    | Return(t: Tid, again: bool, accepts: bool)
    | RecvAgain(t: Tid, accepts: bool)
    | UserRecv(id: Id, accepts: bool)
    | UserSend(id: Id, accepts: bool)
    | UserClose(id: Id)
    | Close(t: Tid)
    | TakeClosed(t: Tid)
    | PortClose(t: Tid)
    | Destroy(t: Tid)

  predicate Found(s: State, id: Id) { id in s.pins && s.pins[id].alive }

  function Put(s: State, id: Id, p: Pin): State { s.(pins := s.pins[id := p]) }
  function Go(s: State, t: Tid, at: Place): State { s.(threads := s.threads[t := at]) }
  function Rest(s: State, t: Tid): State { s.(threads := s.threads - {t}) }
  function Note(s: State, e: Event): State { s.(log := s.log + [e]) }

  // A new pin enters the map.
  function NewPin(s: State, id: Id, p: Pin): State {
    Put(s, id, p).(used := s.used + {id})
  }

  // lock_pin: thread t leaves the mutex to run a callback.
  function Lock(s: State, t: Tid, id: Id, k: Kind): State
    requires id in s.pins
  {
    var p := s.pins[id];
    Note(Go(Put(s, id, p.(invoking := p.invoking[k := t])), t, InCallback(id, k)), Start(id, k))
  }

  // Asks the port for a receive or a send, unless one is in progress.
  function Ask(s: State, id: Id, k: Kind, accepts: bool): State {
    if id !in s.pins || k in s.pins[id].progress || !accepts then s
    else
      var p := s.pins[id];
      Put(s, id, p.(progress := p.progress + {k})).(pending := s.pending + {(id, k)})
  }

  // initiate_close
  function InitiateClose(s: State, id: Id): State {
    if id !in s.pins then s
    else
      var s1 := if s.pins[id].alive then Note(s, Dead(id)) else s;
      if s.pins[id].invoking != map[] then Put(s1, id, s.pins[id].(alive := false))
      else Note(s1.(pins := s.pins - {id}, closing := s.closing + [id]), Removed(id))
  }

  // unlock_pin, as far as the pin is concerned
  function Unlock(s: State, t: Tid, id: Id, k: Kind): State
    requires id in s.pins
  {
    var p := s.pins[id];
    var q := p.(invoking := p.invoking - {k}, progress := if k == Accept then p.progress else p.progress - {k});
    Note(Put(Rest(s, t), id, q), End(id, k))
  }

  // The end of a callback, and what the caller does before it gives up the mutex.
  function Back(s: State, t: Tid, id: Id, k: Kind, again: bool, accepts: bool): State {
    if id !in s.pins then Rest(s, t)
    else
      var u := Unlock(s, t, id, k);
      var q := u.pins[id];
      if q.invoking == map[] && !q.alive then Go(u, t, Closing(id))
      else if k == Recv && again then Go(u, t, Receiving(id))
      else if k == Send && again && q.alive then
        if accepts then Ask(u, id, Send, true) else Go(u, t, Closing(id))
      else u
  }

  // A completion on a pin that is gone or dead is ignored.
  function Complete(s: State, id: Id, k: Kind): State { s.(pending := s.pending - {(id, k)}) }

  function Drop(s: State, id: Id, k: Kind): State
    requires id in s.pins
  {
    Put(s, id, s.pins[id].(progress := s.pins[id].progress - {k}))
  }

  predicate Idle(s: State, t: Tid) { t !in s.threads }

  predicate Enabled(s: State, a: Action) {
    match a
    case DoAccept(t, id) => Idle(s, t) && id !in s.used
    case DoBind(t, id) => Idle(s, t) && id !in s.used
    case DoConnect(id) => id !in s.used
    case Connected(t, id, _) => Idle(s, t) && (id, Connect) in s.pending
    case SendDone(t, id, _, _) => Idle(s, t) && (id, Send) in s.pending
    case Received(t, id, _) => Idle(s, t) && (id, Recv) in s.pending
    case Failed(t, id, k) => Idle(s, t) && (id, k) in s.pending
    case Return(t, _, _) => t in s.threads && s.threads[t].InCallback?
    case RecvAgain(t, _) => t in s.threads && s.threads[t].Receiving?
    case UserRecv(_, _) => true
    case UserSend(_, _) => true
    case UserClose(_) => true
    case Close(t) => t in s.threads && s.threads[t].Closing?
    case TakeClosed(t) => Idle(s, t) && s.closing != []
    case PortClose(t) => t in s.threads && s.threads[t].OnClosing?
    case Destroy(t) => t in s.threads && s.threads[t].Releasing?
  }

  function Apply(s: State, a: Action): State
    requires Enabled(s, a)
  {
    match a
    case DoAccept(t, id) => Lock(NewPin(s, id, Pin({}, map[], true)), t, id, Accept)
    case DoBind(t, id) => Lock(NewPin(s, id, Pin({}, map[], true)), t, id, Bind)
    case DoConnect(id) => Ask(NewPin(s, id, Pin({}, map[], true)), id, Connect, true)
    case Connected(t, id, addresses) =>
      var c := Complete(s, id, Connect);
      if !Found(s, id) then c
      else if addresses then Lock(c, t, id, Connect)
      else Go(Drop(c, id, Connect), t, Closing(id))
    case SendDone(t, id, more, accepts) =>
      var c := Complete(s, id, Send);
      if !Found(s, id) then c
      else if !more then Lock(c, t, id, Send)
      else if accepts then s
      else Go(Drop(c, id, Send), t, Closing(id))
    case Received(t, id, broken) =>
      var c := Complete(s, id, Recv);
      if !Found(s, id) then c
      else if broken then Go(c, t, Closing(id))
      else Lock(c, t, id, Recv)
    case Failed(t, id, k) =>
      var c := Complete(s, id, k);
      if !Found(s, id) then c else Go(Drop(c, id, k), t, Closing(id))
    case Return(t, again, accepts) => Back(s, t, s.threads[t].id, s.threads[t].kind, again, accepts)
    case RecvAgain(t, accepts) => Rest(Ask(s, s.threads[t].id, Recv, accepts), t)
    case UserRecv(id, accepts) => Ask(s, id, Recv, accepts)
    case UserSend(id, accepts) => Ask(s, id, Send, accepts)
    case UserClose(id) => InitiateClose(s, id)
    case Close(t) => Rest(InitiateClose(s, s.threads[t].id), t)
    case TakeClosed(t) => Note(Go(s.(closing := s.closing[1..]), t, OnClosing(s.closing[0])), OnClose(s.closing[0]))
    case PortClose(t) =>
      var id := s.threads[t].id;
      Go(s, t, Releasing(id)).(pending := set x | x in s.pending && x.0 != id)
    case Destroy(t) => Note(Rest(s, t), Destroyed(s.threads[t].id))
  }

  // ----- the history

  /** A callback of this kind has started and not ended. */
  ghost predicate Running(log: seq<Event>, id: Id, k: Kind) {
    log != [] &&
    var e, before := log[|log| - 1], log[..|log| - 1];
    e == Start(id, k) || (e != End(id, k) && Running(before, id, k))
  }

  /** The event may come after this history. */
  ghost predicate Legal(before: seq<Event>, e: Event) {
    match e
    case Start(id, k) => !Running(before, id, k) && Dead(id) !in before
    case End(id, k) => Running(before, id, k)
    case Dead(id) => Dead(id) !in before
    case Removed(id) => Removed(id) !in before && Dead(id) in before && forall k :: !Running(before, id, k)
    case OnClose(id) => OnClose(id) !in before && Removed(id) in before
    case Destroyed(id) => Destroyed(id) !in before && OnClose(id) in before
  }

  ghost predicate Proper(log: seq<Event>) {
    log != [] ==> Proper(log[..|log| - 1]) && Legal(log[..|log| - 1], log[|log| - 1])
  }

  // ----- the invariant

  predicate Asked(k: Kind) { k == Connect || k == Send || k == Recv }

  ghost predicate PinsOk(s: State) {
    && (forall id :: id in s.pins ==> id in s.used)
    && (forall id, k :: id in s.pins && k in s.pins[id].invoking && Asked(k) ==> k in s.pins[id].progress)
    && (forall id, k :: id in s.pins && k in s.pins[id].invoking ==> s.pins[id].invoking[k] in s.threads)
    && (forall id, k :: id in s.pins && k in s.pins[id].invoking ==> s.threads[s.pins[id].invoking[k]] == InCallback(id, k))
  }

  ghost predicate ThreadsOk(s: State) {
    forall t :: t in s.threads && s.threads[t].InCallback? ==>
      && s.threads[t].id in s.pins && s.threads[t].kind in s.pins[s.threads[t].id].invoking
      && s.pins[s.threads[t].id].invoking[s.threads[t].kind] == t
  }

  /** At most one request of a kind is with the port, and none while its callback runs. */
  ghost predicate PortOk(s: State) {
    forall id, k :: (id, k) in s.pending ==>
      && Asked(k) && id in s.used
      && (id in s.pins ==> k in s.pins[id].progress && k !in s.pins[id].invoking)
  }

  predicate Final(p: Place) { p.OnClosing? || p.Releasing? }

  /** A removed pin is in the close list, or with one thread that closes it, or destroyed. */
  ghost predicate ClosingOk(s: State) {
    && NoDup(s.closing)
    && (forall id :: id in s.closing ==> id in s.used && id !in s.pins)
    && (forall t :: t in s.threads && Final(s.threads[t]) ==>
         s.threads[t].id in s.used && s.threads[t].id !in s.pins && s.threads[t].id !in s.closing)
    && (forall t, u :: t in s.threads && u in s.threads && Final(s.threads[t]) && Final(s.threads[u]) && t != u ==>
         s.threads[t].id != s.threads[u].id)
  }

  ghost predicate WillClose(threads: map<Tid, Place>, id: Id) { exists t :: t in threads && threads[t] == Closing(id) }

  /** A dead pin in the map has a callback running, the last of which will close it, or a thread is about to. */
  ghost predicate DeadOk(s: State) {
    forall id :: id in s.pins && !s.pins[id].alive && s.pins[id].invoking == map[] ==> WillClose(s.threads, id)
  }

  ghost predicate BeingClosed(threads: map<Tid, Place>, id: Id) {
    exists t :: t in threads && Final(threads[t]) && threads[t].id == id
  }

  ghost predicate Runs(pins: map<Id, Pin>, id: Id, k: Kind) { id in pins && k in pins[id].invoking }
  ghost predicate Gone(s: State, id: Id) { id in s.used && id !in s.pins }
  ghost predicate NotAlive(s: State, id: Id) { id in s.used && !Found(s, id) }
  ghost predicate Closed(s: State, id: Id) { Gone(s, id) && id !in s.closing }

  ghost predicate RunningOk(s: State) { forall id, k :: Running(s.log, id, k) <==> Runs(s.pins, id, k) }
  ghost predicate DeathOk(s: State) { forall id :: Dead(id) in s.log <==> NotAlive(s, id) }
  ghost predicate RemovalOk(s: State) { forall id :: Removed(id) in s.log <==> Gone(s, id) }
  ghost predicate OnCloseOk(s: State) { forall id :: OnClose(id) in s.log <==> Closed(s, id) }
  ghost predicate DestroyOk(s: State) {
    forall id :: Destroyed(id) in s.log <==> Closed(s, id) && !BeingClosed(s.threads, id)
  }

  /** The history tells the state. */
  ghost predicate LogOk(s: State) {
    Proper(s.log) && RunningOk(s) && DeathOk(s) && RemovalOk(s) && OnCloseOk(s) && DestroyOk(s)
  }

  /** One event is noted, and the state changes in what the event tells and in nothing else of this. */
  ghost predicate Tells(s: State, e: Event, s': State) {
    && s'.log == s.log + [e]
    && (forall id, k :: Runs(s'.pins, id, k) <==> e == Start(id, k) || (e != End(id, k) && Runs(s.pins, id, k)))
    && (forall id :: NotAlive(s', id) <==> e == Dead(id) || NotAlive(s, id))
    && (forall id :: Gone(s', id) <==> e == Removed(id) || Gone(s, id))
    && (forall id :: Closed(s', id) <==> e == OnClose(id) || Closed(s, id))
    && (forall id :: Closed(s', id) && !BeingClosed(s'.threads, id) <==>
         e == Destroyed(id) || (Closed(s, id) && !BeingClosed(s.threads, id)))
  }

  lemma NotedEvent(log: seq<Event>, e: Event)
    ensures forall x :: x in log + [e] <==> x in log || x == e
  {}

  lemma NotedRunning(log: seq<Event>, e: Event)
    ensures forall id, k :: Running(log + [e], id, k) <==> e == Start(id, k) || (e != End(id, k) && Running(log, id, k))
    ensures Proper(log) && Legal(log, e) ==> Proper(log + [e])
  {
    assert (log + [e])[..|log|] == log;
  }

  lemma LogTells(s: State, e: Event, s': State)
    requires LogOk(s) && Legal(s.log, e) && Tells(s, e, s')
    ensures LogOk(s')
  {
    NotedEvent(s.log, e);
    NotedRunning(s.log, e);
  }

  /** Nothing changes of what the history tells. */
  ghost predicate SameTold(s: State, s': State) {
    && s'.log == s.log
    && (forall id, k :: Runs(s'.pins, id, k) <==> Runs(s.pins, id, k))
    && (forall id :: NotAlive(s', id) <==> NotAlive(s, id))
    && (forall id :: Gone(s', id) <==> Gone(s, id))
    && (forall id :: Closed(s', id) <==> Closed(s, id))
    && (forall id :: Closed(s, id) ==> (BeingClosed(s'.threads, id) <==> BeingClosed(s.threads, id)))
  }

  lemma LogSame(s: State, s': State)
    requires LogOk(s) && SameTold(s, s')
    ensures LogOk(s')
  {}

  ghost predicate Core(s: State) {
    PinsOk(s) && ThreadsOk(s) && PortOk(s) && ClosingOk(s)
  }

  ghost predicate Inv(s: State) {
    Core(s) && DeadOk(s) && LogOk(s)
  }

  // ----- what the pieces of a step keep

  lemma Closers(a: map<Tid, Place>, b: map<Tid, Place>)
    requires forall t :: t in a && a[t].Closing? ==> t in b && b[t] == a[t]
    ensures forall id :: WillClose(a, id) ==> WillClose(b, id)
  {
    forall id | WillClose(a, id) ensures WillClose(b, id) {
      var t :| t in a && a[t] == Closing(id);
      assert t in b && b[t] == Closing(id);
    }
  }

  lemma Finishers(a: map<Tid, Place>, b: map<Tid, Place>)
    requires forall t :: t in a && Final(a[t]) ==> t in b && Final(b[t]) && b[t].id == a[t].id
    ensures forall id :: BeingClosed(a, id) ==> BeingClosed(b, id)
  {
    forall id | BeingClosed(a, id) ensures BeingClosed(b, id) {
      var t :| t in a && Final(a[t]) && a[t].id == id;
      assert t in b && Final(b[t]) && b[t].id == id;
    }
  }

  /** Threads that were closing pins go on doing so, and no other thread begins to. */
  lemma SameClosers(a: map<Tid, Place>, b: map<Tid, Place>)
    requires forall t :: t in a && a[t].Closing? ==> t in b && b[t] == a[t]
    requires forall t :: t in a && Final(a[t]) ==> t in b && Final(b[t]) && b[t].id == a[t].id
    requires forall t :: t in b && Final(b[t]) ==> t in a && Final(a[t]) && b[t].id == a[t].id
    ensures forall id :: WillClose(a, id) ==> WillClose(b, id)
    ensures forall id :: BeingClosed(a, id) <==> BeingClosed(b, id)
  {
    Closers(a, b);
    Finishers(a, b);
    Finishers(b, a);
  }

  lemma NewPinKeeps(s: State, id: Id)
    requires Inv(s) && id !in s.used
    ensures Inv(NewPin(s, id, Pin({}, map[], true)))
  {
    var s' := NewPin(s, id, Pin({}, map[], true));
    NewPinCore(s, id);
    assert SameTold(s, s');
    LogSame(s, s');
  }

  lemma NewPinCore(s: State, id: Id)
    requires Core(s) && id !in s.used
    ensures Core(NewPin(s, id, Pin({}, map[], true)))
  {}

  lemma LockCore(s: State, t: Tid, id: Id, k: Kind)
    requires Core(s) && Found(s, id) && Idle(s, t) && k !in s.pins[id].invoking
    requires (id, k) !in s.pending && (Asked(k) ==> k in s.pins[id].progress)
    ensures Core(Lock(s, t, id, k))
  {
    LockPins(s, t, id, k);
  }

  lemma LockPins(s: State, t: Tid, id: Id, k: Kind)
    requires PinsOk(s) && ThreadsOk(s) && id in s.pins && Idle(s, t) && k !in s.pins[id].invoking
    requires Asked(k) ==> k in s.pins[id].progress
    ensures PinsOk(Lock(s, t, id, k)) && ThreadsOk(Lock(s, t, id, k))
  {}

  lemma LockKeeps(s: State, t: Tid, id: Id, k: Kind)
    requires Inv(s) && Found(s, id) && Idle(s, t) && k !in s.pins[id].invoking
    requires (id, k) !in s.pending && (Asked(k) ==> k in s.pins[id].progress)
    ensures Inv(Lock(s, t, id, k))
  {
    LockCore(s, t, id, k);
    LockDead(s, t, id, k);
    LockTells(s, t, id, k);
    LogTells(s, Start(id, k), Lock(s, t, id, k));
  }

  lemma LockDead(s: State, t: Tid, id: Id, k: Kind)
    requires DeadOk(s) && id in s.pins && Idle(s, t)
    ensures DeadOk(Lock(s, t, id, k))
  {
    Closers(s.threads, Lock(s, t, id, k).threads);
  }

  lemma LockTells(s: State, t: Tid, id: Id, k: Kind)
    requires id in s.pins && id in s.used && Idle(s, t)
    ensures Tells(s, Start(id, k), Lock(s, t, id, k))
  {
    SameClosers(s.threads, Lock(s, t, id, k).threads);
  }

  lemma AskKeeps(s: State, id: Id, k: Kind, accepts: bool)
    requires Inv(s) && Asked(k)
    ensures Inv(Ask(s, id, k, accepts))
  {
    AskCore(s, id, k, accepts);
    assert SameTold(s, Ask(s, id, k, accepts));
    LogSame(s, Ask(s, id, k, accepts));
  }

  lemma AskCore(s: State, id: Id, k: Kind, accepts: bool)
    requires Core(s) && Asked(k)
    ensures Core(Ask(s, id, k, accepts))
  {}

  lemma CompleteKeeps(s: State, id: Id, k: Kind)
    requires Inv(s)
    ensures Inv(Complete(s, id, k))
  {}

  lemma DropKeeps(s: State, id: Id, k: Kind)
    requires Inv(s) && id in s.pins && (id, k) !in s.pending && k !in s.pins[id].invoking
    ensures Inv(Drop(s, id, k))
  {
    DropCore(s, id, k);
    assert SameTold(s, Drop(s, id, k));
    LogSame(s, Drop(s, id, k));
  }

  lemma DropCore(s: State, id: Id, k: Kind)
    requires Core(s) && id in s.pins && (id, k) !in s.pending && k !in s.pins[id].invoking
    ensures Core(Drop(s, id, k))
  {}

  lemma GoKeeps(s: State, t: Tid, at: Place)
    requires Inv(s) && Idle(s, t) && !Final(at) && !at.InCallback?
    ensures Inv(Go(s, t, at))
  {
    var s' := Go(s, t, at);
    SameClosers(s.threads, s'.threads);
    LogSame(s, s');
  }

  lemma RemoveCore(s: State, id: Id)
    requires Core(s) && id in s.pins && s.pins[id].invoking == map[]
    ensures Core(InitiateClose(s, id))
  {}

  lemma InitiateCloseKeeps(s: State, id: Id)
    requires Inv(s)
    ensures var s' := InitiateClose(s, id); Inv(s') && (id in s'.pins ==> s'.pins[id].invoking != map[])
  {
    if id in s.pins {
      if s.pins[id].alive { MarkDeadKeeps(s, id); }
      InTwoParts(s, id);
      if s.pins[id].invoking == map[] { RemoveKeeps(MarkDead(s, id), id); }
    }
  }

  lemma InTwoParts(s: State, id: Id)
    requires id in s.pins
    ensures InitiateClose(s, id) == if s.pins[id].invoking != map[] then MarkDead(s, id) else InitiateClose(MarkDead(s, id), id)
  {
    var m := MarkDead(s, id);
    assert m.pins - {id} == s.pins - {id};
    if s.pins[id].invoking != map[] && !s.pins[id].alive { assert s.pins[id := s.pins[id]] == s.pins; }
  }

  ghost function MarkDead(s: State, id: Id): State
    requires id in s.pins
  {
    if s.pins[id].alive then Note(Put(s, id, s.pins[id].(alive := false)), Dead(id)) else s
  }

  // In the second half of initiate_close nothing needs the list of threads that will close the pin.
  lemma MarkDeadKeeps(s: State, id: Id)
    requires Inv(s) && Found(s, id)
    ensures var s' := MarkDead(s, id); Core(s') && LogOk(s') && (s.pins[id].invoking != map[] ==> DeadOk(s'))
  {
    MarkDeadCore(s, id);
    MarkDeadTells(s, id);
    assert !NotAlive(s, id);
    LogTells(s, Dead(id), MarkDead(s, id));
    if s.pins[id].invoking != map[] { MarkDeadOk(s, id); }
  }

  lemma MarkDeadCore(s: State, id: Id)
    requires Core(s) && Found(s, id)
    ensures Core(MarkDead(s, id))
  {}

  lemma MarkDeadTells(s: State, id: Id)
    requires PinsOk(s) && Found(s, id)
    ensures Tells(s, Dead(id), MarkDead(s, id))
  {}

  lemma MarkDeadOk(s: State, id: Id)
    requires DeadOk(s) && Found(s, id) && s.pins[id].invoking != map[]
    ensures DeadOk(MarkDead(s, id))
  {}

  lemma RemoveKeeps(s: State, id: Id)
    requires Core(s) && LogOk(s) && id in s.pins && !s.pins[id].alive && s.pins[id].invoking == map[]
    requires forall i :: i in s.pins && i != id && !s.pins[i].alive && s.pins[i].invoking == map[] ==> WillClose(s.threads, i)
    ensures Inv(InitiateClose(s, id))
  {
    var s' := InitiateClose(s, id);
    RemoveCore(s, id);
    RemoveTells(s, id);
    RemoveLegal(s, id);
    LogTells(s, Removed(id), s');
  }

  lemma RemoveTells(s: State, id: Id)
    requires Core(s) && id in s.pins && !s.pins[id].alive && s.pins[id].invoking == map[]
    ensures Tells(s, Removed(id), InitiateClose(s, id))
  {}

  lemma RemoveLegal(s: State, id: Id)
    requires PinsOk(s) && LogOk(s) && id in s.pins && !s.pins[id].alive && s.pins[id].invoking == map[]
    ensures Legal(s.log, Removed(id))
  {
    assert NotAlive(s, id) && !Gone(s, id);
  }

  /** When t stops being about to close the pin, the other threads go on. */
  lemma OtherClosers(a: map<Tid, Place>, t: Tid, id: Id)
    requires t in a && (a[t] == Closing(id) || !a[t].Closing?)
    ensures forall i :: i != id && WillClose(a, i) ==> WillClose(a - {t}, i)
    ensures !Final(a[t]) ==> forall i :: BeingClosed(a, i) <==> BeingClosed(a - {t}, i)
    ensures !a[t].Closing? ==> forall i :: WillClose(a, i) ==> WillClose(a - {t}, i)
  {
    forall i | WillClose(a, i) ensures i == id || WillClose(a - {t}, i) {
      var u :| u in a && a[u] == Closing(i);
      assert i != id ==> u in a - {t};
    }
    if !a[t].Closing? { Closers(a, a - {t}); }
    if !Final(a[t]) {
      Finishers(a, a - {t});
      Finishers(a - {t}, a);
    }
  }

  lemma RestKeeps(s: State, t: Tid)
    requires Inv(s) && t in s.threads && (s.threads[t].Closing? || s.threads[t].Receiving?)
    requires s.threads[t].Closing? && s.threads[t].id in s.pins ==> s.pins[s.threads[t].id].invoking != map[]
    ensures Inv(Rest(s, t))
  {
    OtherClosers(s.threads, t, s.threads[t].id);
  }

  lemma UnlockKeeps(s: State, t: Tid, id: Id, k: Kind)
    requires Inv(s) && t in s.threads && s.threads[t] == InCallback(id, k)
    ensures id in s.pins && t !in Unlock(s, t, id, k).threads
    ensures var u := Unlock(s, t, id, k);
      && Core(u) && LogOk(u) && k !in u.pins[id].invoking
      && forall i :: i in u.pins && i != id && !u.pins[i].alive && u.pins[i].invoking == map[] ==> WillClose(u.threads, i)
  {
    UnlockCore(s, t, id, k);
    OtherClosers(s.threads, t, id);
    UnlockTells(s, t, id, k);
    LogTells(s, End(id, k), Unlock(s, t, id, k));
  }

  lemma UnlockTells(s: State, t: Tid, id: Id, k: Kind)
    requires Core(s) && t in s.threads && s.threads[t] == InCallback(id, k)
    ensures id in s.pins && Runs(s.pins, id, k) && Tells(s, End(id, k), Unlock(s, t, id, k))
  {
    OtherClosers(s.threads, t, id);
  }

  lemma UnlockCore(s: State, t: Tid, id: Id, k: Kind)
    requires Core(s) && t in s.threads && s.threads[t] == InCallback(id, k)
    ensures id in s.pins && Core(Unlock(s, t, id, k))
  {
    UnlockPins(s, t, id, k);
  }

  lemma UnlockPins(s: State, t: Tid, id: Id, k: Kind)
    requires Core(s) && t in s.threads && s.threads[t] == InCallback(id, k)
    ensures id in s.pins && PinsOk(Unlock(s, t, id, k)) && ThreadsOk(Unlock(s, t, id, k))
  {
    UnlockThreads(s, t, id, k);
  }

  lemma UnlockThreads(s: State, t: Tid, id: Id, k: Kind)
    requires PinsOk(s) && ThreadsOk(s) && t in s.threads && s.threads[t] == InCallback(id, k)
    ensures id in s.pins && ThreadsOk(Unlock(s, t, id, k))
  {}

  lemma BackKeeps(s: State, t: Tid, again: bool, accepts: bool)
    requires Inv(s) && Enabled(s, Return(t, again, accepts))
    ensures Inv(Apply(s, Return(t, again, accepts)))
  {
    var id, k := s.threads[t].id, s.threads[t].kind;
    UnlockKeeps(s, t, id, k);
    var u := Unlock(s, t, id, k);
    var q := u.pins[id];
    if q.invoking == map[] && !q.alive {
      GoClosingKeeps(u, t, id);
    } else if k == Recv && again {
      GoKeeps(u, t, Receiving(id));
    } else if k == Send && again && q.alive {
      if accepts { AskKeeps(u, id, Send, true); } else { GoKeeps(u, t, Closing(id)); }
    }
  }

  /** A thread that is about to close the pin makes good for a dead one. */
  lemma GoClosingKeeps(u: State, t: Tid, id: Id)
    requires Core(u) && LogOk(u) && Idle(u, t)
    requires forall i :: i in u.pins && i != id && !u.pins[i].alive && u.pins[i].invoking == map[] ==> WillClose(u.threads, i)
    ensures Inv(Go(u, t, Closing(id)))
  {
    var s' := Go(u, t, Closing(id));
    SameClosers(u.threads, s'.threads);
    assert s'.threads[t] == Closing(id);
  }

  lemma TakeClosedKeeps(s: State, t: Tid)
    requires Inv(s) && Enabled(s, TakeClosed(t))
    ensures Inv(Apply(s, TakeClosed(t)))
  {
    var id, s' := s.closing[0], Apply(s, TakeClosed(t));
    TakeClosedCore(s, t);
    Closers(s.threads, s'.threads);
    TakeClosedTells(s, t);
    LogTells(s, OnClose(id), s');
  }

  lemma FirstOut(q: seq<Id>)
    requires NoDup(q) && q != []
    ensures NoDup(q[1..]) && forall i :: i in q[1..] <==> i in q && i != q[0]
  {
    assert q == [q[0]] + q[1..];
  }

  lemma TakeClosedCore(s: State, t: Tid)
    requires Core(s) && Enabled(s, TakeClosed(t))
    ensures Core(Apply(s, TakeClosed(t)))
  {
    FirstOut(s.closing);
    assert s.closing[0] in s.closing;
  }

  lemma TakeClosedTells(s: State, t: Tid)
    requires Core(s) && Enabled(s, TakeClosed(t))
    ensures Tells(s, OnClose(s.closing[0]), Apply(s, TakeClosed(t)))
  {
    var id, s' := s.closing[0], Apply(s, TakeClosed(t));
    FirstOut(s.closing);
    assert id in s.closing;
    Finishers(s.threads, s'.threads);
    assert forall i :: BeingClosed(s'.threads, i) ==> i == id || BeingClosed(s.threads, i);
    assert s'.threads[t].id == id;
  }

  lemma PortCloseKeeps(s: State, t: Tid)
    requires Inv(s) && Enabled(s, PortClose(t))
    ensures Inv(Apply(s, PortClose(t)))
  {
    SameClosers(s.threads, Apply(s, PortClose(t)).threads);
    LogSame(s, Apply(s, PortClose(t)));
  }

  lemma DestroyKeeps(s: State, t: Tid)
    requires Inv(s) && Enabled(s, Destroy(t))
    ensures Inv(Apply(s, Destroy(t)))
  {
    var s' := Apply(s, Destroy(t));
    Closers(s.threads, s'.threads);
    DestroyTells(s, t);
    LogTells(s, Destroyed(s.threads[t].id), s');
  }

  lemma DestroyTells(s: State, t: Tid)
    requires Core(s) && Enabled(s, Destroy(t))
    ensures BeingClosed(s.threads, s.threads[t].id)
    ensures Tells(s, Destroyed(s.threads[t].id), Apply(s, Destroy(t)))
  {
    var id, s' := s.threads[t].id, Apply(s, Destroy(t));
    Finishers(s'.threads, s.threads);
    forall i | BeingClosed(s.threads, i) ensures i == id || BeingClosed(s'.threads, i) {
      var u :| u in s.threads && Final(s.threads[u]) && s.threads[u].id == i;
      assert i != id ==> u in s'.threads;
    }
    assert !BeingClosed(s'.threads, id);
  }

  // ----- every run

  lemma StepKeeps(s: State, a: Action)
    requires Inv(s) && Enabled(s, a)
    ensures Inv(Apply(s, a))
  {
    match a
    case DoAccept(_, _) => CreateKeeps(s, a);
    case DoBind(_, _) => CreateKeeps(s, a);
    case DoConnect(_) => CreateKeeps(s, a);
    case Connected(t, id, _) => CompletedKeeps(s, t, id, Connect);
    case SendDone(t, id, _, _) => CompletedKeeps(s, t, id, Send);
    case Received(t, id, _) => CompletedKeeps(s, t, id, Recv);
    case Failed(t, id, k) => CompletedKeeps(s, t, id, k);
    case Return(t, again, accepts) => BackKeeps(s, t, again, accepts);
    case RecvAgain(_, _) => UserKeeps(s, a);
    case UserRecv(_, _) => UserKeeps(s, a);
    case UserSend(_, _) => UserKeeps(s, a);
    case UserClose(id) => InitiateCloseKeeps(s, id);
    case Close(_) => CloseKeeps(s, a);
    case TakeClosed(t) => TakeClosedKeeps(s, t);
    case PortClose(t) => PortCloseKeeps(s, t);
    case Destroy(t) => DestroyKeeps(s, t);
  }

  lemma CreateKeeps(s: State, a: Action)
    requires Inv(s) && Enabled(s, a) && (a.DoAccept? || a.DoBind? || a.DoConnect?)
    ensures Inv(Apply(s, a))
  {
    var n := NewPin(s, a.id, Pin({}, map[], true));
    NewPinKeeps(s, a.id);
    if a.DoConnect? { AskKeeps(n, a.id, Connect, true); } else { LockKeeps(n, a.t, a.id, if a.DoAccept? then Accept else Bind); }
  }

  lemma UserKeeps(s: State, a: Action)
    requires Inv(s) && Enabled(s, a) && (a.RecvAgain? || a.UserRecv? || a.UserSend?)
    ensures Inv(Apply(s, a))
  {
    if a.RecvAgain? {
      var id := s.threads[a.t].id;
      AskKeeps(s, id, Recv, a.accepts);
      RestKeeps(Ask(s, id, Recv, a.accepts), a.t);
    } else {
      AskKeeps(s, a.id, if a.UserRecv? then Recv else Send, a.accepts);
    }
  }

  lemma CloseKeeps(s: State, a: Action)
    requires Inv(s) && Enabled(s, a) && a.Close?
    ensures Inv(Apply(s, a))
  {
    InitiateCloseKeeps(s, s.threads[a.t].id);
    RestKeeps(InitiateClose(s, s.threads[a.t].id), a.t);
  }

  /** Whatever follows a completion: nothing, a callback, or the end of the pin. */
  lemma CompletedKeeps(s: State, t: Tid, id: Id, k: Kind)
    requires Inv(s) && Idle(s, t) && (id, k) in s.pending
    ensures var c := Complete(s, id, k); Inv(c) && (Found(s, id) ==>
      Inv(Lock(c, t, id, k)) && Inv(Go(c, t, Closing(id))) && Inv(Go(Drop(c, id, k), t, Closing(id))))
  {
    var c := Complete(s, id, k);
    CompleteKeeps(s, id, k);
    if Found(s, id) {
      LockKeeps(c, t, id, k);
      GoKeeps(c, t, Closing(id));
      DropKeeps(c, id, k);
      GoKeeps(Drop(c, id, k), t, Closing(id));
    }
  }

  ghost predicate Reaches(s: State, run: seq<Action>, s': State)
    decreases |run|
  {
    if run == [] then s' == s else Enabled(s, run[0]) && Reaches(Apply(s, run[0]), run[1..], s')
  }

  lemma {:induction false} RunKeeps(s: State, run: seq<Action>, s': State)
    requires Inv(s) && Reaches(s, run, s')
    ensures Inv(s')
    decreases |run|
  {
    if run != [] {
      StepKeeps(s, run[0]);
      RunKeeps(Apply(s, run[0]), run[1..], s');
    }
  }

  // ----- what the history of a run says

  lemma {:induction false} ProperAt(log: seq<Event>, i: nat)
    requires Proper(log) && i < |log|
    ensures Legal(log[..i], log[i])
  {
    var n := |log| - 1;
    if i < n {
      ProperAt(log[..n], i);
      assert log[..n][..i] == log[..i];
    }
  }

  /** What has started and not ended later is running. */
  lemma {:induction false} StillRunning(log: seq<Event>, i: nat, id: Id, k: Kind)
    requires i < |log| && log[i] == Start(id, k) && forall m :: i < m < |log| ==> log[m] != End(id, k)
    ensures Running(log, id, k)
  {
    var n := |log| - 1;
    if i < n { StillRunning(log[..n], i, id, k); }
  }

  /** In every run: two callbacks of one kind on one pin do not overlap. */
  lemma NoOverlap(run: seq<Action>, s: State, i: nat, j: nat, id: Id, k: Kind)
    requires Reaches(START, run, s) && i < j < |s.log| && s.log[i] == s.log[j] == Start(id, k)
    ensures exists m :: i < m < j && s.log[m] == End(id, k)
  {
    RunKeeps(START, run, s);
    ProperAt(s.log, j);
    if forall m :: i < m < j ==> s.log[m] != End(id, k) {
      StillRunning(s.log[..j], i, id, k);
    }
  }

  /** In every run: no callback starts on a pin once it is marked dead or has left the map, and it leaves the map,
      is told on_close and is destroyed at most once each, in this order, with no callback running. */
  lemma LifeOfAPin(run: seq<Action>, s: State, i: nat, j: nat, id: Id, k: Kind)
    requires Reaches(START, run, s) && i < j < |s.log|
    ensures s.log[i] == Dead(id) ==> s.log[j] != Start(id, k)
    ensures s.log[j] == Removed(id) ==> !Running(s.log[..j], id, k) && Dead(id) in s.log[..j]
    ensures s.log[i] == Removed(id) ==> s.log[j] != Start(id, k)
    ensures s.log[j] == OnClose(id) ==> Removed(id) in s.log[..j]
    ensures s.log[j] == Destroyed(id) ==> OnClose(id) in s.log[..j]
    ensures s.log[i] == s.log[j] ==> !s.log[i].Removed? && !s.log[i].OnClose? && !s.log[i].Destroyed?
  {
    RunKeeps(START, run, s);
    ProperAt(s.log, i);
    ProperAt(s.log, j);
    assert s.log[..j][i] == s.log[i];
    assert s.log[..i] <= s.log[..j];
    assert forall x :: x in s.log[..i] ==> x in s.log[..j];
  }

  /** In every run: a pin leaves the map only when no callback runs on it, and every callback that runs is on a pin in the map. */
  lemma CallbacksInMap(run: seq<Action>, s: State, t: Tid)
    requires Reaches(START, run, s) && t in s.threads && s.threads[t].InCallback?
    ensures s.threads[t].id in s.pins
  {
    RunKeeps(START, run, s);
  }

  /** In every run: at rest each pin is alive in the map or has been destroyed; none is forgotten. */
  lemma NoneForgotten(run: seq<Action>, s: State, id: Id)
    requires Reaches(START, run, s) && s.threads == map[] && s.closing == [] && id in s.used
    ensures Found(s, id) || Destroyed(id) in s.log
  {
    RunKeeps(START, run, s);
    if id in s.pins {
      assert forall k :: k !in s.pins[id].invoking;
      assert s.pins[id].invoking == map[];
    }
  }

  /** In every run: the port is never asked again for what it has not answered, nor while the callback runs. */
  lemma AskedOnce(run: seq<Action>, s: State, id: Id, k: Kind)
    requires Reaches(START, run, s) && id in s.pins && Asked(k) && k !in s.pins[id].progress
    ensures (id, k) !in s.pending && k !in s.pins[id].invoking
  {
    RunKeeps(START, run, s);
  }
}
