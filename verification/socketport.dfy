/** Idents and accept blocks of the socket port (aiosock.cpp) as a state machine: a step is one stretch of code under the
    port's mutex. Which thread takes a step does not matter, so running callbacks and half-done closes are counted. */
module SocketPort {
  type Id = nat

  datatype Block = Block(id: Id, accept: bool)
  datatype Listener = Listener(curr: nat, max: nat)

  const MAXSIZE: nat := 0xFFFF_FFFF_FFFF_FFFF

  datatype State = State(
    free: set<Id>,                  // idents the generator may give out
    sockets: map<Id, int>,          // _socket_map: ident to _callback_invoking
    delay: map<Id, int>,            // _delay_key_map
    listeners: map<Id, Listener>,   // _listeners_map
    initial: multiset<Block>, incoming: multiset<Block>, outgoing: multiset<Block>,
    running: multiset<Id>,          // callbacks that run, by ident
    closing: multiset<Id>,          // closes between their two stretches of code that will free the ident,
    closed: multiset<Id>)           // and those that leave that to the last callback

  datatype Action =
    | Assign(id: Id)
    | Listen(id: Id, max: nat)
    | Post(id: Id)
    | PostAccept(id: Id)
    | Initiate(b: Block, pending: bool)
    | Complete(b: Block)
    | TimeOut(b: Block)
    | Take(b: Block)
    | Return(id: Id)
    | Close(id: Id)
    | CloseRest(id: Id, delayed: bool)

  function More<T>(m: multiset<T>, x: T): multiset<T> { m[x := m[x] + 1] }
  function Less<T>(m: multiset<T>, x: T): multiset<T>
    requires x in m
  {
    m[x := m[x] - 1]
  }

  predicate Enabled(s: State, a: Action) {
    match a
    case Assign(id) => id in s.free
    case Listen(_, _) => true
    case Post(_) => true
    case PostAccept(id) => id in s.listeners && s.listeners[id].curr < s.listeners[id].max
    case Initiate(b, _) => b in s.initial
    case Complete(b) => b in s.incoming && b.id in s.sockets
    case TimeOut(b) => b in s.incoming && b.id in s.sockets && !b.accept
    case Take(b) => b in s.outgoing
    case Return(id) => id in s.running
    case Close(_) => true
    case CloseRest(id, delayed) => if delayed then id in s.closed else id in s.closing
  }

  function Without(m: multiset<Block>, id: Id): multiset<Block> { m[Block(id, true) := 0][Block(id, false) := 0] }

  /** A callback for the block begins, and an accept block no longer counts. */
  function Begin(s: State, b: Block): State
    requires b.id in s.sockets
  {
    s.(sockets := s.sockets[b.id := s.sockets[b.id] + 1], running := More(s.running, b.id),
       listeners := if b.accept && b.id in s.listeners then s.listeners[b.id := OneLess(s.listeners[b.id])] else s.listeners)
  }

  function OneLess(l: Listener): Listener { l.(curr := if l.curr > 0 then l.curr - 1 else MAXSIZE) }

  function Apply(s: State, a: Action): State
    requires Enabled(s, a)
  {
    match a
    case Assign(id) => s.(free := s.free - {id}, sockets := s.sockets[id := 0])
    case Listen(id, max) => if id in s.listeners then s else s.(listeners := s.listeners[id := Listener(0, max)])
    case Post(id) => if id in s.sockets then s.(initial := More(s.initial, Block(id, false))) else s
    case PostAccept(id) =>
      if id !in s.sockets then s
      else s.(initial := More(s.initial, Block(id, true)),
              listeners := s.listeners[id := Listener(s.listeners[id].curr + 1, s.listeners[id].max)])
    case Initiate(b, pending) =>
      var s1 := s.(initial := Less(s.initial, b));
      if pending && b.id in s.sockets then s1.(incoming := More(s.incoming, b)) else s1.(outgoing := More(s.outgoing, b))
    case Complete(b) => s.(incoming := Less(s.incoming, b), outgoing := More(s.outgoing, b))
    case TimeOut(b) => Begin(s.(incoming := Less(s.incoming, b)), b)
    case Take(b) =>
      var s1 := s.(outgoing := Less(s.outgoing, b));
      if b.id in s.sockets then Begin(s1, b) else s1
    case Return(id) =>
      var s1 := s.(running := Less(s.running, id));
      if id in s.sockets then s1.(sockets := s.sockets[id := s.sockets[id] - 1])
      else if id !in s.delay then s1
      else if s.delay[id] <= 1 then s1.(delay := s.delay - {id}, free := s.free + {id})
      else s1.(delay := s.delay[id := s.delay[id] - 1])
    case Close(id) =>
      if id !in s.sockets then s
      else
        var n := s.sockets[id];
        s.(sockets := s.sockets - {id},
           delay := if n > 0 then s.delay[id := n + if id in s.delay then s.delay[id] else 0] else s.delay,
           initial := Without(s.initial, id), incoming := Without(s.incoming, id), outgoing := Without(s.outgoing, id),
           closing := if n > 0 then s.closing else More(s.closing, id), closed := if n > 0 then More(s.closed, id) else s.closed)
    case CloseRest(id, delayed) =>
      var s1 := s.(listeners := s.listeners - {id});
      if delayed then s1.(closed := Less(s.closed, id)) else s1.(closing := Less(s.closing, id), free := s.free + {id})
  }

  // ----- idents

  /** The counter in the socket map, or else the entry in the delay map, is the number of running callbacks. */
  ghost predicate Counted(s: State) {
    forall id :: s.running[id] == if id in s.sockets then s.sockets[id] else if id in s.delay then s.delay[id] else 0
  }

  /** Each ident is in one place only: free, in the socket map, delayed, or with the one close that will free it. */
  ghost predicate Placed(s: State, all: set<Id>) { InOnePlace(s.free, s.sockets.Keys, s.delay, s.closing, all) }

  ghost predicate InOnePlace(free: set<Id>, open: set<Id>, delay: map<Id, int>, closing: multiset<Id>, all: set<Id>) {
    && (forall id :: id in all <==> id in free || id in open || id in delay || closing[id] > 0)
    && (forall id :: id in free ==> id !in open && id !in delay && closing[id] == 0)
    && (forall id :: id in open ==> id !in delay && closing[id] == 0)
    && (forall id :: id in delay ==> delay[id] > 0 && closing[id] == 0)
    && (forall id :: closing[id] <= 1)
  }

  /** The lists hold blocks of open sockets only. */
  ghost predicate BlocksOpen(s: State) {
    OpenOnly(s.initial, s.sockets.Keys) && OpenOnly(s.incoming, s.sockets.Keys) && OpenOnly(s.outgoing, s.sockets.Keys)
  }

  ghost predicate OpenOnly(m: multiset<Block>, open: set<Id>) { forall b :: b in m ==> b.id in open }

  ghost predicate Inv(s: State, all: set<Id>) { Counted(s) && Placed(s, all) && BlocksOpen(s) }

  lemma PostKeeps(s: State, all: set<Id>, a: Action)
    requires Inv(s, all) && Enabled(s, a) && (a.Listen? || a.Post? || a.PostAccept?)
    ensures Inv(Apply(s, a), all)
  {}

  lemma InitiateKeeps(s: State, all: set<Id>, a: Action)
    requires Inv(s, all) && Enabled(s, a) && a.Initiate?
    ensures Inv(Apply(s, a), all)
  {
    InitiateBlocks(s, a);
  }

  lemma InitiateBlocks(s: State, a: Action)
    requires BlocksOpen(s) && Enabled(s, a) && a.Initiate?
    ensures BlocksOpen(Apply(s, a))
  {
    assert forall x :: x in Less(s.initial, a.b) ==> x in s.initial;
  }

  lemma CompleteKeeps(s: State, all: set<Id>, a: Action)
    requires Inv(s, all) && Enabled(s, a) && a.Complete?
    ensures Inv(Apply(s, a), all)
  {}

  lemma DropKeeps(s: State, all: set<Id>, b: Block)
    requires Inv(s, all)
    ensures b in s.incoming ==> Inv(s.(incoming := Less(s.incoming, b)), all)
    ensures b in s.outgoing ==> Inv(s.(outgoing := Less(s.outgoing, b)), all)
  {}

  lemma BeginKeeps(s: State, all: set<Id>, b: Block)
    requires Inv(s, all) && b.id in s.sockets
    ensures Inv(Begin(s, b), all)
  {}

  lemma TakeKeeps(s: State, all: set<Id>, a: Action)
    requires Inv(s, all) && Enabled(s, a) && (a.TimeOut? || a.Take?)
    ensures Inv(Apply(s, a), all)
  {
    DropKeeps(s, all, a.b);
    BeginKeeps(if a.Take? then s.(outgoing := Less(s.outgoing, a.b)) else s.(incoming := Less(s.incoming, a.b)), all, a.b);
  }

  lemma AssignKeeps(s: State, all: set<Id>, a: Action)
    requires Inv(s, all) && Enabled(s, a) && a.Assign?
    ensures Inv(Apply(s, a), all)
  {}

  lemma ReturnLeaves(s: State, a: Action)
    requires Enabled(s, a) && a.Return?
    ensures var s' := Apply(s, a);
      && s'.sockets.Keys == s.sockets.Keys && s'.listeners == s.listeners
      && s'.initial == s.initial && s'.incoming == s.incoming && s'.outgoing == s.outgoing
      && s'.closing == s.closing && s'.closed == s.closed
  {
    if a.id in s.sockets { SameKeys(s.sockets, a.id, s.sockets[a.id] - 1); }
  }

  lemma SameKeys(m: map<Id, int>, id: Id, v: int)
    requires id in m
    ensures m[id := v].Keys == m.Keys
  {}

  lemma ReturnCounted(s: State, a: Action)
    requires Counted(s) && Enabled(s, a) && a.Return?
    ensures Counted(Apply(s, a))
  {}

  lemma ReturnPlaced(s: State, all: set<Id>, a: Action)
    requires Counted(s) && Placed(s, all) && Enabled(s, a) && a.Return?
    ensures Placed(Apply(s, a), all)
  {
    var id := a.id;
    assert s.running[id] > 0;
    if id in s.sockets {
      ReturnLeaves(s, a);
    } else if id in s.delay {
      LessDelayed(s.free, s.sockets.Keys, s.delay, s.closing, all, id);
    }
  }

  lemma ReturnBlocks(s: State, a: Action)
    requires BlocksOpen(s) && Enabled(s, a) && a.Return?
    ensures BlocksOpen(Apply(s, a))
  {
    ReturnLeaves(s, a);
  }

  lemma LessDelayed(free: set<Id>, open: set<Id>, delay: map<Id, int>, closing: multiset<Id>, all: set<Id>, id: Id)
    requires InOnePlace(free, open, delay, closing, all) && id in delay
    ensures InOnePlace(free + {id}, open, delay - {id}, closing, all)
    ensures delay[id] > 1 ==> InOnePlace(free, open, delay[id := delay[id] - 1], closing, all)
  {}

  lemma ReturnKeeps(s: State, all: set<Id>, a: Action)
    requires Inv(s, all) && Enabled(s, a) && a.Return?
    ensures Inv(Apply(s, a), all)
  {
    ReturnCounted(s, a);
    ReturnPlaced(s, all, a);
    ReturnBlocks(s, a);
  }

  lemma WithoutBlocks(m: multiset<Block>, id: Id)
    ensures forall b :: b in Without(m, id) <==> b in m && b.id != id
    ensures forall b: Block :: b.id != id ==> Without(m, id)[b] == m[b]
    ensures Without(m, id)[Block(id, true)] == 0
  {}

  lemma StillOpen(m: multiset<Block>, open: set<Id>, id: Id)
    requires OpenOnly(m, open)
    ensures OpenOnly(Without(m, id), open - {id})
  {
    WithoutBlocks(m, id);
  }

  lemma CloseBlocks(s: State, a: Action)
    requires BlocksOpen(s) && a.Close?
    ensures BlocksOpen(Apply(s, a))
  {
    StillOpen(s.initial, s.sockets.Keys, a.id);
    StillOpen(s.incoming, s.sockets.Keys, a.id);
    StillOpen(s.outgoing, s.sockets.Keys, a.id);
  }

  lemma ClosePlaced(s: State, all: set<Id>, a: Action)
    requires Counted(s) && Placed(s, all) && a.Close?
    ensures Placed(Apply(s, a), all)
  {}

  lemma CloseCounted(s: State, all: set<Id>, a: Action)
    requires Counted(s) && Placed(s, all) && a.Close?
    ensures Counted(Apply(s, a))
  {}

  lemma CloseKeeps(s: State, all: set<Id>, a: Action)
    requires Inv(s, all) && a.Close?
    ensures Inv(Apply(s, a), all)
  {
    CloseBlocks(s, a);
    CloseCounted(s, all, a);
    ClosePlaced(s, all, a);
  }

  lemma CloseRestKeeps(s: State, all: set<Id>, a: Action)
    requires Inv(s, all) && Enabled(s, a) && a.CloseRest?
    ensures Inv(Apply(s, a), all)
  {
    CloseRestPlaced(s, all, a);
  }

  lemma CloseRestPlaced(s: State, all: set<Id>, a: Action)
    requires Placed(s, all) && Enabled(s, a) && a.CloseRest?
    ensures Placed(Apply(s, a), all)
  {}

  lemma StepKeeps(s: State, all: set<Id>, a: Action)
    requires Inv(s, all) && Enabled(s, a)
    ensures Inv(Apply(s, a), all)
  {
    match a
    case Assign(_) => AssignKeeps(s, all, a);
    case Listen(_, _) => PostKeeps(s, all, a);
    case Post(_) => PostKeeps(s, all, a);
    case PostAccept(_) => PostKeeps(s, all, a);
    case Initiate(_, _) => InitiateKeeps(s, all, a);
    case Complete(_) => CompleteKeeps(s, all, a);
    case TimeOut(_) => TakeKeeps(s, all, a);
    case Take(_) => TakeKeeps(s, all, a);
    case Return(_) => ReturnKeeps(s, all, a);
    case Close(_) => CloseKeeps(s, all, a);
    case CloseRest(_, _) => CloseRestKeeps(s, all, a);
  }

  // ----- accept blocks

  function Accepts(s: State, id: Id): nat {
    s.initial[Block(id, true)] + s.incoming[Block(id, true)] + s.outgoing[Block(id, true)]
  }

  /** A listener counts exactly its accept blocks, never more than allowed; other sockets have none. */
  ghost predicate Accounted(s: State) {
    && (forall id :: id in s.sockets && id in s.listeners ==> s.listeners[id].curr == Accepts(s, id) <= s.listeners[id].max)
    && (forall id :: id in s.sockets && id !in s.listeners ==> Accepts(s, id) == 0)
  }

  /** One close has still to remove the listener, and it admits no accept block until then. */
  predicate Barred(s: State, id: Id) {
    id in s.listeners && s.listeners[id] == Listener(0, 0) && s.closed[id] == 1
  }

  /** While a close is half done its ident is not open, unless it is barred; and only then a listener without a socket
      counts anything. */
  ghost predicate ClosesApart(s: State) {
    && (forall id :: s.closed[id] > 0 && id in s.sockets ==> Barred(s, id))
    && (forall id :: id in s.listeners && id !in s.sockets && s.closed[id] == 0 && s.closing[id] == 0 ==> s.listeners[id].curr == 0)
  }

  ghost predicate Tidy(s: State, all: set<Id>) { Inv(s, all) && Accounted(s) && ClosesApart(s) }

  /** An ident is given out again before the close that gave it back has removed the listener. Only where that listener
      has an accept pool of 0, and no other close is half done, this does no harm. */
  predicate Early(s: State, a: Action) { a.Assign? && s.closed[a.id] > 0 && !Barred(s, a.id) }

  lemma MoveAccount(s: State, b: Block, pending: bool)
    requires Accounted(s)
    ensures b in s.initial ==> Accounted(Apply(s, Initiate(b, pending)))
    ensures b in s.incoming && b.id in s.sockets ==> Accounted(Apply(s, Complete(b)))
  {}

  lemma PostAccount(s: State, id: Id)
    requires Accounted(s)
    ensures Accounted(Apply(s, Post(id)))
    ensures Enabled(s, PostAccept(id)) ==> Accounted(Apply(s, PostAccept(id)))
  {}

  lemma TakeAccount(s: State, b: Block)
    requires Accounted(s) && BlocksOpen(s) && b in s.outgoing
    ensures Accounted(Apply(s, Take(b)))
  {}

  lemma TimeOutAccount(s: State, b: Block)
    requires Accounted(s) && Enabled(s, TimeOut(b))
    ensures Accounted(Apply(s, TimeOut(b)))
  {}

  lemma CloseAccount(s: State, id: Id)
    requires Accounted(s)
    ensures Accounted(Apply(s, Close(id)))
  {
    WithoutBlocks(s.initial, id);
    WithoutBlocks(s.incoming, id);
    WithoutBlocks(s.outgoing, id);
  }

  lemma AccountKept(s: State, all: set<Id>, a: Action)
    requires Tidy(s, all) && Enabled(s, a) && !Early(s, a)
    ensures Accounted(Apply(s, a))
  {
    match a
    case Assign(id) => AssignAccount(s, id);
    case Listen(id, max) => ListenAccount(s, id, max);
    case Post(id) => PostAccount(s, id);
    case PostAccept(id) => PostAccount(s, id);
    case Initiate(b, pending) => MoveAccount(s, b, pending);
    case Complete(b) => MoveAccount(s, b, true);
    case TimeOut(b) => TimeOutAccount(s, b);
    case Take(b) => TakeAccount(s, b);
    case Return(id) => ReturnAccount(s, id);
    case Close(id) => CloseAccount(s, id);
    case CloseRest(id, delayed) => CloseRestAccount(s, all, id, delayed);
  }

  lemma AssignAccount(s: State, id: Id)
    requires Accounted(s) && ClosesApart(s) && BlocksOpen(s) && id in s.free && id !in s.sockets && s.closing[id] == 0
    requires s.closed[id] == 0 || Barred(s, id)
    ensures Accounted(Apply(s, Assign(id)))
  {
    NoBlocks(s, id);
    assert id in s.listeners ==> s.listeners[id].curr == 0;
    var s' := Apply(s, Assign(id));
    assert Accepts(s', id) == 0 && s'.listeners == s.listeners;
    assert forall x :: x in s.sockets ==> Accepts(s', x) == Accepts(s, x);
  }

  lemma ListenAccount(s: State, id: Id, max: nat)
    requires Accounted(s)
    ensures Accounted(Apply(s, Listen(id, max)))
  {}

  lemma ReturnAccount(s: State, id: Id)
    requires Accounted(s) && id in s.running
    ensures Accounted(Apply(s, Return(id)))
  {
    ReturnLeaves(s, Return(id));
  }

  lemma CloseRestAccount(s: State, all: set<Id>, id: Id, delayed: bool)
    requires Accounted(s) && ClosesApart(s) && Placed(s, all) && Enabled(s, CloseRest(id, delayed))
    ensures Accounted(Apply(s, CloseRest(id, delayed)))
  {}

  lemma NoBlocks(s: State, id: Id)
    requires BlocksOpen(s) && id !in s.sockets
    ensures Accepts(s, id) == 0
  {
    assert Block(id, true) !in s.initial && Block(id, true) !in s.incoming && Block(id, true) !in s.outgoing;
  }

  lemma ApartKept(s: State, all: set<Id>, a: Action)
    requires Tidy(s, all) && Enabled(s, a) && !Early(s, a)
    ensures ClosesApart(Apply(s, a))
  {
    match a
    case Assign(id) => AssignApart(s, id);
    case Listen(id, max) => ListenApart(s, id, max);
    case Post(_) =>
    case PostAccept(id) => PostAcceptApart(s, id);
    case Initiate(b, pending) => MoveApart(s, b, pending);
    case Complete(b) => MoveApart(s, b, true);
    case TimeOut(b) => BeginApart(s, b);
    case Take(b) => TakeApart(s, b);
    case Return(id) => ReturnApart(s, id);
    case Close(id) => CloseApart(s, id);
    case CloseRest(id, delayed) => CloseRestApart(s, id, delayed);
  }

  lemma AssignApart(s: State, id: Id)
    requires ClosesApart(s) && id in s.free && (s.closed[id] == 0 || Barred(s, id))
    ensures ClosesApart(Apply(s, Assign(id)))
  {}

  lemma ListenApart(s: State, id: Id, max: nat)
    requires ClosesApart(s)
    ensures ClosesApart(Apply(s, Listen(id, max)))
  {}

  lemma PostAcceptApart(s: State, id: Id)
    requires ClosesApart(s) && Enabled(s, PostAccept(id))
    ensures ClosesApart(Apply(s, PostAccept(id)))
  {}

  lemma MoveApart(s: State, b: Block, pending: bool)
    requires ClosesApart(s)
    ensures b in s.initial ==> ClosesApart(Apply(s, Initiate(b, pending)))
    ensures b in s.incoming && b.id in s.sockets ==> ClosesApart(Apply(s, Complete(b)))
  {}

  lemma CloseApart(s: State, id: Id)
    requires ClosesApart(s)
    ensures ClosesApart(Apply(s, Close(id)))
  {}

  lemma CloseRestApart(s: State, id: Id, delayed: bool)
    requires ClosesApart(s) && Enabled(s, CloseRest(id, delayed)) && (delayed || id !in s.sockets)
    ensures ClosesApart(Apply(s, CloseRest(id, delayed)))
  {}

  lemma BeginApart(s: State, b: Block)
    requires ClosesApart(s) && b.id in s.sockets && (b.accept ==> !Barred(s, b.id))
    ensures ClosesApart(Begin(s, b))
  {}

  lemma TakeApart(s: State, b: Block)
    requires ClosesApart(s) && Accounted(s) && b in s.outgoing
    ensures ClosesApart(Apply(s, Take(b)))
  {
    if b.id in s.sockets {
      if b.accept { assert b == Block(b.id, true); }
      BeginApart(s.(outgoing := Less(s.outgoing, b)), b);
    }
  }

  lemma ReturnApart(s: State, id: Id)
    requires ClosesApart(s) && id in s.running
    ensures ClosesApart(Apply(s, Return(id)))
  {
    ReturnLeaves(s, Return(id));
  }

  lemma TidyKept(s: State, all: set<Id>, a: Action)
    requires Tidy(s, all) && Enabled(s, a) && !Early(s, a)
    ensures Tidy(Apply(s, a), all)
  {
    StepKeeps(s, all, a);
    AccountKept(s, all, a);
    ApartKept(s, all, a);
  }

  // ----- every run

  ghost predicate Runs(s: State, run: seq<Action>, s': State)
    decreases |run|
  {
    if run == [] then s' == s else Enabled(s, run[0]) && Runs(Apply(s, run[0]), run[1..], s')
  }

  ghost predicate NeverEarly(s: State, run: seq<Action>)
    decreases |run|
  {
    run == [] || (Enabled(s, run[0]) && !Early(s, run[0]) && NeverEarly(Apply(s, run[0]), run[1..]))
  }

  function Start(idents: set<Id>): State {
    State(idents, map[], map[], map[], multiset{}, multiset{}, multiset{}, multiset{}, multiset{}, multiset{})
  }

  lemma {:induction false} RunKeeps(s: State, all: set<Id>, run: seq<Action>, s': State)
    requires Inv(s, all) && Runs(s, run, s')
    ensures Inv(s', all)
    ensures Tidy(s, all) && NeverEarly(s, run) ==> Tidy(s', all)
    decreases |run|
  {
    if run != [] {
      StepKeeps(s, all, run[0]);
      if Tidy(s, all) && NeverEarly(s, run) { TidyKept(s, all, run[0]); }
      RunKeeps(Apply(s, run[0]), all, run[1..], s');
    }
  }

  lemma StartTidy(all: set<Id>)
    ensures Tidy(Start(all), all)
  {}

  lemma Reached(all: set<Id>, run: seq<Action>, s: State)
    requires Runs(Start(all), run, s)
    ensures Inv(s, all) && (NeverEarly(Start(all), run) ==> Tidy(s, all))
  {
    StartTidy(all);
    RunKeeps(Start(all), all, run, s);
  }

  lemma FreedIdle(s: State, all: set<Id>, a: Action, id: Id)
    requires Inv(s, all) && Enabled(s, a) && id in Apply(s, a).free && id !in s.free
    ensures a == Return(id) || a == CloseRest(id, false)
    ensures id !in s.sockets && s.running[id] == if a == Return(id) then 1 else 0
  {
    if !a.Return? && !a.CloseRest? { OthersFreeNone(s, a); }
    if a.Return? { ReturnFrees(s, all, a.id); }
  }

  lemma OthersFreeNone(s: State, a: Action)
    requires Enabled(s, a) && !a.Return? && !a.CloseRest?
    ensures Apply(s, a).free <= s.free
  {}

  lemma ReturnFrees(s: State, all: set<Id>, id: Id)
    requires Inv(s, all) && id in s.running
    ensures Apply(s, Return(id)).free != s.free ==> id !in s.sockets && s.running[id] == 1 && Apply(s, Return(id)).free == s.free + {id}
  {}

  /** In every run: an ident comes back to the generator by the last callback or the close of its last assignment,
      once, and when no other callback for it runs. */
  lemma IdentsReturn(all: set<Id>, run: seq<Action>, s: State, a: Action, id: Id)
    requires Runs(Start(all), run, s) && Enabled(s, a) && id in Apply(s, a).free && id !in s.free
    ensures a == Return(id) || a == CloseRest(id, false)
    ensures id !in s.sockets && s.running[id] == if a == Return(id) then 1 else 0
  {
    Reached(all, run, s);
    FreedIdle(s, all, a, id);
  }

  /** In every run: a step that gives an ident back does not find it there, and an ident that is not there is open, or
      has a callback running, or is with one close that will give it back. */
  lemma IdentsOnce(all: set<Id>, run: seq<Action>, s: State, id: Id)
    requires Runs(Start(all), run, s)
    ensures id in s.closing || id in s.delay ==> id !in s.free && id !in s.sockets
    ensures id in s.free ==> s.running[id] == 0
    ensures id in all && id !in s.free && id !in s.sockets ==> s.running[id] > 0 || s.closing[id] == 1
  {
    Reached(all, run, s);
  }

  /** In every run: the counter of an open socket, or the delay of a closed one, is the number of its running callbacks. */
  lemma CountersTell(all: set<Id>, run: seq<Action>, s: State, id: Id)
    requires Runs(Start(all), run, s)
    ensures s.running[id] == if id in s.sockets then s.sockets[id] else if id in s.delay then s.delay[id] else 0
  {
    Reached(all, run, s);
  }

  /** In every run in which no ident is given out early: a listener of an open socket counts exactly its accept blocks. */
  lemma AcceptsCounted(all: set<Id>, run: seq<Action>, s: State, id: Id)
    requires Runs(Start(all), run, s) && NeverEarly(Start(all), run) && id in s.sockets && id in s.listeners
    ensures s.listeners[id].curr == Accepts(s, id) <= s.listeners[id].max
  {
    Reached(all, run, s);
  }

  lemma First(s: State, a: Action, run: seq<Action>, s': State)
    requires Enabled(s, a) && Runs(Apply(s, a), run, s')
    ensures Runs(s, [a] + run, s')
  {
    assert ([a] + run)[0] == a && ([a] + run)[1..] == run;
  }

  /** An open socket comes to listen with a wrong count: its listener is taken from it while an accept block waits. */
  lemma WrongCount(s: State, id: Id) returns (run: seq<Action>, s': State)
    requires id in s.sockets && s.closed[id] > 0 && Accepts(s, id) == 0
    requires id in s.listeners ==> s.listeners[id].curr == 0 < s.listeners[id].max
    ensures Runs(s, run, s') && id in s'.sockets && id in s'.listeners && s'.listeners[id].curr != Accepts(s', id)
  {
    var s1 := Apply(s, Listen(id, 1));
    var s2 := Apply(s1, PostAccept(id));
    var s3 := Apply(s2, CloseRest(id, true));
    s' := Apply(s3, Listen(id, 1));
    First(s3, Listen(id, 1), [], s');
    run := [Listen(id, 1)] + [];
    First(s2, CloseRest(id, true), run, s');
    run := [CloseRest(id, true)] + run;
    First(s1, PostAccept(id), run, s');
    run := [PostAccept(id)] + run;
    First(s, Listen(id, 1), run, s');
    run := [Listen(id, 1)] + run;
  }

  /** The condition is needed at each step: an ident given out early comes to listen with a wrong count. */
  lemma EarlyBreaks(s: State, all: set<Id>, id: Id) returns (run: seq<Action>, s': State)
    requires Inv(s, all) && Enabled(s, Assign(id)) && Early(s, Assign(id))
    ensures Runs(s, run, s') && id in s'.sockets && id in s'.listeners && s'.listeners[id].curr != Accepts(s', id)
  {
    NoBlocks(s, id);
    var s1 := Apply(s, Assign(id));
    if id in s.listeners && s.listeners[id].curr != 0 {
      run, s' := [], s1;
    } else if id in s.listeners && s.listeners[id].max == 0 {
      var s2 := Apply(s1, CloseRest(id, true));
      run, s' := WrongCount(s2, id);
      First(s1, CloseRest(id, true), run, s');
      run := [CloseRest(id, true)] + run;
    } else {
      run, s' := WrongCount(s1, id);
    }
    First(s, Assign(id), run, s');
    run := [Assign(id)] + run;
  }

  /** A socket is closed during its only callback, which ends before the close does. */
  lemma ClosedInCallback(s: State, id: Id) returns (run: seq<Action>, s': State)
    requires id in s.sockets && s.sockets[id] == 1 && id in s.running && id !in s.delay && id !in s.listeners
    ensures Runs(s, run, s') && Enabled(s', Assign(id)) && Early(s', Assign(id))
  {
    var s1 := Apply(s, Close(id));
    s' := Apply(s1, Return(id));
    First(s1, Return(id), [], s');
    run := [Return(id)] + [];
    First(s, Close(id), run, s');
    run := [Close(id)] + run;
  }

  /** Such a moment is reached. */
  lemma EarlyHappens(id: Id) returns (run: seq<Action>, s: State)
    ensures Runs(Start({id}), run, s) && Enabled(s, Assign(id)) && Early(s, Assign(id))
  {
    var b := Block(id, false);
    var s1 := Apply(Start({id}), Assign(id));
    var s2 := Apply(s1, Post(id));
    var s3 := Apply(s2, Initiate(b, false));
    var s4 := Apply(s3, Take(b));
    run, s := ClosedInCallback(s4, id);
    First(s3, Take(b), run, s);
    run := [Take(b)] + run;
    First(s2, Initiate(b, false), run, s);
    run := [Initiate(b, false)] + run;
    First(s1, Post(id), run, s);
    run := [Post(id)] + run;
    First(Start({id}), Assign(id), run, s);
    run := [Assign(id)] + run;
  }
}
