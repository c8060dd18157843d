/** The handshake of a connection between an initiator and a receiver (msg_conn.cpp, msg_sock.cpp, msg_comm.cpp) over two
    first-in-first-out channels, as a state machine in which the threads of both sides interleave. */
module Handshake {
  import opened Wrappers

  type Session = nat

  datatype Kind = Request | Reply | Ping | User
  datatype Msg = Msg(kind: Kind, session: Session)

  predicate IsHandshake(k: Kind) { k == Request || k == Reply }

  // One end: connected or still in the handshake; its queue, in which only handshake messages have the system priority,
  // and whether a message is being sent.
  datatype Side = Side(connected: bool, session: Option<Session>, system: seq<Msg>, others: seq<Kind>, sending: bool)

  datatype State = State(
    i: Side, r: Side,
    toR: seq<Msg>, toI: seq<Msg>,      // what is on the way
    owed: Option<Session>,             // the receiver is connected and is about to queue its reply
    failed: bool)                      // a message was refused for its format or its session

  const FRESH := Side(false, None, [], [], false)
  const START := State(FRESH, FRESH, [], [], None, false)

  datatype Action =
    | Start(session: Session)          // v_on_connect of the initiator
    | Push(byI: bool, ping: bool)      // push_msg, ping_notify
    | Send(byI: bool)                  // v_has_job and v_do_job of the queue thread
    | Sent(byI: bool)                  // v_on_send
    | ReceiveAtR                       // process_incoming_message of the receiver
    | QueueReply                       // its last part, the push of the reply
    | ReceiveAtI                       // process_incoming_message of the initiator

  // The gate of v_has_job: before the handshake is over only a message of the system priority may be sent.
  predicate MaySend(x: Side) {
    !x.sending && (if x.connected then x.system != [] || x.others != [] else x.system != [])
  }

  // The message v_do_job sends: the first of the most urgent list; all but handshake messages get the side's session.
  function Outgoing(x: Side): Msg
    requires MaySend(x)
  {
    if x.system != [] then x.system[0] else Msg(x.others[0], if x.session.Some? then x.session.value else 0)
  }

  function AfterSend(x: Side): Side
    requires MaySend(x)
  {
    if x.system != [] then x.(system := x.system[1..], sending := true) else x.(others := x.others[1..], sending := true)
  }

  // process_incoming_message on anything but a handshake: only a connected side takes it, and only for its own session.
  predicate Takes(x: Side, m: Msg) { x.connected && x.session == Some(m.session) }

  predicate Enabled(s: State, a: Action) {
    match a
    case Start(_) => s.i.session == None
    case Push(_, _) => true
    case Send(byI) => MaySend(if byI then s.i else s.r)
    case Sent(byI) => if byI then s.i.sending else s.r.sending
    case ReceiveAtR => s.toR != [] && s.owed == None
    case QueueReply => s.owed.Some?
    case ReceiveAtI => s.toI != []
  }

  function Apply(s: State, a: Action): State
    requires Enabled(s, a)
  {
    match a
    case Start(session) => s.(i := s.i.(session := Some(session), system := s.i.system + [Msg(Request, session)]))
    case Push(byI, ping) =>
      var k := if ping then Ping else User;
      if byI then s.(i := s.i.(others := s.i.others + [k])) else s.(r := s.r.(others := s.r.others + [k]))
    case Send(byI) =>
      if byI then s.(toR := s.toR + [Outgoing(s.i)], i := AfterSend(s.i)) else s.(toI := s.toI + [Outgoing(s.r)], r := AfterSend(s.r))
    case Sent(byI) => if byI then s.(i := s.i.(sending := false)) else s.(r := s.r.(sending := false))
    case ReceiveAtR =>
      var m, s1 := s.toR[0], s.(toR := s.toR[1..]);
      if IsHandshake(m.kind) then
        if s.r.connected || m.kind != Request then s1.(failed := true)
        else s1.(r := s.r.(connected := true, session := Some(m.session)), owed := Some(m.session))
      else if Takes(s.r, m) then s1 else s1.(failed := true)
    case QueueReply => s.(r := s.r.(system := s.r.system + [Msg(Reply, s.owed.value)]), owed := None)
    case ReceiveAtI =>
      var m, s1 := s.toI[0], s.(toI := s.toI[1..]);
      if IsHandshake(m.kind) then
        if s.i.connected || m.kind != Reply || s.i.session != Some(m.session) then s1.(failed := true)
        else s1.(i := s.i.(connected := true))
      else if Takes(s.i, m) then s1 else s1.(failed := true)
  }

  // ----- the invariant

  /** Only data messages of this session. */
  ghost predicate Data(c: seq<Msg>, x: Session) { forall k :: 0 <= k < |c| ==> !IsHandshake(c[k].kind) && c[k].session == x }

  ghost predicate NoHandshake(ks: seq<Kind>) { forall k :: 0 <= k < |ks| ==> !IsHandshake(ks[k]) }

  /** Nothing has been sent to the initiator but the reply and then data, in this order. */
  ghost predicate ReplyFirst(c: seq<Msg>, x: Session) { c == [] || (c[0] == Msg(Reply, x) && Data(c[1..], x)) }

  ghost predicate NotStarted(s: State) { s.i == FRESH.(others := s.i.others) && s.r == FRESH.(others := s.r.others) && s.toR == [] }

  /** The request is queued or on its way. */
  ghost predicate Asked(s: State, x: Session) {
    && s.i.session == Some(x) && !s.i.connected && s.r == FRESH.(others := s.r.others)
    && ((s.i.system == [Msg(Request, x)] && s.toR == []) || (s.i.system == [] && s.toR == [Msg(Request, x)]))
  }

  /** The receiver has the request; the reply is owed, queued, or on its way. */
  ghost predicate Answered(s: State, x: Session) {
    && s.i.session == Some(x) && !s.i.connected && s.i.system == [] && s.r.connected && s.r.session == Some(x) && s.toR == []
    && (if s.owed.Some? || s.r.system != [] then s.toI == [] else s.toI != [] && ReplyFirst(s.toI, x))
    && (if s.owed.Some? then s.owed == Some(x) && s.r.system == [] else s.r.system == [] || s.r.system == [Msg(Reply, x)])
  }

  ghost predicate Joined(s: State, x: Session) {
    && s.i.connected && s.r.connected && s.i.session == s.r.session == Some(x) && s.owed == None
    && s.i.system == [] && s.r.system == [] && Data(s.toR, x) && Data(s.toI, x)
  }

  ghost predicate Phases(s: State, x: Session) {
    || (NotStarted(s) && s.toI == [] && s.owed == None)
    || (Asked(s, x) && s.toI == [] && s.owed == None)
    || Answered(s, x)
    || Joined(s, x)
  }

  ghost predicate Inv(s: State) {
    !s.failed && NoHandshake(s.i.others) && NoHandshake(s.r.others) && exists x :: Phases(s, x)
  }

  /** The receiver sends between being connected and queueing its reply. */
  predicate Eager(s: State, a: Action) { a == Send(false) && s.owed.Some? }

  lemma StepKeeps(s: State, x: Session, a: Action)
    requires Inv(s) && Phases(s, x) && Enabled(s, a) && !Eager(s, a)
    ensures Inv(Apply(s, a))
  {
    if NotStarted(s) {
      BeginKeeps(s, a);
    } else if Asked(s, x) {
      AskedKeeps(s, x, a);
    } else if Answered(s, x) {
      AnsweredKeeps(s, x, a);
    } else {
      JoinedKeeps(s, x, a);
    }
  }

  lemma BeginKeeps(s: State, a: Action)
    requires Inv(s) && NotStarted(s) && s.toI == [] && s.owed == None && Enabled(s, a)
    ensures Inv(Apply(s, a))
  {
    assert Phases(Apply(s, a), if a.Start? then a.session else 0);
  }

  lemma AskedKeeps(s: State, x: Session, a: Action)
    requires Inv(s) && Asked(s, x) && s.toI == [] && s.owed == None && Enabled(s, a)
    ensures Inv(Apply(s, a))
  {
    assert Phases(Apply(s, a), x);
  }

  lemma AnsweredKeeps(s: State, x: Session, a: Action)
    requires Inv(s) && Answered(s, x) && Enabled(s, a) && !Eager(s, a)
    ensures Inv(Apply(s, a))
  {
    assert Phases(Apply(s, a), x);
  }

  lemma JoinedKeeps(s: State, x: Session, a: Action)
    requires Inv(s) && Joined(s, x) && Enabled(s, a)
    ensures Inv(Apply(s, a))
  {
    assert Phases(Apply(s, a), x);
  }

  // ----- every run

  ghost predicate Runs(s: State, run: seq<Action>, s': State)
    decreases |run|
  {
    if run == [] then s' == s else Enabled(s, run[0]) && Runs(Apply(s, run[0]), run[1..], s')
  }

  ghost predicate NeverEager(s: State, run: seq<Action>)
    decreases |run|
  {
    run == [] || (Enabled(s, run[0]) && !Eager(s, run[0]) && NeverEager(Apply(s, run[0]), run[1..]))
  }

  lemma {:induction false} RunKeeps(s: State, run: seq<Action>, s': State)
    requires Inv(s) && Runs(s, run, s') && NeverEager(s, run)
    ensures Inv(s')
    decreases |run|
  {
    if run != [] {
      var x :| Phases(s, x);
      StepKeeps(s, x, run[0]);
      RunKeeps(Apply(s, run[0]), run[1..], s');
    }
  }

  lemma Reached(run: seq<Action>, s: State)
    requires Runs(START, run, s) && NeverEager(START, run)
    ensures Inv(s)
  {
    assert Phases(START, 0);
    RunKeeps(START, run, s);
  }

  /** In every run in which the receiver does not send before its reply is queued: no message is refused, connected sides
      hold the same session, and every message for a connected side but a handshake carries that side's session. */
  lemma SessionsAgree(run: seq<Action>, s: State)
    requires Runs(START, run, s) && NeverEager(START, run)
    ensures !s.failed
    ensures s.i.connected ==> s.r.connected && s.i.session == s.r.session != None
    ensures forall m :: m in s.toR && !IsHandshake(m.kind) ==> Takes(s.r, m)
    ensures forall m :: m in s.toI && !IsHandshake(m.kind) ==> s.i.session == Some(m.session)
  {
    Reached(run, s);
    var x :| Phases(s, x);
  }

  /** In every such run: a side that is not connected sends a handshake message only, the initiator the request it
      began with; and the receiver's first message is the reply. */
  lemma HandshakeOnly(run: seq<Action>, s: State, byI: bool)
    requires Runs(START, run, s) && NeverEager(START, run) && Enabled(s, Send(byI)) && !Eager(s, Send(byI))
    ensures var x := if byI then s.i else s.r;
      !x.connected ==> byI && Some(Outgoing(x).session) == x.session && Outgoing(x).kind == Request
    ensures !byI && !s.i.connected && s.toI == [] ==> Outgoing(s.r).kind == Reply && Some(Outgoing(s.r).session) == s.i.session
  {
    Reached(run, s);
    var x :| Phases(s, x);
  }

  lemma First(s: State, a: Action, run: seq<Action>, s': State)
    requires Enabled(s, a) && Runs(Apply(s, a), run, s')
    ensures Runs(s, [a] + run, s')
  {
    assert ([a] + run)[0] == a && ([a] + run)[1..] == run;
  }

  /** The condition is needed at each step: a message sent before the reply is refused by the initiator. */
  lemma EagerBreaks(s: State, a: Action) returns (s': State)
    requires Inv(s) && Enabled(s, a) && Eager(s, a)
    ensures Runs(s, [a] + ([ReceiveAtI] + []), s') && s'.failed
  {
    var x :| Phases(s, x);
    assert s.r.others[0] in s.r.others;
    var s1 := Apply(s, a);
    s' := Apply(s1, ReceiveAtI);
    First(s1, ReceiveAtI, [], s');
    First(s, a, [ReceiveAtI] + [], s');
  }

  /** Such a moment is reached: a ping waits for the connection when the request arrives. */
  lemma EagerHappens(x: Session) returns (run: seq<Action>, s: State)
    ensures Runs(START, run, s) && Enabled(s, Send(false)) && Eager(s, Send(false))
  {
    var s1 := Apply(START, Push(false, true));
    var s2 := Apply(s1, Start(x));
    var s3 := Apply(s2, Send(true));
    s := Apply(s3, ReceiveAtR);
    First(s3, ReceiveAtR, [], s);
    run := [ReceiveAtR] + [];
    First(s2, Send(true), run, s);
    run := [Send(true)] + run;
    First(s1, Start(x), run, s);
    run := [Start(x)] + run;
    First(START, Push(false, true), run, s);
    run := [Push(false, true)] + run;
  }
}
