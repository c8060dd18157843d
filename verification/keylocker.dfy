/** The reader/writer gate (keymaker.cpp) as a state machine: a step is one stretch of code under the spinlock, one
    event operation outside it, or the end of a wait. Threads interleave between steps. */
module KeyLocker {
  import opened Wrappers

  type Tid = nat

  datatype Place =
    | Entering          // reader at the top of its loop
    | WaitOpen          // reader waiting until the gate is open
    | WaitEnter         // reader waiting until another one leaves
    | Inside
    | Locking           // writer at the top of its loop
    | WaitLock          // writer waiting until the gate is open
    | Draining          // writer that has closed the gate, waiting until the readers have left
    | Passed            // that wait has ended by the event
    | GivingUp          // that wait has ended by the timeout
    | Writing

  datatype State = State(
    isOpen: bool, readers: nat,
    canOpen: bool, canClose: bool, canEnter: bool, canLock: bool,   // the events; the first two stay until reset
    threads: map<Tid, Place>,
    owner: Option<Tid>)                                             // the writer that has closed the gate

  const START := State(true, 0, true, false, false, false, map[], None)

  datatype Action =
    | CallEnter(t: Tid) | TryEnter(t: Tid) | WakeOpen(t: Tid) | WakeEnter(t: Tid) | QuitEnter(t: Tid) | Leave(t: Tid)
    | CallLock(t: Tid) | TryLock(t: Tid) | WakeLock(t: Tid) | QuitLock(t: Tid)
    | WakeClose(t: Tid) | ResetClose(t: Tid) | TimeOut(t: Tid) | Reopen(t: Tid) | Unlock(t: Tid)

  predicate At(s: State, t: Tid, p: Place) { t in s.threads && s.threads[t] == p }
  function Go(s: State, t: Tid, p: Place): State { s.(threads := s.threads[t := p]) }
  function Out(s: State, t: Tid): State { s.(threads := s.threads - {t}) }

  predicate Enabled(s: State, a: Action) {
    match a
    case CallEnter(t) => t !in s.threads
    case TryEnter(t) => At(s, t, Entering)
    case WakeOpen(t) => At(s, t, WaitOpen) && s.canOpen
    case WakeEnter(t) => At(s, t, WaitEnter) && s.canEnter
    case QuitEnter(t) => At(s, t, WaitOpen) || At(s, t, WaitEnter) || At(s, t, Entering)
    case Leave(t) => At(s, t, Inside)
    case CallLock(t) => t !in s.threads
    case TryLock(t) => At(s, t, Locking)
    case WakeLock(t) => At(s, t, WaitLock) && s.canLock
    case QuitLock(t) => At(s, t, WaitLock) || At(s, t, Locking)
    case WakeClose(t) => At(s, t, Draining) && s.canClose
    case ResetClose(t) => At(s, t, Passed)
    case TimeOut(t) => At(s, t, Draining)
    case Reopen(t) => At(s, t, GivingUp)
    case Unlock(t) => At(s, t, Writing)
  }

  // The gate is open for readers and for the next writer.
  function OpenGate(s: State): State {
    s.(isOpen := true, canOpen := true, canLock := true, owner := None)
  }

  function Apply(s: State, max: nat, a: Action): State
    requires Enabled(s, a) && (a.Leave? ==> s.readers > 0)
  {
    match a
    case CallEnter(t) => Go(s, t, Entering)
    case TryEnter(t) =>
      if s.isOpen && s.readers < max then Go(s, t, Inside).(readers := s.readers + 1)
      else Go(s, t, if !s.isOpen then WaitOpen else WaitEnter)
    case WakeOpen(t) => Go(s, t, Entering)
    case WakeEnter(t) => Go(s, t, Entering).(canEnter := false)
    case QuitEnter(t) => Out(s, t)
    case Leave(t) =>
      var n := s.readers - 1;
      Out(s, t).(readers := n, canEnter := s.canEnter || s.isOpen, canClose := s.canClose || (!s.isOpen && n == 0))
    case CallLock(t) => Go(s, t, Locking)
    case TryLock(t) =>
      if !s.isOpen then Go(s, t, WaitLock)
      else
        var c := s.(isOpen := false, canOpen := false, owner := Some(t));
        if s.readers == 0 then Go(c, t, Writing).(canClose := false) else Go(c, t, Draining)
    case WakeLock(t) => Go(s, t, Locking).(canLock := false)
    case QuitLock(t) => Out(s, t)
    case WakeClose(t) => Go(s, t, Passed)
    case ResetClose(t) => Go(s, t, Writing).(canClose := false)
    case TimeOut(t) => Go(s, t, GivingUp)
    case Reopen(t) => OpenGate(Out(s, t))
    case Unlock(t) => if s.isOpen then Out(s, t) else OpenGate(Out(s, t))
  }

  // ----- the invariant

  ghost function Readers(threads: map<Tid, Place>): set<Tid> { set t | t in threads && threads[t] == Inside }

  predicate Owns(p: Place) { p == Draining || p == Passed || p == GivingUp || p == Writing }

  /** The gate is closed by one writer; a writer that has the gate to itself finds it empty; and the event that the
      readers have left is set only for the writer that waits for it. */
  ghost predicate Inv(s: State, max: nat) {
    Counted(s, max) && Owned(s) && Drained(s)
  }

  ghost predicate Counted(s: State, max: nat) { s.readers == |Readers(s.threads)| <= max }

  ghost predicate Owned(s: State) { s.canOpen == s.isOpen == s.owner.None? && OneOwner(s.threads, s.owner) }

  ghost predicate OneOwner(threads: map<Tid, Place>, owner: Option<Tid>) {
    && (forall t :: t in threads ==> (Owns(threads[t]) <==> owner == Some(t)))
    && (owner.Some? ==> owner.value in threads)
  }

  ghost predicate Drained(s: State) {
    && (s.canClose ==> s.owner.Some? && !At(s, s.owner.value, Writing) && s.readers == 0)
    && (s.owner.Some? && s.readers == 0 && !At(s, s.owner.value, Writing) ==> s.canClose)
    && (s.owner.Some? && (At(s, s.owner.value, Writing) || At(s, s.owner.value, Passed)) ==> s.readers == 0)
  }

  /** A thread that goes in adds one reader, and one that goes out takes one away. */
  lemma ReadersMove(threads: map<Tid, Place>, t: Tid, p: Place)
    ensures var r, i := Readers(threads), t in Readers(threads);
      && |Readers(threads[t := p])| == |r| + (if p == Inside && !i then 1 else if p != Inside && i then -1 else 0)
      && |Readers(threads - {t})| == |r| - (if i then 1 else 0)
  {
    var r := Readers(threads);
    assert Readers(threads[t := p]) == if p == Inside then r + {t} else r - {t};
    assert Readers(threads - {t}) == r - {t};
    assert t !in r ==> r - {t} == r;
    assert t in r ==> r + {t} == r;
  }

  /** A timeout that finds no reader any more leaves the event set behind. */
  predicate Late(s: State, a: Action) { a.Reopen? && s.readers == 0 }

  lemma StepKeeps(s: State, max: nat, a: Action)
    requires Inv(s, max) && Enabled(s, a) && !Late(s, a)
    ensures a.Leave? ==> s.readers > 0
    ensures Inv(Apply(s, max, a), max)
  {
    CountKept(s, max, a);
    OwnerKept(s, max, a);
    DrainKept(s, max, a);
  }

  lemma CountKept(s: State, max: nat, a: Action)
    requires Counted(s, max) && Enabled(s, a)
    ensures a.Leave? ==> s.readers > 0
    ensures Counted(Apply(s, max, a), max)
  {
    var t := a.t;
    assert t in Readers(s.threads) <==> At(s, t, Inside);
    if a.Leave? { ReaderInside(s.threads, t); }
    OneMoves(s, max, a);
    var s' := Apply(s, max, a);
    ReadersMove(s.threads, t, if t in s'.threads then s'.threads[t] else Inside);
  }

  /** A step moves its own thread. */
  lemma OneMoves(s: State, max: nat, a: Action)
    requires Enabled(s, a) && (a.Leave? ==> s.readers > 0)
    ensures var t, s' := a.t, Apply(s, max, a);
      s'.threads == if t in s'.threads then s.threads[t := s'.threads[t]] else s.threads - {t}
  {}

  lemma ReaderInside(threads: map<Tid, Place>, t: Tid)
    requires t in Readers(threads)
    ensures |Readers(threads)| > 0
  {}

  lemma OwnerKept(s: State, max: nat, a: Action)
    requires Owned(s) && Enabled(s, a) && (a.Leave? ==> s.readers > 0)
    ensures Owned(Apply(s, max, a))
  {
    if a.TryLock? {
      CloseOwner(s, max, a);
    } else if a.WakeClose? || a.ResetClose? || a.TimeOut? || a.Reopen? || a.Unlock? {
      OwnerActs(s, max, a);
    } else if a.CallLock? || a.WakeLock? || a.QuitLock? {
      WriterWaits(s, max, a);
    } else {
      ReaderActs(s, max, a);
    }
  }

  /** Threads that do not own the gate move about. */
  lemma ReaderActs(s: State, max: nat, a: Action)
    requires Owned(s) && Enabled(s, a) && (a.Leave? ==> s.readers > 0)
    requires a.CallEnter? || a.TryEnter? || a.WakeOpen? || a.WakeEnter? || a.QuitEnter? || a.Leave?
    ensures Owned(Apply(s, max, a))
  {
    assert s.owner != Some(a.t);
    OthersMove(s.threads, s.owner, a.t);
  }

  lemma WriterWaits(s: State, max: nat, a: Action)
    requires Owned(s) && Enabled(s, a) && (a.CallLock? || a.WakeLock? || a.QuitLock?)
    ensures Owned(Apply(s, max, a))
  {
    assert s.owner != Some(a.t);
    OthersMove(s.threads, s.owner, a.t);
  }

  lemma OthersMove(threads: map<Tid, Place>, owner: Option<Tid>, t: Tid)
    requires OneOwner(threads, owner) && owner != Some(t)
    ensures forall p :: !Owns(p) ==> OneOwner(threads[t := p], owner)
    ensures OneOwner(threads - {t}, owner)
  {}

  /** The owner waits for the readers, has the gate to itself, or opens it again. */
  lemma OwnerActs(s: State, max: nat, a: Action)
    requires Owned(s) && Enabled(s, a) && (a.WakeClose? || a.ResetClose? || a.TimeOut? || a.Reopen? || a.Unlock?)
    ensures Owned(Apply(s, max, a))
  {
    assert s.owner == Some(a.t);
    OwnerMoves(s.threads, a.t);
  }

  lemma OwnerMoves(threads: map<Tid, Place>, t: Tid)
    requires OneOwner(threads, Some(t))
    ensures forall p :: Owns(p) ==> OneOwner(threads[t := p], Some(t))
    ensures OneOwner(threads - {t}, None)
  {}

  /** A writer closes the gate, or finds it closed. */
  lemma CloseOwner(s: State, max: nat, a: Action)
    requires Owned(s) && Enabled(s, a) && a.TryLock?
    ensures Owned(Apply(s, max, a))
  {
    if s.isOpen { NewOwner(s.threads, a.t); } else { OthersMove(s.threads, s.owner, a.t); }
  }

  lemma NewOwner(threads: map<Tid, Place>, t: Tid)
    requires OneOwner(threads, None)
    ensures forall p :: Owns(p) ==> OneOwner(threads[t := p], Some(t))
  {}

  lemma DrainKept(s: State, max: nat, a: Action)
    requires Owned(s) && Drained(s) && Enabled(s, a) && !Late(s, a) && (a.Leave? ==> s.readers > 0)
    ensures Drained(Apply(s, max, a))
  {}

  // ----- every run

  ghost predicate Runs(s: State, max: nat, run: seq<Action>, s': State)
    decreases |run|
  {
    if run == [] then s' == s
    else Enabled(s, run[0]) && (run[0].Leave? ==> s.readers > 0) && Runs(Apply(s, max, run[0]), max, run[1..], s')
  }

  /** No writer gives up at a moment when no reader is left. */
  ghost predicate NeverLate(s: State, max: nat, run: seq<Action>)
    decreases |run|
  {
    run == [] ||
    (Enabled(s, run[0]) && (run[0].Leave? ==> s.readers > 0) && !Late(s, run[0]) && NeverLate(Apply(s, max, run[0]), max, run[1..]))
  }

  lemma {:induction false} RunKeeps(s: State, max: nat, run: seq<Action>, s': State)
    requires Inv(s, max) && Runs(s, max, run, s') && NeverLate(s, max, run)
    ensures Inv(s', max)
    decreases |run|
  {
    if run != [] {
      StepKeeps(s, max, run[0]);
      RunKeeps(Apply(s, max, run[0]), max, run[1..], s');
    }
  }

  /** In every run in which no writer gives up without readers: a writer excludes all readers and all other writers,
      the readers never exceed the maximum, and the can-open event is set exactly while the gate is open. */
  lemma Exclusion(max: nat, run: seq<Action>, s: State, w: Tid, t: Tid)
    requires Runs(START, max, run, s) && NeverLate(START, max, run)
    ensures At(s, w, Writing) && t != w ==> !At(s, t, Inside) && !At(s, t, Writing)
    ensures |Readers(s.threads)| <= max
    ensures s.canOpen == s.isOpen
    ensures At(s, w, Writing) ==> !s.isOpen
  {
    RunKeeps(START, max, run, s);
    if At(s, t, Inside) { ReaderInside(s.threads, t); assert t in Readers(s.threads); }
  }

  lemma First(s: State, max: nat, a: Action, run: seq<Action>, s': State)
    requires Enabled(s, a) && (a.Leave? ==> s.readers > 0) && Runs(Apply(s, max, a), max, run, s')
    ensures Runs(s, max, [a] + run, s')
  {
    assert ([a] + run)[0] == a && ([a] + run)[1..] == run;
  }

  /** A reader enters and the next writer closes the gate with the event still set. */
  lemma StaleEvent(s: State, max: nat, r: Tid, w: Tid) returns (run: seq<Action>, s': State)
    requires s.isOpen && s.canClose && s.readers == 0 < max && r !in s.threads && w !in s.threads && r != w
    ensures Runs(s, max, run, s') && At(s', r, Inside) && At(s', w, Writing)
  {
    var s1 := Apply(s, max, CallEnter(r));
    var s2 := Apply(s1, max, TryEnter(r));
    var s3 := Apply(s2, max, CallLock(w));
    var s4 := Apply(s3, max, TryLock(w));
    var s5 := Apply(s4, max, WakeClose(w));
    s' := Apply(s5, max, ResetClose(w));
    First(s5, max, ResetClose(w), [], s');
    run := [ResetClose(w)] + [];
    First(s4, max, WakeClose(w), run, s');
    run := [WakeClose(w)] + run;
    First(s3, max, TryLock(w), run, s');
    run := [TryLock(w)] + run;
    First(s2, max, CallLock(w), run, s');
    run := [CallLock(w)] + run;
    First(s1, max, TryEnter(r), run, s');
    run := [TryEnter(r)] + run;
    First(s, max, CallEnter(r), run, s');
    run := [CallEnter(r)] + run;
  }

  /** The condition is needed at each step: once a writer has given up without readers, the next writer that should
      wait for a reader does not wait, and both are inside. */
  lemma LateBreaks(s: State, max: nat, g: Tid, r: Tid, w: Tid) returns (run: seq<Action>, s': State)
    requires Inv(s, max) && Enabled(s, Reopen(g)) && Late(s, Reopen(g)) && max > 0
    requires r !in s.threads && w !in s.threads && r != w
    ensures Runs(s, max, run, s') && run != [] && run[0] == Reopen(g)
    ensures At(s', r, Inside) && At(s', w, Writing)
  {
    run, s' := StaleEvent(Apply(s, max, Reopen(g)), max, r, w);
    First(s, max, Reopen(g), run, s');
    run := [Reopen(g)] + run;
  }

  lemma {:induction false} Join(s: State, max: nat, run: seq<Action>, m: State, rest: seq<Action>, s': State)
    requires Runs(s, max, run, m) && Runs(m, max, rest, s')
    ensures Runs(s, max, run + rest, s')
    decreases |run|
  {
    if run == [] {
      assert run + rest == rest;
    } else {
      assert (run + rest)[0] == run[0] && (run + rest)[1..] == run[1..] + rest;
      Join(Apply(s, max, run[0]), max, run[1..], m, rest, s');
    }
  }

  /** Such a moment is reached: the only reader leaves just after the writer's wait has timed out. */
  lemma LateHappens(max: nat) returns (run: seq<Action>, s: State)
    requires max > 0
    ensures Runs(START, max, run, s) && Enabled(s, Reopen(1)) && Late(s, Reopen(1))
  {
    var m;
    run, m := ReaderInWriterDraining(max);
    var s1 := Apply(m, max, TimeOut(1));
    s := Apply(s1, max, Leave(0));
    First(s1, max, Leave(0), [], s);
    First(m, max, TimeOut(1), [Leave(0)] + [], s);
    Join(START, max, run, m, [TimeOut(1)] + ([Leave(0)] + []), s);
    run := run + ([TimeOut(1)] + ([Leave(0)] + []));
  }

  lemma ReaderInWriterDraining(max: nat) returns (run: seq<Action>, s: State)
    requires max > 0
    ensures Runs(START, max, run, s) && !s.isOpen && s.readers == 1 && At(s, 0, Inside) && At(s, 1, Draining)
  {
    var s1 := Apply(START, max, CallEnter(0));
    var s2 := Apply(s1, max, TryEnter(0));
    var s3 := Apply(s2, max, CallLock(1));
    s := Apply(s3, max, TryLock(1));
    First(s3, max, TryLock(1), [], s);
    run := [TryLock(1)] + [];
    First(s2, max, CallLock(1), run, s);
    run := [CallLock(1)] + run;
    First(s1, max, TryEnter(0), run, s);
    run := [TryEnter(0)] + run;
    First(START, max, CallEnter(0), run, s);
    run := [CallEnter(0)] + run;
  }
}
