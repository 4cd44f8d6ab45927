/**
 The accept loop of main.cpp and its detached worker threads as a transition system: one
 acceptor, any number of workers, one atomic access or system call a step, any interleaving.
 */
module AcceptLoop {
  import opened Wrappers

  /** Where the acceptor is: in front of the loop test, past it, or further on with the socket it has
      just accepted. */
  datatype Acceptor =
    | Polling
    | Waiting
    | Holding(sock: nat)
    | Admitted(sock: nat)
    | Prepared(sock: nat)
    | Numbered(sock: nat, id: int)
    | Counted(sock: nat, id: int)
    | Stopped

  /** A worker runs handleClient until its socket is closed, then gives its slot back. */
  datatype Worker = Serving(sock: nat) | Leaving

  /** `accepted` numbers the sockets accepted so far, `closed` lists the closed ones in order,
      `started` the connection ids handed to threads in order. */
  datatype State = State(
    acceptor: Acceptor, active: int, connSeq: int, workers: map<int, Worker>,
    accepted: nat, closed: seq<nat>, started: seq<int>, running: bool)

  const INITIAL := State(Polling, 0, 0, map[], 0, [], [], true)

  datatype Step =
    | Signal
    | LeaveLoop
    | EnterLoop
    | NobodyCame
    | Accept
    | RejectFull
    | Admit
    | TimeoutFails
    | TimeoutSet
    | TakeNumber
    | CountIn
    | StartThread
    | CloseSocket(id: int)
    | CountOut(id: int)

  /** The state after a step, None where the step is not possible. */
  function Next(maxClients: int, s: State, step: Step): Option<State> {
    match step
    case Signal => Some(s.(running := false))
    case LeaveLoop => if s.acceptor.Polling? && !s.running then Some(s.(acceptor := Stopped)) else None
    case EnterLoop => if s.acceptor.Polling? && s.running then Some(s.(acceptor := Waiting)) else None
    case NobodyCame => if s.acceptor.Waiting? then Some(s.(acceptor := Polling)) else None
    case Accept =>
      if s.acceptor.Waiting? then Some(s.(acceptor := Holding(s.accepted), accepted := s.accepted + 1)) else None
    case RejectFull =>
      if s.acceptor.Holding? && s.active >= maxClients
      then Some(s.(acceptor := Polling, closed := s.closed + [s.acceptor.sock])) else None
    case Admit =>
      if s.acceptor.Holding? && s.active < maxClients then Some(s.(acceptor := Admitted(s.acceptor.sock))) else None
    case TimeoutFails =>
      if s.acceptor.Admitted? then Some(s.(acceptor := Polling, closed := s.closed + [s.acceptor.sock])) else None
    case TimeoutSet =>
      if s.acceptor.Admitted? then Some(s.(acceptor := Prepared(s.acceptor.sock))) else None
    case TakeNumber =>
      if s.acceptor.Prepared?
      then Some(s.(acceptor := Numbered(s.acceptor.sock, s.connSeq + 1), connSeq := s.connSeq + 1)) else None
    case CountIn =>
      if s.acceptor.Numbered?
      then Some(s.(acceptor := Counted(s.acceptor.sock, s.acceptor.id), active := s.active + 1)) else None
    case StartThread =>
      if s.acceptor.Counted?
      then Some(s.(acceptor := Polling, workers := s.workers[s.acceptor.id := Serving(s.acceptor.sock)],
                   started := s.started + [s.acceptor.id])) else None
    case CloseSocket(id) =>
      if id in s.workers && s.workers[id].Serving?
      then Some(s.(workers := s.workers[id := Leaving], closed := s.closed + [s.workers[id].sock])) else None
    case CountOut(id) =>
      if id in s.workers && s.workers[id].Leaving?
      then Some(s.(workers := s.workers - {id}, active := s.active - 1)) else None
  }

  /** The state after a whole run, None when some step of it was not possible. */
  function Exec(maxClients: int, steps: seq<Step>): Option<State> {
    if steps == [] then Some(INITIAL)
    else match Exec(maxClients, steps[..|steps| - 1])
         case None => None
         case Some(s) => Next(maxClients, s, steps[|steps| - 1])
  }

  // --------------------------------------------------------------- invariants

  /** The counter is the number of workers that have not given their slot back, plus the one
      the acceptor has counted but not started yet. */
  ghost predicate CounterExact(s: State) {
    s.active == |s.workers| + (if s.acceptor.Counted? then 1 else 0)
  }

  /** Between its check and its own increment the acceptor's check stays true: nobody else increments. */
  ghost predicate CheckHolds(maxClients: int, s: State) {
    && s.active <= maxClients
    && (s.acceptor.Admitted? || s.acceptor.Prepared? || s.acceptor.Numbered? ==> s.active < maxClients)
  }

  /** Threads get the ids 1, 2, 3 and so on, in this order. */
  ghost predicate NumbersExact(s: State) {
    && (forall i :: 0 <= i < |s.started| ==> s.started[i] == i + 1)
    && s.connSeq == |s.started| + (if s.acceptor.Numbered? || s.acceptor.Counted? then 1 else 0)
    && (s.acceptor.Numbered? || s.acceptor.Counted? ==> s.acceptor.id == s.connSeq)
    && (forall id :: id in s.workers ==> 1 <= id <= |s.started|)
  }

  ghost predicate Held(s: State, k: nat) {
    match s.acceptor
    case Holding(sock) => sock == k
    case Admitted(sock) => sock == k
    case Prepared(sock) => sock == k
    case Numbered(sock, _) => sock == k
    case Counted(sock, _) => sock == k
    case _ => false
  }

  ghost predicate Owned(s: State, id: int, k: nat) {
    id in s.workers && s.workers[id] == Serving(k)
  }

  ghost predicate WithWorker(s: State, k: nat) {
    exists id :: Owned(s, id, k)
  }

  /** Every accepted socket is in one place: closed once, with the acceptor, or with one worker. */
  ghost predicate SocketsExact(s: State) {
    && (forall k: nat :: Held(s, k) || k in s.closed || WithWorker(s, k) <==> k < s.accepted)
    && (forall i, j :: 0 <= i < j < |s.closed| ==> s.closed[i] != s.closed[j])
    && (forall k: nat :: k in s.closed ==> !Held(s, k) && forall id :: !Owned(s, id, k))
    && (forall k: nat, id :: Owned(s, id, k) ==> !Held(s, k))
    && (forall k: nat, id, id' :: Owned(s, id, k) && Owned(s, id', k) ==> id == id')
  }

  ghost predicate Inv(maxClients: int, s: State) {
    CounterExact(s) && CheckHolds(maxClients, s) && NumbersExact(s) && SocketsExact(s)
  }

  lemma MapSizes<T>(m: map<int, T>, id: int, x: T)
    ensures |m[id := x]| == if id in m then |m| else |m| + 1
    ensures id in m ==> |m - {id}| == |m| - 1
  {
    assert m[id := x].Keys == m.Keys + {id};
    assert (m - {id}).Keys == m.Keys - {id};
  }

  /** Steps that change the workers. */
  predicate MovesWorker(step: Step) { step.StartThread? || step.CloseSocket? || step.CountOut? }

  lemma WorkerStep(maxClients: int, s: State, step: Step)
    requires CounterExact(s) && CheckHolds(maxClients, s) && NumbersExact(s) && Next(maxClients, s, step).Some?
    requires MovesWorker(step)
    ensures var t := Next(maxClients, s, step).value; CounterExact(t) && CheckHolds(maxClients, t)
  {
    match step {
      case StartThread =>
        assert s.acceptor.id !in s.workers;
        MapSizes(s.workers, s.acceptor.id, Serving(s.acceptor.sock));
      case CloseSocket(id) => MapSizes(s.workers, id, Leaving);
      case CountOut(id) => MapSizes(s.workers, id, Leaving);
      case _ =>
    }
  }

  lemma CounterStep(maxClients: int, s: State, step: Step)
    requires CounterExact(s) && CheckHolds(maxClients, s) && NumbersExact(s) && Next(maxClients, s, step).Some?
    ensures var t := Next(maxClients, s, step).value; CounterExact(t) && CheckHolds(maxClients, t)
  {
    hide NumbersExact;
    if MovesWorker(step) {
      WorkerStep(maxClients, s, step);
    } else {
      assert Next(maxClients, s, step).value.workers == s.workers;
    }
  }

  lemma NumbersStep(maxClients: int, s: State, step: Step)
    requires NumbersExact(s) && Next(maxClients, s, step).Some?
    ensures NumbersExact(Next(maxClients, s, step).value)
  {
  }

  lemma SocketsStep(maxClients: int, s: State, step: Step)
    requires NumbersExact(s) && SocketsExact(s) && Next(maxClients, s, step).Some?
    ensures SocketsExact(Next(maxClients, s, step).value)
  {
    hide SocketsExact;
    var t := Next(maxClients, s, step).value;
    match step {
      case Accept => NewSocket(s, t);
      case RejectFull => HandOver(s, t, s.acceptor.sock);
      case TimeoutFails => HandOver(s, t, s.acceptor.sock);
      case StartThread => ThreadStarts(s, t);
      case CloseSocket(id) => WorkerCloses(s, t, id);
      case CountOut(id) => SameSockets(s, t);
      case _ => SameSockets(s, t);
    }
  }

  lemma SameSockets(s: State, t: State)
    requires SocketsExact(s) && t.closed == s.closed && t.accepted == s.accepted
    requires forall k: nat :: Held(t, k) <==> Held(s, k)
    requires forall k: nat, id :: Owned(t, id, k) <==> Owned(s, id, k)
    ensures SocketsExact(t)
  {
  }

  lemma NewSocket(s: State, t: State)
    requires SocketsExact(s) && s.acceptor.Waiting?
    requires t == s.(acceptor := Holding(s.accepted), accepted := s.accepted + 1)
    ensures SocketsExact(t)
  {
    assert forall k: nat :: !Held(s, k) && (Held(t, k) <==> k == s.accepted);
    assert forall k: nat, id :: Owned(t, id, k) <==> Owned(s, id, k);
  }

  /** The acceptor's socket becomes the new worker's. */
  lemma ThreadStarts(s: State, t: State)
    requires NumbersExact(s) && SocketsExact(s) && s.acceptor.Counted?
    requires t == s.(acceptor := Polling, workers := s.workers[s.acceptor.id := Serving(s.acceptor.sock)],
                     started := s.started + [s.acceptor.id])
    ensures SocketsExact(t)
  {
    assert s.acceptor.id !in s.workers;
    assert forall k: nat, id :: Owned(t, id, k) <==> Owned(s, id, k) || (id == s.acceptor.id && k == s.acceptor.sock);
    assert Held(s, s.acceptor.sock) && Owned(t, s.acceptor.id, s.acceptor.sock);
    assert forall k: nat :: !Held(t, k) && (Held(s, k) <==> k == s.acceptor.sock);
    forall k: nat ensures WithWorker(t, k) <==> WithWorker(s, k) || Held(s, k) {
      if id :| Owned(s, id, k) { assert Owned(t, id, k); }
    }
  }

  lemma WorkerCloses(s: State, t: State, id: int)
    requires SocketsExact(s) && id in s.workers && s.workers[id].Serving?
    requires t == s.(workers := s.workers[id := Leaving], closed := s.closed + [s.workers[id].sock])
    ensures SocketsExact(t)
  {
    var sock := s.workers[id].sock;
    assert Owned(s, id, sock);
    assert forall k: nat, i :: Owned(t, i, k) <==> Owned(s, i, k) && i != id;
    assert forall k: nat :: Held(t, k) <==> Held(s, k);
    assert forall k: nat :: k in t.closed <==> k in s.closed || k == sock;
    forall k: nat | k != sock ensures WithWorker(t, k) <==> WithWorker(s, k) {
      if i :| Owned(s, i, k) { assert Owned(t, i, k); }
    }
  }

  /** The acceptor closes the socket it holds. */
  lemma HandOver(s: State, t: State, sock: nat)
    requires SocketsExact(s) && Held(s, sock)
    requires t == s.(acceptor := Polling, closed := s.closed + [sock])
    ensures SocketsExact(t)
  {
    assert forall k: nat :: !Held(t, k) && (Held(s, k) <==> k == sock);
    assert forall k: nat, id :: Owned(t, id, k) <==> Owned(s, id, k);
    assert forall k: nat :: k in t.closed <==> k in s.closed || k == sock;
  }

  /** All of it holds in every state of every interleaving. */
  lemma {:induction false} InvAlways(maxClients: int, steps: seq<Step>)
    requires maxClients >= 0 && Exec(maxClients, steps).Some?
    ensures Inv(maxClients, Exec(maxClients, steps).value)
  {
    if steps == [] {
    } else {
      var before := steps[..|steps| - 1];
      InvAlways(maxClients, before);
      var s := Exec(maxClients, before).value;
      CounterStep(maxClients, s, steps[|steps| - 1]);
      NumbersStep(maxClients, s, steps[|steps| - 1]);
      SocketsStep(maxClients, s, steps[|steps| - 1]);
    }
  }

  // ------------------------------------------------------------ consequences

  /** The configured maximum is never exceeded, neither by the counter nor by the workers. */
  lemma NeverTooManyClients(maxClients: int, steps: seq<Step>)
    requires maxClients >= 0 && Exec(maxClients, steps).Some?
    ensures var s := Exec(maxClients, steps).value; 0 <= |s.workers| <= s.active <= maxClients
  {
    InvAlways(maxClients, steps);
  }

  /** Ids are distinct and increasing, and the count has no gap. */
  lemma IdsInOrder(maxClients: int, steps: seq<Step>, i: nat, j: nat)
    requires maxClients >= 0 && Exec(maxClients, steps).Some?
    requires i < j < |Exec(maxClients, steps).value.started|
    ensures var s := Exec(maxClients, steps).value; s.started[j] - s.started[i] == j - i
  {
    InvAlways(maxClients, steps);
  }

  /** When the acceptor is between clients and all workers are gone, the counter is zero and
      every socket ever accepted has been closed exactly once. */
  lemma NothingLeaks(maxClients: int, steps: seq<Step>)
    requires maxClients >= 0 && Exec(maxClients, steps).Some?
    requires var s := Exec(maxClients, steps).value;
             (s.acceptor.Polling? || s.acceptor.Waiting? || s.acceptor.Stopped?) && s.workers == map[]
    ensures var s := Exec(maxClients, steps).value;
            && s.active == 0
            && (forall k: nat :: k in s.closed <==> k < s.accepted)
            && (forall i, j :: 0 <= i < j < |s.closed| ==> s.closed[i] != s.closed[j])
  {
    InvAlways(maxClients, steps);
    var s := Exec(maxClients, steps).value;
    assert forall k: nat :: !Held(s, k) && forall id :: !Owned(s, id, k);
  }

  /** A waiting client is turned away exactly when the counter shows the maximum. */
  lemma TurnedAwayIffFull(maxClients: int, steps: seq<Step>)
    requires maxClients >= 0 && Exec(maxClients, steps).Some? && Exec(maxClients, steps).value.acceptor.Holding?
    ensures var s := Exec(maxClients, steps).value;
            && (Next(maxClients, s, RejectFull).Some? <==> |s.workers| == maxClients)
            && (Next(maxClients, s, Admit).Some? <==> |s.workers| < maxClients)
  {
    InvAlways(maxClients, steps);
  }

  // ------------------------------------------------------------ after a signal

  /** The state after more steps from a given state. */
  function ExecFrom(maxClients: int, s: State, steps: seq<Step>): Option<State> {
    if steps == [] then Some(s)
    else match ExecFrom(maxClients, s, steps[..|steps| - 1])
         case None => None
         case Some(t) => Next(maxClients, t, steps[|steps| - 1])
  }

  /** Once the flag is down, however long the loop goes on, it accepts nobody, except the one client it was
      already waiting for; and it never stops with the flag up. */
  lemma {:induction false} NobodyAfterSignal(maxClients: int, s: State, steps: seq<Step>)
    requires !s.running && ExecFrom(maxClients, s, steps).Some?
    ensures var t := ExecFrom(maxClients, s, steps).value;
            && !t.running
            && t.accepted <= s.accepted + (if s.acceptor.Waiting? then 1 else 0)
            && (t.acceptor.Waiting? ==> s.acceptor.Waiting? && t.accepted == s.accepted)
  {
    if steps == [] {
    } else {
      NobodyAfterSignal(maxClients, s, steps[..|steps| - 1]);
    }
  }

  lemma {:induction false} StopsOnlyOnSignal(maxClients: int, steps: seq<Step>)
    requires Exec(maxClients, steps).Some?
    ensures Exec(maxClients, steps).value.acceptor.Stopped? ==> Signal in steps
    ensures !Exec(maxClients, steps).value.running ==> Signal in steps
  {
    if steps == [] {
    } else {
      StopsOnlyOnSignal(maxClients, steps[..|steps| - 1]);
      assert steps == steps[..|steps| - 1] + [steps[|steps| - 1]];
    }
  }
}
