/** The server's threads around the task queue: accept, workers, shutdown, with a mutex and a condition variable. */
module Server {
  import opened Wrappers

  /** Connections are numbered in the order they are accepted. */
  type Conn = nat

  datatype AcceptPc =
    | Checking
    | Accepting
    | WantPush(conn: Conn)
    | InPush(conn: Conn)
    | Rejecting(conn: Conn)
    | AcceptExited

  /** `woken` marks a worker that was signalled and has not rechecked the queue yet. */
  datatype WorkerPc = WantPop | InPop(woken: bool) | Sleeping | Woken | Handling(conn: Conn) | WorkerExited

  /** The thread that requests shutdown; from `WantClose` to `LeaveState` it holds the state mutex. */
  datatype ShutdownPc = NotRequested | WantClose | InClose | LeaveState | ShutdownDone

  datatype Thread = AcceptThread | Worker(w: nat) | ShutdownThread

  datatype State = State(
    capacity: nat,
    accept: AcceptPc,
    workers: seq<WorkerPc>,
    shutdown: ShutdownPc,
    owner: Option<Thread>,
    queue: seq<Conn>,
    closed: bool,
    shuttingDown: bool,
    listening: bool,
    next: Conn,
    pushed: seq<Conn>,
    popped: seq<Conn>,
    handled: seq<Conn>,
    rejected: seq<Conn>)

  datatype Event =
    | CheckFlag
    | AcceptOk
    | AcceptFails
    | LockForPush
    | TryPush(wake: set<nat>)
    | Reject
    | LockForPop(w: nat)
    | PopOrWait(w: nat)
    | Serve(w: nat)
    | WakeSpuriously(w: nat)
    | SetFlag
    | LockForClose
    | CloseQueue
    | UnlockState

  ghost predicate Init(s: State) {
    && s.capacity > 0 && s.accept == Checking && (forall w | 0 <= w < |s.workers| :: s.workers[w] == WantPop)
    && s.shutdown == NotRequested && s.owner.None? && s.queue == [] && !s.closed && !s.shuttingDown && s.listening
    && s.next == 0 && s.pushed == s.popped == s.handled == s.rejected == []
  }

  ghost predicate StateMutexFree(s: State) {
    s.shutdown.NotRequested? || s.shutdown.ShutdownDone?
  }

  /** The workers with those in `wake` signalled. */
  ghost function Wake(ws: seq<WorkerPc>, wake: set<nat>): seq<WorkerPc> {
    seq(|ws|, w requires 0 <= w < |ws| => if w in wake && ws[w].Sleeping? then Woken else ws[w])
  }

  ghost function Everyone(n: nat): (all: set<nat>)
    ensures forall w: nat :: w in all <==> w < n
  {
    if n == 0 then {} else Everyone(n - 1) + {n - 1}
  }

  ghost predicate AnySleeping(ws: seq<WorkerPc>) {
    exists w :: 0 <= w < |ws| && ws[w].Sleeping?
  }

  /** A signal wakes at least one sleeper if there is any. */
  ghost predicate Signals(ws: seq<WorkerPc>, wake: set<nat>) {
    AnySleeping(ws) ==> exists w :: w in wake && w < |ws| && ws[w].Sleeping?
  }

  ghost function SetWorker(s: State, w: nat, pc: WorkerPc): State
    requires w < |s.workers|
  {
    s.(workers := s.workers[w := pc])
  }

  /** When an event can happen. */
  ghost predicate Enabled(s: State, e: Event) {
    match e
    case CheckFlag => s.accept.Checking? && StateMutexFree(s)
    case AcceptOk => s.accept.Accepting? && s.listening
    case AcceptFails => s.accept.Accepting?
    case LockForPush => s.accept.WantPush? && s.owner.None?
    case TryPush(wake) => s.accept.InPush? && (!s.closed && |s.queue| < s.capacity ==> Signals(s.workers, wake))
    case Reject => s.accept.Rejecting?
    case LockForPop(w) => w < |s.workers| && (s.workers[w].WantPop? || s.workers[w].Woken?) && s.owner.None?
    case PopOrWait(w) => w < |s.workers| && s.workers[w].InPop?
    case Serve(w) => w < |s.workers| && s.workers[w].Handling?
    case WakeSpuriously(w) => w < |s.workers| && s.workers[w].Sleeping?
    case SetFlag => s.shutdown.NotRequested?
    case LockForClose => s.shutdown.WantClose? && s.owner.None?
    case CloseQueue => s.shutdown.InClose?
    case UnlockState => s.shutdown.LeaveState?
  }

  ghost function Apply(s: State, e: Event): State
    requires Enabled(s, e)
  {
    match e
    case CheckFlag => s.(accept := if s.shuttingDown then AcceptExited else Accepting)
    case AcceptOk => s.(accept := WantPush(s.next), next := s.next + 1)
    case AcceptFails => s.(accept := Checking)
    case LockForPush => s.(accept := InPush(s.accept.conn), owner := Some(AcceptThread))
    case TryPush(wake) =>
      if !s.closed && |s.queue| < s.capacity then
        s.(queue := s.queue + [s.accept.conn], pushed := s.pushed + [s.accept.conn], workers := Wake(s.workers, wake),
           accept := Checking, owner := None)
      else s.(accept := Rejecting(s.accept.conn), owner := None)
    case Reject => s.(accept := Checking, rejected := s.rejected + [s.accept.conn])
    case LockForPop(w) => SetWorker(s, w, InPop(s.workers[w].Woken?)).(owner := Some(Worker(w)))
    case PopOrWait(w) =>
      if s.queue == [] && !s.closed then SetWorker(s, w, Sleeping).(owner := None)
      else if s.queue == [] then SetWorker(s, w, WorkerExited).(owner := None)
      else SetWorker(s, w, Handling(s.queue[0])).(queue := s.queue[1..], popped := s.popped + [s.queue[0]],
        owner := None)
    case Serve(w) => SetWorker(s, w, WantPop).(handled := s.handled + [s.workers[w].conn])
    case WakeSpuriously(w) => SetWorker(s, w, Woken)
    case SetFlag => s.(shutdown := WantClose, shuttingDown := true, listening := false)
    case LockForClose => s.(shutdown := InClose, owner := Some(ShutdownThread))
    case CloseQueue =>
      s.(shutdown := LeaveState, closed := true, owner := None,
         workers := Wake(s.workers, Everyone(|s.workers|)))
    case UnlockState => s.(shutdown := ShutdownDone)
  }

  // ---- invariants ----

  /** The queue mutex is held exactly by the thread inside its critical section. */
  ghost predicate MutexOk(s: State) {
    && (s.owner == Some(AcceptThread) <==> s.accept.InPush?)
    && (s.owner == Some(ShutdownThread) <==> s.shutdown.InClose?)
    && (forall w | 0 <= w < |s.workers| :: s.owner == Some(Worker(w)) <==> s.workers[w].InPop?)
    && (s.owner.Some? && s.owner.value.Worker? ==> s.owner.value.w < |s.workers|)
  }

  /** The queue is bounded and first-in first-out. */
  ghost predicate FifoOk(s: State) {
    s.capacity > 0 && |s.queue| <= s.capacity && s.pushed == s.popped + s.queue
  }

  ghost predicate Unchecked(pc: WorkerPc) {
    pc.Woken? || (pc.InPop? && pc.woken)
  }

  /** Signalled workers that have not rechecked the queue. */
  ghost function Pending(ws: seq<WorkerPc>): nat {
    if ws == [] then 0 else (if Unchecked(ws[0]) then 1 else 0) + Pending(ws[1..])
  }

  /** No lost wakeup: while a worker sleeps, every queued task has a signalled worker on its way. */
  ghost predicate WakeupsOk(s: State) {
    AnySleeping(s.workers) ==> !s.closed && |s.queue| <= Pending(s.workers)
  }

  /** Workers leave only from a closed, empty queue, which stays closed and empty. */
  ghost predicate ExitOk(s: State) {
    && (s.closed <==> s.shutdown.LeaveState? || s.shutdown.ShutdownDone?)
    && (s.shuttingDown <==> !s.shutdown.NotRequested?) && (s.listening <==> s.shutdown.NotRequested?)
    && (s.accept.AcceptExited? ==> s.shuttingDown)
    && forall w | 0 <= w < |s.workers| && s.workers[w].WorkerExited? :: s.closed && s.queue == []
  }

  ghost predicate Inv(s: State) {
    MutexOk(s) && FifoOk(s) && WakeupsOk(s) && ExitOk(s) && Conserved(s)
  }

  // ---- where connections are ----

  ghost function InWorkers(ws: seq<WorkerPc>, c: Conn): nat {
    if ws == [] then 0 else (if ws[0] == Handling(c) then 1 else 0) + InWorkers(ws[1..], c)
  }

  ghost function InAccept(pc: AcceptPc, c: Conn): nat {
    if (pc.WantPush? || pc.InPush? || pc.Rejecting?) && pc.conn == c then 1 else 0
  }

  /** In how many places connection `c` is: queued, in a worker, with the accept thread, handled, rejected. */
  ghost function Places(s: State, c: Conn): nat {
    multiset(s.queue)[c] + InWorkers(s.workers, c) + InAccept(s.accept, c) + multiset(s.handled)[c] +
      multiset(s.rejected)[c]
  }

  /** Every accepted connection is in exactly one place, and no other connection is anywhere. */
  ghost predicate Conserved(s: State) {
    forall c: Conn :: Places(s, c) == if c < s.next then 1 else 0
  }

  lemma {:induction false} PendingUpdate(ws: seq<WorkerPc>, w: nat, pc: WorkerPc)
    requires w < |ws|
    ensures Pending(ws[w := pc]) == Pending(ws) - (if Unchecked(ws[w]) then 1 else 0) + if Unchecked(pc) then 1 else 0
  {
    assert ws[w := pc][1..] == if w == 0 then ws[1..] else ws[1..][w - 1 := pc];
    if w > 0 {
      PendingUpdate(ws[1..], w - 1, pc);
    }
  }

  lemma {:induction false} PendingWake(ws: seq<WorkerPc>, wake: set<nat>)
    ensures Pending(Wake(ws, wake)) >= Pending(ws)
    ensures (exists w :: w in wake && w < |ws| && ws[w].Sleeping?) ==> Pending(Wake(ws, wake)) > Pending(ws)
  {
    if ws != [] {
      var n := |ws| - 1;
      PendingWake(ws[..n], wake);
      assert Wake(ws, wake)[..n] == Wake(ws[..n], wake);
      PendingSnoc(ws);
      PendingSnoc(Wake(ws, wake));
      if w :| w in wake && w < |ws| && ws[w].Sleeping? {
        assert w < n ==> ws[..n][w].Sleeping?;
      }
    }
  }

  lemma {:induction false} PendingSnoc(ws: seq<WorkerPc>)
    requires ws != []
    ensures Pending(ws) == Pending(ws[..|ws| - 1]) + if Unchecked(ws[|ws| - 1]) then 1 else 0
  {
    if |ws| > 1 {
      PendingSnoc(ws[1..]);
      assert ws[1..][..|ws| - 2] == ws[..|ws| - 1][1..];
    }
  }

  lemma {:induction false} InWorkersUpdate(ws: seq<WorkerPc>, w: nat, pc: WorkerPc, c: Conn)
    requires w < |ws|
    ensures InWorkers(ws[w := pc], c) == InWorkers(ws, c) - (if ws[w] == Handling(c) then 1 else 0) + if pc ==
              Handling(c) then 1 else 0
  {
    assert ws[w := pc][1..] == if w == 0 then ws[1..] else ws[1..][w - 1 := pc];
    if w > 0 {
      InWorkersUpdate(ws[1..], w - 1, pc, c);
    }
  }

  lemma {:induction false} InWorkersWake(ws: seq<WorkerPc>, wake: set<nat>, c: Conn)
    ensures InWorkers(Wake(ws, wake), c) == InWorkers(ws, c)
    decreases |ws|
  {
    if ws != [] {
      var n := |ws| - 1;
      InWorkersWake(ws[..n], wake, c);
      assert Wake(ws, wake)[..n] == Wake(ws[..n], wake);
      InWorkersSnoc(ws, c);
      InWorkersSnoc(Wake(ws, wake), c);
    }
  }

  lemma {:induction false} InWorkersSnoc(ws: seq<WorkerPc>, c: Conn)
    requires ws != []
    ensures InWorkers(ws, c) == InWorkers(ws[..|ws| - 1], c) + if ws[|ws| - 1] == Handling(c) then 1 else 0
  {
    if |ws| > 1 {
      InWorkersSnoc(ws[1..], c);
      assert ws[1..][..|ws| - 2] == ws[..|ws| - 1][1..];
    }
  }

  // ---- every step keeps the invariants ----

  lemma InitInv(s: State)
    requires Init(s)
    ensures Inv(s)
  {
    forall c: Conn ensures Places(s, c) == 0 {
      NoneHandled(s.workers, c);
    }
  }

  lemma {:induction false} NoneHandled(ws: seq<WorkerPc>, c: Conn)
    requires forall w | 0 <= w < |ws| :: !ws[w].Handling?
    ensures InWorkers(ws, c) == 0
  {
    if ws != [] {
      NoneHandled(ws[1..], c);
    }
  }

  /** Signals change nobody's place in a critical section. */
  lemma WakeKeepsInside(ws: seq<WorkerPc>, wake: set<nat>)
    ensures |Wake(ws, wake)| == |ws|
    ensures forall w | 0 <= w < |ws| :: Wake(ws, wake)[w].InPop? <==> ws[w].InPop?
  {
  }

  predicate ByWorker(e: Event) {
    e.LockForPop? || e.PopOrWait? || e.Serve? || e.WakeSpuriously?
  }

  lemma WorkerKeepsMutex(s: State, e: Event)
    requires MutexOk(s) && Enabled(s, e) && ByWorker(e)
    ensures MutexOk(Apply(s, e))
  {
    hide Wake, Everyone, Signals, AnySleeping, StateMutexFree;
    assert forall w | 0 <= w < |s.workers| && w != e.w :: Apply(s, e).workers[w] == s.workers[w];
  }

  lemma MutexKept(s: State, e: Event)
    requires MutexOk(s) && Enabled(s, e)
    ensures MutexOk(Apply(s, e))
  {
    hide Wake, Everyone, Signals, AnySleeping, StateMutexFree;
    if ByWorker(e) {
      WorkerKeepsMutex(s, e);
    } else if e.TryPush? {
      WakeKeepsInside(s.workers, e.wake);
    } else if e.CloseQueue? {
      WakeKeepsInside(s.workers, Everyone(|s.workers|));
    }
  }

  lemma FifoKept(s: State, e: Event)
    requires FifoOk(s) && Enabled(s, e)
    ensures FifoOk(Apply(s, e))
  {
    if s.queue != [] {
      assert s.popped + s.queue == s.popped + [s.queue[0]] + s.queue[1..];
    }
    if e.TryPush? {
      assert s.popped + (s.queue + [s.accept.conn]) == s.popped + s.queue + [s.accept.conn];
    }
  }

  lemma ExitKept(s: State, e: Event)
    requires ExitOk(s) && Enabled(s, e)
    ensures ExitOk(Apply(s, e))
  {
  }

  lemma PushWakes(s: State, wake: set<nat>)
    requires WakeupsOk(s) && Enabled(s, TryPush(wake))
    ensures WakeupsOk(Apply(s, TryPush(wake)))
  {
    PendingWake(s.workers, wake);
  }

  lemma NobodySleeps(ws: seq<WorkerPc>)
    ensures !AnySleeping(Wake(ws, Everyone(|ws|)))
  {
  }

  /** A worker that goes to sleep has seen the queue empty; one that takes a task has used up its own signal. */
  lemma WorkerKeepsWakeups(s: State, e: Event)
    requires WakeupsOk(s) && MutexOk(s) && Enabled(s, e) && ByWorker(e)
    ensures WakeupsOk(Apply(s, e))
  {
    hide Wake, Everyone, Signals, Pending, StateMutexFree;
    var s' := Apply(s, e);
    PendingUpdate(s.workers, e.w, s'.workers[e.w]);
    assert s'.workers == s.workers[e.w := s'.workers[e.w]];
    if AnySleeping(s'.workers) && !e.PopOrWait? {
      var w :| 0 <= w < |s'.workers| && s'.workers[w].Sleeping?;
      assert s.workers[w].Sleeping?;
    }
  }

  lemma WakeupsKept(s: State, e: Event)
    requires WakeupsOk(s) && MutexOk(s) && Enabled(s, e)
    ensures WakeupsOk(Apply(s, e))
  {
    hide Wake, Everyone, Signals, Pending, AnySleeping, StateMutexFree, MutexOk;
    if ByWorker(e) {
      WorkerKeepsWakeups(s, e);
    } else if e.TryPush? {
      PushWakes(s, e.wake);
    } else if e.CloseQueue? {
      NobodySleeps(s.workers);
    }
  }

  lemma ConservedKept(s: State, e: Event)
    requires Conserved(s) && Enabled(s, e)
    ensures Conserved(Apply(s, e))
  {
    var s' := Apply(s, e);
    forall c: Conn ensures Places(s', c) == if c < s'.next then 1 else 0 {
      assert Places(s, c) == if c < s.next then 1 else 0;
      PlacesKept(s, e, c);
    }
  }

  lemma WorkerMoves(s: State, e: Event, c: Conn)
    requires (e.LockForPop? || e.Serve? || e.WakeSpuriously?) && Enabled(s, e)
    ensures Places(Apply(s, e), c) == Places(s, c)
  {
    hide InAccept, Wake, Everyone, Signals, AnySleeping;
    InWorkersUpdate(s.workers, e.w, Apply(s, e).workers[e.w], c);
    hide InWorkers;
  }

  /** A step moves connections between places; only accepting creates one. */
  lemma PlacesKept(s: State, e: Event, c: Conn)
    requires Enabled(s, e)
    ensures Places(Apply(s, e), c) == Places(s, c) + if e.AcceptOk? && c == s.next then 1 else 0
  {
    hide Wake, Everyone, Signals, AnySleeping, InWorkers, StateMutexFree;
    if e.PopOrWait? {
      PopMoves(s, e.w, c);
    } else if e.TryPush? || e.CloseQueue? {
      WakeMoves(s, e, c);
    } else if e.LockForPop? || e.Serve? || e.WakeSpuriously? {
      WorkerMoves(s, e, c);
    }
  }

  lemma WakeMoves(s: State, e: Event, c: Conn)
    requires (e.TryPush? || e.CloseQueue?) && Enabled(s, e)
    ensures Places(Apply(s, e), c) == Places(s, c)
  {
    hide InWorkers, InAccept, Wake, Everyone, Signals, AnySleeping;
    if e.CloseQueue? {
      InWorkersWake(s.workers, Everyone(|s.workers|), c);
    } else {
      PushMoves(s, e.wake, c);
    }
  }

  lemma PushMoves(s: State, wake: set<nat>, c: Conn)
    requires Enabled(s, TryPush(wake))
    ensures Places(Apply(s, TryPush(wake)), c) == Places(s, c)
  {
    hide InWorkers, Wake, Everyone, Signals, AnySleeping;
    if !s.closed && |s.queue| < s.capacity {
      InWorkersWake(s.workers, wake, c);
      Queued(s.queue, s.accept.conn, c);
    }
  }

  lemma Queued(queue: seq<Conn>, conn: Conn, c: Conn)
    ensures multiset(queue + [conn])[c] == multiset(queue)[c] + if conn == c then 1 else 0
  {
  }

  lemma Dequeued(queue: seq<Conn>, c: Conn)
    requires queue != []
    ensures multiset(queue)[c] == multiset(queue[1..])[c] + if queue[0] == c then 1 else 0
  {
    assert queue == [queue[0]] + queue[1..];
  }

  lemma PopMoves(s: State, w: nat, c: Conn)
    requires Enabled(s, PopOrWait(w))
    ensures Places(Apply(s, PopOrWait(w)), c) == Places(s, c)
  {
    InWorkersUpdate(s.workers, w, Apply(s, PopOrWait(w)).workers[w], c);
    hide InWorkers, Signals, AnySleeping;
    if s.queue != [] {
      Dequeued(s.queue, c);
    }
  }

  lemma InvKept(s: State, e: Event)
    requires Inv(s) && Enabled(s, e)
    ensures Inv(Apply(s, e))
  {
    MutexKept(s, e);
    FifoKept(s, e);
    ExitKept(s, e);
    WakeupsKept(s, e);
    ConservedKept(s, e);
  }
}
