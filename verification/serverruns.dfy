/** Whole runs of the server: the invariants always hold, and shutdown drains the queue and ends every thread. */
module ServerRuns {
  import opened Server

  /** Every event of the run can happen when its turn comes. */
  ghost predicate Legal(s: State, events: seq<Event>)
    decreases |events|
  {
    events != [] ==> Enabled(s, events[0]) && Legal(Apply(s, events[0]), events[1..])
  }

  ghost function After(s: State, events: seq<Event>): State
    requires Legal(s, events)
    decreases |events|
  {
    if events == [] then s else After(Apply(s, events[0]), events[1..])
  }

  lemma {:induction false} InvAfter(s: State, events: seq<Event>)
    requires Inv(s) && Legal(s, events)
    ensures Inv(After(s, events))
    decreases |events|
  {
    if events != [] {
      hide Inv, Enabled, Apply;
      InvKept(s, events[0]);
      InvAfter(Apply(s, events[0]), events[1..]);
    }
  }

  /** In every run: bounded first-in first-out queue, exactly one place per accepted connection, no lost wakeup. */
  lemma Safety(s: State, events: seq<Event>)
    requires Init(s) && Legal(s, events)
    ensures var r := After(s, events);
            && |r.queue| <= r.capacity && r.pushed == r.popped + r.queue
            && (forall c: Conn :: Places(r, c) == if c < r.next then 1 else 0)
            && (AnySleeping(r.workers) ==> !r.closed && |r.queue| <= Pending(r.workers))
            && (forall w | 0 <= w < |r.workers| && r.workers[w].WorkerExited? :: r.closed && r.queue == [])
  {
    InitInv(s);
    InvAfter(s, events);
    CapacityFixed(s, events);
  }

  lemma {:induction false} CapacityFixed(s: State, events: seq<Event>)
    requires Legal(s, events)
    ensures After(s, events).capacity == s.capacity && |After(s, events).workers| == |s.workers|
    decreases |events|
  {
    if events != [] {
      CapacityFixed(Apply(s, events[0]), events[1..]);
    }
  }

  // ---- shutdown ----

  ghost predicate AllExited(s: State) {
    s.accept.AcceptExited? && s.shutdown.ShutdownDone? && forall w | 0 <= w < |s.workers| :: s.workers[w].WorkerExited?
  }

  /** Once every thread has ended, every accepted connection was either served or rejected, and just once. */
  lemma ExitedMeansServed(s: State, c: Conn)
    requires Inv(s) && AllExited(s) && s.workers != []
    ensures s.queue == [] && multiset(s.handled)[c] + multiset(s.rejected)[c] == if c < s.next then 1 else 0
  {
    assert s.workers[0].WorkerExited?;
    NoneHandled(s.workers, c);
    assert Places(s, c) == if c < s.next then 1 else 0;
  }

  /** After a shutdown request some thread can act until all have ended, without relying on spurious wakeups. */
  lemma ShutdownProgress(s: State) returns (e: Event)
    requires Inv(s) && s.shuttingDown && !AllExited(s)
    ensures Enabled(s, e) && !e.WakeSpuriously?
  {
    if s.owner.Some? {
      match s.owner.value
      case AcceptThread =>
        e := TryPush(Everyone(|s.workers|));
      case Worker(w) => e := PopOrWait(w);
      case ShutdownThread => e := CloseQueue;
    } else if s.shutdown.WantClose? {
      e := LockForClose;
    } else if s.shutdown.LeaveState? {
      e := UnlockState;
    } else if !s.accept.AcceptExited? {
      e := match s.accept
        case Checking => CheckFlag
        case Accepting => AcceptFails
        case WantPush(_) => LockForPush
        case _ => Reject;
    } else {
      var w :| 0 <= w < |s.workers| && !s.workers[w].WorkerExited?;
      e := if s.workers[w].Handling? then Serve(w) else LockForPop(w);
    }
  }

  function AcceptWork(pc: AcceptPc): nat {
    match pc
    case AcceptExited => 0
    case Checking => 1
    case Accepting => 2
    case Rejecting(_) => 2
    case InPush(_) => 3
    case WantPush(_) => 4
  }

  function WorkerWork(pc: WorkerPc): nat {
    match pc
    case WorkerExited => 0
    case InPop(_) => 1
    case WantPop => 2
    case Woken => 2
    case Handling(_) => 3
    case Sleeping => 3
  }

  function WorkersWork(ws: seq<WorkerPc>): nat {
    if ws == [] then 0 else WorkerWork(ws[0]) + WorkersWork(ws[1..])
  }

  /** How much is left to do once the queue is closed. */
  function Work(s: State): nat {
    AcceptWork(s.accept) + 3 * |s.queue| + WorkersWork(s.workers) + if s.shutdown.LeaveState? then 1 else 0
  }

  lemma {:induction false} WorkersWorkUpdate(ws: seq<WorkerPc>, w: nat, pc: WorkerPc)
    requires w < |ws|
    ensures WorkersWork(ws[w := pc]) == WorkersWork(ws) - WorkerWork(ws[w]) + WorkerWork(pc)
  {
    assert ws[w := pc][1..] == if w == 0 then ws[1..] else ws[1..][w - 1 := pc];
    if w > 0 {
      WorkersWorkUpdate(ws[1..], w - 1, pc);
    }
  }

  lemma WorkDecreases(s: State, e: Event)
    requires Inv(s) && s.closed && Enabled(s, e)
    ensures Apply(s, e).closed && Work(Apply(s, e)) < Work(s)
  {
    hide MutexOk, FifoOk, Conserved;
    assert forall w | 0 <= w < |s.workers| :: !s.workers[w].Sleeping?;
    if e.LockForPop? || e.PopOrWait? || e.Serve? {
      WorkersWorkUpdate(s.workers, e.w, Apply(s, e).workers[e.w]);
    }
  }

  lemma {:induction false} RunsEnd(s: State, events: seq<Event>)
    requires Inv(s) && s.closed && Legal(s, events)
    ensures After(s, events).closed && |events| + Work(After(s, events)) <= Work(s)
    decreases |events|
  {
    if events != [] {
      hide Inv, Enabled, Apply, Work;
      WorkDecreases(s, events[0]);
      InvKept(s, events[0]);
      RunsEnd(Apply(s, events[0]), events[1..]);
    }
  }

  /**
   * Full drain: once the queue is closed every run is finite, it can always be continued until all threads have ended,
   * and then the queue is empty and each accepted connection was served or rejected exactly once.
   */
  lemma ShutdownDrains(s: State, events: seq<Event>)
    requires Inv(s) && s.closed && s.workers != [] && Legal(s, events)
    ensures |events| <= Work(s)
    ensures var r := After(s, events);
            (exists e :: Enabled(r, e) && !e.WakeSpuriously?)
            || (AllExited(r) && r.queue == [] && forall c: Conn ::
                 multiset(r.handled)[c] + multiset(r.rejected)[c] == if c < r.next then 1 else 0)
  {
    RunsEnd(s, events);
    InvAfter(s, events);
    CapacityFixed(s, events);
    var r := After(s, events);
    if AllExited(r) {
      forall c: Conn ensures multiset(r.handled)[c] + multiset(r.rejected)[c] == if c < r.next then 1 else 0 {
        ExitedMeansServed(r, c);
      }
      ExitedMeansServed(r, 0);
    } else {
      var e := ShutdownProgress(r);
    }
  }
}
