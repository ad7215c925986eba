/** Which connections the server takes and which it turns away. */
module Admission {
  import opened Server
  import opened ServerRuns

  /** The queue cannot take a connection. */
  ghost predicate Shut(s: State) {
    s.closed || |s.queue| == s.capacity
  }

  /** The connection was answered with 503, or is about to be. */
  ghost predicate TurnedAway(s: State, c: Conn) {
    c in s.rejected || s.accept == Rejecting(c)
  }

  /** At some event of the run the accept thread tries to push the connection onto a closed or full queue. */
  ghost predicate PushedWhenShut(s: State, events: seq<Event>, c: Conn)
    requires Legal(s, events)
    decreases |events|
  {
    events != [] &&
    ((events[0].TryPush? && s.accept == InPush(c) && Shut(s)) || PushedWhenShut(Apply(s, events[0]), events[1..], c))
  }

  lemma StepTurnsAway(s: State, e: Event, c: Conn)
    requires FifoOk(s) && Enabled(s, e)
    ensures TurnedAway(Apply(s, e), c) <==>
              TurnedAway(s, c) || (e.TryPush? && s.accept == InPush(c) && Shut(s))
  {
    hide Wake, Everyone, Signals, StateMutexFree;
  }

  lemma {:induction false} RunTurnsAway(s: State, events: seq<Event>, c: Conn)
    requires Inv(s) && Legal(s, events)
    ensures TurnedAway(After(s, events), c) <==> TurnedAway(s, c) || PushedWhenShut(s, events, c)
    decreases |events|
  {
    if events != [] {
      InvKept(s, events[0]);
      StepTurnsAway(s, events[0], c);
      hide Inv, Enabled, Apply, Shut, TurnedAway;
      RunTurnsAway(Apply(s, events[0]), events[1..], c);
    }
  }

  /**
   * In every run a connection is turned away if and only if the accept thread tried to push it while the queue was
   * closed or full.
   */
  lemma TurnedAwayExactly(s: State, events: seq<Event>, c: Conn)
    requires Init(s) && Legal(s, events)
    ensures TurnedAway(After(s, events), c) <==> PushedWhenShut(s, events, c)
  {
    InitInv(s);
    RunTurnsAway(s, events, c);
  }

  /** The state at some point of the run is closed or full. */
  ghost predicate EverShut(s: State, events: seq<Event>)
    requires Legal(s, events)
    decreases |events|
  {
    Shut(s) || (events != [] && EverShut(Apply(s, events[0]), events[1..]))
  }

  lemma {:induction false} ShutSometime(s: State, events: seq<Event>, c: Conn)
    requires Legal(s, events) && PushedWhenShut(s, events, c)
    ensures EverShut(s, events)
    decreases |events|
  {
    hide Apply, Enabled;
    if !(events[0].TryPush? && s.accept == InPush(c) && Shut(s)) {
      ShutSometime(Apply(s, events[0]), events[1..], c);
    }
  }

  /** A run in which the queue is never closed and never full turns nobody away. */
  lemma OpenTakesAll(s: State, events: seq<Event>)
    requires Init(s) && Legal(s, events) && !EverShut(s, events)
    ensures After(s, events).rejected == []
  {
    var r := After(s, events);
    if r.rejected != [] {
      var c := r.rejected[0];
      TurnedAwayExactly(s, events, c);
      ShutSometime(s, events, c);
    }
  }

  /**
   * The push of the machine does what `TaskQueues.TaskQueue.TryPush` promises: an open queue with room takes the
   * connection at its end, and any other is left as it is.
   */
  lemma PushResult(s: State, wake: set<nat>)
    requires Enabled(s, TryPush(wake)) && FifoOk(s)
    ensures var s' := Apply(s, TryPush(wake));
            var pushed := !s.closed && |s.queue| < s.capacity;
            && s'.queue == (if pushed then s.queue + [s.accept.conn] else s.queue)
            && s'.accept == (if pushed then Checking else Rejecting(s.accept.conn))
            && s'.closed == s.closed && s'.capacity == s.capacity
  {
  }

  /** The pop does what `TaskQueues.TaskQueue.Take` promises; at an empty queue the worker waits until it is closed. */
  lemma PopResult(s: State, w: nat)
    requires Enabled(s, PopOrWait(w))
    ensures var s' := Apply(s, PopOrWait(w));
            && s'.queue == (if s.queue == [] then [] else s.queue[1..])
            && s'.workers[w] == (if s.queue != [] then Handling(s.queue[0])
                                 else if s.closed then WorkerExited else Sleeping)
            && s'.closed == s.closed
  {
  }
}
