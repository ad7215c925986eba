/** The bounded task queue: a ring buffer that refines a first-in first-out sequence. */
module TaskQueues {
  import opened Wrappers

  /** A connection waiting to be served. */
  type Task = int

  /** The buffer position `i` places after `head`, wrapping at the end. */
  function Slot(head: nat, i: nat, capacity: nat): nat
    requires head < capacity && i <= capacity
  {
    if head + i < capacity then head + i else head + i - capacity
  }

  lemma Wrap(i: nat, capacity: nat)
    requires i < capacity
    ensures (i + 1) % capacity == if i + 1 == capacity then 0 else i + 1
  {
  }

  class TaskQueue {
    const items: array<Task>
    const capacity: nat
    var head: nat
    var tail: nat
    var count: nat
    var closed: bool

    ghost predicate Valid()
      reads this, items
    {
      capacity > 0 && items.Length == capacity && head < capacity && count <= capacity &&
        tail == Slot(head, count, capacity)
    }

    /** The queued tasks from the oldest to the newest. */
    ghost function Contents(): seq<Task>
      requires Valid()
      reads this, items
    {
      seq(count, i requires 0 <= i < count && Valid() reads this, items => items[Slot(head, i, capacity)])
    }

    /** Server configuration requires a positive capacity. */
    constructor (capacity: nat)
      requires capacity > 0
      ensures Valid() && Contents() == [] && !closed && this.capacity == capacity && fresh(items)
    {
      items := new Task[capacity](_ => 0);
      this.capacity := capacity;
      head, tail, count, closed := 0, 0, 0, false;
    }

    /** Adds at the back unless the queue is closed or full; never waits. */
    method TryPush(task: Task) returns (pushed: bool)
      requires Valid()
      modifies this`tail, this`count, items
      ensures Valid() && pushed == (!closed && old(|Contents()|) < capacity)
      ensures Contents() == if pushed then old(Contents()) + [task] else old(Contents())
    {
      pushed := false;
      if !closed && count < capacity {
        Wrap(tail, capacity);
        items[tail] := task;
        tail := (tail + 1) % capacity;
        count := count + 1;
        pushed := true;
      }
    }

    /** Takes from the front; None when empty. */
    method Take() returns (task: Option<Task>)
      requires Valid()
      modifies this`head, this`count
      ensures Valid()
      ensures task == (if old(Contents()) == [] then None else Some(old(Contents())[0]))
      ensures Contents() == if old(Contents()) == [] then [] else old(Contents())[1..]
    {
      if count == 0 {
        return None;
      }
      ghost var before := Contents();
      task := Some(items[head]);
      Wrap(head, capacity);
      head := (head + 1) % capacity;
      count := count - 1;
      assert Contents() == before[1..];
    }

    /** Closing keeps what is queued; it can still be taken. */
    method Close()
      requires Valid()
      modifies this`closed
      ensures Valid() && closed && Contents() == old(Contents())
    {
      closed := true;
    }
  }
}
