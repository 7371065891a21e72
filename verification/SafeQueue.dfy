/** The bounded blocking queue of SafeQueue.hpp. */
module SafeQueues {

  const QUEUE_MAX: nat := 10000

  /** What `enqueue` leaves behind: a full queue silently drops the element. */
  function Pushed<T>(q: seq<T>, t: T): seq<T> {
    if |q| >= QUEUE_MAX then q else q + [t]
  }

  /** `please_stop` is two steps: raise the thread's flag, then enqueue a null token. */
  datatype StopPhase = NotAsked | FlagRaised | TokenSent

  /** Every method is one atomic step: the source holds the queue's mutex throughout. */
  class SafeQueue<T> {
    var q: seq<T>

    constructor ()
      ensures q == []
    {
      q := [];
    }

    method Enqueue(t: T)
      modifies this
      ensures q == if |old(q)| < 10000 then old(q) + [t] else old(q)
    {
      if q != [] {
        if |q| >= QUEUE_MAX {
          return;
        }
      }
      q := q + [t];
    }

    /** The caller blocks while the queue is empty, so the step exists only when it is not. */
    method Dequeue() returns (val: T)
      requires q != []
      modifies this
      ensures old(q) == [val] + q
    {
      val := q[0];
      q := q[1..];
    }
  }
}
