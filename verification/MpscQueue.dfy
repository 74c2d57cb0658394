/**
 What the single-consumer FIFO is to its clients: messages in the order of the tail exchanges, each linked in a
 later step, and a consumer that finds the first message exactly when it has been linked.  `MpscFifo` refines this
 queue step by step; the channel and the work queue are built on it.
 */
module MpscQueue {
  import opened Common

  datatype Queue = Queue(
    messages: seq<Value>,
    pushers: seq<Tid>,       // who pushed each message
    linked: seq<bool>,
    taken: nat)              // the consumer has taken messages[..taken]

  const EMPTY := Queue([], [], [], 0)

  ghost predicate Valid(q: Queue) {
    && |q.messages| == |q.pushers| == |q.linked| && q.taken <= |q.messages|
    && forall i :: 0 <= i < q.taken ==> q.linked[i]
  }

  /** The consumer finds a message. */
  ghost predicate FirstLinked(q: Queue) {
    q.taken < |q.linked| && q.linked[q.taken]
  }

  ghost predicate Exchange(q: Queue, q': Queue, t: Tid, v: Value) {
    q' == q.(messages := q.messages + [v], pushers := q.pushers + [t], linked := q.linked + [false])
  }

  ghost predicate Link(q: Queue, q': Queue, t: Tid, i: nat) {
    i < |q.linked| && i < |q.pushers| && q.pushers[i] == t && q' == q.(linked := q.linked[i := true])
  }

  ghost predicate Take(q: Queue, q': Queue, v: Value) {
    FirstLinked(q) && q.taken < |q.messages| && v == q.messages[q.taken] && q' == q.(taken := q.taken + 1)
  }

  ghost predicate Next(q: Queue, q': Queue) {
    || q' == q
    || (exists t, v :: Exchange(q, q', t, v))
    || (exists t, i :: Link(q, q', t, i))
    || (exists v :: Take(q, q', v))
  }
}
