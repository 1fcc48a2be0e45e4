/** The specification both ring buffers refine: an unbounded first-in first-out queue. */
module Fifo {
  import opened Wrappers

  /** A slot's data field. `Torn` is a value that is uninitialised or half overwritten. */
  datatype Cell<T> = Torn | Whole(value: T)

  /** Each item, stored whole. */
  function Wholes<T>(items: seq<T>): seq<Cell<T>> {
    if items == [] then [] else [Whole(items[0])] + Wholes(items[1..])
  }

  datatype FifoAction<T> = Stutter | Enqueue(item: T) | Dequeue(got: Cell<T>)

  /** The specification: a queue that enqueues at one end and yields whole items at the other;
      `None` for an answer it would not give. */
  ghost function FifoStep<T>(q: seq<T>, action: FifoAction<T>): Option<seq<T>> {
    match action
    case Stutter => Some(q)
    case Enqueue(item) => Some(q + [item])
    case Dequeue(got) => if q != [] && got == Whole(q[0]) then Some(q[1..]) else None
  }

  /** The FIFO's contents after the actions, if it allows every one of them in turn. */
  ghost function FifoRun<T>(q: seq<T>, actions: seq<FifoAction<T>>): Option<seq<T>>
    decreases |actions|
  {
    if actions == [] then Some(q)
    else match FifoStep(q, actions[0])
      case None => None
      case Some(q') => FifoRun(q', actions[1..])
  }
}
