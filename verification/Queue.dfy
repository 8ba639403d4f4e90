/** The job queue between the watcher and the task runner. */
module Queues {
  import opened Words

  class TsQueue<T> {
    var items: seq<T>

    constructor ()
      ensures items == []
    {
      items := [];
    }

    method Push(value: T)
      modifies this
      ensures items == old(items) + [value]
    {
      items := items + [value];
    }

    /** `None` when the wait ended with nothing in the queue. */
    method WaitAndPop() returns (r: Option<T>)
      modifies this
      ensures r == if old(items) == [] then None else Some(old(items)[0])
      ensures items == if old(items) == [] then [] else old(items)[1..]
    {
      if items == [] {
        return None;
      }
      r := Some(items[0]);
      items := items[1..];
    }
  }

  // ---- delivery under any interleaving ----

  /** The queue, and the jobs the runner has taken from it so far. */
  datatype Delivery<T> = Delivery(queue: seq<T>, run: seq<T>)

  datatype QueueStep<T> = Produce(job: T) | Consume

  function QueueNext<T>(d: Delivery<T>, s: QueueStep<T>): Delivery<T> {
    match s
    case Produce(job) => d.(queue := d.queue + [job])
    case Consume =>
      if d.queue == [] then d else Delivery(d.queue[1..], d.run + [d.queue[0]])
  }

  function Deliver<T>(d: Delivery<T>, steps: seq<QueueStep<T>>): Delivery<T> {
    if steps == [] then d
    else QueueNext(Deliver(d, steps[..|steps| - 1]), steps[|steps| - 1])
  }

  function Produced<T>(steps: seq<QueueStep<T>>): seq<T> {
    if steps == [] then []
    else Produced(steps[..|steps| - 1]) + match steps[|steps| - 1] case Produce(job) => [job] case Consume => []
  }

  /** Jobs run, followed by jobs waiting, are the jobs produced, in order. */
  lemma {:induction false} DeliveryInOrder<T>(steps: seq<QueueStep<T>>)
    ensures var d := Deliver(Delivery([], []), steps);
            d.run + d.queue == Produced(steps)
  {
    if steps != [] {
      var before := steps[..|steps| - 1];
      DeliveryInOrder(before);
      var d := Deliver(Delivery([], []), before);
      match steps[|steps| - 1]
      case Produce(job) =>
        assert d.run + (d.queue + [job]) == (d.run + d.queue) + [job];
      case Consume =>
        if d.queue != [] {
          assert (d.run + [d.queue[0]]) + d.queue[1..] == d.run + d.queue;
        }
    }
  }
}
