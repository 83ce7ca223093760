/** What both concurrent queues show to the outside: calls, effects and answers. */
module FifoTrace {
  import opened Options

  /** Payload pointers are addresses; a queue never looks behind them. */
  type Item = int

  datatype Result = Enqueued(item: Item, ok: bool) | Dequeued(found: Option<Item>) | Emptiness(empty: bool)

  /** Linked and Unlinked are the two steps that change the abstract queue. */
  datatype Event =
    | Silent
    | Taken(node: int)
    | Linked(node: int, item: Item)
    | Unlinked(item: Item)
    | Returned(result: Result)
    | Fault

  /** The events of a run, each with the thread it belongs to. */
  type Trace = seq<(nat, Event)>

  function EnteredBy(e: Event): seq<Item> {
    if e.Linked? then [e.item] else []
  }

  function LeftBy(e: Event): seq<Item> {
    if e.Unlinked? then [e.item] else []
  }

  function Accepted(e: Event): seq<Item> {
    match e
    case Returned(Enqueued(item, ok)) => if ok then [item] else []
    case _ => []
  }

  function Delivered(e: Event): seq<Item> {
    match e
    case Returned(Dequeued(Some(item))) => [item]
    case _ => []
  }

  /** The items that entered the queue during a trace, in the order they did. */
  function Entered(trace: Trace): seq<Item> {
    if trace == [] then [] else EnteredBy(trace[0].1) + Entered(trace[1..])
  }

  /** The items that left the queue during a trace, in the order they did. */
  function Left(trace: Trace): seq<Item> {
    if trace == [] then [] else LeftBy(trace[0].1) + Left(trace[1..])
  }

  /** The items whose Enqueue returned true. */
  function AllAccepted(trace: Trace): seq<Item> {
    if trace == [] then [] else Accepted(trace[0].1) + AllAccepted(trace[1..])
  }

  /** The items that a Dequeue returned. */
  function AllDelivered(trace: Trace): seq<Item> {
    if trace == [] then [] else Delivered(trace[0].1) + AllDelivered(trace[1..])
  }

  /** The events of one thread. */
  function EventsOf(trace: Trace, t: nat): Trace {
    if trace == [] then []
    else (if trace[0].0 == t then [trace[0]] else []) + EventsOf(trace[1..], t)
  }

  ghost predicate NoFault(trace: Trace) {
    forall k :: 0 <= k < |trace| ==> trace[k].1 != Fault
  }

  /** Two consecutive stretches of a balanced account are balanced. */
  lemma Telescope(a: seq<Item>, in1: seq<Item>, out1: seq<Item>, b: seq<Item>, in2: seq<Item>, out2: seq<Item>, c: seq<Item>)
    requires a + in1 == out1 + b && b + in2 == out2 + c
    ensures a + (in1 + in2) == (out1 + out2) + c
  {
    calc {
      a + (in1 + in2);
    ==
      (out1 + b) + in2;
    ==
      out1 + (b + in2);
    ==
      (out1 + out2) + c;
    }
  }

  lemma TraceStep(t: nat, e: Event, rest: Trace)
    ensures Entered([(t, e)] + rest) == EnteredBy(e) + Entered(rest)
    ensures Left([(t, e)] + rest) == LeftBy(e) + Left(rest)
    ensures e != Fault && NoFault(rest) ==> NoFault([(t, e)] + rest)
  {
    assert ([(t, e)] + rest)[1..] == rest;
  }

  lemma EventsStep(u: nat, e: Event, rest: Trace, t: nat)
    ensures
      var mine := EventsOf([(u, e)] + rest, t);
      var r := EventsOf(rest, t);
      if u == t then
        && Entered(mine) == EnteredBy(e) + Entered(r) && Left(mine) == LeftBy(e) + Left(r)
        && AllAccepted(mine) == Accepted(e) + AllAccepted(r) && AllDelivered(mine) == Delivered(e) + AllDelivered(r)
      else mine == r
  {
    assert ([(u, e)] + rest)[1..] == rest;
    assert ([(u, e)] + EventsOf(rest, t))[1..] == EventsOf(rest, t);
  }
}
