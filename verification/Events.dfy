/** EventBase: the events of one buffer, per stream in the order in which they were recorded. */
module Events {
  import opened Integers

  type EventMap = map<nat, seq<int>>

  /** IsEventNotUsed, negated */
  predicate Pending(events: EventMap) {
    exists s :: s in events
  }

  /** Lists are dropped as soon as they are empty. */
  ghost predicate NoEmptyList(events: EventMap) {
    forall s :: s in events ==> events[s] != []
  }

  function Record(events: EventMap, task: int, stream: nat): (r: EventMap)
    ensures NoEmptyList(events) ==> NoEmptyList(r)
    ensures Pending(r)
  {
    var r := events[stream := (if stream in events then events[stream] else []) + [task]];
    assert stream in r;
    r
  }

  /** The events that have not arrived when the stream has reached the task. */
  function After(list: seq<int>, task: int): seq<int> {
    if list == [] then [] else (if list[0] > task then [list[0]] else []) + After(list[1..], task)
  }

  predicate NonDecreasing(list: seq<int>) {
    forall i, j :: 0 <= i < j < |list| ==> list[i] <= list[j]
  }

  /** A task that is not below the recorded ones. */
  predicate NotBelow(list: seq<int>, task: int) {
    forall i :: 0 <= i < |list| ==> list[i] <= task
  }

  /** Recording in order keeps the order. */
  lemma RecordKeepsOrder(events: EventMap, task: int, stream: nat)
    requires forall s :: s in events ==> NonDecreasing(events[s])
    requires stream in events ==> NotBelow(events[stream], task)
    ensures var r := Record(events, task, stream);
      (forall s :: s in r ==> NonDecreasing(r[s])) && NotBelow(r[stream], task) && r[stream][|r[stream]| - 1] == task
  {
  }

  /** What is left after waiting is in order. */
  lemma {:induction false} AfterKeepsOrder(list: seq<int>, task: int)
    requires NonDecreasing(list)
    ensures NonDecreasing(After(list, task)) && forall k :: 0 <= k < |After(list, task)| ==> After(list, task)[k] in list
  {
    if list != [] {
      if list[0] > task { AllAfter(list, task); } else { AfterKeepsOrder(list[1..], task); }
    }
  }

  /** Exactly the tasks after this one stay, each as often as it was recorded. */
  lemma {:induction false} AfterIsLater(list: seq<int>, task: int, t: int)
    ensures multiset(After(list, task))[t] == if t > task then multiset(list)[t] else 0
  {
    if list != [] {
      assert list == [list[0]] + list[1..];
      AfterIsLater(list[1..], task, t);
    }
  }

  lemma {:induction false} AllAfter(list: seq<int>, task: int)
    requires NonDecreasing(list) && (list != [] ==> list[0] > task)
    ensures After(list, task) == list
  {
    if list != [] { AllAfter(list[1..], task); }
  }

  lemma EarliestArrived(list: seq<int>, task: int)
    requires list != [] && list[0] <= task
    ensures After(list, task) == After(list[1..], task)
    ensures NonDecreasing(list) ==> NonDecreasing(list[1..])
  {
  }

  lemma ArrivedAll(list: seq<int>, task: int)
    requires list == [] || list[0] > task
    ensures NonDecreasing(list) ==> After(list, task) == list
  {
    if NonDecreasing(list) { AllAfter(list, task); }
  }

  lemma Id32(task: int)
    ensures 0 <= task < TWO32 ==> task % TWO32 == task
  {
  }

  /**
    WaitEvent takes its task id as 32 bits and drops events from the front of the list.
    For ids below 2^32, recorded in order, exactly the later ones stay.
    */
  method WaitEvent(events: EventMap, task: int, stream: nat) returns (r: EventMap)
    ensures stream !in events ==> r == events
    ensures stream in events && NonDecreasing(events[stream]) && 0 <= task < TWO32 ==>
              var rest := After(events[stream], task);
              r == if rest == [] then events - {stream} else events[stream := rest]
    ensures NoEmptyList(events) ==> NoEmptyList(r)
    ensures r.Keys <= events.Keys
  {
    if stream !in events { return events; }
    var id := task % TWO32;
    Id32(task);
    var list := events[stream];
    while list != [] && list[0] <= id
      invariant NonDecreasing(events[stream]) ==> NonDecreasing(list)
      invariant After(list, id) == After(events[stream], id)
      decreases |list|
    {
      EarliestArrived(list, id);
      list := list[1..];
    }
    ArrivedAll(list, id);
    return if list == [] then events - {stream} else events[stream := list];
  }
}
