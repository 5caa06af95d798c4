/** The queue as its callers see it: an atomic FIFO of bounded capacity, the
    events that happen to it, and what a log of events implies. Nothing here
    mentions slots, indices, locks or threads' program counters. */
module BoundedFifo {
  import opened RingBuffer

  datatype Option<+T> = None | Some(value: T)

  /** One call of push_cir_queue, pop_cir_queue or pop_notwait_cir_queue. */
  datatype Op = Push(x: Ptr) | Pop | TryPop

  /** What a call gives back. A non-waiting pop that finds nothing is kept apart
      from one that finds a NULL payload, although C shows both as NULL. */
  datatype Ret = Sucess | Got(v: Ptr) | Nothing

  function CPointer(r: Ret): Ptr
    requires !r.Sucess?
  {
    if r.Got? then r.v else NULL
  }

  datatype Event = Event(tid: nat, op: Op, ret: Ret)

  /** The contents after one atomic operation with the given result; None when
      the FIFO does not allow that operation or that result. */
  function Accept(q: seq<Ptr>, op: Op, ret: Ret, cap: nat): Option<seq<Ptr>> {
    match op
    case Push(x) => if |q| < cap && ret == Sucess then Some(q + [x]) else None
    case Pop => if q != [] && ret == Got(q[0]) then Some(q[1..]) else None
    case TryPop =>
      if q == [] then (if ret == Nothing then Some(q) else None)
      else if ret == Got(q[0]) then Some(q[1..]) else None
  }

  /** The contents after a log of atomic operations on an empty FIFO. */
  function Replay(log: seq<Event>, cap: nat): Option<seq<Ptr>> {
    if log == [] then Some([])
    else
      match Replay(log[..|log| - 1], cap)
      case None => None
      case Some(q) => Accept(q, log[|log| - 1].op, log[|log| - 1].ret, cap)
  }

  function PushEvents(log: seq<Event>): seq<Event> {
    if log == [] then []
    else
      var e := log[|log| - 1];
      PushEvents(log[..|log| - 1]) + if e.op.Push? then [e] else []
  }

  function Values(es: seq<Event>): (vs: seq<Ptr>)
    ensures |vs| == |es|
  {
    seq(|es|, i requires 0 <= i < |es| => if es[i].op.Push? then es[i].op.x else NULL)
  }

  /** Every value pushed, in the order the pushes took effect. */
  function Pushed(log: seq<Event>): seq<Ptr> {
    if log == [] then []
    else
      var e := log[|log| - 1];
      Pushed(log[..|log| - 1]) + if e.op.Push? then [e.op.x] else []
  }

  /** Every value taken out, by either pop, in the order the pops took effect. */
  function Popped(log: seq<Event>): seq<Ptr> {
    if log == [] then []
    else
      var e := log[|log| - 1];
      Popped(log[..|log| - 1]) + if e.ret.Got? then [e.ret.v] else []
  }

  /** The events of one thread, in order. */
  function Of(tid: nat, log: seq<Event>): seq<Event> {
    if log == [] then []
    else
      var e := log[|log| - 1];
      Of(tid, log[..|log| - 1]) + if e.tid == tid then [e] else []
  }

  lemma Append(log: seq<Event>, e: Event, cap: nat)
    ensures Replay(log + [e], cap) ==
            match Replay(log, cap) case None => None case Some(q) => Accept(q, e.op, e.ret, cap)
    ensures Pushed(log + [e]) == Pushed(log) + if e.op.Push? then [e.op.x] else []
    ensures Popped(log + [e]) == Popped(log) + if e.ret.Got? then [e.ret.v] else []
  {
    assert (log + [e])[..|log|] == log;
  }

  lemma OfAppend(tid: nat, log: seq<Event>, e: Event)
    ensures Of(tid, log + [e]) == Of(tid, log) + if e.tid == tid then [e] else []
  {
    assert (log + [e])[..|log|] == log;
  }

  /** FIFO and conservation at once: what came out, followed by what is inside,
      is what went in; and the capacity is never exceeded. */
  lemma {:induction false} PoppedThenContentsIsPushed(log: seq<Event>, cap: nat)
    requires Replay(log, cap).Some?
    ensures Pushed(log) == Popped(log) + Replay(log, cap).value
    ensures |Replay(log, cap).value| <= cap
  {
    if log == [] {
    } else {
      PoppedThenContentsIsPushed(log[..|log| - 1], cap);
    }
  }

  lemma {:induction false} PrefixReplays(log: seq<Event>, k: nat, cap: nat)
    requires Replay(log, cap).Some? && k <= |log|
    ensures Replay(log[..k], cap).Some?
    ensures Pushed(log[..k]) <= Pushed(log)
    decreases |log|
  {
    if k < |log| {
      PrefixReplays(log[..|log| - 1], k, cap);
      assert log[..|log| - 1][..k] == log[..k];
    } else {
      assert log[..k] == log;
    }
  }

  // ------------------------------------------------- order within a producer

  lemma {:induction false} PushedIsValuesOfPushEvents(log: seq<Event>)
    ensures Pushed(log) == Values(PushEvents(log))
  {
    if log == [] {
    } else {
      PushedIsValuesOfPushEvents(log[..|log| - 1]);
    }
  }

  lemma {:induction false} OfCommutesWithPushEvents(tid: nat, log: seq<Event>)
    ensures Of(tid, PushEvents(log)) == PushEvents(Of(tid, log))
  {
    if log == [] {
    } else {
      var e, front := log[|log| - 1], log[..|log| - 1];
      OfCommutesWithPushEvents(tid, front);
      assert log == front + [e];
      if e.op.Push? {
        OfAppend(tid, PushEvents(front), e);
      } else {
        assert PushEvents(log) == PushEvents(front);
      }
      if e.tid == tid {
        assert (Of(tid, front) + [e])[..|Of(tid, front)|] == Of(tid, front);
      } else {
        assert Of(tid, log) == Of(tid, front);
      }
    }
  }

  lemma {:induction false} OfPrefix(tid: nat, log: seq<Event>, k: nat)
    requires k <= |log|
    ensures Of(tid, log[..k]) <= Of(tid, log)
  {
    if k < |log| {
      OfPrefix(tid, log[..|log| - 1], k);
      assert log[..|log| - 1][..k] == log[..k];
    } else {
      assert log[..k] == log;
    }
  }

  /** The items that have left the queue are the oldest pushes, and those of one
      producer among them are the first pushes of that producer, in its order. */
  lemma ProducerOrder(tid: nat, log: seq<Event>, cap: nat)
    requires Replay(log, cap).Some?
    ensures |Popped(log)| <= |PushEvents(log)|
    ensures Popped(log) == Values(PushEvents(log)[..|Popped(log)|])
    ensures Of(tid, PushEvents(log)[..|Popped(log)|]) <= PushEvents(Of(tid, log))
  {
    PoppedThenContentsIsPushed(log, cap);
    PushedIsValuesOfPushEvents(log);
    OfCommutesWithPushEvents(tid, log);
    OfPrefix(tid, PushEvents(log), |Popped(log)|);
    assert Pushed(log)[..|Popped(log)|] == Popped(log);
  }
}
