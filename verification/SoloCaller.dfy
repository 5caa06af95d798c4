/** Whole calls on the queue, one caller at a time: what the ring does and what
    an atomic bounded FIFO does, call by call and over whole programs. A call
    that would sleep in pthread_cond_wait never returns to a lone caller, so a
    program stops there. */
module SoloCaller {
  import opened RingBuffer
  import opened BoundedFifo

  datatype Outcome = Returned(ret: Ret) | Blocked

  // ------------------------------------------------------ the two behaviours

  function FifoCall(q: seq<Ptr>, op: Op, cap: nat): (seq<Ptr>, Outcome) {
    match op
    case Push(x) => if |q| < cap then (q + [x], Returned(Sucess)) else (q, Blocked)
    case Pop => if q == [] then (q, Blocked) else (q[1..], Returned(Got(q[0])))
    case TryPop => if q == [] then (q, Returned(Nothing)) else (q[1..], Returned(Got(q[0])))
  }

  function RingCall(r: Ring, op: Op): (Ring, Outcome)
    requires WellFormed(r)
  {
    match op
    case Push(x) => if IsFull(r) then (r, Blocked) else (PushBody(r, x), Returned(Sucess))
    case Pop => if IsEmpty(r) then (r, Blocked) else (PopBody(r), Returned(Got(Head(r))))
    case TryPop => if IsEmpty(r) then (r, Returned(Nothing)) else (PopBody(r), Returned(Got(Head(r))))
  }

  function FifoRun(q: seq<Ptr>, ops: seq<Op>, cap: nat): (seq<Ptr>, seq<Outcome>)
    decreases |ops|
  {
    if ops == [] then (q, [])
    else
      var (q', o) := FifoCall(q, ops[0], cap);
      if o.Blocked? then (q', [o])
      else var (q'', os) := FifoRun(q', ops[1..], cap); (q'', [o] + os)
  }

  function RingRun(r: Ring, ops: seq<Op>): (Ring, seq<Outcome>)
    requires WellFormed(r)
    decreases |ops|
  {
    if ops == [] then (r, [])
    else
      var (r', o) := RingCall(r, ops[0]);
      if o.Blocked? then (r', [o])
      else var (r'', os) := RingRun(r', ops[1..]); (r'', [o] + os)
  }

  lemma RingCallRefines(r: Ring, q: seq<Ptr>, op: Op)
    requires Represents(r, q)
    ensures RingCall(r, op).1 == FifoCall(q, op, |r.data| - 1).1
    ensures Represents(RingCall(r, op).0, FifoCall(q, op, |r.data| - 1).0)
    ensures |RingCall(r, op).0.data| == |r.data|
  {
    TestsDecide(r, q);
    match op
    case Push(x) => if !IsFull(r) { PushRepresents(r, q, x); }
    case Pop => if !IsEmpty(r) { PopRepresents(r, q); }
    case TryPop => if !IsEmpty(r) { PopRepresents(r, q); }
  }

  lemma FifoRunFirst(q: seq<Ptr>, op: Op, ops: seq<Op>, cap: nat)
    ensures var (q', o) := FifoCall(q, op, cap);
            FifoRun(q, [op] + ops, cap) ==
            if o.Blocked? then (q', [o]) else (FifoRun(q', ops, cap).0, [o] + FifoRun(q', ops, cap).1)
  {
    assert ([op] + ops)[1..] == ops;
  }

  lemma RingRunFirst(r: Ring, op: Op, ops: seq<Op>)
    requires WellFormed(r)
    ensures var (r', o) := RingCall(r, op);
            RingRun(r, [op] + ops) ==
            if o.Blocked? then (r', [o]) else (RingRun(r', ops).0, [o] + RingRun(r', ops).1)
  {
    assert ([op] + ops)[1..] == ops;
  }

  /** Any finite program of calls gets from the ring exactly what it gets from
      a plain bounded sequence, through any number of wrap-arounds. */
  lemma {:induction false} RingRunRefines(r: Ring, q: seq<Ptr>, ops: seq<Op>)
    requires Represents(r, q)
    ensures RingRun(r, ops).1 == FifoRun(q, ops, |r.data| - 1).1
    ensures Represents(RingRun(r, ops).0, FifoRun(q, ops, |r.data| - 1).0)
    decreases |ops|
  {
    if ops == [] {
    } else {
      RingCallRefines(r, q, ops[0]);
      RingRunFirst(r, ops[0], ops[1..]);
      FifoRunFirst(q, ops[0], ops[1..], |r.data| - 1);
      assert [ops[0]] + ops[1..] == ops;
      var (r', o) := RingCall(r, ops[0]);
      if o.Returned? {
        RingRunRefines(r', FifoCall(q, ops[0], |r.data| - 1).0, ops[1..]);
      }
    }
  }

  // ------------------------------- the bounded sequence and the atomic FIFO

  /** The whole call and the atomic operation agree: a call returns exactly when
      the FIFO allows that result, with the same contents afterwards, and blocks
      exactly when it allows none. */
  lemma CallIsAccepted(q: seq<Ptr>, op: Op, cap: nat)
    ensures forall q', ret ::
              FifoCall(q, op, cap) == (q', Returned(ret)) <==> Accept(q, op, ret, cap) == Some(q')
    ensures FifoCall(q, op, cap).1.Blocked? <==> forall ret :: Accept(q, op, ret, cap) == None
  {
    match FifoCall(q, op, cap)
    case (_, Blocked) =>
    case (q', Returned(ret)) => assert Accept(q, op, ret, cap) == Some(q');
  }

  /** The calls that returned, as events of thread tid. */
  function LogOf(tid: nat, ops: seq<Op>, os: seq<Outcome>): seq<Event>
    decreases |os|
  {
    if os == [] || ops == [] || os[0].Blocked? then []
    else [Event(tid, ops[0], os[0].ret)] + LogOf(tid, ops[1..], os[1..])
  }

  lemma LogOfOneMore(tid: nat, ops: seq<Op>, ret: Ret, os: seq<Outcome>)
    requires ops != []
    ensures LogOf(tid, ops, [Returned(ret)] + os) == [Event(tid, ops[0], ret)] + LogOf(tid, ops[1..], os)
  {
    assert ([Returned(ret)] + os)[1..] == os;
  }

  /** What a lone caller gets is a history of the atomic FIFO, the one by which
      the threads are judged. */
  lemma {:induction false} SoloRunReplays(log: seq<Event>, q: seq<Ptr>, tid: nat, ops: seq<Op>, cap: nat)
    requires Replay(log, cap) == Some(q)
    ensures var (q', os) := FifoRun(q, ops, cap);
            Replay(log + LogOf(tid, ops, os), cap) == Some(q')
    decreases |ops|
  {
    if ops == [] {
      assert log + [] == log;
    } else {
      var (q', o) := FifoCall(q, ops[0], cap);
      FifoRunFirst(q, ops[0], ops[1..], cap);
      assert [ops[0]] + ops[1..] == ops;
      match o {
        case Blocked =>
          assert log + [] == log;
        case Returned(ret) =>
          var e := Event(tid, ops[0], ret);
          CallIsAccepted(q, ops[0], cap);
          Append(log, e, cap);
          SoloRunReplays(log + [e], q', tid, ops[1..], cap);
          var os := FifoRun(q', ops[1..], cap).1;
          LogOfOneMore(tid, ops, ret, os);
          assert log + ([e] + LogOf(tid, ops[1..], os)) == (log + [e]) + LogOf(tid, ops[1..], os);
      }
    }
  }

  /** It covers every call that returned. */
  lemma {:induction false} LogCoversRun(q: seq<Ptr>, tid: nat, ops: seq<Op>, cap: nat)
    ensures var os := FifoRun(q, ops, cap).1;
            |LogOf(tid, ops, os)| == if Blocked in os then |os| - 1 else |ops|
    decreases |ops|
  {
    if ops == [] {
    } else {
      var (q', o) := FifoCall(q, ops[0], cap);
      if o.Returned? {
        LogCoversRun(q', tid, ops[1..], cap);
        LogOfOneMore(tid, ops, o.ret, FifoRun(q', ops[1..], cap).1);
      }
    }
  }

  // ------------------------------------------ load everything, then drain it

  function Pushes(xs: seq<Ptr>): seq<Op> {
    seq(|xs|, i requires 0 <= i < |xs| => Push(xs[i]))
  }

  function Drain(n: nat): seq<Op> {
    seq(n, _ => TryPop)
  }

  function Fetched(xs: seq<Ptr>): seq<Outcome> {
    seq(|xs|, i requires 0 <= i < |xs| => Returned(Got(xs[i])))
  }

  function Accepted(n: nat): seq<Outcome> {
    seq(n, _ => Returned(Sucess))
  }

  lemma {:induction false} DrainReturnsInOrder(q: seq<Ptr>, cap: nat)
    ensures FifoRun(q, Drain(|q| + 1), cap) == ([], Fetched(q) + [Returned(Nothing)])
    decreases |q|
  {
    var ops := Drain(|q| + 1);
    assert ops[0] == TryPop && ops[1..] == Drain(|q|);
    if q == [] {
      assert FifoRun(q, ops[1..], cap) == (q, []);
      assert [Returned(Nothing)] + [] == Fetched(q) + [Returned(Nothing)];
    } else {
      DrainReturnsInOrder(q[1..], cap);
      var os := FifoRun(q[1..], ops[1..], cap).1;
      assert [Returned(Got(q[0]))] + os == Fetched(q) + [Returned(Nothing)];
    }
  }

  lemma PushesFirst(x: Ptr, xs: seq<Ptr>, rest: seq<Op>)
    ensures Pushes([x] + xs) + rest == [Push(x)] + (Pushes(xs) + rest)
  {
  }

  lemma AcceptedFirst(n: nat, os: seq<Outcome>)
    ensures Accepted(n + 1) + os == [Returned(Sucess)] + (Accepted(n) + os)
  {
  }

  lemma {:induction false} PushesThatFit(q: seq<Ptr>, xs: seq<Ptr>, rest: seq<Op>, cap: nat)
    requires |q| + |xs| <= cap
    ensures FifoRun(q, Pushes(xs) + rest, cap) ==
            (FifoRun(q + xs, rest, cap).0, Accepted(|xs|) + FifoRun(q + xs, rest, cap).1)
    decreases |xs|
  {
    if xs == [] {
      assert Pushes(xs) + rest == rest;
      assert q + xs == q;
      assert Accepted(0) + FifoRun(q, rest, cap).1 == FifoRun(q, rest, cap).1;
    } else {
      var q' := q + [xs[0]];
      assert xs == [xs[0]] + xs[1..] && q' + xs[1..] == q + xs;
      PushesFirst(xs[0], xs[1..], rest);
      FifoRunFirst(q, Push(xs[0]), Pushes(xs[1..]) + rest, cap);
      PushesThatFit(q', xs[1..], rest, cap);
      AcceptedFirst(|xs| - 1, FifoRun(q + xs, rest, cap).1);
    }
  }

  lemma PushesBeyond(xs: seq<Ptr>, rest: seq<Op>, cap: nat)
    requires |xs| > cap
    ensures FifoRun([], Pushes(xs) + rest, cap) == (xs[..cap], Accepted(cap) + [Blocked])
  {
    var fit, x, more := xs[..cap], xs[cap], xs[cap + 1..];
    var after := [Push(x)] + (Pushes(more) + rest);
    assert Pushes(xs) + rest == Pushes(fit) + after;
    PushesThatFit([], fit, after, cap);
    assert [] + fit == fit;
    FifoRunFirst(fit, Push(x), Pushes(more) + rest, cap);
  }

  lemma FifoLoadThenDrain(xs: seq<Ptr>, cap: nat)
    ensures var run := FifoRun([], Pushes(xs) + Drain(|xs| + 1), cap);
            && (|xs| <= cap <==> Blocked !in run.1)
            && (|xs| <= cap ==>
                  run == ([], Accepted(|xs|) + (Fetched(xs) + [Returned(Nothing)])))
            && (|xs| > cap ==>
                  run == (xs[..cap], Accepted(cap) + [Blocked]))
  {
    if |xs| <= cap {
      PushesThatFit([], xs, Drain(|xs| + 1), cap);
      assert [] + xs == xs;
      DrainReturnsInOrder(xs, cap);
    } else {
      PushesBeyond(xs, Drain(|xs| + 1), cap);
      assert (Accepted(cap) + [Blocked])[cap] == Blocked;
    }
  }

  /** The record loaders push a whole file into a private queue from one thread
      and only then start the non-waiting pops. On a ring of n slots that comes to
      an end exactly for files of at most n - 1 records; then the pops return the
      records in file order followed by one NULL and leave nothing for destroy to
      free. A longer file blocks its only thread in the push of record n. */
  lemma LoadThenDrain(xs: seq<Ptr>, n: nat)
    requires 2 <= n
    ensures WellFormed(EmptyRing(n))
    ensures var (r, os) := RingRun(EmptyRing(n), Pushes(xs) + Drain(|xs| + 1));
            && WellFormed(r)
            && (Blocked !in os <==> |xs| <= n - 1)
            && (|xs| <= n - 1 ==> Items(r) == [] && os == Accepted(|xs|) + (Fetched(xs) + [Returned(Nothing)]))
            && (|xs| > n - 1 ==> Items(r) == xs[..n - 1] && os == Accepted(n - 1) + [Blocked])
  {
    var program := Pushes(xs) + Drain(|xs| + 1);
    EmptyRepresents(n);
    RingRunRefines(EmptyRing(n), [], program);
    FifoLoadThenDrain(xs, n - 1);
    ItemsOfRepresentation(RingRun(EmptyRing(n), program).0, FifoRun([], program, n - 1).0);
  }

  /** The repository's own numbers: the queue takes 1999 of 2000 records, and the
      push of the last one blocks the only thread there is. */
  lemma LoadOfQueSizeRecords(xs: seq<Ptr>)
    requires |xs| == QUE_SIZE
    ensures WellFormed(EmptyRing(QUE_SIZE))
    ensures var (r, os) := RingRun(EmptyRing(QUE_SIZE), Pushes(xs) + Drain(|xs| + 1));
            && os == Accepted(1999) + [Blocked]
            && WellFormed(r) && Items(r) == xs[..1999]
    ensures (Pushes(xs) + Drain(|xs| + 1))[1999] == Push(xs[|xs| - 1])
  {
    LoadThenDrain(xs, QUE_SIZE);
  }

  // ------------------------------------------------------------------ destroy

  /** The pointers free() is called on when the given ones are freed in turn. */
  function Freed(q: seq<Ptr>): seq<Ptr> {
    if q == [] then []
    else
      var x := q[|q| - 1];
      Freed(q[..|q| - 1]) + if x != NULL then [x] else []
  }

  lemma FreedNext(q: seq<Ptr>, k: nat)
    requires k < |q|
    ensures Freed(q[..k + 1]) == if q[k] == NULL then Freed(q[..k]) else Freed(q[..k]) + [q[k]]
  {
    assert q[..k + 1][..k] == q[..k];
  }
}
