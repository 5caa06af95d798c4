/** What the callers of the shared queue may rely on, for any number of threads,
    any programs and any interleaving, spurious wakeups and overtaking included. */
module QueueGuarantees {
  import opened RingBuffer
  import opened BoundedFifo
  import opened QueueThreads
  import opened QueueSafety

  // ------------------------------------------------------- mutual exclusion

  /** At most one thread is between lock and unlock, that thread holds the mutex,
      and a thread that has returned, by whichever exit, or that sleeps in
      pthread_cond_wait does not hold it. */
  lemma MutualExclusion(n: nat, programs: seq<seq<Op>>, run: seq<Label>, s: State, i: nat, j: nat)
    requires Reached(n, programs, run, s) && i < |programs| && j < |programs|
    ensures |s.threads| == |programs|
    ensures Inside(s.threads[i].pc) && Inside(s.threads[j].pc) ==> i == j
    ensures s.lock == Some(i) <==> Inside(s.threads[i].pc)
    ensures s.threads[i].pc.Idle? || s.threads[i].pc.Asleep? ==> s.lock != Some(i)
  {
    ReachedSetting(n, programs, run, s);
    ReachedExclusive(n, programs, run, s);
  }

  /** Only the holder of the mutex changes the slots, the indices or the count. */
  lemma OnlyHolderWrites(n: nat, programs: seq<seq<Op>>, run: seq<Label>, s: State, l: Label)
    requires Reached(n, programs, run, s) && Enabled(s, l)
    ensures Step(s, l).ring != s.ring ==> l.Run? && s.lock == Some(l.tid)
  {
    ReachedExclusive(n, programs, run, s);
  }

  // -------------------------------------------------- the ring and its count

  /** Whenever the mutex is free the ring represents what the log says, count is
      the modular distance of the indices, and the index tests are exact. */
  lemma FreeMeansConsistent(n: nat, programs: seq<seq<Op>>, run: seq<Label>, s: State)
    requires Reached(n, programs, run, s) && s.lock.None?
    ensures WellFormed(s.ring)
    ensures Replay(s.log, n - 1) == Some(Items(s.ring))
    ensures s.ring.count == (s.ring.rear - s.ring.front) % n == |Items(s.ring)|
    ensures 0 <= s.ring.count <= n - 1
    ensures IsEmpty(s.ring) <==> s.ring.count == 0
    ensures IsFull(s.ring) <==> s.ring.count == n - 1
    ensures !(IsEmpty(s.ring) && IsFull(s.ring))
  {
    ReachedRing(n, programs, run, s);
    FreeRingRepresents(n, programs, run, s);
    var q := Contents(s);
    ItemsOfRepresentation(s.ring, q);
    CountIsModularDistance(s.ring, q);
    TestsDecide(s.ring, q);
  }

  /** With non-NULL payloads, whenever the mutex is free the occupied slots are
      exactly those from front up to rear, and there are count of them. */
  lemma FreeMeansExactOccupancy(n: nat, programs: seq<seq<Op>>, run: seq<Label>, s: State)
    requires Reached(n, programs, run, s) && s.lock.None?
    requires NULL !in Pushed(s.log)
    ensures WellFormed(s.ring)
    ensures Occupied(s.ring) == Interval(s.ring)
    ensures |Occupied(s.ring)| == s.ring.count
  {
    ReachedRing(n, programs, run, s);
    FreeRingRepresents(n, programs, run, s);
    PoppedThenContentsIsPushed(s.log, n - 1);
    assert forall x :: x in Contents(s) ==> x in Pushed(s.log);
    OccupiedIsInterval(s.ring, Contents(s));
  }

  // -------------------------------------------- refinement of the atomic FIFO

  /** Step s to s' is one atomic operation on the FIFO, made by thread t with
      number tid inside the call it is in. */
  predicate AtomicOperation(s: State, s': State, tid: nat, t: Thread)
    requires WellFormed(s.ring) && WellFormed(s'.ring)
  {
    && |s'.log| == |s.log| + 1
    && s.log == s'.log[..|s.log|]
    && var e := s'.log[|s.log|];
    && e.tid == tid
    && Inside(t.pc) && Shape(t) && e.op == Current(t)
    && Accept(Contents(s), e.op, e.ret, |s.ring.data| - 1) == Some(Contents(s'))
  }

  lemma ReplayedStepRefines(s: State, s': State, tid: nat, t: Thread, es: seq<Event>)
    requires WellFormed(s.ring) && WellFormed(s'.ring) && |s'.ring.data| == |s.ring.data|
    requires s'.log == s.log + es && |es| <= 1
    requires es != [] ==> Shape(t) && Inside(t.pc) && es[0].tid == tid && es[0].op == Current(t)
    requires Replay(s.log, |s.ring.data| - 1) == Some(Contents(s))
    requires Replay(s'.log, |s.ring.data| - 1) == Some(Contents(s'))
    ensures (s'.log == s.log && Contents(s') == Contents(s)) || AtomicOperation(s, s', tid, t)
  {
    ReplayAppended(s.log, es, |s.ring.data| - 1);
  }

  lemma {:induction false} ExecOneMore(s: State, run: seq<Label>, l: Label)
    requires Legal(s, run) && Enabled(Exec(s, run), l)
    ensures Legal(s, run + [l]) && Exec(s, run + [l]) == Step(Exec(s, run), l)
    decreases |run|
  {
    if run == [] {
      assert [] + [l] == [l];
    } else {
      ExecOneMore(Step(s, run[0]), run[1..], l);
      assert (run + [l])[1..] == run[1..] + [l];
    }
  }

  /** The reachable states are closed: the initialised queue with any programs is
      one, and so is what any enabled transition makes of one. */
  lemma ReachedIsClosed(n: nat, programs: seq<seq<Op>>, run: seq<Label>, s: State, l: Label)
    ensures 2 <= n ==> Reached(n, programs, [], Init(n, programs))
    ensures Reached(n, programs, run, s) && Enabled(s, l) ==> Reached(n, programs, run + [l], Step(s, l))
  {
    if Reached(n, programs, run, s) && Enabled(s, l) {
      ExecOneMore(Init(n, programs), run, l);
    }
  }

  /** Every transition either is invisible to the atomic FIFO or is one atomic
      operation on it by the stepping thread. */
  lemma StepRefines(n: nat, programs: seq<seq<Op>>, run: seq<Label>, s: State, l: Label)
    requires Reached(n, programs, run, s) && Enabled(s, l)
    ensures WellFormed(Step(s, l).ring)
    ensures
      || (Step(s, l).log == s.log && Contents(Step(s, l)) == Contents(s))
      || AtomicOperation(s, Step(s, l), l.tid, s.threads[l.tid])
  {
    ReachedRing(n, programs, run, s);
    ExecOneMore(Init(n, programs), run, l);
    ReachedRing(n, programs, run + [l], Step(s, l));
    LogGrowsByAppended(s, l);
    ProgramsStep(s, l);
    ReplayedStepRefines(s, Step(s, l), l.tid, s.threads[l.tid], Appended(s, l));
  }

  /** Linearizability. The log is a history the atomic bounded FIFO allows; for
      every thread it holds the thread's calls in program order, each with the
      result the call returned, and at most one more, whose call is in progress. */
  lemma Linearizable(n: nat, programs: seq<seq<Op>>, run: seq<Label>, s: State, i: nat)
    requires Reached(n, programs, run, s) && i < |programs|
    ensures Replay(s.log, n - 1).Some?
    ensures i < |s.threads|
    ensures var t, mine := s.threads[i], Of(i, s.log);
            && |t.returned| == t.next <= |mine| <= |programs[i]|
            && (|mine| == t.next || (|mine| == t.next + 1 && Inside(t.pc)))
            && (forall k :: 0 <= k < |mine| ==> mine[k].op == programs[i][k])
            && (forall k :: 0 <= k < t.next ==> mine[k].ret == t.returned[k])
  {
    ReachedRing(n, programs, run, s);
    ReachedSetting(n, programs, run, s);
    ReachedAccounts(n, programs, run, s, i);
  }

  lemma {:induction false} LogOnlyGrows(s: State, run: seq<Label>)
    requires Legal(s, run)
    ensures s.log <= Exec(s, run).log
    decreases |run|
  {
    if run == [] {
    } else {
      LogOnlyGrows(Step(s, run[0]), run[1..]);
    }
  }

  lemma {:induction false} OfConcatenation(tid: nat, a: seq<Event>, b: seq<Event>)
    ensures Of(tid, a + b) == Of(tid, a) + Of(tid, b)
    decreases |b|
  {
    if b == [] {
      assert a + b == a;
    } else {
      OfConcatenation(tid, a, b[..|b| - 1]);
      assert (a + b)[..|a + b| - 1] == a + b[..|b| - 1];
    }
  }

  /** The order of the log respects real time. Whatever has returned by the time
      a run has reached s stands in s.log, and every call that takes effect later
      stands behind all of it. */
  lemma RealTimeOrder(n: nat, programs: seq<seq<Op>>, run: seq<Label>, s: State, more: seq<Label>, i: nat)
    requires Reached(n, programs, run, s) && Legal(s, more) && i < |programs|
    ensures s.log <= Exec(s, more).log
    ensures i < |s.threads| && |s.threads[i].returned| <= |Of(i, s.log)|
    ensures var later := Exec(s, more).log[|s.log|..];
            Exec(s, more).log == s.log + later && Of(i, Exec(s, more).log) == Of(i, s.log) + Of(i, later)
  {
    Linearizable(n, programs, run, s, i);
    LogOnlyGrows(s, more);
    var later := Exec(s, more).log[|s.log|..];
    assert Exec(s, more).log == s.log + later;
    OfConcatenation(i, s.log, later);
  }

  lemma PopOfLog(log: seq<Event>, p: nat, cap: nat)
    requires Replay(log, cap).Some? && p < |log| && !log[p].op.Push?
    ensures Replay(log[..p], cap).Some?
    ensures var q := Replay(log[..p], cap).value;
            && Popped(log[..p]) + q <= Pushed(log)
            && if q == [] then log[p].op.TryPop? && log[p].ret == Nothing && Replay(log[..p + 1], cap) == Some(q)
               else log[p].ret == Got(q[0]) && Replay(log[..p + 1], cap) == Some(q[1..])
  {
    PrefixReplays(log, p, cap);
    PrefixReplays(log, p + 1, cap);
    assert log[..p + 1] == log[..p] + [log[p]];
    Append(log[..p], log[p], cap);
    PoppedThenContentsIsPushed(log[..p], cap);
  }

  /** What the caller of either pop gets: the oldest item, as the pointer that was
      pushed; or NULL, from a non-waiting pop on the empty FIFO only. */
  lemma PopsGiveTheOldestPointer(n: nat, programs: seq<seq<Op>>, run: seq<Label>, s: State, p: nat)
    requires Reached(n, programs, run, s) && p < |s.log| && !s.log[p].op.Push?
    ensures Replay(s.log[..p], n - 1).Some? && !s.log[p].ret.Sucess?
    ensures var q := Replay(s.log[..p], n - 1).value;
            && Popped(s.log[..p]) + q <= Pushed(s.log)
            && if q == [] then s.log[p].op.TryPop? && CPointer(s.log[p].ret) == NULL
               else CPointer(s.log[p].ret) == q[0]
  {
    ReachedRing(n, programs, run, s);
    PopOfLog(s.log, p, n - 1);
  }

  /** What NULL tells the caller, when no NULL is ever pushed: a non-waiting pop
      gives NULL exactly when the FIFO was empty at the moment the pop took
      effect, which it then left as it was; a blocking pop never gives NULL. */
  lemma NullResults(n: nat, programs: seq<seq<Op>>, run: seq<Label>, s: State, p: nat)
    requires Reached(n, programs, run, s) && p < |s.log| && !s.log[p].op.Push?
    requires NULL !in Pushed(s.log)
    ensures Replay(s.log[..p], n - 1).Some? && !s.log[p].ret.Sucess?
    ensures s.log[p].op.Pop? ==> CPointer(s.log[p].ret) != NULL
    ensures s.log[p].op.TryPop? ==>
              (CPointer(s.log[p].ret) == NULL <==> Replay(s.log[..p], n - 1).value == [])
    ensures CPointer(s.log[p].ret) == NULL ==> Replay(s.log[..p + 1], n - 1) == Replay(s.log[..p], n - 1)
  {
    ReachedRing(n, programs, run, s);
    PopOfLog(s.log, p, n - 1);
    var out, q := Popped(s.log[..p]), Replay(s.log[..p], n - 1).value;
    if q != [] {
      assert Pushed(s.log)[|out|] == (out + q)[|out|] == q[0];
    }
  }

  /** First in, first out, in every reachable state: what has been popped, followed
      by what a walk over the ring reads once the holder's half-done update is set
      right, is what has been pushed. The indices alone give the size. */
  lemma FifoAlways(n: nat, programs: seq<seq<Op>>, run: seq<Label>, s: State)
    requires Reached(n, programs, run, s)
    ensures WellFormed(s.ring) && Shaped(s) && WellFormed(Settled(s))
    ensures Pushed(s.log) == Popped(s.log) + Items(Settled(s))
    ensures |Items(Settled(s))| == (s.ring.rear - s.ring.front) % n <= n - 1
    ensures s.lock.None? ==> Settled(s) == s.ring
  {
    ReachedRing(n, programs, run, s);
    ReachedLength(n, programs, run, s);
    PoppedThenContentsIsPushed(s.log, n - 1);
  }

  /** The payloads a program pushes, in its order. */
  function PushesIn(program: seq<Op>): seq<Ptr> {
    if program == [] then []
    else
      var op := program[|program| - 1];
      PushesIn(program[..|program| - 1]) + if op.Push? then [op.x] else []
  }

  lemma {:induction false} PushEventsFollowProgram(es: seq<Event>, program: seq<Op>)
    requires |es| <= |program|
    requires forall k :: 0 <= k < |es| ==> es[k].op == program[k]
    ensures Values(PushEvents(es)) == PushesIn(program[..|es|])
    decreases |es|
  {
    if es == [] {
    } else {
      PushEventsFollowProgram(es[..|es| - 1], program);
      assert program[..|es|][..|es| - 1] == program[..|es| - 1];
    }
  }

  lemma {:induction false} PushesInPrefix(program: seq<Op>, k: nat)
    requires k <= |program|
    ensures PushesIn(program[..k]) <= PushesIn(program)
    decreases |program|
  {
    if k < |program| {
      PushesInPrefix(program[..|program| - 1], k);
      assert program[..|program| - 1][..k] == program[..k];
    } else {
      assert program[..k] == program;
    }
  }

  /** What has left the queue is the oldest part of what went in; and the items
      of one producer leave in the order of its program. */
  lemma ItemsLeaveInProgramOrder(n: nat, programs: seq<seq<Op>>, run: seq<Label>, s: State, i: nat)
    requires Reached(n, programs, run, s) && i < |programs|
    ensures |Popped(s.log)| <= |PushEvents(s.log)|
    ensures var departed := PushEvents(s.log)[..|Popped(s.log)|];
            && Popped(s.log) == Values(departed)
            && Values(Of(i, departed)) <= PushesIn(programs[i])
  {
    Linearizable(n, programs, run, s, i);
    ProducerOrder(i, s.log, n - 1);
    var mine := Of(i, s.log);
    PushEventsFollowProgram(mine, programs[i]);
    PushesInPrefix(programs[i], |mine|);
    var departed := PushEvents(s.log)[..|Popped(s.log)|];
    assert Values(Of(i, departed)) <= Values(PushEvents(mine));
  }
}
