/** The shared queue from init to destroy, and the link between a thread's
    statement-by-statement call and the whole call of a lone caller. */
module QueueLifetime {
  import opened RingBuffer
  import opened BoundedFifo
  import opened SoloCaller
  import opened QueueThreads
  import opened QueueSafety
  import opened QueueGuarantees
  import opened QueueCompletion

  // ------------------------------------------------------------ conservation

  predicate Distinct(q: seq<Ptr>) {
    forall i, j :: 0 <= i < j < |q| ==> q[i] != q[j]
  }

  lemma {:induction false} FreedConcatenation(a: seq<Ptr>, b: seq<Ptr>)
    ensures Freed(a + b) == Freed(a) + Freed(b)
    decreases |b|
  {
    if b == [] {
      assert a + b == a;
    } else {
      FreedConcatenation(a, b[..|b| - 1]);
      assert (a + b)[..|a + b| - 1] == a + b[..|b| - 1];
    }
  }

  lemma {:induction false} FreedSkipsOnlyNull(q: seq<Ptr>)
    ensures NULL !in Freed(q)
    ensures NULL !in q ==> Freed(q) == q
    decreases |q|
  {
    if q == [] {
    } else {
      FreedSkipsOnlyNull(q[..|q| - 1]);
      assert q == q[..|q| - 1] + [q[|q| - 1]];
    }
  }

  /** Conservation over a lifetime: init, any run up to a state with the mutex
      free, so that destroy can take it, then the free loop of destroy. Threads may
      still sleep in pthread_cond_wait or want the mutex; nothing runs afterwards.
      The non-NULL pointers taken out, followed by those destroy frees, are the
      non-NULL pointers pushed. So when those are pairwise distinct, none is freed
      twice and none is both taken out and freed. */
  lemma Lifetime(n: nat, programs: seq<seq<Op>>, run: seq<Label>, s: State)
    requires Reached(n, programs, run, s) && s.lock.None?
    ensures WellFormed(s.ring)
    ensures var freed := Freed(Items(s.ring));
            && Freed(Pushed(s.log)) == Freed(Popped(s.log)) + freed
            && multiset(Freed(Pushed(s.log))) == multiset(Freed(Popped(s.log))) + multiset(freed)
            && NULL !in freed
            && (Distinct(Freed(Pushed(s.log))) ==>
                  Distinct(freed) && Distinct(Freed(Popped(s.log))) && forall x :: x in freed ==> x !in Popped(s.log))
  {
    FreeMeansConsistent(n, programs, run, s);
    LifetimeOfLog(s.log, Items(s.ring), n - 1);
  }

  lemma LifetimeOfLog(log: seq<Event>, left: seq<Ptr>, cap: nat)
    requires Replay(log, cap) == Some(left)
    ensures Freed(Pushed(log)) == Freed(Popped(log)) + Freed(left)
    ensures NULL !in Freed(left)
    ensures Distinct(Freed(Pushed(log))) ==>
              Distinct(Freed(left)) && Distinct(Freed(Popped(log))) && forall x :: x in Freed(left) ==> x !in Popped(log)
  {
    PoppedThenContentsIsPushed(log, cap);
    var out, freed := Popped(log), Freed(left);
    FreedConcatenation(out, left);
    FreedSkipsOnlyNull(left);
    if Distinct(Freed(Pushed(log))) {
      DistinctParts(Freed(out), freed);
      forall x | x in freed ensures x !in out {
        FreedKeeps(out, x);
      }
    }
  }

  lemma DistinctParts(a: seq<Ptr>, b: seq<Ptr>)
    requires Distinct(a + b)
    ensures Distinct(a) && Distinct(b)
    ensures forall x :: x in b ==> x !in a
  {
    var c := a + b;
    forall i, j | 0 <= i < j < |a| ensures a[i] != a[j] {
      assert c[i] == a[i] && c[j] == a[j];
    }
    forall i, j | 0 <= i < j < |b| ensures b[i] != b[j] {
      assert c[|a| + i] == b[i] && c[|a| + j] == b[j];
    }
    forall i, j | 0 <= i < |a| && 0 <= j < |b| ensures a[i] != b[j] {
      assert c[i] == a[i] && c[|a| + j] == b[j];
    }
  }

  lemma {:induction false} FreedKeeps(q: seq<Ptr>, x: Ptr)
    requires x != NULL
    ensures x in q <==> x in Freed(q)
    decreases |q|
  {
    if q == [] {
    } else {
      FreedKeeps(q[..|q| - 1], x);
      assert q == q[..|q| - 1] + [q[|q| - 1]];
    }
  }

  // --------------------------------------- one undisturbed call of one thread

  /** The run consists of statements of thread i. */
  predicate OnlyOf(i: nat, run: seq<Label>) {
    forall k :: 0 <= k < |run| ==> run[k].Run? && run[k].tid == i
  }

  /** What t returns from its unlock, other than the early one. */
  function Answer(t: Thread): Ret
    requires t.next < |t.program|
  {
    if Current(t).Push? then Sucess else Got(t.temp)
  }

  /** The ring and the outcome the call of t comes to if nothing disturbs it. */
  function Foreseen(r: Ring, t: Thread): (Ring, Outcome)
    requires WellFormed(r) && Shape(t) && t.next < |t.program|
  {
    match t.pc
    case Wait => (r, Blocked)
    case Asleep => (r, Blocked)
    case Store => (PushBody(r, Current(t).x), Returned(Sucess))
    case Read => (PopBody(r), Returned(Got(Head(r))))
    case Clear => (PopBody(r), Returned(Answer(t)))
    case Advance =>
      (if Current(t).Push? then CountUp(AdvanceRear(r)) else CountDown(AdvanceFront(r)), Returned(Answer(t)))
    case Tally => (if Current(t).Push? then CountUp(r) else CountDown(r), Returned(Answer(t)))
    case Signal => (r, Returned(Answer(t)))
    case Unlock => (r, Returned(Answer(t)))
    case UnlockNull => (r, Returned(Nothing))
    case _ => RingCall(r, Current(t))
  }

  /** What the whole call foresees, every statement still foresees, up to the
      return, which gives it back. */
  lemma ForesightLasts(r: Ring, t: Thread)
    requires WellFormed(r) && Shape(t) && !t.pc.Asleep? && t.next < |t.program|
    ensures WellFormed(Effect(r, t)) && Shape(Continue(r, t))
    ensures var t' := Continue(r, t);
            if t.pc.Unlock? || t.pc.UnlockNull? then
              && Foreseen(r, t).1.Returned?
              && t'.pc.Idle? && t'.next == t.next + 1 && t'.returned == t.returned + [Foreseen(r, t).1.ret]
              && Effect(r, t) == Foreseen(r, t).0
            else
              && !t'.pc.Idle? && t'.program == t.program && t'.next == t.next && t'.returned == t.returned
              && Foreseen(Effect(r, t), t') == Foreseen(r, t)
  {
  }

  /** s' is where a call of thread i that began the statements in s with ring r
      and thread t ends: ring r', mutex free, ret returned. */
  predicate CallEnds(s': State, i: nat, t: Thread, r': Ring, ret: Ret) {
    && s'.ring == r' && s'.lock.None? && i < |s'.threads|
    && s'.threads[i].pc.Idle? && s'.threads[i].next == t.next + 1
    && s'.threads[i].returned == t.returned + [ret]
  }

  /** s' is what the whole call of a lone caller leads to. */
  predicate CallAgrees(r: Ring, t: Thread, i: nat, s': State)
    requires WellFormed(r) && t.next < |t.program|
  {
    var (r', o) := RingCall(r, Current(t));
    if o.Returned? then CallEnds(s', i, t, r', o.ret)
    else
      s'.ring == r' && s'.lock.None? && i < |s'.threads| &&
      s'.threads[i].pc.Asleep? && s'.threads[i].next == t.next && s'.threads[i].returned == t.returned
  }

  /** Thread i has come to rest: its call has returned and it has not begun
      another, or it has fallen asleep in it. */
  predicate AtRest(s': State, i: nat, t: Thread) {
    && i < |s'.threads|
    && var t' := s'.threads[i];
    && ((t'.pc.Idle? && t'.next == t.next + 1) || (t'.pc.Asleep? && t'.next == t.next))
  }

  /** In s thread i is in the call that it began as t on ring r, or about to
      begin it, and has been alone since. */
  predicate MidCall(s: State, i: nat, r: Ring, t: Thread)
    requires WellFormed(r) && t.next < |t.program|
  {
    && WellFormed(s.ring) && i < |s.threads| && Shape(s.threads[i])
    && s.threads[i].program == t.program && s.threads[i].next == t.next && s.threads[i].returned == t.returned
    && Foreseen(s.ring, s.threads[i]) == RingCall(r, Current(t))
    && (s.threads[i].pc.Asleep? ==> s.lock.None?)
  }

  predicate Returning(t: Thread) {
    t.pc.Unlock? || t.pc.UnlockNull?
  }

  lemma MidCallStep(s: State, l: Label, r: Ring, t: Thread)
    requires WellFormed(r) && t.next < |t.program|
    requires MidCall(s, l.tid, r, t) && Enabled(s, l) && l.Run?
    ensures Returning(s.threads[l.tid]) ==>
              CallAgrees(r, t, l.tid, Step(s, l)) && AtRest(Step(s, l), l.tid, t)
    ensures !Returning(s.threads[l.tid]) ==>
              MidCall(Step(s, l), l.tid, r, t) && !Step(s, l).threads[l.tid].pc.Idle?
  {
    ForesightLasts(s.ring, s.threads[l.tid]);
    ThreadsAfter(s, l, l.tid);
  }

  /** A thread that moves on its own comes back to where it is outside the queue
      only by finishing a call. */
  lemma {:induction false} NextGrows(s: State, i: nat, run: seq<Label>)
    requires Legal(s, run) && OnlyOf(i, run) && i < |s.threads|
    ensures i < |Exec(s, run).threads|
    ensures var t, t' := s.threads[i], Exec(s, run).threads[i];
            t.next <= t'.next && (t'.pc.Idle? && t'.next == t.next ==> run == [])
    decreases |run|
  {
    if run == [] {
    } else {
      ThreadsAfter(s, run[0], i);
      NextGrows(Step(s, run[0]), i, run[1..]);
    }
  }

  lemma {:induction false} AgreesAtRest(s: State, i: nat, run: seq<Label>, r: Ring, t: Thread)
    requires WellFormed(r) && t.next < |t.program|
    requires MidCall(s, i, r, t) && Legal(s, run) && OnlyOf(i, run)
    ensures AtRest(Exec(s, run), i, t) ==> CallAgrees(r, t, i, Exec(s, run))
    decreases |run|
  {
    if run == [] {
    } else {
      MidCallStep(s, run[0], r, t);
      if Returning(s.threads[i]) {
        NextGrows(Step(s, run[0]), i, run[1..]);
      } else {
        AgreesAtRest(Step(s, run[0]), i, run[1..], r, t);
      }
    }
  }

  /** Whatever a thread does undisturbed, once its call has returned or it has
      fallen asleep in it, ring, mutex and result are those of the whole call of
      a lone caller; and it falls asleep exactly where that call blocks. */
  lemma EveryUndisturbedCall(s: State, i: nat, run: seq<Label>)
    requires WellFormed(s.ring) && i < |s.threads| && Shape(s.threads[i])
    requires s.threads[i].pc.Idle? && s.threads[i].next < |s.threads[i].program|
    requires Legal(s, run) && OnlyOf(i, run)
    ensures AtRest(Exec(s, run), i, s.threads[i]) <==> CallAgrees(s.ring, s.threads[i], i, Exec(s, run))
  {
    AgreesAtRest(s, i, run, s.ring, s.threads[i]);
  }

  lemma {:induction false} ComesToRest(s: State, i: nat, r: Ring, t: Thread) returns (run: seq<Label>)
    requires WellFormed(r) && t.next < |t.program| && MidCall(s, i, r, t)
    requires !Inside(s.threads[i].pc) ==> s.lock.None?
    ensures Legal(s, run) && OnlyOf(i, run) && AtRest(Exec(s, run), i, t)
    decreases CallsLeft(s.threads[i]), Effort(s.threads[i])
  {
    if s.threads[i].pc.Asleep? {
      run := [];
    } else {
      var l := CanMove(s, i);
      var s' := Step(s, l);
      MidCallStep(s, l, r, t);
      EffortOfStatement(s.ring, s.threads[i]);
      ContinueShape(s.ring, s.threads[i]);
      ThreadsAfter(s, l, i);
      var rest := [];
      if !Returning(s.threads[i]) {
        rest := ComesToRest(s', i, r, t);
      }
      run := [l] + rest;
      assert run[1..] == rest;
    }
  }

  /** And it does get there: a thread that finds the mutex free can, without any
      other thread moving, execute its whole call, with what comes of it. */
  lemma UndisturbedCall(s: State, i: nat) returns (run: seq<Label>)
    requires WellFormed(s.ring) && i < |s.threads| && Shape(s.threads[i]) && s.lock.None?
    requires s.threads[i].pc.Idle? && s.threads[i].next < |s.threads[i].program|
    ensures Legal(s, run) && OnlyOf(i, run)
    ensures CallAgrees(s.ring, s.threads[i], i, Exec(s, run))
  {
    run := ComesToRest(s, i, s.ring, s.threads[i]);
    EveryUndisturbedCall(s, i, run);
  }

  /** Why Completion asks for threads that push or take: for threads that do both,
      the balance that FinishedMeansBalanced requires is not enough. A thread that
      pops before it pushes waits for its own item. */
  lemma BalanceIsNotEnoughForMixedThreads(n: nat, x: Ptr) returns (run: seq<Label>, s: State)
    requires 2 <= n
    ensures Reached(n, [[Pop, Push(x)]], run, s) && Stuck(s)
    ensures !AllFinished(s) && Surplus([[Pop, Push(x)]], s) == 0
  {
    var programs := [[Pop, Push(x)]];
    EmptyRepresents(n);
    run := UndisturbedCall(Init(n, programs), 0);
    s := Exec(Init(n, programs), run);
    ReachedSetting(n, programs, run, s);
    ReachedRing(n, programs, run, s);
    ReachedExclusive(n, programs, run, s);
    StuckExactlyWhenAllDoneOrAsleep(s);
    ItemsByDemand(n, programs, run, s);
    TotalsOfMixed(x);
  }

  lemma TotalsOfMixed(x: Ptr)
    ensures Total([[Pop, Push(x)]], Pushing) == Total([[Pop, Push(x)]], Popping) == 1
    ensures Total([[Pop, Push(x)]], Trying) == 0
  {
    var program := [Pop, Push(x)];
    forall kind ensures Total([program], kind) == CallsFrom(program, 0, kind) {
      assert [program][..0] == [];
    }
    forall kind ensures CallsFrom(program, 0, kind) == if kind.Trying? then 0 else 1 {
      assert CallsFrom(program, 2, kind) == 0;
      assert CallsFrom(program, 1, kind) == if kind.Pushing? then 1 else 0;
    }
  }
}
