/** No wakeup is lost: the argument why a thread asleep on a condition variable
    is never forgotten, in every reachable state of every interleaving. */
module QueueProgress {
  import opened RingBuffer
  import opened BoundedFifo
  import opened QueueThreads
  import opened QueueSafety
  import opened QueueHistory
  import opened ThreadSums

  /** What a thread can be waiting for: an item, on notempty, or room for one, on
      notfull. Pops consume items and provide room, pushes the other way round. */
  datatype Resource = Item | Room

  // -------------------------------------------------------- threads to count

  /** op is a call that waits for res where there is none. */
  predicate WaitsFor(op: Op, res: Resource) {
    if res.Item? then op.Pop? else op.Push?
  }

  /** op is a call that leaves one more of res behind. */
  predicate Provides(op: Op, res: Resource) {
    if res.Item? then op.Push? else !op.Push?
  }

  predicate Sleeps(t: Thread, res: Resource) {
    t.pc.Asleep? && t.next < |t.program| && WaitsFor(Current(t), res)
  }

  /** 1 for a call that has been asleep for res, was woken, and has neither got it
      nor gone back to sleep; 0 for every other thread. */
  function Awake(t: Thread, res: Resource): nat {
    if t.waited && t.next < |t.program| && WaitsFor(Current(t), res) &&
       (t.pc.Woken? || t.pc.Test? || t.pc.Wait? || t.pc.Store? || t.pc.Read? || t.pc.Clear? || t.pc.Advance?)
    then 1 else 0
  }

  function AwakeFor(res: Resource): Thread -> nat {
    (t: Thread) => Awake(t, res)
  }

  /** 1 for a call that has moved its index, so that there is one more of res, and
      not yet signalled. */
  function Owes(t: Thread, res: Resource): nat {
    if t.next < |t.program| && Provides(Current(t), res) && (t.pc.Tally? || t.pc.Signal?) then 1 else 0
  }

  /** The signal the holder of the mutex owes, if there is a holder. */
  function Owed(s: State, res: Resource): nat
    requires Shaped(s)
  {
    match Holder(s) case None => 0 case Some(t) => Owes(t, res)
  }

  /** How much of res a queue of n slots with len items holds. */
  function Stock(len: int, n: int, res: Resource): int {
    if res.Item? then len else n - 1 - len
  }

  /** While a thread sleeps for res, the stock is covered by threads already woken
      for it and a signal still to come. */
  ghost predicate NotForgotten(s: State, res: Resource, stock: int)
    requires Shaped(s)
  {
    (exists j :: 0 <= j < |s.threads| && Sleeps(s.threads[j], res)) ==>
      stock <= Sum(s.threads, AwakeFor(res)) + Owed(s, res)
  }

  ghost predicate NothingForgotten(s: State)
    requires Safe(s)
  {
    forall res: Resource :: NotForgotten(s, res, Stock(|Contents(s)|, |s.ring.data|, res))
  }

  // ------------------------------------------------------------ preservation

  /** How one statement moves a sum, when nobody is woken. */
  lemma SumAfterQuietStep(s: State, l: Label, f: Thread -> nat)
    requires Enabled(s, l) && l.Run? && l.wake == {}
    ensures Sum(Step(s, l).threads, f) + f(s.threads[l.tid]) ==
            Sum(s.threads, f) + f(Continue(s.ring, s.threads[l.tid]))
  {
    WakeNobody(s.threads);
    SumOfOneChange(s.threads, l.tid, Continue(s.ring, s.threads[l.tid]), f);
  }

  lemma SumAfterSignal(s: State, l: Label, f: Thread -> nat)
    requires Enabled(s, l) && l.Run? && s.threads[l.tid].pc.Signal?
    ensures Sum(Step(s, l).threads, f) + f(s.threads[l.tid]) ==
            Sum(WakeUp(s.threads, l.wake), f) + f(Continue(s.ring, s.threads[l.tid]))
  {
    assert l.tid !in l.wake;
    SumOfOneChange(WakeUp(s.threads, l.wake), l.tid, Continue(s.ring, s.threads[l.tid]), f);
  }

  lemma SumAfterSpurious(s: State, l: Label, f: Thread -> nat)
    requires Enabled(s, l) && l.Spurious?
    ensures var t := s.threads[l.tid];
            Sum(Step(s, l).threads, f) + f(t) == Sum(s.threads, f) + f(t.(pc := Woken))
  {
    SumOfOneChange(s.threads, l.tid, s.threads[l.tid].(pc := Woken), f);
  }

  lemma OwedAfter(s: State, l: Label, res: Resource)
    requires Shaped(s) && Exclusive(s) && Enabled(s, l)
    ensures Shaped(Step(s, l))
    ensures var t := s.threads[l.tid];
            if l.Run? && Inside(t.pc) then
              Owed(s, res) == Owes(t, res) && Owed(Step(s, l), res) == Owes(Continue(s.ring, t), res)
            else
              Owed(Step(s, l), res) == Owed(s, res)
  {
    if l.Run? && Inside(s.threads[l.tid].pc) {
      HolderAfterInside(s, l);
    } else {
      HolderAfterOutside(s, l);
    }
  }

  /** By how much the statement of thread t changes the stock of res. */
  function Gain(t: Thread, res: Resource): int {
    if t.pc.Advance? && t.next < |t.program| then if Provides(Current(t), res) then 1 else -1 else 0
  }

  lemma SizeAfterStatement(r: Ring, tid: nat, t: Thread, q: seq<Ptr>)
    requires WellFormed(r) && Shape(t) && ContentsAfter(r, tid, t, q).Some?
    requires t.pc.Advance? && !Current(t).Push? ==> q != []
    ensures |ContentsAfter(r, tid, t, q).value| == |q| + Gain(t, Item)
  {
  }

  lemma ContentsSizeAfter(s: State, l: Label, q: seq<Ptr>, q': seq<Ptr>)
    requires Enabled(s, l)
    requires Replay(s.log, |s.ring.data| - 1) == Some(q)
    requires Replay(Step(s, l).log, |s.ring.data| - 1) == Some(q')
    requires s.threads[l.tid].pc.Advance? && !Current(s.threads[l.tid]).Push? ==> q != []
    ensures |q'| == |q| + if l.Run? then Gain(s.threads[l.tid], Item) else 0
  {
    if l.Run? {
      LogAfter(s, l, q);
      SizeAfterStatement(s.ring, l.tid, s.threads[l.tid], q);
    }
  }

  /** What the statement about to be executed says about the contents. */
  lemma WaitsAndTakesForGoodReason(s: State, i: nat)
    requires Safe(s) && i < |s.threads| && (s.threads[i].pc.Wait? || s.threads[i].pc.Advance?)
    ensures s.threads[i].next < |s.threads[i].program|
    ensures var t := s.threads[i];
            && (t.pc.Wait? && Current(t).Pop? ==> |Contents(s)| == 0)
            && (t.pc.Wait? && Current(t).Push? ==> |Contents(s)| == |s.ring.data| - 1)
            && (t.pc.Advance? && !Current(t).Push? ==> Contents(s) != [])
  {
    assert s.lock == Some(i);
  }

  /** New sleepers come only from pthread_cond_wait. */
  lemma SleeperAfter(s: State, l: Label, j: nat)
    requires Enabled(s, l) && j < |s.threads|
    requires Step(s, l).threads[j].pc.Asleep?
    ensures Step(s, l).threads[j] == s.threads[j] ||
            (l.Run? && j == l.tid && s.threads[j].pc.Wait? && Step(s, l).threads[j] == Continue(s.ring, s.threads[j]))
  {
    ThreadsAfter(s, l, j);
  }

  lemma WakingKeepsAwake(s: State, wake: set<nat>, res: Resource)
    requires Shaped(s) && forall j :: j in wake ==> j < |s.threads| && s.threads[j].pc.Asleep?
    ensures Sum(WakeUp(s.threads, wake), AwakeFor(res)) >= Sum(s.threads, AwakeFor(res))
  {
    SumIsMonotone(s.threads, WakeUp(s.threads, wake), AwakeFor(res));
  }

  /** A signal given while somebody sleeps on its condition adds a woken thread. */
  lemma SignalWakes(s: State, l: Label, res: Resource, j: nat)
    requires Shaped(s) && Enabled(s, l) && l.Run? && s.threads[l.tid].pc.Signal?
    requires Provides(Current(s.threads[l.tid]), res)
    requires j < |s.threads| && Sleeps(s.threads[j], res)
    ensures Sum(WakeUp(s.threads, l.wake), AwakeFor(res)) > Sum(s.threads, AwakeFor(res))
  {
    assert WokenBy(s.threads[j], Current(s.threads[l.tid]));
    var k :| k in l.wake;
    SumIsStrictlyMonotone(s.threads, WakeUp(s.threads, l.wake), AwakeFor(res), k);
  }

  /** What a statement of t does to the three quantities of the budget. */
  lemma BudgetOfStatement(r: Ring, t: Thread, res: Resource)
    requires WellFormed(r) && Shape(t) && !t.pc.Asleep? && !t.pc.Wait? && !t.pc.Signal?
    requires t.pc.Idle? ==> t.next < |t.program|
    ensures var t' := Continue(r, t);
            Gain(t, res) + Owes(t, res) + Awake(t, res) <= Owes(t', res) + Awake(t', res)
  {
  }

  /** How a transition moves the number of awake threads while somebody sleeps. */
  lemma AwakeAfter(s: State, l: Label, res: Resource, j: nat)
    requires Shaped(s) && Enabled(s, l) && j < |s.threads| && Sleeps(Step(s, l).threads[j], res)
    ensures var t := s.threads[l.tid];
            l.Run? ==>
              Sum(Step(s, l).threads, AwakeFor(res)) + Awake(t, res) >=
              Sum(s.threads, AwakeFor(res)) + Awake(Continue(s.ring, t), res)
              + (if t.pc.Signal? && Provides(Current(t), res) then 1 else 0)
    ensures l.Spurious? ==> Sum(Step(s, l).threads, AwakeFor(res)) >= Sum(s.threads, AwakeFor(res))
  {
    SleeperAfter(s, l, j);
    if l.Spurious? {
      SumAfterSpurious(s, l, AwakeFor(res));
    } else if s.threads[l.tid].pc.Signal? {
      SumAfterSignal(s, l, AwakeFor(res));
      WakingKeepsAwake(s, l.wake, res);
      if Provides(Current(s.threads[l.tid]), res) {
        SignalWakes(s, l, res, j);
      }
    } else {
      SumAfterQuietStep(s, l, AwakeFor(res));
    }
  }

  lemma BudgetStep(s: State, l: Label, res: Resource, stock: int)
    requires Shaped(s) && Exclusive(s) && Enabled(s, l) && NotForgotten(s, res, stock)
    requires l.Run? && s.threads[l.tid].pc.Wait? && WaitsFor(Current(s.threads[l.tid]), res) ==> stock == 0
    ensures Shaped(Step(s, l))
    ensures NotForgotten(Step(s, l), res, stock + if l.Run? then Gain(s.threads[l.tid], res) else 0)
  {
    OwedAfter(s, l, res);
    var t, s' := s.threads[l.tid], Step(s, l);
    if j :| 0 <= j < |s'.threads| && Sleeps(s'.threads[j], res) {
      SleeperAfter(s, l, j);
      AwakeAfter(s, l, res, j);
      if l.Run? && !t.pc.Signal? && !t.pc.Wait? {
        BudgetOfStatement(s.ring, t, res);
      }
    }
  }

  /** A thread at pthread_cond_wait waits for something of which there is none. */
  lemma WaitsForNothingInStock(s: State, i: nat, res: Resource)
    requires Safe(s) && i < |s.threads| && s.threads[i].pc.Wait?
    ensures s.threads[i].next < |s.threads[i].program|
    ensures WaitsFor(Current(s.threads[i]), res) ==> Stock(|Contents(s)|, |s.ring.data|, res) == 0
  {
    WaitsAndTakesForGoodReason(s, i);
  }

  lemma SizeStep(s: State, l: Label)
    requires Safe(s) && Enabled(s, l) && RingAgrees(Step(s, l)) && |Step(s, l).ring.data| == |s.ring.data|
    ensures |Contents(Step(s, l))| == |Contents(s)| + if l.Run? then Gain(s.threads[l.tid], Item) else 0
  {
    SafeReplays(s);
    SafeReplays(Step(s, l));
    if s.threads[l.tid].pc.Advance? {
      WaitsAndTakesForGoodReason(s, l.tid);
    }
    ContentsSizeAfter(s, l, Contents(s), Contents(Step(s, l)));
  }

  lemma NothingForgottenStep(s: State, l: Label)
    requires Safe(s) && Enabled(s, l) && NothingForgotten(s)
    ensures Safe(Step(s, l)) && NothingForgotten(Step(s, l))
  {
    SafeStep(s, l);
    ProgramsStep(s, l);
    SizeStep(s, l);
    forall res: Resource
      ensures NotForgotten(Step(s, l), res, Stock(|Contents(Step(s, l))|, |s.ring.data|, res))
    {
      if s.threads[l.tid].pc.Wait? {
        WaitsForNothingInStock(s, l.tid, res);
      }
      BudgetStep(s, l, res, Stock(|Contents(s)|, |s.ring.data|, res));
    }
  }

  lemma {:induction false} NothingForgottenExec(s: State, run: seq<Label>)
    requires Safe(s) && NothingForgotten(s) && Legal(s, run)
    ensures Safe(Exec(s, run)) && NothingForgotten(Exec(s, run))
    decreases |run|
  {
    if run == [] {
    } else {
      NothingForgottenStep(s, run[0]);
      NothingForgottenExec(Step(s, run[0]), run[1..]);
    }
  }

  lemma InitForgetsNothing(n: nat, programs: seq<seq<Op>>)
    requires 2 <= n
    ensures Safe(Init(n, programs)) && NothingForgotten(Init(n, programs))
  {
    InitSafe(n, programs);
  }

  /** No lost wakeup, said of the indices themselves, mid-call states included.
      While a pop sleeps unsignalled, the (rear - front) mod n items in the ring
      are covered by pops already woken and not yet served, and one push that has
      not signalled yet; and dually for sleeping pushes and free slots. */
  lemma NoLostWakeup(n: nat, programs: seq<seq<Op>>, run: seq<Label>, s: State, res: Resource)
    requires Reached(n, programs, run, s)
    ensures Shaped(s) && WellFormed(s.ring)
    ensures Len(s.ring) == (s.ring.rear - s.ring.front) % n
    ensures (exists j :: 0 <= j < |s.threads| && Sleeps(s.threads[j], res)) ==>
              Stock(Len(s.ring), n, res) <= Sum(s.threads, AwakeFor(res)) + Owed(s, res)
  {
    ReachedLength(n, programs, run, s);
    InitForgetsNothing(n, programs);
    NothingForgottenExec(Init(n, programs), run);
    assert NotForgotten(s, res, Stock(|Contents(s)|, n, res));
  }

  /** t is at the statements between the update of its index and its signal. */
  predicate AboutToSignal(t: Thread, res: Resource) {
    t.next < |t.program| && Provides(Current(t), res) && (t.pc.Tally? || t.pc.Signal?)
  }

  /** The same, counting threads by what they have done in the run. While a thread
      sleeps for res, every unit of res in the ring is covered by a thread of its
      own that executed pthread_cond_wait for res in its present call, sleeps no
      longer and has not taken effect yet, but for one unit whose provider is about
      to signal. */
  lemma WokenThreadsCover(n: nat, programs: seq<seq<Op>>, run: seq<Label>, s: State, res: Resource)
    returns (woken: set<nat>)
    requires Reached(n, programs, run, s)
    ensures |s.threads| == |programs|
    ensures forall i :: i in woken ==>
                          && i < |s.threads| && s.threads[i].next < |programs[i]|
                          && WaitsFor(programs[i][s.threads[i].next], res)
                          && WaitsInCall(Init(n, programs), run, i, s.threads[i].next)
                          && !s.threads[i].pc.Asleep? && EffectsOf(s.threads[i]) == s.threads[i].next
    ensures (exists j :: 0 <= j < |s.threads| && Sleeps(s.threads[j], res)) ==>
              Stock((s.ring.rear - s.ring.front) % n, n, res) <=
              |woken| + if exists j :: 0 <= j < |s.threads| && AboutToSignal(s.threads[j], res) then 1 else 0
  {
    ReachedSetting(n, programs, run, s);
    NoLostWakeup(n, programs, run, s, res);
    SumIsCount(s.threads, AwakeFor(res));
    woken := set j: nat | j < |s.threads| && AwakeFor(res)(s.threads[j]) == 1;
    forall i | i in woken
      ensures WaitsInCall(Init(n, programs), run, i, s.threads[i].next)
    {
      WaitedIffItWaited(n, programs, run, s, i);
    }
    if Owed(s, res) == 1 {
      assert AboutToSignal(s.threads[s.lock.value], res);
    }
  }
}
