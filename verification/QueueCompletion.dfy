/** States in which no thread can move, runs that must come to an end, and the
    exact condition under which producers and consumers all finish. */
module QueueCompletion {
  import opened RingBuffer
  import opened BoundedFifo
  import opened QueueThreads
  import opened QueueSafety
  import opened QueueGuarantees
  import opened ThreadSums
  import opened QueueProgress

  // ------------------------------------------------------------ stuck states

  /** No thread can execute a statement; sleepers can still wake spuriously. */
  ghost predicate Stuck(s: State) {
    forall l: Label :: l.Run? ==> !Enabled(s, l)
  }

  /** A thread with something to do can do it, unless it waits for the mutex. */
  lemma CanMove(s: State, i: nat) returns (l: Label)
    requires WellFormed(s.ring) && i < |s.threads| && Shape(s.threads[i])
    requires !Finished(s.threads[i]) && !s.threads[i].pc.Asleep?
    requires s.threads[i].pc.Lock? || s.threads[i].pc.Woken? ==> s.lock.None?
    ensures l.Run? && l.tid == i && Enabled(s, l)
  {
    var t := s.threads[i];
    var wake := if t.pc.Signal? then set j: nat | j < |s.threads| && WokenBy(s.threads[j], Current(t)) else {};
    if t.pc.Signal? && (exists j :: 0 <= j < |s.threads| && WokenBy(s.threads[j], Current(t))) {
      var j :| 0 <= j < |s.threads| && WokenBy(s.threads[j], Current(t));
      assert j in wake;
    }
    l := Run(i, wake);
  }

  lemma SomebodyCanMove(s: State, i: nat) returns (l: Label)
    requires Shaped(s) && Exclusive(s) && WellFormed(s.ring)
    requires i < |s.threads| && !Finished(s.threads[i]) && !s.threads[i].pc.Asleep?
    ensures l.Run? && Enabled(s, l)
  {
    l := CanMove(s, if s.lock.Some? then s.lock.value else i);
  }

  lemma StuckExactlyWhenAllDoneOrAsleep(s: State)
    requires Shaped(s) && Exclusive(s) && WellFormed(s.ring)
    ensures Stuck(s) <==> forall i :: 0 <= i < |s.threads| ==> Finished(s.threads[i]) || s.threads[i].pc.Asleep?
  {
    if i :| 0 <= i < |s.threads| && !(Finished(s.threads[i]) || s.threads[i].pc.Asleep?) {
      var l := SomebodyCanMove(s, i);
    }
  }

  lemma NobodyAwake(s: State)
    requires Shaped(s) && Exclusive(s)
    requires forall i :: 0 <= i < |s.threads| ==> Finished(s.threads[i]) || s.threads[i].pc.Asleep?
    ensures s.lock.None?
    ensures Sum(s.threads, AwakeFor(Item)) == Sum(s.threads, AwakeFor(Room)) == 0
  {
    assert s.lock.Some? ==> Inside(s.threads[s.lock.value].pc);
    SumOfZeros(s.threads, AwakeFor(Item));
    SumOfZeros(s.threads, AwakeFor(Room));
  }

  ghost predicate AllFinished(s: State) {
    forall i :: 0 <= i < |s.threads| ==> Finished(s.threads[i])
  }

  ghost predicate OnlyConsumersLeft(s: State) {
    forall i :: 0 <= i < |s.threads| ==> Finished(s.threads[i]) || Sleeps(s.threads[i], Item)
  }

  ghost predicate OnlyProducersLeft(s: State) {
    forall i :: 0 <= i < |s.threads| ==> Finished(s.threads[i]) || Sleeps(s.threads[i], Room)
  }

  /** Deadlock freedom. In a reachable state where no thread can move, the mutex
      is free, and all threads have finished, or the ring is empty and those left
      are blocking pops asleep on it, or the ring is full and those left are
      pushes asleep on it. So a sleeping push and a sleeping pop never block each
      other, whatever the programs. */
  lemma StuckStates(n: nat, programs: seq<seq<Op>>, run: seq<Label>, s: State)
    requires Reached(n, programs, run, s) && Stuck(s)
    ensures s.lock.None? && WellFormed(s.ring)
    ensures || AllFinished(s)
            || (OnlyConsumersLeft(s) && Items(s.ring) == [] && IsEmpty(s.ring))
            || (OnlyProducersLeft(s) && |Items(s.ring)| == n - 1 && IsFull(s.ring))
  {
    ReachedRing(n, programs, run, s);
    ReachedExclusive(n, programs, run, s);
    StuckExactlyWhenAllDoneOrAsleep(s);
    NobodyAwake(s);
    NoLostWakeup(n, programs, run, s, Item);
    NoLostWakeup(n, programs, run, s, Room);
    ClassifySleepers(s, Len(s.ring), n - 1);
    FreeMeansConsistent(n, programs, run, s);
  }

  lemma ClassifySleepers(s: State, len: nat, cap: nat)
    requires Shaped(s) && s.lock.None? && len <= cap && cap > 0
    requires forall i :: 0 <= i < |s.threads| ==> Finished(s.threads[i]) || s.threads[i].pc.Asleep?
    requires (exists j :: 0 <= j < |s.threads| && Sleeps(s.threads[j], Item)) ==> len <= 0
    requires (exists j :: 0 <= j < |s.threads| && Sleeps(s.threads[j], Room)) ==> cap - len <= 0
    ensures AllFinished(s) || (OnlyConsumersLeft(s) && len == 0) || (OnlyProducersLeft(s) && len == cap)
  {
    forall i | 0 <= i < |s.threads|
      ensures Finished(s.threads[i]) || Sleeps(s.threads[i], Item) || Sleeps(s.threads[i], Room)
    {
      assert Shape(s.threads[i]);
    }
  }

  // -------------------------------------------------------- termination

  /** Statements left in the current call, were it never to sleep again. */
  function Effort(t: Thread): (k: nat)
    ensures k <= 11
  {
    match t.pc
    case Asleep => 0
    case Wait => 1
    case Signal => 2
    case Tally => 3
    case Advance => 4
    case Clear => 5
    case Read => 6
    case Store => 6
    case Test => 7
    case Woken => 8
    case Lock => 9
    case Idle => 10
    case Unlock => 11
    case UnlockNull => 11
  }

  /** Calls of t that have neither signalled nor given up. */
  function CallsLeft(t: Thread): nat {
    if t.next >= |t.program| then 0
    else |t.program| - t.next - if t.pc.Unlock? || t.pc.UnlockNull? then 1 else 0
  }

  /** A number for c calls left and e statements left among m threads. */
  function Weight(c: nat, m: nat, e: nat): nat {
    c * (11 * m + 1) + e
  }

  function Measure(s: State): nat {
    Weight(Sum(s.threads, CallsLeft), |s.threads|, Sum(s.threads, Effort))
  }

  function SpuriousIn(run: seq<Label>): nat {
    if run == [] then 0 else (if run[0].Spurious? then 1 else 0) + SpuriousIn(run[1..])
  }

  lemma WeightFalls(c: nat, c': nat, e: nat, e': nat, m: nat)
    requires e' <= 11 * m
    requires c' < c || (c' == c && e' < e)
    ensures Weight(c', m, e') < Weight(c, m, e)
  {
    var width := 11 * m + 1;
    if c' < c {
      assert c' * width + width <= c * width by { assert (c' + 1) * width <= c * width; }
    }
  }

  lemma EffortOfStatement(r: Ring, t: Thread)
    requires WellFormed(r) && Shape(t) && !t.pc.Asleep?
    requires t.pc.Idle? ==> t.next < |t.program|
    ensures CallsLeft(Continue(r, t)) <= CallsLeft(t)
    ensures t.pc.Signal? ==> CallsLeft(Continue(r, t)) < CallsLeft(t)
    ensures CallsLeft(Continue(r, t)) == CallsLeft(t) ==> Effort(Continue(r, t)) < Effort(t)
  {
  }

  lemma WakingKeepsCallsLeft(threads: seq<Thread>, wake: set<nat>)
    requires forall j :: j in wake ==> j < |threads| && threads[j].pc.Asleep?
    ensures Sum(WakeUp(threads, wake), CallsLeft) == Sum(threads, CallsLeft)
  {
    SumOfEqual(threads, WakeUp(threads, wake), CallsLeft);
  }

  lemma EffortStep(s: State, l: Label)
    requires Enabled(s, l)
    ensures |Step(s, l).threads| == |s.threads|
    ensures l.Run? ==>
              || Sum(Step(s, l).threads, CallsLeft) < Sum(s.threads, CallsLeft)
              || (Sum(Step(s, l).threads, CallsLeft) == Sum(s.threads, CallsLeft) &&
                  Sum(Step(s, l).threads, Effort) < Sum(s.threads, Effort))
    ensures l.Spurious? ==>
              && Sum(Step(s, l).threads, CallsLeft) == Sum(s.threads, CallsLeft)
              && Sum(Step(s, l).threads, Effort) == Sum(s.threads, Effort) + 8
  {
    if l.Spurious? {
      SumAfterSpurious(s, l, CallsLeft);
      SumAfterSpurious(s, l, Effort);
    } else {
      EffortOfStatement(s.ring, s.threads[l.tid]);
      if s.threads[l.tid].pc.Signal? {
        WakingKeepsCallsLeft(s.threads, l.wake);
        SumAfterSignal(s, l, CallsLeft);
      } else {
        SumAfterQuietStep(s, l, CallsLeft);
        SumAfterQuietStep(s, l, Effort);
      }
    }
  }

  /** Every statement executed brings the measure down, however many threads a
      signal wakes; a spurious wakeup raises it by 8. */
  lemma MeasureStep(s: State, l: Label)
    requires Enabled(s, l)
    ensures l.Run? ==> Measure(Step(s, l)) < Measure(s)
    ensures l.Spurious? ==> Measure(Step(s, l)) == Measure(s) + 8
  {
    EffortStep(s, l);
    SumIsBounded(Step(s, l).threads, Effort, 11);
    var c, c' := Sum(s.threads, CallsLeft), Sum(Step(s, l).threads, CallsLeft);
    var e, e' := Sum(s.threads, Effort), Sum(Step(s, l).threads, Effort);
    if l.Run? {
      WeightFalls(c, c', e, e', |s.threads|);
    }
  }

  /** Every run is finite but for spurious wakeups: its length is bounded by the
      measure of the state it starts in and nine per spurious wakeup. */
  lemma {:induction false} RunsAreBounded(s: State, run: seq<Label>)
    requires Legal(s, run)
    ensures |run| + Measure(Exec(s, run)) <= Measure(s) + 9 * SpuriousIn(run)
    decreases |run|
  {
    if run == [] {
    } else {
      MeasureStep(s, run[0]);
      RunsAreBounded(Step(s, run[0]), run[1..]);
    }
  }

  function TotalCalls(programs: seq<seq<Op>>): nat {
    if programs == [] then 0 else TotalCalls(programs[..|programs| - 1]) + |programs[|programs| - 1]|
  }

  lemma {:induction false} InitialEffort(n: nat, programs: seq<seq<Op>>)
    ensures Sum(Init(n, programs).threads, CallsLeft) == TotalCalls(programs)
    ensures Sum(Init(n, programs).threads, Effort) == 10 * |programs|
    decreases |programs|
  {
    if programs == [] {
    } else {
      InitialEffort(n, programs[..|programs| - 1]);
      assert Init(n, programs).threads[..|programs| - 1] == Init(n, programs[..|programs| - 1]).threads;
    }
  }

  lemma InitialMeasure(n: nat, programs: seq<seq<Op>>)
    ensures Measure(Init(n, programs)) == Weight(TotalCalls(programs), |programs|, 10 * |programs|)
  {
    InitialEffort(n, programs);
    assert |Init(n, programs).threads| == |programs|;
  }

  /** Termination, in numbers a caller has beforehand: m threads with c calls in
      all execute at most c(11m + 1) + 10m statements, and at most nine more for
      every spurious wakeup, whatever the interleaving. */
  lemma RunLength(n: nat, programs: seq<seq<Op>>, run: seq<Label>, s: State)
    requires Reached(n, programs, run, s)
    ensures |run| <= TotalCalls(programs) * (11 * |programs| + 1) + 10 * |programs| + 9 * SpuriousIn(run)
  {
    RunsAreBounded(Init(n, programs), run);
    InitialMeasure(n, programs);
  }

  /** From every safe state the threads can go on, without any spurious wakeup,
      to a state where none can move. */
  lemma {:induction false} CanRunToTheEnd(s: State) returns (more: seq<Label>)
    requires Safe(s)
    ensures Legal(s, more) && Stuck(Exec(s, more))
    ensures SpuriousIn(more) == 0
    decreases Measure(s)
  {
    if Stuck(s) {
      more := [];
    } else {
      var l: Label :| l.Run? && Enabled(s, l);
      MeasureStep(s, l);
      SafeStep(s, l);
      var rest := CanRunToTheEnd(Step(s, l));
      more := [l] + rest;
      assert more[1..] == rest;
    }
  }

  // --------------------------------------------------------------- completion

  datatype Kind = Pushing | Popping | Trying

  function KindOf(op: Op): Kind {
    match op case Push(_) => Pushing case Pop => Popping case TryPop => Trying
  }

  /** The calls of one kind in a program, from position k on. */
  function CallsFrom(program: seq<Op>, k: nat, kind: Kind): nat
    decreases |program| - k
  {
    if k >= |program| then 0 else (if KindOf(program[k]) == kind then 1 else 0) + CallsFrom(program, k + 1, kind)
  }

  /** The calls of one kind in all programs. */
  function Total(programs: seq<seq<Op>>, kind: Kind): nat {
    if programs == [] then 0
    else Total(programs[..|programs| - 1], kind) + CallsFrom(programs[|programs| - 1], 0, kind)
  }

  /** The calls of one kind that t has still to make, or that have not taken effect. */
  function Pending(kind: Kind): Thread -> nat {
    (t: Thread) => CallsFrom(t.program, EffectsOf(t), kind)
  }

  /** The calls of one kind that have taken effect. */
  function Made(log: seq<Event>, kind: Kind): nat {
    if log == [] then 0
    else Made(log[..|log| - 1], kind) + if KindOf(log[|log| - 1].op) == kind then 1 else 0
  }

  /** The non-waiting pops among them that got an item. */
  function Grabbed(log: seq<Event>): nat {
    if log == [] then 0
    else
      var e := log[|log| - 1];
      Grabbed(log[..|log| - 1]) + if e.op.TryPop? && e.ret.Got? then 1 else 0
  }

  /** Every item pushed and every item taken is counted once, and a non-waiting
      pop takes at most one. */
  lemma {:induction false} CountsOfLog(log: seq<Event>, cap: nat)
    requires Replay(log, cap).Some?
    ensures |Pushed(log)| == Made(log, Pushing)
    ensures |Popped(log)| == Made(log, Popping) + Grabbed(log)
    ensures Grabbed(log) <= Made(log, Trying)
  {
    if log == [] {
    } else {
      CountsOfLog(log[..|log| - 1], cap);
    }
  }

  lemma MadeByAppended(log: seq<Event>, es: seq<Event>, kind: Kind)
    requires |es| <= 1
    ensures Made(log + es, kind) == Made(log, kind) + Made(es, kind)
  {
    if es == [] {
      assert log + es == log;
    } else {
      assert (log + es)[..|log|] == log;
    }
  }

  lemma {:induction false} InitialDemand(n: nat, programs: seq<seq<Op>>, kind: Kind)
    ensures Sum(Init(n, programs).threads, Pending(kind)) == Total(programs, kind)
    decreases |programs|
  {
    if programs == [] {
    } else {
      InitialDemand(n, programs[..|programs| - 1], kind);
      assert Init(n, programs).threads[..|programs| - 1] == Init(n, programs[..|programs| - 1]).threads;
    }
  }

  lemma DemandOfStatement(r: Ring, tid: nat, t: Thread, kind: Kind)
    requires WellFormed(r) && Shape(t) && !t.pc.Asleep?
    requires t.pc.Idle? ==> t.next < |t.program|
    ensures Made(Effective(r, tid, t), kind) + Pending(kind)(Continue(r, t)) == Pending(kind)(t)
  {
  }

  lemma WakingKeepsDemand(threads: seq<Thread>, wake: set<nat>, kind: Kind)
    requires forall j :: j in wake ==> j < |threads| && threads[j].pc.Asleep?
    ensures Sum(WakeUp(threads, wake), Pending(kind)) == Sum(threads, Pending(kind))
  {
    SumOfEqual(threads, WakeUp(threads, wake), Pending(kind));
  }

  lemma DemandStep(s: State, l: Label, kind: Kind)
    requires Enabled(s, l)
    ensures Made(Step(s, l).log, kind) + Sum(Step(s, l).threads, Pending(kind)) ==
            Made(s.log, kind) + Sum(s.threads, Pending(kind))
  {
    if l.Spurious? {
      SumAfterSpurious(s, l, Pending(kind));
    } else {
      DemandOfStatement(s.ring, l.tid, s.threads[l.tid], kind);
      LogGrowsByAppended(s, l);
      MadeByAppended(s.log, Appended(s, l), kind);
      if s.threads[l.tid].pc.Signal? {
        WakingKeepsDemand(s.threads, l.wake, kind);
        SumAfterSignal(s, l, Pending(kind));
      } else {
        SumAfterQuietStep(s, l, Pending(kind));
      }
    }
  }

  lemma {:induction false} DemandExec(s: State, run: seq<Label>, kind: Kind)
    requires Legal(s, run)
    ensures Made(Exec(s, run).log, kind) + Sum(Exec(s, run).threads, Pending(kind)) ==
            Made(s.log, kind) + Sum(s.threads, Pending(kind))
    decreases |run|
  {
    if run == [] {
    } else {
      DemandStep(s, run[0], kind);
      DemandExec(Step(s, run[0]), run[1..], kind);
    }
  }

  /** Of each kind, the calls that have taken effect and those still to come add
      up to the programs', whatever the programs. */
  lemma Demand(n: nat, programs: seq<seq<Op>>, run: seq<Label>, s: State, kind: Kind)
    requires Reached(n, programs, run, s)
    ensures Made(s.log, kind) + Sum(s.threads, Pending(kind)) == Total(programs, kind)
  {
    InitialDemand(n, programs, kind);
    DemandExec(Init(n, programs), run, kind);
  }

  /** The same for the items: one for every push that is not still to come; taken,
      one for every blocking pop that is not still to come, and whatever the
      non-waiting pops have got. */
  lemma ItemsByDemand(n: nat, programs: seq<seq<Op>>, run: seq<Label>, s: State)
    requires Reached(n, programs, run, s)
    ensures |Pushed(s.log)| == Total(programs, Pushing) - Sum(s.threads, Pending(Pushing))
    ensures |Popped(s.log)| == Total(programs, Popping) - Sum(s.threads, Pending(Popping)) + Grabbed(s.log)
    ensures Grabbed(s.log) <= Total(programs, Trying)
  {
    ReachedRing(n, programs, run, s);
    CountsOfLog(s.log, n - 1);
    Demand(n, programs, run, s, Pushing);
    Demand(n, programs, run, s, Popping);
    Demand(n, programs, run, s, Trying);
  }

  predicate Producer(program: seq<Op>) {
    forall k :: 0 <= k < |program| ==> program[k].Push?
  }

  /** A thread that takes items, waiting or not, in any order. */
  predicate Consumer(program: seq<Op>) {
    forall k :: 0 <= k < |program| ==> !program[k].Push?
  }

  predicate Dedicated(program: seq<Op>) {
    Producer(program) || Consumer(program)
  }

  predicate AllDedicated(programs: seq<seq<Op>>) {
    forall i {:trigger Dedicated(programs[i])} :: 0 <= i < |programs| ==> Dedicated(programs[i])
  }

  lemma {:induction false} NoCallLeft(program: seq<Op>, k: nat, kind: Kind)
    requires forall j :: k <= j < |program| ==> KindOf(program[j]) != kind
    ensures CallsFrom(program, k, kind) == 0
    decreases |program| - k
  {
    if k >= |program| {
    } else {
      NoCallLeft(program, k + 1, kind);
    }
  }

  lemma PendingOfThread(t: Thread)
    requires Dedicated(t.program)
    ensures Finished(t) ==> Pending(Pushing)(t) == Pending(Popping)(t) == 0
    ensures Sleeps(t, Item) ==> Pending(Pushing)(t) == 0 && Pending(Popping)(t) > 0
    ensures Sleeps(t, Room) ==> Pending(Popping)(t) == 0 && Pending(Pushing)(t) > 0
  {
    if Sleeps(t, Item) {
      assert Consumer(t.program);
      NoCallLeft(t.program, t.next, Pushing);
    } else if Sleeps(t, Room) {
      assert Producer(t.program);
      NoCallLeft(t.program, t.next, Popping);
    }
  }

  lemma LeftOvers(n: nat, programs: seq<seq<Op>>, run: seq<Label>, s: State)
    requires Reached(n, programs, run, s)
    requires AllDedicated(programs)
    ensures OnlyConsumersLeft(s) ==> Sum(s.threads, Pending(Pushing)) == 0
    ensures OnlyProducersLeft(s) ==> Sum(s.threads, Pending(Popping)) == 0
    ensures OnlyConsumersLeft(s) && !AllFinished(s) ==> Sum(s.threads, Pending(Popping)) > 0
    ensures OnlyProducersLeft(s) && !AllFinished(s) ==> Sum(s.threads, Pending(Pushing)) > 0
  {
    ReachedSetting(n, programs, run, s);
    forall i | 0 <= i < |s.threads|
      ensures Finished(s.threads[i]) ==> Pending(Pushing)(s.threads[i]) == Pending(Popping)(s.threads[i]) == 0
      ensures Sleeps(s.threads[i], Item) ==> Pending(Pushing)(s.threads[i]) == 0 && Pending(Popping)(s.threads[i]) > 0
      ensures Sleeps(s.threads[i], Room) ==> Pending(Popping)(s.threads[i]) == 0 && Pending(Pushing)(s.threads[i]) > 0
    {
      assert Dedicated(programs[i]) && s.threads[i].program == programs[i];
      PendingOfThread(s.threads[i]);
    }
    if OnlyConsumersLeft(s) { SumOfZeros(s.threads, Pending(Pushing)); }
    if OnlyProducersLeft(s) { SumOfZeros(s.threads, Pending(Popping)); }
    if i :| 0 <= i < |s.threads| && !Finished(s.threads[i]) {
      if Sleeps(s.threads[i], Item) { SumHasPositiveTerm(s.threads, Pending(Popping), i); }
      if Sleeps(s.threads[i], Room) { SumHasPositiveTerm(s.threads, Pending(Pushing), i); }
    }
  }

  lemma Flow(n: nat, programs: seq<seq<Op>>, run: seq<Label>, s: State)
    requires Reached(n, programs, run, s) && s.lock.None?
    ensures WellFormed(s.ring)
    ensures |Pushed(s.log)| == |Popped(s.log)| + |Items(s.ring)|
    ensures |Items(s.ring)| <= n - 1
  {
    FreeMeansConsistent(n, programs, run, s);
    PoppedThenContentsIsPushed(s.log, n - 1);
  }

  /** Pushes in the programs beyond the pops in them, and beyond the items that
      non-waiting pops have got. */
  function Surplus(programs: seq<seq<Op>>, s: State): int {
    Total(programs, Pushing) - Total(programs, Popping) - Grabbed(s.log)
  }

  /** Completion, with its exact condition. Let threads that only push make P
      pushes in all, and let the others make C pops and any number of non-waiting
      pops, G of which got an item. In every state they can reach in which none can
      move, all have finished if and only if 0 <= P - C - G <= n - 1, and then
      exactly that many items are queued. If it is negative all pushes are made and
      that many pops are left asleep on the empty queue; if it exceeds n - 1 all
      pops are made and the pushes beyond the capacity are left asleep on the full
      one. */
  lemma Completion(n: nat, programs: seq<seq<Op>>, run: seq<Label>, s: State)
    requires Reached(n, programs, run, s) && Stuck(s)
    requires AllDedicated(programs)
    ensures WellFormed(s.ring)
    ensures Grabbed(s.log) <= Total(programs, Trying)
    ensures var surplus := Surplus(programs, s);
            && (AllFinished(s) <==> 0 <= surplus <= n - 1)
            && (0 <= surplus <= n - 1 ==> |Items(s.ring)| == surplus)
            && (surplus < 0 ==>
                  OnlyConsumersLeft(s) && Items(s.ring) == [] && Sum(s.threads, Pending(Popping)) == -surplus)
            && (surplus > n - 1 ==>
                  OnlyProducersLeft(s) && |Items(s.ring)| == n - 1 &&
                  Sum(s.threads, Pending(Pushing)) == surplus - (n - 1))
  {
    StuckStates(n, programs, run, s);
    ItemsByDemand(n, programs, run, s);
    Flow(n, programs, run, s);
    LeftOvers(n, programs, run, s);
    if AllFinished(s) {
      assert OnlyConsumersLeft(s) && OnlyProducersLeft(s);
    }
  }

  /** For programs of any kind the balance is necessary: where all have finished,
      the surplus is what is queued. */
  lemma FinishedMeansBalanced(n: nat, programs: seq<seq<Op>>, run: seq<Label>, s: State)
    requires Reached(n, programs, run, s) && AllFinished(s)
    ensures WellFormed(s.ring) && |Items(s.ring)| == Surplus(programs, s)
    ensures 0 <= Surplus(programs, s) <= n - 1
  {
    ReachedExclusive(n, programs, run, s);
    NobodyAwake(s);
    ItemsByDemand(n, programs, run, s);
    Flow(n, programs, run, s);
    forall i, kind | 0 <= i < |s.threads| ensures Pending(kind)(s.threads[i]) == 0 {
      assert Finished(s.threads[i]);
    }
    SumOfZeros(s.threads, Pending(Pushing));
    SumOfZeros(s.threads, Pending(Popping));
  }

  /** K <= P - C <= n - 1 for K non-waiting pops in the programs. */
  predicate Balanced(n: nat, programs: seq<seq<Op>>) {
    Total(programs, Trying) <= Total(programs, Pushing) - Total(programs, Popping) <= n - 1
  }

  /** A condition that callers can check beforehand: if the programs are balanced,
      no schedule leaves anybody asleep for good, whichever of the non-waiting pops
      succeed. */
  lemma BalancedNeverDeadlocks(n: nat, programs: seq<seq<Op>>, run: seq<Label>, s: State)
    requires Reached(n, programs, run, s) && Stuck(s)
    requires AllDedicated(programs) && Balanced(n, programs)
    ensures AllFinished(s)
  {
    Completion(n, programs, run, s);
  }

  lemma {:induction false} ExecOfBoth(s: State, run: seq<Label>, more: seq<Label>)
    requires Legal(s, run) && Legal(Exec(s, run), more)
    ensures Legal(s, run + more) && Exec(s, run + more) == Exec(Exec(s, run), more)
    decreases |run|
  {
    if run == [] {
      assert [] + more == more;
    } else {
      ExecOfBoth(Step(s, run[0]), run[1..], more);
      assert (run + more)[1..] == run[1..] + more;
    }
  }

  /** Then nothing is ever beyond repair either: from every reachable state,
      whatever scheduling and spurious wakeups led there, all threads can still
      finish, with no further spurious wakeup. */
  lemma CanAlwaysFinish(n: nat, programs: seq<seq<Op>>, run: seq<Label>, s: State) returns (more: seq<Label>)
    requires Reached(n, programs, run, s)
    requires AllDedicated(programs) && Balanced(n, programs)
    ensures Legal(s, more) && SpuriousIn(more) == 0
    ensures AllFinished(Exec(s, more))
  {
    ReachedIsSafe(n, programs, run, s);
    more := CanRunToTheEnd(s);
    ExecOfBoth(Init(n, programs), run, more);
    BalancedNeverDeadlocks(n, programs, run + more, Exec(s, more));
  }
}
