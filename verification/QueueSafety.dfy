/** What every reachable state of every interleaving satisfies: mutual
    exclusion, the ring's agreement with the log of effects, and each thread's
    agreement with its own part of that log. */
module QueueSafety {
  import opened RingBuffer
  import opened BoundedFifo
  import opened QueueThreads

  // ------------------------------------------------------------- invariants

  /** The mutex is held by exactly the thread between lock and unlock, if any. */
  ghost predicate Exclusive(s: State) {
    forall i {:trigger s.threads[i]} :: 0 <= i < |s.threads| ==> (Inside(s.threads[i].pc) <==> s.lock == Some(i))
  }

  predicate Shaped(s: State) {
    && (s.lock.Some? ==> s.lock.value < |s.threads|)
    && forall i :: 0 <= i < |s.threads| ==> Shape(s.threads[i])
  }

  /** The ring with the half-done update of thread t taken back or completed, so
      that it shows what has taken effect. */
  function SettledBy(r: Ring, t: Thread): Ring
    requires WellFormed(r) && Shape(t)
  {
    match t.pc
    case Advance =>
      if Current(t).Push? then r.(data := r.data[r.rear := NULL])
      else r.(data := r.data[r.front := t.temp])
    case Tally => if Current(t).Push? then CountUp(r) else CountDown(r)
    case _ => r
  }

  function Settled(s: State): Ring
    requires WellFormed(s.ring) && Shaped(s)
  {
    if s.lock.None? then s.ring else SettledBy(s.ring, s.threads[s.lock.value])
  }

  /** What the holder knows at each statement about the contents q. */
  ghost predicate HolderKnows(r: Ring, t: Thread, q: seq<Ptr>)
    requires WellFormed(r) && Shape(t)
  {
    !t.pc.Idle? ==>
      && (t.pc.Wait? ==> if Current(t).Push? then |q| == |r.data| - 1 else q == [])
      && (t.pc.Store? || (t.pc.Advance? && Current(t).Push?) ==> |q| < |r.data| - 1)
      && (t.pc.Advance? && Current(t).Push? ==> r.data[r.rear] == Current(t).x)
      && (t.pc.Read? || t.pc.Clear? || (t.pc.Advance? && !Current(t).Push?) ==> q != [])
      && (t.pc.Clear? || (t.pc.Advance? && !Current(t).Push?) ==> t.temp == q[0])
      && (t.pc.Advance? && !Current(t).Push? ==> r.data[r.front] == NULL)
  }

  ghost predicate RingAgrees(s: State) {
    && WellFormed(s.ring)
    && Shaped(s)
    && Replay(s.log, |s.ring.data| - 1).Some?
    && Represents(Settled(s), Replay(s.log, |s.ring.data| - 1).value)
    && (s.lock.Some? ==>
          HolderKnows(s.ring, s.threads[s.lock.value], Replay(s.log, |s.ring.data| - 1).value))
  }

  /** How many calls of t have taken effect. */
  function EffectsOf(t: Thread): nat {
    t.next + if t.pc.Tally? || t.pc.Signal? || t.pc.Unlock? || t.pc.UnlockNull? then 1 else 0
  }

  /** es is what t has done: its program so far, with the results it got or, for
      the call in progress, is about to get. */
  ghost predicate Accounts(t: Thread, es: seq<Event>) {
    && Shape(t)
    && |es| == EffectsOf(t)
    && |t.returned| == t.next
    && (forall k :: 0 <= k < |es| ==> es[k].op == t.program[k])
    && (forall k :: 0 <= k < t.next ==> es[k].ret == t.returned[k])
    && (EffectsOf(t) > t.next ==>
          es[t.next].ret == if t.pc.UnlockNull? then Nothing else if Current(t).Push? then Sucess else Got(t.temp))
  }

  ghost predicate LogAgrees(s: State) {
    forall i {:trigger Of(i, s.log)} :: 0 <= i < |s.threads| ==> Accounts(s.threads[i], Of(i, s.log))
  }

  ghost predicate Safe(s: State) {
    Shaped(s) && Exclusive(s) && RingAgrees(s) && LogAgrees(s)
  }

  /** The contents according to the operations that have taken effect. */
  function Contents(s: State): seq<Ptr>
    requires WellFormed(s.ring)
  {
    match Replay(s.log, |s.ring.data| - 1) case None => [] case Some(q) => q
  }

  // ----------------------------------------------------------- preservation

  /** A thread that is not the one stepping stays as it is or is woken up. */
  predicate Bystander(t: Thread, t': Thread) {
    t' == t || (t.pc.Asleep? && t' == t.(pc := Woken))
  }

  lemma ThreadsAfter(s: State, l: Label, j: nat)
    requires Enabled(s, l) && j < |s.threads|
    ensures |Step(s, l).threads| == |s.threads|
    ensures j != l.tid ==> Bystander(s.threads[j], Step(s, l).threads[j])
    ensures j == l.tid && l.Run? ==> Step(s, l).threads[j] == Continue(s.ring, s.threads[j])
    ensures j == l.tid && l.Spurious? ==> Bystander(s.threads[j], Step(s, l).threads[j])
  {
  }

  lemma ContinueShape(r: Ring, t: Thread)
    requires WellFormed(r) && Shape(t) && !t.pc.Asleep?
    requires t.pc.Idle? ==> t.next < |t.program|
    ensures Shape(Continue(r, t))
    ensures Inside(Continue(r, t).pc) <==>
            (Inside(t.pc) || t.pc.Lock? || t.pc.Woken?) && !(t.pc.Wait? || t.pc.Unlock? || t.pc.UnlockNull?)
  {
  }

  lemma ShapedStep(s: State, l: Label)
    requires Shaped(s) && Exclusive(s) && Enabled(s, l)
    ensures Shaped(Step(s, l)) && Exclusive(Step(s, l))
  {
    if l.Run? {
      ContinueShape(s.ring, s.threads[l.tid]);
    }
    forall j | 0 <= j < |s.threads|
      ensures Shape(Step(s, l).threads[j])
      ensures Inside(Step(s, l).threads[j].pc) <==> Step(s, l).lock == Some(j)
    {
      ThreadsAfter(s, l, j);
    }
  }

  lemma StoreIsInvisible(r: Ring, q: seq<Ptr>, x: Ptr)
    requires Represents(r, q) && |q| < |r.data| - 1
    ensures var r' := StoreRear(r, x); r'.(data := r'.data[r'.rear := NULL]) == r
  {
    assert r.data[r.rear] == NULL;
  }

  lemma ClearIsInvisible(r: Ring, q: seq<Ptr>)
    requires Represents(r, q) && q != []
    ensures var r' := ClearHead(r); r'.(data := r'.data[r'.front := q[0]]) == r
  {
    assert r.data[r.front] == q[0];
  }

  lemma AdvanceRearAdds(r: Ring, q: seq<Ptr>)
    requires WellFormed(r) && |q| < |r.data| - 1
    requires Represents(r.(data := r.data[r.rear := NULL]), q)
    ensures Represents(CountUp(AdvanceRear(r)), q + [r.data[r.rear]])
  {
    var r0 := r.(data := r.data[r.rear := NULL]);
    TestsDecide(r0, q);
    PushRepresents(r0, q, r.data[r.rear]);
    assert StoreRear(r0, r.data[r.rear]) == r;
  }

  lemma AdvanceFrontRemoves(r: Ring, q: seq<Ptr>, x: Ptr)
    requires WellFormed(r) && q != [] && r.data[r.front] == NULL
    requires Represents(r.(data := r.data[r.front := x]), q)
    ensures Represents(CountDown(AdvanceFront(r)), q[1..])
  {
    var r0 := r.(data := r.data[r.front := x]);
    TestsDecide(r0, q);
    PopRepresents(r0, q);
    assert ClearHead(r0) == r;
  }

  /** The contents after the statement of the thread inside. */
  function ContentsAfter(r: Ring, tid: nat, t: Thread, q: seq<Ptr>): Option<seq<Ptr>>
    requires WellFormed(r) && Shape(t)
  {
    var es := Effective(r, tid, t);
    if es == [] then Some(q) else Accept(q, es[0].op, es[0].ret, |r.data| - 1)
  }

  /** One statement of the thread inside, seen from the ring. */
  ghost predicate StatementKeeps(r: Ring, tid: nat, t: Thread, q: seq<Ptr>)
    requires WellFormed(r) && Shape(t) && Inside(t.pc)
  {
    && ContentsAfter(r, tid, t, q).Some?
    && var q', r', t' := ContentsAfter(r, tid, t, q).value, Effect(r, t), Continue(r, t);
    && WellFormed(r') && |r'.data| == |r.data| && Shape(t')
    && Represents(SettledBy(r', t'), q')
    && HolderKnows(r', t', q')
  }

  lemma TestKeeps(r: Ring, tid: nat, t: Thread, q: seq<Ptr>)
    requires WellFormed(r) && Shape(t) && t.pc.Test?
    requires Represents(r, q)
    ensures StatementKeeps(r, tid, t, q)
  {
    TestsDecide(r, q);
  }

  lemma AdvanceKeeps(r: Ring, tid: nat, t: Thread, q: seq<Ptr>)
    requires WellFormed(r) && Shape(t) && t.pc.Advance?
    requires Represents(SettledBy(r, t), q) && HolderKnows(r, t, q)
    ensures StatementKeeps(r, tid, t, q)
  {
    if Current(t).Push? {
      AdvanceRearAdds(r, q);
    } else {
      AdvanceFrontRemoves(r, q, t.temp);
    }
  }

  lemma OthersKeep(r: Ring, tid: nat, t: Thread, q: seq<Ptr>)
    requires WellFormed(r) && Shape(t) && Inside(t.pc) && !t.pc.Test? && !t.pc.Advance?
    requires Represents(SettledBy(r, t), q) && HolderKnows(r, t, q)
    ensures StatementKeeps(r, tid, t, q)
  {
    match t.pc
    case Store => StoreIsInvisible(r, q, Current(t).x);
    case Clear => ClearIsInvisible(r, q);
    case Read => assert r.data[r.front] == q[0];
    case _ =>
  }

  lemma HolderStep(r: Ring, tid: nat, t: Thread, q: seq<Ptr>)
    requires WellFormed(r) && Shape(t) && Inside(t.pc)
    requires Represents(SettledBy(r, t), q) && HolderKnows(r, t, q)
    ensures StatementKeeps(r, tid, t, q)
  {
    match t.pc
    case Test => TestKeeps(r, tid, t, q);
    case Advance => AdvanceKeeps(r, tid, t, q);
    case _ => OthersKeep(r, tid, t, q);
  }

  /** The events a transition appends to the log: none or one. */
  function Appended(s: State, l: Label): seq<Event>
    requires Enabled(s, l)
  {
    if l.Run? then Effective(s.ring, l.tid, s.threads[l.tid]) else []
  }

  lemma LogGrowsByAppended(s: State, l: Label)
    requires Enabled(s, l)
    ensures Step(s, l).log == s.log + Appended(s, l)
    ensures |Appended(s, l)| <= 1
    ensures Appended(s, l) != [] ==>
              && l.Run? && Inside(s.threads[l.tid].pc)
              && Appended(s, l)[0].tid == l.tid && Appended(s, l)[0].op == Current(s.threads[l.tid])
  {
  }

  lemma ReplayAppended(log: seq<Event>, es: seq<Event>, cap: nat)
    requires |es| <= 1
    ensures Replay(log + es, cap) ==
            if es == [] then Replay(log, cap)
            else match Replay(log, cap) case None => None case Some(q) => Accept(q, es[0].op, es[0].ret, cap)
  {
    if es == [] {
      assert log + es == log;
    } else {
      assert es == [es[0]];
      Append(log, es[0], cap);
    }
  }

  lemma EffectiveIsShort(r: Ring, tid: nat, t: Thread)
    requires WellFormed(r) && Shape(t)
    ensures |Effective(r, tid, t)| <= 1
  {
  }

  lemma ReplayEffective(log: seq<Event>, r: Ring, tid: nat, t: Thread, q: seq<Ptr>)
    requires WellFormed(r) && Shape(t)
    requires Replay(log, |r.data| - 1) == Some(q)
    ensures Replay(log + Effective(r, tid, t), |r.data| - 1) == ContentsAfter(r, tid, t, q)
  {
    EffectiveIsShort(r, tid, t);
    ReplayAppended(log, Effective(r, tid, t), |r.data| - 1);
  }

  lemma LogAfter(s: State, l: Label, q: seq<Ptr>)
    requires Enabled(s, l) && l.Run?
    requires Replay(s.log, |s.ring.data| - 1) == Some(q)
    ensures Replay(Step(s, l).log, |s.ring.data| - 1) == ContentsAfter(s.ring, l.tid, s.threads[l.tid], q)
  {
    ReplayEffective(s.log, s.ring, l.tid, s.threads[l.tid], q);
  }

  lemma OfAfter(s: State, l: Label, i: nat)
    requires Enabled(s, l)
    ensures Of(i, Step(s, l).log) == Of(i, s.log) + if i == l.tid then Appended(s, l) else []
  {
    LogGrowsByAppended(s, l);
    if Appended(s, l) == [] {
      assert Step(s, l).log == s.log;
    } else {
      assert Appended(s, l) == [Appended(s, l)[0]];
      OfAppend(i, s.log, Appended(s, l)[0]);
    }
  }

  /** What Settled looks at besides the ring itself: the holder, if any. */
  function Holder(s: State): Option<Thread>
    requires Shaped(s)
  {
    if s.lock.None? then None else Some(s.threads[s.lock.value])
  }

  lemma HolderAfterInside(s: State, l: Label)
    requires Shaped(s) && Exclusive(s) && Enabled(s, l) && l.Run? && Inside(s.threads[l.tid].pc)
    ensures Shaped(Step(s, l))
    ensures Holder(s) == Some(s.threads[l.tid])
    ensures var t' := Continue(s.ring, s.threads[l.tid]);
            Holder(Step(s, l)) == Some(t') || (Holder(Step(s, l)) == None && !Inside(t'.pc))
  {
    ShapedStep(s, l);
    ThreadsAfter(s, l, l.tid);
  }

  lemma HolderAfterOutside(s: State, l: Label)
    requires Shaped(s) && Exclusive(s) && Enabled(s, l) && (l.Run? ==> !Inside(s.threads[l.tid].pc))
    ensures Shaped(Step(s, l))
    ensures Step(s, l).ring == s.ring && Step(s, l).log == s.log
    ensures Holder(Step(s, l)) == Holder(s) ||
            (Holder(s) == None && Holder(Step(s, l)).Some? && Holder(Step(s, l)).value.pc.Test?)
  {
    ShapedStep(s, l);
    ThreadsAfter(s, l, l.tid);
    if s.lock.Some? {
      ThreadsAfter(s, l, s.lock.value);
    }
  }

  /** The invariant of the ring, told from the thread that was just inside. */
  lemma AgreesByThread(s: State, r: Ring, t: Thread, q: seq<Ptr>)
    requires WellFormed(r) && Shaped(s) && Shape(t)
    requires s.ring == r
    requires Holder(s) == Some(t) || (Holder(s) == None && !Inside(t.pc))
    requires Replay(s.log, |r.data| - 1) == Some(q)
    requires Represents(SettledBy(r, t), q) && HolderKnows(r, t, q)
    ensures RingAgrees(s)
  {
  }

  /** What a thread's statement leaves behind, in the terms of StatementKeeps. */
  lemma StatementResult(r: Ring, tid: nat, t: Thread, q: seq<Ptr>) returns (r': Ring, t': Thread, q': seq<Ptr>)
    requires WellFormed(r) && Shape(t) && Inside(t.pc)
    requires Represents(SettledBy(r, t), q) && HolderKnows(r, t, q)
    ensures r' == Effect(r, t) && t' == Continue(r, t) && ContentsAfter(r, tid, t, q) == Some(q')
    ensures WellFormed(r') && |r'.data| == |r.data| && Shape(t')
    ensures Represents(SettledBy(r', t'), q') && HolderKnows(r', t', q')
  {
    HolderStep(r, tid, t, q);
    r', t', q' := Effect(r, t), Continue(r, t), ContentsAfter(r, tid, t, q).value;
  }

  lemma RingStepInside(s: State, l: Label)
    requires Exclusive(s) && RingAgrees(s) && Enabled(s, l) && l.Run? && Inside(s.threads[l.tid].pc)
    ensures RingAgrees(Step(s, l))
  {
    SafeReplays(s);
    HolderAfterInside(s, l);
    LogAfter(s, l, Contents(s));
    var r', t', q' := StatementResult(s.ring, l.tid, s.threads[l.tid], Contents(s));
    AgreesByThread(Step(s, l), r', t', q');
  }

  lemma RingStep(s: State, l: Label)
    requires Exclusive(s) && RingAgrees(s) && Enabled(s, l)
    ensures RingAgrees(Step(s, l))
  {
    if l.Run? && Inside(s.threads[l.tid].pc) {
      RingStepInside(s, l);
    } else {
      HolderAfterOutside(s, l);
    }
  }

  lemma AccountsStep(r: Ring, tid: nat, t: Thread, es: seq<Event>)
    requires WellFormed(r) && Shape(t) && !t.pc.Asleep? && Accounts(t, es)
    requires t.pc.Idle? ==> t.next < |t.program|
    ensures Accounts(Continue(r, t), es + Effective(r, tid, t))
  {
  }

  lemma BystanderAccounts(t: Thread, t': Thread, es: seq<Event>)
    requires Bystander(t, t') && Accounts(t, es)
    ensures Accounts(t', es)
  {
  }

  lemma LogStep(s: State, l: Label)
    requires LogAgrees(s) && Enabled(s, l)
    ensures LogAgrees(Step(s, l))
  {
    var s' := Step(s, l);
    forall j | 0 <= j < |s.threads| ensures Accounts(s'.threads[j], Of(j, s'.log)) {
      ThreadsAfter(s, l, j);
      OfAfter(s, l, j);
      var es := Of(j, s.log);
      if j == l.tid && l.Run? {
        AccountsStep(s.ring, j, s.threads[j], es);
      } else {
        BystanderAccounts(s.threads[j], s'.threads[j], es);
        assert es + [] == es;
      }
    }
  }

  lemma InitSafe(n: nat, programs: seq<seq<Op>>)
    requires 2 <= n
    ensures Safe(Init(n, programs))
  {
    EmptyRepresents(n);
  }

  lemma ProgramsStep(s: State, l: Label)
    requires Enabled(s, l)
    ensures |Step(s, l).threads| == |s.threads|
    ensures forall i :: 0 <= i < |s.threads| ==> Step(s, l).threads[i].program == s.threads[i].program
    ensures WellFormed(Step(s, l).ring) && |Step(s, l).ring.data| == |s.ring.data|
  {
  }

  lemma SafeStep(s: State, l: Label)
    requires Safe(s) && Enabled(s, l)
    ensures Safe(Step(s, l))
  {
    ShapedStep(s, l);
    RingStep(s, l);
    LogStep(s, l);
  }

  /** Same slots, same threads, same programs. */
  predicate SameSetting(s: State, s': State) {
    && |s'.ring.data| == |s.ring.data|
    && |s'.threads| == |s.threads|
    && forall i :: 0 <= i < |s.threads| ==> s'.threads[i].program == s.threads[i].program
  }

  lemma {:induction false} SettingExec(s: State, run: seq<Label>)
    requires Legal(s, run)
    ensures SameSetting(s, Exec(s, run))
    decreases |run|
  {
    if run == [] {
    } else {
      ProgramsStep(s, run[0]);
      SettingExec(Step(s, run[0]), run[1..]);
    }
  }

  lemma {:induction false} SafeExec(s: State, run: seq<Label>)
    requires Safe(s) && Legal(s, run)
    ensures Safe(Exec(s, run))
    decreases |run|
  {
    if run == [] {
    } else {
      SafeStep(s, run[0]);
      SafeExec(Step(s, run[0]), run[1..]);
    }
  }

  /** Every state of every run satisfies the invariants. */
  lemma ReachedIsSafe(n: nat, programs: seq<seq<Op>>, run: seq<Label>, s: State)
    requires Reached(n, programs, run, s)
    ensures Safe(s)
  {
    InitSafe(n, programs);
    SafeExec(Init(n, programs), run);
  }

  lemma ReachedSetting(n: nat, programs: seq<seq<Op>>, run: seq<Label>, s: State)
    requires Reached(n, programs, run, s)
    ensures |s.ring.data| == n
    ensures |s.threads| == |programs|
    ensures forall i :: 0 <= i < |programs| ==> s.threads[i].program == programs[i]
  {
    SettingExec(Init(n, programs), run);
  }

  lemma ReachedSize(n: nat, programs: seq<seq<Op>>, run: seq<Label>, s: State)
    requires Reached(n, programs, run, s)
    ensures |s.ring.data| == n
  {
    ReachedSetting(n, programs, run, s);
  }

  // One invariant at a time, for proofs that need no more.

  lemma ReachedExclusive(n: nat, programs: seq<seq<Op>>, run: seq<Label>, s: State)
    requires Reached(n, programs, run, s)
    ensures Shaped(s) && Exclusive(s)
  {
    ReachedIsSafe(n, programs, run, s);
  }

  lemma SafeReplays(s: State)
    requires RingAgrees(s)
    ensures Replay(s.log, |s.ring.data| - 1) == Some(Contents(s))
  {
  }

  lemma ReachedRingAgrees(n: nat, programs: seq<seq<Op>>, run: seq<Label>, s: State)
    requires Reached(n, programs, run, s)
    ensures RingAgrees(s)
  {
    ReachedIsSafe(n, programs, run, s);
  }

  lemma ReachedReplays(n: nat, programs: seq<seq<Op>>, run: seq<Label>, s: State)
    requires Reached(n, programs, run, s)
    ensures WellFormed(s.ring) && Replay(s.log, |s.ring.data| - 1) == Some(Contents(s))
  {
    ReachedRingAgrees(n, programs, run, s);
    SafeReplays(s);
  }

  lemma ReachedRing(n: nat, programs: seq<seq<Op>>, run: seq<Label>, s: State)
    requires Reached(n, programs, run, s)
    ensures |s.ring.data| == n && WellFormed(s.ring)
    ensures Replay(s.log, n - 1) == Some(Contents(s))
  {
    ReachedSize(n, programs, run, s);
    ReachedReplays(n, programs, run, s);
  }

  lemma SettledLength(s: State)
    requires RingAgrees(s)
    ensures Len(s.ring) == |Contents(s)|
    ensures WellFormed(Settled(s)) && Items(Settled(s)) == Contents(s)
  {
    ItemsOfRepresentation(Settled(s), Contents(s));
  }

  /** The contents, from the indices and the slots the ring has in any reachable
      state, mid-call states included. */
  lemma ReachedLength(n: nat, programs: seq<seq<Op>>, run: seq<Label>, s: State)
    requires Reached(n, programs, run, s)
    ensures Shaped(s) && WellFormed(s.ring) && |s.ring.data| == n
    ensures Len(s.ring) == |Contents(s)| == (s.ring.rear - s.ring.front) % n
    ensures WellFormed(Settled(s)) && Items(Settled(s)) == Contents(s)
  {
    ReachedSize(n, programs, run, s);
    ReachedRingAgrees(n, programs, run, s);
    SettledLength(s);
    DistanceIsModular(s.ring.front, s.ring.rear, n);
  }

  lemma ReachedAccounts(n: nat, programs: seq<seq<Op>>, run: seq<Label>, s: State, i: nat)
    requires Reached(n, programs, run, s) && i < |programs|
    ensures i < |s.threads| && Accounts(s.threads[i], Of(i, s.log))
  {
    ReachedSetting(n, programs, run, s);
    ReachedIsSafe(n, programs, run, s);
  }

  /** With the mutex free nothing is half done. */
  lemma FreeRingRepresents(n: nat, programs: seq<seq<Op>>, run: seq<Label>, s: State)
    requires Reached(n, programs, run, s) && s.lock.None?
    ensures WellFormed(s.ring) && Represents(s.ring, Contents(s))
  {
    ReachedIsSafe(n, programs, run, s);
  }
}
