/** What the schedule may do to any thread in any state, and what a thread's
    program counter and flag tell about the run that led there. */
module QueueHistory {
  import opened RingBuffer
  import opened BoundedFifo
  import opened QueueThreads
  import opened QueueSafety

  // --------------------------------------------------- freedom of the schedule

  /** A signal may wake any threads asleep on its condition, one, several or all:
      pops for a push, pushes for either pop; and none only if there are none. Those
      woken become candidates for the mutex, everybody else stays as it is. */
  lemma SignalMayWakeAny(s: State, i: nat, wake: set<nat>)
    requires WellFormed(s.ring) && i < |s.threads| && Shape(s.threads[i]) && s.threads[i].pc.Signal?
    ensures Enabled(s, Run(i, wake)) <==>
            && (forall j :: j in wake ==>
                              && j < |s.threads| && s.threads[j].pc.Asleep?
                              && s.threads[j].next < |s.threads[j].program|
                              && if Current(s.threads[i]).Push? then Current(s.threads[j]).Pop?
                                 else Current(s.threads[j]).Push?)
            && (wake == {} ==>
                  forall j :: 0 <= j < |s.threads| && s.threads[j].pc.Asleep? &&
                              s.threads[j].next < |s.threads[j].program| ==>
                                if Current(s.threads[i]).Push? then !Current(s.threads[j]).Pop?
                                else !Current(s.threads[j]).Push?)
    ensures Enabled(s, Run(i, wake)) ==>
              var s' := Step(s, Run(i, wake));
              && |s'.threads| == |s.threads|
              && s'.threads[i] == s.threads[i].(pc := Unlock)
              && (forall j :: 0 <= j < |s.threads| && j != i ==>
                                s'.threads[j] == if j in wake then s.threads[j].(pc := Woken) else s.threads[j])
              && s'.ring == s.ring && s'.lock == s.lock && s'.log == s.log
  {
  }

  /** Any sleep may end without a signal, and nothing else changes by it. */
  lemma AnySleepMayEndSpuriously(s: State, i: nat)
    requires WellFormed(s.ring) && i < |s.threads| && Shape(s.threads[i])
    ensures Enabled(s, Spurious(i)) <==> s.threads[i].pc.Asleep?
    ensures Enabled(s, Spurious(i)) ==>
              Step(s, Spurious(i)) == s.(threads := s.threads[i := s.threads[i].(pc := Woken)])
  {
  }

  /** A free mutex may go to any thread that wants it, newly arrived or woken; a
      sleeping thread does not run; every other statement can be executed at once. */
  lemma AnyoneMayGoOn(s: State, i: nat)
    requires WellFormed(s.ring) && i < |s.threads| && Shape(s.threads[i]) && !s.threads[i].pc.Signal?
    ensures Enabled(s, Run(i, {})) <==>
            match s.threads[i].pc
            case Idle => s.threads[i].next < |s.threads[i].program|
            case Lock => s.lock.None?
            case Woken => s.lock.None?
            case Asleep => false
            case _ => true
    ensures forall wake :: wake != {} ==> !Enabled(s, Run(i, wake))
  {
  }

  // ------------------------------------------------------ who has been asleep

  /** The run, started in s, contains a pthread_cond_wait of thread i in its call
      number k. */
  predicate WaitsInCall(s: State, run: seq<Label>, i: nat, k: nat)
    requires Legal(s, run)
    decreases |run|
  {
    run != [] &&
    var l := run[0];
    || (l.Run? && l.tid == i && s.threads[i].pc.Wait? && s.threads[i].next == k)
    || WaitsInCall(Step(s, l), run[1..], i, k)
  }

  lemma {:induction false} CallsOnlyAdvance(s: State, run: seq<Label>, i: nat)
    requires Legal(s, run) && i < |s.threads|
    ensures i < |Exec(s, run).threads| && s.threads[i].next <= Exec(s, run).threads[i].next
    decreases |run|
  {
    if run == [] {
    } else {
      ThreadsAfter(s, run[0], i);
      CallsOnlyAdvance(Step(s, run[0]), run[1..], i);
    }
  }

  /** The flag waited says exactly that the call in progress has been asleep, since
      the run began or, as the flag has it, before. */
  lemma {:induction false} FlagTellsWaits(s: State, run: seq<Label>, i: nat)
    requires Legal(s, run) && i < |s.threads| && (s.threads[i].pc.Idle? ==> !s.threads[i].waited)
    ensures i < |Exec(s, run).threads|
    ensures var t, t' := s.threads[i], Exec(s, run).threads[i];
            t'.waited <==> WaitsInCall(s, run, i, t'.next) || (t.waited && t.next == t'.next)
    decreases |run|
  {
    if run == [] {
    } else {
      ThreadsAfter(s, run[0], i);
      FlagTellsWaits(Step(s, run[0]), run[1..], i);
      CallsOnlyAdvance(Step(s, run[0]), run[1..], i);
    }
  }

  /** From init on: a thread carries the flag if and only if it has executed
      pthread_cond_wait in the very call in progress. */
  lemma WaitedIffItWaited(n: nat, programs: seq<seq<Op>>, run: seq<Label>, s: State, i: nat)
    requires Reached(n, programs, run, s) && i < |programs|
    ensures i < |s.threads|
    ensures s.threads[i].waited <==> WaitsInCall(Init(n, programs), run, i, s.threads[i].next)
  {
    FlagTellsWaits(Init(n, programs), run, i);
  }
}
