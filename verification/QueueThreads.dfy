/** Any number of threads making calls on one shared queue, as a transition
    system. Each program counter stands for one statement of pokaqueue.c, and
    one transition executes that statement for one thread.

    The mutex and the two condition variables behave as POSIX.1-2017 (System
    Interfaces volume) says: pthread_cond_wait releases the mutex and falls
    asleep in one step, and may return without a signal; pthread_cond_signal
    wakes at least one of the threads asleep on that condition variable, if
    there are any; a woken thread competes for the mutex like any other. */
module QueueThreads {
  import opened RingBuffer
  import opened BoundedFifo

  datatype Pc =
    | Idle       // outside the queue, before its next call or finished
    | Lock       // at pthread_mutex_lock                       (59, 83, 101)
    | Test       // at the while guard                          (61, 84, 102)
    | Wait       // at pthread_cond_wait, still holding         (64, 87)
    | Asleep     // inside pthread_cond_wait, not signalled     (64, 87)
    | Woken      // inside pthread_cond_wait, wants the mutex   (64, 87)
    | Store      // at data[rear] = x                           (67)
    | Read       // at temp = data[front]                       (90, 108)
    | Clear      // at data[front] = 0                          (91, 109)
    | Advance    // at the update of rear or front              (68, 92, 110)
    | Tally      // at count++ or count--                       (69, 93, 111)
    | Signal     // at pthread_cond_signal                      (70, 94, 112)
    | Unlock     // at pthread_mutex_unlock and return          (71, 95, 113)
    | UnlockNull // at the early unlock and return NULL         (104)

  /** A thread makes the calls of its program in order. waited tells whether the
      call in progress has already been asleep; temp is the local variable of the
      pops; returned lists what the finished calls gave back. */
  datatype Thread = Thread(program: seq<Op>, next: nat, pc: Pc, waited: bool, temp: Ptr, returned: seq<Ret>)

  /** lock is the holder of the mutex. log is bookkeeping that no thread reads:
      the operations in the order in which they took effect. */
  datatype State = State(ring: Ring, lock: Option<nat>, threads: seq<Thread>, log: seq<Event>)

  /** Run(i, wake): thread i executes its statement; wake is the set of threads
      its signal wakes, empty at every other statement.
      Spurious(i): thread i comes out of its sleep without a signal. */
  datatype Label = Run(tid: nat, wake: set<nat>) | Spurious(tid: nat)

  function Start(program: seq<Op>): Thread {
    Thread(program, 0, Idle, false, NULL, [])
  }

  function Init(n: nat, programs: seq<seq<Op>>): State {
    State(EmptyRing(n), None, seq(|programs|, i requires 0 <= i < |programs| => Start(programs[i])), [])
  }

  predicate Finished(t: Thread) {
    t.pc.Idle? && t.next >= |t.program|
  }

  /** A statement belongs to the call being made. */
  predicate Shape(t: Thread) {
    if t.pc.Idle? then t.next <= |t.program|
    else
      && t.next < |t.program|
      && (t.pc.Wait? || t.pc.Asleep? || t.pc.Woken? ==> !t.program[t.next].TryPop?)
      && (t.pc.Asleep? || t.pc.Woken? ==> t.waited)
      && (t.pc.Store? ==> t.program[t.next].Push?)
      && (t.pc.Read? || t.pc.Clear? ==> !t.program[t.next].Push?)
      && (t.pc.UnlockNull? ==> t.program[t.next].TryPop?)
  }

  function Current(t: Thread): Op
    requires t.next < |t.program|
  {
    t.program[t.next]
  }

  /** t sleeps on the condition variable that a call of op signals. */
  predicate WokenBy(t: Thread, op: Op) {
    && t.pc.Asleep?
    && t.next < |t.program|
    && if op.Push? then Current(t).Pop? else Current(t).Push?
  }

  predicate LegalWake(threads: seq<Thread>, op: Op, wake: set<nat>) {
    && (forall j :: j in wake ==> j < |threads| && WokenBy(threads[j], op))
    && ((exists j :: 0 <= j < |threads| && WokenBy(threads[j], op)) ==> wake != {})
  }

  predicate Enabled(s: State, l: Label) {
    && WellFormed(s.ring)
    && l.tid < |s.threads|
    && var t := s.threads[l.tid];
    && Shape(t)
    && match l
       case Spurious(_) => t.pc.Asleep?
       case Run(_, wake) =>
         match t.pc
         case Idle => wake == {} && t.next < |t.program|
         case Asleep => false
         case Lock => wake == {} && s.lock.None?
         case Woken => wake == {} && s.lock.None?
         case Signal => LegalWake(s.threads, Current(t), wake)
         case _ => wake == {}
  }

  function Rouse(t: Thread, woken: bool): Thread {
    if woken then t.(pc := Woken) else t
  }

  /** The threads after those in wake have been woken. */
  function WakeUp(threads: seq<Thread>, wake: set<nat>): (woken: seq<Thread>)
    ensures |woken| == |threads|
    ensures forall j {:trigger woken[j]} :: 0 <= j < |threads| ==> woken[j] == Rouse(threads[j], j in wake)
  {
    if threads == [] then []
    else
      var last := |threads| - 1;
      WakeUp(threads[..last], wake) + [Rouse(threads[last], last in wake)]
  }

  /** What the thread itself becomes by executing its statement. */
  function Continue(r: Ring, t: Thread): Thread
    requires WellFormed(r) && Shape(t) && !t.pc.Asleep?
    requires t.pc.Idle? ==> t.next < |t.program|
  {
    var op := Current(t);
    match t.pc
    case Idle => t.(pc := Lock)
    case Lock => t.(pc := Test)
    case Test =>
      if op.Push? then t.(pc := if IsFull(r) then Wait else Store)
      else if !IsEmpty(r) then t.(pc := Read)
      else t.(pc := if op.Pop? then Wait else UnlockNull)
    case Wait => t.(pc := Asleep, waited := true)
    case Woken => t.(pc := Test)
    case Store => t.(pc := Advance)
    case Read => t.(pc := Clear, temp := Head(r))
    case Clear => t.(pc := Advance)
    case Advance => t.(pc := Tally)
    case Tally => t.(pc := Signal)
    case Signal => t.(pc := Unlock)
    case Unlock =>
      t.(pc := Idle, next := t.next + 1, waited := false, returned := t.returned + [if op.Push? then Sucess else Got(t.temp)])
    case UnlockNull =>
      t.(pc := Idle, next := t.next + 1, waited := false, returned := t.returned + [Nothing])
  }

  /** What the statement does to the fields of the queue. */
  function Effect(r: Ring, t: Thread): Ring
    requires WellFormed(r) && Shape(t)
  {
    match t.pc
    case Store => StoreRear(r, Current(t).x)
    case Clear => ClearHead(r)
    case Advance => if Current(t).Push? then AdvanceRear(r) else AdvanceFront(r)
    case Tally => if Current(t).Push? then CountUp(r) else CountDown(r)
    case _ => r
  }

  /** A call takes effect when it moves its index, or when a non-waiting pop
      finds the queue empty. */
  function Effective(r: Ring, tid: nat, t: Thread): seq<Event>
    requires WellFormed(r) && Shape(t)
  {
    match t.pc
    case Advance => [Event(tid, Current(t), if Current(t).Push? then Sucess else Got(t.temp))]
    case Test => if Current(t).TryPop? && IsEmpty(r) then [Event(tid, TryPop, Nothing)] else []
    case _ => []
  }

  function LockAfter(lock: Option<nat>, tid: nat, pc: Pc): Option<nat> {
    if pc.Lock? || pc.Woken? then Some(tid)
    else if pc.Wait? || pc.Unlock? || pc.UnlockNull? then None
    else lock
  }

  function Step(s: State, l: Label): State
    requires Enabled(s, l)
  {
    var t := s.threads[l.tid];
    match l
    case Spurious(i) => s.(threads := s.threads[i := t.(pc := Woken)])
    case Run(i, wake) =>
      State(
        Effect(s.ring, t),
        LockAfter(s.lock, i, t.pc),
        WakeUp(s.threads, wake)[i := Continue(s.ring, t)],
        s.log + Effective(s.ring, i, t))
  }

  /** Every label of the run is enabled when its turn comes. */
  predicate Legal(s: State, run: seq<Label>)
    decreases |run|
  {
    run != [] ==> Enabled(s, run[0]) && Legal(Step(s, run[0]), run[1..])
  }

  function Exec(s: State, run: seq<Label>): State
    requires Legal(s, run)
    decreases |run|
  {
    if run == [] then s else Exec(Step(s, run[0]), run[1..])
  }

  /** s is reached from the initialised queue by the given run. */
  predicate Reached(n: nat, programs: seq<seq<Op>>, run: seq<Label>, s: State) {
    2 <= n && Legal(Init(n, programs), run) && s == Exec(Init(n, programs), run)
  }

  /** The thread sits between taking the mutex and giving it back. */
  predicate Inside(pc: Pc) {
    !(pc.Idle? || pc.Lock? || pc.Asleep? || pc.Woken?)
  }

  lemma WakeNobody(threads: seq<Thread>)
    ensures WakeUp(threads, {}) == threads
  {
  }
}
