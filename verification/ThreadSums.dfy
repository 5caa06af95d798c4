/** Adding up a quantity over all threads, and how the sum moves when threads change. */
module ThreadSums {
  import opened QueueThreads

  function Sum(ts: seq<Thread>, f: Thread -> nat): nat {
    if ts == [] then 0 else Sum(ts[..|ts| - 1], f) + f(ts[|ts| - 1])
  }

  lemma {:induction false} SumOfOneChange(ts: seq<Thread>, i: nat, t: Thread, f: Thread -> nat)
    requires i < |ts|
    ensures Sum(ts[i := t], f) + f(ts[i]) == Sum(ts, f) + f(t)
    decreases |ts|
  {
    var ts' := ts[i := t];
    if i < |ts| - 1 {
      SumOfOneChange(ts[..|ts| - 1], i, t, f);
      assert ts'[..|ts| - 1] == ts[..|ts| - 1][i := t];
    } else {
      assert ts'[..|ts| - 1] == ts[..|ts| - 1];
    }
  }

  lemma {:induction false} SumIsMonotone(ts: seq<Thread>, ts': seq<Thread>, f: Thread -> nat)
    requires |ts| == |ts'|
    requires forall j :: 0 <= j < |ts| ==> f(ts[j]) <= f(ts'[j])
    ensures Sum(ts, f) <= Sum(ts', f)
    decreases |ts|
  {
    if ts == [] {
    } else {
      SumIsMonotone(ts[..|ts| - 1], ts'[..|ts| - 1], f);
    }
  }

  lemma SumIsStrictlyMonotone(ts: seq<Thread>, ts': seq<Thread>, f: Thread -> nat, i: nat)
    requires |ts| == |ts'| && i < |ts|
    requires forall j :: 0 <= j < |ts| ==> f(ts[j]) <= f(ts'[j])
    requires f(ts[i]) < f(ts'[i])
    ensures Sum(ts, f) < Sum(ts', f)
  {
    var mid := ts[i := ts'[i]];
    SumOfOneChange(ts, i, ts'[i], f);
    SumIsMonotone(mid, ts', f);
  }

  lemma SumOfEqual(ts: seq<Thread>, ts': seq<Thread>, f: Thread -> nat)
    requires |ts| == |ts'|
    requires forall j :: 0 <= j < |ts| ==> f(ts[j]) == f(ts'[j])
    ensures Sum(ts, f) == Sum(ts', f)
  {
    SumIsMonotone(ts, ts', f);
    SumIsMonotone(ts', ts, f);
  }

  lemma {:induction false} SumIsBounded(ts: seq<Thread>, f: Thread -> nat, bound: nat)
    requires forall j :: 0 <= j < |ts| ==> f(ts[j]) <= bound
    ensures Sum(ts, f) <= bound * |ts|
    decreases |ts|
  {
    if ts == [] {
    } else {
      SumIsBounded(ts[..|ts| - 1], f, bound);
      assert bound * |ts| == bound * (|ts| - 1) + bound;
    }
  }

  lemma SumOfZeros(ts: seq<Thread>, f: Thread -> nat)
    requires forall j :: 0 <= j < |ts| ==> f(ts[j]) == 0
    ensures Sum(ts, f) == 0
  {
    SumIsBounded(ts, f, 0);
  }

  lemma SumHasPositiveTerm(ts: seq<Thread>, f: Thread -> nat, i: nat)
    requires i < |ts| && f(ts[i]) > 0
    ensures Sum(ts, f) > 0
    decreases |ts|
  {
    if i == |ts| - 1 {
    } else {
      SumHasPositiveTerm(ts[..|ts| - 1], f, i);
    }
  }

  /** The sum of a quantity that is 0 or 1 counts the threads at which it is 1. */
  lemma {:induction false} SumIsCount(ts: seq<Thread>, f: Thread -> nat)
    requires forall j :: 0 <= j < |ts| ==> f(ts[j]) <= 1
    ensures Sum(ts, f) == |set j: nat | j < |ts| && f(ts[j]) == 1|
    decreases |ts|
  {
    var last := |ts| - 1;
    var counted := set j: nat | j < |ts| && f(ts[j]) == 1;
    if ts == [] {
      assert counted == {};
    } else {
      SumIsCount(ts[..last], f);
      var before := set j: nat | j < last && f(ts[..last][j]) == 1;
      assert counted == before + if f(ts[last]) == 1 then {last} else {};
    }
  }
}
