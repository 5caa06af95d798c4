/** date_cut_thread: connect with back-off, load the record, then one tick after
    another. The endless loops are run over finite lists of what they meet. */
module DateCutThread {
  import opened DateCut
  import opened DateCutRuns

  // ---------------------------------------------------------------- back-off

  /** The sleep requested so far, in units of ten seconds, after n failures. */
  function SleepUnits(n: nat): nat {
    if n == 0 then 0 else SleepUnits(n - 1) + n % 180
  }

  /** 0 + 1 + ... + (r - 1). */
  function SumBelow(r: nat): nat {
    if r == 0 then 0 else SumBelow(r - 1) + (r - 1)
  }

  lemma {:induction false} SumBelowClosedForm(r: nat)
    ensures SumBelow(r) == r * (r - 1) / 2
  {
    if r == 0 {
    } else {
      SumBelowClosedForm(r - 1);
      assert r * (r - 1) == (r - 1) * (r - 2) + 2 * (r - 1);
    }
  }

  /** Counting one further in rounds of 180. */
  lemma NextInRound(n: nat)
    ensures n % 180 < 179 ==> (n + 1) / 180 == n / 180 && (n + 1) % 180 == n % 180 + 1
    ensures n % 180 == 179 ==> (n + 1) / 180 == n / 180 + 1 && (n + 1) % 180 == 0
  {
  }

  lemma {:induction false} SleepUnitsInRounds(n: nat)
    ensures SleepUnits(n) == (n + 1) / 180 * 16110 + SumBelow((n + 1) % 180)
  {
    if n == 0 {
    } else {
      SleepUnitsInRounds(n - 1);
      NextInRound(n);
      SumBelowClosedForm(179);
    }
  }

  /** The total in closed form: 180 failures make one round of 16110 units, whose
      last attempt follows at once, the multiplier having wrapped to zero. */
  lemma SleepUnitsClosedForm(n: nat)
    ensures var q, r := (n + 1) / 180, (n + 1) % 180;
            SleepUnits(n) == q * 16110 + r * (r - 1) / 2
  {
    SleepUnitsInRounds(n);
    SumBelowClosedForm((n + 1) % 180);
  }

  /** answers[k] tells whether attempt k+1 connects. failures is the number of
      sleeps; sleepTime the multiplier left behind, for the next attempt if the
      answers ran out. */
  method ConnectLoop(answers: seq<bool>) returns (connected: bool, failures: nat, sleepTime: nat, slept: nat)
    ensures failures <= |answers|
    ensures forall k :: 0 <= k < failures ==> !answers[k]
    ensures connected <==> failures < |answers|
    ensures connected ==> answers[failures]
    ensures sleepTime == (1 + failures) % 180
    ensures slept == 10 * SleepUnits(failures)
  {
    sleepTime := 1;
    failures, slept := 0, 0;
    while failures < |answers|
      invariant failures <= |answers|
      invariant forall k :: 0 <= k < failures ==> !answers[k]
      invariant sleepTime == (1 + failures) % 180
      invariant slept == 10 * SleepUnits(failures)
    {
      if answers[failures] {
        break;
      }
      NextInRound(1 + failures);
      assert SleepUnits(failures + 1) == SleepUnits(failures) + sleepTime;
      slept := slept + 10 * sleepTime;
      sleepTime := sleepTime + 1;
      sleepTime := sleepTime % 180;
      failures := failures + 1;
    }
    connected := failures < |answers|;
  }

  // -------------------------------------------------------------- the thread

  /** The whole thread: nothing is touched before the connection stands; then the
      record is loaded and follows the samples, in step with the table; and the
      status, all that other threads ask for, is the latest verdict of the clock. */
  method DateCutThread(p: DateCutProcess, answers: seq<bool>, d1: nat, d2: nat, t: nat, samples: seq<Sample>)
    returns (connected: bool)
    modifies p, p.table
    ensures connected <==> exists k :: 0 <= k < |answers| && answers[k]
    ensures !connected ==> p.Here() == old(p.Here())
    ensures connected ==> Synced(p.Here())
    ensures connected ==> p.Mem() == Ticks(InitWorld(old(p.Here()), d1, d2, t).mem, samples)
    ensures connected ==> (Started(p.Mem()) <==> LatestVerdictIsStart(InitWorld(old(p.Here()), d1, d2, t).mem, samples))
  {
    var failures, sleepTime, slept;
    connected, failures, sleepTime, slept := ConnectLoop(answers);
    if !connected {
      return;
    }
    var code := p.InitDateCut(d1, d2, t);
    ghost var loaded := p.Mem();
    var i := 0;
    while i < |samples|
      invariant 0 <= i <= |samples|
      invariant Synced(p.Here())
      invariant p.Mem() == Ticks(loaded, samples[..i])
    {
      TickKeepsSynced(p.Here(), samples[i]);
      assert samples[..i + 1][..i] == samples[..i];
      code := p.UpdateDateCup(samples[i]);
      i := i + 1;
    }
    assert samples[..i] == samples;
    StatusIsLatestVerdict(loaded, samples);
  }

  /** A process from its start: another thread asks is_date_cut after its date-cut
      thread has met these answers and samples. Until the database has answered,
      the answer is ERROR, whatever the clock says and the table holds; afterwards
      it is the verdict on the record loaded. */
  method AskNewProcess(table: Table, answers: seq<bool>, d1: nat, d2: nat, t: nat, samples: seq<Sample>)
    returns (code: int)
    modifies table
    ensures (forall k :: 0 <= k < |answers| ==> !answers[k]) ==>
              code == -1 && table.rows == old(table.rows) && table.nextId == old(table.nextId)
    ensures (exists k :: 0 <= k < |answers| && answers[k]) ==>
              var w := InitWorld(World(Record(0, 0, 0, 0, 0, 0), old(table.rows), old(table.nextId)), d1, d2, t);
              code == if LatestVerdictIsStart(w.mem, samples) then 0 else -1
  {
    var p := new DateCutProcess(table);
    var connected := DateCutThread(p, answers, d1, d2, t, samples);
    code := p.IsDateCut();
  }
}
