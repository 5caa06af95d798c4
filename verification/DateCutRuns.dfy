/** Whole runs of the date cut: what the status means, when the dates roll over,
    how often, and why restarts do not show. */
module DateCutRuns {
  import opened DateCut

  function Ticks(r: Record, ss: seq<Sample>): Record {
    if ss == [] then r else Tick(Ticks(r, ss[..|ss| - 1]), ss[|ss| - 1])
  }

  lemma {:induction false} WindowIsFixed(r: Record, ss: seq<Sample>)
    ensures var r' := Ticks(r, ss); r'.id == r.id && r'.cuttime == r.cuttime && r'.endtime == r.endtime
  {
    if ss == [] {
    } else {
      WindowIsFixed(r, ss[..|ss| - 1]);
    }
  }

  // ---------------------------------------------------------------- restarts

  /** What can happen between two looks at the record: a tick; a restart of the
      process; or a tick cut short after the change in memory and before the
      UPDATE, with the restart that follows. The numbers of a restart are the
      clock readings of its init_date_cut. */
  datatype Event =
    | Ticked(s: Sample)
    | Restarted(d1: nat, d2: nat, t: nat)
    | CutShort(s: Sample, d1: nat, d2: nat, t: nat)

  /** A new process starts with a blank record. */
  function Reboot(w: World, d1: nat, d2: nat, t: nat): World {
    InitWorld(w.(mem := Record(0, 0, 0, 0, 0, 0)), d1, d2, t)
  }

  function After(w: World, e: Event): World {
    match e
    case Ticked(s) => TickWorld(w, s)
    case Restarted(d1, d2, t) => Reboot(w, d1, d2, t)
    case CutShort(s, d1, d2, t) => Reboot(w.(mem := Tick(w.mem, s)), d1, d2, t)
  }

  function AfterAll(w: World, es: seq<Event>): World {
    if es == [] then w else After(AfterAll(w, es[..|es| - 1]), es[|es| - 1])
  }

  /** The samples of the ticks that ran to their end. */
  function Completed(es: seq<Event>): seq<Sample> {
    if es == [] then []
    else Completed(es[..|es| - 1]) + if es[|es| - 1].Ticked? then [es[|es| - 1].s] else []
  }

  /** Restarts are transparent: however they are placed, memory and table agree
      after every event, and the record is the one an uninterrupted process would
      have after the completed ticks. A tick cut short counts as not taken. */
  lemma {:induction false} RestartsAreTransparent(w: World, es: seq<Event>)
    requires Synced(w)
    ensures Synced(AfterAll(w, es))
    ensures AfterAll(w, es).mem == Ticks(w.mem, Completed(es))
  {
    if es == [] {
    } else {
      var front, e := es[..|es| - 1], es[|es| - 1];
      RestartsAreTransparent(w, front);
      if e.Ticked? {
        TickKeepsSynced(AfterAll(w, front), e.s);
        assert Completed(es)[..|Completed(es)| - 1] == Completed(front);
      } else {
        assert Completed(es) == Completed(front);
      }
    }
  }

  // -------------------------------------------------------------- hysteresis

  /** One of the two times of a window that is not reversed. */
  predicate OnBoundary(r: Record, t: nat) {
    r.cuttime <= r.endtime && (t == r.cuttime || t == r.endtime)
  }

  /** The guards of the tick divide all times in three: strictly between the two
      times, on one of them, where the tick decides nothing, and the rest. A
      reversed window has no inside and no boundary. */
  lemma GuardsDivideTheDay(r: Record, t: nat)
    ensures InWindow(r, t) <==> r.cuttime < t < r.endtime
    ensures OutOfWindow(r, t) <==> !(r.cuttime < t < r.endtime) && !OnBoundary(r, t)
    ensures r.endtime < r.cuttime ==> OutOfWindow(r, t)
  {
  }

  /** The latest sample off the boundaries was inside the window; where there is
      none, the record had started to begin with. */
  ghost predicate LatestVerdictIsStart(r: Record, ss: seq<Sample>) {
    || (exists k :: 0 <= k < |ss| && r.cuttime < ss[k].t < r.endtime && forall j :: k < j < |ss| ==> OnBoundary(r, ss[j].t))
    || (Started(r) && forall j :: 0 <= j < |ss| ==> OnBoundary(r, ss[j].t))
  }

  lemma VerdictOfLast(r: Record, ss: seq<Sample>)
    requires ss != []
    ensures var s := ss[|ss| - 1];
            LatestVerdictIsStart(r, ss) <==>
            r.cuttime < s.t < r.endtime || (OnBoundary(r, s.t) && LatestVerdictIsStart(r, ss[..|ss| - 1]))
  {
  }

  /** Hysteresis: the status after any samples is the verdict of the latest one
      that lies on neither boundary, and the initial status without such a one. */
  lemma {:induction false} StatusIsLatestVerdict(r: Record, ss: seq<Sample>)
    ensures Started(Ticks(r, ss)) <==> LatestVerdictIsStart(r, ss)
  {
    if ss == [] {
    } else {
      StatusIsLatestVerdict(r, ss[..|ss| - 1]);
      WindowIsFixed(r, ss[..|ss| - 1]);
      VerdictOfLast(r, ss);
    }
  }

  lemma {:induction false} StatusIsZeroOrOne(r: Record, ss: seq<Sample>)
    requires r.status == 0 || r.status == 1
    ensures Ticks(r, ss).status == 0 || Ticks(r, ss).status == 1
  {
    if ss == [] {
    } else {
      StatusIsZeroOrOne(r, ss[..|ss| - 1]);
    }
  }

  /** Hysteresis in plain comparisons of times. In a reversed window the first
      sample ends the cut for good. */
  lemma StatusInTimes(r: Record, ss: seq<Sample>)
    requires r.status == 0 || r.status == 1
    ensures Ticks(r, ss).status == 0 || Ticks(r, ss).status == 1
    ensures r.cuttime <= r.endtime ==>
              (Ticks(r, ss).status == 1 <==>
               || (exists k :: 0 <= k < |ss| && r.cuttime < ss[k].t < r.endtime &&
                               forall j :: k < j < |ss| ==> ss[j].t == r.cuttime || ss[j].t == r.endtime)
               || (r.status == 1 && forall j :: 0 <= j < |ss| ==> ss[j].t == r.cuttime || ss[j].t == r.endtime))
    ensures r.endtime < r.cuttime ==> (Ticks(r, ss).status == 1 <==> r.status == 1 && ss == [])
  {
    StatusIsZeroOrOne(r, ss);
    StatusIsLatestVerdict(r, ss);
    if ss != [] {
      VerdictOfLast(r, ss);
    }
  }

  /** A sample in front counts like an initial status. */
  lemma {:induction false} VerdictOfFirst(r: Record, r': Record, s: Sample, ss: seq<Sample>)
    requires !Started(r) && r'.cuttime == r.cuttime && r'.endtime == r.endtime
    requires Started(r') <==> r.cuttime < s.t < r.endtime
    ensures LatestVerdictIsStart(r, [s] + ss) <==> LatestVerdictIsStart(r', ss)
    decreases |ss|
  {
    var all := [s] + ss;
    VerdictOfLast(r, all);
    if ss == [] {
    } else {
      VerdictOfLast(r', ss);
      VerdictOfFirst(r, r', s, ss[..|ss| - 1]);
      assert all[..|all| - 1] == [s] + ss[..|ss| - 1];
    }
  }

  /** A record with the default window that has not started. */
  const NotStarted := Record(0, 0, 0, 0, 1, 40000)

  /** Since a first start on an empty table, restarts or not, the status is the
      verdict of the latest clock reading off the boundaries, that of the first
      start included; without any it is END. */
  lemma StatusSinceFirstStart(w: World, d1: nat, d2: nat, t: nat, es: seq<Event>)
    requires w.rows == []
    ensures Started(AfterAll(InitWorld(w, d1, d2, t), es).mem) <==>
            LatestVerdictIsStart(NotStarted, [Sample(t, d2)] + Completed(es))
  {
    var w0 := InitWorld(w, d1, d2, t);
    InitSyncs(w, d1, d2, t);
    RestartsAreTransparent(w0, es);
    StatusIsLatestVerdict(w0.mem, Completed(es));
    VerdictOfFirst(NotStarted, w0.mem, Sample(t, d2), Completed(es));
  }

  // --------------------------------------------------------------- rollovers

  /** The dates of the samples outside the window that found the status at START. */
  function Rollovers(r: Record, ss: seq<Sample>): seq<nat> {
    if ss == [] then []
    else
      var before, s := Ticks(r, ss[..|ss| - 1]), ss[|ss| - 1];
      Rollovers(r, ss[..|ss| - 1]) + if Started(before) && (s.t < r.cuttime || s.t > r.endtime) then [s.d] else []
  }

  /** The dates of the samples inside the window that did not. */
  function Starts(r: Record, ss: seq<Sample>): seq<nat> {
    if ss == [] then []
    else
      var before, s := Ticks(r, ss[..|ss| - 1]), ss[|ss| - 1];
      Starts(r, ss[..|ss| - 1]) + if !Started(before) && r.cuttime < s.t < r.endtime then [s.d] else []
  }

  /** The date chain: curdate is the date of the latest rollover and lastdate that
      of the one before, or what curdate was at the beginning. */
  lemma {:induction false} DateChain(r: Record, ss: seq<Sample>)
    ensures var r', ds := Ticks(r, ss), Rollovers(r, ss);
            && r'.curdate == (if ds == [] then r.curdate else ds[|ds| - 1])
            && r'.lastdate == (if ds == [] then r.lastdate else if |ds| == 1 then r.curdate else ds[|ds| - 2])
  {
    if ss == [] {
    } else {
      DateChain(r, ss[..|ss| - 1]);
      WindowIsFixed(r, ss[..|ss| - 1]);
    }
  }

  /** What a first start on an empty table stores and loads, and what becomes of it
      under any events: the clock's two dates, until rollovers replace them, and
      the default window. */
  lemma FirstStart(w: World, d1: nat, d2: nat, t: nat, es: seq<Event>)
    requires w.rows == []
    ensures var r0 := InitWorld(w, d1, d2, t).mem;
            && r0 == Record(w.nextId, d1, d2, if 1 < t < 40000 then 1 else 0, 1, 40000)
            && var r, ds := AfterAll(InitWorld(w, d1, d2, t), es).mem, Rollovers(r0, Completed(es));
            && r.id == w.nextId && r.cuttime == 1 && r.endtime == 40000
            && (r.status == 0 || r.status == 1)
            && r.curdate == (if ds == [] then d2 else ds[|ds| - 1])
            && r.lastdate == (if ds == [] then d1 else if |ds| == 1 then d2 else ds[|ds| - 2])
  {
    var w0 := InitWorld(w, d1, d2, t);
    InitSyncs(w, d1, d2, t);
    RestartsAreTransparent(w0, es);
    WindowIsFixed(w0.mem, Completed(es));
    StatusIsZeroOrOne(w0.mem, Completed(es));
    DateChain(w0.mem, Completed(es));
  }

  /** Starts and rollovers alternate. */
  lemma {:induction false} StartsAndRolloversAlternate(r: Record, ss: seq<Sample>)
    ensures |Rollovers(r, ss)| + (if Started(Ticks(r, ss)) then 1 else 0) ==
            |Starts(r, ss)| + (if Started(r) then 1 else 0)
  {
    if ss == [] {
    } else {
      StartsAndRolloversAlternate(r, ss[..|ss| - 1]);
      WindowIsFixed(r, ss[..|ss| - 1]);
    }
  }

  /** Inside (true) or outside (false), for the samples on neither boundary. */
  function Verdicts(r: Record, ss: seq<Sample>): seq<bool> {
    if ss == [] then []
    else
      var s := ss[|ss| - 1];
      Verdicts(r, ss[..|ss| - 1]) + if OnBoundary(r, s.t) then [] else [r.cuttime < s.t < r.endtime]
  }

  /** How often true is directly followed by false, b standing before the list. */
  function Falls(b: bool, vs: seq<bool>): nat
    decreases |vs|
  {
    if vs == [] then 0 else (if b && !vs[0] then 1 else 0) + Falls(vs[0], vs[1..])
  }

  function Latest(b: bool, vs: seq<bool>): bool {
    if vs == [] then b else vs[|vs| - 1]
  }

  lemma {:induction false} FallsOfAppend(b: bool, vs: seq<bool>, v: bool)
    ensures Falls(b, vs + [v]) == Falls(b, vs) + if Latest(b, vs) && !v then 1 else 0
    decreases |vs|
  {
    if vs == [] {
      assert ([] + [v])[1..] == [];
    } else {
      FallsOfAppend(vs[0], vs[1..], v);
      assert (vs + [v])[1..] == vs[1..] + [v];
    }
  }

  /** The exact number of rollovers, from the samples alone: one for every sample
      outside the window that directly follows one inside, boundary samples left
      out. */
  lemma {:induction false} RolloversCountFalls(r: Record, ss: seq<Sample>)
    ensures |Rollovers(r, ss)| == Falls(Started(r), Verdicts(r, ss))
    ensures Started(Ticks(r, ss)) == Latest(Started(r), Verdicts(r, ss))
  {
    if ss == [] {
    } else {
      RolloversCountFalls(r, ss[..|ss| - 1]);
      WindowIsFixed(r, ss[..|ss| - 1]);
      var s := ss[|ss| - 1];
      if OnBoundary(r, s.t) {
        assert Verdicts(r, ss) == Verdicts(r, ss[..|ss| - 1]);
      } else {
        FallsOfAppend(Started(r), Verdicts(r, ss[..|ss| - 1]), r.cuttime < s.t < r.endtime);
      }
    }
  }

  // -------------------------------------------------------- a monotone clock

  predicate NotAfter(a: Sample, b: Sample) {
    a.d < b.d || (a.d == b.d && a.t <= b.t)
  }

  predicate Monotone(ss: seq<Sample>) {
    forall i, j :: 0 <= i < j < |ss| ==> NotAfter(ss[i], ss[j])
  }

  /** On the date of the latest start, the clock has passed cuttime; and once the
      status is END again, it has passed endtime. */
  lemma {:induction false} LatestStart(r: Record, ss: seq<Sample>)
    requires ss != [] && Monotone(ss)
    ensures var s, ds := ss[|ss| - 1], Starts(r, ss);
            ds != [] ==>
              && ds[|ds| - 1] <= s.d
              && (ds[|ds| - 1] == s.d ==> s.t > r.cuttime && (!Started(Ticks(r, ss)) ==> s.t > r.endtime))
    decreases |ss|
  {
    var front, s := ss[..|ss| - 1], ss[|ss| - 1];
    WindowIsFixed(r, front);
    if front != [] {
      LatestStart(r, front);
      assert NotAfter(ss[|ss| - 2], s);
    }
  }

  predicate Increasing(ds: seq<nat>) {
    forall i, j :: 0 <= i < j < |ds| ==> ds[i] < ds[j]
  }

  /** With a monotone clock the window is entered at most once per date. */
  lemma {:induction false} StartsAreOnDifferentDates(r: Record, ss: seq<Sample>)
    requires Monotone(ss)
    ensures Increasing(Starts(r, ss))
    decreases |ss|
  {
    if ss == [] {
    } else {
      var front, s := ss[..|ss| - 1], ss[|ss| - 1];
      StartsAreOnDifferentDates(r, front);
      WindowIsFixed(r, front);
      if front != [] {
        LatestStart(r, front);
        assert NotAfter(ss[|ss| - 2], s);
      }
    }
  }

  function Dates(ss: seq<Sample>): set<nat> {
    set s | s in ss :: s.d
  }

  lemma {:induction false} StartsAreSampledDates(r: Record, ss: seq<Sample>)
    ensures forall d :: d in Starts(r, ss) ==> d in Dates(ss)
    decreases |ss|
  {
    if ss == [] {
    } else {
      StartsAreSampledDates(r, ss[..|ss| - 1]);
      assert ss == ss[..|ss| - 1] + [ss[|ss| - 1]];
    }
  }

  lemma {:induction false} IncreasingFitsIn(ds: seq<nat>, all: set<nat>)
    requires Increasing(ds)
    requires forall d :: d in ds ==> d in all
    ensures |ds| <= |all|
    decreases |ds|
  {
    if ds == [] {
    } else {
      var last := ds[|ds| - 1];
      IncreasingFitsIn(ds[..|ds| - 1], all - {last});
    }
  }

  lemma StartsFitInDates(r: Record, ss: seq<Sample>)
    requires Monotone(ss)
    ensures |Starts(r, ss)| <= |Dates(ss)|
  {
    StartsAreOnDifferentDates(r, ss);
    StartsAreSampledDates(r, ss);
    IncreasingFitsIn(Starts(r, ss), Dates(ss));
  }

  /** With a monotone clock there are at most as many rollovers as sampled dates,
      plus one if the run began in START. */
  lemma RolloverBound(r: Record, ss: seq<Sample>)
    requires Monotone(ss)
    ensures |Rollovers(r, ss)| <= |Dates(ss)| + (if Started(r) then 1 else 0)
  {
    StartsFitInDates(r, ss);
    StartsAndRolloversAlternate(r, ss);
  }

  /** The date of the latest of these samples, or d. */
  function Today(d: nat, ss: seq<Sample>): nat {
    if ss == [] then d else ss[|ss| - 1].d
  }

  lemma {:induction false} TicksKeepDatesInOrder(r: Record, ss: seq<Sample>)
    requires r.lastdate <= r.curdate && Monotone(ss)
    requires forall s :: s in ss ==> r.curdate <= s.d
    ensures var r' := Ticks(r, ss); r'.lastdate <= r'.curdate <= Today(r.curdate, ss)
    decreases |ss|
  {
    if ss == [] {
    } else {
      var front, s := ss[..|ss| - 1], ss[|ss| - 1];
      assert s in ss;
      TicksKeepDatesInOrder(r, front);
      if front != [] {
        assert NotAfter(ss[|ss| - 2], s);
      }
    }
  }

  /** With a clock that does not go back, behind the record's date neither, the
      dates in memory and in the table stay in order and never run ahead of today,
      however restarts are placed. */
  lemma DatesStayInOrder(w: World, es: seq<Event>)
    requires Synced(w) && w.mem.lastdate <= w.mem.curdate
    requires Monotone(Completed(es)) && forall s :: s in Completed(es) ==> w.mem.curdate <= s.d
    ensures var w' := AfterAll(w, es);
            Synced(w') && w'.mem.lastdate <= w'.mem.curdate <= Today(w.mem.curdate, Completed(es))
  {
    RestartsAreTransparent(w, es);
    TicksKeepDatesInOrder(w.mem, Completed(es));
  }

  /** So it is from a first start on an empty table, if its two readings of the
      date do not go back either. */
  lemma DatesSinceFirstStart(w: World, d1: nat, d2: nat, t: nat, es: seq<Event>)
    requires w.rows == [] && d1 <= d2
    requires Monotone(Completed(es)) && forall s :: s in Completed(es) ==> d2 <= s.d
    ensures var r := AfterAll(InitWorld(w, d1, d2, t), es).mem;
            r.id == w.nextId && r.lastdate <= r.curdate <= Today(d2, Completed(es))
  {
    var w0 := InitWorld(w, d1, d2, t);
    InitSyncs(w, d1, d2, t);
    DatesStayInOrder(w0, es);
    RestartsAreTransparent(w0, es);
    WindowIsFixed(w0.mem, Completed(es));
  }
}
