/** The date-cut record, the database table that outlives the process, and the
    functions of datecut.c that keep the two together. */
module DateCut {

  const DATE_START: nat := 1
  const DATE_END: nat := 0

  /** DEF_DATE_CUT_TIME "000001" and DEF_DATE_CUT_END "040000" read as numbers. */
  const DEF_CUT_TIME: nat := 1
  const DEF_CUT_END: nat := 40000

  const SUCESS: int := 0
  const ERROR: int := -1

  datatype Record = Record(id: nat, lastdate: nat, curdate: nat, status: nat, cuttime: nat, endtime: nat)

  /** One reading of the clock: the time of day as hhmmss and the date as yyyymmdd. */
  datatype Sample = Sample(t: nat, d: nat)

  predicate Started(r: Record) {
    r.status == DATE_START
  }

  predicate InWindow(r: Record, t: nat) {
    t > r.cuttime && t < r.endtime
  }

  predicate OutOfWindow(r: Record, t: nat) {
    t > r.endtime || t < r.cuttime
  }

  /** The sample changes the status. */
  predicate Transits(r: Record, s: Sample) {
    if Started(r) then OutOfWindow(r, s.t) else InWindow(r, s.t)
  }

  /** The in-memory record after one tick. */
  function Tick(r: Record, s: Sample): Record {
    if !Transits(r, s) then r
    else if Started(r) then r.(status := DATE_END, lastdate := r.curdate, curdate := s.d)
    else r.(status := DATE_START)
  }

  /** The record a first start makes, from two readings of the date and one of
      the time; its id is still 0. */
  function FirstRecord(d1: nat, d2: nat, t: nat): Record {
    Record(0, d1, d2, if t > DEF_CUT_TIME && t < DEF_CUT_END then DATE_START else DATE_END, DEF_CUT_TIME, DEF_CUT_END)
  }

  /** All rows after an UPDATE without a WHERE clause; ids are not touched. */
  function Updated(rows: seq<Record>, r: Record): seq<Record> {
    seq(|rows|, i requires 0 <= i < |rows| => r.(id := rows[i].id))
  }

  // -------------------------------------------------- memory and table at once

  /** The process's record and the table behind it. */
  datatype World = World(mem: Record, rows: seq<Record>, nextId: nat)

  /** Between ticks: the memory is the row a SELECT would read. */
  predicate Synced(w: World) {
    w.rows != [] && w.rows[0] == w.mem
  }

  function InitWorld(w: World, d1: nat, d2: nat, t: nat): World {
    if w.rows != [] then w.(mem := w.rows[0])
    else
      var row := FirstRecord(d1, d2, t).(id := w.nextId);
      World(row, [row], w.nextId + 1)
  }

  function TickWorld(w: World, s: Sample): World {
    if Transits(w.mem, s)
    then w.(mem := Tick(w.mem, s), rows := Updated(w.rows, Tick(w.mem, s)))
    else w
  }

  lemma InitSyncs(w: World, d1: nat, d2: nat, t: nat)
    ensures Synced(InitWorld(w, d1, d2, t))
    ensures Synced(w) ==> InitWorld(w, d1, d2, t) == w
    ensures w.rows != [] ==> InitWorld(w, d1, d2, t).rows == w.rows && InitWorld(w, d1, d2, t).nextId == w.nextId
    ensures w.rows == [] ==> |InitWorld(w, d1, d2, t).rows| == 1
  {
  }

  lemma TickKeepsSynced(w: World, s: Sample)
    requires Synced(w)
    ensures Synced(TickWorld(w, s))
    ensures TickWorld(w, s).mem == Tick(w.mem, s)
    ensures |TickWorld(w, s).rows| == |w.rows|
  {
  }

  // ---------------------------------------------------------- the two objects

  /** The DATECUT table; it survives the process. */
  class Table {
    var rows: seq<Record>
    var nextId: nat

    constructor ()
      ensures rows == []
    {
      rows := [];
      nextId := 1;
    }

    /** DBS_SELECT: the first row, or failure and the record as it was. */
    method Select(re: Record) returns (code: int, row: Record)
      ensures code == SUCESS <==> rows != []
      ensures row == if rows != [] then rows[0] else re
    {
      if |rows| > 0 {
        return SUCESS, rows[0];
      }
      return ERROR, re;
    }

    /** DBS_INSERT: the table numbers the new row itself. */
    method Insert(re: Record) returns (code: int)
      modifies this
      ensures code == SUCESS
      ensures rows == old(rows) + [re.(id := old(nextId))] && nextId == old(nextId) + 1
    {
      rows := rows + [re.(id := nextId)];
      nextId := nextId + 1;
      code := SUCESS;
    }

    /** DBS_UPDATE: every row takes all fields of re, but keeps its own id. */
    method Update(re: Record) returns (code: int)
      modifies this`rows
      ensures code == SUCESS
      ensures rows == Updated(old(rows), re)
      ensures |rows| == |old(rows)|
      ensures forall k :: 0 <= k < |rows| ==> rows[k].id == old(rows)[k].id && rows[k].(id := re.id) == re
    {
      rows := Updated(rows, re);
      code := SUCESS;
    }
  }

  /** The static record g_dc of one process. */
  class DateCutProcess {
    const table: Table
    var id: nat
    var lastdate: nat
    var curdate: nat
    var status: nat
    var cuttime: nat
    var endtime: nat

    /** A static record is zeroed before the program starts, so it stands at END. */
    constructor (table: Table)
      ensures this.table == table
      ensures Mem() == Record(0, 0, 0, 0, 0, 0) && !Started(Mem())
    {
      this.table := table;
      id, lastdate, curdate, status, cuttime, endtime := 0, 0, 0, 0, 0, 0;
    }

    function Mem(): Record
      reads this
    {
      Record(id, lastdate, curdate, status, cuttime, endtime)
    }

    function Here(): World
      reads this, table
    {
      World(Mem(), table.rows, table.nextId)
    }

    method Load(row: Record)
      modifies this
      ensures Mem() == row
    {
      id, lastdate, curdate := row.id, row.lastdate, row.curdate;
      status, cuttime, endtime := row.status, row.cuttime, row.endtime;
    }

    /** d1 and d2 are the two readings of the date, t the reading of the time;
        none of them matters when a row exists. */
    method InitDateCut(d1: nat, d2: nat, t: nat) returns (code: int)
      modifies this, table
      ensures code == SUCESS
      ensures Synced(Here())
      ensures Here() == InitWorld(old(Here()), d1, d2, t)
    {
      var selected, row := table.Select(Mem());
      Load(row);
      if selected != SUCESS {
        Load(Record(0, 0, 0, 0, 0, 0));
        lastdate := d1;
        curdate := d2;
        cuttime := DEF_CUT_TIME;
        endtime := DEF_CUT_END;
        if t > cuttime && t < endtime {
          status := DATE_START;
        } else {
          status := DATE_END;
        }
        var inserted := table.Insert(Mem());
        selected, row := table.Select(Mem());
        Load(row);
      }
      return SUCESS;
    }

    method IsDateCut() returns (code: int)
      ensures code == if Started(Mem()) then SUCESS else ERROR
    {
      code := if status == DATE_START then SUCESS else ERROR;
    }

    method UpdateDateCup(s: Sample) returns (code: int)
      modifies this, table`rows
      ensures code == SUCESS
      ensures Here() == TickWorld(old(Here()), s)
      ensures old(Synced(Here())) ==> Synced(Here())
    {
      if status == DATE_START {
        if s.t > endtime || s.t < cuttime {
          status := DATE_END;
          lastdate := curdate;
          curdate := s.d;
          var updated := table.Update(Mem());
        }
      } else {
        if s.t > cuttime && s.t < endtime {
          status := DATE_START;
          var updated := table.Update(Mem());
        }
      }
      return SUCESS;
    }
  }
}
