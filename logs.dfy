/**
 * The attendance row the backend serves (one per student per day, pairing an
 * entry and an exit) and the single-direction event the screens expand it into.
 */
module Logs {
  import opened Wrappers
  import opened Values
  import opened Seqs
  import opened Timeline

  datatype Kind = Entry | Exit

  /** The `type` string of an event. */
  function KindName(k: Kind): string
  {
    match k
    case Entry => "Entry"
    case Exit => "Exit"
  }

  /** `filter === 'All' || log.type === filter` */
  predicate MatchesType(filter: string, k: Kind)
  {
    filter == "All" || KindName(k) == filter
  }

  /**
   * A row of the logs file: `{id, student_id, name, register_no, entry_time,
   * entry_status, exit_time, exit_status}`; `entryStatusAlt` is the
   * differently-cased key `entry_Status` one screen also reads.
   */
  datatype LogRow = LogRow(
    id: Value,
    studentId: Value,
    name: MaybeStr,
    registerNo: Value,
    entryTime: MaybeStr,
    entryStatus: MaybeStr,
    entryStatusAlt: MaybeStr,
    exitTime: MaybeStr,
    exitStatus: MaybeStr)

  /**
   * An expanded event. Keys a screen does not set read `Undefined`/`None`:
   * `originalLogId` is set by the admin log browser only, `isoDate` (`date`)
   * by the student log screen only.
   */
  datatype Event = Event(
    id: string,
    kind: Kind,
    time: string,
    name: MaybeStr,
    registerNo: Value,
    status: MaybeStr,
    studentId: Value,
    originalLogId: Value,
    isoDate: MaybeStr)

  /** `if (log.entry_time)` */
  predicate HasEntry(r: LogRow)
  {
    TruthyStr(r.entryTime)
  }

  /** `if (log.exit_time)` */
  predicate HasExit(r: LogRow)
  {
    TruthyStr(r.exitTime)
  }

  function EventCount(r: LogRow): nat
  {
    (if HasEntry(r) then 1 else 0) + (if HasExit(r) then 1 else 0)
  }

  /** `${log.id}_entry` */
  function EntryId(r: LogRow): string
  {
    JsString(r.id) + "_entry"
  }

  /** `${log.id}_exit` */
  function ExitId(r: LogRow): string
  {
    JsString(r.id) + "_exit"
  }

  /** An entry id and an exit id never coincide, whatever the two source ids are. */
  lemma EntryIdIsNotExitId(r: LogRow, q: LogRow)
    ensures EntryId(r) != ExitId(q)
  {
    var a, b := EntryId(r), ExitId(q);
    assert a[|a| - 1] == 'y' && b[|b| - 1] == 't';
  }

  predicate IsEntry(e: Event)
  {
    e.kind == Entry
  }

  predicate IsExit(e: Event)
  {
    e.kind == Exit
  }

  /** The sort key: `new Date(log.time)`. */
  function TimeKey(cal: Calendar): Event -> Option<int>
  {
    (e: Event) => cal.parse(e.time)
  }

  /** The rows a screen sees when the list may be absent (`!logs` / `!myLogs?.length`). */
  function RowsOf(logs: Option<seq<LogRow>>): seq<LogRow>
  {
    if logs.Some? then logs.value else []
  }

  /**
   * Expansion conserves counts: a per-row expansion that emits one event per
   * truthy time emits, over all rows, the number of entry times plus the
   * number of exit times.
   */
  lemma {:induction false} Conservation<B>(rows: seq<LogRow>, f: LogRow -> seq<B>)
    requires forall r :: |f(r)| == EventCount(r)
    ensures |Flatten(rows, f)| == |Filter(rows, HasEntry)| + |Filter(rows, HasExit)|
    decreases |rows|
  {
    if rows != [] {
      Conservation(rows[1..], f);
    }
  }

  /** Every event is an entry or an exit, so the two per-kind counts add up to the total. */
  lemma KindsPartition(events: seq<Event>)
    ensures |Filter(events, IsEntry)| + |Filter(events, IsExit)| == |events|
  {
    FilterPartition(events, IsEntry, IsExit);
  }
}
