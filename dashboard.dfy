/**
 * The administrator dashboard: the same expansion with fields copied verbatim
 * (no placeholders), today's events by local `toDateString`, today's entry and
 * exit counts, and the five most recent events.
 */
module Dashboard {
  import opened Wrappers
  import opened Values
  import opened Seqs
  import opened Timeline
  import opened Logs

  function EntryEvent(r: LogRow): Event
    requires HasEntry(r)
  {
    Event(EntryId(r), Entry, r.entryTime.value, r.name, r.registerNo, r.entryStatus, r.studentId, Undefined, None)
  }

  function ExitEvent(r: LogRow): Event
    requires HasExit(r)
  {
    Event(ExitId(r), Exit, r.exitTime.value, r.name, r.registerNo, r.exitStatus, r.studentId, Undefined, None)
  }

  function RowEvents(r: LogRow): seq<Event>
  {
    (if HasEntry(r) then [EntryEvent(r)] else []) + (if HasExit(r) then [ExitEvent(r)] else [])
  }

  function Expanded(rows: seq<LogRow>): seq<Event>
  {
    Flatten(rows, RowEvents)
  }

  /** The body of the `forEach`: the entry event, then the exit event (this screen's, copied verbatim). */
  method PushRow(log: LogRow) returns (pushed: seq<Event>)
    ensures pushed == RowEvents(log)
  {
    pushed := [];
    if TruthyStr(log.entryTime) {
      pushed := pushed + [EntryEvent(log)];
    }
    if TruthyStr(log.exitTime) {
      pushed := pushed + [ExitEvent(log)];
    }
  }

  /** `processLogs()`: the `logs.forEach` push loop, then the sort. */
  method ProcessLogs(cal: Calendar, logs: seq<LogRow>) returns (processed: seq<Event>)
    ensures processed == SortDesc(TimeKey(cal), Expanded(logs))
  {
    var out: seq<Event> := [];
    var i := 0;
    while i < |logs|
      invariant 0 <= i <= |logs|
      invariant out == Flatten(logs[..i], RowEvents)
    {
      var log := logs[i];
      var pushed := PushRow(log);
      out := out + pushed;
      FlattenSnoc(logs[..i], log, RowEvents);
      assert logs[..i + 1] == logs[..i] + [log];
      i := i + 1;
    }
    assert logs[..i] == logs;
    assert out == Expanded(logs);
    processed := SortDesc(TimeKey(cal), out);
  }

  /** `new Date(t).toDateString()`: an Invalid Date prints "Invalid Date". */
  function DateString(cal: Calendar, t: Option<int>): (r: string)
    ensures t.Some? ==> r == cal.dateString(t.value)
    ensures DateStringShaped(cal) ==> (r == "Invalid Date" <==> t.None?)
  {
    match t
    case None => "Invalid Date"
    case Some(ms) => cal.dateString(ms)
  }

  predicate IsToday(cal: Calendar, now: int, e: Event)
  {
    DateString(cal, cal.parse(e.time)) == cal.dateString(now)
  }

  /** `todayLogs`: the processed events whose local date string is today's (`now` is `new Date()`). */
  function TodayLogs(cal: Calendar, processed: seq<Event>, now: int): (r: seq<Event>)
    ensures Subseq(r, processed)
    ensures forall e :: e in r <==> e in processed && IsToday(cal, now, e)
    ensures forall e :: multiset(r)[e] == if IsToday(cal, now, e) then multiset(processed)[e] else 0
  {
    var today := (e: Event) => IsToday(cal, now, e);
    FilterCounts(processed, today);
    FilterSubseq(processed, today);
    FilterMembers(processed, today);
    Filter(processed, today)
  }

  function TodayEntries(cal: Calendar, processed: seq<Event>, now: int): nat
  {
    |Filter(TodayLogs(cal, processed, now), IsEntry)|
  }

  function TodayExits(cal: Calendar, processed: seq<Event>, now: int): nat
  {
    |Filter(TodayLogs(cal, processed, now), IsExit)|
  }

  /** `todayEntries + todayExits` is the number of today's events. */
  lemma TodayCountsAddUp(cal: Calendar, processed: seq<Event>, now: int)
    ensures TodayEntries(cal, processed, now) + TodayExits(cal, processed, now) == |TodayLogs(cal, processed, now)|
    ensures |TodayLogs(cal, processed, now)| <= |processed|
  {
    KindsPartition(TodayLogs(cal, processed, now));
    var today := (e: Event) => IsToday(cal, now, e);
    var notToday := (e: Event) => !IsToday(cal, now, e);
    FilterPartition(processed, today, notToday);
  }

  /** An event whose time does not parse is never one of today's. */
  lemma InvalidTimeNeverToday(cal: Calendar, now: int, e: Event)
    requires DateStringShaped(cal) && cal.parse(e.time).None?
    ensures !IsToday(cal, now, e)
  {
  }

  /** A row of the recent-activity list. */
  datatype Recent = Recent(name: string, kind: Kind, time: string, registerNo: Value)

  function ToRecent(e: Event): Recent
  {
    Recent(OrStr(e.name, "Unknown"), e.kind, e.time, e.registerNo)
  }

  /** `recentLogs`: the first five processed events, the name falling back to 'Unknown'. */
  function RecentLogs(processed: seq<Event>): (r: seq<Recent>)
    ensures |r| == if |processed| < 5 then |processed| else 5
    ensures forall i :: 0 <= i < |r| ==> r[i].kind == processed[i].kind && r[i].time == processed[i].time && r[i].name != ""
    ensures forall i :: 0 <= i < |r| ==>
      r[i].name == (if TruthyStr(processed[i].name) then processed[i].name.value else "Unknown")
      && r[i].registerNo == processed[i].registerNo
  {
    var first := Take(processed, 5);
    MapAt(ToRecent, first);
    Map(ToRecent, first)
  }

  /** On sorted, parseable input the recent list holds the most recent events: none left out is later. */
  lemma RecentAreMostRecent(cal: Calendar, processed: seq<Event>, i: nat, j: nat)
    requires AllTimed(TimeKey(cal), processed) && MostRecentFirst(TimeKey(cal), processed)
    requires i < |RecentLogs(processed)| <= j < |processed|
    ensures cal.parse(RecentLogs(processed)[i].time).value >= cal.parse(processed[j].time).value
  {
    assert !Before(TimeKey(cal), processed[j], processed[i]);
    assert TimeKey(cal)(processed[i]).Some? && TimeKey(cal)(processed[j]).Some?;
  }

  lemma InRowEvents(r: LogRow, e: Event)
    ensures e in RowEvents(r) <==> (HasEntry(r) && e == EntryEvent(r)) || (HasExit(r) && e == ExitEvent(r))
  {
  }

  /** No placeholders: every processed event carries its row's name, register number, student id and status verbatim. */
  lemma CopiedVerbatim(cal: Calendar, rows: seq<LogRow>, e: Event)
    ensures e in SortDesc(TimeKey(cal), Expanded(rows)) <==>
      exists r :: r in rows && ((HasEntry(r) && e == EntryEvent(r)) || (HasExit(r) && e == ExitEvent(r)))
    ensures e in SortDesc(TimeKey(cal), Expanded(rows)) ==>
      exists r :: r in rows && e.name == r.name && e.registerNo == r.registerNo && e.studentId == r.studentId
        && e.status == (if e.kind == Entry then r.entryStatus else r.exitStatus)
  {
    SortMembers(TimeKey(cal), Expanded(rows));
    FlattenMembers(rows, RowEvents);
    forall r ensures e in RowEvents(r) <==> (HasEntry(r) && e == EntryEvent(r)) || (HasExit(r) && e == ExitEvent(r)) {
      InRowEvents(r, e);
    }
  }

  /** One event per entry time and per exit time; a row with neither contributes nothing. */
  lemma ProcessedCount(cal: Calendar, rows: seq<LogRow>)
    ensures |SortDesc(TimeKey(cal), Expanded(rows))| == |Filter(rows, HasEntry)| + |Filter(rows, HasExit)|
    ensures forall r :: !HasEntry(r) && !HasExit(r) ==> RowEvents(r) == []
  {
    SortPermutes(TimeKey(cal), Expanded(rows));
    Conservation(rows, RowEvents);
  }
}
