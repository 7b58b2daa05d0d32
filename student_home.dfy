/**
 * The student home screen: the student's own rows expanded to events (no
 * names), sorted most recent first; today's and total entry/exit counts; the
 * five most recent events.
 */
module StudentHome {
  import opened Wrappers
  import opened Values
  import opened Text
  import opened Seqs
  import opened Timeline
  import opened Logs

  /**
   * A processed event. `dateOnly` is the array `time.split(' ')` allocated
   * while expanding; JavaScript compares it by identity.
   */
  datatype HomeEvent = HomeEvent(id: string, kind: Kind, time: string, status: MaybeStr, dateOnly: array<string>)

  /** The event without its array: what the expansion computes. */
  datatype HomeEntry = HomeEntry(id: string, kind: Kind, time: string, status: MaybeStr)

  function Project(e: HomeEvent): HomeEntry
  {
    HomeEntry(e.id, e.kind, e.time, e.status)
  }

  function EntryOf(r: LogRow): HomeEntry
    requires HasEntry(r)
  {
    HomeEntry(EntryId(r), Entry, r.entryTime.value, r.entryStatus)
  }

  function ExitOf(r: LogRow): HomeEntry
    requires HasExit(r)
  {
    HomeEntry(ExitId(r), Exit, r.exitTime.value, r.exitStatus)
  }

  function RowEntries(r: LogRow): seq<HomeEntry>
  {
    (if HasEntry(r) then [EntryOf(r)] else []) + (if HasExit(r) then [ExitOf(r)] else [])
  }

  function Expanded(rows: seq<LogRow>): seq<HomeEntry>
  {
    Flatten(rows, RowEntries)
  }

  function EntryKey(cal: Calendar): HomeEntry -> Option<int>
  {
    (e: HomeEntry) => cal.parse(e.time)
  }

  function EventKey(cal: Calendar): HomeEvent -> Option<int>
  {
    (e: HomeEvent) => cal.parse(e.time)
  }

  /** `s.split(sep)`: a fresh array on every call. */
  method SplitArray(s: string, sep: char) returns (a: array<string>)
    ensures fresh(a) && a[..] == Split(s, sep)
  {
    var parts := Split(s, sep);
    a := new string[|parts|](k requires 0 <= k < |parts| => parts[k]);
  }

  /** The events' arrays are fresh and hold the split of their own time. */
  ghost predicate ArraysHoldSplits(events: seq<HomeEvent>)
    reads set e | e in events :: e.dateOnly
  {
    forall k :: 0 <= k < |events| ==> events[k].dateOnly[..] == Split(events[k].time, ' ')
  }

  /** The body of the `forEach`: the entry event, then the exit event, each with a freshly split array. */
  method PushRow(log: LogRow) returns (pushed: seq<HomeEvent>)
    ensures Map(Project, pushed) == RowEntries(log)
    ensures forall k :: 0 <= k < |pushed| ==> fresh(pushed[k].dateOnly)
    ensures ArraysHoldSplits(pushed)
  {
    pushed := [];
    if TruthyStr(log.entryTime) {
      var dateOnly := SplitArray(log.entryTime.value, ' ');
      pushed := pushed + [HomeEvent(EntryId(log), Entry, log.entryTime.value, log.entryStatus, dateOnly)];
    }
    if TruthyStr(log.exitTime) {
      var dateOnly := SplitArray(log.exitTime.value, ' ');
      pushed := pushed + [HomeEvent(ExitId(log), Exit, log.exitTime.value, log.exitStatus, dateOnly)];
    }
    MapAt(Project, pushed);
  }

  /** The `processedLogs` memo: empty for absent or empty `myLogs`, else the push loop and the sort. */
  method ProcessedLogs(cal: Calendar, myLogs: Option<seq<LogRow>>) returns (processed: seq<HomeEvent>)
    ensures Map(Project, processed) == SortDesc(EntryKey(cal), Expanded(RowsOf(myLogs)))
    ensures RowsOf(myLogs) == [] ==> processed == []
    ensures ArraysHoldSplits(processed)
  {
    if myLogs.None? || |myLogs.value| == 0 {
      return [];
    }
    var out := PushRows(myLogs.value);
    processed := SortDesc(EventKey(cal), out);
    SortMap(EventKey(cal), EntryKey(cal), Project, out);
    SortKeepsSplits(EventKey(cal), out);
  }

  /** One step of the `forEach`: the row's events pushed after those already there. */
  method AppendRow(out: seq<HomeEvent>, log: LogRow) returns (next: seq<HomeEvent>)
    requires ArraysHoldSplits(out)
    ensures Map(Project, next) == Map(Project, out) + RowEntries(log)
    ensures ArraysHoldSplits(next)
  {
    var pushed := PushRow(log);
    assert ArraysHoldSplits(out);
    MapAppend(Project, out, pushed);
    SplitsAppend(out, pushed);
    next := out + pushed;
  }

  /** The `forEach` over the rows, in order. */
  method PushRows(rows: seq<LogRow>) returns (out: seq<HomeEvent>)
    ensures Map(Project, out) == Expanded(rows)
    ensures ArraysHoldSplits(out)
  {
    out := [];
    var i := 0;
    while i < |rows|
      invariant 0 <= i <= |rows|
      invariant Map(Project, out) == Flatten(rows[..i], RowEntries)
      invariant ArraysHoldSplits(out)
    {
      var log := rows[i];
      out := AppendRow(out, log);
      FlattenSnoc(rows[..i], log, RowEntries);
      assert rows[..i + 1] == rows[..i] + [log];
      i := i + 1;
    }
    assert rows[..i] == rows;
  }

  lemma SplitsAppend(a: seq<HomeEvent>, b: seq<HomeEvent>)
    requires ArraysHoldSplits(a) && ArraysHoldSplits(b)
    ensures ArraysHoldSplits(a + b)
  {
    forall k | 0 <= k < |a + b|
      ensures (a + b)[k].dateOnly[..] == Split((a + b)[k].time, ' ')
    {
      if k >= |a| {
        assert (a + b)[k] == b[k - |a|];
      }
    }
  }

  /** Sorting only reorders events, so each still carries the split of its own time. */
  lemma SortKeepsSplits(key: HomeEvent -> Option<int>, events: seq<HomeEvent>)
    requires ArraysHoldSplits(events)
    ensures ArraysHoldSplits(SortDesc(key, events))
  {
    var sorted := SortDesc(key, events);
    SortPermutes(key, events);
    forall k | 0 <= k < |sorted|
      ensures sorted[k].dateOnly[..] == Split(sorted[k].time, ' ')
    {
      assert sorted[k] in multiset(sorted);
      assert sorted[k] in multiset(events);
      var j :| 0 <= j < |events| && events[j] == sorted[k];
    }
  }

  predicate IsEntryEvent(e: HomeEvent) { e.kind == Entry }
  predicate IsExitEvent(e: HomeEvent) { e.kind == Exit }

  /**
   * `stats` as written: `today` is a new array, and `===` on arrays is
   * identity, so no processed event is ever counted as today's.
   */
  method Stats(cal: Calendar, processed: seq<HomeEvent>, now: int)
    returns (todayEntry: nat, todayExit: nat, totalEntry: nat, totalExit: nat)
    ensures todayEntry == 0 && todayExit == 0
    ensures totalEntry == |Filter(processed, IsEntryEvent)|
    ensures totalExit == |Filter(processed, IsExitEvent)|
    ensures totalEntry + totalExit == |processed|
  {
    var today := SplitArray(cal.iso(now), 'T');
    var entryToday := (e: HomeEvent) => e.kind == Entry && e.dateOnly == today;
    var exitToday := (e: HomeEvent) => e.kind == Exit && e.dateOnly == today;
    FilterDropsAll(processed, entryToday);
    FilterDropsAll(processed, exitToday);
    todayEntry := |Filter(processed, entryToday)|;
    todayExit := |Filter(processed, exitToday)|;
    totalEntry := |Filter(processed, IsEntryEvent)|;
    totalExit := |Filter(processed, IsExitEvent)|;
    FilterPartition(processed, IsEntryEvent, IsExitEvent);
  }

  function EntryKind(e: HomeEntry): bool { e.kind == Entry }
  function ExitKind(e: HomeEntry): bool { e.kind == Exit }

  lemma {:induction false} KindsPerRow(rows: seq<LogRow>)
    ensures |Filter(Expanded(rows), EntryKind)| == |Filter(rows, HasEntry)|
    ensures |Filter(Expanded(rows), ExitKind)| == |Filter(rows, HasExit)|
    decreases |rows|
  {
    if rows != [] {
      KindsPerRow(rows[1..]);
      FilterAppend(RowEntries(rows[0]), Expanded(rows[1..]), EntryKind);
      FilterAppend(RowEntries(rows[0]), Expanded(rows[1..]), ExitKind);
      var r := rows[0];
      FilterAppend(if HasEntry(r) then [EntryOf(r)] else [], if HasExit(r) then [ExitOf(r)] else [], EntryKind);
      FilterAppend(if HasEntry(r) then [EntryOf(r)] else [], if HasExit(r) then [ExitOf(r)] else [], ExitKind);
    }
  }

  /** The totals of processed events are the numbers of rows with an entry time and with an exit time. */
  lemma TotalsMatchRows(cal: Calendar, myLogs: Option<seq<LogRow>>, processed: seq<HomeEvent>)
    requires Map(Project, processed) == SortDesc(EntryKey(cal), Expanded(RowsOf(myLogs)))
    ensures |Filter(processed, IsEntryEvent)| == |Filter(RowsOf(myLogs), HasEntry)|
    ensures |Filter(processed, IsExitEvent)| == |Filter(RowsOf(myLogs), HasExit)|
  {
    var ex := Expanded(RowsOf(myLogs));
    FilterMapCount(Project, processed, EntryKind, IsEntryEvent);
    FilterMapCount(Project, processed, ExitKind, IsExitEvent);
    SortPermutes(EntryKey(cal), ex);
    FilterMultiset(SortDesc(EntryKey(cal), ex), ex, EntryKind);
    FilterMultiset(SortDesc(EntryKey(cal), ex), ex, ExitKind);
    KindsPerRow(RowsOf(myLogs));
  }

  /** The evident intent of the today counts: the date part of the time equals today's UTC day. */
  function DatedToday(cal: Calendar, now: int, kind: Kind): HomeEntry -> bool
  {
    (e: HomeEntry) => e.kind == kind && Split(e.time, ' ')[0] == UtcDay(cal, now)
  }

  function TodayCount(cal: Calendar, entries: seq<HomeEntry>, now: int, kind: Kind): nat
  {
    |Filter(entries, DatedToday(cal, now, kind))|
  }

  /** Today's counts never exceed the totals of their kind, and together never exceed the events. */
  lemma TodayCountBounded(cal: Calendar, entries: seq<HomeEntry>, now: int)
    ensures TodayCount(cal, entries, now, Entry) <= |Filter(entries, EntryKind)|
    ensures TodayCount(cal, entries, now, Exit) <= |Filter(entries, ExitKind)|
    ensures TodayCount(cal, entries, now, Entry) + TodayCount(cal, entries, now, Exit) <= |entries|
  {
    var onDay := (e: HomeEntry) => Split(e.time, ' ')[0] == UtcDay(cal, now);
    var offDay := (e: HomeEntry) => !onDay(e);
    FilterFilter(entries, EntryKind, onDay, DatedToday(cal, now, Entry));
    FilterFilter(entries, ExitKind, onDay, DatedToday(cal, now, Exit));
    FilterPartition(Filter(entries, EntryKind), onDay, offDay);
    FilterPartition(Filter(entries, ExitKind), onDay, offDay);
    FilterPartition(entries, EntryKind, ExitKind);
  }

  /** An event whose date part is today's is counted: the corrected count sees what the written one misses. */
  lemma TodayCountSeesToday(cal: Calendar, entries: seq<HomeEntry>, now: int, e: HomeEntry)
    requires e in entries && Split(e.time, ' ')[0] == UtcDay(cal, now)
    ensures TodayCount(cal, entries, now, e.kind) >= 1
  {
    FilterMembers(entries, DatedToday(cal, now, e.kind));
    assert e in Filter(entries, DatedToday(cal, now, e.kind));
  }

  /** `recentLogs`: the first five processed events. */
  function RecentLogs(processed: seq<HomeEvent>): (r: seq<HomeEvent>)
    ensures |r| == if |processed| < 5 then |processed| else 5
    ensures forall i :: 0 <= i < |r| ==> r[i] == processed[i]
  {
    Take(processed, 5)
  }

  /** On a sorted list of parseable times, no event left out of the recent five is later than one kept. */
  lemma RecentAreMostRecent(cal: Calendar, processed: seq<HomeEvent>, i: nat, j: nat)
    requires AllTimed(EventKey(cal), processed) && MostRecentFirst(EventKey(cal), processed)
    requires i < |RecentLogs(processed)| <= j < |processed|
    ensures cal.parse(RecentLogs(processed)[i].time).value >= cal.parse(processed[j].time).value
  {
    assert !Before(EventKey(cal), processed[j], processed[i]);
    assert EventKey(cal)(processed[i]).Some? && EventKey(cal)(processed[j]).Some?;
  }
}
