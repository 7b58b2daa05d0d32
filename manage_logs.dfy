/**
 * The administrator's log browser: every row becomes an entry and/or an exit
 * event with placeholders for missing fields, the events are sorted most
 * recent first, and the list is narrowed to one UTC date, one type and a
 * search text.
 */
module ManageLogs {
  import opened Wrappers
  import opened Values
  import opened Text
  import opened Seqs
  import opened Timeline
  import opened Logs

  /** `log.name || `Student ${log.student_id}`` */
  function NameOf(r: LogRow): string
  {
    OrStr(r.name, "Student " + JsString(r.studentId))
  }

  /** `log.register_no || 'Unknown'` */
  function RegisterNoOf(r: LogRow): Value
  {
    Or(r.registerNo, Str("Unknown"))
  }

  function EntryEvent(r: LogRow): Event
    requires HasEntry(r)
  {
    Event(EntryId(r), Entry, r.entryTime.value, Some(NameOf(r)), RegisterNoOf(r),
      Some(OrStr(r.entryStatus, OrStr(r.entryStatusAlt, "Unknown"))), r.studentId, r.id, None)
  }

  function ExitEvent(r: LogRow): Event
    requires HasExit(r)
  {
    Event(ExitId(r), Exit, r.exitTime.value, Some(NameOf(r)), RegisterNoOf(r),
      Some(OrStr(r.exitStatus, "Unknown")), r.studentId, r.id, None)
  }

  /** The events one row contributes, entry first. */
  function RowEvents(r: LogRow): seq<Event>
  {
    (if HasEntry(r) then [EntryEvent(r)] else []) + (if HasExit(r) then [ExitEvent(r)] else [])
  }

  function Expanded(rows: seq<LogRow>): seq<Event>
  {
    Flatten(rows, RowEvents)
  }

  /** The body of the `forEach`: the entry event, then the exit event (this screen's, with placeholders). */
  method PushRow(log: LogRow) returns (pushed: seq<Event>)
    ensures pushed == RowEvents(log)
  {
    pushed := [];
    if TruthyStr(log.entryTime) {
      pushed := pushed + [EntryEvent(log)];
    }
    if TruthyStr(log.exitTime) {
      pushed := pushed + [ExitEvent(log)];
    }
  }

  /** `processLogs()`: expand with placeholders, then sort most recent first. */
  method ProcessLogs(cal: Calendar, logs: Option<seq<LogRow>>) returns (processed: seq<Event>)
    ensures processed == SortDesc(TimeKey(cal), Expanded(RowsOf(logs)))
    ensures logs.None? || logs.value == [] ==> processed == []
  {
    if logs.None? || |logs.value| == 0 {
      return [];
    }
    var rows := logs.value;
    var out: seq<Event> := [];
    var i := 0;
    while i < |rows|
      invariant 0 <= i <= |rows|
      invariant out == Flatten(rows[..i], RowEvents)
    {
      var log := rows[i];
      var pushed := PushRow(log);
      out := out + pushed;
      assert rows[..i + 1] == rows[..i] + [log];
      FlattenSnoc(rows[..i], log, RowEvents);
      i := i + 1;
    }
    assert rows[..i] == rows;
    assert out == Expanded(RowsOf(logs));
    processed := SortDesc(TimeKey(cal), out);
  }

  /** `formatDate(selectedDate)`: the selected day's UTC ISO date. */
  function FormatDate(cal: Calendar, selected: int): (d: string)
    ensures IsPrefix(d, cal.iso(selected)) && forall j :: 0 <= j < |d| ==> d[j] != 'T'
    ensures d == cal.iso(selected) || (|d| < |cal.iso(selected)| && cal.iso(selected)[|d|] == 'T')
    ensures IsoShaped(cal) ==> d != "Invalid Date"
  {
    UtcDayShape(cal, selected);
    UtcDay(cal, selected)
  }

  /** `formatLogDate(time)`: `toISOString` throws on an Invalid Date and the catch answers 'Invalid Date'. */
  function FormatLogDate(cal: Calendar, time: string): (d: string)
    ensures cal.parse(time).None? ==> d == "Invalid Date"
    ensures cal.parse(time).Some? ==> d == FormatDate(cal, cal.parse(time).value)
    ensures IsoShaped(cal) ==> (d == "Invalid Date" <==> cal.parse(time).None?)
  {
    match cal.parse(time)
    case None => "Invalid Date"
    case Some(ms) => FormatDate(cal, ms)
  }

  /** The search condition: empty query, or name / register number (case-insensitive), or student id (case-sensitive). */
  predicate MatchSearch(e: Event, query: string)
  {
    query == ""
    || (TruthyStr(e.name) && Contains(Lower(e.name.value), Lower(query)))
    || (Truthy(e.registerNo) && Contains(Lower(JsString(e.registerNo)), Lower(query)))
    || (Truthy(e.studentId) && Contains(JsString(e.studentId), query))
  }

  predicate Keep(cal: Calendar, selected: int, filter: string, query: string, e: Event)
  {
    FormatLogDate(cal, e.time) == FormatDate(cal, selected) && MatchesType(filter, e.kind) && MatchSearch(e, query)
  }

  /** `filteredLogs`: the processed events on the selected UTC date, of the selected type, matching the search. */
  function FilteredLogs(cal: Calendar, processed: seq<Event>, selected: int, filter: string, query: string): (r: seq<Event>)
    ensures Subseq(r, processed)
    ensures forall e :: e in r <==> e in processed && Keep(cal, selected, filter, query, e)
    ensures forall e :: multiset(r)[e] == if Keep(cal, selected, filter, query, e) then multiset(processed)[e] else 0
  {
    var keep := (e: Event) => Keep(cal, selected, filter, query, e);
    FilterCounts(processed, keep);
    FilterSubseq(processed, keep);
    FilterMembers(processed, keep);
    Filter(processed, keep)
  }

  lemma {:induction false} RowEventsCount(r: LogRow)
    ensures |RowEvents(r)| == EventCount(r)
  {
  }

  /** The number of processed events is the number of entry times plus the number of exit times. */
  lemma ProcessedCount(cal: Calendar, rows: seq<LogRow>)
    ensures |SortDesc(TimeKey(cal), Expanded(rows))| == |Filter(rows, HasEntry)| + |Filter(rows, HasExit)|
  {
    SortPermutes(TimeKey(cal), Expanded(rows));
    forall r ensures |RowEvents(r)| == EventCount(r) {
      RowEventsCount(r);
    }
    Conservation(rows, RowEvents);
  }

  lemma InRowEvents(r: LogRow, e: Event)
    ensures e in RowEvents(r) <==> (HasEntry(r) && e == EntryEvent(r)) || (HasExit(r) && e == ExitEvent(r))
  {
  }

  /** An event is in the result exactly when it is the entry or the exit event of some row with that time set. */
  lemma ProcessedMembers(cal: Calendar, rows: seq<LogRow>, e: Event)
    ensures e in SortDesc(TimeKey(cal), Expanded(rows)) <==>
      exists r :: r in rows && ((HasEntry(r) && e == EntryEvent(r)) || (HasExit(r) && e == ExitEvent(r)))
  {
    SortMembers(TimeKey(cal), Expanded(rows));
    FlattenMembers(rows, RowEvents);
    if e in Expanded(rows) {
      var r :| r in rows && e in RowEvents(r);
      InRowEvents(r, e);
    } else {
      forall r | r in rows
        ensures !((HasEntry(r) && e == EntryEvent(r)) || (HasExit(r) && e == ExitEvent(r)))
      {
        InRowEvents(r, e);
      }
    }
  }

  /** Placeholders: every processed event has a non-empty name, register number and status, and points back to its row. */
  lemma PlaceholdersFilled(cal: Calendar, rows: seq<LogRow>, e: Event)
    requires e in SortDesc(TimeKey(cal), Expanded(rows))
    ensures TruthyStr(e.name) && Truthy(e.registerNo) && TruthyStr(e.status)
    ensures exists r :: r in rows && e.originalLogId == r.id && (e.id == EntryId(r) || e.id == ExitId(r))
  {
    ProcessedMembers(cal, rows, e);
    var r :| r in rows && ((HasEntry(r) && e == EntryEvent(r)) || (HasExit(r) && e == ExitEvent(r)));
    RowEventFilled(r, e);
  }

  /** One row's entry or exit event carries the placeholders and its row's ids. */
  lemma RowEventFilled(r: LogRow, e: Event)
    requires (HasEntry(r) && e == EntryEvent(r)) || (HasExit(r) && e == ExitEvent(r))
    ensures TruthyStr(e.name) && Truthy(e.registerNo) && TruthyStr(e.status)
    ensures e.originalLogId == r.id && (e.id == EntryId(r) || e.id == ExitId(r))
  {
    assert |"Student " + JsString(r.studentId)| > 0;
  }

  /** Duplicate source ids are not merged: each row with id text `x` and an entry time yields its own `x_entry` event. */
  lemma {:induction false} EntryIdsCounted(rows: seq<LogRow>, x: string)
    ensures |Filter(Expanded(rows), (e: Event) => e.id == x + "_entry")|
         == |Filter(rows, (r: LogRow) => HasEntry(r) && JsString(r.id) == x)|
    decreases |rows|
  {
    var isX := (e: Event) => e.id == x + "_entry";
    if rows != [] {
      var r := rows[0];
      EntryIdsCounted(rows[1..], x);
      FilterAppend(RowEvents(r), Expanded(rows[1..]), isX);
      EntryIdIsNotExitId(LogRow(Str(x), r.studentId, r.name, r.registerNo, r.entryTime, r.entryStatus, r.entryStatusAlt, r.exitTime, r.exitStatus), r);
      assert HasExit(r) ==> !isX(ExitEvent(r));
      if HasEntry(r) {
        if EntryEvent(r).id == x + "_entry" {
          assert JsString(r.id) == EntryEvent(r).id[..|EntryEvent(r).id| - 6] == x;
        }
        FilterAppend([EntryEvent(r)], if HasExit(r) then [ExitEvent(r)] else [], isX);
      } else {
        assert RowEvents(r) == if HasExit(r) then [ExitEvent(r)] else [];
      }
    }
  }

  /** ... and sorting keeps those duplicates. */
  lemma ProcessedKeepsDuplicateIds(cal: Calendar, rows: seq<LogRow>, x: string)
    ensures |Filter(SortDesc(TimeKey(cal), Expanded(rows)), (e: Event) => e.id == x + "_entry")|
         == |Filter(rows, (r: LogRow) => HasEntry(r) && JsString(r.id) == x)|
  {
    SortPermutes(TimeKey(cal), Expanded(rows));
    FilterMultiset(SortDesc(TimeKey(cal), Expanded(rows)), Expanded(rows), (e: Event) => e.id == x + "_entry");
    EntryIdsCounted(rows, x);
  }

  /** When every time parses, the processed list is ordered most recent first. */
  lemma ProcessedSorted(cal: Calendar, rows: seq<LogRow>)
    requires forall r :: r in rows && HasEntry(r) ==> cal.parse(r.entryTime.value).Some?
    requires forall r :: r in rows && HasExit(r) ==> cal.parse(r.exitTime.value).Some?
    ensures MostRecentFirst(TimeKey(cal), SortDesc(TimeKey(cal), Expanded(rows)))
    ensures AllTimed(TimeKey(cal), SortDesc(TimeKey(cal), Expanded(rows)))
    ensures forall i, j :: 0 <= i < j < |SortDesc(TimeKey(cal), Expanded(rows))| ==>
      cal.parse(SortDesc(TimeKey(cal), Expanded(rows))[i].time).value >= cal.parse(SortDesc(TimeKey(cal), Expanded(rows))[j].time).value
  {
    var ev := Expanded(rows);
    FlattenMembers(rows, RowEvents);
    assert AllTimed(TimeKey(cal), ev) by {
      forall i | 0 <= i < |ev| ensures TimeKey(cal)(ev[i]).Some? {
        assert ev[i] in ev;
        var r :| r in rows && ev[i] in RowEvents(r);
      }
    }
    SortSorted(TimeKey(cal), ev);
  }

  /** One row with both times: its two events, the exit first when it is strictly later. */
  lemma SingleRowOrder(cal: Calendar, r: LogRow)
    requires HasEntry(r) && HasExit(r)
    ensures SortDesc(TimeKey(cal), Expanded([r])) ==
      if Before(TimeKey(cal), ExitEvent(r), EntryEvent(r)) then [ExitEvent(r), EntryEvent(r)] else [EntryEvent(r), ExitEvent(r)]
  {
    assert [r][1..] == [];
    assert Flatten([r], RowEvents) == RowEvents(r) + Flatten([], RowEvents);
    assert RowEvents(r) == [EntryEvent(r)] + [ExitEvent(r)];
    assert Expanded([r]) == [EntryEvent(r), ExitEvent(r)];
    var en, ex := EntryEvent(r), ExitEvent(r);
    assert SortDesc(TimeKey(cal), [ex]) == [ex] by {
      assert [ex][1..] == [];
    }
    assert SortDesc(TimeKey(cal), [en, ex]) == Insert(TimeKey(cal), en, [ex]) by {
      assert [en, ex][1..] == [ex];
    }
    if Before(TimeKey(cal), ex, en) {
      assert [ex][1..] == [];
      assert Insert(TimeKey(cal), en, [ex]) == [ex] + Insert(TimeKey(cal), en, []);
    } else {
      assert Insert(TimeKey(cal), en, [ex]) == [en] + [ex];
    }
  }

  /** An unparseable time never matches the date filter. */
  lemma InvalidTimeNeverKept(cal: Calendar, selected: int, filter: string, query: string, e: Event)
    requires IsoShaped(cal) && cal.parse(e.time).None?
    ensures !Keep(cal, selected, filter, query, e)
  {
    UtcDayIsNotInvalid(cal, selected);
  }

  /** The name and register-number parts of the search ignore the query's case; an empty query keeps everything. */
  lemma SearchIgnoresQueryCase(e: Event, query: string)
    requires !(Truthy(e.studentId) && Contains(JsString(e.studentId), query))
    requires !(Truthy(e.studentId) && Contains(JsString(e.studentId), Lower(query)))
    ensures MatchSearch(e, query) == MatchSearch(e, Lower(query))
  {
    LowerIdempotent(query);
    assert query == "" <==> Lower(query) == "";
  }

  /**
   * The name test is a case-insensitive substring test: a name holding the
   * query in any case is found, and when neither the register number nor the
   * student id holds a non-empty query, the name test alone decides.
   */
  lemma SearchByName(e: Event, query: string)
    ensures TruthyStr(e.name) && Contains(Lower(e.name.value), Lower(query)) ==> MatchSearch(e, query)
    ensures (query != ""
      && !(Truthy(e.registerNo) && Contains(Lower(JsString(e.registerNo)), Lower(query)))
      && !(Truthy(e.studentId) && Contains(JsString(e.studentId), query))) ==>
      (MatchSearch(e, query) <==> TruthyStr(e.name) && Contains(Lower(e.name.value), Lower(query)))
  {
  }

  /** Searching "SMITH" finds "Jane Smith". */
  lemma SearchFindsSurname(e: Event)
    requires e.name == Some("Jane Smith")
    ensures MatchSearch(e, "SMITH")
  {
    assert Lower("Jane Smith")[5..10] == "smith";
    assert Lower("SMITH") == "smith";
    ContainsAt(Lower("Jane Smith"), Lower("SMITH"), 5);
  }
}
