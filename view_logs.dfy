/**
 * The student's log screen: the student's rows expanded to events that carry
 * the signed-in student's own name and numbers, sorted most recent first, and
 * narrowed to one local calendar day and one type.
 */
module ViewLogs {
  import opened Wrappers
  import opened Values
  import opened Text
  import opened Seqs
  import opened Timeline
  import opened Logs

  /** The fields of `studentData` the screen reads; `studentData` itself may be absent. */
  datatype StudentInfo = StudentInfo(name: MaybeStr, registerNo: Value, studentId: Value)

  /** `studentData?.name || 'Student'` */
  function NameOf(sd: Option<StudentInfo>): string
  {
    if sd.Some? then OrStr(sd.value.name, "Student") else "Student"
  }

  /** `studentData?.register_no || log.register_no` */
  function RegisterNoOf(sd: Option<StudentInfo>, r: LogRow): Value
  {
    Or(if sd.Some? then sd.value.registerNo else Undefined, r.registerNo)
  }

  /** `studentData?.student_id || log.student_id` */
  function StudentIdOf(sd: Option<StudentInfo>, r: LogRow): Value
  {
    Or(if sd.Some? then sd.value.studentId else Undefined, r.studentId)
  }

  /** A row whose present times all parse: `new Date(t).toISOString()` throws a RangeError otherwise. */
  predicate RowParses(cal: Calendar, r: LogRow)
  {
    (HasEntry(r) ==> cal.parse(r.entryTime.value).Some?) && (HasExit(r) ==> cal.parse(r.exitTime.value).Some?)
  }

  predicate AllParse(cal: Calendar, rows: seq<LogRow>)
  {
    forall k :: 0 <= k < |rows| ==> RowParses(cal, rows[k])
  }

  function EntryEvent(cal: Calendar, sd: Option<StudentInfo>, r: LogRow): Event
    requires HasEntry(r) && RowParses(cal, r)
  {
    Event(EntryId(r), Entry, r.entryTime.value, Some(NameOf(sd)), RegisterNoOf(sd, r), r.entryStatus,
      StudentIdOf(sd, r), Undefined, Some(cal.iso(cal.parse(r.entryTime.value).value)))
  }

  function ExitEvent(cal: Calendar, sd: Option<StudentInfo>, r: LogRow): Event
    requires HasExit(r) && RowParses(cal, r)
  {
    Event(ExitId(r), Exit, r.exitTime.value, Some(NameOf(sd)), RegisterNoOf(sd, r), r.exitStatus,
      StudentIdOf(sd, r), Undefined, Some(cal.iso(cal.parse(r.exitTime.value).value)))
  }

  function RowEvents(cal: Calendar, sd: Option<StudentInfo>, r: LogRow): seq<Event>
    requires RowParses(cal, r)
  {
    (if HasEntry(r) then [EntryEvent(cal, sd, r)] else []) + (if HasExit(r) then [ExitEvent(cal, sd, r)] else [])
  }

  function Expanded(cal: Calendar, sd: Option<StudentInfo>, rows: seq<LogRow>): seq<Event>
    requires AllParse(cal, rows)
    decreases |rows|
  {
    if rows == [] then [] else RowEvents(cal, sd, rows[0]) + Expanded(cal, sd, rows[1..])
  }

  lemma {:induction false} ExpandedSnoc(cal: Calendar, sd: Option<StudentInfo>, rows: seq<LogRow>, r: LogRow)
    requires AllParse(cal, rows) && RowParses(cal, r)
    ensures AllParse(cal, rows + [r])
    ensures Expanded(cal, sd, rows + [r]) == Expanded(cal, sd, rows) + RowEvents(cal, sd, r)
    decreases |rows|
  {
    if rows == [] {
      assert [] + [r] == [r];
      assert [r][1..] == [];
    } else {
      assert (rows + [r])[1..] == rows[1..] + [r];
      ExpandedSnoc(cal, sd, rows[1..], r);
    }
  }

  /** The error a `toISOString()` on an Invalid Date raises. */
  const InvalidTime := "RangeError: Invalid time value"

  /** One iteration: the entry event, then the exit event; an unparseable present time throws. */
  method PushRow(cal: Calendar, sd: Option<StudentInfo>, log: LogRow) returns (pushed: Result<seq<Event>, string>)
    ensures pushed.Failure? <==> !RowParses(cal, log)
    ensures pushed.Failure? ==> pushed.error == InvalidTime
    ensures pushed.Success? ==> RowParses(cal, log) && pushed.value == RowEvents(cal, sd, log)
  {
    var out: seq<Event> := [];
    if TruthyStr(log.entryTime) {
      if cal.parse(log.entryTime.value).None? {
        return Failure(InvalidTime);
      }
      out := out + [Event(EntryId(log), Entry, log.entryTime.value, Some(NameOf(sd)), RegisterNoOf(sd, log),
        log.entryStatus, StudentIdOf(sd, log), Undefined, Some(cal.iso(cal.parse(log.entryTime.value).value)))];
    }
    if TruthyStr(log.exitTime) {
      if cal.parse(log.exitTime.value).None? {
        return Failure(InvalidTime);
      }
      out := out + [Event(ExitId(log), Exit, log.exitTime.value, Some(NameOf(sd)), RegisterNoOf(sd, log),
        log.exitStatus, StudentIdOf(sd, log), Undefined, Some(cal.iso(cal.parse(log.exitTime.value).value)))];
    }
    return Success(out);
  }

  /**
   * The `processedLogs` memo: empty for absent or empty `myLogs`; a thrown
   * RangeError when a present time does not parse; else the expansion sorted
   * most recent first.
   */
  method ProcessedLogs(cal: Calendar, studentData: Option<StudentInfo>, myLogs: Option<seq<LogRow>>)
    returns (result: Result<seq<Event>, string>)
    ensures RowsOf(myLogs) == [] ==> result == Success([])
    ensures result.Failure? <==> !AllParse(cal, RowsOf(myLogs))
    ensures result.Failure? ==> result.error == InvalidTime
    ensures result.Success? ==>
      AllParse(cal, RowsOf(myLogs)) && result.value == SortDesc(TimeKey(cal), Expanded(cal, studentData, RowsOf(myLogs)))
  {
    if myLogs.None? || |myLogs.value| == 0 {
      return Success([]);
    }
    var rows := myLogs.value;
    var out: seq<Event> := [];
    var i := 0;
    while i < |rows|
      invariant 0 <= i <= |rows|
      invariant AllParse(cal, rows[..i])
      invariant out == Expanded(cal, studentData, rows[..i])
    {
      var log := rows[i];
      var pushed := PushRow(cal, studentData, log);
      if pushed.Failure? {
        assert !RowParses(cal, rows[i]);
        return Failure(pushed.error);
      }
      out := out + pushed.value;
      ExpandedSnoc(cal, studentData, rows[..i], log);
      assert rows[..i + 1] == rows[..i] + [log];
      i := i + 1;
    }
    assert rows[..i] == rows;
    result := Success(SortDesc(TimeKey(cal), out));
  }

  /** One event per truthy entry time and one per truthy exit time. */
  lemma {:induction false} ExpandedCount(cal: Calendar, sd: Option<StudentInfo>, rows: seq<LogRow>)
    requires AllParse(cal, rows)
    ensures |Expanded(cal, sd, rows)| == |Filter(rows, HasEntry)| + |Filter(rows, HasExit)|
    decreases |rows|
  {
    if rows != [] {
      ExpandedCount(cal, sd, rows[1..]);
      var r := rows[0];
      assert |RowEvents(cal, sd, r)| == (if HasEntry(r) then 1 else 0) + (if HasExit(r) then 1 else 0);
    }
  }

  lemma {:induction false} ExpandedMembers(cal: Calendar, sd: Option<StudentInfo>, rows: seq<LogRow>, e: Event)
    requires AllParse(cal, rows)
    ensures e in Expanded(cal, sd, rows) <==> exists k :: 0 <= k < |rows| && e in RowEvents(cal, sd, rows[k])
    decreases |rows|
  {
    if rows != [] {
      ExpandedMembers(cal, sd, rows[1..], e);
      if e in Expanded(cal, sd, rows[1..]) {
        var k :| 0 <= k < |rows[1..]| && e in RowEvents(cal, sd, rows[1..][k]);
        assert e in RowEvents(cal, sd, rows[k + 1]);
      }
      if exists k :: 0 <= k < |rows| && e in RowEvents(cal, sd, rows[k]) {
        var k :| 0 <= k < |rows| && e in RowEvents(cal, sd, rows[k]);
        if k > 0 {
          assert rows[k] == rows[1..][k - 1];
        }
      }
    }
  }

  /**
   * Every processed event speaks for the signed-in student: the name is theirs
   * or 'Student', the numbers are theirs unless falsy, and `date` is the ISO
   * form of the event's own time.
   */
  lemma ProcessedSpeaksForStudent(cal: Calendar, sd: Option<StudentInfo>, rows: seq<LogRow>, e: Event)
    requires AllParse(cal, rows)
    requires e in SortDesc(TimeKey(cal), Expanded(cal, sd, rows))
    ensures e.name == Some(NameOf(sd)) && e.name != Some("")
    ensures sd.Some? && TruthyStr(sd.value.name) ==> e.name == sd.value.name
    ensures sd.Some? && Truthy(sd.value.registerNo) ==> e.registerNo == sd.value.registerNo
    ensures sd.Some? && Truthy(sd.value.studentId) ==> e.studentId == sd.value.studentId
    ensures cal.parse(e.time).Some? && e.isoDate == Some(cal.iso(cal.parse(e.time).value))
    ensures exists k :: (0 <= k < |rows| && e.id in {EntryId(rows[k]), ExitId(rows[k])}
      && (!(sd.Some? && Truthy(sd.value.registerNo)) ==> e.registerNo == rows[k].registerNo)
      && (!(sd.Some? && Truthy(sd.value.studentId)) ==> e.studentId == rows[k].studentId))
  {
    SortMembers(TimeKey(cal), Expanded(cal, sd, rows));
    ExpandedMembers(cal, sd, rows, e);
    var k :| 0 <= k < |rows| && e in RowEvents(cal, sd, rows[k]);
    RowEventSpeaks(cal, sd, rows[k], e);
  }

  /** One row's event: the student's fields when truthy, else the row's, and the ISO form of its own time. */
  lemma RowEventSpeaks(cal: Calendar, sd: Option<StudentInfo>, r: LogRow, e: Event)
    requires RowParses(cal, r) && e in RowEvents(cal, sd, r)
    ensures e.name == Some(NameOf(sd)) && e.name != Some("")
    ensures e.registerNo == RegisterNoOf(sd, r) && e.studentId == StudentIdOf(sd, r)
    ensures cal.parse(e.time).Some? && e.isoDate == Some(cal.iso(cal.parse(e.time).value))
    ensures e.id in {EntryId(r), ExitId(r)}
  {
  }

  /** With every time parseable, the processed events are most recent first. */
  lemma ProcessedSorted(cal: Calendar, sd: Option<StudentInfo>, rows: seq<LogRow>)
    requires AllParse(cal, rows)
    ensures MostRecentFirst(TimeKey(cal), SortDesc(TimeKey(cal), Expanded(cal, sd, rows)))
    ensures |SortDesc(TimeKey(cal), Expanded(cal, sd, rows))| == |Expanded(cal, sd, rows)|
  {
    var ev := Expanded(cal, sd, rows);
    assert AllTimed(TimeKey(cal), ev) by {
      forall i | 0 <= i < |ev| ensures TimeKey(cal)(ev[i]).Some? {
        assert ev[i] in ev;
        ExpandedMembers(cal, sd, rows, ev[i]);
        var k :| 0 <= k < |rows| && ev[i] in RowEvents(cal, sd, rows[k]);
        assert RowParses(cal, rows[k]);
      }
    }
    SortPermutes(TimeKey(cal), ev);
    SortSorted(TimeKey(cal), ev);
  }

  /** The local day window around `selected`, both ends included. */
  predicate WithinDay(cal: Calendar, selected: int, e: Event)
  {
    match cal.parse(e.time)
    case None => false
    case Some(t) => cal.dayStart(selected) <= t && t <= cal.dayEnd(selected)
  }

  predicate Keep(cal: Calendar, selected: int, filter: string, e: Event)
  {
    WithinDay(cal, selected, e) && MatchesType(filter, e.kind)
  }

  /** `filteredLogs`: in order, the events inside the selected local day that match the type. */
  function FilteredLogs(cal: Calendar, processed: seq<Event>, selected: int, filter: string): (r: seq<Event>)
    ensures Subseq(r, processed)
    ensures forall e :: e in r <==>
      (e in processed && cal.parse(e.time).Some?
       && cal.dayStart(selected) <= cal.parse(e.time).value <= cal.dayEnd(selected)
       && (filter == "All" || KindName(e.kind) == filter))
    ensures forall e :: multiset(r)[e] == if Keep(cal, selected, filter, e) then multiset(processed)[e] else 0
  {
    var keep := (e: Event) => Keep(cal, selected, filter, e);
    FilterCounts(processed, keep);
    FilterSubseq(processed, keep);
    FilterMembers(processed, keep);
    Filter(processed, keep)
  }

  /** The 'Entry' and the 'Exit' views split the 'All' view of the same day. */
  lemma TypeViewsPartition(cal: Calendar, processed: seq<Event>, selected: int)
    ensures |FilteredLogs(cal, processed, selected, "Entry")| + |FilteredLogs(cal, processed, selected, "Exit")|
      == |FilteredLogs(cal, processed, selected, "All")|
  {
    var within := (e: Event) => WithinDay(cal, selected, e);
    FilterCongruent(processed, (e: Event) => Keep(cal, selected, "All", e), within);
    FilterFilter(processed, within, IsEntry, (e: Event) => Keep(cal, selected, "Entry", e));
    FilterFilter(processed, within, IsExit, (e: Event) => Keep(cal, selected, "Exit", e));
    KindsPartition(Filter(processed, within));
  }

  /**
   * Picking a date and normalising it to local midnight selects the same day:
   * the filtered list is the one the raw picked moment would give.
   */
  lemma MidnightKeepsDay(cal: Calendar, processed: seq<Event>, picked: int, filter: string)
    requires DayLaws(cal)
    ensures FilteredLogs(cal, processed, cal.dayStart(picked), filter) == FilteredLogs(cal, processed, picked, filter)
  {
    assert cal.dayStart(cal.dayStart(picked)) == cal.dayStart(picked);
    assert cal.dayEnd(cal.dayStart(picked)) == cal.dayEnd(picked);
    FilterCongruent(processed, (e: Event) => Keep(cal, cal.dayStart(picked), filter, e),
      (e: Event) => Keep(cal, picked, filter, e));
  }

  /** The screen's own state: the picked day, whether the picker is open, and the type filter. */
  class Screen {
    var selectedDate: int
    var showPicker: bool
    var filter: string

    /** `useState(new Date())`, `useState(false)`, `useState('All')`. */
    constructor(now: int)
      ensures selectedDate == now && !showPicker && filter == "All"
    {
      selectedDate := now;
      showPicker := false;
      filter := "All";
    }

    /** The list on screen for the current state. */
    function Visible(cal: Calendar, processed: seq<Event>): seq<Event>
      reads this
    {
      FilteredLogs(cal, processed, selectedDate, filter)
    }

    /** `handleDateChange`: close the picker; a picked date is stored at local midnight, a dismissal keeps the old day. */
    method HandleDateChange(cal: Calendar, date: Option<int>)
      modifies this
      ensures !showPicker && filter == old(filter)
      ensures selectedDate == if date.Some? then cal.dayStart(date.value) else old(selectedDate)
    {
      showPicker := false;
      if date.Some? {
        selectedDate := cal.dayStart(date.value);
      }
    }
  }
}
