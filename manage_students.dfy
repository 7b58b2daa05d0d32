/**
 * The administrator's roster: the students list narrowed by one search text,
 * and the date formatting that shows 'N/A' for a missing date.
 */
module ManageStudents {
  import opened Wrappers
  import opened Values
  import opened Text
  import opened Seqs
  import opened Timeline

  /**
   * A roster entry as the screen reads it. A key the record lacks reads as
   * `Undefined` (`className` is the `class` key); the backend stores the room under `room_no` and the class
   * under `course`, so its records leave `room` and `class` undefined.
   */
  datatype StudentRow = StudentRow(name: MaybeStr, registerNo: Value, room: Value, className: Value)

  /** `(v || '').toString()` */
  function TextOf(v: Value): string
  {
    JsString(Or(v, Str("")))
  }

  /**
   * The search condition: the lower-cased query occurs in the lower-cased
   * name, or in the register number, room or class as they are written.
   */
  predicate Matches(st: StudentRow, search: string)
  {
    var searchLower := Lower(search);
    Contains(Lower(OrStr(st.name, "")), searchLower)
    || Contains(TextOf(st.registerNo), searchLower)
    || Contains(TextOf(st.room), searchLower)
    || Contains(TextOf(st.className), searchLower)
  }

  predicate Keep(search: string, student: Option<StudentRow>)
  {
    student.Some? && Matches(student.value, search)
  }

  /** `filtered`: in order, the non-null entries that match the search. */
  function Filtered(students: seq<Option<StudentRow>>, search: string): (r: seq<Option<StudentRow>>)
    ensures Subseq(r, students)
    ensures forall st :: st in r <==> st in students && st.Some? && Matches(st.value, search)
    ensures forall st :: multiset(r)[st] == if Keep(search, st) then multiset(students)[st] else 0
  {
    var keep := (st: Option<StudentRow>) => Keep(search, st);
    FilterSubseq(students, keep);
    FilterCounts(students, keep);
    forall st ensures st in Filter(students, keep) <==> st in students && keep(st) {
      FilterHas(students, keep, st);
    }
    Filter(students, keep)
  }

  lemma ContainsEmpty(s: string)
    ensures Contains(s, "")
  {
    assert IsPrefix("", s);
  }

  /** An empty search keeps every non-null entry, in order. */
  lemma EmptySearchKeepsAll(students: seq<Option<StudentRow>>)
    ensures Filtered(students, "") == Filter(students, (st: Option<StudentRow>) => st.Some?)
  {
    forall st: Option<StudentRow> | st.Some? ensures Matches(st.value, "") {
      ContainsEmpty(Lower(OrStr(st.value.name, "")));
    }
    FilterCongruent(students, (st: Option<StudentRow>) => Keep("", st), (st: Option<StudentRow>) => st.Some?);
  }

  /** The search lower-cases the query first, so a query and its lower-cased form select the same entries. */
  lemma SearchIgnoresQueryCase(students: seq<Option<StudentRow>>, search: string)
    ensures Filtered(students, search) == Filtered(students, Lower(search))
  {
    LowerIdempotent(search);
    FilterCongruent(students, (st: Option<StudentRow>) => Keep(search, st),
      (st: Option<StudentRow>) => Keep(Lower(search), st));
  }

  /**
   * Only the name is lower-cased: a room written with a capital letter is not
   * found by typing it exactly, when nothing else matches.
   */
  lemma CapitalRoomIsNotFound(st: StudentRow)
    requires st.room == Str("B2")
    requires !Contains(Lower(OrStr(st.name, "")), "b2")
    requires !Contains(TextOf(st.registerNo), "b2") && !Contains(TextOf(st.className), "b2")
    ensures !Matches(st, "B2")
  {
    assert Lower("B2") == "b2";
    assert TextOf(st.room) == "B2";
    assert !IsPrefix("b2", "2") && !Contains("2", "b2");
    assert "B2"[0] != "b2"[0];
    assert !IsPrefix("b2", "B2");
    assert "B2"[1..] == "2";
  }

  /** `formatDate`: 'N/A' for a missing date or the zero date, else the US-style local date, 'Invalid Date' if it does not parse. */
  function FormatDate(cal: Calendar, dateString: MaybeStr): (r: string)
    ensures !TruthyStr(dateString) || dateString.value == "0000-00-00" ==> r == "N/A"
    ensures TruthyStr(dateString) && dateString.value != "0000-00-00" && cal.parse(dateString.value).None? ==>
      r == "Invalid Date"
    ensures (forall ms :: cal.localeDate(ms) != "N/A") ==>
      (r == "N/A" <==> !TruthyStr(dateString) || dateString.value == "0000-00-00")
  {
    if !TruthyStr(dateString) || dateString.value == "0000-00-00" then "N/A"
    else match cal.parse(dateString.value)
      case None => "Invalid Date"
      case Some(ms) => cal.localeDate(ms)
  }
}
