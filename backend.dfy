/**
 * The Flask backend's data operations, with the two JSON files read into
 * one in-memory store: the administrator's fixed credentials, adding,
 * editing and deleting students, the student login lookup, and a student's
 * own logs.
 */
module Backend {
  import opened Wrappers
  import opened Values
  import opened Seqs
  import opened Logs

  /**
   * A stored student. `id` is always an integer; the other fields hold what
   * `form.get` returned, `Null` for a missing key.
   */
  datatype StudentRecord = StudentRecord(id: int, name: Value, registerNo: Value, roomNo: Value, course: Value)

  /** The submitted form fields: `request.form` maps keys to strings. */
  type Form = map<string, string>

  /** The HTTP status code and the JSON `status` and `message` of a reply. */
  datatype Reply = Reply(code: nat, status: string, message: string)

  /** `form.get(key)`: the text, or `None` (a JSON null) when the key is missing. */
  function FormGet(form: Form, key: string): Value
  {
    if key in form then Str(form[key]) else Null
  }

  /** `form.get(key, current)`: the text, or the current value when the key is missing. */
  function FormGetOr(form: Form, key: string, current: Value): Value
  {
    if key in form then Str(form[key]) else current
  }

  /** `admin_login`: the single hard-coded administrator. */
  function AdminLogin(username: Value, password: Value): (r: Reply)
    ensures r.code == 200 <==> username == Str("admin") && password == Str("1234")
    ensures r.code != 200 ==> r == Reply(401, "error", "Invalid credentials")
    ensures r.code == 200 ==> r.status == "success"
  {
    if username == Str("admin") && password == Str("1234") then Reply(200, "success", "Admin logged in")
    else Reply(401, "error", "Invalid credentials")
  }

  /** The record `add_student` builds from the form, numbered `len(students) + 1`. */
  function NewRecord(students: seq<StudentRecord>, form: Form): StudentRecord
  {
    StudentRecord(|students| + 1, FormGet(form, "name"), FormGet(form, "register_no"),
      FormGet(form, "room_no"), FormGet(form, "course"))
  }

  /** `edit_student`'s update of one record: each field from the form, or kept when the key is missing. */
  function Update(s: StudentRecord, form: Form): StudentRecord
  {
    s.(name := FormGetOr(form, "name", s.name),
       registerNo := FormGetOr(form, "register_no", s.registerNo),
       roomNo := FormGetOr(form, "room_no", s.roomNo),
       course := FormGetOr(form, "course", s.course))
  }

  /** JSON has no `undefined`: every field of a stored record is null or a value that came from JSON or the form. */
  predicate JsonRecord(s: StudentRecord)
  {
    !s.name.Undefined? && !s.registerNo.Undefined? && !s.roomNo.Undefined? && !s.course.Undefined?
  }

  /** Adding and editing never store `Undefined`: a missing key gives null, or keeps the old field. */
  lemma StoreNeverWritesUndefined(students: seq<StudentRecord>, form: Form, s: StudentRecord)
    ensures JsonRecord(NewRecord(students, form))
    ensures JsonRecord(s) ==> JsonRecord(Update(s, form))
    ensures NewRecord(students, form).name == Null <==> "name" !in form
  {
  }

  /** The records after `edit_student`: only the first record with that id is updated. */
  function EditFirst(students: seq<StudentRecord>, id: int, form: Form): seq<StudentRecord>
    decreases |students|
  {
    if students == [] then []
    else if students[0].id == id then [Update(students[0], form)] + students[1..]
    else [students[0]] + EditFirst(students[1..], id, form)
  }

  /** The position of the first record with that id, `|students|` when there is none. */
  function FirstWithId(students: seq<StudentRecord>, id: int): (k: nat)
    ensures k <= |students|
    ensures k < |students| ==> students[k].id == id
    ensures forall j :: 0 <= j < k ==> students[j].id != id
    decreases |students|
  {
    if students == [] then 0
    else if students[0].id == id then 0
    else 1 + FirstWithId(students[1..], id)
  }

  /** `delete_student`'s comprehension: every record with a different id, in order. */
  function Delete(students: seq<StudentRecord>, id: int): (r: seq<StudentRecord>)
    ensures Subseq(r, students)
    ensures forall s :: s in r <==> s in students && s.id != id
  {
    var keep := (s: StudentRecord) => s.id != id;
    FilterSubseq(students, keep);
    FilterMembers(students, keep);
    Filter(students, keep)
  }

  /** Python's `==` on the stored name and on `str()` of both register numbers. */
  predicate LoginMatches(s: StudentRecord, name: Value, registerNo: Value)
  {
    s.name == name && PyString(s.registerNo) == PyString(registerNo)
  }

  /** `student_login`'s loop: the first matching record, or none. */
  function FindStudent(students: seq<StudentRecord>, name: Value, registerNo: Value): (r: Option<StudentRecord>)
    ensures r.Some? ==>
      exists k :: (0 <= k < |students| && students[k] == r.value && LoginMatches(r.value, name, registerNo) &&
        forall j :: 0 <= j < k ==> !LoginMatches(students[j], name, registerNo))
    ensures r.None? <==> forall k :: 0 <= k < |students| ==> !LoginMatches(students[k], name, registerNo)
    decreases |students|
  {
    if students == [] then None
    else if LoginMatches(students[0], name, registerNo) then Some(students[0])
    else
      var rest := FindStudent(students[1..], name, registerNo);
      assert forall k :: 1 <= k < |students| ==> students[k] == students[1..][k - 1];
      rest
  }

  /** `student_login`: the found record, or a 404. */
  function StudentLogin(students: seq<StudentRecord>, name: Value, registerNo: Value): (r: Result<StudentRecord, Reply>)
    ensures r.Failure? ==> r.error == Reply(404, "error", "Student not found")
    ensures r.Success? <==> exists k :: 0 <= k < |students| && LoginMatches(students[k], name, registerNo)
  {
    match FindStudent(students, name, registerNo)
    case Some(s) => Success(s)
    case None => Failure(Reply(404, "error", "Student not found"))
  }

  /** `my_logs`: the logs whose `student_id` equals the requested integer, in stored order. */
  function MyLogs(logs: seq<LogRow>, studentId: int): (r: seq<LogRow>)
    ensures Subseq(r, logs)
    ensures forall l :: l in r <==> l in logs && l.studentId == Num(studentId)
    ensures forall l :: multiset(r)[l] == if l.studentId == Num(studentId) then multiset(logs)[l] else 0
  {
    var mine := (l: LogRow) => l.studentId == Num(studentId);
    FilterCounts(logs, mine);
    FilterSubseq(logs, mine);
    FilterMembers(logs, mine);
    Filter(logs, mine)
  }

  /** Editing changes at most the first record with the id, and that one as `Update` says; a 404 leaves all as it was. */
  lemma {:induction false} EditFirstIsUpdateAt(students: seq<StudentRecord>, id: int, form: Form)
    ensures var k := FirstWithId(students, id);
      EditFirst(students, id, form) == if k < |students| then students[k := Update(students[k], form)] else students
    decreases |students|
  {
    if students != [] && students[0].id != id {
      EditFirstIsUpdateAt(students[1..], id, form);
      var k := FirstWithId(students[1..], id);
      if k < |students[1..]| {
        assert [students[0]] + students[1..][k := Update(students[1..][k], form)]
          == students[k + 1 := Update(students[k + 1], form)];
      } else {
        assert [students[0]] + students[1..] == students;
      }
    }
  }

  /** An edit keeps every id and every position: the order and the number of records are unchanged. */
  lemma EditKeepsIds(students: seq<StudentRecord>, id: int, form: Form)
    ensures |EditFirst(students, id, form)| == |students|
    ensures forall i :: 0 <= i < |students| ==> EditFirst(students, id, form)[i].id == students[i].id
  {
    EditFirstIsUpdateAt(students, id, form);
  }

  /** An empty form edits nothing. */
  lemma EmptyEditChangesNothing(students: seq<StudentRecord>, id: int)
    ensures EditFirst(students, id, map[]) == students
  {
    EditFirstIsUpdateAt(students, id, map[]);
    var k := FirstWithId(students, id);
    if k < |students| {
      assert Update(students[k], map[]) == students[k];
    }
  }

  /** A record whose register number is null is found by the register number text "None": `str(None)` is 'None'. */
  lemma NullRegisterMatchesNoneText(s: StudentRecord)
    requires s.registerNo == Null
    ensures FindStudent([s], s.name, Str("None")) == Some(s)
  {
  }

  /** After deleting an id, none of its records remains and the rest are kept. */
  lemma DeleteRemovesEvery(students: seq<StudentRecord>, id: int)
    ensures forall i :: 0 <= i < |Delete(students, id)| ==> Delete(students, id)[i].id != id
    ensures |Delete(students, id)| + |Filter(students, (s: StudentRecord) => s.id == id)| == |students|
  {
    var r := Delete(students, id);
    forall i | 0 <= i < |r| ensures r[i].id != id {
      assert r[i] in r;
    }
    FilterPartition(students, (s: StudentRecord) => s.id != id, (s: StudentRecord) => s.id == id);
  }

  /** Deleting from a record followed by others: the head is checked, then the rest. */
  lemma DeleteCons(s: StudentRecord, rest: seq<StudentRecord>, id: int)
    ensures Delete([s] + rest, id) == (if s.id != id then [s] else []) + Delete(rest, id)
  {
    assert ([s] + rest)[1..] == rest;
  }

  predicate UniqueIds(students: seq<StudentRecord>)
  {
    forall i, j :: 0 <= i < j < |students| ==> students[i].id != students[j].id
  }

  /** As written: two students, the first deleted, one added: the new record repeats the id 2. */
  lemma DuplicateIdAfterDelete(a: StudentRecord, b: StudentRecord, form: Form)
    requires a.id == 1 && b.id == 2
    ensures var after := Delete([a, b], 1) + [NewRecord(Delete([a, b], 1), form)];
      |after| == 2 && after[0].id == 2 && after[1].id == 2 && !UniqueIds(after)
  {
    assert [a, b] == [a] + [b];
    DeleteCons(a, [b], 1);
    assert [b] == [b] + [];
    DeleteCons(b, [], 1);
    assert Delete([], 1) == [];
    assert Delete([a, b], 1) == [b];
  }

  /** The largest id in use, 0 for no records. */
  function MaxId(students: seq<StudentRecord>): (m: int)
    ensures forall i :: 0 <= i < |students| ==> students[i].id <= m
    decreases |students|
  {
    if students == [] then 0
    else
      var rest := MaxId(students[1..]);
      assert forall i :: 1 <= i < |students| ==> students[i] == students[1..][i - 1];
      if students[0].id > rest then students[0].id else rest
  }

  /** The id the backend evidently means to hand out: one past every id in use. */
  function FreshRecord(students: seq<StudentRecord>, form: Form): StudentRecord
  {
    StudentRecord(MaxId(students) + 1, FormGet(form, "name"), FormGet(form, "register_no"),
      FormGet(form, "room_no"), FormGet(form, "course"))
  }

  /** With the fresh id, adding keeps the ids unique however the records were deleted before. */
  lemma FreshIdStaysUnique(students: seq<StudentRecord>, id: int, form: Form)
    requires UniqueIds(students)
    ensures UniqueIds(Delete(students, id))
    ensures UniqueIds(students + [FreshRecord(students, form)])
  {
    var r := Delete(students, id);
    FilterSubseqIndices(students, (s: StudentRecord) => s.id != id);
    var s2 := students + [FreshRecord(students, form)];
    forall i, j | 0 <= i < j < |s2| ensures s2[i].id != s2[j].id {
      if j == |students| {
        assert s2[i] == students[i];
      }
    }
  }

  /** Filtering keeps order and distinctness of a key: each kept record sits at a strictly later source position. */
  lemma {:induction false} FilterSubseqIndices(students: seq<StudentRecord>, p: StudentRecord -> bool)
    requires UniqueIds(students)
    ensures UniqueIds(Filter(students, p))
    decreases |students|
  {
    if students != [] {
      assert UniqueIds(students[1..]) by {
        forall i, j | 0 <= i < j < |students[1..]| ensures students[1..][i].id != students[1..][j].id {
          assert students[1..][i] == students[i + 1] && students[1..][j] == students[j + 1];
        }
      }
      FilterSubseqIndices(students[1..], p);
      var rest := Filter(students[1..], p);
      if p(students[0]) {
        FilterMembers(students[1..], p);
        forall k | 0 <= k < |rest| ensures rest[k].id != students[0].id {
          assert rest[k] in students[1..];
          var m :| 0 <= m < |students[1..]| && students[1..][m] == rest[k];
          assert students[m + 1] == rest[k];
        }
        var f := Filter(students, p);
        assert f == [students[0]] + rest;
        forall i, j | 0 <= i < j < |f| ensures f[i].id != f[j].id {
          if i == 0 {
            assert f[j] == rest[j - 1];
          } else {
            assert f[i] == rest[i - 1] && f[j] == rest[j - 1];
          }
        }
      }
    }
  }

  /** The two JSON files, held in memory. */
  class Store {
    var students: seq<StudentRecord>
    var logs: seq<LogRow>

    constructor(students0: seq<StudentRecord>, logs0: seq<LogRow>)
      ensures students == students0 && logs == logs0
    {
      students := students0;
      logs := logs0;
    }

    /** `add_student`: append one record numbered `len + 1`; the records before it are untouched. */
    method AddStudent(form: Form) returns (reply: Reply, created: StudentRecord)
      modifies this
      ensures created == NewRecord(old(students), form) && created.id == |old(students)| + 1
      ensures students == old(students) + [created]
      ensures logs == old(logs)
      ensures reply == Reply(201, "success", "Student added")
    {
      created := StudentRecord(|students| + 1, FormGet(form, "name"), FormGet(form, "register_no"),
        FormGet(form, "room_no"), FormGet(form, "course"));
      students := students + [created];
      reply := Reply(201, "success", "Student added");
    }

    /** `edit_student`: walk the records and update the first with the id in place; 404 when there is none. */
    method EditStudent(id: int, form: Form) returns (reply: Reply, updated: Option<StudentRecord>)
      modifies this
      ensures students == EditFirst(old(students), id, form)
      ensures logs == old(logs)
      ensures reply.code == 404 <==> forall k :: 0 <= k < |old(students)| ==> old(students)[k].id != id
      ensures reply.code == 404 ==> reply == Reply(404, "error", "Student not found") && updated.None?
      ensures reply.code != 404 ==> FirstWithId(old(students), id) < |students|
      ensures reply.code != 404 ==>
        (reply == Reply(200, "success", "Student updated") && updated == Some(students[FirstWithId(old(students), id)]))
    {
      EditFirstIsUpdateAt(students, id, form);
      var i := 0;
      while i < |students|
        invariant 0 <= i <= |students|
        invariant students == old(students)
        invariant forall j :: 0 <= j < i ==> students[j].id != id
      {
        if students[i].id == id {
          assert FirstWithId(students, id) == i;
          var s := Update(students[i], form);
          students := students[i := s];
          return Reply(200, "success", "Student updated"), Some(s);
        }
        i := i + 1;
      }
      assert FirstWithId(students, id) == |students|;
      return Reply(404, "error", "Student not found"), None;
    }

    /** `delete_student`: drop every record with the id; the reply is a success either way. */
    method DeleteStudent(id: int) returns (reply: Reply)
      modifies this
      ensures students == Delete(old(students), id)
      ensures logs == old(logs)
      ensures reply == Reply(200, "success", "Student deleted")
    {
      students := Delete(students, id);
      reply := Reply(200, "success", "Student deleted");
    }
  }
}
