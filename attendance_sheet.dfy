/** The attendance-taking screen: the roster of a class, the per-student
    status map edited by the status pills, and the submission payload. */
module AttendanceSheet {
  import opened Statuses

  const PrimaryColor: string := "#4CAF50"
  const AccentColor: string := "#FFC107"
  const DangerColor: string := "#F44336"
  const LightGrey: string := "#F5F5F5"
  /** Colour of a pill whose status is none of the three options. */
  const UnknownPillColor: string := "#CCCCCC"

  datatype Student = Student(id: string, name: string)

  /** The body sent when the teacher submits the roll. */
  datatype Payload = Payload(classId: string, date: string, studentStatuses: seq<StudentStatus>)

  /** The ids of a roster. */
  function Ids(students: seq<Student>): set<string>
  {
    set i | 0 <= i < |students| :: students[i].id
  }

  lemma IdsSnoc(students: seq<Student>, s: Student)
    ensures Ids(students + [s]) == Ids(students) + {s.id}
  {
    var t := students + [s];
    forall id | id in Ids(t) ensures id in Ids(students) + {s.id} {
      var i :| 0 <= i < |t| && t[i].id == id;
      if i < |students| { assert students[i] == t[i]; }
    }
    forall id | id in Ids(students) ensures id in Ids(t) {
      var i :| 0 <= i < |students| && students[i].id == id;
      assert t[i] == students[i];
    }
    assert t[|students|] == s;
  }

  /** The initial status map built when the roster arrives: the accumulator
      of the reduce over the roster, every student set to `Present`. */
  method InitialAttendance(roster: seq<Student>) returns (acc: map<string, string>)
    ensures acc.Keys == Ids(roster)
    ensures forall id :: id in acc ==> acc[id] == Present
  {
    acc := map[];
    var i := 0;
    while i < |roster|
      invariant 0 <= i <= |roster|
      invariant acc.Keys == Ids(roster[..i])
      invariant forall id :: id in acc ==> acc[id] == Present
    {
      IdsSnoc(roster[..i], roster[i]);
      assert roster[..i + 1] == roster[..i] + [roster[i]];
      acc := acc[roster[i].id := Present];
      i := i + 1;
    }
    assert roster[..i] == roster;
  }

  /** The status submitted for `id`: the stored value, or `Absent` when there
      is none. JavaScript's `||` also replaces an empty (falsy) string. */
  function StatusOrAbsent(attendance: map<string, string>, id: string): (s: string)
    ensures s != ""
    ensures s == Absent || (id in attendance && s == attendance[id])
  {
    if id in attendance && attendance[id] != "" then attendance[id] else Absent
  }

  /** The `studentStatuses` of the payload: one entry per roster student, in
      roster order. */
  function StudentStatuses(students: seq<Student>, attendance: map<string, string>): (r: seq<StudentStatus>)
    ensures |r| == |students|
    ensures forall i :: 0 <= i < |students| ==> r[i].studentId == students[i].id
    ensures forall i :: 0 <= i < |students| ==> r[i].status == StatusOrAbsent(attendance, students[i].id)
  {
    if students == [] then []
    else [StudentStatus(students[0].id, StatusOrAbsent(attendance, students[0].id))]
         + StudentStatuses(students[1..], attendance)
  }

  /** The calendar-date part of an ISO timestamp: everything before the
      first 'T' (the whole string when there is none). */
  function DatePart(iso: string): (d: string)
    ensures d <= iso
    ensures 'T' !in d
    ensures |d| < |iso| ==> iso[|d|] == 'T'
  {
    if iso == [] || iso[0] == 'T' then [] else [iso[0]] + DatePart(iso[1..])
  }

  /** For a timestamp "date T rest" whose date part holds no 'T', the payload
      date is exactly that date. */
  lemma {:induction false} DatePartOfTimestamp(date: string, rest: string)
    requires 'T' !in date
    ensures DatePart(date + "T" + rest) == date
  {
    if date != [] {
      assert (date + "T" + rest)[1..] == date[1..] + "T" + rest;
      assert date[0] in date;
      DatePartOfTimestamp(date[1..], rest);
    }
  }

  /** The three properties of `DatePart` determine it: any prefix without
      'T' that stops at a 'T' or at the end is the date part. */
  lemma DatePartUnique(iso: string, d: string)
    requires d <= iso && 'T' !in d
    requires |d| < |iso| ==> iso[|d|] == 'T'
    ensures DatePart(iso) == d
  {
  }

  /** Each payload status is the stored status when there is a non-empty one,
      and `Absent` otherwise. */
  lemma PayloadStatus(students: seq<Student>, attendance: map<string, string>, i: nat)
    requires i < |students|
    ensures var r := StudentStatuses(students, attendance);
      && (students[i].id in attendance && attendance[students[i].id] != "" ==>
            r[i].status == attendance[students[i].id])
      && (students[i].id !in attendance ==> r[i].status == Absent)
  {
  }

  /** With a map built by `InitialAttendance` and no toggles, every submitted
      status is `Present`. */
  lemma UntouchedRollIsAllPresent(students: seq<Student>, attendance: map<string, string>)
    requires attendance.Keys == Ids(students)
    requires forall id :: id in attendance ==> attendance[id] == Present
    ensures forall i :: 0 <= i < |students| ==> StudentStatuses(students, attendance)[i].status == Present
  {
  }

  /** Roster [s1, s2, s3] with s1 marked Present, s3 marked Late and no entry
      for s2 submits [(s1, Present), (s2, Absent), (s3, Late)]. */
  lemma MissingEntryDefaultsToAbsent()
    ensures StudentStatuses([Student("s1", "A"), Student("s2", "B"), Student("s3", "C")],
                            map["s1" := Present, "s3" := Late])
         == [StudentStatus("s1", Present), StudentStatus("s2", Absent), StudentStatus("s3", Late)]
  {
  }

  /** The background colour of a status pill. */
  function PillColor(status: string, isActive: bool): (c: string)
    ensures !isActive ==> c == LightGrey
    ensures isActive && status !in AttendanceOptions ==> c == UnknownPillColor
  {
    var color :=
      if status == Present then PrimaryColor
      else if status == Absent then DangerColor
      else if status == Late then AccentColor
      else UnknownPillColor;
    if isActive then color else LightGrey
  }

  /** The active pills of the three options have three different colours,
      none of them the inactive grey or the unknown-status grey. */
  lemma ActivePillColorsDistinct()
    ensures PillColor(Present, true) == PrimaryColor
    ensures PillColor(Absent, true) == DangerColor
    ensures PillColor(Late, true) == AccentColor
    ensures forall i, j :: 0 <= i < j < |AttendanceOptions| ==>
      PillColor(AttendanceOptions[i], true) != PillColor(AttendanceOptions[j], true)
    ensures forall i :: 0 <= i < |AttendanceOptions| ==>
      PillColor(AttendanceOptions[i], true) !in {LightGrey, UnknownPillColor}
  {
  }

  /** The state of one attendance-taking screen. */
  class Sheet {
    const classId: string
    var students: seq<Student>
    var attendance: map<string, string>
    var isLoading: bool
    var isSubmitting: bool

    /** The map covers exactly the roster, and holds only the three options. */
    ghost predicate Valid()
      reads this
    {
      && attendance.Keys == Ids(students)
      && forall id :: id in attendance ==> attendance[id] in AttendanceOptions
    }

    constructor (classId: string)
      ensures this.classId == classId
      ensures students == [] && attendance == map[]
      ensures isLoading && !isSubmitting
      ensures Valid()
    {
      this.classId := classId;
      students := [];
      attendance := map[];
      isLoading := true;
      isSubmitting := false;
    }

    /** The roster arrives: store it and mark everyone `Present`. */
    method Load(roster: seq<Student>)
      modifies this
      ensures students == roster
      ensures attendance.Keys == Ids(roster)
      ensures forall id :: id in attendance ==> attendance[id] == Present
      ensures !isLoading && isSubmitting == old(isSubmitting)
      ensures Valid()
    {
      isLoading := true;
      students := roster;
      attendance := InitialAttendance(roster);
      isLoading := false;
    }

    /** Set one student's status; every other entry is left as it was. The
        invariant survives exactly when the id is on the roster and the
        status is one of the options. */
    method Toggle(studentId: string, status: string)
      requires Valid()
      modifies this`attendance
      ensures attendance == old(attendance)[studentId := status]
      ensures forall id :: id in old(attendance) && id != studentId ==>
        id in attendance && attendance[id] == old(attendance)[id]
      ensures Valid() <==> (studentId in Ids(students) && status in AttendanceOptions)
    {
      attendance := attendance[studentId := status];
    }

    /** A press on pill `option` of row `row`: the only way the screen calls
        `Toggle`, so the invariant is kept. */
    method PressPill(row: nat, option: nat)
      requires Valid()
      requires row < |students| && option < |AttendanceOptions|
      modifies this`attendance
      ensures attendance == old(attendance)[students[row].id := AttendanceOptions[option]]
      ensures Valid()
    {
      assert students[row].id in Ids(students);
      Toggle(students[row].id, AttendanceOptions[option]);
    }

    /** The submission payload for the roster and map as they stand. */
    method BuildPayload(timestamp: string) returns (p: Payload)
      ensures p.classId == classId
      ensures p.date == DatePart(timestamp)
      ensures |p.studentStatuses| == |students|
      ensures forall i :: 0 <= i < |students| ==> p.studentStatuses[i].studentId == students[i].id
      ensures forall i :: 0 <= i < |students| ==>
        p.studentStatuses[i].status == StatusOrAbsent(attendance, students[i].id)
      ensures Valid() ==> forall i :: 0 <= i < |students| ==>
        p.studentStatuses[i].status == attendance[students[i].id]
        && p.studentStatuses[i].status in AttendanceOptions
    {
      p := Payload(classId, DatePart(timestamp), StudentStatuses(students, attendance));
      if Valid() {
        forall i | 0 <= i < |students|
          ensures p.studentStatuses[i].status == attendance[students[i].id]
        {
          assert students[i].id in Ids(students);
        }
      }
    }

    /** Submit the roll: the payload is built while `isSubmitting` is set; the
        flag is reset afterwards and the roster and map are kept. */
    method Submit(timestamp: string) returns (p: Payload)
      modifies this`isSubmitting
      ensures p == Payload(classId, DatePart(timestamp), StudentStatuses(students, attendance))
      ensures !isSubmitting
    {
      isSubmitting := true;
      p := BuildPayload(timestamp);
      isSubmitting := false;
    }
  }
}
