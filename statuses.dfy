/** Attendance statuses and the per-student status entry shared by the
    attendance-taking screen (which produces them) and the record screen
    (which reads them back from the server). Statuses travel as plain
    strings, as in the app; the closed set is `AttendanceOptions`. */
module Statuses {

  datatype Option<T> = None | Some(value: T)

  const Present: string := "Present"
  const Absent: string := "Absent"
  const Late: string := "Late"

  /** The three choices offered per student, in display order. */
  const AttendanceOptions: seq<string> := [Present, Absent, Late]

  /** One `{studentId, status}` entry of a submission or of a stored record. */
  datatype StudentStatus = StudentStatus(studentId: string, status: string)

  /** The `status` column of a list of entries. */
  function StatusColumn(entries: seq<StudentStatus>): seq<string>
  {
    seq(|entries|, i requires 0 <= i < |entries| => entries[i].status)
  }
}
