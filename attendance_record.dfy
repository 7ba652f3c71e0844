/** The record screen: how the outcome of fetching the latest record is
    classified, the status counts shown in its summary, and the status
    colours of its rows. */
module AttendanceRecord {
  import opened Statuses
  import AttendanceSheet

  const PrimaryColor: string := "#4CAF50"
  const AbsentColor: string := "#F44336"
  const LateColor: string := "#FFC107"
  const OtherStatusColor: string := "#666"

  /** The record as the server returns it. */
  datatype Record = Record(date: string, teacher: string, studentStatuses: seq<StudentStatus>)

  /** An HTTP response: its status code and its body, `None` when the body
      cannot be read as a record. */
  datatype Response = Response(status: int, body: Option<Record>)

  /** What a fetch leaves behind: the record the screen holds afterwards and
      whether an error alert was raised. */
  datatype FetchOutcome = FetchOutcome(record: Option<Record>, alert: bool)

  datatype Summary = Summary(total: nat, present: nat, absent: nat, late: nat)

  /** What the screen shows once loading is over. */
  datatype View = EmptyState | RecordView(record: Record, summary: Summary)

  /** `response.ok`: a status in the 2xx range. */
  predicate IsOk(status: int)
  {
    200 <= status <= 299
  }

  /** Fetch the latest record. `response` is `None` when the request itself
      fails; `previous` is the record the screen held before. */
  function FetchLastRecord(previous: Option<Record>, response: Option<Response>): (o: FetchOutcome)
    ensures response.Some? && response.value.status == 404 ==> o == FetchOutcome(None, false)
    ensures response.Some? && response.value.status != 404 && !IsOk(response.value.status) ==>
      o == FetchOutcome(previous, true)
    ensures response.None? ==> o == FetchOutcome(previous, true)
    ensures response.Some? && IsOk(response.value.status) ==>
      o == if response.value.body.Some? then FetchOutcome(response.value.body, false)
           else FetchOutcome(previous, true)
  {
    match response
    case None => FetchOutcome(previous, true)
    case Some(r) =>
      if r.status == 404 then FetchOutcome(None, false)
      else if !IsOk(r.status) then FetchOutcome(previous, true)
      else match r.body
        case None => FetchOutcome(previous, true)
        case Some(rec) => FetchOutcome(Some(rec), false)
  }

  /** The entries with exactly the given status (the filter). */
  function WithStatus(entries: seq<StudentStatus>, status: string): (r: seq<StudentStatus>)
    ensures |r| <= |entries|
    ensures forall e :: e in r ==> e in entries && e.status == status
    ensures forall e :: e in entries && e.status == status ==> e in r
  {
    if entries == [] then []
    else if entries[0].status == status then [entries[0]] + WithStatus(entries[1..], status)
    else WithStatus(entries[1..], status)
  }

  /** The length of the filtered list: the number of occurrences of exactly
      that status in the status column. */
  function CountOf(entries: seq<StudentStatus>, status: string): (n: nat)
    ensures n <= |entries|
    ensures n == multiset(StatusColumn(entries))[status]
  {
    CountIsOccurrences(entries, status);
    |WithStatus(entries, status)|
  }

  /** The summary block: the total and the three per-status counts, each the
      number of occurrences of that status. */
  function Summarize(entries: seq<StudentStatus>): (r: Summary)
    ensures r.total == |entries|
    ensures r.present == multiset(StatusColumn(entries))[Present]
    ensures r.absent == multiset(StatusColumn(entries))[Absent]
    ensures r.late == multiset(StatusColumn(entries))[Late]
  {
    Summary(|entries|, CountOf(entries, Present), CountOf(entries, Absent), CountOf(entries, Late))
  }

  /** The screen once loading has finished. */
  function Render(record: Option<Record>): (v: View)
    ensures record.None? <==> v.EmptyState?
    ensures record.Some? ==>
      v.record == record.value && v.summary.total == |record.value.studentStatuses|
  {
    match record
    case None => EmptyState
    case Some(r) => RecordView(r, Summarize(r.studentStatuses))
  }

  /** The row colour of a status. */
  function StatusColor(status: string): (c: string)
    ensures status !in AttendanceOptions ==> c == OtherStatusColor
  {
    if status == Present then PrimaryColor
    else if status == Absent then AbsentColor
    else if status == Late then LateColor
    else OtherStatusColor
  }

  // ---- the counts -------------------------------------------------------

  lemma {:induction false} CountAppend(a: seq<StudentStatus>, b: seq<StudentStatus>, status: string)
    ensures CountOf(a + b, status) == CountOf(a, status) + CountOf(b, status)
  {
    if a == [] {
      assert a + b == b;
    } else {
      assert (a + b)[1..] == a[1..] + b;
      CountAppend(a[1..], b, status);
    }
  }

  /** The filter keeps as many entries as the status occurs in the status
      column. */
  lemma {:induction false} CountIsOccurrences(entries: seq<StudentStatus>, status: string)
    ensures |WithStatus(entries, status)| == multiset(StatusColumn(entries))[status]
  {
    if entries != [] {
      CountIsOccurrences(entries[1..], status);
      assert StatusColumn(entries) == [entries[0].status] + StatusColumn(entries[1..]);
    }
  }

  /** Taking out the entry at index `i` lowers the count by that entry's
      share and removes one copy of it from the multiset. */
  lemma RemoveAt(b: seq<StudentStatus>, i: nat, status: string)
    requires i < |b|
    ensures CountOf(b, status) == CountOf([b[i]], status) + CountOf(b[..i] + b[i + 1..], status)
    ensures multiset(b[..i] + b[i + 1..]) == multiset(b) - multiset{b[i]}
  {
    assert b == b[..i] + [b[i]] + b[i + 1..];
    CountAppend(b[..i] + [b[i]], b[i + 1..], status);
    CountAppend(b[..i], [b[i]], status);
    CountAppend(b[..i], b[i + 1..], status);
  }

  /** A count does not depend on the order of the entries. */
  lemma {:induction false} CountPermutation(a: seq<StudentStatus>, b: seq<StudentStatus>, status: string)
    requires multiset(a) == multiset(b)
    ensures CountOf(a, status) == CountOf(b, status)
    decreases |a|
  {
    if a == [] {
      assert b == [];
    } else {
      assert a[0] in multiset(b);
      var i :| 0 <= i < |b| && b[i] == a[0];
      RemoveAt(b, i, status);
      assert a == [a[0]] + a[1..];
      assert multiset(a[1..]) == multiset(a) - multiset{a[0]};
      CountPermutation(a[1..], b[..i] + b[i + 1..], status);
      CountAppend([a[0]], a[1..], status);
    }
  }

  /** Reordering the entries leaves the whole summary unchanged. */
  lemma SummaryOrderIndependent(a: seq<StudentStatus>, b: seq<StudentStatus>)
    requires multiset(a) == multiset(b)
    ensures Summarize(a) == Summarize(b)
  {
    assert |a| == |multiset(a)| == |multiset(b)| == |b|;
    CountPermutation(a, b, Present);
    CountPermutation(a, b, Absent);
    CountPermutation(a, b, Late);
  }

  /** The number of entries with one of the three statuses. */
  function Classified(entries: seq<StudentStatus>): nat
  {
    CountOf(entries, Present) + CountOf(entries, Absent) + CountOf(entries, Late)
  }

  /** A count is the first entry's share plus the count of the rest. */
  lemma CountStep(entries: seq<StudentStatus>, status: string)
    requires entries != []
    ensures CountOf(entries, status) ==
      (if entries[0].status == status then 1 else 0) + CountOf(entries[1..], status)
  {
  }

  /** The three counts never exceed the total, and they add up to it exactly
      when every status is one of the three options. */
  lemma {:induction false} CountsBoundedByTotal(entries: seq<StudentStatus>)
    ensures Classified(entries) <= |entries|
    ensures Classified(entries) == |entries| <==>
      forall i :: 0 <= i < |entries| ==> entries[i].status in AttendanceOptions
  {
    if entries != [] {
      var rest := entries[1..];
      CountsBoundedByTotal(rest);
      CountStep(entries, Present);
      CountStep(entries, Absent);
      CountStep(entries, Late);
      var head := if entries[0].status in AttendanceOptions then 1 else 0;
      assert Classified(entries) == head + Classified(rest);
      if Classified(entries) == |entries| {
        assert entries[0].status in AttendanceOptions;
        forall i | 0 <= i < |entries| ensures entries[i].status in AttendanceOptions {
          if i > 0 { assert entries[i] == rest[i - 1]; }
        }
      }
      if forall i :: 0 <= i < |entries| ==> entries[i].status in AttendanceOptions {
        assert entries[0].status in AttendanceOptions;
        forall i | 0 <= i < |rest| ensures rest[i].status in AttendanceOptions {
          assert rest[i] == entries[i + 1];
        }
      }
    }
  }

  /** The summary of [Present, Present, Absent, Late]. */
  lemma SummaryExample()
    ensures Summarize([StudentStatus("a", Present), StudentStatus("b", Present),
                       StudentStatus("c", Absent), StudentStatus("d", Late)])
         == Summary(4, 2, 1, 1)
  {
    var e := [StudentStatus("a", Present), StudentStatus("b", Present),
              StudentStatus("c", Absent), StudentStatus("d", Late)];
    assert e[3..][1..] == [] && e[2..][1..] == e[3..] && e[1..][1..] == e[2..];
    assert WithStatus(e[3..], Present) == [] && WithStatus(e[3..], Absent) == [];
    assert WithStatus(e[3..], Late) == [e[3]];
    assert WithStatus(e[2..], Present) == [];
    assert WithStatus(e[2..], Absent) == [e[2]] && WithStatus(e[2..], Late) == [e[3]];
    assert WithStatus(e[1..], Present) == [e[1]];
    assert WithStatus(e, Present) == [e[0], e[1]];
    assert WithStatus(e, Absent) == [e[2]];
    assert WithStatus(e, Late) == [e[3]];
  }

  // ---- fetch classification --------------------------------------------

  /** A 404 shows the empty state, without an alert, whatever the screen held
      before and whatever the body. */
  lemma NotFoundShowsEmptyState(previous: Option<Record>, body: Option<Record>)
    ensures var o := FetchLastRecord(previous, Some(Response(404, body)));
      !o.alert && Render(o.record) == EmptyState
  {
  }

  /** Any other non-2xx status, and a failed request, take the error path:
      an alert, and the held record is left as it was. */
  lemma OtherFailuresAlert(previous: Option<Record>, response: Option<Response>)
    requires response.None? || (response.value.status != 404 && !IsOk(response.value.status))
    ensures var o := FetchLastRecord(previous, response);
      o.alert && o.record == previous
  {
  }

  /** A 2xx response with a record shows that record and its summary. */
  lemma OkShowsRecord(previous: Option<Record>, status: int, rec: Record)
    requires IsOk(status)
    ensures var o := FetchLastRecord(previous, Some(Response(status, Some(rec))));
      !o.alert && Render(o.record) == RecordView(rec, Summarize(rec.studentStatuses))
  {
  }

  /** An alert is raised exactly when the response is neither a 404 nor a
      readable 2xx. */
  lemma AlertIffError(previous: Option<Record>, response: Option<Response>)
    ensures FetchLastRecord(previous, response).alert <==>
      (response.None? ||
       (response.value.status != 404 && !(IsOk(response.value.status) && response.value.body.Some?)))
  {
  }

  // ---- colours ---------------------------------------------------------

  /** The three statuses get three different colours, none of them the
      colour of an unknown status. */
  lemma StatusColorsDistinct()
    ensures StatusColor(Present) == PrimaryColor
    ensures StatusColor(Absent) == AbsentColor
    ensures StatusColor(Late) == LateColor
    ensures forall i, j :: 0 <= i < j < |AttendanceOptions| ==>
      StatusColor(AttendanceOptions[i]) != StatusColor(AttendanceOptions[j])
    ensures forall i :: 0 <= i < |AttendanceOptions| ==>
      StatusColor(AttendanceOptions[i]) != OtherStatusColor
  {
  }

  /** A status shown in a record row has the colour its active pill had on
      the attendance-taking screen; unknown statuses differ between the two. */
  lemma RowColorMatchesActivePill(status: string)
    ensures status in AttendanceOptions ==> StatusColor(status) == AttendanceSheet.PillColor(status, true)
    ensures status !in AttendanceOptions ==> StatusColor(status) != AttendanceSheet.PillColor(status, true)
  {
  }
}
