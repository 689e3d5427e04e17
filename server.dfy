/**
 * The server's handlers over an in-memory database: the scan endpoint, the
 * attendance report and the dashboard counts. The tables are fields that
 * the scan handler updates in place.
 */
module Server {
  import opened Wrappers
  import opened Attendance
  import opened Dashboard
  import opened Reports

  /**
   * The report handler's `query += ' AND ...'; params.push(...)` steps: one
   * condition per supplied filter, in the order start date, end date, employee.
   */
  method BuildConditions(startDate: Option<string>, endDate: Option<string>, employeeId: Option<string>)
    returns (conds: seq<Condition>)
    ensures forall r :: AllHold(conds, r) <==> Wanted(r, startDate, endDate, employeeId)
    ensures |conds| == (if Supplied(startDate) then 1 else 0)
                     + (if Supplied(endDate) then 1 else 0)
                     + (if Supplied(employeeId) then 1 else 0)
  {
    conds := [];
    if Supplied(startDate) {
      conds := conds + [DateFrom(startDate.value)];
    }
    if Supplied(endDate) {
      conds := conds + [DateUntil(endDate.value)];
    }
    if Supplied(employeeId) {
      conds := conds + [EmployeeIs(employeeId.value)];
    }
    forall r
      ensures AllHold(conds, r) <==> Wanted(r, startDate, endDate, employeeId)
    {
      if Supplied(startDate) {
        assert DateFrom(startDate.value) in conds;
      }
      if Supplied(endDate) {
        assert DateUntil(endDate.value) in conds;
      }
      if Supplied(employeeId) {
        assert EmployeeIs(employeeId.value) in conds;
      }
    }
  }

  class AttendanceServer {
    var employees: seq<Employee>
    var attendance: seq<Record>
    var nextId: nat

    ghost predicate Valid()
      reads this
    {
      Consistent(employees, attendance, nextId)
    }

    /** A server over a registered staff and an empty attendance table. */
    constructor (roster: seq<Employee>)
      requires UniqueIds(roster)
      ensures Valid()
      ensures employees == roster && attendance == [] && nextId == 1
    {
      employees := roster;
      attendance := [];
      nextId := 1;
    }

    /** `SELECT * FROM attendance WHERE employee_id = ? AND date = ?` through `db.get`. */
    method FindRecord(emp: string, day: string) returns (found: Option<nat>)
      ensures found == FirstMatch(attendance, emp, day)
    {
      var i := 0;
      while i < |attendance|
        invariant 0 <= i <= |attendance|
        invariant forall j :: 0 <= j < i ==> !IsFor(attendance[j], emp, day)
      {
        if IsFor(attendance[i], emp, day) {
          return Some(i);
        }
        i := i + 1;
      }
      return None;
    }

    /**
     * `POST /api/attendance/scan`. `qrData` is the result of parsing the
     * scanned text (`None` when it does not parse); `today` and `now` are the
     * server's date and clock at the time of the request.
     */
    method Scan(qrData: Option<Payload>, employeeId: string, today: string, now: int) returns (reply: Reply)
      requires Valid()
      modifies this
      ensures Valid()
      ensures employees == old(employees)
      ensures var s := Resolve(old(employees), old(attendance), old(nextId), qrData, employeeId, today, now);
        reply == s.reply && attendance == s.rows && nextId == s.nextId
    {
      ResolvePreservesConsistency(employees, attendance, nextId, qrData, employeeId, today, now);
      if qrData.None? {
        return Rejected(InvalidQrData);
      }
      var info := qrData.value;
      if info.date != Some(today) {
        return Rejected(NotValidToday);
      }
      if FindEmployee(employees, employeeId).None? {
        return Rejected(EmployeeNotFound);
      }
      if info.kind == Some("checkin") {
        var found := FindRecord(employeeId, today);
        if found.Some? && attendance[found.value].checkin.Some? {
          return Rejected(AlreadyCheckedIn);
        }
        if found.Some? {
          var i := found.value;
          attendance := attendance[i := attendance[i].(checkin := Some(now))];
        } else {
          attendance := attendance + [Record(nextId, employeeId, today, Some(now), None)];
          nextId := nextId + 1;
        }
        reply := Accepted(CheckIn);
      } else if info.kind == Some("checkout") {
        var found := FindRecord(employeeId, today);
        if found.None? || attendance[found.value].checkin.None? {
          return Rejected(MustCheckInFirst);
        }
        var i := found.value;
        if attendance[i].checkout.Some? {
          return Rejected(AlreadyCheckedOut);
        }
        attendance := attendance[i := attendance[i].(checkout := Some(now))];
        reply := Accepted(CheckOut);
      } else {
        reply := NoReply;
      }
    }

    /** The answer to one of the dashboard's three COUNT queries. */
    function CountQuery(index: nat, today: string): nat
      reads this
      requires index < 3
    {
      if index == 0 then |employees|
      else if index == 1 then PresentCount(attendance, today)
      else CheckedOutCount(attendance, today)
    }

    /**
     * `GET /api/dashboard/stats`: runs the three queries in turn and fills
     * the result field by field.
     */
    method DashboardStats(today: string) returns (stats: Stats)
      requires Valid()
      ensures stats.totalEmployees == |employees|
      ensures stats.presentToday == PresentCount(attendance, today)
      ensures stats.checkedOutToday == CheckedOutCount(attendance, today)
      ensures stats.checkedOutToday <= stats.presentToday <= stats.totalEmployees
    {
      var total, present, checkedOut := 0, 0, 0;
      var completed := 0;
      for index := 0 to 3
        invariant completed == index
        invariant index > 0 ==> total == |employees|
        invariant index > 1 ==> present == PresentCount(attendance, today)
        invariant index > 2 ==> checkedOut == CheckedOutCount(attendance, today)
      {
        var count := CountQuery(index, today);
        if index == 0 { total := count; }
        if index == 1 { present := count; }
        if index == 2 { checkedOut := count; }
        completed := completed + 1;
      }
      stats := Stats(total, present, checkedOut);
      CountsOrdered(employees, attendance, nextId, today);
    }

    /**
     * `GET /api/reports/attendance`: every registered employee's record that
     * satisfies each supplied filter, joined with that employee's name, each
     * once, in report order.
     */
    method AttendanceReport(startDate: Option<string>, endDate: Option<string>, employeeId: Option<string>)
      returns (out: seq<ReportRow>)
      requires Valid()
      ensures Sorted(out)
      ensures forall k :: 0 <= k < |out| ==>
        && out[k].record in attendance
        && Wanted(out[k].record, startDate, endDate, employeeId)
        && FindEmployee(employees, out[k].record.employeeId) == Some(Employee(out[k].record.employeeId, out[k].name))
      ensures forall i :: 0 <= i < |attendance| && Wanted(attendance[i], startDate, endDate, employeeId)
                          && attendance[i].employeeId in EmployeeIds(employees) ==>
        ReportRow(attendance[i], FindEmployee(employees, attendance[i].employeeId).value.name) in out
      ensures forall row :: multiset(out)[row] <= 1
    {
      var conds := BuildConditions(startDate, endDate, employeeId);
      out := Report(attendance, employees, conds);
      ReportCorrect(attendance, employees, conds);
      SelectedNoDuplicates(attendance, employees, conds);
    }
  }
}
