/**
 * The query of `GET /api/reports/attendance`: attendance rows joined with
 * their employee, kept when they satisfy every supplied filter, ordered by
 * date descending and then check-in time descending.
 */
module Reports {
  import opened Wrappers
  import opened Text
  import opened Attendance

  /** One WHERE clause the handler appends, with its bound parameter. */
  datatype Condition =
    | DateFrom(start: string)     // a.date >= ?
    | DateUntil(end: string)      // a.date <= ?
    | EmployeeIs(id: string)      // a.employee_id = ?

  predicate Holds(c: Condition, r: Record)
  {
    match c
    case DateFrom(start) => LexLe(start, r.date)
    case DateUntil(end) => LexLe(r.date, end)
    case EmployeeIs(id) => r.employeeId == id
  }

  predicate AllHold(conds: seq<Condition>, r: Record)
  {
    forall k :: 0 <= k < |conds| ==> Holds(conds[k], r)
  }

  /** A query value counts only when present and non-empty (JavaScript truthiness). */
  predicate Supplied(v: Option<string>)
  {
    v.Some? && v.value != ""
  }

  /** The rows a report request asks for: every supplied bound holds, an omitted one imposes nothing. */
  predicate Wanted(r: Record, startDate: Option<string>, endDate: Option<string>, employeeId: Option<string>)
  {
    && (Supplied(startDate) ==> LexLe(startDate.value, r.date))
    && (Supplied(endDate) ==> LexLe(r.date, endDate.value))
    && (Supplied(employeeId) ==> r.employeeId == employeeId.value)
  }

  /** A row of the report: `a.*` and the joined `e.name`. */
  datatype ReportRow = ReportRow(record: Record, name: string)

  /**
   * The join with the employees table and the WHERE clauses, in table order.
   * A record whose employee is not registered has no partner in the join.
   */
  function Selected(rows: seq<Record>, employees: seq<Employee>, conds: seq<Condition>): (out: seq<ReportRow>)
    ensures forall k :: 0 <= k < |out| ==>
      && out[k].record in rows
      && AllHold(conds, out[k].record)
      && FindEmployee(employees, out[k].record.employeeId) == Some(Employee(out[k].record.employeeId, out[k].name))
    ensures forall i :: 0 <= i < |rows| && AllHold(conds, rows[i]) && FindEmployee(employees, rows[i].employeeId).Some? ==>
      ReportRow(rows[i], FindEmployee(employees, rows[i].employeeId).value.name) in out
    ensures |out| <= |rows|
  {
    if rows == [] then []
    else
      var rest := Selected(rows[1..], employees, conds);
      match FindEmployee(employees, rows[0].employeeId)
      case Some(e) =>
        if AllHold(conds, rows[0]) then [ReportRow(rows[0], e.name)] + rest else rest
      case None => rest
  }

  /** `checkin_time DESC`, with NULL after every time (SQLite's rule). */
  predicate CheckinNotAfterInOrder(a: Option<int>, b: Option<int>)
  {
    b.None? || (a.Some? && a.value >= b.value)
  }

  /** `x` may be listed before `y` under `ORDER BY a.date DESC, a.checkin_time DESC`. */
  predicate Precedes(x: ReportRow, y: ReportRow)
  {
    || LexLess(y.record.date, x.record.date)
    || (x.record.date == y.record.date && CheckinNotAfterInOrder(x.record.checkin, y.record.checkin))
  }

  lemma PrecedesTotal(x: ReportRow, y: ReportRow)
    ensures Precedes(x, y) || Precedes(y, x)
  {
    LexTrichotomy(x.record.date, y.record.date);
  }

  lemma PrecedesTransitive(x: ReportRow, y: ReportRow, z: ReportRow)
    requires Precedes(x, y) && Precedes(y, z)
    ensures Precedes(x, z)
  {
    var a, b, c := x.record.date, y.record.date, z.record.date;
    if LexLess(b, a) && LexLess(c, b) {
      LexLessTransitive(c, b, a);
    }
  }

  predicate Sorted(s: seq<ReportRow>)
  {
    forall i, j :: 0 <= i < j < |s| ==> Precedes(s[i], s[j])
  }

  function Insert(x: ReportRow, s: seq<ReportRow>): (r: seq<ReportRow>)
    ensures multiset(r) == multiset(s) + multiset{x}
  {
    if s == [] then [x]
    else if Precedes(x, s[0]) then [x] + s
    else
      assert s == [s[0]] + s[1..];
      [s[0]] + Insert(x, s[1..])
  }

  lemma {:induction false} InsertSorted(x: ReportRow, s: seq<ReportRow>)
    requires Sorted(s)
    ensures Sorted(Insert(x, s))
  {
    if s != [] {
      if Precedes(x, s[0]) {
        forall j | 0 < j < |s|
          ensures Precedes(x, s[j])
        {
          PrecedesTransitive(x, s[0], s[j]);
        }
      } else {
        PrecedesTotal(x, s[0]);
        var tail := Insert(x, s[1..]);
        InsertSorted(x, s[1..]);
        forall k | 0 <= k < |tail|
          ensures Precedes(s[0], tail[k])
        {
          assert tail[k] in multiset(tail);
          if tail[k] != x {
            assert tail[k] in multiset(s[1..]);
            var m :| 0 <= m < |s[1..]| && s[1..][m] == tail[k];
            assert s[1..][m] == s[m + 1];
          }
        }
      }
    }
  }

  /** The ORDER BY: the same rows, in report order. */
  function SortRows(s: seq<ReportRow>): (r: seq<ReportRow>)
    ensures multiset(r) == multiset(s)
  {
    if s == [] then []
    else
      assert s == [s[0]] + s[1..];
      Insert(s[0], SortRows(s[1..]))
  }

  lemma {:induction false} SortRowsSorted(s: seq<ReportRow>)
    ensures Sorted(SortRows(s))
  {
    if s != [] {
      SortRowsSorted(s[1..]);
      InsertSorted(s[0], SortRows(s[1..]));
    }
  }

  /** The full report: joined, filtered and ordered. */
  function Report(rows: seq<Record>, employees: seq<Employee>, conds: seq<Condition>): (out: seq<ReportRow>)
    ensures multiset(out) == multiset(Selected(rows, employees, conds))
    ensures Sorted(out)
  {
    var sel := Selected(rows, employees, conds);
    SortRowsSorted(sel);
    SortRows(sel)
  }

  /**
   * Every report row is a record of the table that satisfies every condition,
   * joined with its employee's name, and every such record of a registered
   * employee is reported.
   */
  lemma ReportCorrect(rows: seq<Record>, employees: seq<Employee>, conds: seq<Condition>)
    ensures var out := Report(rows, employees, conds);
      && (forall k :: 0 <= k < |out| ==>
            out[k].record in rows && AllHold(conds, out[k].record)
            && FindEmployee(employees, out[k].record.employeeId) == Some(Employee(out[k].record.employeeId, out[k].name)))
      && (forall i :: 0 <= i < |rows| && AllHold(conds, rows[i]) && rows[i].employeeId in EmployeeIds(employees) ==>
            ReportRow(rows[i], FindEmployee(employees, rows[i].employeeId).value.name) in out)
  {
    var sel := Selected(rows, employees, conds);
    var out := Report(rows, employees, conds);
    forall k | 0 <= k < |out|
      ensures out[k] in sel
    {
      assert out[k] in multiset(out);
    }
    forall row | row in sel
      ensures row in out
    {
      assert row in multiset(sel);
    }
    ReportFromSelected(rows, employees, conds, out);
  }

  /**
   * Any list holding exactly the selected rows holds only matching records,
   * each with its employee's name, and all matching records of registered employees.
   */
  lemma ReportFromSelected(rows: seq<Record>, employees: seq<Employee>, conds: seq<Condition>, out: seq<ReportRow>)
    requires forall k :: 0 <= k < |out| ==> out[k] in Selected(rows, employees, conds)
    requires forall row :: row in Selected(rows, employees, conds) ==> row in out
    ensures forall k :: 0 <= k < |out| ==>
      && out[k].record in rows && AllHold(conds, out[k].record)
      && FindEmployee(employees, out[k].record.employeeId) == Some(Employee(out[k].record.employeeId, out[k].name))
    ensures forall i :: 0 <= i < |rows| && AllHold(conds, rows[i]) && rows[i].employeeId in EmployeeIds(employees) ==>
      ReportRow(rows[i], FindEmployee(employees, rows[i].employeeId).value.name) in out
  {
    var sel := Selected(rows, employees, conds);
    forall k | 0 <= k < |out|
      ensures out[k].record in rows && AllHold(conds, out[k].record)
      ensures FindEmployee(employees, out[k].record.employeeId) == Some(Employee(out[k].record.employeeId, out[k].name))
    {
      var m :| 0 <= m < |sel| && sel[m] == out[k];
    }
    forall i | 0 <= i < |rows| && AllHold(conds, rows[i]) && rows[i].employeeId in EmployeeIds(employees)
      ensures ReportRow(rows[i], FindEmployee(employees, rows[i].employeeId).value.name) in out
    {
      assert ReportRow(rows[i], FindEmployee(employees, rows[i].employeeId).value.name) in sel;
    }
  }

  /** Ids increase along the table, so no record is reported twice. */
  lemma {:induction false} SelectedNoDuplicates(rows: seq<Record>, employees: seq<Employee>, conds: seq<Condition>)
    requires forall i, j :: 0 <= i < j < |rows| ==> rows[i].id < rows[j].id
    ensures forall row :: multiset(Selected(rows, employees, conds))[row] <= 1
  {
    if rows != [] {
      var rest := rows[1..];
      IncreasingTail(rows);
      SelectedNoDuplicates(rest, employees, conds);
      var sel := Selected(rest, employees, conds);
      assert rows[0] !in rest;
      forall k | 0 <= k < |sel|
        ensures sel[k].record != rows[0]
      {
      }
      match FindEmployee(employees, rows[0].employeeId)
      case Some(e) =>
        if AllHold(conds, rows[0]) {
          var x := ReportRow(rows[0], e.name);
          assert x !in sel;
          assert multiset(Selected(rows, employees, conds)) == multiset{x} + multiset(sel);
        }
      case None =>
    }
  }

  /** The rows after the first keep increasing ids, all above the first's. */
  lemma IncreasingTail(rows: seq<Record>)
    requires rows != []
    requires forall i, j :: 0 <= i < j < |rows| ==> rows[i].id < rows[j].id
    ensures forall i, j :: 0 <= i < j < |rows[1..]| ==> rows[1..][i].id < rows[1..][j].id
    ensures forall k :: 0 <= k < |rows[1..]| ==> rows[0].id < rows[1..][k].id
  {
    forall i, j | 0 <= i < j < |rows[1..]|
      ensures rows[1..][i].id < rows[1..][j].id
    {
      assert rows[1..][i] == rows[i + 1] && rows[1..][j] == rows[j + 1];
    }
    forall k | 0 <= k < |rows[1..]|
      ensures rows[0].id < rows[1..][k].id
    {
      assert rows[1..][k] == rows[k + 1];
    }
  }

  /**
   * The value a handler reads for one query parameter: the value paired with
   * the name's first occurrence, or `None` when the name is absent.
   */
  function QueryValue(params: seq<(string, string)>, name: string): (v: Option<string>)
    ensures v.None? <==> forall k :: 0 <= k < |params| ==> params[k].0 != name
    ensures forall k :: 0 <= k < |params| && params[k].0 == name
                        && (forall j :: 0 <= j < k ==> params[j].0 != name) ==>
      v == Some(params[k].1)
    ensures v.Some? ==> (name, v.value) in params
  {
    if params == [] then None
    else if params[0].0 == name then Some(params[0].1)
    else QueryValue(params[1..], name)
  }
}
