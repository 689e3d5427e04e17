/**
 * The logic of the admin panel's Reports page (client/src/components/Reports.js):
 * the query it sends, the employee name it shows and the working time it prints.
 */
module ClientReports {
  import opened Wrappers
  import opened Text
  import opened Attendance
  import opened Reports

  /** The page's filter fields; an empty string is an empty input. */
  datatype Filters = Filters(startDate: string, endDate: string, employeeId: string)

  /** `fetchReports`: one query parameter per non-empty filter field, in field order. */
  function ReportParams(f: Filters): (params: seq<(string, string)>)
    ensures forall k :: 0 <= k < |params| ==> params[k].1 != ""
    ensures forall v :: ("startDate", v) in params <==> v == f.startDate && f.startDate != ""
    ensures forall v :: ("endDate", v) in params <==> v == f.endDate && f.endDate != ""
    ensures forall v :: ("employeeId", v) in params <==> v == f.employeeId && f.employeeId != ""
    ensures forall k :: 0 <= k < |params| ==> params[k].0 in {"startDate", "endDate", "employeeId"}
  {
    (if f.startDate != "" then [("startDate", f.startDate)] else [])
    + (if f.endDate != "" then [("endDate", f.endDate)] else [])
    + (if f.employeeId != "" then [("employeeId", f.employeeId)] else [])
  }

  /**
   * What the server makes of the page's query: exactly the rows that satisfy
   * each non-empty field; an empty field constrains nothing.
   */
  lemma FiltersReachServer(f: Filters, r: Record)
    ensures var params := ReportParams(f);
      Wanted(r, QueryValue(params, "startDate"), QueryValue(params, "endDate"), QueryValue(params, "employeeId"))
      <==>
      && (f.startDate != "" ==> LexLe(f.startDate, r.date))
      && (f.endDate != "" ==> LexLe(r.date, f.endDate))
      && (f.employeeId != "" ==> r.employeeId == f.employeeId)
  {
    var params := ReportParams(f);
    ParamRoundTrip(params, "startDate", f.startDate);
    ParamRoundTrip(params, "endDate", f.endDate);
    ParamRoundTrip(params, "employeeId", f.employeeId);
  }

  /** The server reads back a parameter's value when the page sent it, and nothing otherwise. */
  lemma ParamRoundTrip(params: seq<(string, string)>, name: string, value: string)
    requires forall v :: (name, v) in params <==> v == value && value != ""
    ensures Supplied(QueryValue(params, name)) <==> value != ""
    ensures value != "" ==> QueryValue(params, name) == Some(value)
  {
    if value != "" {
      assert (name, value) in params;
      var k :| 0 <= k < |params| && params[k] == (name, value);
    }
  }

  /** `getEmployeeName`: the name of the first employee with that id, else the id itself. */
  function EmployeeName(employees: seq<Employee>, employeeId: string): (name: string)
    ensures (forall k :: 0 <= k < |employees| ==> employees[k].employeeId != employeeId) ==> name == employeeId
    ensures forall k :: 0 <= k < |employees| && employees[k].employeeId == employeeId
                        && (forall j :: 0 <= j < k ==> employees[j].employeeId != employeeId) ==>
      name == employees[k].name
  {
    match FindEmployee(employees, employeeId)
    case Some(e) => e.name
    case None => employeeId
  }

  /**
   * The page's employee list is the employees table in another order
   * (`ORDER BY name`); for every report row it shows the name the server joined.
   */
  lemma PageShowsJoinedName(listed: seq<Employee>, employees: seq<Employee>,
                            rows: seq<Record>, conds: seq<Condition>, row: ReportRow)
    requires UniqueIds(employees)
    requires multiset(listed) == multiset(employees)
    requires row in Selected(rows, employees, conds)
    ensures EmployeeName(listed, row.record.employeeId) == row.name
  {
    var id := row.record.employeeId;
    var e := Employee(id, row.name);
    var m := EmployeeIndex(employees, id).value;
    assert employees[m] == e;
    assert e in multiset(listed);
    var k := EmployeeIndex(listed, id).value;
    assert listed[k] in multiset(employees);
    var n :| 0 <= n < |employees| && employees[n] == listed[k];
    assert employees[n].employeeId == employees[m].employeeId;
    assert n == m;
  }

  /** moment's `absFloor(a / b)`: the quotient rounded toward zero. */
  function AbsFloorDiv(a: int, b: int): int
    requires b > 0
  {
    if a >= 0 then a / b else -((-a) / b)
  }

  /** JavaScript's `%`: the remainder takes the sign of the dividend. */
  function JsRem(a: int, b: int): int
    requires b > 0
  {
    if a >= 0 then a % b else -((-a) % b)
  }

  /**
   * `calculateWorkingHours(checkin, checkout)` with timestamps in seconds:
   * `Math.floor(duration.asHours())` hours and `duration.minutes()` minutes.
   */
  function WorkingHours(checkin: Option<int>, checkout: Option<int>): (shown: string)
    ensures shown == "N/A" <==> checkin.None? || checkout.None?
  {
    if checkin.None? || checkout.None? then "N/A"
    else
      var elapsed := checkout.value - checkin.value;
      var hours, minutes := elapsed / 3600, JsRem(AbsFloorDiv(elapsed, 60), 60);
      assert |HoursAndMinutes(hours, minutes)| == |IntToString(hours)| + 3 + |IntToString(minutes)|;
      HoursAndMinutes(hours, minutes)
  }

  /** The template `${hours}h ${minutes}m`. */
  function HoursAndMinutes(hours: int, minutes: int): string
  {
    IntToString(hours) + "h " + IntToString(minutes) + "m"
  }

  /** A positive multiple of `b` is at least `b`. */
  lemma {:induction false} MultipleAtLeast(k: int, b: int)
    requires k >= 1 && b > 0
    ensures k * b >= b
    decreases k
  {
    if k > 1 {
      MultipleAtLeast(k - 1, b);
      assert k * b == (k - 1) * b + b;
    }
  }

  /** Quotient and remainder are unique: `q * b + r` with `0 <= r < b` divides back to `q`, `r`. */
  lemma DivideBack(q: int, r: int, b: int)
    requires b > 0 && 0 <= r < b
    ensures (q * b + r) / b == q && (q * b + r) % b == r
  {
    var a := q * b + r;
    var d := a / b;
    assert (q - d) * b == a % b - r;
    if q - d >= 1 {
      MultipleAtLeast(q - d, b);
    } else if q - d <= -1 {
      assert (d - q) * b == -((q - d) * b);
      MultipleAtLeast(d - q, b);
    }
  }

  /**
   * For a check-out at or after the check-in, the display is `"{h}h {m}m"`
   * with `h` the whole hours elapsed and `m` the whole minutes left over.
   */
  lemma WorkingHoursFormat(checkin: int, checkout: int, h: nat, m: nat)
    requires m < 60
    requires h * 3600 + m * 60 <= checkout - checkin < h * 3600 + m * 60 + 60
    ensures WorkingHours(Some(checkin), Some(checkout)) == NatToString(h) + "h " + NatToString(m) + "m"
  {
    ElapsedParts(checkout - checkin, h, m);
  }

  /** The hours and the minutes `calculateWorkingHours` takes from an elapsed time. */
  lemma ElapsedParts(elapsed: int, h: nat, m: nat)
    requires m < 60
    requires h * 3600 + m * 60 <= elapsed < h * 3600 + m * 60 + 60
    ensures elapsed / 3600 == h
    ensures JsRem(AbsFloorDiv(elapsed, 60), 60) == m
  {
    var s := elapsed - h * 3600 - m * 60;
    assert elapsed == h * 3600 + (m * 60 + s);
    DivideBack(h, m * 60 + s, 3600);
    assert elapsed == (h * 60 + m) * 60 + s;
    DivideBack(h * 60 + m, s, 60);
    DivideBack(h, m, 60);
  }

  /** Every check-out at or after its check-in is displayed as some `"{h}h {m}m"`. */
  lemma WorkingHoursWellFormed(checkin: int, checkout: int)
    requires checkin <= checkout
    ensures var e := checkout - checkin;
      WorkingHours(Some(checkin), Some(checkout))
        == NatToString(e / 3600) + "h " + NatToString(e % 3600 / 60) + "m"
  {
    var e := checkout - checkin;
    var h, m := e / 3600, e % 3600 / 60;
    assert m < 60 && h * 3600 + m * 60 <= checkout - checkin < h * 3600 + m * 60 + 60 by {
      WholeHoursAndMinutes(e);
    }
    WorkingHoursFormat(checkin, checkout, h, m);
  }

  /** Whole hours, and whole minutes of the part hour, bracket a non-negative elapsed time. */
  lemma WholeHoursAndMinutes(e: nat)
    ensures e % 3600 / 60 < 60
    ensures e / 3600 * 3600 + e % 3600 / 60 * 60 <= e < e / 3600 * 3600 + e % 3600 / 60 * 60 + 60
  {
    var h, rest := e / 3600, e % 3600;
    var m, s := rest / 60, rest % 60;
    assert e == h * 3600 + rest && 0 <= rest < 3600;
    assert rest == m * 60 + s && 0 <= s < 60;
  }

  /**
   * For a check-out before the check-in the hours are rounded down and the
   * minutes toward zero: 90 minutes backwards prints "-2h -30m".
   */
  lemma ReversedTimesDisplay()
    ensures WorkingHours(Some(36000), Some(30600)) == "-2h -30m"
  {
    assert -5400 / 3600 == -2;
    assert AbsFloorDiv(-5400, 60) == -90;
    assert JsRem(-90, 60) == -30;
    assert IntToString(-2) == "-2" by {
      assert NatToString(2) == "2";
    }
    assert IntToString(-30) == "-30" by {
      assert NatToString(3) == "3";
      assert NatToString(30) == NatToString(3) + [DigitChar(0)] == "30";
    }
    assert WorkingHours(Some(36000), Some(30600)) == HoursAndMinutes(-2, -30);
  }
}
