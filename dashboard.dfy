/**
 * The three counts of `GET /api/dashboard/stats`: registered employees,
 * today's records with a check-in time, today's records with a check-out time.
 */
module Dashboard {
  import opened Wrappers
  import opened Attendance

  datatype Stats = Stats(totalEmployees: nat, presentToday: nat, checkedOutToday: nat)

  predicate IsPresent(r: Record, day: string)
  {
    r.date == day && r.checkin.Some?
  }

  predicate IsCheckedOut(r: Record, day: string)
  {
    r.date == day && r.checkout.Some?
  }

  /** `COUNT(*) ... WHERE date = ? AND checkin_time IS NOT NULL`. */
  function PresentCount(rows: seq<Record>, day: string): (c: nat)
    ensures c <= |rows|
    ensures c == 0 <==> forall i :: 0 <= i < |rows| ==> !IsPresent(rows[i], day)
  {
    if rows == [] then 0
    else
      assert forall i :: 1 <= i < |rows| ==> rows[i] == rows[1..][i - 1];
      (if IsPresent(rows[0], day) then 1 else 0) + PresentCount(rows[1..], day)
  }

  /** `COUNT(*) ... WHERE date = ? AND checkout_time IS NOT NULL`. */
  function CheckedOutCount(rows: seq<Record>, day: string): (c: nat)
    ensures c <= |rows|
    ensures c == 0 <==> forall i :: 0 <= i < |rows| ==> !IsCheckedOut(rows[i], day)
  {
    if rows == [] then 0
    else
      assert forall i :: 1 <= i < |rows| ==> rows[i] == rows[1..][i - 1];
      (if IsCheckedOut(rows[0], day) then 1 else 0) + CheckedOutCount(rows[1..], day)
  }

  /** Nobody has checked out today who has not checked in today. */
  lemma {:induction false} CheckedOutAtMostPresent(rows: seq<Record>, day: string)
    requires CheckoutNeedsCheckin(rows)
    ensures CheckedOutCount(rows, day) <= PresentCount(rows, day)
  {
    if rows != [] {
      assert CheckoutNeedsCheckin(rows[1..]) by {
        forall i | 0 <= i < |rows[1..]| && rows[1..][i].checkout.Some?
          ensures rows[1..][i].checkin.Some?
        {
          assert rows[1..][i] == rows[i + 1];
        }
      }
      CheckedOutAtMostPresent(rows[1..], day);
    }
  }

  /** The employees present on `day`. */
  function PresentIds(rows: seq<Record>, day: string): set<string>
  {
    if rows == [] then {}
    else (if IsPresent(rows[0], day) then {rows[0].employeeId} else {}) + PresentIds(rows[1..], day)
  }

  /** A present employee has a present row. */
  lemma {:induction false} PresentIdsWitness(rows: seq<Record>, day: string, x: string) returns (j: nat)
    requires x in PresentIds(rows, day)
    ensures j < |rows| && rows[j].employeeId == x && IsPresent(rows[j], day)
  {
    if IsPresent(rows[0], day) && rows[0].employeeId == x {
      j := 0;
    } else {
      var k := PresentIdsWitness(rows[1..], day, x);
      j := k + 1;
    }
  }

  /** An employee none of whose rows is present is not among the present ids. */
  lemma {:induction false} AbsentFromPresentIds(rows: seq<Record>, day: string, x: string)
    requires forall j :: 0 <= j < |rows| && rows[j].employeeId == x ==> !IsPresent(rows[j], day)
    ensures x !in PresentIds(rows, day)
  {
    if rows != [] {
      AbsentFromPresentIds(rows[1..], day, x);
    }
  }

  /** With one record per employee and day, the count is the number of present employees. */
  lemma {:induction false} PresentCountIsHeadcount(rows: seq<Record>, day: string)
    requires OnePerDay(rows)
    ensures PresentCount(rows, day) == |PresentIds(rows, day)|
  {
    if rows != [] {
      var rest := rows[1..];
      assert OnePerDay(rest) by {
        forall i, j | 0 <= i < j < |rest|
          ensures !IsFor(rest[j], rest[i].employeeId, rest[i].date)
        {
          assert rest[i] == rows[i + 1] && rest[j] == rows[j + 1];
        }
      }
      PresentCountIsHeadcount(rest, day);
      if IsPresent(rows[0], day) {
        forall j | 0 <= j < |rest| && rest[j].employeeId == rows[0].employeeId
          ensures !IsPresent(rest[j], day)
        {
          assert rest[j] == rows[j + 1];
        }
        AbsentFromPresentIds(rest, day, rows[0].employeeId);
      }
    }
  }

  lemma {:induction false} SubsetCardinality(a: set<string>, b: set<string>)
    requires a <= b
    ensures |a| <= |b|
    decreases |a|
  {
    if a != {} {
      var x :| x in a;
      SubsetCardinality(a - {x}, b - {x});
    }
  }

  /** Distinct employee ids: as many ids as employees. */
  lemma {:induction false} EmployeeIdsCardinality(employees: seq<Employee>)
    requires UniqueIds(employees)
    ensures |EmployeeIds(employees)| == |employees|
  {
    if employees != [] {
      var rest := employees[1..];
      assert UniqueIds(rest) by {
        forall i, j | 0 <= i < j < |rest|
          ensures rest[i].employeeId != rest[j].employeeId
        {
          assert rest[i] == employees[i + 1] && rest[j] == employees[j + 1];
        }
      }
      EmployeeIdsCardinality(rest);
      forall j | 0 <= j < |rest|
        ensures rest[j].employeeId != employees[0].employeeId
      {
        assert rest[j] == employees[j + 1];
      }
      assert employees[0].employeeId !in EmployeeIds(rest);
    }
  }

  /**
   * On a consistent table the dashboard's counts are ordered:
   * checked out <= present <= registered employees.
   */
  lemma CountsOrdered(employees: seq<Employee>, rows: seq<Record>, nextId: nat, day: string)
    requires Consistent(employees, rows, nextId)
    ensures CheckedOutCount(rows, day) <= PresentCount(rows, day) <= |employees|
  {
    CheckedOutAtMostPresent(rows, day);
    PresentCountIsHeadcount(rows, day);
    forall x | x in PresentIds(rows, day)
      ensures x in EmployeeIds(employees)
    {
      var j := PresentIdsWitness(rows, day, x);
    }
    SubsetCardinality(PresentIds(rows, day), EmployeeIds(employees));
    EmployeeIdsCardinality(employees);
  }
}
