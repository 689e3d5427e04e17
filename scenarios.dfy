/**
 * Concrete days at the attendance desk: a full day, a check-out without a
 * check-in, an unregistered id, and a stale code.
 */
module Scenarios {
  import opened Wrappers
  import opened Attendance
  import opened Server
  import opened ClientReports
  import opened Text

  function Staff(): seq<Employee>
  {
    [Employee("E1", "Ada"), Employee("E2", "Grace")]
  }

  const Day: string := "2024-01-01"
  const NineAm: int := 1704099600     // 2024-01-01 09:00:00 UTC
  const TenAm: int := NineAm + 3600
  const FivePm: int := NineAm + 8 * 3600

  /** E1 checks in at 09:00:00 and out at 17:00:00: one record with both times, shown as "8h 0m". */
  lemma FullDay()
    ensures var s1 := Resolve(Staff(), [], 1, Some(CheckInPayload(Day)), "E1", Day, NineAm);
      var s2 := Resolve(Staff(), s1.rows, s1.nextId, Some(CheckOutPayload(Day)), "E1", Day, FivePm);
      && s1.reply == Accepted(CheckIn)
      && s2.reply == Accepted(CheckOut)
      && s2.rows == [Record(1, "E1", Day, Some(NineAm), Some(FivePm))]
      && WorkingHours(s2.rows[0].checkin, s2.rows[0].checkout) == "8h 0m"
  {
    WorkingHoursFormat(NineAm, FivePm, 8, 0);
    assert NatToString(8) == "8" && NatToString(0) == "0";
  }

  /** E2 tries to check out at 10:00:00 without having checked in: refused, nothing written. */
  lemma CheckOutWithoutCheckIn()
    ensures Resolve(Staff(), [], 1, Some(CheckOutPayload(Day)), "E2", Day, TenAm)
      == Step(Rejected(MustCheckInFirst), [], 1)
    ensures ErrorText(MustCheckInFirst) == "Must check in before checking out"
  {
  }

  /** An id nobody registered is refused and no record is created. */
  lemma UnknownEmployee()
    ensures Resolve(Staff(), [], 1, Some(CheckInPayload(Day)), "E9", Day, NineAm)
      == Step(Rejected(EmployeeNotFound), [], 1)
  {
    assert "E9" !in EmployeeIds(Staff());
  }

  /** A day at the desk, against the server object: E1 comes and goes; a repeated check-in gets HTTP 400. */
  method DeskDay()
  {
    var server := new AttendanceServer(Staff());
    var r := server.Scan(Some(CheckInPayload(Day)), "E1", Day, NineAm);
    assert r == Accepted(CheckIn) && Status(r) == Some(200);
    r := server.Scan(Some(CheckInPayload(Day)), "E1", Day, TenAm);
    assert r == Rejected(AlreadyCheckedIn) && Status(r) == Some(400);
    r := server.Scan(Some(CheckOutPayload(Day)), "E1", Day, FivePm);
    assert r == Accepted(CheckOut);
    assert server.attendance == [Record(1, "E1", Day, Some(NineAm), Some(FivePm))];
    var stats := server.DashboardStats(Day);
    assert stats.totalEmployees == 2;
  }

  /** Refusals at the server object answer HTTP 400 and leave its table empty. */
  method DeskRefusals()
  {
    var server := new AttendanceServer(Staff());
    var r := server.Scan(Some(CheckOutPayload(Day)), "E2", Day, TenAm);
    assert r == Rejected(MustCheckInFirst);
    r := server.Scan(Some(CheckInPayload("2023-12-31")), "E2", Day, TenAm);
    assert r == Rejected(NotValidToday);
    r := server.Scan(None, "E2", Day, TenAm);
    assert r == Rejected(InvalidQrData) && Status(r) == Some(400);
    assert server.attendance == [];
  }
}
