/**
 * The per-employee, per-day attendance state machine of the scan endpoint
 * (`POST /api/attendance/scan` in server.js).
 *
 * The attendance table is a sequence of rows in insertion (id) order; a
 * `SELECT ... WHERE employee_id = ? AND date = ?` answered by `db.get` is the
 * first matching row. Timestamps are seconds on the server clock; dates are
 * the `YYYY-MM-DD` strings the server formats, compared as strings.
 */
module Attendance {
  import opened Wrappers

  /** A row of the employees table; only the columns the core reads. */
  datatype Employee = Employee(employeeId: string, name: string)

  /** A row of the attendance table. `None` is SQL NULL. */
  datatype Record = Record(
    id: nat,
    employeeId: string,
    date: string,
    checkin: Option<int>,
    checkout: Option<int>)

  /**
   * What the handler reads from the parsed QR text: its `type` and `date`
   * members, each `None` when the member is absent or is not a string.
   * A QR text that does not parse (or parses to `null`) is `None` one level up.
   */
  datatype Payload = Payload(kind: Option<string>, date: Option<string>)

  datatype Direction = CheckIn | CheckOut

  datatype Failure =
    | InvalidQrData
    | NotValidToday
    | EmployeeNotFound
    | AlreadyCheckedIn
    | MustCheckInFirst
    | AlreadyCheckedOut

  /**
   * The handler's answer. `NoReply` is the case where a same-day payload for a
   * registered employee has a `type` that is neither "checkin" nor
   * "checkout": the handler then sends no response at all.
   */
  datatype Reply = Accepted(direction: Direction) | Rejected(failure: Failure) | NoReply

  /** The `error` text of each rejection. */
  function ErrorText(f: Failure): string
  {
    match f
    case InvalidQrData => "Invalid QR code data"
    case NotValidToday => "QR code is not valid for today"
    case EmployeeNotFound => "Employee not found. Please contact admin to register your ID."
    case AlreadyCheckedIn => "Already checked in today"
    case MustCheckInFirst => "Must check in before checking out"
    case AlreadyCheckedOut => "Already checked out today"
  }

  /** The `type` tag of a payload, and of a successful response, for each direction. */
  function TypeTag(d: Direction): string
  {
    match d
    case CheckIn => "checkin"
    case CheckOut => "checkout"
  }

  /** The `message` of a successful response. */
  function SuccessText(d: Direction): string
  {
    match d
    case CheckIn => "Check-in successful"
    case CheckOut => "Check-out successful"
  }

  /** The HTTP status of a reply; `None` when no response is sent. */
  function Status(r: Reply): (code: Option<nat>)
    ensures code == Some(200) <==> r.Accepted?
    ensures code == Some(400) <==> r.Rejected?
    ensures code == None <==> r.NoReply?
  {
    match r
    case Accepted(_) => Some(200)
    case Rejected(_) => Some(400)
    case NoReply => None
  }

  // ---------------------------------------------------------------------------
  // Looking rows up

  /** The index of the first employee with the given id (`employees.find`, or the SELECT). */
  function EmployeeIndex(employees: seq<Employee>, id: string): (k: Option<nat>)
    ensures k.Some? ==> k.value < |employees| && employees[k.value].employeeId == id
    ensures k.Some? ==> forall j :: 0 <= j < k.value ==> employees[j].employeeId != id
    ensures k.None? ==> forall j :: 0 <= j < |employees| ==> employees[j].employeeId != id
  {
    if employees == [] then None
    else if employees[0].employeeId == id then Some(0)
    else match EmployeeIndex(employees[1..], id)
      case None => None
      case Some(k) => Some(k + 1)
  }

  function FindEmployee(employees: seq<Employee>, id: string): Option<Employee>
  {
    match EmployeeIndex(employees, id)
    case None => None
    case Some(k) => Some(employees[k])
  }

  /** The ids of the registered employees. */
  function EmployeeIds(employees: seq<Employee>): (ids: set<string>)
    ensures forall id :: id in ids <==> EmployeeIndex(employees, id).Some?
  {
    if employees == [] then {}
    else {employees[0].employeeId} + EmployeeIds(employees[1..])
  }

  predicate IsFor(r: Record, emp: string, day: string)
  {
    r.employeeId == emp && r.date == day
  }

  /** The index of the row `db.get` returns for (employee, day): the first match. */
  function FirstMatch(rows: seq<Record>, emp: string, day: string): (k: Option<nat>)
    ensures k.Some? ==> k.value < |rows| && IsFor(rows[k.value], emp, day)
    ensures k.Some? ==> forall j :: 0 <= j < k.value ==> !IsFor(rows[j], emp, day)
    ensures k.None? ==> forall j :: 0 <= j < |rows| ==> !IsFor(rows[j], emp, day)
  {
    if rows == [] then None
    else if IsFor(rows[0], emp, day) then Some(0)
    else match FirstMatch(rows[1..], emp, day)
      case None => None
      case Some(k) => Some(k + 1)
  }

  /** The record for (employee, day), if there is one. */
  function TodayRecord(rows: seq<Record>, emp: string, day: string): Option<Record>
  {
    match FirstMatch(rows, emp, day)
    case None => None
    case Some(i) => Some(rows[i])
  }

  // ---------------------------------------------------------------------------
  // The table invariants

  /** The employees table's UNIQUE constraint on employee_id. */
  predicate UniqueIds(employees: seq<Employee>)
  {
    forall i, j :: 0 <= i < j < |employees| ==> employees[i].employeeId != employees[j].employeeId
  }

  /** No record has a check-out time without a check-in time. */
  predicate CheckoutNeedsCheckin(rows: seq<Record>)
  {
    forall i :: 0 <= i < |rows| && rows[i].checkout.Some? ==> rows[i].checkin.Some?
  }

  /** At most one record per (employee, date). */
  predicate OnePerDay(rows: seq<Record>)
  {
    forall i, j :: 0 <= i < j < |rows| ==> !IsFor(rows[j], rows[i].employeeId, rows[i].date)
  }

  /** Every record belongs to a registered employee. */
  predicate KnownEmployees(employees: seq<Employee>, rows: seq<Record>)
  {
    forall i :: 0 <= i < |rows| ==> rows[i].employeeId in EmployeeIds(employees)
  }

  /** AUTOINCREMENT ids: increasing in table order and below the next id handed out. */
  predicate IdsBelow(rows: seq<Record>, nextId: nat)
  {
    && (forall i, j :: 0 <= i < j < |rows| ==> rows[i].id < rows[j].id)
    && (forall i :: 0 <= i < |rows| ==> rows[i].id < nextId)
  }

  predicate Consistent(employees: seq<Employee>, rows: seq<Record>, nextId: nat)
  {
    && UniqueIds(employees)
    && CheckoutNeedsCheckin(rows)
    && OnePerDay(rows)
    && KnownEmployees(employees, rows)
    && IdsBelow(rows, nextId)
  }

  // ---------------------------------------------------------------------------
  // The state machine

  /** NONE -> CHECKED_IN -> CHECKED_OUT, read off today's record. */
  datatype DayState = NotCheckedIn | CheckedIn | CheckedOut

  function StateOf(rows: seq<Record>, emp: string, day: string): DayState
  {
    match TodayRecord(rows, emp, day)
    case None => NotCheckedIn
    case Some(r) =>
      if r.checkin.None? then NotCheckedIn
      else if r.checkout.None? then CheckedIn
      else CheckedOut
  }

  /**
   * With at most one record per employee and day, the state is what that
   * record holds: checked out when it has both times, checked in when it has
   * only a check-in, and not checked in otherwise.
   */
  lemma StateReadsTheTable(rows: seq<Record>, emp: string, day: string)
    requires OnePerDay(rows)
    ensures StateOf(rows, emp, day) == CheckedOut <==>
      exists i :: 0 <= i < |rows| && IsFor(rows[i], emp, day)
                  && rows[i].checkin.Some? && rows[i].checkout.Some?
    ensures StateOf(rows, emp, day) == CheckedIn <==>
      exists i :: 0 <= i < |rows| && IsFor(rows[i], emp, day)
                  && rows[i].checkin.Some? && rows[i].checkout.None?
  {
  }

  /** The only legal transitions: one step forward. */
  predicate Advances(before: DayState, after: DayState)
  {
    || (before == NotCheckedIn && after == CheckedIn)
    || (before == CheckedIn && after == CheckedOut)
  }

  /** The reply to a scan, the attendance table after it, and the next row id. */
  datatype Step = Step(reply: Reply, rows: seq<Record>, nextId: nat)

  /** The check-in branch of `processAttendance`. */
  function ApplyCheckIn(rows: seq<Record>, nextId: nat, emp: string, today: string, now: int): (s: Step)
    ensures s.reply == if StateOf(rows, emp, today) == NotCheckedIn
                       then Accepted(CheckIn) else Rejected(AlreadyCheckedIn)
    ensures s.reply.Rejected? ==> s.rows == rows && s.nextId == nextId
    ensures s.reply.Accepted? ==>
      match FirstMatch(rows, emp, today)
      case Some(i) =>
        s.rows == rows[i := rows[i].(checkin := Some(now))] && s.nextId == nextId
      case None =>
        s.rows == rows + [Record(nextId, emp, today, Some(now), None)] && s.nextId == nextId + 1
  {
    match FirstMatch(rows, emp, today)
    case Some(i) =>
      if rows[i].checkin.Some? then Step(Rejected(AlreadyCheckedIn), rows, nextId)
      else Step(Accepted(CheckIn), rows[i := rows[i].(checkin := Some(now))], nextId)
    case None =>
      Step(Accepted(CheckIn), rows + [Record(nextId, emp, today, Some(now), None)], nextId + 1)
  }

  /** The check-out branch of `processAttendance`. */
  function ApplyCheckOut(rows: seq<Record>, nextId: nat, emp: string, today: string, now: int): (s: Step)
    ensures s.nextId == nextId
    ensures s.reply == match StateOf(rows, emp, today)
                       case NotCheckedIn => Rejected(MustCheckInFirst)
                       case CheckedIn => Accepted(CheckOut)
                       case CheckedOut => Rejected(AlreadyCheckedOut)
    ensures s.reply.Rejected? ==> s.rows == rows
    ensures s.reply.Accepted? ==>
      FirstMatch(rows, emp, today).Some? &&
      var i := FirstMatch(rows, emp, today).value;
      s.rows == rows[i := rows[i].(checkout := Some(now))]
  {
    match FirstMatch(rows, emp, today)
    case None => Step(Rejected(MustCheckInFirst), rows, nextId)
    case Some(i) =>
      if rows[i].checkin.None? then Step(Rejected(MustCheckInFirst), rows, nextId)
      else if rows[i].checkout.Some? then Step(Rejected(AlreadyCheckedOut), rows, nextId)
      else Step(Accepted(CheckOut), rows[i := rows[i].(checkout := Some(now))], nextId)
  }

  /** Whether a parsed payload asks for the given direction. */
  predicate Asks(p: Payload, d: Direction)
  {
    p.kind == Some(TypeTag(d))
  }

  /**
   * The scan handler: parse check, date check, employee lookup, then the
   * branch the payload's `type` selects.
   */
  function Resolve(employees: seq<Employee>, rows: seq<Record>, nextId: nat,
                   qr: Option<Payload>, emp: string, today: string, now: int): (s: Step)
    ensures qr.None? ==> s == Step(Rejected(InvalidQrData), rows, nextId)
    ensures qr.Some? && qr.value.date != Some(today) ==>
      s == Step(Rejected(NotValidToday), rows, nextId)
    ensures qr.Some? && qr.value.date == Some(today) && emp !in EmployeeIds(employees) ==>
      s == Step(Rejected(EmployeeNotFound), rows, nextId)
    ensures s.reply.Accepted? ==>
      && qr.Some? && qr.value.date == Some(today)
      && emp in EmployeeIds(employees)
      && Asks(qr.value, s.reply.direction)
    ensures !s.reply.Accepted? ==> s.rows == rows && s.nextId == nextId
    ensures s.reply == NoReply <==>
      && qr.Some? && qr.value.date == Some(today)
      && emp in EmployeeIds(employees)
      && !Asks(qr.value, CheckIn) && !Asks(qr.value, CheckOut)
  {
    if qr.None? then Step(Rejected(InvalidQrData), rows, nextId)
    else if qr.value.date != Some(today) then Step(Rejected(NotValidToday), rows, nextId)
    else if EmployeeIndex(employees, emp).None? then Step(Rejected(EmployeeNotFound), rows, nextId)
    else if qr.value.kind == Some("checkin") then ApplyCheckIn(rows, nextId, emp, today, now)
    else if qr.value.kind == Some("checkout") then ApplyCheckOut(rows, nextId, emp, today, now)
    else Step(NoReply, rows, nextId)
  }

  // ---------------------------------------------------------------------------
  // How the first match moves when the table changes

  lemma {:induction false} FirstMatchSameKeys(rows: seq<Record>, rows': seq<Record>, emp: string, day: string)
    requires |rows| == |rows'|
    requires forall j :: 0 <= j < |rows| ==> (IsFor(rows[j], emp, day) <==> IsFor(rows'[j], emp, day))
    ensures FirstMatch(rows, emp, day) == FirstMatch(rows', emp, day)
  {
    if rows != [] && !IsFor(rows[0], emp, day) {
      FirstMatchSameKeys(rows[1..], rows'[1..], emp, day);
    }
  }

  lemma {:induction false} FirstMatchAppend(rows: seq<Record>, r: Record, emp: string, day: string)
    ensures FirstMatch(rows + [r], emp, day) ==
      if FirstMatch(rows, emp, day).Some? then FirstMatch(rows, emp, day)
      else if IsFor(r, emp, day) then Some(|rows|)
      else None
  {
    if rows != [] && !IsFor(rows[0], emp, day) {
      assert (rows + [r])[1..] == rows[1..] + [r];
      FirstMatchAppend(rows[1..], r, emp, day);
    }
  }

  /** Changing a row without changing its key leaves every lookup where it was. */
  lemma KeyPreservingUpdate(rows: seq<Record>, i: nat, r: Record, emp: string, day: string)
    requires i < |rows| && r.employeeId == rows[i].employeeId && r.date == rows[i].date
    ensures FirstMatch(rows[i := r], emp, day) == FirstMatch(rows, emp, day)
  {
    FirstMatchSameKeys(rows, rows[i := r], emp, day);
  }

  // ---------------------------------------------------------------------------
  // What every scan guarantees

  lemma CheckInPreservesConsistency(employees: seq<Employee>, rows: seq<Record>, nextId: nat,
                                    emp: string, today: string, now: int)
    requires Consistent(employees, rows, nextId) && emp in EmployeeIds(employees)
    ensures var s := ApplyCheckIn(rows, nextId, emp, today, now);
      Consistent(employees, s.rows, s.nextId)
  {
    var s := ApplyCheckIn(rows, nextId, emp, today, now);
    if s.reply.Accepted? {
      var k := FirstMatch(rows, emp, today);
      if k.None? {
        AppendPreservesConsistency(employees, rows, nextId, Record(nextId, emp, today, Some(now), None));
      } else {
        UpdatePreservesConsistency(employees, rows, nextId, k.value, rows[k.value].(checkin := Some(now)));
      }
    }
  }

  lemma CheckOutPreservesConsistency(employees: seq<Employee>, rows: seq<Record>, nextId: nat,
                                     emp: string, today: string, now: int)
    requires Consistent(employees, rows, nextId)
    ensures var s := ApplyCheckOut(rows, nextId, emp, today, now);
      Consistent(employees, s.rows, s.nextId)
  {
    var s := ApplyCheckOut(rows, nextId, emp, today, now);
    if s.reply.Accepted? {
      var i := FirstMatch(rows, emp, today).value;
      UpdatePreservesConsistency(employees, rows, nextId, i, rows[i].(checkout := Some(now)));
    }
  }

  /** Appending a registered employee's first record of the day, under the next id, keeps the table consistent. */
  lemma AppendPreservesConsistency(employees: seq<Employee>, rows: seq<Record>, nextId: nat, r: Record)
    requires Consistent(employees, rows, nextId)
    requires r.id == nextId && r.employeeId in EmployeeIds(employees)
    requires r.checkout.Some? ==> r.checkin.Some?
    requires forall i :: 0 <= i < |rows| ==> !IsFor(rows[i], r.employeeId, r.date)
    ensures Consistent(employees, rows + [r], nextId + 1)
  {
    var t := rows + [r];
    assert forall i :: 0 <= i < |rows| ==> t[i] == rows[i];
    assert t[|rows|] == r;
    assert OnePerDay(t) by {
      forall i, j | 0 <= i < j < |t|
        ensures !IsFor(t[j], t[i].employeeId, t[i].date)
      {
        if j == |rows| {
          assert !IsFor(rows[i], r.employeeId, r.date);
        }
      }
    }
  }

  /** Rewriting one row in place, keeping its id and key, keeps the table consistent. */
  lemma UpdatePreservesConsistency(employees: seq<Employee>, rows: seq<Record>, nextId: nat, i: nat, r: Record)
    requires Consistent(employees, rows, nextId) && i < |rows|
    requires r.id == rows[i].id && r.employeeId == rows[i].employeeId && r.date == rows[i].date
    requires r.checkout.Some? ==> r.checkin.Some?
    ensures Consistent(employees, rows[i := r], nextId)
  {
  }

  /**
   * Every scan keeps the table consistent: no check-out without check-in, at
   * most one record per (employee, date), only registered employees, fresh ids.
   */
  lemma ResolvePreservesConsistency(employees: seq<Employee>, rows: seq<Record>, nextId: nat,
                                    qr: Option<Payload>, emp: string, today: string, now: int)
    requires Consistent(employees, rows, nextId)
    ensures var s := Resolve(employees, rows, nextId, qr, emp, today, now);
      Consistent(employees, s.rows, s.nextId)
  {
    if qr.Some? && qr.value.date == Some(today) && emp in EmployeeIds(employees) {
      if qr.value.kind == Some("checkin") {
        CheckInPreservesConsistency(employees, rows, nextId, emp, today, now);
      } else if qr.value.kind == Some("checkout") {
        CheckOutPreservesConsistency(employees, rows, nextId, emp, today, now);
      }
    }
  }

  /**
   * The state machine: an accepted scan moves today's state of the scanning
   * employee exactly one step forward, a refused one changes nothing, and no
   * other (employee, date) pair changes state.
   */
  lemma ScanFollowsStateMachine(employees: seq<Employee>, rows: seq<Record>, nextId: nat,
                                qr: Option<Payload>, emp: string, today: string, now: int)
    requires Consistent(employees, rows, nextId)
    ensures var s := Resolve(employees, rows, nextId, qr, emp, today, now);
      && (s.reply.Accepted? ==> Advances(StateOf(rows, emp, today), StateOf(s.rows, emp, today)))
      && (s.reply == Accepted(CheckIn) ==> StateOf(s.rows, emp, today) == CheckedIn)
      && (s.reply == Accepted(CheckOut) ==> StateOf(s.rows, emp, today) == CheckedOut)
      && (!s.reply.Accepted? ==> s.rows == rows)
      && (forall e, d :: e != emp || d != today ==> StateOf(s.rows, e, d) == StateOf(rows, e, d))
  {
    var s := Resolve(employees, rows, nextId, qr, emp, today, now);
    if s.reply.Accepted? {
      var k := FirstMatch(rows, emp, today);
      if k.None? {
        var r := Record(nextId, emp, today, Some(now), None);
        assert s.rows == rows + [r];
        FirstMatchAppend(rows, r, emp, today);
        OtherStatesAfterAppend(rows, r);
      } else {
        var i := k.value;
        assert s.rows == rows[i := s.rows[i]];
        KeyPreservingUpdate(rows, i, s.rows[i], emp, today);
        OtherStatesAfterUpdate(rows, i, s.rows[i]);
      }
    }
  }

  /** Appending a row changes no other (employee, date) pair's state. */
  lemma OtherStatesAfterAppend(rows: seq<Record>, r: Record)
    ensures forall e, d :: e != r.employeeId || d != r.date ==> StateOf(rows + [r], e, d) == StateOf(rows, e, d)
  {
    forall e, d | e != r.employeeId || d != r.date
      ensures StateOf(rows + [r], e, d) == StateOf(rows, e, d)
    {
      FirstMatchAppend(rows, r, e, d);
      var m := FirstMatch(rows, e, d);
      if m.Some? {
        assert (rows + [r])[m.value] == rows[m.value];
      }
    }
  }

  /** Rewriting the row a pair's lookup finds changes no other pair's state. */
  lemma OtherStatesAfterUpdate(rows: seq<Record>, i: nat, r: Record)
    requires i < |rows| && r.employeeId == rows[i].employeeId && r.date == rows[i].date
    requires FirstMatch(rows, r.employeeId, r.date) == Some(i)
    ensures forall e, d :: e != r.employeeId || d != r.date ==> StateOf(rows[i := r], e, d) == StateOf(rows, e, d)
  {
    forall e, d | e != r.employeeId || d != r.date
      ensures StateOf(rows[i := r], e, d) == StateOf(rows, e, d)
    {
      KeyPreservingUpdate(rows, i, r, e, d);
      var m := FirstMatch(rows, e, d);
      assert m.Some? ==> m.value != i;
    }
  }

  /** A check-in payload, as the check-in QR code carries it. */
  function CheckInPayload(day: string): Payload
  {
    Payload(Some("checkin"), Some(day))
  }

  function CheckOutPayload(day: string): Payload
  {
    Payload(Some("checkout"), Some(day))
  }

  /**
   * A second check-in the same day is refused and leaves the record, with the
   * check-in time of the first scan, as it was.
   */
  lemma SecondCheckInRefused(employees: seq<Employee>, rows: seq<Record>, nextId: nat,
                             emp: string, today: string, first: int, second: int)
    requires Consistent(employees, rows, nextId)
    requires Resolve(employees, rows, nextId, Some(CheckInPayload(today)), emp, today, first).reply.Accepted?
    ensures var s1 := Resolve(employees, rows, nextId, Some(CheckInPayload(today)), emp, today, first);
      var s2 := Resolve(employees, s1.rows, s1.nextId, Some(CheckInPayload(today)), emp, today, second);
      && s2 == Step(Rejected(AlreadyCheckedIn), s1.rows, s1.nextId)
      && TodayRecord(s2.rows, emp, today).Some?
      && TodayRecord(s2.rows, emp, today).value.checkin == Some(first)
  {
    var s1 := Resolve(employees, rows, nextId, Some(CheckInPayload(today)), emp, today, first);
    ScanFollowsStateMachine(employees, rows, nextId, Some(CheckInPayload(today)), emp, today, first);
    var k := FirstMatch(rows, emp, today);
    if k.None? {
      FirstMatchAppend(rows, Record(nextId, emp, today, Some(first), None), emp, today);
    } else {
      KeyPreservingUpdate(rows, k.value, s1.rows[k.value], emp, today);
    }
  }

  /**
   * A check-in followed by a check-out on the same day leaves one record with
   * both times: the check-in time of the first scan, the check-out time of the second.
   */
  lemma CheckInThenCheckOut(employees: seq<Employee>, rows: seq<Record>, nextId: nat,
                            emp: string, today: string, tIn: int, tOut: int)
    requires Consistent(employees, rows, nextId)
    requires emp in EmployeeIds(employees)
    requires StateOf(rows, emp, today) == NotCheckedIn
    ensures var s1 := Resolve(employees, rows, nextId, Some(CheckInPayload(today)), emp, today, tIn);
      var s2 := Resolve(employees, s1.rows, s1.nextId, Some(CheckOutPayload(today)), emp, today, tOut);
      && s1.reply == Accepted(CheckIn)
      && s2.reply == Accepted(CheckOut)
      && TodayRecord(s2.rows, emp, today).Some?
      && TodayRecord(s2.rows, emp, today).value.checkin == Some(tIn)
      && TodayRecord(s2.rows, emp, today).value.checkout == Some(tOut)
  {
    var s1 := Resolve(employees, rows, nextId, Some(CheckInPayload(today)), emp, today, tIn);
    ScanFollowsStateMachine(employees, rows, nextId, Some(CheckInPayload(today)), emp, today, tIn);
    var k := FirstMatch(rows, emp, today);
    if k.None? {
      FirstMatchAppend(rows, Record(nextId, emp, today, Some(tIn), None), emp, today);
    } else {
      KeyPreservingUpdate(rows, k.value, s1.rows[k.value], emp, today);
    }
    var i := FirstMatch(s1.rows, emp, today).value;
    var s2 := Resolve(employees, s1.rows, s1.nextId, Some(CheckOutPayload(today)), emp, today, tOut);
    KeyPreservingUpdate(s1.rows, i, s2.rows[i], emp, today);
  }

  /** Every timestamp is at most `t`, and no check-out precedes its check-in. */
  predicate ClockOrdered(rows: seq<Record>, t: int)
  {
    forall i :: 0 <= i < |rows| ==>
      && (rows[i].checkin.Some? ==> rows[i].checkin.value <= t)
      && (rows[i].checkout.Some? ==> rows[i].checkout.value <= t)
      && (rows[i].checkin.Some? && rows[i].checkout.Some? ==> rows[i].checkin.value <= rows[i].checkout.value)
  }

  /**
   * With a clock that never runs backwards, every recorded check-out is at or
   * after its check-in.
   */
  lemma ResolveKeepsClockOrder(employees: seq<Employee>, rows: seq<Record>, nextId: nat,
                               qr: Option<Payload>, emp: string, today: string, t: int, now: int)
    requires CheckoutNeedsCheckin(rows) && ClockOrdered(rows, t) && t <= now
    ensures ClockOrdered(Resolve(employees, rows, nextId, qr, emp, today, now).rows, now)
  {
  }
}
