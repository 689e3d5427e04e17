/**
 * The payloads `POST /api/admin/generate-qr` puts into the day's two QR
 * codes. The image encoding and the qr_codes rows are not modelled; the
 * scanner reads back the payload's `type` and `date` members.
 */
module QrIssue {
  import opened Wrappers
  import opened Attendance

  /** The object serialised into a QR code. */
  datatype QrData = QrData(kind: string, date: string, timestamp: int, url: string)

  /** The day's codes, as the response describes them. */
  datatype IssuedCodes = IssuedCodes(checkin: QrData, checkout: QrData, date: string, url: string)

  const DefaultBaseUrl: string := "https://web-production-d9315.up.railway.app"

  /** `process.env.RAILWAY_URL || DefaultBaseUrl`: an unset or empty variable falls back. */
  function BaseUrl(railwayUrl: Option<string>): (url: string)
    ensures url != ""
    ensures railwayUrl.Some? && railwayUrl.value != "" ==> url == railwayUrl.value
    ensures railwayUrl.None? || railwayUrl.value == "" ==> url == DefaultBaseUrl
  {
    if railwayUrl.Some? && railwayUrl.value != "" then railwayUrl.value else DefaultBaseUrl
  }

  /**
   * The two payloads for `today`; `checkinAt` and `checkoutAt` are the two
   * reads of the millisecond clock.
   */
  function IssueCodes(today: string, checkinAt: int, checkoutAt: int, railwayUrl: Option<string>): (c: IssuedCodes)
    ensures c.checkin.kind == TypeTag(CheckIn) && c.checkout.kind == TypeTag(CheckOut)
    ensures c.checkin.date == today && c.checkout.date == today && c.date == today
    ensures c.checkin.url == c.url && c.checkout.url == c.url && c.url == BaseUrl(railwayUrl)
  {
    var url := BaseUrl(railwayUrl);
    IssuedCodes(
      QrData("checkin", today, checkinAt, url),
      QrData("checkout", today, checkoutAt, url),
      today,
      url)
  }

  /** What the scan handler reads back after `JSON.parse(JSON.stringify(d))`. */
  function Scanned(d: QrData): Payload
  {
    Payload(Some(d.kind), Some(d.date))
  }

  /**
   * The day's codes do what their names say: scanned the same day by a
   * registered employee, the check-in code is accepted exactly when the
   * employee has not checked in, and the check-out code exactly when the
   * employee has checked in and not yet out.
   */
  lemma IssuedCodesDriveTheStateMachine(employees: seq<Employee>, rows: seq<Record>, nextId: nat,
                                        today: string, checkinAt: int, checkoutAt: int,
                                        railwayUrl: Option<string>, emp: string, now: int)
    requires emp in EmployeeIds(employees)
    ensures var c := IssueCodes(today, checkinAt, checkoutAt, railwayUrl);
      && ((Resolve(employees, rows, nextId, Some(Scanned(c.checkin)), emp, today, now).reply == Accepted(CheckIn))
          <==> StateOf(rows, emp, today) == NotCheckedIn)
      && ((Resolve(employees, rows, nextId, Some(Scanned(c.checkout)), emp, today, now).reply == Accepted(CheckOut))
          <==> StateOf(rows, emp, today) == CheckedIn)
  {
  }

  /**
   * A code issued on one day is refused on any other day, whoever scans it,
   * and the table is left as it was.
   */
  lemma StaleCodeRefused(employees: seq<Employee>, rows: seq<Record>, nextId: nat,
                         issueDay: string, scanDay: string, checkinAt: int, checkoutAt: int,
                         railwayUrl: Option<string>, emp: string, now: int)
    requires issueDay != scanDay
    ensures var c := IssueCodes(issueDay, checkinAt, checkoutAt, railwayUrl);
      && Resolve(employees, rows, nextId, Some(Scanned(c.checkin)), emp, scanDay, now)
           == Step(Rejected(NotValidToday), rows, nextId)
      && Resolve(employees, rows, nextId, Some(Scanned(c.checkout)), emp, scanDay, now)
           == Step(Rejected(NotValidToday), rows, nextId)
  {
  }
}
