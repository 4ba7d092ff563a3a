/**
 * Request sequences against a freshly started service, showing what a client observes from the
 * handlers' contracts alone.
 */
module Scenarios {
  import opened Common
  import opened ObjectIds
  import opened Mongo
  import opened Records
  import opened Reports
  import opened Service

  /** Creating the same employee's advance for the same day twice: the second request is refused. */
  method AdvanceCreatedTwice(employeeId: string, amount: int, date: string) returns (first: Status, second: Status)
    requires ParseObjectId(employeeId).Some? && IsIsoDay(date)
    ensures first == Ok && second == Conflict
  {
    var office := new Office();
    first := office.CreateAdvance(employeeId, amount, date);
    assert office.advances[0] in office.advances;
    second := office.CreateAdvance(employeeId, amount + 1, date);
  }

  /** Patching an advance that was never created is refused and creates nothing. */
  method AdvancePatchedBeforeCreated(employeeId: string, amount: int, date: string) returns (st: Status, stored: nat)
    requires ParseObjectId(employeeId).Some? && IsIsoDay(date)
    ensures st == NotFound && stored == 0
  {
    var office := new Office();
    st := office.PatchAdvance(employeeId, amount, date);
    stored := |office.advances|;
  }

  /** An advance dated in a thirteenth month is refused as an invalid date, and nothing is stored. */
  method AdvanceInMonthThirteen(employeeId: string, amount: int) returns (st: Status, stored: nat)
    requires ParseObjectId(employeeId).Some?
    ensures st == ServerError && stored == 0
  {
    var office := new Office();
    st := office.CreateAdvance(employeeId, amount, "2024-13-45");
    stored := |office.advances|;
  }

  /** Two appends to one day read back as both batches, in the order appended. */
  method RatesReadBackInOrder(date: string, first: seq<RateEntry>, second: seq<RateEntry>, createdAt: string, today: string)
    returns (view: RatesView)
    requires date != ""
    ensures view == RatesView(date, first + second)
  {
    var office := new Office();
    var r1 := office.PostRates(date, first, createdAt);
    var r2 := office.PostRates(date, second, createdAt);
    view := RatesFor(office.sellingRate, date, today);
  }

  /** Patching a customer's rate on a day that has no ledger matches and modifies nothing. */
  method RatePatchedOnEmptyDay(date: string, customerName: string, price: int) returns (res: UpdateResult)
    ensures res.matchedCount == 0 && res.modifiedCount == 0
  {
    var office := new Office();
    res := office.PatchRate(date, customerName, Some(price), None, None);
  }

  /** With two entries for one customer on one day, a patch reaches only the first of them. */
  method PatchReachesFirstEntry(date: string, name: string, e1: RateEntry, e2: RateEntry, price: int)
    returns (afterPatch: seq<RateEntry>)
    requires date != "" && e1.customerName == name && e2.customerName == name && price != 0
    ensures afterPatch == [e1.(proposalPrice := price), e2]
  {
    var office := new Office();
    var posted := office.PostRates(date, [e1, e2], "");
    assert office.sellingRate == [RateDoc(date, "", [e1, e2])];
    var first := e1.(proposalPrice := price);
    assert FindFirst([e1, e2], EntryFor(name)) == Some(0);
    assert UpdateFirst([e1, e2], EntryFor(name), RatePatch(Some(price), None, None)) == [first, e2];
    var patched := office.PatchRate(date, name, Some(price), None, None);
    assert |office.sellingRate| == 1;
    assert office.sellingRate[0] == RateDoc(date, "", [first, e2]);
    assert office.sellingRate[0] in office.sellingRate;
    afterPatch := RatesOn(office.sellingRate, date);
  }

  /** With two entries for one customer on one day, removing the customer takes both of them. */
  method RemovalTakesAllEntries(date: string, name: string, e1: RateEntry, e2: RateEntry)
    returns (afterRemoval: seq<RateEntry>)
    requires date != "" && e1.customerName == name && e2.customerName == name
    ensures afterRemoval == []
  {
    var office := new Office();
    var posted := office.PostRates(date, [e1, e2], "");
    assert office.sellingRate == [RateDoc(date, "", [e1, e2])];
    WithoutAll([e1, e2], EntryFor(name));
    var removed := office.DeleteRateCustomer(date, name);
    assert |office.sellingRate| == 1;
    assert office.sellingRate[0] == RateDoc(date, "", []);
    assert office.sellingRate[0] in office.sellingRate;
    afterRemoval := RatesOn(office.sellingRate, date);
  }

  /** An employee's salary of 0 is applied by a patch, whereas an empty name or status is ignored. */
  method ZeroSalaryPatch(name: string) returns (created: Status, patched: Status, stored: Employee)
    requires name != ""
    ensures created == Ok && patched == Ok
    ensures stored == Employee(0, name, 0, ACTIVE)
  {
    var office := new Office();
    var id;
    created, id := office.CreateEmployee(name, Some(100));
    assert created == Ok && id == Some(0);
    assert office.employees == [Employee(0, name, 100, ACTIVE)];
    assert office.employees[0] in office.employees;
    ObjectIdRoundTrip(id.value);
    patched := office.PatchEmployee(FormatObjectId(id.value), "", Some(0), "");
    stored := office.employees[0];
  }

  /**
   * An employee paid 100 a day who is present on two days of a month, marked otherwise on a third,
   * present on a day outside the month and advanced 50 within it is owed 150 for the month.
   */
  lemma SalaryOfAMonth(name: string, emp: string, month: string, d1: string, d2: string, d3: string,
                       outside: string, other: string)
    requires ParseObjectId(emp) == Some(0)
    requires month <= d1 && month <= d2 && month <= d3 && !(month <= outside) && other != PRESENT
    ensures Salary([Employee(0, name, 100, ACTIVE)],
                   [AttendanceRow(0, d1, PRESENT), AttendanceRow(0, d2, PRESENT),
                    AttendanceRow(0, d3, other), AttendanceRow(0, outside, PRESENT)],
                   [Advance(0, 50, d2)], emp, month)
            == Success(SalaryReport(name, 2, 100, 200, 50, 150))
  {
    var r1 := AttendanceRow(0, d1, PRESENT);
    var r2 := AttendanceRow(0, d2, PRESENT);
    var r3 := AttendanceRow(0, d3, other);
    var r4 := AttendanceRow(0, outside, PRESENT);
    var adv := Advance(0, 50, d2);
    var p := PresentIn(0, month);
    assert p(r1) && p(r2) && !p(r3) && !p(r4);
    var rows := [r1, r2, r3, r4];
    assert rows[..3] == [r1, r2, r3] && rows[3] == r4 && [r1, r2, r3][..2] == [r1, r2];
    assert [r1, r2][..1] == [r1] && [r1][..0] == [];
    assert Select([r1], p) == [r1];
    assert Select([r1, r2], p) == [r1, r2];
    assert Select([r1, r2, r3], p) == [r1, r2];
    assert Select(rows, p) == Select(rows[..3], p);
    assert [adv][..0] == [];
    assert Select([adv], AdvanceIn(0, month)) == [adv];
    assert Count(rows, p) == 2 && TotalAmount([adv]) == 50;
    assert FindFirst([Employee(0, name, 100, ACTIVE)], EmployeeWithId(0)) == Some(0);
  }

  /** Marking a day a second time overwrites the first mark instead of adding a row. */
  method AttendanceMarkedTwice(emp: string, date: string, status: string)
    returns (first: bool, second: bool, rows: seq<AttendanceRow>)
    requires ParseObjectId(emp).Some?
    ensures !first && second
    ensures rows == [AttendanceRow(ParseObjectId(emp).value, date, status)]
  {
    var office := new Office();
    var s1, s2;
    s1, first := office.MarkAttendance(emp, date, PRESENT);
    assert office.attendance == [AttendanceRow(ParseObjectId(emp).value, date, PRESENT)];
    assert office.attendance[0] in office.attendance;
    s2, second := office.MarkAttendance(emp, date, status);
    rows := office.attendance;
  }
}
