/**
 * The documents of the five collections, the filters and keys the handlers use on them, and the
 * `$set` updates they apply.
 */
module Records {
  import opened Common
  import opened Strings
  import Mongo

  const ACTIVE := "active"
  const PRESENT := "present"

  /** Ids are ObjectId values; `createdAt` and `updatedAt` are not modelled. */
  datatype Employee = Employee(id: nat, name: string, dailySalary: int, status: string)
  datatype AttendanceRow = AttendanceRow(employeeId: nat, date: string, status: string)
  datatype Advance = Advance(employeeId: nat, amount: int, date: string)
  datatype Customer = Customer(id: nat, name: string)

  datatype Piece = Piece(boilerBig: int, boilerSmall: int)
  datatype RateEntry = RateEntry(customerName: string, proposalPrice: int, actualSellingPrice: int, piece: Piece)
  /** One sellingRate document: a date and the rate list appended to it. */
  datatype RateDoc = RateDoc(date: string, createdAt: string, rates: seq<RateEntry>)

  /** The optional `piece` object of a rate patch request. */
  datatype PieceInput = PieceInput(boilerBig: Option<int>, boilerSmall: Option<int>)

  // Filters

  function EmployeeWithId(id: nat): Employee -> bool { (e: Employee) => e.id == id }
  function CustomerWithId(id: nat): Customer -> bool { (c: Customer) => c.id == id }
  function CustomerNamed(name: string): Customer -> bool { (c: Customer) => EqualIgnoringCase(c.name, name) }
  function AttendanceOf(id: nat): AttendanceRow -> bool { (r: AttendanceRow) => r.employeeId == id }
  function AttendanceAt(id: nat, date: string): AttendanceRow -> bool { (r: AttendanceRow) => r.employeeId == id && r.date == date }
  function AttendanceOn(date: string): AttendanceRow -> bool { (r: AttendanceRow) => r.date == date }
  function PresentIn(id: nat, month: string): AttendanceRow -> bool
  {
    (r: AttendanceRow) => r.employeeId == id && r.status == PRESENT && month <= r.date
  }
  function AdvanceOf(id: nat): Advance -> bool { (a: Advance) => a.employeeId == id }
  function AdvanceAt(id: nat, date: string): Advance -> bool { (a: Advance) => a.employeeId == id && a.date == date }
  function AdvanceOn(date: string): Advance -> bool { (a: Advance) => a.date == date }
  function AdvanceIn(id: nat, month: string): Advance -> bool { (a: Advance) => a.employeeId == id && month <= a.date }
  function RateDocOn(date: string): RateDoc -> bool { (d: RateDoc) => d.date == date }
  function EntryFor(name: string): RateEntry -> bool { (e: RateEntry) => e.customerName == name }
  /** The filter `{date, "rates.customerName": name}`: the date's document holds an entry for name. */
  function RateDocWithEntry(date: string, name: string): RateDoc -> bool
  {
    (d: RateDoc) => d.date == date && exists e :: e in d.rates && e.customerName == name
  }
  function AnyRateDoc(): RateDoc -> bool { (d: RateDoc) => true }

  // Keys that are kept unique

  function EmployeeKey(e: Employee): nat { e.id }
  function CustomerKey(c: Customer): nat { c.id }
  function CustomerNameKey(c: Customer): string { Lower(c.name) }
  function AttendanceKey(r: AttendanceRow): (nat, string) { (r.employeeId, r.date) }
  function AdvanceKey(a: Advance): (nat, string) { (a.employeeId, a.date) }
  function RateDocKey(d: RateDoc): string { d.date }

  // Updates

  /** The `$set` of an employee patch: name and status only when non-empty, the salary whenever given. */
  function ApplyEmployeePatch(e: Employee, name: string, dailySalary: Option<int>, status: string): (r: Employee)
    ensures r.id == e.id
    ensures r.name == (if name != "" then name else e.name)
    ensures r.dailySalary == (if dailySalary.Some? then dailySalary.value else e.dailySalary)
    ensures r.status == (if status != "" then status else e.status)
  {
    var e1 := if name != "" then e.(name := name) else e;
    var e2 := if dailySalary.Some? then e1.(dailySalary := dailySalary.value) else e1;
    if status != "" then e2.(status := status) else e2
  }

  function EmployeePatch(name: string, dailySalary: Option<int>, status: string): Employee -> Employee
  {
    (e: Employee) => ApplyEmployeePatch(e, name, dailySalary, status)
  }

  function AttendanceStatus(status: string): AttendanceRow -> AttendanceRow { (r: AttendanceRow) => r.(status := status) }
  function AdvanceAmount(amount: int): Advance -> Advance { (a: Advance) => a.(amount := amount) }

  /**
   * `$set: {date, createdAt}` with `$push: {rates: {$each: rates}}` on an existing document: the day
   * stays, the stamp is replaced, and the new entries follow the old ones in the order given.
   */
  function ApplyPushRates(d: RateDoc, createdAt: string, rates: seq<RateEntry>): (r: RateDoc)
    ensures r.date == d.date && r.createdAt == createdAt
    ensures |r.rates| == |d.rates| + |rates|
    ensures forall i :: 0 <= i < |d.rates| ==> r.rates[i] == d.rates[i]
    ensures forall i :: 0 <= i < |rates| ==> r.rates[|d.rates| + i] == rates[i]
  {
    d.(createdAt := createdAt, rates := d.rates + rates)
  }

  function PushRates(createdAt: string, rates: seq<RateEntry>): RateDoc -> RateDoc
  {
    (d: RateDoc) => ApplyPushRates(d, createdAt, rates)
  }

  /**
   * `$pull: {rates: {customerName: name}}`: every entry with that exact name goes, and every other
   * entry stays as often as it occurred. PullCustomerKeepsOrder gives the order.
   */
  function ApplyPullCustomer(d: RateDoc, name: string): (r: RateDoc)
    ensures r.date == d.date && r.createdAt == d.createdAt
    ensures forall e :: e in r.rates <==> e in d.rates && e.customerName != name
    ensures forall e :: multiset(r.rates)[e] == if e.customerName == name then 0 else multiset(d.rates)[e]
  {
    Mongo.WithoutMultiset(d.rates, EntryFor(name));
    d.(rates := Mongo.Without(d.rates, EntryFor(name)))
  }

  /** Pulling from a list split in two pulls from each part and keeps the parts in order. */
  lemma PullCustomerKeepsOrder(d: RateDoc, name: string, a: seq<RateEntry>, b: seq<RateEntry>)
    requires d.rates == a + b
    ensures ApplyPullCustomer(d, name).rates
         == ApplyPullCustomer(d.(rates := a), name).rates + ApplyPullCustomer(d.(rates := b), name).rates
  {
    Mongo.WithoutAppend(a, b, EntryFor(name));
  }

  function PullCustomer(name: string): RateDoc -> RateDoc
  {
    (d: RateDoc) => ApplyPullCustomer(d, name)
  }

  /** `Number(x || 0)` for an optional piece count. */
  function CountOrZero(n: Option<int>): int { if n.Some? then n.value else 0 }

  /** The `$set` on the positional `rates.$` entry: only the truthy price fields, and the piece when given. */
  function ApplyRatePatch(e: RateEntry, proposalPrice: Option<int>, actualSellingPrice: Option<int>, piece: Option<PieceInput>): (r: RateEntry)
    ensures r.customerName == e.customerName
    ensures r.proposalPrice == (if Truthy(proposalPrice) then proposalPrice.value else e.proposalPrice)
    ensures r.actualSellingPrice == (if Truthy(actualSellingPrice) then actualSellingPrice.value else e.actualSellingPrice)
    ensures piece.None? ==> r.piece == e.piece
    ensures piece.Some? ==> r.piece == Piece(CountOrZero(piece.value.boilerBig), CountOrZero(piece.value.boilerSmall))
  {
    var e1 := if Truthy(proposalPrice) then e.(proposalPrice := proposalPrice.value) else e;
    var e2 := if Truthy(actualSellingPrice) then e1.(actualSellingPrice := actualSellingPrice.value) else e1;
    match piece
    case None => e2
    case Some(p) => e2.(piece := Piece(CountOrZero(p.boilerBig), CountOrZero(p.boilerSmall)))
  }

  /** The `$set` applied to one rate entry; ApplyCustomerRatePatch picks which entry gets it. */
  function RatePatch(proposalPrice: Option<int>, actualSellingPrice: Option<int>, piece: Option<PieceInput>): RateEntry -> RateEntry
  {
    (e: RateEntry) => ApplyRatePatch(e, proposalPrice, actualSellingPrice, piece)
  }

  /**
   * The `$set` on `rates.$` inside one document: the first entry with that exact name is patched,
   * every other entry stays, and without such an entry the document is left as it was.
   */
  function ApplyCustomerRatePatch(d: RateDoc, name: string, proposalPrice: Option<int>, actualSellingPrice: Option<int>,
                                  piece: Option<PieceInput>): (r: RateDoc)
    ensures r.date == d.date && r.createdAt == d.createdAt && |r.rates| == |d.rates|
    ensures Mongo.FindFirst(d.rates, EntryFor(name)).None? ==> r == d
    ensures Mongo.FindFirst(d.rates, EntryFor(name)).Some? ==>
      var k := Mongo.FindFirst(d.rates, EntryFor(name)).value;
      r.rates == d.rates[k := ApplyRatePatch(d.rates[k], proposalPrice, actualSellingPrice, piece)]
  {
    d.(rates := Mongo.UpdateFirst(d.rates, EntryFor(name), RatePatch(proposalPrice, actualSellingPrice, piece)))
  }

  function PatchCustomerRate(name: string, proposalPrice: Option<int>, actualSellingPrice: Option<int>, piece: Option<PieceInput>): RateDoc -> RateDoc
  {
    (d: RateDoc) => ApplyCustomerRatePatch(d, name, proposalPrice, actualSellingPrice, piece)
  }

  // Dates

  predicate IsDigit(c: char) { '0' <= c <= '9' }

  /** The value of a two-digit field. */
  function TwoDigits(hi: char, lo: char): int
  {
    10 * (hi as int - '0' as int) + (lo as int - '0' as int)
  }

  /**
   * A day written `YYYY-MM-DD` with a month from 01 to 12 and a day from 01 to 31: the strings
   * `Date` reads as a day. Any other month or day makes it an invalid date.
   */
  predicate IsIsoDay(s: string)
  {
    |s| == 10 && s[4] == '-' && s[7] == '-'
    && (forall i :: 0 <= i < 10 && i != 4 && i != 7 ==> IsDigit(s[i]))
    && 1 <= TwoDigits(s[5], s[6]) <= 12
    && 1 <= TwoDigits(s[8], s[9]) <= 31
  }

  /**
   * `new Date(s).toISOString().slice(0, 10)`, restricted to input that is already a day in ISO form;
   * None stands for the exception an unparsable date raises.
   */
  function NormalizeDate(s: string): (r: Option<string>)
    ensures r.Some? <==> IsIsoDay(s)
    ensures r.Some? ==> r.value == s && NormalizeDate(r.value) == r
  {
    if IsIsoDay(s) then Some(s) else None
  }
}
