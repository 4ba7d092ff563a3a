/**
 * The service state and the handlers that change it. Requests are handled one at a time; each
 * handler performs its collection operations in the order the route does.
 */
module Service {
  import opened Common
  import opened Strings
  import opened ObjectIds
  import opened Mongo
  import opened Records
  import opened Reports

  /** The counts of an `updateOne` result that the rate handlers send back. */
  datatype UpdateResult = UpdateResult(matchedCount: nat, modifiedCount: nat, upsertedCount: nat)

  /**
   * The uniqueness the handlers keep: by generated id, by (employee, day), by folded name, by day;
   * and every stored id was issued by the generator. The name filter is read as literal text, so
   * uniqueness by folded name is the handlers' behaviour only for names without regex metacharacters.
   */
  ghost predicate Consistent(employees: seq<Employee>, attendance: seq<AttendanceRow>, advances: seq<Advance>,
                             customers: seq<Customer>, sellingRate: seq<RateDoc>, nextId: nat)
  {
    && (forall e :: e in employees ==> e.id < nextId)
    && (forall c :: c in customers ==> c.id < nextId)
    && KeysUnique(employees, EmployeeKey)
    && KeysUnique(customers, CustomerKey)
    && KeysUnique(customers, CustomerNameKey)
    && KeysUnique(attendance, AttendanceKey)
    && KeysUnique(advances, AdvanceKey)
    && KeysUnique(sellingRate, RateDocKey)
  }

  /** Patching the employee with id v, by an update that keeps ids, keeps the state consistent. */
  lemma PatchKeepsConsistent(employees: seq<Employee>, attendance: seq<AttendanceRow>, advances: seq<Advance>,
                             customers: seq<Customer>, sellingRate: seq<RateDoc>, nextId: nat, v: nat,
                             update: Employee -> Employee)
    requires Consistent(employees, attendance, advances, customers, sellingRate, nextId)
    requires forall e :: update(e).id == e.id
    ensures Consistent(UpdateFirst(employees, EmployeeWithId(v), update), attendance, advances,
                       customers, sellingRate, nextId)
  {
    UpdateFirstKeepsKeysUnique(employees, EmployeeWithId(v), update, EmployeeKey);
    var r := UpdateFirst(employees, EmployeeWithId(v), update);
    forall e | e in r
      ensures e.id < nextId
    {
      var k :| 0 <= k < |r| && r[k] == e;
      assert r[k].id == employees[k].id && employees[k] in employees;
    }
  }

  /**
   * Removing an employee together with their attendance and advances removes exactly that employee
   * and keeps the state consistent.
   */
  lemma RemovalKeepsConsistent(employees: seq<Employee>, attendance: seq<AttendanceRow>, advances: seq<Advance>,
                               customers: seq<Customer>, sellingRate: seq<RateDoc>, nextId: nat, v: nat)
    requires Consistent(employees, attendance, advances, customers, sellingRate, nextId)
    requires exists e :: e in employees && e.id == v
    ensures var staff := DeleteFirst(employees, EmployeeWithId(v));
      && |staff| == |employees| - 1
      && (forall e :: e in staff <==> e in employees && e.id != v)
      && Consistent(staff, Without(attendance, AttendanceOf(v)), Without(advances, AdvanceOf(v)),
                    customers, sellingRate, nextId)
  {
    DeleteFirstUniqueKey(employees, EmployeeWithId(v), EmployeeKey, v);
    DeleteFirstKeepsKeysUnique(employees, EmployeeWithId(v), EmployeeKey);
    WithoutKeepsKeysUnique(attendance, AttendanceOf(v), AttendanceKey);
    WithoutKeepsKeysUnique(advances, AdvanceOf(v), AdvanceKey);
  }

  class Office {
    var employees: seq<Employee>
    var attendance: seq<AttendanceRow>
    var advances: seq<Advance>
    var customers: seq<Customer>
    var sellingRate: seq<RateDoc>
    /** Stands in for the ObjectId generator: every id issued so far is below it. */
    var nextId: nat

    ghost predicate Valid()
      reads this
    {
      Consistent(employees, attendance, advances, customers, sellingRate, nextId)
    }

    constructor ()
      ensures Valid()
      ensures employees == [] && attendance == [] && advances == [] && customers == [] && sellingRate == []
      ensures nextId == 0
    {
      employees, attendance, advances, customers, sellingRate := [], [], [], [], [];
      nextId := 0;
    }

    // Employees

    /** POST /employees. */
    method CreateEmployee(name: string, dailySalary: Option<int>) returns (status: Status, insertedId: Option<nat>)
      requires Valid()
      modifies this
      ensures Valid()
      ensures status == (if name == "" || !Truthy(dailySalary) then BadRequest else Ok)
      ensures status == BadRequest ==> insertedId == None && employees == old(employees) && nextId == old(nextId)
      ensures status == Ok ==>
        && insertedId == Some(old(nextId))
        && (forall e :: e in old(employees) ==> e.id != old(nextId))
        && employees == old(employees) + [Employee(old(nextId), name, dailySalary.value, ACTIVE)]
        && nextId == old(nextId) + 1
      ensures attendance == old(attendance) && advances == old(advances)
      ensures customers == old(customers) && sellingRate == old(sellingRate)
    {
      if name == "" || !Truthy(dailySalary) {
        return BadRequest, None;
      }
      var e := Employee(nextId, name, dailySalary.value, ACTIVE);
      AppendKeepsKeysUnique(employees, e, EmployeeKey);
      employees := employees + [e];
      insertedId := Some(nextId);
      nextId := nextId + 1;
      status := Ok;
    }

    /** PATCH /employees/:id: only the supplied fields change. */
    method PatchEmployee(id: string, name: string, dailySalary: Option<int>, status: string) returns (st: Status)
      requires Valid()
      modifies this
      ensures Valid()
      ensures ParseObjectId(id).None? ==> st == BadRequest
      ensures ParseObjectId(id).Some? ==>
        st == (if exists e :: e in old(employees) && e.id == ParseObjectId(id).value then Ok else NotFound)
      ensures st == Ok ==>
        var v := ParseObjectId(id).value;
        && |employees| == |old(employees)|
        && forall i :: 0 <= i < |employees| ==>
             employees[i] == if old(employees)[i].id == v
                             then ApplyEmployeePatch(old(employees)[i], name, dailySalary, status)
                             else old(employees)[i]
      ensures st != Ok ==> employees == old(employees)
      ensures attendance == old(attendance) && advances == old(advances)
      ensures customers == old(customers) && sellingRate == old(sellingRate) && nextId == old(nextId)
    {
      var oid := ParseObjectId(id);
      if oid.None? {
        return BadRequest;
      }
      var v := oid.value;
      var filter, update := EmployeeWithId(v), EmployeePatch(name, dailySalary, status);
      var matched := FindFirst(employees, filter);
      UpdateFirstUniqueKey(employees, filter, update, EmployeeKey, v);
      PatchKeepsConsistent(employees, attendance, advances, customers, sellingRate, nextId, v, update);
      ghost var before := employees;
      employees := UpdateFirst(employees, filter, update);
      if matched.None? {
        return NotFound;
      }
      assert before[matched.value] in before;
      st := Ok;
    }

    /** DELETE /employees/:id: the employee, then every attendance row and advance of theirs. */
    method DeleteEmployee(id: string) returns (st: Status)
      requires Valid()
      modifies this
      ensures Valid()
      ensures ParseObjectId(id).None? ==> st == BadRequest
      ensures ParseObjectId(id).Some? ==>
        st == (if exists e :: e in old(employees) && e.id == ParseObjectId(id).value then Ok else NotFound)
      ensures st != Ok ==> employees == old(employees) && attendance == old(attendance) && advances == old(advances)
      ensures st == Ok ==>
        var v := ParseObjectId(id).value;
        && employees == DeleteFirst(old(employees), EmployeeWithId(v))
        && |employees| == |old(employees)| - 1
        && (forall e :: e in employees <==> e in old(employees) && e.id != v)
        && attendance == Without(old(attendance), AttendanceOf(v))
        && (forall r :: r in attendance <==> r in old(attendance) && r.employeeId != v)
        && advances == Without(old(advances), AdvanceOf(v))
        && (forall a :: a in advances <==> a in old(advances) && a.employeeId != v)
      ensures customers == old(customers) && sellingRate == old(sellingRate) && nextId == old(nextId)
    {
      var oid := ParseObjectId(id);
      if oid.None? {
        return BadRequest;
      }
      var v := oid.value;
      var found := FindFirst(employees, EmployeeWithId(v));
      if found.None? {
        return NotFound;
      }
      assert employees[found.value] in employees;
      RemovalKeepsConsistent(employees, attendance, advances, customers, sellingRate, nextId, v);
      employees, attendance, advances :=
        DeleteFirst(employees, EmployeeWithId(v)), Without(attendance, AttendanceOf(v)), Without(advances, AdvanceOf(v));
      st := Ok;
    }

    // Attendance

    /** POST /attendance: overwrite the status of the employee's row for that day, or add the row. */
    method MarkAttendance(employeeId: string, date: string, status: string) returns (st: Status, updated: bool)
      requires Valid()
      modifies this
      ensures Valid()
      ensures st == (if ParseObjectId(employeeId).None? then ServerError else Ok)
      ensures st == ServerError ==> attendance == old(attendance)
      ensures st == Ok ==>
        var v := ParseObjectId(employeeId).value;
        && updated == (exists r :: r in old(attendance) && r.employeeId == v && r.date == date)
        && (updated ==>
              && |attendance| == |old(attendance)|
              && forall i :: 0 <= i < |attendance| ==>
                   attendance[i] == if AttendanceKey(old(attendance)[i]) == (v, date)
                                    then old(attendance)[i].(status := status)
                                    else old(attendance)[i])
        && (!updated ==> attendance == old(attendance) + [AttendanceRow(v, date, status)])
      ensures employees == old(employees) && advances == old(advances)
      ensures customers == old(customers) && sellingRate == old(sellingRate) && nextId == old(nextId)
    {
      var oid := ParseObjectId(employeeId);
      if oid.None? {
        return ServerError, false;
      }
      var v := oid.value;
      var filter := AttendanceAt(v, date);
      var found := FindFirst(attendance, filter);
      if found.Some? {
        assert attendance[found.value] in attendance;
        UpdateFirstKeepsKeysUnique(attendance, filter, AttendanceStatus(status), AttendanceKey);
        UpdateFirstUniqueKey(attendance, filter, AttendanceStatus(status), AttendanceKey, (v, date));
        attendance := UpdateFirst(attendance, filter, AttendanceStatus(status));
        return Ok, true;
      }
      AppendKeepsKeysUnique(attendance, AttendanceRow(v, date, status), AttendanceKey);
      attendance := attendance + [AttendanceRow(v, date, status)];
      return Ok, false;
    }

    // Advances

    /** POST /advance: create only; a second advance for the same employee and day is refused. */
    method CreateAdvance(employeeId: string, amount: int, date: string) returns (st: Status)
      requires Valid()
      modifies this
      ensures Valid()
      ensures st == (if employeeId == "" || date == "" then BadRequest
                     else if NormalizeDate(date).None? || ParseObjectId(employeeId).None? then ServerError
                     else if exists a :: a in old(advances) && AdvanceKey(a) == (ParseObjectId(employeeId).value, NormalizeDate(date).value)
                     then Conflict
                     else Ok)
      ensures st == Ok ==>
        advances == old(advances) + [Advance(ParseObjectId(employeeId).value, amount, NormalizeDate(date).value)]
      ensures st != Ok ==> advances == old(advances)
      ensures employees == old(employees) && attendance == old(attendance)
      ensures customers == old(customers) && sellingRate == old(sellingRate) && nextId == old(nextId)
    {
      if employeeId == "" || date == "" {
        return BadRequest;
      }
      var day := NormalizeDate(date);
      if day.None? {
        return ServerError;
      }
      var oid := ParseObjectId(employeeId);
      if oid.None? {
        return ServerError;
      }
      var v := oid.value;
      var found := FindFirst(advances, AdvanceAt(v, day.value));
      if found.Some? {
        assert advances[found.value] in advances;
        return Conflict;
      }
      AppendKeepsKeysUnique(advances, Advance(v, amount, day.value), AdvanceKey);
      advances := advances + [Advance(v, amount, day.value)];
      st := Ok;
    }

    /** PATCH /advance: update only; never inserts. */
    method PatchAdvance(employeeId: string, amount: int, date: string) returns (st: Status)
      requires Valid()
      modifies this
      ensures Valid()
      ensures |advances| == |old(advances)|
      ensures st == (if employeeId == "" || date == "" then BadRequest
                     else if NormalizeDate(date).None? || ParseObjectId(employeeId).None? then ServerError
                     else if exists a :: a in old(advances) && AdvanceKey(a) == (ParseObjectId(employeeId).value, NormalizeDate(date).value)
                     then Ok
                     else NotFound)
      ensures st == Ok ==>
        var key := (ParseObjectId(employeeId).value, NormalizeDate(date).value);
        forall i :: 0 <= i < |advances| ==>
          advances[i] == if AdvanceKey(old(advances)[i]) == key then old(advances)[i].(amount := amount) else old(advances)[i]
      ensures st != Ok ==> advances == old(advances)
      ensures employees == old(employees) && attendance == old(attendance)
      ensures customers == old(customers) && sellingRate == old(sellingRate) && nextId == old(nextId)
    {
      if employeeId == "" || date == "" {
        return BadRequest;
      }
      var day := NormalizeDate(date);
      if day.None? {
        return ServerError;
      }
      var oid := ParseObjectId(employeeId);
      if oid.None? {
        return ServerError;
      }
      var v := oid.value;
      var filter := AdvanceAt(v, day.value);
      var matched := FindFirst(advances, filter);
      UpdateFirstKeepsKeysUnique(advances, filter, AdvanceAmount(amount), AdvanceKey);
      UpdateFirstUniqueKey(advances, filter, AdvanceAmount(amount), AdvanceKey, (v, day.value));
      advances := UpdateFirst(advances, filter, AdvanceAmount(amount));
      if matched.None? {
        return NotFound;
      }
      assert old(advances)[matched.value] in old(advances);
      st := Ok;
    }

    // Customers

    /** POST /customers: a name equal to an existing one up to letter case is refused. */
    method CreateCustomer(name: string) returns (st: Status, insertedId: Option<nat>)
      requires Valid()
      modifies this
      ensures Valid()
      ensures st == (if name == "" then BadRequest
                     else if exists c :: c in old(customers) && EqualIgnoringCase(c.name, name) then Conflict
                     else Ok)
      ensures st != Ok ==> customers == old(customers) && insertedId == None && nextId == old(nextId)
      ensures st == Ok ==>
        && insertedId == Some(old(nextId))
        && (forall c :: c in old(customers) ==> c.id != old(nextId))
        && customers == old(customers) + [Customer(old(nextId), name)]
        && nextId == old(nextId) + 1
      ensures employees == old(employees) && attendance == old(attendance)
      ensures advances == old(advances) && sellingRate == old(sellingRate)
    {
      if name == "" {
        return BadRequest, None;
      }
      var found := FindFirst(customers, CustomerNamed(name));
      if found.Some? {
        assert customers[found.value] in customers;
        return Conflict, None;
      }
      var c := Customer(nextId, name);
      AppendKeepsKeysUnique(customers, c, CustomerKey);
      assert forall y :: y in customers ==> CustomerNameKey(y) != CustomerNameKey(c) by {
        forall y | y in customers
          ensures CustomerNameKey(y) != CustomerNameKey(c)
        {
          var k :| 0 <= k < |customers| && customers[k] == y;
          assert !CustomerNamed(name)(customers[k]);
        }
      }
      AppendKeepsKeysUnique(customers, c, CustomerNameKey);
      customers := customers + [c];
      insertedId := Some(nextId);
      nextId := nextId + 1;
      st := Ok;
    }

    /** DELETE /customers/:id: the customer, then its entries in every day's rate list. */
    method DeleteCustomer(id: string) returns (st: Status)
      requires Valid()
      modifies this
      ensures Valid()
      ensures ParseObjectId(id).None? ==> st == ServerError
      ensures ParseObjectId(id).Some? ==>
        st == (if exists c :: c in old(customers) && c.id == ParseObjectId(id).value then Ok else NotFound)
      ensures st != Ok ==> customers == old(customers) && sellingRate == old(sellingRate)
      ensures st == Ok ==>
        var v := ParseObjectId(id).value;
        && customers == DeleteFirst(old(customers), CustomerWithId(v))
        && |customers| == |old(customers)| - 1
        && (forall c :: c in customers <==> c in old(customers) && c.id != v)
        && exists gone :: gone in old(customers) && gone.id == v
             && |sellingRate| == |old(sellingRate)|
             && forall i :: 0 <= i < |sellingRate| ==>
                  sellingRate[i] == old(sellingRate)[i].(rates := Without(old(sellingRate)[i].rates, EntryFor(gone.name)))
      ensures employees == old(employees) && attendance == old(attendance)
      ensures advances == old(advances) && nextId == old(nextId)
    {
      var oid := ParseObjectId(id);
      if oid.None? {
        return ServerError;
      }
      var v := oid.value;
      var found := FindFirst(customers, CustomerWithId(v));
      if found.None? {
        return NotFound;
      }
      var gone := customers[found.value];
      DeleteFirstKeepsKeysUnique(customers, CustomerWithId(v), CustomerKey);
      DeleteFirstKeepsKeysUnique(customers, CustomerWithId(v), CustomerNameKey);
      DeleteFirstUniqueKey(customers, CustomerWithId(v), CustomerKey, v);
      customers := DeleteFirst(customers, CustomerWithId(v));
      var before := sellingRate;
      UpdateManyKeepsKeysUnique(before, AnyRateDoc(), PullCustomer(gone.name), RateDocKey);
      sellingRate := UpdateMany(before, AnyRateDoc(), PullCustomer(gone.name));
      forall i | 0 <= i < |before|
        ensures sellingRate[i] == before[i].(rates := Without(before[i].rates, EntryFor(gone.name)))
      {
        assert AnyRateDoc()(before[i]);
      }
      assert gone in old(customers) && gone.id == v;
      st := Ok;
    }

    // Selling rates

    /** POST /sellingRate: append the entries to the day's list, creating the day's document if needed. */
    method PostRates(date: string, rates: seq<RateEntry>, createdAt: string) returns (res: UpdateResult)
      requires Valid()
      modifies this
      ensures Valid()
      ensures RatesOn(sellingRate, date) == RatesOn(old(sellingRate), date) + rates
      ensures forall day :: day != date ==> RatesOn(sellingRate, day) == RatesOn(old(sellingRate), day)
      ensures (exists d :: d in old(sellingRate) && d.date == date) ==>
        && res.matchedCount == 1 && res.upsertedCount == 0
        && |sellingRate| == |old(sellingRate)|
        && forall i :: 0 <= i < |sellingRate| ==>
             sellingRate[i] == if old(sellingRate)[i].date == date
                               then old(sellingRate)[i].(createdAt := createdAt, rates := old(sellingRate)[i].rates + rates)
                               else old(sellingRate)[i]
      ensures (forall d :: d in old(sellingRate) ==> d.date != date) ==>
        && res == UpdateResult(0, 0, 1)
        && sellingRate == old(sellingRate) + [RateDoc(date, createdAt, rates)]
      ensures employees == old(employees) && attendance == old(attendance) && advances == old(advances)
      ensures customers == old(customers) && nextId == old(nextId)
    {
      var filter, update := RateDocOn(date), PushRates(createdAt, rates);
      var found := FindFirst(sellingRate, filter);
      if found.Some? {
        var i := found.value;
        assert sellingRate[i] in sellingRate;
        UpdateFirstKeepsKeysUnique(sellingRate, filter, update, RateDocKey);
        UpdateFirstUniqueKey(sellingRate, filter, update, RateDocKey, date);
        var before := sellingRate;
        sellingRate := UpdateFirst(sellingRate, filter, update);
        RatesAfterPush(before, sellingRate, date, rates, i);
        res := UpdateResult(1, if sellingRate == before then 0 else 1, 0);
      } else {
        var doc := RateDoc(date, createdAt, rates);
        var before := sellingRate;
        AppendKeepsKeysUnique(before, doc, RateDocKey);
        sellingRate := before + [doc];
        RatesAfterInsert(before, doc);
        res := UpdateResult(0, 0, 1);
      }
    }

    /**
     * PATCH /sellingRate: in the day's document, the first entry for the customer receives the
     * supplied fields; a day or customer that is not there leaves everything as it was.
     */
    method PatchRate(date: string, customerName: string, proposalPrice: Option<int>,
                     actualSellingPrice: Option<int>, piece: Option<PieceInput>) returns (res: UpdateResult)
      requires Valid()
      modifies this
      ensures Valid()
      ensures |sellingRate| == |old(sellingRate)|
      ensures forall i :: 0 <= i < |sellingRate| ==>
        sellingRate[i] == if old(sellingRate)[i].date == date
                          then old(sellingRate)[i].(rates := UpdateFirst(old(sellingRate)[i].rates, EntryFor(customerName),
                                                                         RatePatch(proposalPrice, actualSellingPrice, piece)))
                          else old(sellingRate)[i]
      ensures res.matchedCount == (if exists d :: d in old(sellingRate) && RateDocWithEntry(date, customerName)(d) then 1 else 0)
      ensures res.modifiedCount == (if sellingRate == old(sellingRate) then 0 else 1)
      ensures res.upsertedCount == 0
      ensures employees == old(employees) && attendance == old(attendance) && advances == old(advances)
      ensures customers == old(customers) && nextId == old(nextId)
    {
      var filter := RateDocWithEntry(date, customerName);
      var update := PatchCustomerRate(customerName, proposalPrice, actualSellingPrice, piece);
      var found := FindFirst(sellingRate, filter);
      var before := sellingRate;
      UpdateFirstKeepsKeysUnique(sellingRate, filter, update, RateDocKey);
      sellingRate := UpdateFirst(sellingRate, filter, update);
      var f := RatePatch(proposalPrice, actualSellingPrice, piece);
      forall i | 0 <= i < |before| && before[i].date == date
        ensures sellingRate[i] == before[i].(rates := UpdateFirst(before[i].rates, EntryFor(customerName), f))
      {
        if found.Some? {
          var m := found.value;
          assert RateDocKey(before[i]) == RateDocKey(before[m]);
          assert i == m;
        } else {
          assert !filter(before[i]);
          assert FindFirst(before[i].rates, EntryFor(customerName)).None?;
        }
      }
      if found.Some? {
        assert before[found.value] in before;
      }
      res := UpdateResult(if found.Some? then 1 else 0, if sellingRate == before then 0 else 1, 0);
    }

    /** DELETE /sellingRate/customer: every entry for the customer leaves that one day's list. */
    method DeleteRateCustomer(date: string, customerName: string) returns (res: UpdateResult)
      requires Valid()
      modifies this
      ensures Valid()
      ensures |sellingRate| == |old(sellingRate)|
      ensures forall i :: 0 <= i < |sellingRate| ==>
        sellingRate[i] == if old(sellingRate)[i].date == date
                          then old(sellingRate)[i].(rates := Without(old(sellingRate)[i].rates, EntryFor(customerName)))
                          else old(sellingRate)[i]
      ensures res.matchedCount == (if exists d :: d in old(sellingRate) && d.date == date then 1 else 0)
      ensures res.modifiedCount == (if sellingRate == old(sellingRate) then 0 else 1)
      ensures res.upsertedCount == 0
      ensures employees == old(employees) && attendance == old(attendance) && advances == old(advances)
      ensures customers == old(customers) && nextId == old(nextId)
    {
      var filter, update := RateDocOn(date), PullCustomer(customerName);
      var found := FindFirst(sellingRate, filter);
      var before := sellingRate;
      UpdateFirstKeepsKeysUnique(sellingRate, filter, update, RateDocKey);
      UpdateFirstUniqueKey(sellingRate, filter, update, RateDocKey, date);
      sellingRate := UpdateFirst(sellingRate, filter, update);
      if found.Some? {
        assert before[found.value] in before;
      }
      res := UpdateResult(if found.Some? then 1 else 0, if sellingRate == before then 0 else 1, 0);
    }

    /** DELETE /sellingRate/date: the whole document of the day. */
    method DeleteRateDate(date: string) returns (deletedCount: nat)
      requires Valid()
      modifies this
      ensures Valid()
      ensures deletedCount == (if exists d :: d in old(sellingRate) && d.date == date then 1 else 0)
      ensures |sellingRate| == |old(sellingRate)| - deletedCount
      ensures forall d :: d in sellingRate <==> d in old(sellingRate) && d.date != date
      ensures employees == old(employees) && attendance == old(attendance) && advances == old(advances)
      ensures customers == old(customers) && nextId == old(nextId)
    {
      var filter := RateDocOn(date);
      var found := FindFirst(sellingRate, filter);
      DeleteFirstKeepsKeysUnique(sellingRate, filter, RateDocKey);
      DeleteFirstUniqueKey(sellingRate, filter, RateDocKey, date);
      sellingRate := DeleteFirst(sellingRate, filter);
      deletedCount := if found.Some? then 1 else 0;
    }
  }
}
