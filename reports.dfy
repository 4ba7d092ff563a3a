/** The read-only handlers: listings, lookups by date, the monthly advance summary and the salary report. */
module Reports {
  import opened Common
  import opened Strings
  import opened ObjectIds
  import opened Mongo
  import opened Records

  /** `find().sort({createdAt: -1})`: documents are created in insertion order, so newest first is reversed. */
  function NewestFirst<T>(s: seq<T>): (r: seq<T>)
    ensures |r| == |s|
    ensures forall i :: 0 <= i < |s| ==> r[i] == s[|s| - 1 - i]
  {
    if |s| == 0 then [] else [s[|s| - 1]] + NewestFirst(s[..|s| - 1])
  }

  /** GET /attendance/date/:date: every attendance row of that day, of every employee. */
  function AttendanceOnDate(rows: seq<AttendanceRow>, date: string): (r: seq<AttendanceRow>)
    ensures forall x :: x in r <==> x in rows && x.date == date
  {
    Select(rows, AttendanceOn(date))
  }

  /** GET /advance/date/:date: the day is normalised first, and an unparsable one fails. */
  function AdvancesOnDate(rows: seq<Advance>, date: string): (r: Result<seq<Advance>>)
    ensures r.Failure? <==> NormalizeDate(date).None?
    ensures r.Failure? ==> r.status == ServerError
    ensures r.Success? ==> forall x :: x in r.value <==> x in rows && Some(x.date) == NormalizeDate(date)
  {
    match NormalizeDate(date)
    case None => Failure(ServerError)
    case Some(day) => Success(Select(rows, AdvanceOn(day)))
  }

  // The monthly advance summary

  /** `reduce((s, a) => s + a.amount, 0)`; advances that are none of them negative add up to no less than 0. */
  function TotalAmount(advs: seq<Advance>): (r: int)
    ensures (forall i :: 0 <= i < |advs| ==> advs[i].amount >= 0) ==> r >= 0
  {
    if |advs| == 0 then 0 else TotalAmount(advs[..|advs| - 1]) + advs[|advs| - 1].amount
  }

  /** The total of the advances on one exact day: one `$group` bucket's `$sum`. */
  function DayAmount(rows: seq<Advance>, date: string): int
  {
    TotalAmount(Select(rows, AdvanceOn(date)))
  }

  ghost predicate Ascending(ds: seq<string>)
  {
    forall i, j :: 0 <= i < j < |ds| ==> LexLess(ds[i], ds[j])
  }

  /** Adds a day to an ascending list of distinct days, where it belongs. */
  function InsertDate(ds: seq<string>, d: string): (r: seq<string>)
    ensures forall x :: x in r <==> x in ds || x == d
  {
    if |ds| == 0 then [d]
    else if ds[0] == d then ds
    else if LexLess(d, ds[0]) then [d] + ds
    else [ds[0]] + InsertDate(ds[1..], d)
  }

  /** The `_id`s of the `$group` stage, in the order of `$sort: {_id: 1}`. */
  function DistinctDates(rows: seq<Advance>): (r: seq<string>)
    ensures forall d :: d in r <==> exists a :: a in rows && a.date == d
  {
    if |rows| == 0 then []
    else
      assert rows == rows[..|rows| - 1] + [rows[|rows| - 1]];
      InsertDate(DistinctDates(rows[..|rows| - 1]), rows[|rows| - 1].date)
  }

  datatype DayTotal = DayTotal(date: string, amount: int)

  function DayTotals(rows: seq<Advance>, ds: seq<string>): (r: seq<DayTotal>)
    ensures |r| == |ds|
    ensures forall i :: 0 <= i < |ds| ==> r[i] == DayTotal(ds[i], DayAmount(rows, ds[i]))
  {
    if |ds| == 0 then [] else [DayTotal(ds[0], DayAmount(rows, ds[0]))] + DayTotals(rows, ds[1..])
  }

  function SumTotals(ts: seq<DayTotal>): int
  {
    if |ts| == 0 then 0 else ts[0].amount + SumTotals(ts[1..])
  }

  /**
   * `$match` on employee and month prefix, `$group` by day with `$sum`, `$sort` by day. The grouped
   * amounts add up to the total of every advance the `$match` keeps.
   */
  function MonthlyTotals(advs: seq<Advance>, id: nat, month: string): (r: seq<DayTotal>)
    ensures SumTotals(r) == TotalAmount(Select(advs, AdvanceIn(id, month)))
  {
    var rows := Select(advs, AdvanceIn(id, month));
    DayTotalsSumToTotal(rows);
    DayTotals(rows, DistinctDates(rows))
  }

  /** GET /advance/:employeeId/:month; an id that is not an ObjectId makes the handler throw. */
  function AdvanceSummary(advs: seq<Advance>, employeeId: string, month: string): (r: Result<seq<DayTotal>>)
    ensures r.Failure? <==> ParseObjectId(employeeId).None?
    ensures r.Failure? ==> r.status == ServerError
    ensures r.Success? ==> r.value == MonthlyTotals(advs, ParseObjectId(employeeId).value, month)
  {
    match ParseObjectId(employeeId)
    case None => Failure(ServerError)
    case Some(id) => Success(MonthlyTotals(advs, id, month))
  }

  // The salary report

  datatype SalaryReport = SalaryReport(
    employeeName: string, presentDays: nat, dailySalary: int,
    totalSalary: int, totalAdvance: int, payable: int)

  /** GET /salary/:employeeId/:month. */
  function Salary(employees: seq<Employee>, attendance: seq<AttendanceRow>, advances: seq<Advance>,
                  employeeId: string, month: string): (r: Result<SalaryReport>)
    ensures ParseObjectId(employeeId).None? ==> r == Failure(ServerError)
    ensures ParseObjectId(employeeId).Some? ==>
      (r == Failure(NotFound) <==> forall e :: e in employees ==> e.id != ParseObjectId(employeeId).value)
    ensures ParseObjectId(employeeId).Some? ==>
      (r.Success? <==> exists e :: e in employees && e.id == ParseObjectId(employeeId).value)
    ensures r.Success? ==>
      var id := ParseObjectId(employeeId).value;
      var rep := r.value;
      && (exists e :: e in employees && e.id == id && rep.employeeName == e.name && rep.dailySalary == e.dailySalary)
      && rep.presentDays == |Select(attendance, PresentIn(id, month))|
      && rep.totalAdvance == TotalAmount(Select(advances, AdvanceIn(id, month)))
      && rep.totalSalary == rep.presentDays * rep.dailySalary
      && rep.payable == rep.totalSalary - rep.totalAdvance
  {
    match ParseObjectId(employeeId)
    case None => Failure(ServerError)
    case Some(id) =>
      match FindFirst(employees, EmployeeWithId(id))
      case None => Failure(NotFound)
      case Some(i) =>
        var e := employees[i];
        var presentDays := Count(attendance, PresentIn(id, month));
        var totalAdvance := TotalAmount(Select(advances, AdvanceIn(id, month)));
        var totalSalary := presentDays * e.dailySalary;
        Success(SalaryReport(e.name, presentDays, e.dailySalary, totalSalary, totalAdvance, totalSalary - totalAdvance))
  }

  // Reading the rate ledger

  /** The rate list stored for a day: `doc?.rates || []`. */
  function RatesOn(docs: seq<RateDoc>, day: string): (r: seq<RateEntry>)
    ensures (forall d :: d in docs ==> d.date != day) ==> r == []
    ensures KeysUnique(docs, RateDocKey) ==> forall d :: d in docs && d.date == day ==> r == d.rates
  {
    match FindFirst(docs, RateDocOn(day))
    case None => []
    case Some(i) => docs[i].rates
  }

  /** Two ledgers holding the same documents for a day report the same rates for it. */
  lemma RatesOnAgree(a: seq<RateDoc>, b: seq<RateDoc>, day: string)
    requires KeysUnique(a, RateDocKey) && KeysUnique(b, RateDocKey)
    requires forall d: RateDoc :: d.date == day ==> (d in a <==> d in b)
    ensures RatesOn(a, day) == RatesOn(b, day)
  {
    if exists d :: d in a && d.date == day {
      var d :| d in a && d.date == day;
      assert d in b;
    }
  }

  /** Appending entries to the one document of a day lengthens that day's list and no other. */
  lemma RatesAfterPush(before: seq<RateDoc>, after: seq<RateDoc>, date: string, added: seq<RateEntry>, i: nat)
    requires KeysUnique(before, RateDocKey) && KeysUnique(after, RateDocKey)
    requires i < |before| == |after| && before[i].date == date
    requires after[i].date == date && after[i].rates == before[i].rates + added
    requires forall j :: 0 <= j < |before| && j != i ==> after[j] == before[j]
    ensures RatesOn(after, date) == RatesOn(before, date) + added
    ensures forall day :: day != date ==> RatesOn(after, day) == RatesOn(before, day)
  {
    assert before[i] in before && after[i] in after;
    forall day | day != date
      ensures RatesOn(after, day) == RatesOn(before, day)
    {
      forall d: RateDoc | d.date == day
        ensures d in after <==> d in before
      {
        if d in after {
          var k :| 0 <= k < |after| && after[k] == d;
        }
        if d in before {
          var k :| 0 <= k < |before| && before[k] == d;
        }
      }
      RatesOnAgree(after, before, day);
    }
  }

  /** Adding the first document of a day makes its entries that day's list and touches no other day. */
  lemma RatesAfterInsert(before: seq<RateDoc>, doc: RateDoc)
    requires KeysUnique(before + [doc], RateDocKey)
    ensures RatesOn(before + [doc], doc.date) == RatesOn(before, doc.date) + doc.rates
    ensures forall day :: day != doc.date ==> RatesOn(before + [doc], day) == RatesOn(before, day)
  {
    var after := before + [doc];
    assert doc in after;
    forall d | d in before
      ensures d.date != doc.date
    {
      var k :| 0 <= k < |before| && before[k] == d;
      assert after[k] == d && after[|before|] == doc;
    }
    assert KeysUnique(before, RateDocKey) by {
      forall j, k | 0 <= j < k < |before|
        ensures before[j].date != before[k].date
      {
        assert after[j] == before[j] && after[k] == before[k];
      }
    }
    forall day | day != doc.date
      ensures RatesOn(after, day) == RatesOn(before, day)
    {
      RatesOnAgree(after, before, day);
    }
  }

  datatype RatesView = RatesView(date: string, rates: seq<RateEntry>)

  /** GET /sellingRate: the day defaults to today when the query gives none. */
  function RatesFor(docs: seq<RateDoc>, date: string, today: string): (v: RatesView)
    ensures v.date == (if date != "" then date else today)
    ensures v.rates == RatesOn(docs, v.date)
  {
    var day := if date != "" then date else today;
    RatesView(day, RatesOn(docs, day))
  }

  // Lemmas

  ghost predicate Distinct(ds: seq<string>)
  {
    forall i, j :: 0 <= i < j < |ds| ==> ds[i] != ds[j]
  }

  lemma AscendingDistinct(ds: seq<string>)
    requires Ascending(ds)
    ensures Distinct(ds)
  {
    forall i, j | 0 <= i < j < |ds|
      ensures ds[i] != ds[j]
    {
      LexLessIrreflexive(ds[i]);
    }
  }

  lemma {:induction false} InsertDateKeepsAscending(ds: seq<string>, d: string)
    requires Ascending(ds)
    ensures Ascending(InsertDate(ds, d))
    decreases |ds|
  {
    if |ds| == 0 || ds[0] == d {
    } else if LexLess(d, ds[0]) {
      forall j | 0 <= j < |ds|
        ensures LexLess(d, ds[j])
      {
        if j > 0 {
          LexLessTransitive(d, ds[0], ds[j]);
        }
      }
    } else {
      LexLessTotal(d, ds[0]);
      InsertDateKeepsAscending(ds[1..], d);
      var r := InsertDate(ds, d);
      forall j | 0 < j < |r|
        ensures LexLess(ds[0], r[j])
      {
        assert r[j] in InsertDate(ds[1..], d);
      }
    }
  }

  /** The summary's days are strictly ascending. */
  lemma {:induction false} DistinctDatesAscending(rows: seq<Advance>)
    ensures Ascending(DistinctDates(rows))
    decreases |rows|
  {
    if |rows| > 0 {
      DistinctDatesAscending(rows[..|rows| - 1]);
      InsertDateKeepsAscending(DistinctDates(rows[..|rows| - 1]), rows[|rows| - 1].date);
    }
  }

  lemma DayAmountStep(rows: seq<Advance>, a: Advance, d: string)
    ensures DayAmount(rows + [a], d) == DayAmount(rows, d) + if a.date == d then a.amount else 0
  {
    var s, p := rows + [a], AdvanceOn(d);
    assert s[..|s| - 1] == rows && s[|s| - 1] == a;
    var sel := Select(rows, p);
    assert p(a) == (a.date == d);
    assert Select(s, p) == sel + if p(a) then [a] else [];
    if a.date == d {
      var t := sel + [a];
      assert t[..|t| - 1] == sel && t[|t| - 1] == a;
      assert TotalAmount(t) == TotalAmount(sel) + a.amount;
    } else {
      assert sel + [] == sel;
    }
  }

  lemma SumTotalsCons(rows: seq<Advance>, ds: seq<string>)
    requires |ds| > 0
    ensures SumTotals(DayTotals(rows, ds)) == DayAmount(rows, ds[0]) + SumTotals(DayTotals(rows, ds[1..]))
  {
    var t := DayTotals(rows, ds);
    assert t[1..] == DayTotals(rows, ds[1..]);
  }

  /** Adding an advance adds its amount to the one listed day it belongs to, if it is listed. */
  lemma {:induction false} DayTotalsStep(rows: seq<Advance>, a: Advance, ds: seq<string>)
    requires Distinct(ds)
    ensures SumTotals(DayTotals(rows + [a], ds)) == SumTotals(DayTotals(rows, ds)) + if a.date in ds then a.amount else 0
    decreases |ds|
  {
    if |ds| > 0 {
      var tail := ds[1..];
      assert Distinct(tail) by {
        forall i, j | 0 <= i < j < |tail|
          ensures tail[i] != tail[j]
        {
          assert tail[i] == ds[i + 1] && tail[j] == ds[j + 1];
        }
      }
      SumTotalsCons(rows + [a], ds);
      SumTotalsCons(rows, ds);
      DayAmountStep(rows, a, ds[0]);
      DayTotalsStep(rows, a, tail);
      assert a.date in ds <==> a.date == ds[0] || a.date in tail by {
        assert ds == [ds[0]] + tail;
      }
      if a.date == ds[0] {
        assert a.date !in tail by {
          forall k | 0 <= k < |tail|
            ensures tail[k] != a.date
          {
            assert tail[k] == ds[k + 1];
          }
        }
      }
    }
  }

  /** The days after the first of an ascending list are ascending too. */
  lemma AscendingTail(ds: seq<string>)
    requires Ascending(ds) && |ds| > 0
    ensures Ascending(ds[1..])
  {
    var tail := ds[1..];
    forall i, j | 0 <= i < j < |tail|
      ensures LexLess(tail[i], tail[j])
    {
      assert tail[i] == ds[i + 1] && tail[j] == ds[j + 1];
    }
  }

  /** A day sorting before the first of an ascending list is not in it. */
  lemma BelowFirstAbsent(ds: seq<string>, d: string)
    requires Ascending(ds) && |ds| > 0 && LexLess(d, ds[0])
    ensures d !in ds
  {
    forall j | 0 <= j < |ds|
      ensures ds[j] != d
    {
      if j > 0 {
        LexLessTransitive(d, ds[0], ds[j]);
      }
      LexLessIrreflexive(d);
    }
  }

  /** Inserting a new day into the list adds that day's total. */
  lemma {:induction false} DayTotalsInsert(rows: seq<Advance>, ds: seq<string>, d: string)
    requires Ascending(ds)
    ensures SumTotals(DayTotals(rows, InsertDate(ds, d))) == SumTotals(DayTotals(rows, ds)) + if d in ds then 0 else DayAmount(rows, d)
    decreases |ds|
  {
    if |ds| == 0 {
      SumTotalsCons(rows, [d]);
    } else if ds[0] == d {
    } else if LexLess(d, ds[0]) {
      var r := [d] + ds;
      SumTotalsCons(rows, r);
      assert r[1..] == ds;
      BelowFirstAbsent(ds, d);
    } else {
      var tail := ds[1..];
      AscendingTail(ds);
      DayTotalsInsert(rows, tail, d);
      var r := [ds[0]] + InsertDate(tail, d);
      assert r[0] == ds[0] && r[1..] == InsertDate(tail, d);
      SumTotalsCons(rows, r);
      SumTotalsCons(rows, ds);
      assert d in ds <==> d in tail by {
        assert ds == [ds[0]] + tail;
      }
    }
  }

  /** A day on which no row falls has a total of zero. */
  lemma AbsentDayAmount(rows: seq<Advance>, d: string)
    requires forall a :: a in rows ==> a.date != d
    ensures DayAmount(rows, d) == 0
  {
    SelectNone(rows, AdvanceOn(d));
  }

  /** The per-day totals of the summary add up to the total of all the rows it groups. */
  lemma {:induction false} DayTotalsSumToTotal(rows: seq<Advance>)
    ensures SumTotals(DayTotals(rows, DistinctDates(rows))) == TotalAmount(rows)
    decreases |rows|
  {
    if |rows| > 0 {
      var rows', a := rows[..|rows| - 1], rows[|rows| - 1];
      assert rows == rows' + [a];
      var ds := DistinctDates(rows');
      var extra := if a.date in ds then 0 else DayAmount(rows, a.date);
      assert TotalAmount(rows) == TotalAmount(rows') + a.amount;
      assert DistinctDates(rows) == InsertDate(ds, a.date);
      DistinctDatesAscending(rows');
      AscendingDistinct(ds);
      DayTotalsSumToTotal(rows');
      DayTotalsInsert(rows, ds, a.date);
      assert SumTotals(DayTotals(rows, DistinctDates(rows))) == SumTotals(DayTotals(rows, ds)) + extra;
      DayTotalsStep(rows', a, ds);
      if a.date !in ds {
        DayAmountStep(rows', a, a.date);
        AbsentDayAmount(rows', a.date);
        assert extra == a.amount;
      }
    }
  }

  /** The monthly summary lists its days in strictly ascending order. */
  lemma MonthlyTotalsAscending(advs: seq<Advance>, id: nat, month: string)
    ensures var ts := MonthlyTotals(advs, id, month);
      forall i, j :: 0 <= i < j < |ts| ==> LexLess(ts[i].date, ts[j].date)
  {
    DistinctDatesAscending(Select(advs, AdvanceIn(id, month)));
  }

  /** Every day in the month on which the employee has an advance is listed. */
  lemma MonthlyTotalsComplete(advs: seq<Advance>, id: nat, month: string)
    ensures var ts := MonthlyTotals(advs, id, month);
      forall a :: a in advs && a.employeeId == id && month <= a.date ==> exists t :: t in ts && t.date == a.date
  {
    var rows := Select(advs, AdvanceIn(id, month));
    var ds := DistinctDates(rows);
    var ts := MonthlyTotals(advs, id, month);
    forall a | a in advs && a.employeeId == id && month <= a.date
      ensures exists t :: t in ts && t.date == a.date
    {
      assert AdvanceIn(id, month)(a);
      assert a in rows;
      assert a.date in ds;
      var k :| 0 <= k < |ds| && ds[k] == a.date;
      assert ts[k].date == a.date;
    }
  }

  /** Only days in the month on which the employee has an advance are listed. */
  lemma MonthlyTotalsSound(advs: seq<Advance>, id: nat, month: string)
    ensures var ts := MonthlyTotals(advs, id, month);
      forall t :: t in ts ==> month <= t.date && exists a :: a in advs && a.employeeId == id && a.date == t.date
  {
    var rows := Select(advs, AdvanceIn(id, month));
    var ds := DistinctDates(rows);
    var ts := MonthlyTotals(advs, id, month);
    forall t | t in ts
      ensures month <= t.date && exists a :: a in advs && a.employeeId == id && a.date == t.date
    {
      var k :| 0 <= k < |ts| && ts[k] == t;
      assert t.date == ds[k];
      assert ds[k] in ds;
      var a :| a in rows && a.date == t.date;
      assert a in advs && a.employeeId == id;
    }
  }

  /** Each listed day carries the sum of all of the employee's advances on that day. */
  lemma MonthlyTotalsAmounts(advs: seq<Advance>, id: nat, month: string)
    ensures var ts := MonthlyTotals(advs, id, month);
      forall t :: t in ts ==> t.amount == TotalAmount(Select(advs, AdvanceAt(id, t.date)))
  {
    var rows := Select(advs, AdvanceIn(id, month));
    var ds := DistinctDates(rows);
    var ts := MonthlyTotals(advs, id, month);
    forall t | t in ts
      ensures t.amount == TotalAmount(Select(advs, AdvanceAt(id, t.date)))
    {
      var k :| 0 <= k < |ts| && ts[k] == t;
      assert t == DayTotal(ds[k], DayAmount(rows, ds[k]));
      assert ds[k] in ds;
      var a :| a in rows && a.date == t.date;
      assert month <= t.date;
      SelectSelect(advs, AdvanceIn(id, month), AdvanceOn(t.date), AdvanceAt(id, t.date));
    }
  }

  /** The monthly summary and the salary report agree on what the employee was advanced in that month. */
  lemma SummaryAgreesWithSalary(employees: seq<Employee>, attendance: seq<AttendanceRow>, advances: seq<Advance>,
                                employeeId: string, month: string)
    requires Salary(employees, attendance, advances, employeeId, month).Success?
    ensures AdvanceSummary(advances, employeeId, month).Success?
    ensures SumTotals(AdvanceSummary(advances, employeeId, month).value)
         == Salary(employees, attendance, advances, employeeId, month).value.totalAdvance
  {
  }
}
