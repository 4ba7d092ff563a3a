# boiler-price-backend, modelled in Dafny

The backend keeps the books of a small boiler business. It stores five MongoDB collections:

- `employees`, with a daily salary;
- `attendance`, one status per employee and day;
- `advances`, one cash advance per employee and day;
- `customers`;
- `sellingRate`, one document per day holding that day's list of customer rate entries.

Every handler sits in one Express route module. Each handler validates its request, then reads or changes the collections and answers with a status code and a body.

This project models that route module with the database replaced by in-memory sequences:

- `common.dfy`: the status codes 200, 400, 404, 409 and 500; `Option`; `Result`; JavaScript truthiness of a number.
- `strings.dfy`: ASCII case folding and the lexicographic string order MongoDB sorts by.
- `object_ids.dfy`: ObjectId strings (24 hexadecimal digits, either case). It holds the parse used by `ObjectId.isValid` and `new ObjectId(s)`, and the inverse formatting.
- `mongo.dfy`: the collection operators, spelled out over a sequence of documents:
  - `findOne` and `updateOne`, which touch the first match only;
  - `updateMany`; `deleteOne`;
  - `find` and `countDocuments`;
  - `deleteMany`, which is also the `$pull` of every matching array element;
  - key uniqueness, with the lemmas that show which operators keep it.
- `records.dfy`: the documents, the filters the handlers build, the `$set` patches, and date normalisation.
- `reports.dfy`: the read-only handlers as functions. These are the listings, the by-date lookups, the monthly `$group`/`$sort` advance summary, the salary report and the rate-ledger read.
- `office.dfy`: the class `Office`, which owns the five collections and an id generator. Each mutating handler is a method that updates the collections in place.
  - `Valid()` is the uniqueness the handlers maintain:
    - one employee and one customer per id;
    - one customer per case-folded name;
    - one attendance row and one advance per (employee, day);
    - one ledger document per day.
  - Every method keeps `Valid()`.
- `scenarios.dfy`: short request sequences against a new `Office` that show what a client observes. For example, a second advance for the same day is refused, and a rate patch reaches only the first of two duplicate entries.

Modelling conventions:

- An absent or empty string field of a request body is `""`; JavaScript treats both as falsy.
- A numeric field whose handler tests `!== undefined` is an `Option<int>`. A numeric field the handler checks only for truthiness goes through `Truthy`.
- A handler that throws, such as `new ObjectId` on a malformed id or `toISOString` on an invalid date, is modelled as `ServerError` (500).
  - Inside a `try`, the handler's own `catch` sends the 500.
  - Four handlers call `new ObjectId` outside any `try` (routes/routes.js lines 102, 153, 271 and 339). For these the model assumes Express 5, which answers a rejected handler promise with 500. Under Express 4 no response is sent at all, and from Node 15 on the unhandled rejection ends the process. The Express version is not part of this model.

## Model

| member | source | states |
|---|---|---|
| Service.Office.constructor | routes/routes.js:3-9 | The five collections the routes are given, here starting empty, and the id generator at zero. |
| Service.Office.CreateEmployee | routes/routes.js:13-27 | 400 and nothing changes when name is empty or dailySalary is falsy. Otherwise exactly one employee is appended, with a fresh id, the given salary and status "active", and that id is returned. |
| Service.Office.PatchEmployee | routes/routes.js:35-63 | 400 for a malformed id; 404 and nothing changes when no employee has it. Otherwise only that employee changes: the salary whenever supplied (0 included), name and status only when non-empty. |
| Records.ApplyEmployeePatch | routes/routes.js:43-47 | The `$set` built from the body changes exactly the supplied fields and keeps the id. |
| Service.PatchKeepsConsistent | routes/routes.js:49-52 | An id-preserving patch of the employee with a given id keeps every uniqueness invariant. |
| Service.Office.DeleteEmployee | routes/routes.js:65-89 | 400 for a malformed id and 404 for an absent one, with nothing changed. Otherwise exactly the first (and only) employee with that id is cut out, the others keeping their order, and every attendance row and advance of theirs is gone while all other rows stay. |
| Service.RemovalKeepsConsistent | routes/routes.js:79-83 | Deleting an existing employee removes exactly one document, exactly the one with that id, and the cascade keeps every uniqueness invariant. |
| Service.Office.MarkAttendance | routes/routes.js:98-120 | An existing (employee, day) row gets the new status and no row is added; otherwise exactly one row is appended. At most one row per (employee, day) is preserved. A malformed id gives 500. |
| Reports.AttendanceOnDate | routes/routes.js:122-125 | The result holds exactly the rows of that day, of every employee. |
| Reports.AdvancesOnDate | routes/routes.js:137-148 | An unparsable date gives 500; otherwise exactly the advances on the normalised day. |
| Records.NormalizeDate | routes/routes.js:139-141 | Succeeds exactly on YYYY-MM-DD strings whose month is 01 to 12 and day 01 to 31, returns them unchanged, and is idempotent. |
| Reports.AdvanceSummary | routes/routes.js:152-178 | 500 exactly when the employee id is malformed; otherwise the result is the grouped monthly totals that MonthlyTotals and the lemmas below characterise. |
| Reports.MonthlyTotals | routes/routes.js:156-170 | The per-day amounts of the grouped summary add up to the total of every advance the `$match` keeps: that employee's, dated within the month. |
| Reports.TotalAmount | routes/routes.js:288 | The `reduce` of advances none of which is negative is not negative. |
| Reports.MonthlyTotalsAscending | routes/routes.js:169 | The summary's days are strictly ascending in string order. |
| Reports.MonthlyTotalsComplete | routes/routes.js:156-162 | Every day in the month on which the employee has an advance appears in the summary. |
| Reports.MonthlyTotalsSound | routes/routes.js:156-162 | Every listed day starts with the month and has an advance of that employee. |
| Reports.MonthlyTotalsAmounts | routes/routes.js:163-168 | Each listed amount is the sum of all that employee's advances on that exact day. |
| Reports.DistinctDates | routes/routes.js:164-169 | The group keys are exactly the dates occurring among the matched advances. |
| Reports.InsertDate | routes/routes.js:169 | Inserting a day into the key list adds just that day. |
| Reports.DayTotals | routes/routes.js:172-177 | One `{date, amount}` per key, in key order, each with that day's sum. |
| Reports.DayTotalsSumToTotal | routes/routes.js:163-168 | The per-day sums of a grouping add up to the plain total of the grouped advances. |
| Reports.DayTotalsInsert | routes/routes.js:164-169 | Adding a new key to an ascending key list adds exactly that day's sum to the grand total. |
| Reports.DayTotalsStep | routes/routes.js:166 | One more advance raises the grand total by its amount exactly when its day is listed. |
| Reports.InsertDateKeepsAscending | routes/routes.js:169 | Inserting a day keeps the key list strictly ascending. |
| Reports.DistinctDatesAscending | routes/routes.js:169 | The group keys come out strictly ascending. |
| Reports.Salary | routes/routes.js:270-299 | 500 for a malformed id; 404 exactly when no employee has it, and the report exactly when one does. In the report: presentDays counts that employee's "present" rows dated within the month; totalAdvance sums that employee's advances in the month; totalSalary = presentDays × dailySalary; payable = totalSalary − totalAdvance. |
| Reports.SummaryAgreesWithSalary | routes/routes.js:152-178 | Whenever the salary report succeeds, the monthly summary succeeds too, and its amounts add up to the report's totalAdvance. |
| Service.Office.CreateAdvance | routes/routes.js:185-222 | 400 for a missing employee or date; 500 for an unparsable date or id; 409 with nothing changed when an advance for (employee, day) exists; otherwise exactly one advance appended under the normalised day. |
| Service.Office.PatchAdvance | routes/routes.js:229-265 | The same 400 and 500 cases. 404 with nothing inserted when no advance for (employee, day) exists; otherwise only that advance's amount changes. |
| Service.Office.CreateCustomer | routes/routes.js:303-329 | 400 for an empty name; 409 with nothing changed when a customer's name is equal ignoring case; otherwise exactly one customer appended with a fresh id. |
| Reports.NewestFirst | routes/routes.js:29-32 | Listing newest first gives the documents in reverse insertion order. |
| Service.Office.DeleteCustomer | routes/routes.js:336-353 | 500 for a malformed id; 404 with nothing changed for an absent one. Otherwise exactly that customer is cut out, the others keeping their order, and every rate entry named exactly like them is pulled from every day's ledger. |
| Service.Office.PostRates | routes/routes.js:357-370 | The day's list becomes its old list followed by the new entries in order, and no other day's list changes. A missing day document is created (upserted); an existing one is updated in place. |
| Reports.RatesAfterPush | routes/routes.js:360-367 | Appending to the one document of a day lengthens that day's list by exactly the new entries and leaves other days alone. |
| Reports.RatesAfterInsert | routes/routes.js:360-367 | An upserted day document makes its entries that day's list and leaves other days alone. |
| Reports.RatesOn | routes/routes.js:374-378 | A day without a document reads as []; with one document per day, a day's document gives its list. |
| Reports.RatesOnAgree | routes/routes.js:374-378 | Two ledgers that hold the same documents for a day read the same for that day. |
| Reports.RatesFor | routes/routes.js:372-380 | The day read is the requested one, or today when none is given, and the rates are that day's list. |
| Service.Office.PatchRate | routes/routes.js:382-401 | In the day's document, only the first entry with that customer name changes, and only its truthy prices and supplied piece; other days are untouched. matchedCount is 1 exactly when such an entry existed. |
| Records.ApplyPushRates | routes/routes.js:363-364 | `$set` with `$push`/`$each` keeps the day, replaces the stamp, keeps the old entries in place and puts the new ones after them in the order given. |
| Records.ApplyPullCustomer | routes/routes.js:349 | `$pull` by customer name keeps the day and stamp, drops every entry with that name and keeps every other entry as often as it occurred. |
| Records.PullCustomerKeepsOrder | routes/routes.js:408 | Pulling from a list split in two is pulling from each part, the parts kept in order, so the surviving entries keep their order. |
| Records.ApplyCustomerRatePatch | routes/routes.js:395-397 | The positional `rates.$` update patches the first entry with that exact name, per ApplyRatePatch, and no other; without such an entry the document is unchanged. |
| Records.ApplyRatePatch | routes/routes.js:385-393 | A price is replaced only when truthy. A supplied piece becomes its two counts, each 0 when missing. The customer name is kept. |
| Service.Office.DeleteRateCustomer | routes/routes.js:403-412 | Every entry with that customer name is pulled from that day's document; other days are untouched. |
| Service.Office.DeleteRateDate | routes/routes.js:414-418 | The day's document is removed, deletedCount is 1 or 0, and every other document stays. |
| ObjectIds.ParseObjectId | routes/routes.js:39-41 | An id is accepted exactly when it is 24 hexadecimal digits. |
| ObjectIds.ObjectIdRoundTrip | routes/routes.js:26 | The id a creation returns, formatted as a client sends it back, parses to the same id. |
| ObjectIds.ParseIgnoresCase | routes/routes.js:50 | Upper- and lower-case spellings of an id name the same document. |
| Strings.LexLessTransitive | routes/routes.js:169 | The string order the summary sorts by is transitive. |
| Strings.LexLessIrreflexive | routes/routes.js:169 | No string sorts before itself. |
| Strings.LexLessTotal | routes/routes.js:169 | Any two different strings are ordered one way or the other. |
| Mongo.FindFirst | routes/routes.js:72 | `findOne` yields the first matching document, and none only when nothing matches. |
| Mongo.UpdateFirst | routes/routes.js:49-52 | `updateOne` changes the first match only, and nothing when nothing matches. |
| Mongo.UpdateMany | routes/routes.js:347-350 | `updateMany` changes every matching document and no other. |
| Mongo.DeleteFirst | routes/routes.js:79 | `deleteOne` removes the first match only. |
| Mongo.Select | routes/routes.js:123 | `find` keeps exactly the matching documents. |
| Mongo.Without | routes/routes.js:82-83 | `deleteMany` and `$pull` keep exactly the documents that do not match. |
| Mongo.WithoutMultiset | routes/routes.js:82-83 | Each non-matching document stays as often as it occurred, and no matching one stays. |
| Mongo.WithoutAppend | routes/routes.js:82-83 | Removal distributes over concatenation, so the survivors keep their order. |
| Mongo.Count | routes/routes.js:277-281 | `countDocuments` is the number of documents `find` returns. |
| Mongo.SelectAppend | routes/routes.js:283-288 | Filtering distributes over concatenation. |
| Mongo.SelectMultiset | routes/routes.js:283-288 | Filtering never adds or duplicates documents. |
| Mongo.SelectSelect | routes/routes.js:156-166 | Grouping the month's matches by day equals filtering by employee and day directly. |
| Mongo.WithoutAll | routes/routes.js:408 | Pulling a name every entry carries leaves the list empty. |
| Mongo.AppendKeepsKeysUnique | routes/routes.js:113-117 | An insert whose key is new keeps keys unique. |
| Mongo.UpdateFirstKeepsKeysUnique | routes/routes.js:109 | A key-preserving `updateOne` keeps keys unique. |
| Mongo.UpdateManyKeepsKeysUnique | routes/routes.js:347-350 | A key-preserving `updateMany` keeps keys unique. |
| Mongo.DeleteFirstKeepsKeysUnique | routes/routes.js:79 | `deleteOne` keeps keys unique. |
| Mongo.WithoutKeepsKeysUnique | routes/routes.js:82-83 | `deleteMany` keeps keys unique. |
| Mongo.DeleteFirstUniqueKey | routes/routes.js:79 | With unique keys, deleting the first document with a key deletes exactly the documents with that key. |
| Mongo.UpdateFirstUniqueKey | routes/routes.js:239-250 | With unique keys, updating the first document with a key updates exactly the documents with that key. |
| Scenarios.AdvanceCreatedTwice | routes/routes.js:195-205 | Creating an advance for the same employee and day twice gives 200, then 409. |
| Scenarios.AdvanceInMonthThirteen | routes/routes.js:193 | An advance dated 2024-13-45 is answered 500 and nothing is stored. |
| Scenarios.AdvancePatchedBeforeCreated | routes/routes.js:252-256 | Patching an advance that was never created gives 404 and stores nothing. |
| Scenarios.AttendanceMarkedTwice | routes/routes.js:106-117 | Marking a day twice adds one row, then overwrites its status. |
| Scenarios.ZeroSalaryPatch | routes/routes.js:46 | A patch with salary 0 sets it to 0, since the test is `!== undefined`. |
| Scenarios.SalaryOfAMonth | routes/routes.js:277-297 | An employee paid 100 a day, present on two days of the month, otherwise marked on a third, present outside the month and advanced 50 in it, has a report of 2 days, 200, 50 and 150. |
| Scenarios.RatesReadBackInOrder | routes/routes.js:357-380 | Two posts to one day read back as both batches in posting order. |
| Scenarios.RatePatchedOnEmptyDay | routes/routes.js:395-400 | Patching on a day without a ledger matches and modifies nothing. |
| Scenarios.PatchReachesFirstEntry | routes/routes.js:386-397 | With two entries for one customer on a day, a patch changes only the first. |
| Scenarios.RemovalTakesAllEntries | routes/routes.js:406-409 | With two entries for one customer on a day, removing the customer removes both. |

## Left out

- index.js is not part of this model. It covers Express setup, CORS, environment variables, the MongoClient connection, the ping and `app.listen`.
- Concurrency is not modelled: requests are handled one at a time. The read-then-write races in attendance and advance creation (two requests finding no row and both inserting) are therefore not covered.
- `createdAt` and `updatedAt` timestamps are not stored, except the client-supplied `createdAt` of a rate document. The `createdAt`-descending listing is modelled as reverse insertion order, which it equals when every insert gets a strictly later timestamp than the one before. Two inserts in the same millisecond tie in that sort, and their relative order is then not determined; that case is not covered.
- Records.NormalizeDate: accepts only strings already in YYYY-MM-DD form with a month from 01 to 12 and a day from 01 to 31, and returns them unchanged. Any other month or day is an invalid date whose `toISOString` throws (500), as in the model. Two behaviours of JavaScript's `Date` parsing are not modelled:
  - it also accepts other formats, which the model refuses;
  - it rolls a day past the end of its month over into the next month (2024-02-30 reads as 2024-03-01), where the model returns the day unchanged.
- "Today" in `GET /sellingRate` is a parameter.
- `$regex` is modelled without metacharacters. The month filter `^month` is a string prefix test. The customer-name filter `^name$` with option `i` is equality after ASCII case folding. That is exact only for names and months without regex metacharacters. With them the handlers behave otherwise, and none of the following is covered:
  - `.` and `*` can make the filter match other text as well (`^a.b$` matches "axb");
  - quantifiers can keep a name from matching its own text: `^C++$` and `^a+b$` do not match "C++" or "a+b". A second `POST /customers` with such a name is therefore accepted and stores a duplicate, where the model answers 409;
  - an unbalanced `(` makes `findOne` fail outside any `try`.
- One customer per case-folded name, which `Valid()` states, holds in the service only for names without regex metacharacters, for the reason above. Non-ASCII case folding is not covered either.
- `Number()` coercion is not modelled: amounts, salaries, prices and piece counts are integers. NaN, floating-point money and non-numeric strings are left out.
- ObjectIds.ParseObjectId: accepts exactly 24 hexadecimal digits. Older bson releases also accepted any 12-character string; that is not modelled. The generator is a counter without the 12-byte bound.
- Service.Office.MarkAttendance: an absent employeeId makes `new ObjectId(undefined)` generate a fresh id, and a row is stored for it. The model treats the absent id like a malformed one (500).
- Service.Office.PostRates: a request without `rates` makes `$each` a non-array, and MongoDB rejects the update, outside any `try`. The model's `rates` is always a list, so that failure is not covered.
- Driver result objects keep only `matchedCount`, `modifiedCount`, `upsertedCount`, `deletedCount` and the inserted id. Service.Office.PostRates does not state its `modifiedCount`.
- A `$set` with no fields (a patch with nothing to change) is modelled as a matched no-op, as MongoDB 5.0 and later treat it.
- Response bodies and messages are left out; only the status and the state change are modelled.
- A positive dailySalary is not enforced: the handler rejects only a falsy value, so a negative salary is accepted. The model follows the handler.
