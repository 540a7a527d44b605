# Programación de bases de datos — verified model of the core

This project is a Dafny model of the parts of the course repository that carry rules of their own:

- **The synthetic-data populators.**
  - `faker_mongodb.py`, `faker_mysql.py` and `faker_ventas.py` hand out unique emails and codes from a ledger of values already used.
  - They insert rows one at a time or in batches, and de-duplicate enrollment pairs.
  - The sales script partitions users into employees and customers, assigns managers, and batches purchase orders.
  - It also returns each completed sale at most once and truncates long emails.
- **The Vue composables** `useForm` and `usePagination` (`advanced.js`): a form state machine with ordered validation rules, and a bounded page cursor.
- **The MySQL employee controller** (`empleado.controller.ts`): the SQL statements and parameter lists of the list, create and update endpoints, and their early exits.
- **The two user-list endpoints**, in Python and in TypeScript: page arithmetic, the search filter, `_id` stringification and error replies.
- **The browser request helper** (`request.utils.js`): URL, header merge, bearer token and body.
- **The Express bearer-token middleware and the Vue router guard.**
- **The `Galleta` encapsulation class.**

The environment is modelled as follows:

- **Faker, `random` and the clock are oracles.** Each call of a generator receives, as a parameter, the sequence of candidates those libraries would have produced.
- **The database is an append-only `Table`.** It hands out consecutive ids and records the row count of every insert call and every commit.
- **Shared state is a class with `modifies` frames.** The ledgers, tables, form, pagination cursor, request helper, Express exchange and document are each a class.
- **Pure code is a function.** This covers the SQL builders, page arithmetic, header merge and guards.

Shared helper modules:

- `Wrappers`: Option and Result.
- `JsValues`: JavaScript values, truthiness, objects and spread.
- `JsNumbers`: `parseInt`, `Number` on a string, and `Math.ceil`.
- `Digits` and `HexDigits`: `str`, `zfill`, and hex text.
- `Text`: `split`/`join`.
- `QueryString`: `querystring.stringify`.
- `Batching`: `range(0, n, b)` windows and ceiling division.
- `Choice`: `random.choice` as an index.
- `Combinations`: the pair ledger.
- `UniqueValues` and `Populate`: the ledger and its runs.
- `Store`: the table.
- `UserSearch`: the shared search filter.

## Model

| member | source | states |
|---|---|---|
| UniqueValues.Ledger.GenerateUniqueEmail | clase-2/faker_mongodb.py:26-41 | The loop scans at most 1000 `fake.email()` draws and returns the first one not in the ledger, else the timestamp fallback (`Pick`). The ledger grows by exactly the returned value. |
| UniqueValues.Ledger.GenerateUniqueCode | clase-2/faker_ventas.py:54-69 | The same for `prefix + randint(...)` draws, with `prefix + timestamp` as the fallback. The returned code is added to the ledger. |
| UniqueValues.FirstFresh | clase-2/faker_ventas.py:41-46 | The first attempt index whose candidate is not in the ledger: every earlier attempt was taken, and None means all 1000 were. |
| UniqueValues.PickSpec | clase-2/faker_mysql.py:29-39 | On the loop path the value is one of the first 1000 candidates and not in the ledger. Otherwise every candidate was taken and the fallback is returned. |
| UniqueValues.FallbackMayRepeat | clase-2/faker_ventas.py:48-51 | There is a ledger for which the unchecked fallback returns a value the ledger already holds. |
| UniqueValues.RunStep | clase-2/faker_mongodb.py:31-35 | Call i of a run picks against the starting ledger plus every earlier value. |
| UniqueValues.RunLoopPathFresh | clase-2/faker_mongodb.py:31-35 | A value produced on the loop path repeats neither the starting ledger nor any earlier value of the run. |
| UniqueValues.RunAppend | clase-2/faker_mongodb.py:26-41 | One more call extends the run by the value it picks against the ledger so far. |
| UniqueValues.LedgerAppend | clase-2/faker_ventas.py:44-50 | One more call adds exactly its returned value to the ledger, so the ledger never shrinks. |
| UniqueValues.LedgerRunStep | clase-2/faker_mysql.py:54-57 | One pass of a loop that calls the generator extends the values handed out and the ledger by the picked value. |
| UniqueValues.LedgerRunDone | clase-2/faker_mysql.py:54-57 | After every pass the values handed out are the run and the ledger is the run's ledger. |
| UniqueValues.LoopCodeShape | clase-2/faker_ventas.py:59-63 | On the loop path a code is the prefix followed by exactly `length` digits, and those digits are a number `randint` could have drawn. |
| UniqueValues.Ledger.constructor | clase-2/faker_mysql.py:49 | A run starts with an empty ledger (`used_emails = set()`). |
| UniqueValues.EmailCandidatesOfAll | clase-2/faker_ventas.py:164-165 | One candidate list per email call of a loop, in order. |
| Populate.HandoutStep | clase-2/faker_ventas.py:164-165 | One more generator call from the state after i calls gives the state after i + 1 calls. |
| Populate.HandoutRun | clase-2/faker_ventas.py:164-165 | After n calls the ledger is its start plus the first n values of the run, and those are the values handed out. |
| Populate.HandoutAll | clase-2/faker_ventas.py:164-165 | After the whole loop the ledger and the values handed out are those of the run. |
| Store.Table.InsertMany | clase-2/faker_mongodb.py:165 | `insert_many` appends the batch and records one call of its size. It returns consecutive fresh ids, one per record, in order. |
| Store.Table.Insert | clase-2/faker_mysql.py:59-63 | `execute(INSERT)` followed by `lastrowid` appends one row and returns the next fresh id. |
| Store.Table.InsertUnique | clase-2/faker_mysql.py:182-195 | An insert under a unique key succeeds exactly when the row is not stored yet. A refused row changes nothing. |
| Store.Table.Commit | clase-2/faker_mysql.py:75 | `conn.commit()` records the durable row count and changes no row. |
| Store.Table.constructor | clase-2/faker_mysql.py:45-46 | A connection sees the rows already stored, and no insert call or commit yet. |
| Store.FreshIds | clase-2/faker_mongodb.py:168-169 | The ids of n rows appended after `base` rows are base+1 … base+n. |
| Batching.CeilDivIsCeiling | clase-2/faker_mongodb.py:162-165 | `CeilDiv(n, b)` windows of size b cover n items, and one fewer window does not. |
| Batching.CeilDivUnique | clase-2/faker_mongodb.py:162-165 | Any c with (c-1)·b < n ≤ c·b is `CeilDiv(n, b)`. |
| Batching.RangesFromCount | clase-2/faker_ventas.py:485-486 | `range(from, n, b)` with windows ending at `min(start + b, n)` has ceil((n - from)/b) windows. |
| Batching.RangesFromTile | clase-2/faker_ventas.py:485-489 | Those windows are non-empty, of size at most b, consecutive, and cover [from, n) in order. |
| Batching.BatchRangesTile | clase-2/faker_mongodb.py:163-164 | The windows of `range(0, n, b)` tile [0, n) in order, and there are ceil(n/b) of them. |
| Batching.BatchRangesExtend | clase-2/faker_mongodb.py:217-224 | Adding r < b items after m full windows adds one window of size r, or none when r = 0. |
| Batching.RangesFromSplit | clase-2/faker_ventas.py:485 | The windows from `from` are the first m full windows followed by the windows from `from + m·b`. |
| Choice.Index | clase-2/faker_mysql.py:115-117 | `random.choice` over a list of length n picks an index below n. |
| Choice.IndexIsMod | clase-2/faker_mysql.py:115-117 | The chosen index is the draw reduced modulo the list length. |
| Choice.IndexReaches | clase-2/faker_mysql.py:115-117 | Every index of the list can be chosen. |
| Combinations.AcceptSound | clase-2/faker_mongodb.py:181-190 | The accepted pairs are drawn pairs, none is in the starting set, and none is accepted twice. |
| Combinations.AcceptComplete | clase-2/faker_mongodb.py:186-190 | Every drawn pair is either already in the set or accepted. |
| Combinations.AcceptAppend | clase-2/faker_mongodb.py:184-190 | One more draw is accepted exactly when it is not among the starting pairs or the pairs accepted so far. |
| Digits.DecimalValue | clase-2/faker_mongodb.py:150 | `str(n)` is all digits and reads back as n. |
| Digits.ZFill | clase-2/faker_mongodb.py:150 | `zfill(w)` pads with zeros to width w and leaves longer text as it is. |
| Digits.ZFillDecimalValue | clase-2/faker_mongodb.py:150 | `str(n).zfill(w)` still reads back as n. |
| Digits.ZFillDecimalInjective | clase-2/faker_mongodb.py:150 | Distinct numbers give distinct zero-padded texts. |
| Digits.DecimalLength | clase-2/faker_ventas.py:60 | A number in [10^(k-1), 10^k - 1] has exactly k digits. |
| FakerMongo.StudentCodeInjective | clase-2/faker_mongodb.py:150 | Distinct loop indices give distinct `STU` codes, even past 999999 students. |
| FakerMongo.StudentCodeLength | clase-2/faker_mongodb.py:150 | Up to 999999 students every code is `STU` and six digits. |
| FakerMongo.PrepareStudents | clase-2/faker_mongodb.py:135-155 | Student i gets the i-th email of the ledger's run and the code of index i. The ledger grows by exactly the emails handed out. |
| FakerMongo.WriteBackIds | clase-2/faker_mongodb.py:168-169 | `students_data[start + j]['_id'] = inserted_ids[j]` in place. Every other document is unchanged. |
| FakerMongo.StampWindow | clase-2/faker_mongodb.py:163-169 | Writing back the consecutive ids of window [i, i + size) stamps every document before the window's end. |
| FakerMongo.ProgressStep | clase-2/faker_mongodb.py:163-169 | One pass of the batch loop moves the store, the call log and the stamped prefix from offset i to offset i + 1000. |
| FakerMongo.ProgressDone | clase-2/faker_mongodb.py:162-169 | After the loop every student is stored in order, in ceil(n/1000) calls sized by the windows, and stamped. |
| FakerMongo.InsertBatch | clase-2/faker_mongodb.py:164-169 | One pass: `insert_many(students_data[i:end])`, then the positional write-back of its ids. |
| FakerMongo.InsertStudents | clase-2/faker_mongodb.py:162-169 | Every student is inserted once, in order, in ceil(n/1000) calls of at most 1000 records. Student k ends up carrying the k-th fresh id. |
| FakerMongo.FlushBuffer | clase-2/faker_mongodb.py:217-224 | Flushing the buffer stores exactly the accepted pairs and logs one more window of the batching. |
| FakerMongo.CreateEnrollments | clase-2/faker_mongodb.py:177-224 | The store receives exactly the accepted (de-duplicated) pairs, in order, in 1000-record batches. `enrollments_created` is their number and is at most the number of draws. |
| FakerMysql.InsertPerson | clase-2/faker_mysql.py:54-69 | One pass: an email from the ledger, the INSERT, `lastrowid`, and the entry appended. |
| FakerMysql.PeopleStep | clase-2/faker_mysql.py:54-69 | The bookkeeping of one pass keeps the loop invariant. |
| FakerMysql.InsertPeople | clase-2/faker_mysql.py:51-76 | The teacher list grows by one entry per draw, in order. Entry k holds the k-th fresh id and the k-th email of the run. The store holds exactly those rows, and there is one commit. |
| FakerMysql.PeopleDone | clase-2/faker_mysql.py:54-69 | After every pass the ledger and the entries are those of the whole run. |
| FakerMysql.CourseRowOf | clase-2/faker_mysql.py:114-129 | A course's name is one of the thirty subjects, and its `teacher_id` is the id of a listed teacher. |
| FakerMysql.SubjectOf | clase-2/faker_mysql.py:115 | A course name is one of the listed subjects. |
| FakerMysql.CourseTeacherIsStored | clase-2/faker_mysql.py:117 | Over the list the teacher loop returned, each course's `teacher_id` names a stored teacher row, and that row is the chosen teacher's. |
| FakerMysql.InsertCourses | clase-2/faker_mysql.py:113-131 | One insert per course. Entry k holds the k-th fresh id and the row of draw k, and there is one commit. |
| FakerMysql.Fresh | clase-2/faker_mysql.py:182-195 | The accepted pairs the unique key lets through are those missing from the store. |
| FakerMysql.EnrollmentPicks | clase-2/faker_mysql.py:170-172 | One (student id, course id) pair per draw. The student id is the id of some student of the list, and the course id that of some course. |
| FakerMysql.EnrollStep | clase-2/faker_mysql.py:182-195 | An attempted pair joins the store exactly when it was not already stored. |
| FakerMysql.AcceptStep | clase-2/faker_mysql.py:172-178 | The combination set after pick i is the set after the previous picks, plus pick i when it is new. |
| FakerMysql.Enroll | clase-2/faker_mysql.py:169-195 | A pair already in the set is skipped. Otherwise it joins the set before the insert, and the counter moves only when the insert succeeded. |
| FakerMysql.InsertEnrollments | clase-2/faker_mysql.py:164-198 | The set ends as the accepted pairs, and each accepted pair is attempted once. The store gains those it lacked, the counter is their number, and the counter is at most the number of draws. |
| FakerVentas.Column | clase-2/faker_ventas.py:171-173 | `s[:n]` is the prefix of length min(n, \|s\|). |
| FakerVentas.TruncateEmail | clase-2/faker_ventas.py:166-168 | An email over 150 characters becomes its first 147 characters plus `...`, exactly 150 in all. A shorter email is unchanged. |
| FakerVentas.TruncateIdempotent | clase-2/faker_ventas.py:167-168 | Truncating a stored email again changes nothing. |
| FakerVentas.TruncationCollides | clase-2/faker_ventas.py:165-168 | Two distinct ledger values can truncate to the same stored email, because truncation happens after the ledger check. |
| FakerVentas.UserRowOf | clase-2/faker_ventas.py:165-175 | Every text of a users row fits its column, and the email is the truncated ledger value. |
| FakerVentas.InsertUser | clase-2/faker_ventas.py:164-190 | One pass of the user loop keeps the ledger, the list and the store in step. |
| FakerVentas.InsertUsers | clase-2/faker_ventas.py:161-196 | User k holds the k-th fresh id, draw k and the truncated k-th email of the run. The store holds exactly those rows, and there is one commit. |
| FakerVentas.UsersDone | clase-2/faker_ventas.py:184-190 | User k of the finished list, read off. |
| FakerVentas.FreshIdsDistinct | clase-2/faker_ventas.py:183-185 | Entries carrying consecutive fresh ids have distinct ids. |
| FakerVentas.ActiveUsers | clase-2/faker_ventas.py:201 | A user is in `available_users` exactly when it is in the users list and its status is active. |
| FakerVentas.ActiveUsersDistinct | clase-2/faker_ventas.py:201 | Filtering keeps the ids distinct. |
| FakerVentas.MaxEmployees | clase-2/faker_ventas.py:210 | The count is at most the available users and NUM_EMPLOYEES, and is the largest such count with 10·r ≤ 7·available. |
| FakerVentas.EmployeeRowOf | clase-2/faker_ventas.py:212-214 | Employee i is built on `available_users[i]`, with its code cut to 20 characters. |
| FakerVentas.EmployeeCodeFits | clase-2/faker_ventas.py:214 | On the loop path the `EMP` code has 9 characters, so the `[:20]` cut leaves it whole. |
| FakerVentas.InsertEmployee | clase-2/faker_ventas.py:212-236 | One pass of the employee loop keeps the code ledger, the list and the store in step. |
| FakerVentas.InsertEmployees | clase-2/faker_ventas.py:209-236 | Exactly `MaxEmployees` employees are inserted. Employee k is built on available user k, with the k-th code of the `EMP` run. |
| FakerVentas.EmployeePasses | clase-2/faker_ventas.py:212-236 | After n passes the ledger and the codes handed out are those of the first n "EMP" calls, the list holds the n entries built on the first n users, and the table gained their rows, one insert each, uncommitted. |
| FakerVentas.EmployeesDone | clase-2/faker_ventas.py:212-236 | The finished list has MaxEmployees entries, and employee k is built on available user k. |
| FakerVentas.Others | clase-2/faker_ventas.py:244 | The employees with a different id, in order. |
| FakerVentas.AssignManagers | clase-2/faker_ventas.py:242-250 | The manager loop issues exactly the updates of `ManagerPlan` and writes them to the employee rows, and the phase then commits. Where `random.choice` meets an empty list it fails: the rows keep the updates of the passes before it, and nothing is committed. |
| FakerVentas.ManagerPass | clase-2/faker_ventas.py:243-248 | One pass extends the plan by its update and writes it to the employee's row, or fails and writes nothing. |
| FakerVentas.ManagedOnlyManagers | clase-2/faker_ventas.py:245-248 | The updates change only `manager_id`. A row whose manager changed carries the manager of an update naming that row's id. |
| FakerVentas.ManagerNeverSelf | clase-2/faker_ventas.py:244 | Every planned update names a manager whose id differs from the employee's, and the manager is a listed employee. |
| FakerVentas.ManagerPlanFails | clase-2/faker_ventas.py:243-244 | The phase fails exactly when some employee drawn for a manager has no other employee to choose from. |
| FakerVentas.ManagerPlanStaysNone | clase-2/faker_ventas.py:242-248 | Once a pass fails, the whole phase has failed. |
| FakerVentas.ManagerPlanSucceeds | clase-2/faker_ventas.py:242-248 | With at least two employees and distinct ids, the phase always succeeds. |
| FakerVentas.CustomerRowOf | clase-2/faker_ventas.py:263-265 | The document is the SSN for an individual and the EIN for a corporation, cut to 50 characters. |
| FakerVentas.Remaining | clase-2/faker_ventas.py:258 | A user remains exactly when it is available and no employee took its id. |
| FakerVentas.RemainingAfterEmployees | clase-2/faker_ventas.py:256-258 | Customers start where employees ended: the remaining users are the available users after the employees' prefix. |
| FakerVentas.InsertCustomer | clase-2/faker_ventas.py:262-287 | One pass of the customer loop keeps the list and the store in step. |
| FakerVentas.CustomerStep | clase-2/faker_ventas.py:262-287 | The bookkeeping of one customer pass. |
| FakerVentas.InsertCustomers | clase-2/faker_ventas.py:253-287 | There are min(NUM_CUSTOMERS, \|remaining\|) customers. Customer k is built on the k-th user no employee took. |
| FakerVentas.CustomersDone | clase-2/faker_ventas.py:257-263 | At most NUM_CUSTOMERS customers, and none of them is a user some employee took. |
| FakerVentas.OrderRowOf | clase-2/faker_ventas.py:490 | The order number is the generated code cut to 50 characters. |
| FakerVentas.CommitPoints | clase-2/faker_ventas.py:531-532 | One commit per window, recording the rows up to the window's end. |
| FakerVentas.CommitsFromWindows | clase-2/faker_ventas.py:485-532 | The commits from a window on are those of its batching windows. |
| FakerVentas.CommitsFromStep | clase-2/faker_ventas.py:531-532 | After a window commits, the commits still to come are those of the next window on. |
| FakerVentas.InsertOrder | clase-2/faker_ventas.py:489-529 | One order: a fresh `PO` code, the insert, and the order appended. |
| FakerVentas.OrderStep | clase-2/faker_ventas.py:489-529 | The bookkeeping of one order keeps the loop invariant. |
| FakerVentas.InsertWindowOrders | clase-2/faker_ventas.py:489-529 | The orders of one window are inserted one by one, with no commit. |
| FakerVentas.InsertOrderBatch | clase-2/faker_ventas.py:486-532 | One window: its orders are inserted, then one commit records the rows up to the window's end. |
| FakerVentas.InsertPurchaseOrders | clase-2/faker_ventas.py:479-535 | One order per draw, numbered by the `PO` run. The commits fall exactly at the ends of the windows `[s, min(s + 10000, n))`, in order. |
| FakerVentas.OrdersDone | clase-2/faker_ventas.py:485-531 | After the phase the codes handed out are the ledger's whole run. |
| FakerVentas.RemoveFirst | clase-2/faker_ventas.py:789 | `list.remove(x)` shortens the list by one and adds nothing. |
| FakerVentas.RemoveFirstOne | clase-2/faker_ventas.py:789 | `remove` drops exactly one occurrence of x, as a multiset. |
| FakerVentas.RemoveFirstIds | clase-2/faker_ventas.py:788-789 | After the removal the ids stay distinct, and the removed sale's id is gone. |
| FakerVentas.PoolAfter | clase-2/faker_ventas.py:760-789 | After i passes the pool has lost exactly i sales. |
| FakerVentas.PoolAfterShrinks | clase-2/faker_ventas.py:788-789 | Later pools hold only sales of earlier pools, with distinct ids. |
| FakerVentas.ChosenSalesDistinct | clase-2/faker_ventas.py:763-789 | Two passes never choose sales with the same id. |
| FakerVentas.ReturnRowOf | clase-2/faker_ventas.py:764-780 | A return is for the chosen sale and its customer, under the code cut to 50 characters. |
| FakerVentas.ReturnPass | clase-2/faker_ventas.py:763-789 | One pass: `random.choice` on what is left, a fresh `R` code, the insert, the append, and `remove(sale)`. |
| FakerVentas.ReturnStep | clase-2/faker_ventas.py:763-789 | The bookkeeping of one return keeps the loop invariant. |
| FakerVentas.PoolStep | clase-2/faker_ventas.py:763-789 | Removing the chosen sale from the pool after i passes gives the pool after i + 1 passes. |
| FakerVentas.InsertReturns | clase-2/faker_ventas.py:755-792 | There are min(NUM_RETURNS, \|completed\|) returns, then one commit. Return k is for the k-th chosen sale, under the k-th `R` code. |
| FakerVentas.ReturnsOncePerSale | clase-2/faker_ventas.py:762-789 | No two returns are for the same sale, when the completed sales have distinct ids. |
| FakerVentas.DaysOverdue | clase-2/faker_ventas.py:688 | `days_overdue` is positive exactly when an amount is pending and the due date is past. It is then today − due. |
| FakerVentas.ReceivableStatusOf | clase-2/faker_ventas.py:689-690 | The status is `overdue` exactly when it was drawn so or `days_overdue > 0`; otherwise it is the drawn status. |
| FakerVentas.OverdueNeverFires | clase-2/faker_ventas.py:687-690 | The due date is drawn between today and 60 days ahead, so `days_overdue` is 0 and the drawn status is kept. |
| Composables.FirstFailing | clase-3/vue-project/src/composables/advanced.js:15-27 | The first rule at or after `from` that rejects the value: every earlier one accepts it, and None means all accept. |
| Composables.ValidateField | clase-3/vue-project/src/composables/advanced.js:11-29 | Null for a field without rules. Otherwise the message of the first failing rule, or null when every rule accepts. |
| Composables.ErrorsOverSpec | clase-3/vue-project/src/composables/advanced.js:36-42 | A field has an entry exactly when it has rules and its error is truthy, and the entry is that error. |
| Composables.Form.constructor | clase-3/vue-project/src/composables/advanced.js:4-8 | The values are a copy of the initial ones, and nothing is touched, wrong or submitting. |
| Composables.Form.ValidateForm | clase-3/vue-project/src/composables/advanced.js:32-46 | `errors` is replaced by the errors of the current values, and the result is true exactly when there are none (`isValid`). |
| Composables.Form.HandleChange | clase-3/vue-project/src/composables/advanced.js:49-60 | The value is set and the field touched. The field's error is present exactly when `validateField` is truthy. Other errors are unchanged. |
| Composables.Form.HandleBlur | clase-3/vue-project/src/composables/advanced.js:63-65 | Only `touched` changes, by the field. |
| Composables.Form.ResetForm | clase-3/vue-project/src/composables/advanced.js:68-79 | Each existing key is reset to its initial value, or `''` when that is falsy. Errors and touched are emptied, so `isValid` and not `isDirty`. |
| Composables.ResetValues | clase-3/vue-project/src/composables/advanced.js:69-71 | The reset keeps exactly the keys the values had. |
| Composables.ResetClobbersFalsyInitial | clase-3/vue-project/src/composables/advanced.js:70 | An initial value of 0 comes back as `''`, so a reset is not a return to the initial values. |
| Composables.HandleChangeKeepsErrorsInSync | clase-3/vue-project/src/composables/advanced.js:36-60 | When the errors are those `validateForm` leaves, `handleChange` on any field gives the errors a full validation would give. |
| Composables.Slice | clase-3/vue-project/src/composables/advanced.js:161 | `slice(start, end)` is clamped to the list and empty past its end. |
| Composables.PagesTileItems | clase-3/vue-project/src/composables/advanced.js:155-162 | A page holds at most `perPage` items. Pages 1..totalPages are the non-empty windows that tile the list in order, and a later page is empty. |
| Composables.PageInWindow | clase-3/vue-project/src/composables/advanced.js:158-162 | Page p is the p-th window of the list's batching, and that window is non-empty. |
| Composables.PageBeyondCount | clase-3/vue-project/src/composables/advanced.js:156-161 | A page past the count starts at or past the end of the list. |
| Composables.TotalPagesIsCeiling | clase-3/vue-project/src/composables/advanced.js:156 | `totalPages` is the least page count that holds every item. |
| Composables.Pagination.constructor | clase-3/vue-project/src/composables/advanced.js:151-153 | The cursor starts on page 1 with the given page size. |
| Composables.Pagination.SetItems | clase-3/vue-project/src/composables/advanced.js:155 | The watched list is replaced, and the cursor stays where it was. |
| Composables.Pagination.SetPerPage | clase-3/vue-project/src/composables/advanced.js:153 | The page size is replaced, and the cursor stays where it was. |
| Composables.Pagination.GoToPage | clase-3/vue-project/src/composables/advanced.js:164-168 | The cursor moves to `page` exactly when 1 ≤ page ≤ totalPages. |
| Composables.Pagination.NextPage | clase-3/vue-project/src/composables/advanced.js:170-178 | The cursor advances by one exactly when `hasNextPage` held. |
| Composables.Pagination.PrevPage | clase-3/vue-project/src/composables/advanced.js:174-179 | The cursor steps back exactly when `hasPrevPage` held and the previous page is still within the count. |
| EmpleadoController.PlaceholdersJoin | clase-5/usuarios/backend/src/controllers/mysql/empleado.controller.ts:115 | A join of n items with e placeholders each, over a separator without any, has n·e placeholders. |
| EmpleadoController.DriverMarksPlain | clase-5/usuarios/backend/src/controllers/mysql/empleado.controller.ts:114-118 | With column names free of `?`, the driver counts exactly the placeholders. |
| EmpleadoController.FilterTableBound | clase-5/usuarios/backend/src/controllers/mysql/empleado.controller.ts:16-35 | Each filter clause binds exactly as many parameters as it has placeholders. |
| EmpleadoController.AppliedBound | clase-5/usuarios/backend/src/controllers/mysql/empleado.controller.ts:16-35 | Any selection of such clauses gives text and parameters that match. |
| EmpleadoController.BuiltStep | clase-5/usuarios/backend/src/controllers/mysql/empleado.controller.ts:16-35 | Each filter, in table order, contributes its clause exactly when it is given. |
| EmpleadoController.BuiltDone | clase-5/usuarios/backend/src/controllers/mysql/empleado.controller.ts:37 | After the four filters, appending the ORDER BY gives the list statement. |
| EmpleadoController.FilterQueryWellBound | clase-5/usuarios/backend/src/controllers/mysql/empleado.controller.ts:12-37 | For every combination of filters the number of `?` equals `params.length`. |
| EmpleadoController.SearchBindsTermLast | clase-5/usuarios/backend/src/controllers/mysql/empleado.controller.ts:31-35 | A search adds its clause last among the filters and binds `%term%` four times, as the last four parameters. |
| EmpleadoController.NoFiltersSelectsAll | clase-5/usuarios/backend/src/controllers/mysql/empleado.controller.ts:12-37 | Without filters the statement is the base SELECT and the ORDER BY, with no parameters. |
| EmpleadoController.AddFilter | clase-5/usuarios/backend/src/controllers/mysql/empleado.controller.ts:16-19 | A clause and its parameters are appended exactly when the filter is given. |
| EmpleadoController.BuildFilterQuery | clase-5/usuarios/backend/src/controllers/mysql/empleado.controller.ts:12-37 | The statement built step by step is `FilterQuery`: the clauses in the fixed order departamento, cargo, estado, busqueda, then `ORDER BY apellido, nombre`. Its placeholders match its parameters. |
| EmpleadoController.ApplyFilters | clase-5/usuarios/backend/src/controllers/mysql/empleado.controller.ts:12-35 | After the four `if (filtro)` blocks, the statement holds the base SELECT and the clauses of the filters given, in table order, with their parameters. |
| EmpleadoController.GetEmpleados | clase-5/usuarios/backend/src/controllers/mysql/empleado.controller.ts:9-51 | 200 with the rows, or 500 with the error message when the store raises. The statement sent is well bound. |
| EmpleadoController.InsertQueryWellBound | clase-5/usuarios/backend/src/controllers/mysql/empleado.controller.ts:114-118 | The INSERT has one column and one placeholder per body key, and binds one value per key. |
| EmpleadoController.InsertBindsByKey | clase-5/usuarios/backend/src/controllers/mysql/empleado.controller.ts:114-116 | The i-th value bound is the value of the i-th key, which is the i-th column. |
| EmpleadoController.InsertDriverMarks | clase-5/usuarios/backend/src/controllers/mysql/empleado.controller.ts:114-119 | With keys free of `?`, the driver counts exactly one `?` per bound value. |
| EmpleadoController.InsertKeyCanAddPlaceholder | clase-5/usuarios/backend/src/controllers/mysql/empleado.controller.ts:114-119 | A body key `?` becomes a column name the driver also counts, so the driver sees two marks for one value. |
| EmpleadoController.CreateEmpleado | clase-5/usuarios/backend/src/controllers/mysql/empleado.controller.ts:86-136 | A falsy `nombre` gives 400 before any query. A positive duplicate count gives 409. Otherwise the INSERT follows, answered 201, or 500 on an error. |
| EmpleadoController.CheckAndInsert | clase-5/usuarios/backend/src/controllers/mysql/empleado.controller.ts:99-135 | The duplicate count is asked first and is well bound. A positive count gives 409, and a store error gives 500. A count of 0 sends the INSERT, answered 201 with the created employee, or 500. |
| EmpleadoController.CreatedData | clase-5/usuarios/backend/src/controllers/mysql/empleado.controller.ts:124-127 | The created employee reads as the body, with `id` the store's id unless the body carries one. |
| EmpleadoController.DuplicateCheckWellBound | clase-5/usuarios/backend/src/controllers/mysql/empleado.controller.ts:166-181 | The check binds `[id]`, then the email and/or DNI given, one per placeholder. |
| EmpleadoController.BuildDuplicateCheck | clase-5/usuarios/backend/src/controllers/mysql/empleado.controller.ts:167-181 | The check built step by step is `DuplicateCheckQuery`, with `" OR "` only when both are given. |
| EmpleadoController.PairsPieces | clase-5/usuarios/backend/src/controllers/mysql/empleado.controller.ts:195 | The SET list has one placeholder per key, and is plain when the keys are. |
| EmpleadoController.UpdateQueryWellBound | clase-5/usuarios/backend/src/controllers/mysql/empleado.controller.ts:195-198 | The UPDATE has one `key = ?` per key plus the id's, and binds the values then the id. |
| EmpleadoController.UpdateDriverMarks | clase-5/usuarios/backend/src/controllers/mysql/empleado.controller.ts:195-199 | With keys free of `?`, the driver counts exactly one `?` per bound value. |
| EmpleadoController.NumberOf | clase-5/usuarios/backend/src/controllers/mysql/empleado.controller.ts:205 | `Number(id)` is a number exactly when `Number` reads an integer from the text, and NaN otherwise. |
| JsNumbers.NumberOfDecimal | clase-5/usuarios/backend/src/controllers/mysql/empleado.controller.ts:205 | `Number` reads the decimal text of a natural number as that number, with any white space around it. |
| JsNumbers.NumberOfSignedDecimal | clase-5/usuarios/backend/src/controllers/mysql/empleado.controller.ts:205 | With a leading `-` or `+` the same text reads as the negated or the same number. |
| JsNumbers.NumberOfPadded | clase-5/usuarios/backend/src/controllers/mysql/empleado.controller.ts:205 | White space around a literal does not change what `Number` reads. |
| JsNumbers.DecimalLiteral | clase-5/usuarios/backend/src/controllers/mysql/empleado.controller.ts:205 | An unsigned or signed decimal literal denotes its integer. |
| JsNumbers.NumberRejectsTrailing | clase-5/usuarios/backend/src/controllers/mysql/empleado.controller.ts:205 | Digits followed by other text are NaN for `Number` but read as the digits by `parseInt`. |
| EmpleadoController.UpdateEmpleado | clase-5/usuarios/backend/src/controllers/mysql/empleado.controller.ts:141-217 | An empty body gives 400 before any query, and a missing row gives 404. A positive duplicate count gives 409. Otherwise the UPDATE follows, answered 200, or 500 on an error. |
| EmpleadoController.UpdatedData | clase-5/usuarios/backend/src/controllers/mysql/empleado.controller.ts:204-208 | The updated employee reads as the body over the stored row over `Number(id)`, later spreads winning. |
| UserSearch.SearchFilter | clase-5/empleados/backend/app/controllers/user_controller.py:48-57 | The filter is empty exactly when there is no search term. Otherwise it is an `$or` of two conditions on the term. |
| UserSearch.SearchSelects | clase-5/usuarios/backend/src/controllers/mongodb/user.controller.ts:52-60 | Without a term every user is selected. With one, exactly those whose name or email matches it. |
| UserControllerPy.Stringified | clase-5/empleados/backend/app/controllers/user_controller.py:65 | `_id` becomes text and the other fields stay. |
| UserControllerPy.StringifiedIdempotent | clase-5/empleados/backend/app/controllers/user_controller.py:65 | Stringifying twice is stringifying once. |
| UserControllerPy.StringifiedKeepsDistinct | clase-5/empleados/backend/app/controllers/user_controller.py:64-65 | Distinct ObjectIds stay distinct once stringified. |
| UserControllerPy.StringifyIds | clase-5/empleados/backend/app/controllers/user_controller.py:64-65 | Every user of the array is stringified in place. |
| UserControllerPy.GetUsers | clase-5/empleados/backend/app/controllers/user_controller.py:39-83 | A search term that does not compile gives `status: False` before the store is asked anything. Otherwise the store is asked with skip = (page−1)·page_size ≥ 0 and the search filter. A listing echoes page and page_size, with `total_pages = (total + size − 1) // size`. Any exception gives `status: False`. |
| UserControllerPy.LastPageIsLast | clase-5/empleados/backend/app/controllers/user_controller.py:75 | `total_pages·page_size ≥ total`, and the last page starts before the end. |
| HexDigits.HexRoundTrip | clase-5/empleados/backend/app/controllers/user_controller.py:65 | An id that fits reads back from its hex text. |
| HexDigits.HexInjective | clase-5/empleados/backend/app/controllers/user_controller.py:65 | Ids that fit are told apart by their hex text. |
| HexDigits.Hex | clase-5/empleados/backend/app/controllers/user_controller.py:65 | `str(ObjectId)` is exactly `width` hexadecimal digits. |
| UserControllerMongo.GetUsers | clase-5/usuarios/backend/src/controllers/mongodb/user.controller.ts:44-91 | A search term that does not compile gives 500 before the store is asked anything. Otherwise the store is asked for the search filter, skip `(pageNum − 1)·pageSizeNum` and limit. 200 exactly when the term compiles and both store calls succeed, else 500 with `status: false`. |
| UserControllerMongo.DefaultsApply | clase-5/usuarios/backend/src/controllers/mongodb/user.controller.ts:46-50 | Missing `page` and `pageSize` read as 1 and 10, so skip is 0. |
| UserControllerMongo.DecimalPagesRead | clase-5/usuarios/backend/src/controllers/mongodb/user.controller.ts:47-50 | Decimal page texts are read as written, and skip = (page − 1)·size. |
| UserControllerMongo.ListingPagination | clase-5/usuarios/backend/src/controllers/mongodb/user.controller.ts:75-80 | The block echoes page, pageSize and total. `totalPages` is the ceiling for a positive size, and null otherwise. |
| JsNumbers.ParseIntDecimal | clase-5/usuarios/backend/src/controllers/mongodb/user.controller.ts:47-48 | `parseInt` reads back the decimal text of any natural number. |
| JsNumbers.ParseIntIgnoresTrailing | clase-5/usuarios/backend/src/controllers/mongodb/user.controller.ts:47-48 | Characters after the digits are ignored. |
| JsNumbers.ParseIntLeadingDigits | clase-5/usuarios/backend/src/controllers/mongodb/user.controller.ts:47-48 | Text starting with a digit (not `0x`) reads as its leading run of digits. |
| JsNumbers.CeilQuotientIsCeilDiv | clase-5/usuarios/backend/src/controllers/mongodb/user.controller.ts:79 | For a positive size, `Math.ceil(total / size)` equals the Python endpoint's `(total + size − 1) // size`. |
| JsValues.Or | clase-5/usuarios/frontend/src/router/index.js:40 | `a \|\| b` is a when a is truthy, and b otherwise. |
| JsValues.SpreadGet | clase-3/usuarios/src/utils/request.utils.js:53 | In `{...a, ...b}` a key of b reads b's value and any other key reads a's. The keys are those of both. |
| JsValues.SpreadDistinct | clase-3/usuarios/src/utils/request.utils.js:53 | Spreading keeps keys distinct. |
| JsValues.PutGet | clase-3/usuarios/src/utils/request.utils.js:49 | After `o[key] = v`, key reads v and every other key reads as before. |
| JsValues.Put | clase-3/usuarios/src/utils/request.utils.js:49 | Assigning an existing key keeps the object's size; a new key is appended last. |
| JsValues.PutDistinct | clase-3/usuarios/src/utils/request.utils.js:49 | Assignment keeps keys distinct. |
| JsValues.Get | clase-5/usuarios/frontend/src/router/index.js:40 | An absent key reads `undefined`; a present one reads its stored value. |
| Text.Split | clase-5/usuarios/backend/src/middleware/auth.middleware.ts:17 | `split(' ')` gives at least one piece, none containing the separator, and two or more exactly when a separator occurs. |
| Text.JoinSplit | clase-5/usuarios/backend/src/middleware/auth.middleware.ts:17 | Joining the pieces gives back the string. |
| Text.SplitJoin | clase-5/usuarios/backend/src/middleware/auth.middleware.ts:17 | Separator-free pieces are recovered by splitting their join. |
| QueryString.Escape | clase-3/usuarios/src/utils/request.utils.js:9 | The escaped text is made of unreserved characters and `%`, and is at least as long as the input. |
| QueryString.EscapeUnreserved | clase-3/usuarios/src/utils/request.utils.js:9 | Unreserved text is not changed by escaping. |
| QueryString.EscapeReserved | clase-3/usuarios/src/utils/request.utils.js:9 | A reserved character becomes 3 to 12 characters starting with `%`. |
| QueryString.Fields | clase-3/usuarios/src/utils/request.utils.js:9 | One non-empty `key=value` field per property (per element for arrays), none containing `&`. |
| QueryString.StringifyEmpty | clase-3/usuarios/src/utils/request.utils.js:9-10 | The query string is empty exactly when there are no fields. |
| QueryString.StringifyScalars | clase-3/usuarios/src/utils/request.utils.js:9-10 | Without array values, the string is empty exactly when the object is. |
| QueryString.StringifySplits | clase-3/usuarios/src/utils/request.utils.js:9 | Splitting a non-empty query string on `&` gives back its fields. |
| RequestUtils.AuthToken | clase-3/usuarios/src/utils/request.utils.js:56-63 | The stored token, or null when storage access throws. |
| RequestUtils.Request.constructor | clase-3/usuarios/src/utils/request.utils.js:4-6 | `baseURL` is `VITE_BASE_URL`. |
| RequestUtils.Request.Get | clase-3/usuarios/src/utils/request.utils.js:8-13 | The URL is `baseURL + path`, followed by `?` and the query string exactly when there are fields. There is no body. |
| RequestUtils.GetUrl | clase-3/usuarios/src/utils/request.utils.js:9-10 | The `?query` is appended exactly when the parameters give a field. |
| RequestUtils.Request.Post | clase-3/usuarios/src/utils/request.utils.js:15-17 | Method `POST` to `baseURL + path`, with the data as body exactly when it is truthy. |
| RequestUtils.Request.Put | clase-3/usuarios/src/utils/request.utils.js:19-21 | Method `PUT`, likewise. |
| RequestUtils.Request.Delete | clase-3/usuarios/src/utils/request.utils.js:23-25 | Method `DELETE`, likewise. |
| RequestUtils.Request.MakeRequest | clase-3/usuarios/src/utils/request.utils.js:27-38 | A body exactly when the data is truthy and the method is not GET. It is the data itself. The headers are the merge. |
| RequestUtils.Request.BuildHeaders | clase-3/usuarios/src/utils/request.utils.js:40-54 | Key by key, custom headers win. Otherwise `Accept` and `Content-Type` are JSON, `Authorization` is `Bearer <token>` exactly when a token is stored, and there is nothing else. |
| RequestUtils.DefaultsRead | clase-3/usuarios/src/utils/request.utils.js:41-50 | The defaults after the optional `Authorization` assignment, name by name. |
| RequestUtils.DefaultsGet | clase-3/usuarios/src/utils/request.utils.js:41-44 | The defaults hold JSON `Accept` and `Content-Type`, and nothing else. |
| RequestUtils.Request.Send | clase-3/usuarios/src/utils/request.utils.js:65-68 | `fetch` is called on `baseURL + path` with the options unchanged. |
| AuthMiddleware.BearerToken | clase-5/usuarios/backend/src/middleware/auth.middleware.ts:17 | The second space-separated piece exists exactly when the header has a space, and it contains no space. |
| AuthMiddleware.BearerTokenAfterScheme | clase-5/usuarios/backend/src/middleware/auth.middleware.ts:17 | The token is what follows the first space, up to the next one. |
| AuthMiddleware.BearerTokenOf | clase-5/usuarios/backend/src/middleware/auth.middleware.ts:17 | `Bearer <token>` yields the token. |
| AuthMiddleware.SecretKey | clase-5/usuarios/backend/src/middleware/auth.middleware.ts:26 | `JWT_SECRET \|\| ''`. |
| AuthMiddleware.Authenticate | clase-5/usuarios/backend/src/middleware/auth.middleware.ts:8-34 | A missing or empty header is rejected. Acceptance means a non-empty token that the verifier accepted, with its payload. A rejection carries one of the three messages. Any header with a non-empty second piece is decided by the verifier alone: accepted with its payload, or refused. |
| AuthMiddleware.SchemeIgnored | clase-5/usuarios/backend/src/middleware/auth.middleware.ts:17 | The scheme word is never checked: a token after any scheme is treated as after `Bearer`. |
| AuthMiddleware.NoTokenIsBadFormat | clase-5/usuarios/backend/src/middleware/auth.middleware.ts:19-23 | A header with no token after the scheme gives "Formato de token inválido". |
| AuthMiddleware.BearerVerified | clase-5/usuarios/backend/src/middleware/auth.middleware.ts:25-33 | `Bearer <token>` is let through exactly when the verifier accepts it, with its payload. Otherwise "Token inválido o expirado". |
| AuthMiddleware.Exchange.Respond | clase-5/usuarios/backend/src/middleware/auth.middleware.ts:12-14 | One response is added, and nothing else changes. |
| AuthMiddleware.Exchange.Next | clase-5/usuarios/backend/src/middleware/auth.middleware.ts:28 | `next` is called once more, and nothing else changes. |
| AuthMiddleware.Exchange.constructor | clase-5/usuarios/backend/src/middleware/auth.middleware.ts:8 | A request arrives with no user, no response and no `next` call. |
| AuthMiddleware.Middleware | clase-5/usuarios/backend/src/middleware/auth.middleware.ts:8-34 | A rejection answers 401 with its message, and neither `next` nor `req.user` changes. Acceptance sets `req.user` to the payload and calls `next`. Exactly one of the two happens. |
| Router.Resolve | clase-5/usuarios/frontend/src/router/index.js:5-36 | The meta of a route with the path, or an empty meta when no route matches. |
| Router.Title | clase-5/usuarios/frontend/src/router/index.js:40 | `meta.title`, or `Mi Aplicación` when that is absent or empty. |
| Router.Guard | clase-5/usuarios/frontend/src/router/index.js:41-48 | Redirect to `/login` exactly when the route requires auth and no token is stored. |
| Router.BeforeEach | clase-5/usuarios/frontend/src/router/index.js:39-49 | The title is set, and exactly the one `next` call of `Guard` is made. |
| Router.LoginNeverRedirected | clase-5/usuarios/frontend/src/router/index.js:32 | `/login` is never redirected, token or not. |
| Router.RedirectLandsOnOpenPage | clase-5/usuarios/frontend/src/router/index.js:44-46 | A redirect always lands on a page the guard lets through. |
| Router.ProtectedRoutes | clase-5/usuarios/frontend/src/router/index.js:14-20 | `/` and `/users` let a visitor through exactly when a token is stored. |
| Router.UnknownPathOpen | clase-5/usuarios/frontend/src/router/index.js:39-48 | An unmatched path is let through under the default title. |
| Router.Document.constructor | clase-5/usuarios/frontend/src/router/index.js:40 | The document starts with the given title. |
| Encapsulamiento.Galleta.constructor | clase-1/encapsulamiento.py:3-4 | The value is stored without any check. |
| Encapsulamiento.Galleta.ObtenerValor | clase-1/encapsulamiento.py:6-7 | Returns the stored value and changes nothing. |
| Encapsulamiento.Galleta.CambiarValor | clase-1/encapsulamiento.py:9-14 | The value changes exactly when the new one is strictly above 20. Otherwise it stays and the refusal is printed. |
| Encapsulamiento.Demo | clase-1/encapsulamiento.py:16-22 | `Galleta(10)` reads 10, and after `cambiar_valor(25)` it reads 25. |
| Encapsulamiento.ValueAfterAboveThreshold | clase-1/encapsulamiento.py:9-14 | After any changes the value is either the initial one or above 20, and above 20 once any change was accepted. |

## Left out

- **Faker, `random`, `random.random()`, `random.choices` and `datetime.now()`.** They are oracles: each loop receives the values they would produce as a parameter. The probabilities (85/10/5 weights, 30 % managers, and so on) are not modelled.
- **The timestamp fallback of both generators** is added to the ledger unchecked. So uniqueness is proved only for values produced on the loop path (`UniqueValues.RunLoopPathFresh`), and `UniqueValues.FallbackMayRepeat` exhibits a repeat.
- **Floating-point money** in the sales script is not modelled: salaries, prices, taxes, discounts, totals and the payment-splitting loop.
- **The 0.7 factor** in `max_employees` is read as floor(7·n/10). The float product can differ from that by rounding for some n.
- **The teacher and course loops of the Mongo script** (`faker_mongodb.py:70-129`) are not modelled beyond their shared email generator. The same goes for the sales tables other than users, employees, customers, purchase orders, returns and the accounts-receivable status rule: countries, regions, cities, suppliers, products, inventory, sales, details and payments.
- **The database drivers** (connections, cursors, rollback, indexes, `count_documents`) are the `Table` class. A store exception outside the modelled phases is not modelled, and neither is the `try`/`except` printing.
- **`hash_password` and JWT signing/verification** are foreign calls. Verification is a parameter `verify(token, key)` returning the payload or an error.
- **Regular-expression matching** of the search filter runs in the database. It is a parameter `matches(pattern, text)`, so only the filter's shape is modelled. Compiling the term (`re.compile`, `new RegExp`) is a parameter too: the error it raises, if any.
- **The SQL fragments are tokens, not text.** A column name is a `Column` token, and the driver's own count of `?` (`DriverMarks`) includes those inside column names.
- **`fetch`, `response.json()`/`text()` and the HTTP error check** of `_request` are not modelled. `Send` returns the call it would make.
- **`JSON.stringify(data)`:** the body is kept as the value to be stringified.
- **`useAsync` and `handleSubmit`** (asynchronous) are not modelled, and neither are Vue's reactivity and watchers.
- **`Math.ceil`** is only modelled on a quotient of integer counts.
- **`querystring.stringify`:** nested objects and non-integer numbers are written as the empty string. Lone surrogates are not special-cased.
- **vue-router's matching** is modelled as exact path equality. Case-insensitive and trailing-slash matching, nested layouts and lazy component loading are not modelled.
- **Custom headers must have distinct keys** (`DistinctKeys`). A JavaScript object literal cannot have duplicate keys.
- **In the auth middleware, an exception thrown by `next()` itself** would be caught and answered 401. The model treats `next()` as not throwing.
- **Response bodies** keep the fields the contracts speak about.
- **The fallback's `user_name` and `domain_name`** are taken as given text.
- **`Composables.Pagination.GoToPage`** takes `page` as an integer. Non-integer pages (floats, strings) are not modelled.
- **`UserControllerPy.GetUsers`** requires the parameters the `PaginationParams` schema admits (`page >= 1`, `1 <= page_size <= 100`). Other values cannot reach the controller.
- `EmpleadoController.NumberOf`: `Number` is modelled only on the texts that denote integers. Fractions (`"1.5"`, also `"1.0"` and `"1."`), exponents (`"1e3"`), `"Infinity"` and the `0o`/`0b` prefixes are read as NaN, though JavaScript reads them as numbers.
- `FakerVentas.InsertCustomers`: the assigned employee (`random.choice(employees_data)`, `faker_ventas.py:270`) and the city are not modelled. With no employees that choice raises `IndexError` and the phase stops, but the model still inserts every customer.
- `FakerVentas.InsertPurchaseOrders`: the supplier and the employee (`faker_ventas.py:491-492`) are not modelled. With no active supplier or no active employee, `random.choice` raises on the first pass, but the model still inserts every order.
- `FakerVentas.InsertReturns`: the authorizing employee (`faker_ventas.py:772`) is not modelled. With no active employee, `random.choice` raises on the first pass, but the model still inserts every return.
- `Composables.Pagination.constructor` and `Composables.Pagination.SetPerPage` take a positive whole page size. In the source a page size of 0 makes `totalPages` Infinity or NaN, and a non-integer size gives fractional slice bounds.
- `Composables.ValidateField`: a rule that is `null`, or an object whose `validator` is not a function, makes the source throw a `TypeError`. The model has no such rule.
