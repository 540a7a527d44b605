/**
 * The sales-system populator: users with unique (then truncated) emails, employees drawn from
 * the active users with unique codes, managers other than the employee, customers from the
 * users no employee took, purchase orders in committed batches, returns that never reuse a
 * sale, and the overdue rule of the receivables.
 */
module FakerVentas {
  import opened Wrappers
  import opened Digits
  import opened Batching
  import opened UniqueValues
  import opened Store
  import opened Populate
  import opened Choice

  const NumEmployees: nat := 20000
  const NumCustomers: nat := 5000
  const NumReturns: nat := 1000
  /** `batch_size` of the purchase-order phase. */
  const OrderBatchSize: nat := 10000
  /** The width of the `email` column. */
  const EmailWidth: nat := 150

  /** Python's `s[:n]`: the first n characters, or all of s when it is shorter. */
  function Column(s: string, n: nat): (r: string)
    ensures |r| <= n && |r| <= |s| && r == s[..|r|]
    ensures |s| <= n ==> r == s
    ensures |s| > n ==> |r| == n
  {
    if |s| <= n then s else s[..n]
  }

  /**
   * The email written to the users table: an email longer than the column becomes its first
   * 147 characters followed by "...", exactly filling the column; a shorter one is kept.
   */
  function TruncateEmail(email: string): (r: string)
    ensures |r| <= EmailWidth
    ensures |email| <= EmailWidth ==> r == email
    ensures |email| > EmailWidth ==> |r| == EmailWidth && r[..147] == email[..147] && r[147..] == "..."
  {
    if |email| > 150 then email[..147] + "..." else email
  }

  /** Truncating a stored email again changes nothing. */
  lemma TruncateIdempotent(email: string)
    ensures TruncateEmail(TruncateEmail(email)) == TruncateEmail(email)
  {
  }

  /**
   * The ledger holds the email before truncation, so two different emails it handed out can
   * be stored as the same string.
   */
  lemma TruncationCollides()
    ensures exists a: string, b: string :: a != b && TruncateEmail(a) == TruncateEmail(b)
  {
    var a := Repeat('a', 151);
    var b := Repeat('a', 152);
    assert |a| != |b|;
    assert a[..147] == b[..147];
    assert TruncateEmail(a) == TruncateEmail(b);
  }

  datatype UserStatus = Active | Inactive | Suspended

  /** What Faker and `random.choices` supply for one user. */
  datatype UserDraw = UserDraw(email: EmailSource, firstName: string, lastName: string, phone: string, status: UserStatus)

  /** A users row as written; the constant password hash and the birth date are not modelled. */
  datatype UserRow = UserRow(email: string, firstName: string, lastName: string, phone: string, status: UserStatus)

  type User = Entry<UserRow>

  /** The row written for a draw once the ledger handed out `email`: every text fits its column. */
  function UserRowOf(d: UserDraw, email: string): (r: UserRow)
    ensures |r.email| <= EmailWidth && |r.firstName| <= 100 && |r.lastName| <= 100 && |r.phone| <= 20
    ensures r.email == TruncateEmail(email) && r.status == d.status
  {
    UserRow(TruncateEmail(email), Column(d.firstName, 100), Column(d.lastName, 100), Column(d.phone, 20), d.status)
  }

  function UserEmailCalls(draws: seq<UserDraw>): (cs: seq<Candidates>)
    ensures |cs| == |draws| && forall k :: 0 <= k < |draws| ==> cs[k] == EmailCandidatesOf(draws[k].email)
  {
    if draws == [] then [] else [EmailCandidatesOf(draws[0].email)] + UserEmailCalls(draws[1..])
  }

  /** The users list after the passes that were handed `emails`: user k pairs the k-th fresh id with the row of draw k and email k. */
  function UserEntries(draws: seq<UserDraw>, emails: seq<string>, base: nat): (r: seq<User>)
    requires |emails| <= |draws|
    ensures |r| == |emails|
  {
    if emails == [] then []
    else
      var n := |emails| - 1;
      UserEntries(draws, emails[..n], base) + [Entry(base + n + 1, UserRowOf(draws[n], emails[n]))]
  }

  /** User k of the list, read off. */
  lemma {:induction false} UserEntriesAt(draws: seq<UserDraw>, emails: seq<string>, base: nat, k: nat)
    requires |emails| <= |draws| && k < |emails|
    ensures UserEntries(draws, emails, base)[k] == Entry(base + k + 1, UserRowOf(draws[k], emails[k]))
  {
    var n := |emails| - 1;
    if k < n {
      UserEntriesAt(draws, emails[..n], base, k);
    }
  }

  /** One more pass appends the user built from the next draw and the email it was handed. */
  lemma UserEntriesSnoc(draws: seq<UserDraw>, emails: seq<string>, base: nat, email: string, e: User)
    requires |emails| < |draws| && e == Entry(base + |emails| + 1, UserRowOf(draws[|emails|], email))
    ensures UserEntries(draws, emails + [email], base) == UserEntries(draws, emails, base) + [e]
  {
    var s := emails + [email];
    assert s[..|emails|] == emails && s[|emails|] == email;
  }

  /** One pass of the user loop: email from the ledger, truncation, insert, entry appended. */
  method InsertUser(ledger: Ledger, table: Table<UserRow>, users: seq<User>, d: UserDraw,
                    ghost draws: seq<UserDraw>, ghost used0: set<string>, ghost emails: seq<string>,
                    ghost rows0: seq<UserRow>, ghost calls0: seq<nat>)
    returns (users': seq<User>, ghost emails': seq<string>)
    requires |emails| < |draws| && draws[|emails|] == d
    requires Handout(UserEmailCalls(draws), used0, |emails|) == Handed(ledger.used, emails)
    requires users == UserEntries(draws, emails, |rows0|)
    requires table.rows == rows0 + Rows(users) && table.calls == calls0 + Ones(|emails|)
    modifies ledger, table
    ensures |emails'| == |emails| + 1
    ensures Handout(UserEmailCalls(draws), used0, |emails'|) == Handed(ledger.used, emails')
    ensures users' == UserEntries(draws, emails', |rows0|)
    ensures table.rows == rows0 + Rows(users')
    ensures table.calls == calls0 + Ones(|emails'|)
    ensures table.commits == old(table.commits)
  {
    ghost var used := ledger.used;
    var handedEmail := ledger.GenerateUniqueEmail(d.email.draws, d.email.userName, d.email.timestamp, d.email.domain);
    var email := handedEmail;
    if |email| > 150 {
      email := email[..147] + "...";
    }
    var row := UserRow(email, Column(d.firstName, 100), Column(d.lastName, 100), Column(d.phone, 20), d.status);
    var id := table.Insert(row);
    users' := users + [Entry(id, row)];
    emails' := emails + [handedEmail];
    HandoutStep(UserEmailCalls(draws), used0, |emails|, used, emails, handedEmail);
    UserEntriesSnoc(draws, emails, |rows0|, handedEmail, Entry(id, row));
    OnesSnoc(calls0, |emails|);
    RowsGrow(rows0, users, Entry(id, row));
  }

  /**
   * The user loop: one insert per draw, then one commit. The ledger ends as its run over the
   * email calls leaves it and the users are the entries of that run.
   */
  method InsertUsers(ledger: Ledger, table: Table<UserRow>, draws: seq<UserDraw>) returns (users: seq<User>)
    modifies ledger, table
    ensures ledger.used == LedgerAfter(UserEmailCalls(draws), old(ledger.used))
    ensures users == UserEntries(draws, Run(UserEmailCalls(draws), old(ledger.used)), |old(table.rows)|)
    ensures table.rows == old(table.rows) + Rows(users)
    ensures table.calls == old(table.calls) + Ones(|draws|)
    ensures table.commits == old(table.commits) + [|table.rows|]
  {
    ghost var used0 := ledger.used;
    ghost var rows0 := table.rows;
    ghost var calls0 := table.calls;
    ghost var commits0 := table.commits;
    ghost var emails: seq<string> := [];
    users := [];
    var i := 0;
    while i < |draws|
      invariant i <= |draws| && |emails| == i
      invariant Handout(UserEmailCalls(draws), used0, i) == Handed(ledger.used, emails)
      invariant users == UserEntries(draws, emails, |rows0|)
      invariant table.rows == rows0 + Rows(users)
      invariant table.calls == calls0 + Ones(i)
      invariant table.commits == commits0
    {
      users, emails := InsertUser(ledger, table, users, draws[i], draws, used0, emails, rows0, calls0);
      i := i + 1;
    }
    HandoutAll(UserEmailCalls(draws), used0);
    table.Commit();
  }

  /**
   * The users the loop leaves: user k holds the k-th fresh id and the row built from draw k and
   * the k-th email of the ledger's run, truncated to the column; the ledger keeps the
   * untruncated emails.
   */
  lemma UsersDone(draws: seq<UserDraw>, used0: set<string>, base: nat, k: nat)
    requires k < |draws|
    ensures UserEntries(draws, Run(UserEmailCalls(draws), used0), base)[k]
      == Entry(base + k + 1, UserRowOf(draws[k], Run(UserEmailCalls(draws), used0)[k]))
  {
    HandoutAll(UserEmailCalls(draws), used0);
    UserEntriesAt(draws, Run(UserEmailCalls(draws), used0), base, k);
  }

  /** No two entries share an id. */
  predicate DistinctIds<R>(s: seq<Entry<R>>) {
    forall i, j :: 0 <= i < j < |s| ==> s[i].id != s[j].id
  }

  /** The entries the insert loops return carry distinct ids. */
  lemma FreshIdsDistinct<R>(s: seq<Entry<R>>, base: nat)
    requires forall k :: 0 <= k < |s| ==> s[k].id == base + k + 1
    ensures DistinctIds(s)
  {
  }

  /** `[u for u in users_data if u['status'] == 'active']`. */
  function ActiveUsers(users: seq<User>): (r: seq<User>)
    ensures |r| <= |users|
    ensures forall u :: u in r <==> u in users && u.row.status == Active
  {
    if users == [] then []
    else if users[0].row.status == Active then [users[0]] + ActiveUsers(users[1..])
    else ActiveUsers(users[1..])
  }

  /** Keeping the active users keeps the ids distinct. */
  lemma {:induction false} ActiveUsersDistinct(users: seq<User>)
    requires DistinctIds(users)
    ensures DistinctIds(ActiveUsers(users))
  {
    if users != [] {
      var rest := ActiveUsers(users[1..]);
      ActiveUsersDistinct(users[1..]);
      if users[0].row.status == Active {
        var r := [users[0]] + rest;
        forall i, j | 0 <= i < j < |r|
          ensures r[i].id != r[j].id
        {
          if i == 0 {
            assert r[j] == rest[j - 1] && r[j] in users[1..];
          } else {
            assert r[i] == rest[i - 1] && r[j] == rest[j - 1];
          }
        }
      }
    }
  }

  /**
   * `min(NUM_EMPLOYEES, int(len(available_users) * 0.7))`, with the float product read as
   * floor(7n / 10). The count never exceeds the available users, so `available_users[i]` is
   * always in range, and never exceeds NUM_EMPLOYEES.
   */
  function MaxEmployees(available: nat): (r: nat)
    ensures r <= available && r <= NumEmployees
    ensures 10 * r <= 7 * available
    ensures r == NumEmployees || 10 * (r + 1) > 7 * available
  {
    Min(NumEmployees, available * 7 / 10)
  }

  datatype EmployeeStatus = Working | Off | OnLeave

  /**
   * The random choices of one employee pass: the code draws and timestamp, the position
   * `random.choice(positions)` picked, and the status.
   */
  datatype EmployeeDraw = EmployeeDraw(code: CodeDraws, timestamp: nat, position: string, status: EmployeeStatus)

  /** An employee row; `manager` is the `manager_id` column, unset when the row is inserted. */
  datatype EmployeeRow = EmployeeRow(userId: nat, code: string, position: string, status: EmployeeStatus, manager: Option<nat>)

  type Employee = Entry<EmployeeRow>

  /** The employee code is `generate_unique_code("EMP", used_codes, 6)[:20]`, on the pass's user. */
  function EmployeeRowOf(user: User, d: EmployeeDraw, code: string): (r: EmployeeRow)
    ensures r.userId == user.id && r.code == Column(code, 20) && |r.code| <= 20 && r.manager.None?
  {
    EmployeeRow(user.id, Column(code, 20), Column(d.position, 100), d.status, None)
  }

  /** The generator calls of the first n passes of the employee loop, one "EMP" call per pass. */
  function EmployeeCodeCalls(draws: seq<EmployeeDraw>, n: nat): (cs: seq<Candidates>)
    requires n <= |draws|
    ensures |cs| == n
    ensures forall k :: 0 <= k < n ==> cs[k] == CodeCandidates("EMP", draws[k].code, draws[k].timestamp)
  {
    if n == 0 then [] else EmployeeCodeCalls(draws, n - 1) + [CodeCandidates("EMP", draws[n - 1].code, draws[n - 1].timestamp)]
  }

  /**
   * On the loop path an employee code is "EMP" and six digits, nine characters, so the
   * `[:20]` cut leaves it whole.
   */
  lemma EmployeeCodeFits(d: EmployeeDraw, used: set<string>)
    requires forall i :: 0 <= i < |d.code| ==> InCodeRange(6, d.code[i])
    requires TakesLoopPath(CodeCandidates("EMP", d.code, d.timestamp), used)
    ensures var code := Pick(CodeCandidates("EMP", d.code, d.timestamp), used);
      |code| == 9 && Column(code, 20) == code
  {
    LoopCodeShape("EMP", 6, d.code, d.timestamp, used);
  }

  /**
   * The employees list after the passes that were handed `codes`: employee k pairs the k-th
   * fresh id with the row built on available user k, draw k and code k.
   */
  function EmployeeEntries(available: seq<User>, draws: seq<EmployeeDraw>, codes: seq<string>, base: nat): (r: seq<Employee>)
    requires |codes| <= |available| && |codes| <= |draws|
    ensures |r| == |codes|
  {
    if codes == [] then []
    else
      var n := |codes| - 1;
      EmployeeEntries(available, draws, codes[..n], base) + [Entry(base + n + 1, EmployeeRowOf(available[n], draws[n], codes[n]))]
  }

  /** Employee k of the list, read off. */
  lemma {:induction false} EmployeeEntriesAt(available: seq<User>, draws: seq<EmployeeDraw>, codes: seq<string>, base: nat, k: nat)
    requires |codes| <= |available| && |codes| <= |draws| && k < |codes|
    ensures EmployeeEntries(available, draws, codes, base)[k]
      == Entry(base + k + 1, EmployeeRowOf(available[k], draws[k], codes[k]))
  {
    var n := |codes| - 1;
    if k < n {
      EmployeeEntriesAt(available, draws, codes[..n], base, k);
    }
  }

  /** One more pass appends the employee built on the next user and draw with the code it was handed. */
  lemma EmployeeEntriesSnoc(available: seq<User>, draws: seq<EmployeeDraw>, codes: seq<string>, base: nat, code: string, e: Employee)
    requires |codes| < |available| && |codes| < |draws|
    requires e == Entry(base + |codes| + 1, EmployeeRowOf(available[|codes|], draws[|codes|], code))
    ensures EmployeeEntries(available, draws, codes + [code], base) == EmployeeEntries(available, draws, codes, base) + [e]
  {
    var s := codes + [code];
    assert s[..|codes|] == codes && s[|codes|] == code;
  }

  /** One pass of the employee loop: code from the ledger, insert, entry appended. */
  method InsertEmployee(ledger: Ledger, table: Table<EmployeeRow>, employees: seq<Employee>, user: User, d: EmployeeDraw,
                        ghost available: seq<User>, ghost draws: seq<EmployeeDraw>, ghost cs: seq<Candidates>,
                        ghost used0: set<string>, ghost codes: seq<string>,
                        ghost rows0: seq<EmployeeRow>, ghost calls0: seq<nat>)
    returns (employees': seq<Employee>, ghost codes': seq<string>)
    requires |codes| < |available| && |codes| < |draws| && |codes| < |cs|
    requires available[|codes|] == user && draws[|codes|] == d && cs[|codes|] == CodeCandidates("EMP", d.code, d.timestamp)
    requires Handout(cs, used0, |codes|) == Handed(ledger.used, codes)
    requires employees == EmployeeEntries(available, draws, codes, |rows0|)
    requires table.rows == rows0 + Rows(employees) && table.calls == calls0 + Ones(|codes|)
    modifies ledger, table
    ensures |codes'| == |codes| + 1
    ensures Handout(cs, used0, |codes'|) == Handed(ledger.used, codes')
    ensures employees' == EmployeeEntries(available, draws, codes', |rows0|)
    ensures table.rows == rows0 + Rows(employees')
    ensures table.calls == calls0 + Ones(|codes'|)
    ensures table.commits == old(table.commits)
  {
    ghost var used := ledger.used;
    var employeeCode := ledger.GenerateUniqueCode("EMP", d.code, d.timestamp);
    var row := EmployeeRowOf(user, d, employeeCode);
    var id := table.Insert(row);
    employees' := employees + [Entry(id, row)];
    codes' := codes + [employeeCode];
    HandoutStep(cs, used0, |codes|, used, codes, employeeCode);
    EmployeeEntriesSnoc(available, draws, codes, |rows0|, employeeCode, Entry(id, row));
    OnesSnoc(calls0, |codes|);
    RowsGrow(rows0, employees, Entry(id, row));
  }

  /**
   * The employee loop over `range(max_employees)`, one insert per pass: the code ledger ends
   * as its run over the "EMP" calls leaves it, and the employees are the entries of that run
   * on the available users. The draws cover every pass the loop can make.
   */
  method InsertEmployees(ledger: Ledger, table: Table<EmployeeRow>, available: seq<User>, draws: seq<EmployeeDraw>)
    returns (employees: seq<Employee>)
    requires |draws| >= NumEmployees
    modifies ledger, table
    ensures var cs := EmployeeCodeCalls(draws, MaxEmployees(|available|));
      && ledger.used == LedgerAfter(cs, old(ledger.used))
      && employees == EmployeeEntries(available, draws, Run(cs, old(ledger.used)), |old(table.rows)|)
    ensures table.rows == old(table.rows) + Rows(employees)
    ensures table.calls == old(table.calls) + Ones(|employees|) && table.commits == old(table.commits)
  {
    var maxEmployees := MaxEmployees(|available|);
    ghost var cs := EmployeeCodeCalls(draws, maxEmployees);
    ghost var codes;
    employees, codes := EmployeePasses(ledger, table, available, draws, maxEmployees, cs);
    HandoutAll(cs, old(ledger.used));
  }

  /** The first n passes of the employee loop, handed the values of the first n "EMP" calls. */
  method EmployeePasses(ledger: Ledger, table: Table<EmployeeRow>, available: seq<User>, draws: seq<EmployeeDraw>,
                        n: nat, ghost cs: seq<Candidates>)
    returns (employees: seq<Employee>, ghost codes: seq<string>)
    requires n <= |available| && n <= |draws| && cs == EmployeeCodeCalls(draws, n)
    modifies ledger, table
    ensures |codes| == n
    ensures Handout(cs, old(ledger.used), n) == Handed(ledger.used, codes)
    ensures employees == EmployeeEntries(available, draws, codes, |old(table.rows)|)
    ensures table.rows == old(table.rows) + Rows(employees)
    ensures table.calls == old(table.calls) + Ones(n) && table.commits == old(table.commits)
  {
    ghost var used0 := ledger.used;
    ghost var rows0 := table.rows;
    ghost var calls0 := table.calls;
    codes := [];
    employees := [];
    var i := 0;
    while i < n
      invariant i <= n && |codes| == i
      invariant Handout(cs, used0, i) == Handed(ledger.used, codes)
      invariant employees == EmployeeEntries(available, draws, codes, |rows0|)
      invariant table.rows == rows0 + Rows(employees)
      invariant table.calls == calls0 + Ones(i)
      invariant table.commits == old(table.commits)
    {
      employees, codes := InsertEmployee(ledger, table, employees, available[i], draws[i], available, draws, cs, used0, codes, rows0, calls0);
      i := i + 1;
    }
  }

  /**
   * The employees the loop leaves: `min(NUM_EMPLOYEES, int(len(available_users) * 0.7))` of
   * them, employee k built on the k-th available user, so the employees are a prefix of the
   * available users in order, with the k-th code of the ledger's run cut to 20 characters.
   */
  lemma EmployeesDone(available: seq<User>, draws: seq<EmployeeDraw>, used0: set<string>, base: nat, k: nat)
    requires |draws| >= NumEmployees
    ensures var cs := EmployeeCodeCalls(draws, MaxEmployees(|available|));
      |EmployeeEntries(available, draws, Run(cs, used0), base)| == MaxEmployees(|available|)
    ensures var cs := EmployeeCodeCalls(draws, MaxEmployees(|available|));
      k < MaxEmployees(|available|) ==>
        && EmployeeEntries(available, draws, Run(cs, used0), base)[k]
             == Entry(base + k + 1, EmployeeRowOf(available[k], draws[k], Run(cs, used0)[k]))
        && EmployeeEntries(available, draws, Run(cs, used0), base)[k].row.userId == available[k].id
  {
    var cs := EmployeeCodeCalls(draws, MaxEmployees(|available|));
    HandoutAll(cs, used0);
    if k < MaxEmployees(|available|) {
      EmployeeEntriesAt(available, draws, Run(cs, used0), base, k);
    }
  }

  /** The choices of one pass of the manager loop: whether `random.random() < 0.3`, and the `random.choice` index. */
  datatype ManagerDraw = ManagerDraw(assign: bool, pick: nat)

  /** `UPDATE employees SET manager_id = manager WHERE id = employee`. */
  datatype ManagerUpdate = ManagerUpdate(manager: nat, employee: nat)

  /** `[e for e in employees_data if e['id'] != id]`. */
  function Others(employees: seq<Employee>, id: nat): (r: seq<Employee>)
    ensures |r| <= |employees|
    ensures forall e :: e in r <==> e in employees && e.id != id
  {
    if employees == [] then []
    else if employees[0].id != id then [employees[0]] + Others(employees[1..], id)
    else Others(employees[1..], id)
  }

  /**
   * The updates the first n passes of the manager loop issue, or None when a pass had to
   * choose from an empty list, where `random.choice` raises and the phase is abandoned.
   */
  function ManagerPlan(employees: seq<Employee>, draws: seq<ManagerDraw>, n: nat): Option<seq<ManagerUpdate>>
    requires n <= |employees| && n <= |draws|
  {
    if n == 0 then Some([])
    else
      match ManagerPlan(employees, draws, n - 1)
      case None => None
      case Some(us) =>
        var e := employees[n - 1];
        if !draws[n - 1].assign then Some(us)
        else
          var others := Others(employees, e.id);
          if others == [] then None
          else Some(us + [ManagerUpdate(others[Index(draws[n - 1].pick, |others|)].id, e.id)])
  }

  /** The employee rows after `UPDATE employees SET manager_id = u.manager WHERE id = u.employee`. */
  function SetManager(rows: seq<EmployeeRow>, u: ManagerUpdate): seq<EmployeeRow> {
    if 1 <= u.employee <= |rows| then rows[u.employee - 1 := rows[u.employee - 1].(manager := Some(u.manager))] else rows
  }

  /** The employee rows after the updates, in order. */
  function Managed(rows: seq<EmployeeRow>, us: seq<ManagerUpdate>): (r: seq<EmployeeRow>)
    ensures |r| == |rows|
  {
    if us == [] then rows else SetManager(Managed(rows, us[..|us| - 1]), us[|us| - 1])
  }

  /**
   * The manager loop raised on pass n: the first n passes succeeded, pass n did not, and the
   * rows carry the updates of the first n passes.
   */
  predicate AbandonedAt(employees: seq<Employee>, draws: seq<ManagerDraw>, n: nat, rows0: seq<EmployeeRow>, rows: seq<EmployeeRow>)
    requires n < |employees| && n < |draws|
  {
    && ManagerPlan(employees, draws, n).Some?
    && ManagerPlan(employees, draws, n + 1).None?
    && rows == Managed(rows0, ManagerPlan(employees, draws, n).value)
  }

  /**
   * `for employee in employees_data`: with probability 0.3 the employee gets a manager chosen
   * among the employees with a different id, written to its row at once; after the loop the
   * employee phase commits. A pass that has to choose from an empty list raises: the updates
   * issued before it stay uncommitted.
   */
  method AssignManagers(table: Table<EmployeeRow>, employees: seq<Employee>, draws: seq<ManagerDraw>)
    returns (updates: Option<seq<ManagerUpdate>>)
    requires |draws| >= |employees|
    modifies table
    ensures updates == ManagerPlan(employees, draws, |employees|)
    ensures updates.Some? ==> table.rows == Managed(old(table.rows), updates.value)
    ensures updates.Some? ==> table.commits == old(table.commits) + [|table.rows|]
    ensures updates.None? ==> table.commits == old(table.commits)
    ensures updates.None? ==>
      exists n :: 0 <= n < |employees| && AbandonedAt(employees, draws, n, old(table.rows), table.rows)
    ensures table.calls == old(table.calls)
  {
    ghost var rows0 := table.rows;
    var planned: seq<ManagerUpdate> := [];
    var i := 0;
    while i < |employees|
      invariant i <= |employees|
      invariant ManagerPlan(employees, draws, i) == Some(planned)
      invariant table.rows == Managed(rows0, planned)
      invariant table.calls == old(table.calls) && table.commits == old(table.commits)
    {
      var next := ManagerPass(table, employees, draws, i, planned, rows0);
      if next.None? {
        assert AbandonedAt(employees, draws, i, rows0, table.rows);
        ManagerPlanStaysNone(employees, draws, i + 1, |employees|);
        return None;
      }
      planned := next.value;
      i := i + 1;
    }
    table.Commit();
    updates := Some(planned);
  }

  /** Pass i of the manager loop: the update it issues, written to the rows, or None where it raises. */
  method ManagerPass(table: Table<EmployeeRow>, employees: seq<Employee>, draws: seq<ManagerDraw>, i: nat,
                     planned: seq<ManagerUpdate>, ghost rows0: seq<EmployeeRow>)
    returns (next: Option<seq<ManagerUpdate>>)
    requires i < |employees| <= |draws|
    requires ManagerPlan(employees, draws, i) == Some(planned)
    requires table.rows == Managed(rows0, planned)
    modifies table
    ensures next == ManagerPlan(employees, draws, i + 1)
    ensures next.Some? ==> table.rows == Managed(rows0, next.value)
    ensures next.None? ==> table.rows == old(table.rows)
    ensures table.calls == old(table.calls) && table.commits == old(table.commits)
  {
    var employee := employees[i];
    if !draws[i].assign {
      return Some(planned);
    }
    var others := Others(employees, employee.id);
    if others == [] {
      return None;
    }
    var manager := others[Index(draws[i].pick, |others|)];
    var u := ManagerUpdate(manager.id, employee.id);
    table.Update(employee.id, (row: EmployeeRow) => row.(manager := Some(manager.id)));
    assert (planned + [u])[..|planned|] == planned;
    next := Some(planned + [u]);
  }

  /**
   * The updates touch only the `manager_id` column, and a row whose manager changed has the
   * manager of one of the updates naming it.
   */
  lemma {:induction false} ManagedOnlyManagers(rows: seq<EmployeeRow>, us: seq<ManagerUpdate>, k: nat)
    requires k < |rows|
    ensures Managed(rows, us)[k] == rows[k].(manager := Managed(rows, us)[k].manager)
    ensures Managed(rows, us)[k].manager != rows[k].manager ==>
      exists u :: u in us && u.employee == k + 1 && Managed(rows, us)[k].manager == Some(u.manager)
  {
    if us != [] {
      var init, u := us[..|us| - 1], us[|us| - 1];
      ManagedOnlyManagers(rows, init, k);
      if Managed(rows, us)[k].manager != Managed(rows, init)[k].manager {
        assert u in us && u.employee == k + 1;
      } else if Managed(rows, us)[k].manager != rows[k].manager {
        var v :| v in init && v.employee == k + 1 && Managed(rows, init)[k].manager == Some(v.manager);
        assert v in us;
      }
    }
  }

  /** Once a pass fails, the whole phase has failed. */
  lemma {:induction false} ManagerPlanStaysNone(employees: seq<Employee>, draws: seq<ManagerDraw>, m: nat, n: nat)
    requires m <= n <= |employees| && n <= |draws| && ManagerPlan(employees, draws, m).None?
    ensures ManagerPlan(employees, draws, n).None?
    decreases n - m
  {
    if m < n {
      ManagerPlanStaysNone(employees, draws, m + 1, n);
    }
  }

  /**
   * Every update names a manager other than the employee, and both are employees of the list.
   */
  lemma {:induction false} ManagerNeverSelf(employees: seq<Employee>, draws: seq<ManagerDraw>, n: nat)
    requires n <= |employees| && n <= |draws|
    ensures ManagerPlan(employees, draws, n).Some? ==>
      forall u :: u in ManagerPlan(employees, draws, n).value ==>
        && u.manager != u.employee
        && (exists e :: e in employees && e.id == u.manager)
        && (exists e :: e in employees && e.id == u.employee)
  {
    if n > 0 {
      ManagerNeverSelf(employees, draws, n - 1);
      var p := ManagerPlan(employees, draws, n - 1);
      if p.Some? && draws[n - 1].assign {
        var e := employees[n - 1];
        var others := Others(employees, e.id);
        if others != [] {
          var m := others[Index(draws[n - 1].pick, |others|)];
          assert m in others;
          assert forall u :: u in p.value + [ManagerUpdate(m.id, e.id)] ==> u in p.value || u == ManagerUpdate(m.id, e.id);
        }
      }
    }
  }

  /**
   * The phase fails exactly when some selected employee has no other employee to choose from.
   */
  lemma {:induction false} ManagerPlanFails(employees: seq<Employee>, draws: seq<ManagerDraw>, n: nat)
    requires n <= |employees| && n <= |draws|
    ensures ManagerPlan(employees, draws, n).None? <==>
      exists k :: 0 <= k < n && draws[k].assign && Others(employees, employees[k].id) == []
  {
    if n > 0 {
      ManagerPlanFails(employees, draws, n - 1);
    }
  }

  /** With at least two employees and distinct ids, every employee has someone else to pick. */
  lemma ManagerPlanSucceeds(employees: seq<Employee>, draws: seq<ManagerDraw>)
    requires |employees| >= 2 && DistinctIds(employees) && |draws| >= |employees|
    ensures ManagerPlan(employees, draws, |employees|).Some?
  {
    forall k | 0 <= k < |employees|
      ensures Others(employees, employees[k].id) != []
    {
      var j := if k == 0 then 1 else 0;
      assert employees[j] in employees && employees[j].id != employees[k].id;
      assert employees[j] in Others(employees, employees[k].id);
    }
    ManagerPlanFails(employees, draws, |employees|);
  }

  datatype CustomerKind = Individual | Corporate

  /** The choices behind one customer: the type, and the SSN or EIN Faker supplies. */
  datatype CustomerDraw = CustomerDraw(kind: CustomerKind, ssn: string, ein: string)

  /** A customers row: the user, the type and the identification document (date, city, address, credit and status left out). */
  datatype CustomerRow = CustomerRow(userId: nat, kind: CustomerKind, document: string)

  type Customer = Entry<CustomerRow>

  /** The document is the SSN for an individual and the EIN for a corporation, cut to 50 characters. */
  function CustomerRowOf(u: User, d: CustomerDraw): (r: CustomerRow)
    ensures r.userId == u.id && r.kind == d.kind && |r.document| <= 50
    ensures r.document == Column(if d.kind == Individual then d.ssn else d.ein, 50)
  {
    CustomerRow(u.id, d.kind, Column(if d.kind == Individual then d.ssn else d.ein, 50))
  }

  /** `{emp['user_id'] for emp in employees_data}`. */
  function EmployeeUserIds(employees: seq<Employee>): set<nat> {
    set e | e in employees :: e.row.userId
  }

  /** `[u for u in available_users if u['id'] not in used_user_ids]`. */
  function Remaining(available: seq<User>, taken: set<nat>): (r: seq<User>)
    ensures |r| <= |available|
    ensures forall u :: u in r <==> u in available && u.id !in taken
  {
    if available == [] then []
    else if available[0].id !in taken then [available[0]] + Remaining(available[1..], taken)
    else Remaining(available[1..], taken)
  }

  /**
   * When the first m available users are exactly the ones taken, the remaining users are the
   * available ones from position m on.
   */
  lemma {:induction false} RemainingSuffix(available: seq<User>, taken: set<nat>, m: nat)
    requires m <= |available|
    requires forall k :: 0 <= k < m ==> available[k].id in taken
    requires forall k :: m <= k < |available| ==> available[k].id !in taken
    ensures Remaining(available, taken) == available[m..]
  {
    if available != [] {
      if m > 0 {
        RemainingSuffix(available[1..], taken, m - 1);
        assert available[1..][m - 1..] == available[m..];
      } else {
        RemainingSuffix(available[1..], taken, 0);
        assert [available[0]] + available[1..] == available;
      }
    }
  }

  /**
   * The customers "start from where employees ended": when employee k was built on available
   * user k and the available users have distinct ids, the users left for customers are the
   * available users after the employees' prefix.
   */
  lemma RemainingAfterEmployees(available: seq<User>, employees: seq<Employee>)
    requires |employees| <= |available| && DistinctIds(available)
    requires forall k :: 0 <= k < |employees| ==> employees[k].row.userId == available[k].id
    ensures Remaining(available, EmployeeUserIds(employees)) == available[|employees|..]
  {
    var taken := EmployeeUserIds(employees);
    forall k | 0 <= k < |employees|
      ensures available[k].id in taken
    {
      assert employees[k] in employees;
    }
    forall k | |employees| <= k < |available|
      ensures available[k].id !in taken
    {
      forall e | e in employees
        ensures e.row.userId != available[k].id
      {
        var j :| 0 <= j < |employees| && employees[j] == e;
        assert e.row.userId == available[j].id;
      }
    }
    RemainingSuffix(available, taken, |employees|);
  }

  /** The first n customers: customer k pairs the k-th fresh id with the row built on remaining user k and draw k. */
  function CustomerEntries(remaining: seq<User>, draws: seq<CustomerDraw>, n: nat, base: nat): (r: seq<Customer>)
    requires n <= |remaining| && n <= |draws|
    ensures |r| == n
  {
    if n == 0 then [] else CustomerEntries(remaining, draws, n - 1, base) + [Entry(base + n, CustomerRowOf(remaining[n - 1], draws[n - 1]))]
  }

  /** Customer k of the list, read off. */
  lemma {:induction false} CustomerEntriesAt(remaining: seq<User>, draws: seq<CustomerDraw>, n: nat, base: nat, k: nat)
    requires n <= |remaining| && n <= |draws| && k < n
    ensures CustomerEntries(remaining, draws, n, base)[k] == Entry(base + k + 1, CustomerRowOf(remaining[k], draws[k]))
  {
    if k < n - 1 {
      CustomerEntriesAt(remaining, draws, n - 1, base, k);
    }
  }

  /** One pass of the customer loop: the row built on the next remaining user, inserted and appended. */
  method InsertCustomer(table: Table<CustomerRow>, customers: seq<Customer>, user: User, d: CustomerDraw,
                        ghost remaining: seq<User>, ghost draws: seq<CustomerDraw>, i: nat,
                        ghost rows0: seq<CustomerRow>, ghost calls0: seq<nat>)
    returns (customers': seq<Customer>)
    requires i < |remaining| && i < |draws| && remaining[i] == user && draws[i] == d
    requires customers == CustomerEntries(remaining, draws, i, |rows0|)
    requires table.rows == rows0 + Rows(customers) && table.calls == calls0 + Ones(i)
    modifies table
    ensures customers' == CustomerEntries(remaining, draws, i + 1, |rows0|)
    ensures table.rows == rows0 + Rows(customers')
    ensures table.calls == calls0 + Ones(i + 1)
    ensures table.commits == old(table.commits)
  {
    var document := Column(if d.kind == Individual then d.ssn else d.ein, 50);
    var row := CustomerRow(user.id, d.kind, document);
    ghost var rows := table.rows;
    var id := table.Insert(row);
    customers' := customers + [Entry(id, row)];
    OnesSnoc(calls0, i);
    CustomerStep(remaining, draws, i, rows0, customers, rows, id, row);
  }

  /** The bookkeeping of one pass of the customer loop. */
  lemma CustomerStep(remaining: seq<User>, draws: seq<CustomerDraw>, i: nat, rows0: seq<CustomerRow>,
                     customers: seq<Customer>, rows: seq<CustomerRow>, id: nat, row: CustomerRow)
    requires i < |remaining| && i < |draws|
    requires customers == CustomerEntries(remaining, draws, i, |rows0|) && rows == rows0 + Rows(customers)
    requires id == |rows| + 1 && row == CustomerRowOf(remaining[i], draws[i])
    ensures customers + [Entry(id, row)] == CustomerEntries(remaining, draws, i + 1, |rows0|)
    ensures rows + [row] == rows0 + Rows(customers + [Entry(id, row)])
  {
    RowsGrow(rows0, customers, Entry(id, row));
  }

  /**
   * The customer loop over `range(min(NUM_CUSTOMERS, len(remaining_users)))`, one insert per
   * pass and then one commit: customer k is built on the k-th user no employee took. The
   * draws cover every pass the loop can make.
   */
  method InsertCustomers(table: Table<CustomerRow>, available: seq<User>, employees: seq<Employee>,
                         draws: seq<CustomerDraw>) returns (customers: seq<Customer>)
    requires |draws| >= NumCustomers
    modifies table
    ensures var remaining := Remaining(available, EmployeeUserIds(employees));
      customers == CustomerEntries(remaining, draws, Min(NumCustomers, |remaining|), |old(table.rows)|)
    ensures table.rows == old(table.rows) + Rows(customers)
    ensures table.calls == old(table.calls) + Ones(|customers|)
    ensures table.commits == old(table.commits) + [|table.rows|]
  {
    var usedUserIds := EmployeeUserIds(employees);
    var remaining := Remaining(available, usedUserIds);
    var count := Min(NumCustomers, |remaining|);
    ghost var rows0 := table.rows;
    ghost var calls0 := table.calls;
    ghost var commits0 := table.commits;
    customers := [];
    var i := 0;
    while i < count
      invariant i <= count
      invariant customers == CustomerEntries(remaining, draws, i, |rows0|)
      invariant table.rows == rows0 + Rows(customers)
      invariant table.calls == calls0 + Ones(i)
      invariant table.commits == commits0
    {
      customers := InsertCustomer(table, customers, remaining[i], draws[i], remaining, draws, i, rows0, calls0);
      i := i + 1;
    }
    table.Commit();
  }

  /**
   * The customers the loop leaves: at most NUM_CUSTOMERS of them, customer k built on the k-th
   * remaining user, so none of them is a user some employee took.
   */
  lemma CustomersDone(available: seq<User>, employees: seq<Employee>, draws: seq<CustomerDraw>, base: nat, k: nat)
    requires |draws| >= NumCustomers
    ensures var remaining := Remaining(available, EmployeeUserIds(employees));
      |CustomerEntries(remaining, draws, Min(NumCustomers, |remaining|), base)| <= NumCustomers
    ensures var remaining := Remaining(available, EmployeeUserIds(employees));
      k < Min(NumCustomers, |remaining|) ==>
        && CustomerEntries(remaining, draws, Min(NumCustomers, |remaining|), base)[k]
             == Entry(base + k + 1, CustomerRowOf(remaining[k], draws[k]))
        && CustomerEntries(remaining, draws, Min(NumCustomers, |remaining|), base)[k].row.userId !in EmployeeUserIds(employees)
  {
    var remaining := Remaining(available, EmployeeUserIds(employees));
    if k < Min(NumCustomers, |remaining|) {
      CustomerEntriesAt(remaining, draws, Min(NumCustomers, |remaining|), base, k);
      assert remaining[k] in remaining;
    }
  }

  /** The choices behind one purchase order that the model keeps: the code generator's draws and the clock. */
  datatype OrderDraw = OrderDraw(code: CodeDraws, timestamp: nat)

  /** A purchase_orders row, reduced to its order number. */
  datatype OrderRow = OrderRow(number: string)

  type Order = Entry<OrderRow>

  /** `generate_unique_code("PO", used_codes, 10)[:50]`: the number is the generated code cut to VARCHAR(50). */
  function OrderRowOf(code: string): (r: OrderRow)
    ensures |r.number| <= 50 && |r.number| <= |code| && r.number == code[..|r.number|]
    ensures |code| <= 50 ==> r.number == code
  {
    OrderRow(Column(code, 50))
  }

  /** The generator calls of the order loop, one "PO" call per order. */
  function OrderCodeCalls(draws: seq<OrderDraw>): (cs: seq<Candidates>)
    ensures |cs| == |draws|
    ensures forall k :: 0 <= k < |draws| ==> cs[k] == CodeCandidates("PO", draws[k].code, draws[k].timestamp)
  {
    if draws == [] then []
    else [CodeCandidates("PO", draws[0].code, draws[0].timestamp)] + OrderCodeCalls(draws[1..])
  }

  /**
   * The orders list after its first |orders| passes: the code ledger and the codes handed out
   * are those of the first |orders| "PO" calls, and order k carries the k-th fresh id and the
   * k-th code.
   */
  ghost predicate OrdersSoFar(draws: seq<OrderDraw>, used0: set<string>, base: nat,
                              used: set<string>, handed: seq<string>, orders: seq<Order>) {
    && |orders| <= |draws|
    && Handout(OrderCodeCalls(draws), used0, |orders|) == Handed(used, handed)
    && forall k :: 0 <= k < |orders| ==> orders[k] == Entry(base + k + 1, OrderRowOf(handed[k]))
  }

  /** The row count durable after each batch: one commit at the end of every window. */
  function CommitPoints(base: nat, windows: seq<(nat, nat)>): (c: seq<nat>)
    ensures |c| == |windows|
    ensures forall k :: 0 <= k < |windows| ==> c[k] == base + windows[k].1
  {
    if windows == [] then [] else [base + windows[0].1] + CommitPoints(base, windows[1..])
  }

  /** The commits of the windows from `from` on, when `base` rows preceded the phase. */
  function CommitsFrom(base: nat, from: nat, n: nat): seq<nat>
    decreases n - from
  {
    if from >= n then [] else [base + Min(from + OrderBatchSize, n)] + CommitsFrom(base, from + OrderBatchSize, n)
  }

  lemma {:induction false} CommitsFromWindows(base: nat, from: nat, n: nat)
    ensures CommitsFrom(base, from, n) == CommitPoints(base, RangesFrom(from, n, OrderBatchSize))
    decreases n - from
  {
    if from < n {
      CommitsFromWindows(base, from + OrderBatchSize, n);
      var w: (nat, nat) := (from, Min(from + OrderBatchSize, n));
      var rest := RangesFrom(from + OrderBatchSize, n, OrderBatchSize);
      assert RangesFrom(from, n, OrderBatchSize) == [w] + rest;
      assert ([w] + rest)[1..] == rest;
    }
  }

  /** The commits still to come, once the window starting at `from` has committed. */
  lemma CommitsFromStep(before: seq<nat>, after: seq<nat>, x: nat, total: seq<nat>, base: nat, from: nat, n: nat)
    requires from < n && before + CommitsFrom(base, from, n) == total
    requires after == before + [x] && x == base + Min(from + OrderBatchSize, n)
    ensures after + CommitsFrom(base, from + OrderBatchSize, n) == total
  {
    var rest := CommitsFrom(base, from + OrderBatchSize, n);
    calc {
      after + rest;
      (before + [x]) + rest;
      { assert (before + [x]) + rest == before + ([x] + rest); }
      before + ([x] + rest);
      before + CommitsFrom(base, from, n);
    }
  }

  /** One pass of the inner loop: a fresh "PO" code, the insert, and the order appended. */
  method InsertOrder(codes: Ledger, table: Table<OrderRow>, orders: seq<Order>, d: OrderDraw,
                     ghost draws: seq<OrderDraw>, ghost used0: set<string>, ghost handed: seq<string>,
                     ghost rows0: seq<OrderRow>, ghost calls0: seq<nat>)
    returns (orders': seq<Order>, ghost handed': seq<string>)
    requires |orders| < |draws| && draws[|orders|] == d
    requires OrdersSoFar(draws, used0, |rows0|, codes.used, handed, orders)
    requires table.rows == rows0 + Rows(orders) && table.calls == calls0 + Ones(|orders|)
    modifies codes, table
    ensures |orders'| == |orders| + 1
    ensures OrdersSoFar(draws, used0, |rows0|, codes.used, handed', orders')
    ensures table.rows == rows0 + Rows(orders')
    ensures table.calls == calls0 + Ones(|orders'|)
    ensures table.commits == old(table.commits)
  {
    ghost var used := codes.used;
    ghost var rows := table.rows;
    var orderNumber := codes.GenerateUniqueCode("PO", d.code, d.timestamp);
    var row := OrderRowOf(orderNumber);
    var id := table.Insert(row);
    orders' := orders + [Entry(id, row)];
    handed' := handed + [orderNumber];
    OrderStep(draws, used0, rows0, used, handed, orders, rows, orderNumber, id);
    OnesSnoc(calls0, |orders|);
  }

  /** The bookkeeping of one order: the next "PO" code handed out, its row stored under the next id. */
  lemma OrderStep(draws: seq<OrderDraw>, used0: set<string>, rows0: seq<OrderRow>, used: set<string>,
                  handed: seq<string>, orders: seq<Order>, rows: seq<OrderRow>, code: string, id: nat)
    requires |orders| < |draws|
    requires OrdersSoFar(draws, used0, |rows0|, used, handed, orders) && rows == rows0 + Rows(orders)
    requires code == Pick(CodeCandidates("PO", draws[|orders|].code, draws[|orders|].timestamp), used)
    requires id == |rows| + 1
    ensures OrdersSoFar(draws, used0, |rows0|, used + {code}, handed + [code], orders + [Entry(id, OrderRowOf(code))])
    ensures rows + [OrderRowOf(code)] == rows0 + Rows(orders + [Entry(id, OrderRowOf(code))])
  {
    var i := |orders|;
    var e := Entry(id, OrderRowOf(code));
    var cs := OrderCodeCalls(draws);
    assert Handout(cs, used0, i + 1) == Handed(used + {code}, handed + [code]) by {
      HandoutStep(cs, used0, i, used, handed, code);
    }
    assert rows + [e.row] == rows0 + Rows(orders + [e]) by {
      RowsGrow(rows0, orders, e);
    }
    assert |rows| == |rows0| + i;
    forall k | 0 <= k < i + 1
      ensures (orders + [e])[k] == Entry(|rows0| + k + 1, OrderRowOf((handed + [code])[k]))
    {
      if k < i {
        assert (orders + [e])[k] == orders[k] && (handed + [code])[k] == handed[k];
      }
    }
  }

  /**
   * One window of the purchase-order phase, `for i in range(batch_start, batch_end)`, each
   * order appended as `purchase_orders_data.extend(batch_orders)` leaves them, then
   * `conn.commit()`.
   */
  method InsertOrderBatch(codes: Ledger, table: Table<OrderRow>, orders: seq<Order>, batchEnd: nat,
                          draws: seq<OrderDraw>, ghost used0: set<string>, ghost handed: seq<string>,
                          ghost rows0: seq<OrderRow>, ghost calls0: seq<nat>)
    returns (orders': seq<Order>, ghost handed': seq<string>)
    requires |orders| <= batchEnd <= |draws|
    requires OrdersSoFar(draws, used0, |rows0|, codes.used, handed, orders)
    requires table.rows == rows0 + Rows(orders) && table.calls == calls0 + Ones(|orders|)
    modifies codes, table
    ensures |orders'| == batchEnd
    ensures OrdersSoFar(draws, used0, |rows0|, codes.used, handed', orders')
    ensures table.rows == rows0 + Rows(orders')
    ensures table.calls == calls0 + Ones(batchEnd)
    ensures |table.rows| == |rows0| + batchEnd
    ensures table.commits == old(table.commits) + [|table.rows|]
  {
    orders', handed' := InsertWindowOrders(codes, table, orders, batchEnd, draws, used0, handed, rows0, calls0);
    table.Commit();
  }

  /** The orders of one window, inserted one by one with no commit. */
  method InsertWindowOrders(codes: Ledger, table: Table<OrderRow>, orders: seq<Order>, batchEnd: nat,
                            draws: seq<OrderDraw>, ghost used0: set<string>, ghost handed: seq<string>,
                            ghost rows0: seq<OrderRow>, ghost calls0: seq<nat>)
    returns (orders': seq<Order>, ghost handed': seq<string>)
    requires |orders| <= batchEnd <= |draws|
    requires OrdersSoFar(draws, used0, |rows0|, codes.used, handed, orders)
    requires table.rows == rows0 + Rows(orders) && table.calls == calls0 + Ones(|orders|)
    modifies codes, table
    ensures |orders'| == batchEnd && |table.rows| == |rows0| + batchEnd
    ensures OrdersSoFar(draws, used0, |rows0|, codes.used, handed', orders')
    ensures table.rows == rows0 + Rows(orders')
    ensures table.calls == calls0 + Ones(batchEnd)
    ensures table.commits == old(table.commits)
  {
    orders', handed' := orders, handed;
    var i := |orders|;
    while i < batchEnd
      invariant i <= batchEnd && |orders'| == i
      invariant OrdersSoFar(draws, used0, |rows0|, codes.used, handed', orders')
      invariant table.rows == rows0 + Rows(orders')
      invariant table.calls == calls0 + Ones(i)
      invariant table.commits == old(table.commits)
    {
      orders', handed' := InsertOrder(codes, table, orders', draws[i], draws, used0, handed', rows0, calls0);
      i := i + 1;
    }
  }

  /**
   * The purchase-order phase, one order per draw: `for batch_start in range(0, n, 10000)`,
   * each window inserted order by order and followed by one commit. The orders are numbered
   * by the ledger's run over the "PO" candidates, and the commits fall exactly at the window
   * ends, so every window of `BatchRanges(n, 10000)` is made durable once, in order.
   */
  method InsertPurchaseOrders(codes: Ledger, table: Table<OrderRow>, draws: seq<OrderDraw>)
    returns (orders: seq<Order>)
    modifies codes, table
    ensures codes.used == LedgerAfter(OrderCodeCalls(draws), old(codes.used))
    ensures |orders| == |draws|
    ensures forall k :: 0 <= k < |draws| ==>
      orders[k] == Entry(|old(table.rows)| + k + 1, OrderRowOf(Run(OrderCodeCalls(draws), old(codes.used))[k]))
    ensures table.rows == old(table.rows) + Rows(orders)
    ensures table.calls == old(table.calls) + Ones(|draws|)
    ensures table.commits == old(table.commits) + CommitPoints(|old(table.rows)|, BatchRanges(|draws|, OrderBatchSize))
  {
    var n := |draws|;
    ghost var used0 := codes.used;
    ghost var rows0 := table.rows;
    ghost var calls0 := table.calls;
    ghost var commits0 := table.commits;
    ghost var handed: seq<string> := [];
    orders := [];
    var batchStart: nat := 0;
    while batchStart < n
      invariant |orders| == Min(batchStart, n)
      invariant OrdersSoFar(draws, used0, |rows0|, codes.used, handed, orders)
      invariant table.rows == rows0 + Rows(orders)
      invariant table.calls == calls0 + Ones(|orders|)
      invariant table.commits + CommitsFrom(|rows0|, batchStart, n) == commits0 + CommitsFrom(|rows0|, 0, n)
      decreases n - batchStart
    {
      var batchEnd: nat := Min(batchStart + OrderBatchSize, n);
      ghost var commits := table.commits;
      orders, handed := InsertOrderBatch(codes, table, orders, batchEnd, draws, used0, handed, rows0, calls0);
      CommitsFromStep(commits, table.commits, |table.rows|, commits0 + CommitsFrom(|rows0|, 0, n), |rows0|, batchStart, n);
      batchStart := batchStart + OrderBatchSize;
    }
    OrdersDone(draws, used0, |rows0|, codes.used, handed, orders);
    assert CommitsFrom(|rows0|, batchStart, n) == [];
    CommitsFromWindows(|rows0|, 0, n);
  }

  /** Once every draw has its order, the codes handed out are the ledger's whole run. */
  lemma OrdersDone(draws: seq<OrderDraw>, used0: set<string>, base: nat,
                   used: set<string>, handed: seq<string>, orders: seq<Order>)
    requires |orders| == |draws| && OrdersSoFar(draws, used0, base, used, handed, orders)
    ensures used == LedgerAfter(OrderCodeCalls(draws), used0)
    ensures forall k :: 0 <= k < |draws| ==>
      orders[k] == Entry(base + k + 1, OrderRowOf(Run(OrderCodeCalls(draws), used0)[k]))
  {
    HandoutAll(OrderCodeCalls(draws), used0);
  }

  /** A completed sale as the returns phase reads it: its id and its customer. */
  datatype Sale = Sale(id: nat, customerId: nat)

  predicate DistinctSaleIds(s: seq<Sale>) {
    forall i, j :: 0 <= i < j < |s| ==> s[i].id != s[j].id
  }

  /** `list.remove(x)`: drops the first element equal to x. */
  function RemoveFirst(s: seq<Sale>, x: Sale): (r: seq<Sale>)
    requires x in s
    ensures |r| == |s| - 1
    ensures forall y :: y in r ==> y in s
  {
    if s[0] == x then s[1..] else [s[0]] + RemoveFirst(s[1..], x)
  }

  /** `remove` drops exactly one occurrence of x and nothing else. */
  lemma {:induction false} RemoveFirstOne(s: seq<Sale>, x: Sale)
    requires x in s
    ensures multiset(RemoveFirst(s, x)) == multiset(s) - multiset{x}
  {
    assert s == [s[0]] + s[1..];
    if s[0] != x {
      RemoveFirstOne(s[1..], x);
    }
  }

  /** Removing a sale from a list with distinct ids leaves distinct ids, none of them the removed sale's. */
  lemma {:induction false} RemoveFirstIds(s: seq<Sale>, x: Sale)
    requires x in s && DistinctSaleIds(s)
    ensures DistinctSaleIds(RemoveFirst(s, x))
    ensures forall y :: y in RemoveFirst(s, x) ==> y.id != x.id
  {
    if s[0] != x {
      assert DistinctSaleIds(s[1..]) by {
        forall i, j | 0 <= i < j < |s[1..]|
          ensures s[1..][i].id != s[1..][j].id
        {
          assert s[1..][i] == s[i + 1] && s[1..][j] == s[j + 1];
        }
      }
      RemoveFirstIds(s[1..], x);
      var r := RemoveFirst(s[1..], x);
      forall y | y in r
        ensures y.id != s[0].id
      {
        var j :| 0 <= j < |s[1..]| && s[1..][j] == y;
        assert s[j + 1] == y;
      }
      var k :| 0 <= k < |s| && s[k] == x;
      assert x.id != s[0].id;
    } else {
      forall y | y in s[1..]
        ensures y.id != x.id
      {
        var j :| 0 <= j < |s[1..]| && s[1..][j] == y;
        assert s[j + 1] == y;
      }
    }
  }

  /** The choices behind one return that the model keeps: the `random.choice` index, the code generator's draws and the clock. */
  datatype ReturnDraw = ReturnDraw(pick: nat, code: CodeDraws, timestamp: nat)

  /** What is left of `completed_sales` after the first i passes: each pass removed the sale it chose. */
  function PoolAfter(completed: seq<Sale>, draws: seq<ReturnDraw>, i: nat): (r: seq<Sale>)
    requires i <= |completed| && i <= |draws|
    ensures |r| == |completed| - i
  {
    if i == 0 then completed
    else
      var pool := PoolAfter(completed, draws, i - 1);
      RemoveFirst(pool, pool[Index(draws[i - 1].pick, |pool|)])
  }

  /** The sale pass i returns: `random.choice(completed_sales)` on what is left of the list. */
  function ChosenSale(completed: seq<Sale>, draws: seq<ReturnDraw>, i: nat): Sale
    requires i < |completed| && i < |draws|
  {
    var pool := PoolAfter(completed, draws, i);
    pool[Index(draws[i].pick, |pool|)]
  }

  /** Ids stay distinct as the list shrinks, and a later list holds only sales of an earlier one. */
  lemma {:induction false} PoolAfterShrinks(completed: seq<Sale>, draws: seq<ReturnDraw>, i: nat, j: nat)
    requires i <= j <= |completed| && j <= |draws| && DistinctSaleIds(completed)
    ensures DistinctSaleIds(PoolAfter(completed, draws, j))
    ensures forall y :: y in PoolAfter(completed, draws, j) ==> y in PoolAfter(completed, draws, i)
    decreases j
  {
    if j > 0 {
      PoolAfterShrinks(completed, draws, if i == j then j - 1 else i, j - 1);
      var pool := PoolAfter(completed, draws, j - 1);
      RemoveFirstIds(pool, pool[Index(draws[j - 1].pick, |pool|)]);
    }
  }

  /** Every sale is returned at most once: when the completed sales have distinct ids, so do the chosen ones. */
  lemma ChosenSalesDistinct(completed: seq<Sale>, draws: seq<ReturnDraw>, i: nat, j: nat)
    requires i < j < |completed| && j < |draws| && DistinctSaleIds(completed)
    ensures ChosenSale(completed, draws, i).id != ChosenSale(completed, draws, j).id
  {
    var pool := PoolAfter(completed, draws, i);
    var sale := ChosenSale(completed, draws, i);
    PoolAfterShrinks(completed, draws, 0, i);
    RemoveFirstIds(pool, sale);
    assert PoolAfter(completed, draws, i + 1) == RemoveFirst(pool, sale);
    PoolAfterShrinks(completed, draws, i + 1, j);
    var later := PoolAfter(completed, draws, j);
    var other := later[Index(draws[j].pick, |later|)];
    assert other == ChosenSale(completed, draws, j);
    assert other in later;
  }

  /** A returns row: number, sale and customer (date, reason, amount, status and employee left out). */
  datatype ReturnRow = ReturnRow(number: string, saleId: nat, customerId: nat)

  type Return = Entry<ReturnRow>

  /** `generate_unique_code("R", used_codes, 10)[:50]`, on the chosen sale and its customer. */
  function ReturnRowOf(sale: Sale, code: string): (r: ReturnRow)
    ensures r.saleId == sale.id && r.customerId == sale.customerId
    ensures |r.number| <= 50 && |r.number| <= |code| && r.number == code[..|r.number|]
  {
    ReturnRow(Column(code, 50), sale.id, sale.customerId)
  }

  /** The generator calls of the first n passes of the returns loop, one "R" call per pass. */
  function ReturnCodeCalls(draws: seq<ReturnDraw>, n: nat): (cs: seq<Candidates>)
    requires n <= |draws|
    ensures |cs| == n
    ensures forall k :: 0 <= k < n ==> cs[k] == CodeCandidates("R", draws[k].code, draws[k].timestamp)
  {
    if n == 0 then [] else ReturnCodeCalls(draws, n - 1) + [CodeCandidates("R", draws[n - 1].code, draws[n - 1].timestamp)]
  }

  /**
   * The returns list and the completed sales after the first |records| passes: the list lost
   * the sales chosen so far, the code ledger and the codes handed out are those of the first
   * |records| "R" calls, and return k is for the k-th chosen sale under the k-th code.
   */
  ghost predicate ReturnsSoFar(completed: seq<Sale>, draws: seq<ReturnDraw>, cs: seq<Candidates>, used0: set<string>,
                               base: nat, used: set<string>, handed: seq<string>, records: seq<Return>,
                               completedSales: seq<Sale>) {
    && |records| <= |completed| && |records| <= |draws| && |records| <= |cs|
    && completedSales == PoolAfter(completed, draws, |records|)
    && Handout(cs, used0, |records|) == Handed(used, handed)
    && forall k :: 0 <= k < |records| ==>
         records[k] == Entry(base + k + 1, ReturnRowOf(ChosenSale(completed, draws, k), handed[k]))
  }

  /**
   * One pass of the returns loop: `random.choice(completed_sales)`, a fresh "R" code, the
   * insert, the return appended, and `completed_sales.remove(sale)`.
   */
  method ReturnPass(codes: Ledger, table: Table<ReturnRow>, completedSales: seq<Sale>, d: ReturnDraw,
                    ghost completed: seq<Sale>, ghost draws: seq<ReturnDraw>, ghost cs: seq<Candidates>,
                    ghost used0: set<string>, ghost handed: seq<string>,
                    ghost rows0: seq<ReturnRow>, ghost calls0: seq<nat>, records: seq<Return>)
    returns (records': seq<Return>, completedSales': seq<Sale>, ghost handed': seq<string>)
    requires |records| < |completed| && |records| < |draws| && |records| < |cs| && draws[|records|] == d
    requires cs[|records|] == CodeCandidates("R", d.code, d.timestamp)
    requires ReturnsSoFar(completed, draws, cs, used0, |rows0|, codes.used, handed, records, completedSales)
    requires table.rows == rows0 + Rows(records) && table.calls == calls0 + Ones(|records|)
    modifies codes, table
    ensures |records'| == |records| + 1
    ensures ReturnsSoFar(completed, draws, cs, used0, |rows0|, codes.used, handed', records', completedSales')
    ensures table.rows == rows0 + Rows(records')
    ensures table.calls == calls0 + Ones(|records'|)
    ensures table.commits == old(table.commits)
  {
    var sale := completedSales[Index(d.pick, |completedSales|)];
    ghost var used := codes.used;
    ghost var rows := table.rows;
    var returnNumber := codes.GenerateUniqueCode("R", d.code, d.timestamp);
    var row := ReturnRowOf(sale, returnNumber);
    var id := table.Insert(row);
    records' := records + [Entry(id, row)];
    handed' := handed + [returnNumber];
    completedSales' := RemoveFirst(completedSales, sale);
    ReturnStep(completed, draws, cs, used0, rows0, used, handed, records, completedSales, rows, returnNumber, sale, Entry(id, row));
    RowsGrow(rows0, records, Entry(id, row));
    OnesSnoc(calls0, |records|);
  }

  /** The bookkeeping of one return: the sale chosen, the next "R" code, the row under the next id, the sale removed. */
  lemma ReturnStep(completed: seq<Sale>, draws: seq<ReturnDraw>, cs: seq<Candidates>, used0: set<string>,
                   rows0: seq<ReturnRow>, used: set<string>, handed: seq<string>, records: seq<Return>,
                   completedSales: seq<Sale>, rows: seq<ReturnRow>, code: string, sale: Sale, e: Return)
    requires |records| < |completed| && |records| < |draws| && |records| < |cs|
    requires ReturnsSoFar(completed, draws, cs, used0, |rows0|, used, handed, records, completedSales)
    requires rows == rows0 + Rows(records)
    requires code == Pick(cs[|records|], used)
    requires sale == completedSales[Index(draws[|records|].pick, |completedSales|)]
    requires e == Entry(|rows| + 1, ReturnRowOf(sale, code))
    ensures ReturnsSoFar(completed, draws, cs, used0, |rows0|, used + {code}, handed + [code], records + [e],
                         RemoveFirst(completedSales, sale))
  {
    var i := |records|;
    PoolStep(completed, draws, i, completedSales, sale);
    HandoutStep(cs, used0, i, used, handed, code);
    assert |rows| == |rows0| + i;
    ReturnEntriesGrow(completed, draws, |rows0|, handed, records, code, sale, e);
  }

  /** Removing the chosen sale from the list after i passes gives the list after i + 1. */
  lemma PoolStep(completed: seq<Sale>, draws: seq<ReturnDraw>, i: nat, pool: seq<Sale>, sale: Sale)
    requires i < |completed| && i < |draws| && pool == PoolAfter(completed, draws, i)
    requires sale == pool[Index(draws[i].pick, |pool|)]
    ensures sale == ChosenSale(completed, draws, i)
    ensures RemoveFirst(pool, sale) == PoolAfter(completed, draws, i + 1)
  {
  }

  /** Return k, for k below the new length, is for the k-th chosen sale under the k-th code. */
  lemma ReturnEntriesGrow(completed: seq<Sale>, draws: seq<ReturnDraw>, base: nat, handed: seq<string>,
                          records: seq<Return>, code: string, sale: Sale, e: Return)
    requires |records| < |completed| && |records| < |draws| && |handed| == |records|
    requires forall k :: 0 <= k < |records| ==>
      records[k] == Entry(base + k + 1, ReturnRowOf(ChosenSale(completed, draws, k), handed[k]))
    requires sale == ChosenSale(completed, draws, |records|)
    requires e == Entry(base + |records| + 1, ReturnRowOf(sale, code))
    ensures forall k :: 0 <= k < |records| + 1 ==>
      (records + [e])[k] == Entry(base + k + 1, ReturnRowOf(ChosenSale(completed, draws, k), (handed + [code])[k]))
  {
    forall k | 0 <= k < |records| + 1
      ensures (records + [e])[k] == Entry(base + k + 1, ReturnRowOf(ChosenSale(completed, draws, k), (handed + [code])[k]))
    {
      if k < |records| {
        assert (records + [e])[k] == records[k] && (handed + [code])[k] == handed[k];
      }
    }
  }

  /**
   * The returns phase over `range(min(NUM_RETURNS, len(completed_sales)))`, then one commit:
   * each pass chooses a sale from what is left of the completed sales, inserts its return
   * under a fresh "R" code, and removes the sale from the list. Return k is for the k-th
   * chosen sale and its customer, numbered by the ledger's run over the "R" candidates.
   * The draws cover every pass the loop can make.
   */
  method InsertReturns(codes: Ledger, table: Table<ReturnRow>, completed: seq<Sale>, draws: seq<ReturnDraw>)
    returns (returnRecords: seq<Return>)
    requires |draws| >= NumReturns
    modifies codes, table
    ensures var cs := ReturnCodeCalls(draws, Min(NumReturns, |completed|));
      && codes.used == LedgerAfter(cs, old(codes.used))
      && |returnRecords| == Min(NumReturns, |completed|)
      && (forall k :: 0 <= k < |returnRecords| ==>
            returnRecords[k] == Entry(|old(table.rows)| + k + 1,
                                      ReturnRowOf(ChosenSale(completed, draws, k), Run(cs, old(codes.used))[k])))
    ensures table.rows == old(table.rows) + Rows(returnRecords)
    ensures table.calls == old(table.calls) + Ones(|returnRecords|)
    ensures table.commits == old(table.commits) + [|table.rows|]
  {
    var count := Min(NumReturns, |completed|);
    ghost var cs := ReturnCodeCalls(draws, count);
    ghost var used0 := codes.used;
    ghost var rows0 := table.rows;
    ghost var calls0 := table.calls;
    ghost var commits0 := table.commits;
    ghost var handed: seq<string> := [];
    var completedSales := completed;
    returnRecords := [];
    var i := 0;
    while i < count
      invariant i <= count && |returnRecords| == i
      invariant ReturnsSoFar(completed, draws, cs, used0, |rows0|, codes.used, handed, returnRecords, completedSales)
      invariant table.rows == rows0 + Rows(returnRecords)
      invariant table.calls == calls0 + Ones(i)
      invariant table.commits == commits0
    {
      returnRecords, completedSales, handed :=
        ReturnPass(codes, table, completedSales, draws[i], completed, draws, cs, used0, handed, rows0, calls0, returnRecords);
      i := i + 1;
    }
    HandoutAll(cs, used0);
    table.Commit();
  }

  /** No two passes of the returns loop choose the same sale, when the completed sales have distinct ids. */
  lemma ReturnsOncePerSale(completed: seq<Sale>, draws: seq<ReturnDraw>)
    requires DistinctSaleIds(completed) && |draws| >= NumReturns
    ensures forall i, j :: 0 <= i < j < Min(NumReturns, |completed|) ==>
      ChosenSale(completed, draws, i).id != ChosenSale(completed, draws, j).id
  {
    forall i, j | 0 <= i < j < Min(NumReturns, |completed|)
      ensures ChosenSale(completed, draws, i).id != ChosenSale(completed, draws, j).id
    {
      ChosenSalesDistinct(completed, draws, i, j);
    }
  }

  datatype ReceivableStatus = Pending | Partial | Paid | Overdue

  /**
   * `days_overdue`: the days past the due date while an amount is pending, never negative.
   * Dates are day numbers; `today` is the clock, taken as a parameter.
   */
  function DaysOverdue(today: int, due: int, pending: bool): (r: nat)
    ensures r > 0 <==> pending && due < today
    ensures r > 0 ==> r == today - due
  {
    if pending then (if today - due > 0 then today - due else 0) else 0
  }

  /** The status written: `overdue` when days_overdue > 0, otherwise the drawn status. */
  function ReceivableStatusOf(drawn: ReceivableStatus, today: int, due: int, pending: bool): (r: ReceivableStatus)
    ensures r == Overdue <==> drawn == Overdue || DaysOverdue(today, due, pending) > 0
    ensures r != Overdue ==> r == drawn
  {
    if DaysOverdue(today, due, pending) > 0 then Overdue else drawn
  }

  /**
   * The due date is drawn between today and 60 days ahead, so the overdue branch never fires:
   * days_overdue is 0 and the drawn status is kept.
   */
  lemma OverdueNeverFires(drawn: ReceivableStatus, today: int, due: int, pending: bool)
    requires today <= due <= today + 60
    ensures DaysOverdue(today, due, pending) == 0
    ensures ReceivableStatusOf(drawn, today, due, pending) == drawn
  {
  }
}
