/**
 * The school populator for the relational store: teachers and students are inserted one row at
 * a time with their auto-increment ids read back, each course references a teacher drawn from
 * the inserted ones, and enrollments are de-duplicated through a combination ledger, with a
 * unique-key violation skipped rather than retried.
 */
module FakerMysql {
  import opened Wrappers
  import opened UniqueValues
  import opened Store
  import opened Combinations
  import opened Populate

  /** What Faker supplies for one teacher or student row; `birthDate` is present for students only. */
  datatype PersonDraw = PersonDraw(firstName: string, lastName: string, birthDate: Option<string>, email: EmailSource)

  /** An inserted row, as stored. */
  datatype PersonRow = PersonRow(firstName: string, lastName: string, birthDate: Option<string>, email: string)

  type Person = Entry<PersonRow>

  function EmailSources(draws: seq<PersonDraw>): (r: seq<EmailSource>)
    ensures |r| == |draws| && forall i :: 0 <= i < |draws| ==> r[i] == draws[i].email
  {
    seq(|draws|, i requires 0 <= i < |draws| => draws[i].email)
  }

  /** The `generate_unique_email` calls of a loop over the draws, in order. */
  function EmailCalls(draws: seq<PersonDraw>): (cs: seq<Candidates>)
    ensures |cs| == |draws| && forall k :: 0 <= k < |draws| ==> cs[k] == EmailCandidatesOf(draws[k].email)
  {
    EmailCandidatesOfAll(EmailSources(draws))
  }

  /** The row written for a draw once the ledger has handed out its email. */
  function RowOf(d: PersonDraw, email: string): PersonRow {
    PersonRow(d.firstName, d.lastName, d.birthDate, email)
  }

  /**
   * Where the person loop stands after the passes that were handed `handed`: the ledger is as
   * the first |handed| email calls leave it, entry k pairs the k-th fresh id with the row of
   * draw k, and the store holds exactly the entries' rows after its initial ones.
   */
  ghost predicate PeopleSoFar(draws: seq<PersonDraw>, used0: set<string>, rows0: seq<PersonRow>,
                              handed: seq<string>, used: set<string>, rows: seq<PersonRow>, people: seq<Person>)
  {
    && |handed| <= |draws| && |people| == |handed|
    && Handout(EmailCalls(draws), used0, |handed|) == Handed(used, handed)
    && (forall k :: 0 <= k < |people| ==> people[k] == Entry(|rows0| + k + 1, RowOf(draws[k], handed[k])))
    && rows == rows0 + Rows(people)
  }

  /**
   * One pass of the person loop: an email from the ledger, `INSERT` of the row, `lastrowid`,
   * and the entry appended to the list.
   */
  method InsertPerson(ledger: Ledger, table: Table<PersonRow>, people: seq<Person>, d: PersonDraw,
                      ghost draws: seq<PersonDraw>, ghost used0: set<string>,
                      ghost rows0: seq<PersonRow>, ghost handed: seq<string>)
    returns (people': seq<Person>, ghost handed': seq<string>)
    requires |handed| < |draws| && draws[|handed|] == d
    requires PeopleSoFar(draws, used0, rows0, handed, ledger.used, table.rows, people)
    modifies ledger, table
    ensures |handed'| == |handed| + 1
    ensures PeopleSoFar(draws, used0, rows0, handed', ledger.used, table.rows, people')
    ensures table.calls == old(table.calls) + [1] && table.commits == old(table.commits)
  {
    ghost var used := ledger.used;
    ghost var rows := table.rows;
    var email := ledger.GenerateUniqueEmail(d.email.draws, d.email.userName, d.email.timestamp, d.email.domain);
    var row := PersonRow(d.firstName, d.lastName, d.birthDate, email);
    var id := table.Insert(row);
    PeopleStep(draws, used0, rows0, handed, used, rows, people, email, id);
    people' := people + [Entry(id, row)];
    handed' := handed + [email];
  }

  /** The bookkeeping of one pass of the person loop. */
  lemma PeopleStep(draws: seq<PersonDraw>, used0: set<string>, rows0: seq<PersonRow>,
                   handed: seq<string>, used: set<string>, rows: seq<PersonRow>, people: seq<Person>,
                   email: string, id: nat)
    requires |handed| < |draws|
    requires PeopleSoFar(draws, used0, rows0, handed, used, rows, people)
    requires email == Pick(EmailCandidatesOf(draws[|handed|].email), used)
    requires id == |rows| + 1
    ensures PeopleSoFar(draws, used0, rows0, handed + [email], used + {email}, rows + [RowOf(draws[|handed|], email)],
                        people + [Entry(id, RowOf(draws[|handed|], email))])
  {
    var i := |handed|;
    var e := Entry(id, RowOf(draws[i], email));
    var cs := EmailCalls(draws);
    assert Handout(cs, used0, i + 1) == Handed(used + {email}, handed + [email]) by {
      HandoutStep(cs, used0, i, used, handed, email);
    }
    assert rows + [e.row] == rows0 + Rows(people + [e]) by {
      RowsGrow(rows0, people, e);
    }
    assert |rows| == |rows0| + i;
    forall k | 0 <= k < i + 1
      ensures (people + [e])[k] == Entry(|rows0| + k + 1, RowOf(draws[k], (handed + [email])[k]))
    {
      if k < i {
        assert (people + [e])[k] == people[k] && (handed + [email])[k] == handed[k];
      }
    }
  }

  /**
   * The teacher loop (and the student loop, which has the same shape): one insert per draw with
   * an email from the shared ledger, the `lastrowid` recorded, and the entry appended to the list.
   * The list ends with one entry per draw in insertion order, entry k holding the k-th fresh id
   * and the k-th email of the ledger's run; the store holds exactly those rows, and the ledger
   * grows by exactly the emails handed out.
   */
  method InsertPeople(ledger: Ledger, table: Table<PersonRow>, draws: seq<PersonDraw>) returns (people: seq<Person>)
    modifies ledger, table
    ensures ledger.used == LedgerAfter(EmailCalls(draws), old(ledger.used))
    ensures |people| == |draws|
    ensures forall k :: 0 <= k < |draws| ==>
      people[k] == Entry(|old(table.rows)| + k + 1,
                          RowOf(draws[k], Run(EmailCalls(draws), old(ledger.used))[k]))
    ensures table.rows == old(table.rows) + Rows(people)
    ensures table.calls == old(table.calls) + Ones(|draws|)
    ensures table.commits == old(table.commits) + [|table.rows|]
  {
    ghost var used0 := ledger.used;
    ghost var rows0 := table.rows;
    ghost var calls0 := table.calls;
    ghost var commits0 := table.commits;
    ghost var handed: seq<string> := [];
    people := [];
    var i := 0;
    while i < |draws|
      invariant i == |handed|
      invariant PeopleSoFar(draws, used0, rows0, handed, ledger.used, table.rows, people)
      invariant table.calls == calls0 + Ones(i) && table.commits == commits0
    {
      people, handed := InsertPerson(ledger, table, people, draws[i], draws, used0, rows0, handed);
      OnesSnoc(calls0, i);
      i := i + 1;
    }
    PeopleDone(draws, used0, rows0, handed, ledger.used, table.rows, people);
    table.Commit();
  }

  /** When every draw has had its pass, the ledger and the entries are those of the whole run. */
  lemma PeopleDone(draws: seq<PersonDraw>, used0: set<string>, rows0: seq<PersonRow>,
                   handed: seq<string>, used: set<string>, rows: seq<PersonRow>, people: seq<Person>)
    requires |handed| == |draws|
    requires PeopleSoFar(draws, used0, rows0, handed, used, rows, people)
    ensures used == LedgerAfter(EmailCalls(draws), used0)
    ensures |people| == |draws|
    ensures forall k :: 0 <= k < |draws| ==> people[k] == Entry(|rows0| + k + 1, RowOf(draws[k], Run(EmailCalls(draws), used0)[k]))
  {
    HandoutAll(EmailCalls(draws), used0);
    assert handed == Run(EmailCalls(draws), used0);
  }

  /** The thirty subject names a course title is drawn from. */
  const CourseSubjects: seq<string> := [
    "Matemáticas Avanzadas", "Historia Mundial", "Química Orgánica", "Literatura Española",
    "Física Cuántica", "Biología Molecular", "Programación Python", "Arte Contemporáneo",
    "Geografía Humana", "Filosofía Moderna", "Inglés Básico", "Francés Intermedio",
    "Estadística", "Economía", "Sociología", "Psicología", "Arquitectura", "Ingeniería Civil",
    "Medicina General", "Derecho Constitucional", "Administración", "Marketing Digital",
    "Diseño Gráfico", "Música Clásica", "Educación Física", "Nutrición", "Veterinaria",
    "Agricultura", "Astronomía", "Geología"
  ]

  /** The choices behind one course: a subject index, Faker's description, a teacher index. */
  datatype CourseDraw = CourseDraw(subject: nat, description: string, teacher: nat)

  datatype CourseRow = CourseRow(name: string, description: string, teacherId: nat)

  type Course = Entry<CourseRow>

  /**
   * `random.choice(course_subjects)` and `random.choice(teachers)['id']`, each choice given as an
   * index reduced modulo the list's length. The name is one of the thirty subjects and the
   * teacher id is the id of one of the listed teachers; `random.choice` fails on an empty list.
   */
  function CourseRowOf(d: CourseDraw, teachers: seq<Person>): (r: CourseRow)
    requires |teachers| > 0
    ensures r.name in CourseSubjects && r.description == d.description
    ensures exists j :: 0 <= j < |teachers| && r.teacherId == teachers[j].id
    ensures r.teacherId == TeacherOf(d, teachers)
  {
    CourseRow(SubjectOf(d), d.description, TeacherOf(d, teachers))
  }

  /** `random.choice(course_subjects)`. */
  function SubjectOf(d: CourseDraw): (name: string)
    ensures name in CourseSubjects
  {
    CourseSubjects[d.subject % |CourseSubjects|]
  }

  /** `random.choice(teachers)['id']`. */
  function TeacherOf(d: CourseDraw, teachers: seq<Person>): nat
    requires |teachers| > 0
  {
    teachers[d.teacher % |teachers|].id
  }

  /**
   * When the teacher list is the one the teacher loop returned, every course's `teacher_id`
   * (`TeacherOf`, see `CourseRowOf`) names a stored teacher row: it lies within the table's ids and the row under that id is
   * the chosen teacher's row.
   */
  lemma CourseTeacherIsStored(d: CourseDraw, teachers: seq<Person>, rows0: seq<PersonRow>, rows: seq<PersonRow>)
    requires |teachers| > 0
    requires forall k :: 0 <= k < |teachers| ==> teachers[k].id == |rows0| + k + 1
    requires rows == rows0 + Rows(teachers)
    ensures var t := TeacherOf(d, teachers);
      && |rows0| < t <= |rows|
      && rows[t - 1] == teachers[t - |rows0| - 1].row
  {
    var j := d.teacher % |teachers|;
    assert TeacherOf(d, teachers) == |rows0| + j + 1;
    RowAt(teachers, rows0, rows, j);
  }

  /** The rows the course loop writes, one per draw. */
  function CourseRows(teachers: seq<Person>, draws: seq<CourseDraw>): (r: seq<CourseRow>)
    requires |teachers| > 0
    ensures |r| == |draws| && forall k :: 0 <= k < |draws| ==> r[k] == CourseRowOf(draws[k], teachers)
  {
    seq(|draws|, k requires 0 <= k < |draws| => CourseRowOf(draws[k], teachers))
  }

  /**
   * The course loop: one insert per draw, the `lastrowid` recorded, and the entry appended.
   * Entry k holds the k-th fresh id and the row built from draw k; the store holds exactly those
   * rows, written one per call and committed once at the end.
   */
  method InsertCourses(table: Table<CourseRow>, teachers: seq<Person>, draws: seq<CourseDraw>) returns (courses: seq<Course>)
    requires |teachers| > 0
    modifies table
    ensures |courses| == |draws|
    ensures forall k :: 0 <= k < |draws| ==> courses[k] == Entry(|old(table.rows)| + k + 1, CourseRowOf(draws[k], teachers))
    ensures table.rows == old(table.rows) + Rows(courses)
    ensures table.calls == old(table.calls) + Ones(|draws|)
    ensures table.commits == old(table.commits) + [|table.rows|]
  {
    ghost var planned := CourseRows(teachers, draws);
    ghost var rows0 := table.rows;
    ghost var calls0 := table.calls;
    ghost var commits0 := table.commits;
    courses := [];
    var i := 0;
    while i < |draws|
      invariant i <= |draws| && |courses| == i
      invariant forall k :: 0 <= k < i ==> courses[k] == Entry(|rows0| + k + 1, planned[k])
      invariant table.rows == rows0 + Rows(courses)
      invariant table.calls == calls0 + Ones(i) && table.commits == commits0
    {
      var d := draws[i];
      var name := CourseSubjects[d.subject % |CourseSubjects|];
      var teacherId := teachers[d.teacher % |teachers|].id;
      var row := CourseRow(name, d.description, teacherId);
      assert row == planned[i];
      var id := table.Insert(row);
      OnesSnoc(calls0, i);
      RowsGrow(rows0, courses, Entry(id, row));
      courses := courses + [Entry(id, row)];
      i := i + 1;
    }
    table.Commit();
  }

  /** The (student id, course id) pairs drawn by the two `random.choice` calls of each pass. */
  function EnrollmentPicks(students: seq<Person>, courses: seq<Course>, draws: seq<(nat, nat)>): (r: seq<Pair>)
    requires |students| > 0 && |courses| > 0
    ensures |r| == |draws|
    ensures forall k :: 0 <= k < |r| ==>
      && (exists i :: 0 <= i < |students| && r[k].0 == students[i].id)
      && (exists j :: 0 <= j < |courses| && r[k].1 == courses[j].id)
  {
    seq(|draws|, k requires 0 <= k < |draws| => (students[draws[k].0 % |students|].id, courses[draws[k].1 % |courses|].id))
  }

  /**
   * The accepted pairs the unique key lets through: those not already stored in `rows`, in
   * order. Every one of them is an accepted pair missing from `rows`.
   */
  function Fresh(accepted: seq<Pair>, rows: seq<Pair>): (r: seq<Pair>)
    ensures |r| <= |accepted|
    ensures forall p :: p in r ==> p in accepted && p !in rows
  {
    if accepted == [] then []
    else
      var init := accepted[..|accepted| - 1];
      var p := accepted[|accepted| - 1];
      Fresh(init, rows) + (if p in rows then [] else [p])
  }

  /** One pass of the enrollment loop, on values: how the store and the counter move. */
  lemma EnrollStep(accepted: seq<Pair>, p: Pair, rows0: seq<Pair>, rows: seq<Pair>)
    requires rows == rows0 + Fresh(accepted, rows0)
    requires p !in Set(accepted)
    ensures (p in rows <==> p in rows0)
    ensures Fresh(accepted + [p], rows0) == Fresh(accepted, rows0) + (if p in rows0 then [] else [p])
  {
    assert (accepted + [p])[..|accepted|] == accepted;
    assert p !in Fresh(accepted, rows0);
  }

  /** The combination set after pick i is the set after i picks plus pick i when it was new. */
  lemma AcceptStep(picks: seq<Pair>, i: nat, accepted: seq<Pair>)
    requires i < |picks| && accepted == Accept(picks[..i], {})
    ensures Accept(picks[..i + 1], {}) == accepted + (if picks[i] in Set(accepted) then [] else [picks[i]])
    ensures Set(accepted + [picks[i]]) == Set(accepted) + {picks[i]}
  {
    assert picks[..i + 1] == picks[..i] + [picks[i]];
    AcceptAppend(picks[..i], picks[i], {});
    assert {} + Set(accepted) == Set(accepted);
  }

  /**
   * Where the enrollment loop stands after i picks: the combination set is the accepted pairs,
   * the store holds the accepted pairs it lacked at the start, the counter is their number, and
   * one insert was attempted per accepted pair.
   */
  ghost predicate EnrollLoop(picks: seq<Pair>, i: nat, rows0: seq<Pair>, calls0: seq<nat>, accepted: seq<Pair>,
                             combinations: set<Pair>, rows: seq<Pair>, calls: seq<nat>, created: nat)
  {
    && i <= |picks|
    && accepted == Accept(picks[..i], {}) && combinations == Set(accepted)
    && rows == rows0 + Fresh(accepted, rows0) && created == |Fresh(accepted, rows0)|
    && |calls| == |calls0| + |accepted|
  }

  /**
   * One pass of the enrollment loop: a pair already in the set is skipped; otherwise it joins
   * the set before the insert, and the counter moves only when the unique key let it through.
   */
  method Enroll(table: Table<Pair>, p: Pair, combinations: set<Pair>, created: nat,
                ghost picks: seq<Pair>, ghost i: nat, ghost rows0: seq<Pair>, ghost calls0: seq<nat>, ghost accepted: seq<Pair>)
    returns (combinations': set<Pair>, created': nat, ghost accepted': seq<Pair>)
    requires i < |picks| && picks[i] == p
    requires EnrollLoop(picks, i, rows0, calls0, accepted, combinations, table.rows, table.calls, created)
    modifies table
    ensures EnrollLoop(picks, i + 1, rows0, calls0, accepted', combinations', table.rows, table.calls, created')
    ensures table.commits == old(table.commits)
  {
    AcceptStep(picks, i, accepted);
    combinations', created', accepted' := combinations, created, accepted;
    if p !in combinations {
      combinations' := combinations + {p};
      EnrollStep(accepted, p, rows0, table.rows);
      var ok := table.InsertUnique(p);
      if ok {
        created' := created + 1;
      }
      accepted' := accepted + [p];
    }
  }

  /**
   * The enrollment loop: a drawn pair already in the combination set is skipped; otherwise it is
   * added to the set before the insert, and an insert refused by the unique key is skipped
   * without counting. The set ends as the accepted pairs, each accepted pair is attempted exactly
   * once, the store gains the accepted pairs it did not hold, and the counter is their number.
   */
  method InsertEnrollments(table: Table<Pair>, students: seq<Person>, courses: seq<Course>, draws: seq<(nat, nat)>)
    returns (created: nat, combinations: set<Pair>)
    requires |students| > 0 && |courses| > 0
    modifies table
    ensures var a := Accept(EnrollmentPicks(students, courses, draws), {});
      && combinations == Set(a)
      && table.rows == old(table.rows) + Fresh(a, old(table.rows))
      && created == |Fresh(a, old(table.rows))|
      && |table.calls| == |old(table.calls)| + |a|
    ensures table.commits == old(table.commits) + [|table.rows|]
    ensures created <= |draws|
  {
    ghost var picks := EnrollmentPicks(students, courses, draws);
    ghost var rows0 := table.rows;
    ghost var calls0 := table.calls;
    ghost var commits0 := table.commits;
    ghost var accepted: seq<Pair> := [];
    created := 0;
    combinations := {};
    var i := 0;
    assert picks[..0] == [];
    while i < |draws|
      invariant EnrollLoop(picks, i, rows0, calls0, accepted, combinations, table.rows, table.calls, created)
      invariant table.commits == commits0
    {
      var p := (students[draws[i].0 % |students|].id, courses[draws[i].1 % |courses|].id);
      combinations, created, accepted := Enroll(table, p, combinations, created, picks, i, rows0, calls0, accepted);
      i := i + 1;
    }
    assert picks[..i] == picks;
    AcceptSound(picks, {});
    table.Commit();
  }
}
