/**
 * The school populator for the document store: students receive a unique email and a
 * sequential `STU` code, are inserted in batches of 1000 with the store's ids written back
 * by position, and enrollments are de-duplicated through a combination ledger and flushed
 * from a buffer every 1000 records.
 */
module FakerMongo {
  import opened Wrappers
  import opened Digits
  import opened Batching
  import opened UniqueValues
  import opened Store
  import opened Combinations

  /** `batch_size` of the student phase and the enrollment buffer's flush threshold. */
  const BatchSize: nat := 1000

  /** The fields of a student document this model keeps; `id` is `_id`, absent until written back. */
  datatype StudentDoc = StudentDoc(email: string, studentId: string, id: Option<nat>)

  /** `f"STU{str(i+1).zfill(6)}"`, the code of the student built at loop index i. */
  function StudentCode(i: nat): string {
    "STU" + ZFill(Decimal(i + 1), 6)
  }

  /** Distinct loop indices give distinct student codes, even past 999999 students. */
  lemma StudentCodeInjective(i: nat, j: nat)
    ensures StudentCode(i) == StudentCode(j) ==> i == j
  {
    if StudentCode(i) == StudentCode(j) {
      assert ZFill(Decimal(i + 1), 6) == StudentCode(i)[3..];
      assert ZFill(Decimal(j + 1), 6) == StudentCode(j)[3..];
      ZFillDecimalInjective(i + 1, j + 1, 6);
    }
  }

  /** Up to 999999 students every code is `STU` and six digits. */
  lemma StudentCodeLength(i: nat)
    requires i + 1 < Pow10(6)
    ensures |StudentCode(i)| == 9
  {
    var n := i + 1;
    if n >= 10 {
      // |str(n)| <= 6 because n < 10^6
      DecimalAtMost(n, 6);
    }
  }

  lemma {:induction false} DecimalAtMost(n: nat, k: nat)
    requires 1 <= k && n < Pow10(k)
    ensures |Decimal(n)| <= k
  {
    if n >= 10 {
      assert k >= 2;
      DecimalAtMost(n / 10, k - 1);
    }
  }

  /** The student documents built from the emails handed out, before any insert: record i has code i. */
  function NewStudents(emails: seq<string>): (r: seq<StudentDoc>)
    ensures |r| == |emails|
  {
    seq(|emails|, i requires 0 <= i < |emails| => StudentDoc(emails[i], StudentCode(i), None))
  }

  lemma NewStudentsSnoc(emails: seq<string>, e: string)
    ensures NewStudents(emails + [e]) == NewStudents(emails) + [StudentDoc(e, StudentCode(|emails|), None)]
  {
  }

  /**
   * The student loop: record i gets the next value of the email ledger and the code of index i.
   * The ledger grows by exactly the emails handed out.
   */
  method PrepareStudents(ledger: Ledger, emails: seq<EmailSource>) returns (students: seq<StudentDoc>)
    modifies ledger
    ensures students == NewStudents(Run(EmailCandidatesOfAll(emails), old(ledger.used)))
    ensures ledger.used == LedgerAfter(EmailCandidatesOfAll(emails), old(ledger.used))
  {
    ghost var used0 := ledger.used;
    students := [];
    var i := 0;
    while i < |emails|
      invariant 0 <= i <= |emails|
      invariant ledger.used == LedgerAfter(EmailCandidatesOfAll(emails[..i]), used0)
      invariant students == NewStudents(Run(EmailCandidatesOfAll(emails[..i]), used0))
    {
      var src := emails[i];
      ghost var cs := EmailCandidatesOfAll(emails[..i]);
      var email := ledger.GenerateUniqueEmail(src.draws, src.userName, src.timestamp, src.domain);
      EmailCandidatesOfPrefix(emails, i);
      RunAppend(cs, EmailCandidatesOf(src), used0);
      LedgerAppend(cs, EmailCandidatesOf(src), used0);
      NewStudentsSnoc(Run(cs, used0), email);
      students := students + [StudentDoc(email, StudentCode(i), None)];
      i := i + 1;
    }
    assert emails[..i] == emails;
  }

  /** The documents with those at start, start + 1, ... given the ids of `ids`, in order. */
  function WithIds(docs: seq<StudentDoc>, start: nat, ids: seq<nat>): (r: seq<StudentDoc>)
    requires start + |ids| <= |docs|
    ensures |r| == |docs|
  {
    seq(|docs|, k requires 0 <= k < |docs| =>
      if start <= k < start + |ids| then docs[k].(id := Some(ids[k - start])) else docs[k])
  }

  /** `students_data[start + j]['_id'] = inserted_ids[j]` for every returned id. */
  method WriteBackIds(students: array<StudentDoc>, start: nat, ids: seq<nat>)
    requires start + |ids| <= students.Length
    modifies students
    ensures students[..] == WithIds(old(students[..]), start, ids)
  {
    var j := 0;
    while j < |ids|
      invariant 0 <= j <= |ids|
      invariant students[..] == WithIds(old(students[..]), start, ids[..j])
    {
      students[start + j] := students[start + j].(id := Some(ids[j]));
      j := j + 1;
    }
    assert ids[..j] == ids;
  }

  /** The documents with the first `upto` of them carrying the ids firstId, firstId + 1, ... */
  function Stamped(docs: seq<StudentDoc>, firstId: nat, upto: nat): (r: seq<StudentDoc>)
    ensures |r| == |docs|
  {
    seq(|docs|, k requires 0 <= k < |docs| => if k < upto then docs[k].(id := Some(firstId + k)) else docs[k])
  }

  lemma StampedAll(docs: seq<StudentDoc>, firstId: nat, r: seq<StudentDoc>)
    requires r == Stamped(docs, firstId, |docs|)
    ensures forall k :: 0 <= k < |docs| ==> r[k] == docs[k].(id := Some(firstId + k))
  {
  }

  /** Writing back the consecutive ids of the window [i, i + |ids|) stamps every document before its end. */
  lemma StampWindow(docs: seq<StudentDoc>, firstId: nat, i: nat, ids: seq<nat>, upto: nat)
    requires i + |ids| <= |docs| && Min(upto, |docs|) == i + |ids|
    requires forall j :: 0 <= j < |ids| ==> ids[j] == firstId + i + j
    ensures WithIds(Stamped(docs, firstId, i), i, ids) == Stamped(docs, firstId, upto)
  {
  }

  /**
   * Where the student batch loop stands at offset i: the store holds the first min(i, n)
   * students after its initial rows, the calls made so far are the sizes of the windows before
   * i, and exactly the students before i carry their ids.
   */
  ghost predicate Progress(before: seq<StudentDoc>, rows0: seq<StudentDoc>, calls0: seq<nat>, i: nat,
                           rows: seq<StudentDoc>, calls: seq<nat>, docs: seq<StudentDoc>, done: seq<int>)
  {
    && rows == rows0 + before[..Min(i, |before|)]
    && calls == calls0 + done
    && done + Sizes(RangesFrom(i, |before|, BatchSize)) == Sizes(BatchRanges(|before|, BatchSize))
    && docs == Stamped(before, |rows0| + 1, i)
  }

  lemma ProgressStart(before: seq<StudentDoc>, rows0: seq<StudentDoc>, calls0: seq<nat>)
    ensures Progress(before, rows0, calls0, 0, rows0, calls0, before, [])
  {
    assert before[..0] == [];
    assert Stamped(before, |rows0| + 1, 0) == before;
  }

  /** Once the offset passes n, every student is stored, stamped, and the calls are the planned windows. */
  lemma ProgressDone(before: seq<StudentDoc>, rows0: seq<StudentDoc>, calls0: seq<nat>, i: nat,
                     rows: seq<StudentDoc>, calls: seq<nat>, docs: seq<StudentDoc>, done: seq<int>)
    requires i >= |before| && Progress(before, rows0, calls0, i, rows, calls, docs, done)
    ensures rows == rows0 + before
    ensures calls == calls0 + Sizes(BatchRanges(|before|, BatchSize))
    ensures |done| == CeilDiv(|before|, BatchSize)
    ensures docs == Stamped(before, |rows0| + 1, |before|)
  {
    var n := |before|;
    assert Min(i, n) == n && before[..n] == before;
    assert RangesFrom(i, n, BatchSize) == [];
    assert done == Sizes(BatchRanges(n, BatchSize));
    BatchRangesTile(n, BatchSize);
    assert Stamped(before, |rows0| + 1, i) == Stamped(before, |rows0| + 1, n);
  }

  /** The effect of one pass of the batch loop, on values: offset i advances by 1000. */
  lemma ProgressStep(before: seq<StudentDoc>, rows0: seq<StudentDoc>, calls0: seq<nat>, i: nat, end: nat,
                     rows: seq<StudentDoc>, calls: seq<nat>, docs: seq<StudentDoc>, done: seq<int>, ids: seq<nat>)
    requires i < |before| == |docs| && end == Min(i + BatchSize, |before|) && |ids| == end - i
    requires Progress(before, rows0, calls0, i, rows, calls, docs, done)
    requires forall j :: 0 <= j < |ids| ==> ids[j] == |rows| + j + 1
    ensures Progress(before, rows0, calls0, i + BatchSize, rows + before[i..end], calls + [end - i],
                     WithIds(docs, i, ids), done + [end - i])
  {
    StampWindow(before, |rows0| + 1, i, ids, i + BatchSize);
    RowsStep(before, rows0, i, end, rows);
    PlanStep(|before|, i, end, done);
  }

  lemma RowsStep(before: seq<StudentDoc>, rows0: seq<StudentDoc>, i: nat, end: nat, rows: seq<StudentDoc>)
    requires i < end == Min(i + BatchSize, |before|)
    requires rows == rows0 + before[..i]
    ensures rows + before[i..end] == rows0 + before[..Min(i + BatchSize, |before|)]
  {
    assert before[..i] + before[i..end] == before[..end];
  }

  lemma PlanStep(n: nat, i: nat, end: nat, done: seq<int>)
    requires i < n && end == Min(i + BatchSize, n)
    requires done + Sizes(RangesFrom(i, n, BatchSize)) == Sizes(BatchRanges(n, BatchSize))
    ensures (done + [end - i]) + Sizes(RangesFrom(i + BatchSize, n, BatchSize)) == Sizes(BatchRanges(n, BatchSize))
  {
    RangesFromSizesStep(i, n, BatchSize);
  }

  /**
   * One pass of the batch loop: `insert_many(students_data[i:end])`, then the id write-back,
   * taking the loop from offset i to offset i + 1000.
   */
  method InsertBatch(students: array<StudentDoc>, table: Table<StudentDoc>, i: nat, end: nat,
                     ghost before: seq<StudentDoc>, ghost rows0: seq<StudentDoc>, ghost calls0: seq<nat>,
                     ghost done: seq<int>)
    requires i < |before| == students.Length && end == Min(i + BatchSize, |before|)
    requires Progress(before, rows0, calls0, i, table.rows, table.calls, students[..], done)
    modifies students, table
    ensures Progress(before, rows0, calls0, i + BatchSize, table.rows, table.calls, students[..], done + [end - i])
    ensures table.commits == old(table.commits)
  {
    ghost var rows := table.rows;
    ghost var docs := students[..];
    assert students[i..end] == before[i..end];
    var ids := table.InsertMany(students[i..end]);
    WriteBackIds(students, i, ids);
    ProgressStep(before, rows0, calls0, i, end, rows, old(table.calls), docs, done, ids);
  }

  /**
   * `insert_many` over `students_data[i:i + batch_size]` for i in `range(0, n, 1000)`, each
   * followed by the id write-back: every student is inserted once, in order, in ceil(n / 1000)
   * calls of at most 1000 documents, and student k ends up carrying the k-th fresh id.
   */
  method InsertStudents(students: array<StudentDoc>, table: Table<StudentDoc>) returns (batches: nat)
    modifies students, table
    ensures table.rows == old(table.rows) + old(students[..])
    ensures table.calls == old(table.calls) + Sizes(BatchRanges(students.Length, BatchSize))
    ensures batches == CeilDiv(students.Length, BatchSize)
    ensures students[..] == Stamped(old(students[..]), |old(table.rows)| + 1, students.Length)
    ensures table.commits == old(table.commits)
  {
    var n := students.Length;
    ghost var before := students[..];
    ghost var rows0 := table.rows;
    ghost var calls0 := table.calls;
    ghost var done: seq<int> := [];
    batches := 0;
    var i := 0;
    ProgressStart(before, rows0, calls0);
    while i < n
      invariant Progress(before, rows0, calls0, i, table.rows, table.calls, students[..], done)
      invariant batches == |done| && table.commits == old(table.commits)
    {
      var end := Min(i + BatchSize, n);
      InsertBatch(students, table, i, end, before, rows0, calls0, done);
      done := done + [end - i];
      batches := batches + 1;
      i := i + BatchSize;
    }
    ProgressDone(before, rows0, calls0, i, table.rows, table.calls, students[..], done);
  }

  /**
   * `insert_many(enrollments_buffer)`: the buffer holds the accepted pairs after the first
   * `flushed` full batches; afterwards the store and the call log cover them too.
   */
  method FlushBuffer(table: Table<Pair>, buffer: seq<Pair>, ghost accepted: seq<Pair>, ghost flushed: nat,
                     ghost rows0: seq<Pair>, ghost calls0: seq<nat>)
    requires flushed * BatchSize <= |accepted| && buffer == accepted[flushed * BatchSize..]
    requires 0 < |buffer| <= BatchSize
    requires table.rows == rows0 + accepted[..flushed * BatchSize]
    requires table.calls == calls0 + Sizes(BatchRanges(flushed * BatchSize, BatchSize))
    modifies table
    ensures table.rows == rows0 + accepted
    ensures table.calls == calls0 + Sizes(BatchRanges(|accepted|, BatchSize))
    ensures table.commits == old(table.commits)
  {
    ghost var done := flushed * BatchSize;
    assert |accepted| == done + |buffer|;
    assert accepted[..done] + buffer == accepted;
    BatchRangesExtend(flushed, |buffer|, BatchSize);
    assert Sizes(BatchRanges(|accepted|, BatchSize)) == Sizes(BatchRanges(done, BatchSize)) + [|buffer|];
    var _ := table.InsertMany(buffer);
  }

  /**
   * The enrollment loop: a pick already in the combination ledger is skipped; an accepted one is
   * added to the ledger and to the buffer, which is flushed with `insert_many` when it reaches
   * 1000 records; whatever remains is flushed at the end. The store receives exactly the
   * accepted pairs, in order, in batches that tile them 1000 at a time.
   */
  method CreateEnrollments(picks: seq<Pair>, table: Table<Pair>) returns (created: nat)
    modifies table
    ensures table.rows == old(table.rows) + Accept(picks, {})
    ensures created == |Accept(picks, {})| <= |picks|
    ensures table.calls == old(table.calls) + Sizes(BatchRanges(created, BatchSize))
    ensures table.commits == old(table.commits)
  {
    ghost var rows0 := table.rows;
    ghost var calls0 := table.calls;
    var combinations: set<Pair> := {};
    var buffer: seq<Pair> := [];
    ghost var accepted: seq<Pair> := [];
    ghost var flushed: nat := 0;
    created := 0;
    var i := 0;
    while i < |picks|
      invariant 0 <= i <= |picks|
      invariant accepted == Accept(picks[..i], {})
      invariant combinations == Set(accepted)
      invariant created == |accepted| == flushed * BatchSize + |buffer|
      invariant |buffer| < BatchSize
      invariant buffer == accepted[flushed * BatchSize..]
      invariant table.rows == rows0 + accepted[..flushed * BatchSize]
      invariant table.calls == calls0 + Sizes(BatchRanges(flushed * BatchSize, BatchSize))
      invariant table.commits == old(table.commits)
    {
      var p := picks[i];
      assert picks[..i + 1] == picks[..i] + [p];
      AcceptAppend(picks[..i], p, {});
      assert {} + Set(accepted) == combinations;
      if p !in combinations {
        combinations := combinations + {p};
        accepted := accepted + [p];
        buffer := buffer + [p];
        created := created + 1;
        if |buffer| >= BatchSize {
          FlushBuffer(table, buffer, accepted, flushed, rows0, calls0);
          flushed := flushed + 1;
          buffer := [];
          assert accepted[..flushed * BatchSize] == accepted;
        }
      }
      i := i + 1;
    }
    assert picks[..i] == picks;
    if |buffer| > 0 {
      FlushBuffer(table, buffer, accepted, flushed, rows0, calls0);
    } else {
      assert accepted[..flushed * BatchSize] == accepted;
    }
    AcceptSound(picks, {});
  }
}
