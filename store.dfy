/**
 * The store the populators write to, abstracted as an append-only table that hands out
 * fresh ids: row k (counting from 0) receives id k + 1, as an auto-increment key does;
 * document-store ObjectIds are modelled the same way, as distinct fresh ids.
 */
module Store {

  class Table<T(==)> {
    /** The rows, in insertion order. */
    var rows: seq<T>
    /** The number of rows each insert call wrote, in call order. */
    var calls: seq<nat>
    /** The row count at each commit. */
    var commits: seq<nat>

    /** A table that already holds `initial` (rows left by an earlier run, say). */
    constructor (initial: seq<T>)
      ensures rows == initial && calls == [] && commits == []
    {
      rows := initial;
      calls := [];
      commits := [];
    }

    /** `insert_many(batch)`: appends the batch and returns its fresh ids, one per record, in order. */
    method InsertMany(batch: seq<T>) returns (ids: seq<nat>)
      requires |batch| > 0
      modifies this
      ensures rows == old(rows) + batch
      ensures calls == old(calls) + [|batch|] && commits == old(commits)
      ensures |ids| == |batch|
      ensures forall j :: 0 <= j < |ids| ==> ids[j] == |old(rows)| + j + 1
    {
      var base := |rows|;
      ids := FreshIds(base, |batch|);
      rows := rows + batch;
      calls := calls + [|batch|];
    }

    /** `cursor.execute(INSERT ...)` followed by `cursor.lastrowid`. */
    method Insert(row: T) returns (id: nat)
      modifies this
      ensures rows == old(rows) + [row]
      ensures calls == old(calls) + [1] && commits == old(commits)
      ensures id == |old(rows)| + 1
    {
      id := |rows| + 1;
      rows := rows + [row];
      calls := calls + [1];
    }

    /**
     * An insert into a table with a unique key: a row equal to a stored one raises an
     * integrity error and nothing is written.
     */
    method InsertUnique(row: T) returns (ok: bool)
      modifies this
      ensures ok <==> row !in old(rows)
      ensures rows == if ok then old(rows) + [row] else old(rows)
      ensures calls == old(calls) + [if ok then 1 else 0] && commits == old(commits)
    {
      ok := row !in rows;
      if ok {
        rows := rows + [row];
      }
      calls := calls + [if ok then 1 else 0];
    }

    /**
     * `UPDATE ... SET ... WHERE id = id`: the row with that id becomes `f` of itself; an id no
     * row has changes nothing.
     */
    method Update(id: nat, f: T -> T)
      modifies this
      ensures rows == if 1 <= id <= |old(rows)| then old(rows)[id - 1 := f(old(rows)[id - 1])] else old(rows)
      ensures calls == old(calls) && commits == old(commits)
    {
      if 1 <= id <= |rows| {
        rows := rows[id - 1 := f(rows[id - 1])];
      }
    }

    /** `conn.commit()`: records how many rows are durable. */
    method Commit()
      modifies this
      ensures rows == old(rows) && calls == old(calls)
      ensures commits == old(commits) + [|rows|]
    {
      commits := commits + [|rows|];
    }
  }

  /** An entry of a script's in-memory list: a row plus the id the store gave it. */
  datatype Entry<R> = Entry(id: nat, row: R)

  /** The ids of n rows appended after `base` rows, in order. */
  function FreshIds(base: nat, n: nat): (ids: seq<nat>)
    ensures |ids| == n
    ensures forall j :: 0 <= j < n ==> ids[j] == base + j + 1
  {
    if n == 0 then [] else FreshIds(base, n - 1) + [base + n]
  }

  /** The rows of a list of entries, in order. */
  function Rows<R>(entries: seq<Entry<R>>): (r: seq<R>)
    ensures |r| == |entries| && forall k :: 0 <= k < |entries| ==> r[k] == entries[k].row
  {
    if entries == [] then [] else [entries[0].row] + Rows(entries[1..])
  }

  lemma RowsSnoc<R>(entries: seq<Entry<R>>, e: Entry<R>)
    ensures Rows(entries + [e]) == Rows(entries) + [e.row]
  {
  }

  /** Appending an entry's row to a store that holds `rows0` and then the entries' rows. */
  lemma RowsGrow<R>(rows0: seq<R>, entries: seq<Entry<R>>, e: Entry<R>)
    ensures (rows0 + Rows(entries)) + [e.row] == rows0 + Rows(entries + [e])
  {
    RowsSnoc(entries, e);
  }

  lemma RowAt<R>(entries: seq<Entry<R>>, rows0: seq<R>, rows: seq<R>, j: nat)
    requires j < |entries| && rows == rows0 + Rows(entries)
    ensures rows[|rows0| + j] == entries[j].row
  {
  }

  /** The per-call row counts of n single-row inserts. */
  function Ones(n: nat): (r: seq<nat>)
    ensures |r| == n
    ensures forall k :: 0 <= k < n ==> r[k] == 1
  {
    if n == 0 then [] else Ones(n - 1) + [1]
  }

  /** One more single-row insert after `prefix` and n others. */
  lemma OnesSnoc(prefix: seq<nat>, n: nat)
    ensures prefix + Ones(n) + [1] == prefix + Ones(n + 1)
  {
    assert Ones(n + 1) == Ones(n) + [1];
  }
}
