/** The table of stored log lines. */
module Table {
  import opened Wrappers
  import opened Semantics
  import opened Sequences

  /** The rows in the order of their ids, and the last id ever given out; ids are
      never given out twice. */
  datatype Snapshot = Snapshot(rows: seq<Row>, last: nat)

  const EMPTY: Snapshot := Snapshot([], 0)

  /** The unique index: an allocation has one row for each line reference. */
  predicate Clash(a: Row, b: Row) {
    b.lineRef != "" && a.allocId == b.allocId && a.lineRef == b.lineRef
  }

  predicate Increasing(rows: seq<Row>) {
    forall i, j :: 0 <= i < j < |rows| ==> rows[i].id < rows[j].id
  }

  predicate Consistent(t: Snapshot) {
    && Increasing(t.rows)
    && (forall i :: 0 <= i < |t.rows| ==> 0 < t.rows[i].id <= t.last)
    && (forall i, j :: 0 <= i < j < |t.rows| ==> !Clash(t.rows[i], t.rows[j]))
  }

  /** Inserting a row, unless it clashes with one that is there. */
  function Inserted(t: Snapshot, entry: Row): Snapshot {
    if exists r :: r in t.rows && Clash(r, entry) then t
    else Snapshot(t.rows + [entry.(id := t.last + 1)], t.last + 1)
  }

  /** A row is ignored exactly if its reference is there already for its allocation,
      and otherwise comes last, with the next id and nothing else changed. */
  lemma InsertedExact(t: Snapshot, entry: Row)
    ensures var there := entry.lineRef != "" &&
                         exists r :: r in t.rows && r.allocId == entry.allocId && r.lineRef == entry.lineRef;
            var u := Inserted(t, entry);
            && (there ==> u == t)
            && (!there ==> u.last == t.last + 1 && |u.rows| == |t.rows| + 1 && u.rows[..|t.rows|] == t.rows
                           && u.rows[|t.rows|].id == u.last && u.rows[|t.rows|].(id := entry.id) == entry)
  {
    assert forall r :: r in t.rows ==>
      (Clash(r, entry) <==> entry.lineRef != "" && r.allocId == entry.allocId && r.lineRef == entry.lineRef);
  }

  function InsertedAll(t: Snapshot, entries: seq<Row>): Snapshot
    decreases |entries|
  {
    if entries == [] then t else InsertedAll(Inserted(t, entries[0]), entries[1..])
  }

  /** The rows that are left when only so many of the newest are kept. */
  function Pruned(t: Snapshot, maxRows: int): Snapshot {
    if maxRows <= 0 || |t.rows| <= maxRows then t else Snapshot(t.rows[|t.rows| - maxRows..], t.last)
  }

  function Newest(t: Snapshot): int {
    if t.rows == [] then 0 else t.rows[|t.rows| - 1].id
  }

  class LogTable {
    var rows: seq<Row>
    var last: nat

    function State(): Snapshot
      reads this
    {
      Snapshot(rows, last)
    }

    ghost predicate Valid()
      reads this
    {
      Consistent(State())
    }

    constructor ()
      ensures Valid() && State() == EMPTY
    {
      rows, last := [], 0;
    }

    /** Inserts a batch in one transaction; a failure at one of its entries rolls
        back all of it. */
    method InsertLogs(entries: seq<Row>, failsAt: Option<nat>) returns (ok: bool)
      requires Valid()
      modifies this
      ensures Valid()
      ensures ok <==> failsAt.None? || |entries| <= failsAt.value
      ensures State() == if ok then InsertedAll(old(State()), entries) else old(State())
    {
      hide Consistent;
      if |entries| == 0 {
        return true;
      }
      var rowsBefore, lastBefore := rows, last;
      for k := 0 to |entries|
        invariant Valid()
        invariant InsertedAll(old(State()), entries) == InsertedAll(State(), entries[k..])
        invariant failsAt.None? || k <= failsAt.value
      {
        if failsAt == Some(k) {
          rows, last := rowsBefore, lastBefore;
          return false;
        }
        InsertKeeps(State(), entries[k]);
        var e := entries[k];
        if !(exists r :: r in rows && Clash(r, e)) {
          rows, last := rows + [e.(id := last + 1)], last + 1;
        }
      }
      return true;
    }

    /** Keeps the newest rows: those from the id of the last one kept. */
    method Prune(maxRows: int) returns (deleted: nat)
      requires Valid()
      modifies this
      ensures Valid() && State() == Pruned(old(State()), maxRows)
      ensures deleted == |old(rows)| - |rows|
    {
      if maxRows <= 0 || |rows| < maxRows {
        return 0;
      }
      var oldest := rows[|rows| - maxRows].id;
      CutByIds(rows, |rows| - maxRows);
      var kept := Only(rows, (r: Row) => !(r.id < oldest));
      deleted := |rows| - |kept|;
      rows := kept;
    }

    method Clear()
      requires Valid()
      modifies this
      ensures Valid() && State() == Snapshot([], old(last))
    {
      rows := [];
    }

    method MaxID() returns (id: int)
      requires Valid()
      ensures id == Newest(State())
      ensures forall r :: r in rows ==> r.id <= id
      ensures id <= last && (id == 0 || exists r :: r in rows && r.id == id)
    {
      id := if rows == [] then 0 else rows[|rows| - 1].id;
    }
  }

  lemma InsertKeeps(t: Snapshot, entry: Row)
    requires Consistent(t)
    ensures Consistent(Inserted(t, entry))
  {
    var u := Inserted(t, entry);
    forall i, j | 0 <= i < j < |u.rows| ensures !Clash(u.rows[i], u.rows[j]) {
      if j == |t.rows| {
        assert u.rows[i] == t.rows[i] && t.rows[i] in t.rows;
      }
    }
  }

  lemma {:induction false} InsertAllKeeps(t: Snapshot, entries: seq<Row>)
    requires Consistent(t)
    ensures Consistent(InsertedAll(t, entries))
    decreases |entries|
  {
    hide Consistent, Inserted;
    if entries != [] {
      InsertKeeps(t, entries[0]);
      InsertAllKeeps(Inserted(t, entries[0]), entries[1..]);
    }
  }

  /** How lines are grouped into batches does not matter. */
  lemma {:induction false} BatchingDoesNotMatter(t: Snapshot, a: seq<Row>, b: seq<Row>)
    ensures InsertedAll(t, a + b) == InsertedAll(InsertedAll(t, a), b)
    decreases |a|
  {
    hide Inserted;
    if a == [] {
      assert a + b == b;
    } else {
      BatchingDoesNotMatter(Inserted(t, a[0]), a[1..], b);
      assert (a + b)[1..] == a[1..] + b;
    }
  }

  lemma {:induction false} OnlyIncreasing(rows: seq<Row>, p: Row -> bool)
    requires Increasing(rows)
    ensures Increasing(Only(rows, p))
  {
    if rows != [] {
      OnlyIncreasing(rows[1..], p);
      OnlyMembers(rows[1..], p);
      var rest := Only(rows[1..], p);
      assert forall i :: 0 <= i < |rest| ==> rest[i] in rest;
    }
  }

  /** Dropping the rows below the id at an index drops those before the index. */
  lemma {:induction false} CutByIds(rows: seq<Row>, n: nat)
    requires Increasing(rows) && n <= |rows|
    ensures n < |rows| ==> Only(rows, (r: Row) => !(r.id < rows[n].id)) == rows[n..]
  {
    if n < |rows| {
      var p := (r: Row) => !(r.id < rows[n].id);
      assert rows == rows[..n] + rows[n..];
      OnlyAppend(rows[..n], rows[n..], p);
      OnlyNone(rows[..n], p);
      OnlyAll(rows[n..], p);
    }
  }

  lemma LaterRows(rows: seq<Row>, n: nat)
    requires Increasing(rows) && n < |rows|
    ensures |Only(rows, (x: Row) => rows[n].id < x.id)| == |rows| - n - 1
  {
    hide Only;
    var later := (x: Row) => rows[n].id < x.id;
    var upto, after := rows[..n + 1], rows[n + 1..];
    assert rows == upto + after;
    OnlyAppend(upto, after, later);
    OnlyNone(upto, later);
    OnlyAll(after, later);
  }

  lemma InTail(rows: seq<Row>, n: nat, m: nat)
    requires Increasing(rows) && n < |rows| && m <= |rows|
    ensures rows[n] in rows[m..] <==> m <= n
  {
    if m <= n {
      assert rows[m..][n - m] == rows[n];
    }
  }

  /** A row is pruned exactly when as many rows as are to be kept came after it. */
  lemma PruneKeepsNewest(t: Snapshot, maxRows: int, r: Row)
    requires Consistent(t) && r in t.rows && 0 < maxRows
    ensures r in Pruned(t, maxRows).rows <==> |Only(t.rows, (x: Row) => r.id < x.id)| < maxRows
    ensures r in Pruned(t, 0).rows
  {
    hide Clash, Only, Increasing;
    var n :| 0 <= n < |t.rows| && t.rows[n] == r;
    LaterRows(t.rows, n);
    var m := if |t.rows| <= maxRows then 0 else |t.rows| - maxRows;
    InTail(t.rows, n, m);
    assert t.rows[0..] == t.rows;
  }

  lemma {:induction false} OnlyNone<T>(s: seq<T>, p: T -> bool)
    requires forall x :: x in s ==> !p(x)
    ensures Only(s, p) == []
  {
    if s != [] {
      OnlyNone(s[1..], p);
    }
  }

  lemma {:induction false} OnlyAll<T>(s: seq<T>, p: T -> bool)
    requires forall x :: x in s ==> p(x)
    ensures Only(s, p) == s
  {
    if s != [] {
      OnlyAll(s[1..], p);
    }
  }

  // ----- how a table changes under its readers

  /** A later state: what has an id already given out was there before. */
  predicate Evolves(t: Snapshot, u: Snapshot) {
    t.last <= u.last && forall r :: r in u.rows && r.id <= t.last ==> r in t.rows
  }

  lemma EvolvesOn(t: Snapshot, u: Snapshot, v: Snapshot)
    requires Evolves(t, u) && Evolves(u, v)
    ensures Evolves(t, v)
  {
  }

  lemma {:induction false} InsertEvolves(t: Snapshot, entries: seq<Row>)
    ensures Evolves(t, InsertedAll(t, entries))
    ensures t.rows <= InsertedAll(t, entries).rows
    decreases |entries|
  {
    if entries != [] {
      var u := Inserted(t, entries[0]);
      InsertEvolves(u, entries[1..]);
      assert Evolves(t, u);
    }
  }

  /** Every operation on the table leads to a later state. */
  lemma OperationsEvolve(t: Snapshot, entries: seq<Row>, maxRows: int)
    requires Consistent(t)
    ensures Evolves(t, InsertedAll(t, entries)) && Consistent(InsertedAll(t, entries))
    ensures Evolves(t, Pruned(t, maxRows)) && Consistent(Pruned(t, maxRows))
    ensures Evolves(t, Snapshot([], t.last)) && Consistent(Snapshot([], t.last))
  {
    hide Consistent, Evolves, Pruned, InsertedAll;
    InsertAllKeeps(t, entries);
    InsertEvolves(t, entries);
    PruneEvolves(t, maxRows);
    ClearEvolves(t);
  }

  lemma PruneEvolves(t: Snapshot, maxRows: int)
    requires Consistent(t)
    ensures Evolves(t, Pruned(t, maxRows)) && Consistent(Pruned(t, maxRows))
  {
    hide Clash;
  }

  lemma ClearEvolves(t: Snapshot)
    ensures Evolves(t, Snapshot([], t.last)) && Consistent(Snapshot([], t.last))
  {
  }
}
