/** Reading results page by page while the table changes. */
module Paging {
  import opened Wrappers
  import opened Numerals
  import opened Semantics
  import opened Where
  import opened Sequences
  import opened Table

  // ----- newest first

  predicate Newer(a: Row, b: Row) {
    b.timestamp < a.timestamp || (b.timestamp == a.timestamp && b.id < a.id)
  }

  predicate NewestFirst(rows: seq<Row>) {
    forall i, j :: 0 <= i < j < |rows| ==> Newer(rows[i], rows[j])
  }

  function Placed(row: Row, rows: seq<Row>): seq<Row> {
    if rows == [] then [row]
    else if Newer(row, rows[0]) then [row] + rows
    else [rows[0]] + Placed(row, rows[1..])
  }

  function Sorted(rows: seq<Row>): seq<Row> {
    if rows == [] then [] else Placed(rows[0], Sorted(rows[1..]))
  }

  lemma {:induction false} PlacedKeeps(row: Row, rows: seq<Row>)
    requires NewestFirst(rows) && forall r :: r in rows ==> r.id != row.id
    ensures NewestFirst(Placed(row, rows))
    ensures forall r :: r in Placed(row, rows) <==> r == row || r in rows
  {
    if rows != [] && !Newer(row, rows[0]) {
      PlacedKeeps(row, rows[1..]);
      var rest := Placed(row, rows[1..]);
      assert forall j :: 0 <= j < |rest| ==> rest[j] in rest;
      assert Newer(rows[0], row);
      assert forall r :: r in rows[1..] ==> Newer(rows[0], r);
    }
  }

  lemma {:induction false} SortedKeeps(rows: seq<Row>)
    requires Increasing(rows)
    ensures NewestFirst(Sorted(rows))
    ensures forall r :: r in Sorted(rows) <==> r in rows
  {
    if rows != [] {
      SortedKeeps(rows[1..]);
      PlacedKeeps(rows[0], Sorted(rows[1..]));
    }
  }

  /** Which rows a page holds: the newest of those wanted, as many as fit. */
  ghost predicate IsPage(page: seq<Row>, rows: seq<Row>, wanted: Row -> bool, limit: nat) {
    && NewestFirst(page) && |page| <= limit
    && (forall r :: r in page ==> r in rows && wanted(r))
    && (forall r :: r in rows && wanted(r) && r !in page ==>
          |page| == limit && forall p :: p in page ==> Newer(p, r))
  }

  lemma TakeIsPage(sorted: seq<Row>, rows: seq<Row>, wanted: Row -> bool, limit: nat)
    requires NewestFirst(sorted) && forall r :: r in sorted <==> r in rows && wanted(r)
    ensures IsPage(Take(sorted, limit), rows, wanted, limit)
  {
    var page := Take(sorted, limit);
    forall r | r in sorted && r !in page ensures |page| == limit && forall p :: p in page ==> Newer(p, r) {
      var k :| 0 <= k < |sorted| && sorted[k] == r;
      assert forall i :: 0 <= i < |page| ==> page[i] == sorted[i] && page[i] in page;
      assert forall p :: p in page ==> exists i :: 0 <= i < |page| && page[i] == p;
    }
  }

  // ----- one request

  function LimitOf(f: Filters): nat {
    if f.limit == 0 then DEFAULT_LIMIT else f.limit
  }

  predicate ChosenBy(s: Statement, row: Row, nums: Numbers) {
    WellBound(s) && Selects(s, row, nums)
  }

  /** The page a search returns. */
  function Searched(t: Snapshot, f: Filters, nums: Numbers): Result<seq<Row>, SearchError> {
    var s :- SearchStatement(f, nums);
    Success(Take(Sorted(Only(t.rows, (r: Row) => ChosenBy(s, r, nums))), LimitOf(f)))
  }

  /** Rows that match and lie beyond the cursor. */
  ghost function Wanted(f: Filters, nums: Numbers): Row -> bool {
    (r: Row) => Matching(f, r, nums) && BeforeCursor(f.after, r)
  }

  /** A search returns the newest matching rows beyond its cursor. */
  lemma SearchedIsPage(t: Snapshot, f: Filters, nums: Numbers)
    requires Consistent(t) && Searched(t, f, nums).Success?
    ensures IsPage(Searched(t, f, nums).value, t.rows, Wanted(f, nums), LimitOf(f))
  {
    hide SearchStatement, Matching, BeforeCursor, IsPage, Sorted, Clash, Selects, WellBound;
    var s := SearchStatement(f, nums).value;
    var chosen := (r: Row) => ChosenBy(s, r, nums);
    var only := Only(t.rows, chosen);
    OnlyMembers(t.rows, chosen);
    OnlyIncreasing(t.rows, chosen);
    SortedKeeps(only);
    forall r: Row ensures chosen(r) <==> Wanted(f, nums)(r) {
      SearchSelects(f, r, nums);
    }
    TakeIsPage(Sorted(only), t.rows, Wanted(f, nums), LimitOf(f));
  }

  datatype Response = Response(rows: seq<Row>, nextCursor: Option<string>, maxId: int)

  function CursorAfter(row: Row): Cursor {
    Cursor(row.timestamp, row.id)
  }

  /** The cursor to go on from: there is one after a full page. */
  function NextCursor(page: seq<Row>, limit: nat): Option<string> {
    if page != [] && |page| == limit then Some(CursorText(CursorAfter(page[|page| - 1]))) else None
  }

  /** The answer to a query: the newest id is read from one state of the table
      and the rows from a later one. */
  function Answered(before: Snapshot, t: Snapshot, f: Filters, nums: Numbers): Result<Response, SearchError> {
    var page :- Searched(t, f, nums);
    Success(Response(page, NextCursor(page, LimitOf(f)), Newest(before)))
  }

  // ----- following the cursors

  /** One request: the table when its rows are read, the cursor it comes with,
      and the answer. */
  datatype Visit = Visit(before: Snapshot, t: Snapshot, after: Option<Cursor>, answer: Response)

  predicate IdsFit(t: Snapshot) {
    forall r :: r in t.rows ==> IsInt64(r.id)
  }

  ghost predicate Visited(f: Filters, v: Visit, nums: Numbers) {
    && Consistent(v.t) && IdsFit(v.t)
    && Answered(v.before, v.t, f.(after := v.after), nums) == Success(v.answer)
  }

  /** The next request comes with the cursor of the last answer, as text, while
      the table has gone on. */
  ghost predicate GoesOn(v: Visit, w: Visit) {
    && Evolves(v.t, w.t) && v.answer.nextCursor.Some? && w.after.Some?
    && ParseCursor(v.answer.nextCursor.value) == Success(w.after.value)
  }

  ghost predicate Pages(f: Filters, visits: seq<Visit>, nums: Numbers) {
    && visits != [] && visits[0].after.None?
    && (forall i :: 0 <= i < |visits| ==> Visited(f, visits[i], nums))
    && (forall i :: 0 < i < |visits| ==> GoesOn(visits[i - 1], visits[i]))
  }

  /** What an answer holds, and where the next cursor stands. */
  lemma VisitHolds(f: Filters, v: Visit, nums: Numbers)
    requires Visited(f, v, nums)
    ensures IsPage(v.answer.rows, v.t.rows, Wanted(f.(after := v.after), nums), LimitOf(f))
    ensures v.answer.nextCursor == NextCursor(v.answer.rows, LimitOf(f))
    ensures forall r :: r in v.answer.rows ==> r in v.t.rows && Matching(f, r, nums) && BeforeCursor(v.after, r)
  {
    hide Searched, Matching, BeforeCursor;
    SearchedIsPage(v.t, f.(after := v.after), nums);
    forall r ensures Matching(f.(after := v.after), r, nums) == Matching(f, r, nums) {
      AfterIsNotMatched(f, v.after, r, nums);
    }
  }

  lemma AfterIsNotMatched(f: Filters, after: Option<Cursor>, r: Row, nums: Numbers)
    ensures Matching(f.(after := after), r, nums) == Matching(f, r, nums)
  {
    hide Keeps;
  }

  /** A full page can be followed exactly when the nanoseconds of its last row are
      not negative as 64 bits; the cursor then stands at that row exactly when they
      did not wrap. */
  lemma CursorGoesOn(f: Filters, v: Visit, nums: Numbers)
    requires Visited(f, v, nums) && v.answer.nextCursor.Some?
    ensures v.answer.rows != []
    ensures var last := LastRow(v);
            var cursor := ParseCursor(v.answer.nextCursor.value);
            && (cursor.Success? <==> UnixNano(last.timestamp) >= 0)
            && (cursor.Success? ==> cursor.value == Cursor(UnixNano(last.timestamp), last.id))
            && (cursor == Success(CursorAfter(last)) <==> TimeFits(last.timestamp))
  {
    hide IsPage, Answered, ParseCursor, CursorText, Matching, BeforeCursor, UnixNano;
    VisitHolds(f, v, nums);
    var last := LastRow(v);
    assert last in v.answer.rows;
    CursorReadsBack(CursorAfter(last));
  }

  function LastRow(v: Visit): Row
    requires v.answer.rows != []
  {
    v.answer.rows[|v.answer.rows| - 1]
  }

  /** From 1970 on, and within 64 bits of nanoseconds. */
  predicate TimeFits(timestamp: int) {
    0 <= timestamp <= MAX_INT64
  }

  /** Every page that is followed by another ends with a row whose time fits. */
  predicate CursorsStand(visits: seq<Visit>) {
    forall i :: 0 <= i < |visits| - 1 ==> visits[i].answer.rows != [] && TimeFits(LastRow(visits[i]).timestamp)
  }

  /** The next request asks for what comes after the page, and for all of it, if and
      only if the time of the page's last row fits. */
  lemma NextIsOlder(f: Filters, v: Visit, w: Visit, nums: Numbers)
    requires Visited(f, v, nums) && GoesOn(v, w)
    ensures v.answer.rows != [] && |v.answer.rows| == LimitOf(f)
    ensures (forall r :: BeforeCursor(w.after, r) <==> Newer(LastRow(v), r)) <==> TimeFits(LastRow(v).timestamp)
  {
    hide Visited, ParseCursor, CursorText, IsPage, UnixNano;
    CursorGoesOn(f, v, nums);
    VisitHolds(f, v, nums);
    var last, c := LastRow(v), w.after.value;
    if forall r :: BeforeCursor(w.after, r) <==> Newer(last, r) {
      NanosFit(last.timestamp);
      assert BeforeCursor(w.after, last.(timestamp := c.timestamp)) <==> Newer(last, last.(timestamp := c.timestamp));
      assert BeforeCursor(w.after, last) <==> Newer(last, last);
    }
  }

  /** When it does not fit, a row after the page may be passed over: one that is
      not older than the time the cursor came back as. */
  lemma WrappedCursorSkips(f: Filters, v: Visit, w: Visit, nums: Numbers, r: Row)
    requires Visited(f, v, nums) && GoesOn(v, w) && Visited(f, w, nums)
    requires Newer(LastRow(v), r) && UnixNano(LastRow(v).timestamp) < r.timestamp
    ensures r !in v.answer.rows && r !in w.answer.rows
  {
    hide Visited, ParseCursor, CursorText, IsPage, UnixNano, Matching;
    CursorGoesOn(f, v, nums);
    VisitHolds(f, w, nums);
    PageIsSorted(f, v, nums);
  }

  /** Such as a row of 2023, after a page that ends in 2603. */
  lemma FarRowHidesOthers(f: Filters, v: Visit, w: Visit, nums: Numbers, r: Row)
    requires Visited(f, v, nums) && GoesOn(v, w) && Visited(f, w, nums)
    requires v.answer.rows != [] && LastRow(v).timestamp == YEAR_2603 && r.timestamp == 1_700_000_000_000_000_000
    ensures Newer(LastRow(v), r) && r !in v.answer.rows && r !in w.answer.rows
  {
    hide Visited, GoesOn, IsPage, Matching;
    assert UnixNano(YEAR_2603) == 1_553_255_926_290_448_384;
    WrappedCursorSkips(f, v, w, nums, r);
  }

  /** Beyond a later cursor is beyond every earlier one. */
  lemma {:induction false} StillBeyond(f: Filters, visits: seq<Visit>, nums: Numbers, i: nat, j: nat, r: Row)
    requires Pages(f, visits, nums) && CursorsStand(visits) && i < j < |visits| && BeforeCursor(visits[j].after, r)
    ensures forall a :: a in visits[i].answer.rows ==> Newer(a, r)
  {
    hide Visited, GoesOn, BeforeCursor;
    var v, w := visits[j - 1], visits[j];
    NextIsOlder(f, v, w, nums);
    PageIsSorted(f, v, nums);
    VisitHolds(f, v, nums);
    var last := v.answer.rows[|v.answer.rows| - 1];
    if i < j - 1 {
      assert last in v.answer.rows;
      StillBeyond(f, visits, nums, i, j - 1, last);
    }
  }

  lemma PageIsSorted(f: Filters, v: Visit, nums: Numbers)
    requires Visited(f, v, nums)
    ensures NewestFirst(v.answer.rows)
    ensures forall a :: a in v.answer.rows && v.answer.rows != [] ==>
              a == v.answer.rows[|v.answer.rows| - 1] || Newer(a, v.answer.rows[|v.answer.rows| - 1])
  {
    hide Visited, Wanted;
    VisitHolds(f, v, nums);
  }

  /** While cursors stand, pages run on from newest to oldest, and no row comes
      twice, not even under another time. */
  lemma NoRowTwice(f: Filters, visits: seq<Visit>, nums: Numbers, i: nat, j: nat, a: Row, b: Row)
    requires Pages(f, visits, nums) && CursorsStand(visits) && i < j < |visits|
    requires a in visits[i].answer.rows && b in visits[j].answer.rows
    ensures Newer(a, b) && a.id != b.id
  {
    hide Visited, GoesOn, BeforeCursor, Wanted, IsPage;
    VisitHolds(f, visits[i], nums);
    VisitHolds(f, visits[j], nums);
    StillBeyond(f, visits, nums, i, j, b);
    AllEvolve(f, visits, nums, i, j);
    SameIdSameRow(f, visits[i], visits[j], nums, a, b);
  }

  lemma {:induction false} AllEvolve(f: Filters, visits: seq<Visit>, nums: Numbers, i: nat, j: nat)
    requires Pages(f, visits, nums) && i < j < |visits|
    ensures Evolves(visits[i].t, visits[j].t)
    decreases j
  {
    hide Visited, GoesOn, Evolves;
    GoesOnEvolves(visits[j - 1], visits[j]);
    if i + 1 < j {
      AllEvolve(f, visits, nums, i, j - 1);
      EvolvesOn(visits[i].t, visits[j - 1].t, visits[j].t);
    }
  }

  lemma GoesOnEvolves(v: Visit, w: Visit)
    requires GoesOn(v, w)
    ensures Evolves(v.t, w.t)
  {
    hide Evolves, ParseCursor;
  }

  lemma SameIdSameRow(f: Filters, v: Visit, w: Visit, nums: Numbers, a: Row, b: Row)
    requires Visited(f, v, nums) && Evolves(v.t, w.t) && a in v.t.rows && b in w.t.rows
    ensures a.id == b.id ==> a == b
  {
  }

  /** A wanted row that is not on a page is beyond the page's cursor. */
  lemma LeftForLater(f: Filters, v: Visit, nums: Numbers, r: Row)
    requires Visited(f, v, nums) && Matching(f, r, nums) && BeforeCursor(v.after, r)
    requires r in v.t.rows && r !in v.answer.rows
    ensures v.answer.nextCursor.Some?
    ensures v.answer.rows != [] && Newer(v.answer.rows[|v.answer.rows| - 1], r)
  {
    hide Visited, Matching, BeforeCursor;
    VisitHolds(f, v, nums);
    AfterIsNotMatched(f, v.after, r, nums);
  }

  /** While cursors stand, following them to the end finds every matching row that
      is there all the time, whatever is inserted or pruned meanwhile. */
  lemma EveryRowOnce(f: Filters, visits: seq<Visit>, nums: Numbers, r: Row) returns (i: nat)
    requires Pages(f, visits, nums) && CursorsStand(visits) && visits[|visits| - 1].answer.nextCursor.None?
    requires Matching(f, r, nums) && forall v :: v in visits ==> r in v.t.rows
    ensures i < |visits| && r in visits[i].answer.rows
    ensures forall j :: 0 <= j < |visits| && r in visits[j].answer.rows ==> i == j
  {
    hide Visited, GoesOn, Matching;
    i := 0;
    while r !in visits[i].answer.rows
      invariant i < |visits| && BeforeCursor(visits[i].after, r)
      decreases |visits| - i
    {
      VisitHolds(f, visits[i], nums);
      assert visits[i] in visits;
      LeftForLater(f, visits[i], nums, r);
      NextIsOlder(f, visits[i], visits[i + 1], nums);
      i := i + 1;
    }
    forall j | 0 <= j < |visits| && r in visits[j].answer.rows ensures i == j {
      if i < j {
        NoRowTwice(f, visits, nums, i, j, r, r);
      } else if j < i {
        NoRowTwice(f, visits, nums, j, i, r, r);
      }
    }
  }
}
