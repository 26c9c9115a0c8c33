/** What the table holds of one task stream after any number of connections. */
module Streams {
  import opened Numerals
  import opened Semantics
  import opened Sequences
  import opened Frames
  import opened Following
  import opened LogFiles
  import opened Table

  // ----- a stream among others

  datatype TaskStream = TaskStream(allocId: string, task: string, stream: string)

  predicate Of(s: TaskStream, r: Row) {
    r.allocId == s.allocId && r.task == s.task && r.stream == s.stream
  }

  function Mine(s: TaskStream, rows: seq<Row>): seq<Row> {
    Only(rows, (r: Row) => Of(s, r))
  }

  function Refs(rows: seq<Row>): (refs: seq<string>)
    ensures |refs| == |rows|
  {
    seq(|rows|, i requires 0 <= i < |rows| => rows[i].lineRef)
  }

  /** Lines of different streams have different references, and lines of this
      one have one. */
  predicate Separate(s: TaskStream, rows: seq<Row>) {
    && (forall a, b :: a in rows && b in rows && Clash(a, b) ==> (Of(s, a) <==> Of(s, b)))
    && (forall a :: a in rows && Of(s, a) ==> a.lineRef != "")
  }

  /** acc and then those of refs that are not there yet, each once. */
  function Merge(acc: seq<string>, refs: seq<string>): seq<string>
    decreases |refs|
  {
    if refs == [] then acc else Merge(if refs[0] in acc then acc else acc + [refs[0]], refs[1..])
  }

  lemma RefsAppend(a: seq<Row>, b: seq<Row>)
    ensures Refs(a + b) == Refs(a) + Refs(b)
  {
  }

  lemma MineAppend(s: TaskStream, a: seq<Row>, b: seq<Row>)
    ensures Mine(s, a + b) == Mine(s, a) + Mine(s, b)
  {
    OnlyAppend(a, b, (r: Row) => Of(s, r));
  }

  lemma MineOne(s: TaskStream, r: Row)
    ensures Mine(s, [r]) == if Of(s, r) then [r] else []
  {
    OnlyOne(r, (x: Row) => Of(s, x));
  }

  lemma MineMembers(s: TaskStream, rows: seq<Row>)
    ensures forall r :: r in Mine(s, rows) <==> r in rows && Of(s, r)
  {
    OnlyMembers(rows, (r: Row) => Of(s, r));
  }

  lemma InsertOne(s: TaskStream, t: Snapshot, e: Row)
    requires Separate(s, t.rows + [e])
    ensures var refs := Refs(Mine(s, t.rows));
            Refs(Mine(s, Inserted(t, e).rows)) ==
            if Of(s, e) && e.lineRef !in refs then refs + [e.lineRef] else refs
    ensures forall r :: r in Inserted(t, e).rows ==> exists x :: x in t.rows + [e] && r == x.(id := r.id)
  {
    var mine := Mine(s, t.rows);
    MineMembers(s, t.rows);
    var new_ := e.(id := t.last + 1);
    MineAppend(s, t.rows, [new_]);
    MineOne(s, new_);
    RefsAppend(mine, Mine(s, [new_]));
    if Of(s, e) {
      if e.lineRef in Refs(mine) {
        var i :| 0 <= i < |mine| && Refs(mine)[i] == e.lineRef;
        assert mine[i] in t.rows && Clash(mine[i], e);
      } else {
        forall r | r in t.rows && Clash(r, e) ensures false {
          RefOf(mine, r);
        }
      }
    } else {
      assert Refs(mine) + Refs([]) == Refs(mine);
    }
  }

  lemma RefOf(rows: seq<Row>, r: Row)
    requires r in rows
    ensures r.lineRef in Refs(rows)
  {
    var i :| 0 <= i < |rows| && rows[i] == r;
    assert Refs(rows)[i] == r.lineRef;
  }

  lemma SeparateStep(s: TaskStream, t: Snapshot, e: Row, rest: seq<Row>)
    requires Separate(s, t.rows + [e] + rest)
    ensures Separate(s, t.rows + [e]) && Separate(s, Inserted(t, e).rows + rest)
  {
    var all := t.rows + [e] + rest;
    assert forall r :: r in t.rows + [e] ==> r in all;
    var next := Inserted(t, e).rows + rest;
    assert e in all;
    forall a, b | a in next && b in next && Clash(a, b) ensures Of(s, a) <==> Of(s, b) {
      var x := SameBut(t, e, rest, a);
      var y := SameBut(t, e, rest, b);
      assert Clash(x, y);
    }
    forall a | a in next && Of(s, a) ensures a.lineRef != "" {
      var x := SameBut(t, e, rest, a);
    }
  }

  lemma SameBut(t: Snapshot, e: Row, rest: seq<Row>, r: Row) returns (x: Row)
    requires r in Inserted(t, e).rows + rest
    ensures x in t.rows + [e] + rest && r == x.(id := r.id)
  {
    x := if r in t.rows || r in rest then r else e;
  }

  /** Whatever else is inserted, a stream's references end up in the order they
      are first sent, each once. */
  lemma {:induction false} InsertMany(s: TaskStream, t: Snapshot, entries: seq<Row>)
    requires Separate(s, t.rows + entries)
    ensures Refs(Mine(s, InsertedAll(t, entries).rows)) == Merge(Refs(Mine(s, t.rows)), Refs(Mine(s, entries)))
    decreases |entries|
  {
    hide Separate, Inserted, Of;
    if entries == [] {
      assert Refs([]) == [];
    } else {
      var e, rest := entries[0], entries[1..];
      assert t.rows + entries == t.rows + [e] + rest;
      SeparateStep(s, t, e, rest);
      InsertOne(s, t, e);
      InsertMany(s, Inserted(t, e), rest);
      assert entries == [e] + rest;
      MineAppend(s, [e], rest);
      MineOne(s, e);
      RefsAppend(Mine(s, [e]), Mine(s, rest));
      var refs := Refs(Mine(s, t.rows));
      if Of(s, e) {
        assert Refs([e]) == [e.lineRef];
        MergeStep(refs, e.lineRef, Refs(Mine(s, rest)));
      } else {
        assert Refs([]) + Refs(Mine(s, rest)) == Refs(Mine(s, rest));
      }
    }
  }

  lemma MergeStep(acc: seq<string>, r: string, rest: seq<string>)
    ensures Merge(acc, [r] + rest) == Merge(if r in acc then acc else acc + [r], rest)
  {
    assert ([r] + rest)[1..] == rest;
  }

  lemma {:induction false} MergeAppend(acc: seq<string>, a: seq<string>, b: seq<string>)
    ensures Merge(acc, a + b) == Merge(Merge(acc, a), b)
    decreases |a|
  {
    if a == [] {
      assert a + b == b;
    } else {
      MergeStep(acc, a[0], a[1..] + b);
      assert a + b == [a[0]] + (a[1..] + b);
      MergeAppend(if a[0] in acc then acc else acc + [a[0]], a[1..], b);
    }
  }

  lemma {:induction false} MergeHolds(acc: seq<string>, refs: seq<string>)
    ensures acc <= Merge(acc, refs)
    ensures forall r :: r in refs ==> r in Merge(acc, refs)
    decreases |refs|
  {
    if refs != [] {
      var next := if refs[0] in acc then acc else acc + [refs[0]];
      MergeHolds(next, refs[1..]);
      assert refs[0] in next;
      assert forall r :: r in next ==> r in Merge(acc, refs);
    }
  }

  // ----- runs of a stream's lines

  /** The lines with index from `from` up to and without `end`. */
  datatype Range = Range(from: nat, end: nat)

  predicate RangesIn(all: seq<string>, ranges: seq<Range>) {
    forall i :: 0 <= i < |ranges| ==> ranges[i].from <= ranges[i].end <= |all|
  }

  function Sent(all: seq<string>, ranges: seq<Range>): seq<string>
    requires RangesIn(all, ranges)
  {
    if ranges == [] then [] else all[ranges[0].from..ranges[0].end] + Sent(all, ranges[1..])
  }

  function Further(upto: nat, r: Range): nat {
    if r.from < r.end && upto < r.end then r.end else upto
  }

  /** The first line without a place in the table, after some runs. */
  function Reach(upto: nat, ranges: seq<Range>): nat
    decreases |ranges|
  {
    if ranges == [] then upto else Reach(Further(upto, ranges[0]), ranges[1..])
  }

  /** No run that has lines starts after the first line that is not stored. */
  predicate NoGap(upto: nat, ranges: seq<Range>)
    decreases |ranges|
  {
    ranges == []
    || ((ranges[0].from < ranges[0].end ==> ranges[0].from <= upto) && NoGap(Further(upto, ranges[0]), ranges[1..]))
  }

  /** No run that has lines starts before the first line ever stored. */
  predicate NoneEarlier(first: nat, ranges: seq<Range>) {
    forall i :: 0 <= i < |ranges| && ranges[i].from < ranges[i].end ==> first <= ranges[i].from
  }

  /** Some line has a place after one that follows it in the log. */
  ghost predicate OutOfOrder(all: seq<string>, refs: seq<string>) {
    exists p, q, x, y :: 0 <= p < q < |refs| && 0 <= x < y < |all| && refs[p] == all[y] && refs[q] == all[x]
  }

  lemma MergeNothing(acc: seq<string>)
    ensures Merge(acc, []) == acc
  {
  }

  lemma InSlice(all: seq<string>, first: nat, upto: nat, i: nat)
    requires NoRepeats(all) && first <= i <= upto <= |all| && i < |all|
    ensures all[i] in all[first..upto] <==> i < upto
  {
    assert i < upto ==> all[first..upto][i - first] == all[i];
  }

  lemma {:induction false} MergeRange(all: seq<string>, first: nat, upto: nat, i: nat, j: nat)
    requires NoRepeats(all) && first <= i <= upto <= |all| && i <= j <= |all|
    ensures Merge(all[first..upto], all[i..j]) == all[first..if upto < j then j else upto]
    decreases j - i
  {
    hide Merge, NoRepeats;
    MergeNothing(all[first..upto]);
    if i < j {
      assert all[i..j] == [all[i]] + all[i + 1..j];
      MergeStep(all[first..upto], all[i], all[i + 1..j]);
      InSlice(all, first, upto, i);
      if i < upto {
        MergeRange(all, first, upto, i + 1, j);
      } else {
        assert all[first..upto] + [all[i]] == all[first..upto + 1];
        MergeRange(all, first, upto + 1, i + 1, j);
      }
    }
  }

  lemma {:induction false} MergeRanges(all: seq<string>, first: nat, upto: nat, ranges: seq<Range>)
    requires NoRepeats(all) && first <= upto <= |all| && RangesIn(all, ranges)
    requires NoGap(upto, ranges) && NoneEarlier(first, ranges)
    ensures upto <= Reach(upto, ranges) <= |all|
    ensures Merge(all[first..upto], Sent(all, ranges)) == all[first..Reach(upto, ranges)]
    decreases |ranges|
  {
    if ranges != [] {
      var r, rest := ranges[0], ranges[1..];
      MergeAppend(all[first..upto], all[r.from..r.end], Sent(all, rest));
      if r.from < r.end {
        MergeRange(all, first, upto, r.from, r.end);
      }
      MergeRanges(all, first, Further(upto, r), rest);
    }
  }

  /** A run that starts before the first line stored puts it out of order. */
  lemma EarlierMisplaces(all: seq<string>, acc: seq<string>, first: nat, ranges: seq<Range>)
    requires RangesIn(all, ranges) && !NoneEarlier(first, ranges)
    requires first < |all| && acc != [] && acc[0] == all[first] && NoRepeats(all)
    ensures OutOfOrder(all, Merge(acc, Sent(all, ranges)))
  {
    var n :| 0 <= n < |ranges| && ranges[n].from < ranges[n].end && ranges[n].from < first;
    var refs, x := Merge(acc, Sent(all, ranges)), ranges[n].from;
    SentHolds(all, ranges, n);
    MergeHolds(acc, Sent(all, ranges));
    assert all[x] in refs && refs[0] == all[first];
    var q :| 0 <= q < |refs| && refs[q] == all[x];
    assert q != 0;
  }

  lemma {:induction false} SentHolds(all: seq<string>, ranges: seq<Range>, n: nat)
    requires RangesIn(all, ranges) && n < |ranges| && ranges[n].from < ranges[n].end
    ensures all[ranges[n].from] in Sent(all, ranges)
  {
    if n == 0 {
      assert all[ranges[0].from..ranges[0].end][0] == all[ranges[0].from];
    } else {
      SentHolds(all, ranges[1..], n - 1);
    }
  }

  lemma SliceInOrder(all: seq<string>, i: nat, j: nat)
    requires NoRepeats(all) && i <= j <= |all|
    ensures !OutOfOrder(all, all[i..j])
  {
    var refs := all[i..j];
    assert forall p :: 0 <= p < |refs| ==> refs[p] == all[i + p];
    assert forall p, y :: 0 <= p < |refs| && 0 <= y < |all| && refs[p] == all[y] ==> y == i + p;
  }

  /** What is stored after some runs: one unbroken run of lines, each once and in
      order, if no later run starts before the first; else rows out of order. */
  ghost predicate Stored(all: seq<string>, ranges: seq<Range>, refs: seq<string>)
    requires ranges != []
  {
    var first, upto := ranges[0].from, Reach(ranges[0].end, ranges[1..]);
    if NoneEarlier(first, ranges[1..]) then
      first < upto <= |all| && refs == all[first..upto] && !OutOfOrder(all, refs)
    else OutOfOrder(all, refs)
  }

  /** After a first run, and others that leave no gap: either what is stored is
      one unbroken run of lines in the log's order, each once, or it is out of
      order, according to whether a later run starts before the first. */
  lemma RunsTheorem(all: seq<string>, ranges: seq<Range>)
    requires NoRepeats(all) && RangesIn(all, ranges) && ranges != [] && ranges[0].from < ranges[0].end
    requires NoGap(ranges[0].end, ranges[1..])
    ensures Stored(all, ranges, Merge([], Sent(all, ranges)))
  {
    hide OutOfOrder, NoGap, Reach;
    var r, rest := ranges[0], ranges[1..];
    assert all[r.from..r.from] == [];
    MergeRange(all, r.from, r.from, r.from, r.end);
    MergeAppend([], all[r.from..r.end], Sent(all, rest));
    if NoneEarlier(r.from, rest) {
      MergeRanges(all, r.from, r.end, rest);
      SliceInOrder(all, r.from, Reach(r.end, rest));
    } else {
      EarlierMisplaces(all, all[r.from..r.end], r.from, rest);
    }
  }

  // ----- a last run with lines missing

  lemma {:induction false} MergeNew(acc: seq<string>, refs: seq<string>)
    requires NoRepeats(acc + refs)
    ensures Merge(acc, refs) == acc + refs
    decreases |refs|
  {
    if refs == [] {
      assert acc + [] == acc;
    } else {
      assert refs[0] !in acc by {
        assert (acc + refs)[|acc|] == refs[0];
        assert forall i :: 0 <= i < |acc| ==> (acc + refs)[i] == acc[i];
      }
      assert acc + refs == acc + [refs[0]] + refs[1..];
      MergeNew(acc + [refs[0]], refs[1..]);
    }
  }

  lemma {:induction false} KeptNoRepeats(s: seq<string>, mask: seq<bool>)
    requires NoRepeats(s)
    ensures NoRepeats(Kept(s, mask)) && forall x :: x in Kept(s, mask) ==> x in s
  {
    if s != [] && mask != [] {
      KeptNoRepeats(s[1..], mask[1..]);
      var rest := Kept(s[1..], mask[1..]);
      assert s[0] !in s[1..];
      assert forall i :: 0 <= i < |rest| ==> rest[i] in rest;
    }
  }

  lemma KeptAfter(all: seq<string>, first: nat, whole: nat, end: nat, mask: seq<bool>)
    requires NoRepeats(all) && first <= whole <= end <= |all|
    ensures NoRepeats(all[first..whole] + Kept(all[whole..end], mask))
  {
    var acc, more := all[first..whole], Kept(all[whole..end], mask);
    KeptNoRepeats(all[whole..end], mask);
    forall i, j | 0 <= i < |acc| && 0 <= j < |more| ensures acc[i] != more[j] {
      assert more[j] in more;
      var k :| 0 <= k < |all[whole..end]| && all[whole..end][k] == more[j];
      assert acc[i] == all[first + i] && more[j] == all[whole + k];
    }
  }

  lemma {:induction false} MergeKept(all: seq<string>, first: nat, whole: nat, p: nat, end: nat, mask: seq<bool>)
      returns (upto: nat, left: seq<bool>)
    requires NoRepeats(all) && first <= p <= whole <= |all| && p <= end <= |all|
    ensures whole <= upto <= |all| && upto - whole <= end - p
    ensures Merge(all[first..whole], Kept(all[p..end], mask)) == all[first..whole] + Kept(all[whole..upto], left)
    decreases end - p
  {
    hide Merge;
    if p == whole {
      upto, left := end, mask;
      KeptAfter(all, first, whole, end, mask);
      MergeNew(all[first..whole], Kept(all[whole..end], mask));
    } else if p == end {
      upto, left := whole, [];
      MergeNothing(all[first..whole]);
      assert all[whole..whole] == [] && all[p..end] == [];
      assert all[first..whole] + [] == all[first..whole];
    } else {
      var rest := if mask == [] then [] else mask[1..];
      upto, left := MergeKept(all, first, whole, p + 1, end, rest);
      InSlice(all, first, whole, p);
      assert all[p..end][1..] == all[p + 1..end] && all[p..end][0] == all[p];
      KeptHead(all[p..end], mask);
      if mask == [] || mask[0] {
        MergeStep(all[first..whole], all[p], Kept(all[p + 1..end], rest));
      }
    }
  }

  lemma {:induction false} NoGapSnoc(upto: nat, ranges: seq<Range>, r: Range)
    ensures NoGap(upto, ranges + [r]) <==> NoGap(upto, ranges) && (r.from < r.end ==> r.from <= Reach(upto, ranges))
    decreases |ranges|
  {
    if ranges == [] {
      assert [] + [r] == [r] && [r][1..] == [];
      assert NoGap(Further(upto, r), []);
    } else {
      assert (ranges + [r])[1..] == ranges[1..] + [r];
      NoGapSnoc(Further(upto, ranges[0]), ranges[1..], r);
    }
  }

  /** What is stored after runs of which the last has lines missing from p on: one
      unbroken run, and then later lines of the log, in order and each once. */
  lemma RunsCutShort(all: seq<string>, front: seq<Range>, last: Range, p: nat, mask: seq<bool>)
      returns (first: nat, whole: nat, upto: nat, left: seq<bool>)
    requires NoRepeats(all) && RangesIn(all, front) && last.from <= p <= last.end <= |all|
    requires front == [] || (&& front[0].from < front[0].end && NoGap(front[0].end, front[1..] + [last])
                             && NoneEarlier(front[0].from, front[1..] + [last]))
    ensures first == if front == [] then last.from else front[0].from
    ensures first <= whole <= upto <= |all| && upto - whole <= last.end - p
    ensures Merge([], Sent(all, front) + (all[last.from..p] + Kept(all[p..last.end], mask))) ==
            all[first..whole] + Kept(all[whole..upto], left)
    ensures front != [] ==> first < whole
  {
    hide Merge, NoRepeats, OutOfOrder;
    var run, more := all[last.from..p], Kept(all[p..last.end], mask);
    MergeAppend([], Sent(all, front), run + more);
    if front == [] {
      first, whole := last.from, p;
      assert Sent(all, front) == [];
      MergeNothing([]);
      assert all[first..first] == [];
      MergeRange(all, first, first, first, p);
      MergeAppend([], run, more);
      upto, left := MergeKept(all, first, p, p, last.end, mask);
    } else {
      first := front[0].from;
      var reach := Reach(front[0].end, front[1..]);
      NoGapSnoc(front[0].end, front[1..], last);
      FrontInOrder(first, front[1..], last);
      RunsTheorem(all, front);
      if last.from == last.end {
        whole, upto, left := reach, reach, [];
        assert run + more == [] && all[reach..reach] == [];
        MergeNothing(all[first..reach]);
        assert all[first..reach] + [] == all[first..reach];
      } else {
        whole := if reach < p then p else reach;
        MergeRange(all, first, reach, last.from, p);
        MergeAppend(all[first..reach], run, more);
        upto, left := MergeKept(all, first, whole, p, last.end, mask);
      }
    }
  }

  lemma FrontInOrder(first: nat, ranges: seq<Range>, last: Range)
    requires NoneEarlier(first, ranges + [last])
    ensures NoneEarlier(first, ranges) && (last.from < last.end ==> first <= last.from)
  {
    assert (ranges + [last])[|ranges|] == last;
    assert forall i :: 0 <= i < |ranges| ==> (ranges + [last])[i] == ranges[i];
  }

  // ----- connections to one stream

  function LineRefs(lines: seq<Line>): (refs: seq<string>)
    ensures |refs| == |lines|
  {
    seq(|lines|, i requires 0 <= i < |lines| => LineRef(lines[i].file, lines[i].offset))
  }

  /** What one connection reads of the stream: from a position to another. */
  datatype Session = Session(k: nat, b: int, k2: nat, e: int, frames: seq<Frame>)

  /** Named files of a size that fits 64 bits, no two of the same name. */
  predicate GoodFiles(files: seq<File>) {
    DistinctNames(files) && forall f :: f in files ==> f.name != "" && |f.content| <= MAX_INT64
  }

  predicate GoodSession(files: seq<File>, k: nat, b: int, s: Session)
    ensures GoodSession(files, k, b, s) ==>
              GoodFiles(files) && Position(files, k, b) && Reads(files, s.k, s.b, s.k2, s.e, s.frames)
  {
    GoodFiles(files) && Position(files, k, b) && Reads(files, s.k, s.b, s.k2, s.e, s.frames) && NotAfter(s.k2, s.e, k, b)
  }

  predicate GoodSessions(files: seq<File>, k: nat, b: int, sessions: seq<Session>) {
    && GoodFiles(files) && Position(files, k, b)
    && forall i :: 0 <= i < |sessions| ==> GoodSession(files, k, b, sessions[i])
  }

  /** The lines a connection hands on, as a run of the stream's lines. */
  function RangeOf(files: seq<File>, s: Session): Range
    requires Reads(files, s.k, s.b, s.k2, s.e, s.frames)
  {
    if Emitted(s.frames) == [] then Range(0, 0)
    else Range(KeptFrom(files, s.k, s.b), |LinesUpTo(files, s.k2, s.e)|)
  }

  lemma RefsDistinct(files: seq<File>, k: nat, b: int)
    requires GoodFiles(files) && Position(files, k, b)
    ensures NoRepeats(LineRefs(LinesUpTo(files, k, b)))
  {
    hide LinesUpTo, OfFile;
    var lines := LinesUpTo(files, k, b);
    LinesApart(files, k, b);
    LinesAreWhole(files, k, b);
    forall i, j | 0 <= i < j < |lines| ensures LineRefs(lines)[i] != LineRefs(lines)[j] {
      assert lines[i] in lines && lines[j] in lines;
      LineFits(files, k, b, lines[i]);
      LineFits(files, k, b, lines[j]);
      if LineRefs(lines)[i] == LineRefs(lines)[j] {
        LineRefIsInjective(lines[i].file, lines[i].offset, lines[j].file, lines[j].offset);
      }
    }
  }

  lemma LineFits(files: seq<File>, k: nat, b: int, l: Line)
    requires GoodFiles(files) && Position(files, k, b) && exists i: nat :: OfFile(files, k, b, i, l)
    ensures l.file != "" && IsInt64(l.offset)
  {
    var i: nat :| OfFile(files, k, b, i, l);
    assert files[i] in files;
  }

  lemma SessionSends(files: seq<File>, k: nat, b: int, s: Session)
    requires GoodSession(files, k, b, s)
    ensures var all, r := LineRefs(LinesUpTo(files, k, b)), RangeOf(files, s);
            r.from <= r.end <= |all| && LineRefs(Emitted(s.frames)) == all[r.from..r.end]
    ensures RangeOf(files, s).from < RangeOf(files, s).end <==> Emitted(s.frames) != []
  {
    hide LinesUpTo, KeptFrom, Emitted, MidLine, Stretches, Merged, Contiguous, LineRef;
    var skipped := SessionTheorem(files, s.k, s.b, s.k2, s.e, s.frames);
    LinesGrow(files, s.k2, s.e, k, b);
    var all, r := LinesUpTo(files, k, b), RangeOf(files, s);
    if Emitted(s.frames) != [] {
      var upto := LinesUpTo(files, s.k2, s.e);
      assert upto[r.from..] == Emitted(s.frames);
      assert all[r.from..r.end] == Emitted(s.frames);
    }
  }

  function AllSent(sessions: seq<Session>): seq<Line> {
    if sessions == [] then [] else Emitted(sessions[0].frames) + AllSent(sessions[1..])
  }

  function Ranges(files: seq<File>, k: nat, b: int, sessions: seq<Session>): (r: seq<Range>)
    requires GoodSessions(files, k, b, sessions)
    ensures |r| == |sessions|
  {
    seq(|sessions|, i requires 0 <= i < |sessions| => RangeOf(files, sessions[i]))
  }

  lemma {:induction false} SessionsSend(files: seq<File>, k: nat, b: int, sessions: seq<Session>)
    requires GoodSessions(files, k, b, sessions)
    ensures var all, ranges := LineRefs(LinesUpTo(files, k, b)), Ranges(files, k, b, sessions);
            RangesIn(all, ranges) && LineRefs(AllSent(sessions)) == Sent(all, ranges)
  {
    hide LinesUpTo, GoodSession, GoodFiles, Emitted, RangeOf, Reads, LineRef;
    if sessions != [] {
      var s, rest := sessions[0], sessions[1..];
      SessionSends(files, k, b, s);
      SessionsSend(files, k, b, rest);
      assert Ranges(files, k, b, sessions)[1..] == Ranges(files, k, b, rest);
      var a, c := Emitted(s.frames), AllSent(rest);
      assert LineRefs(a + c) == LineRefs(a) + LineRefs(c);
    }
  }

  /** Each reconnect keeps its first line no later than the first not stored. */
  predicate Overlapping(files: seq<File>, k: nat, b: int, sessions: seq<Session>)
    requires GoodSessions(files, k, b, sessions) && sessions != []
  {
    var ranges := Ranges(files, k, b, sessions);
    NoGap(ranges[0].end, ranges[1..])
  }

  /** What is stored of the stream, by the lines its connections keep. */
  ghost predicate HoldsExactly(files: seq<File>, k: nat, b: int, sessions: seq<Session>, refs: seq<string>)
    requires GoodSessions(files, k, b, sessions) && sessions != []
  {
    && Ranges(files, k, b, sessions)[0].from == KeptFrom(files, sessions[0].k, sessions[0].b)
    && Stored(LineRefs(LinesUpTo(files, k, b)), Ranges(files, k, b, sessions), refs)
  }

  /** After any connections to a stream, among whatever other lines, batched in
      any way: if each reconnect keeps its first line no later than the first one
      not stored, then the rows of the stream are exactly its lines from the first
      ever kept to the last one read, each once and in the log's order; unless a
      reconnect keeps a line from before the first one ever kept, which puts the
      rows out of order. */
  lemma ExactlyOnce(files: seq<File>, k: nat, b: int, sessions: seq<Session>, s: TaskStream, t: Snapshot, entries: seq<Row>)
    requires GoodSessions(files, k, b, sessions) && sessions != [] && Emitted(sessions[0].frames) != []
    requires Separate(s, t.rows + entries) && Mine(s, t.rows) == []
    requires Refs(Mine(s, entries)) == LineRefs(AllSent(sessions))
    requires Overlapping(files, k, b, sessions)
    ensures HoldsExactly(files, k, b, sessions, Refs(Mine(s, InsertedAll(t, entries).rows)))
  {
    hide LinesUpTo, KeptFrom, GoodSession, Reads, Emitted, Separate, NoGap, Merge, InsertedAll, Of, Stored, GoodFiles, RangeOf;
    InsertMany(s, t, entries);
    assert Refs(Mine(s, t.rows)) == [];
    SessionsSend(files, k, b, sessions);
    FirstSends(files, k, b, sessions[0]);
    RefsDistinct(files, k, b);
    RunsTheorem(LineRefs(LinesUpTo(files, k, b)), Ranges(files, k, b, sessions));
  }

  lemma FirstSends(files: seq<File>, k: nat, b: int, s: Session)
    requires GoodSession(files, k, b, s) && Emitted(s.frames) != []
    ensures GoodFiles(files) && RangeOf(files, s).from == KeptFrom(files, s.k, s.b) < RangeOf(files, s).end
  {
    hide LinesUpTo, KeptFrom, Reads, Emitted;
    SessionSends(files, k, b, s);
  }
}
