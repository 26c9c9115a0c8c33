/** Reconnecting soon enough to miss no line. */
module Overlap {
  import opened Semantics
  import opened Frames
  import opened Following
  import opened LogFiles
  import opened Table
  import opened Streams
  import opened Reconnect

  /** The byte of the whole log that a line starts at. */
  function ByteOf(files: seq<File>, l: Line): int {
    if files == [] then 0
    else if files[0].name == l.file then l.offset
    else |files[0].content| + ByteOf(files[1..], l)
  }

  lemma {:induction false} SizeFrom(files: seq<File>, k: nat)
    requires 0 < k <= |files|
    ensures SizeBefore(files, k) == |files[0].content| + SizeBefore(files[1..], k - 1)
  {
    if k > 1 {
      SizeFrom(files, k - 1);
    }
  }

  lemma {:induction false} ByteIsGlobal(files: seq<File>, i: nat, l: Line)
    requires DistinctNames(files) && i < |files| && files[i].name == l.file && Position(files, i, l.offset)
    ensures ByteOf(files, l) == Global(files, i, l.offset)
  {
    if i > 0 {
      ByteIsGlobal(files[1..], i - 1, l);
      SizeFrom(files, i);
    }
  }

  // ----- how many lines have ended where a connection starts

  lemma {:induction false} EndedMeans(lines: seq<Line>, b: int, w: nat)
    requires w < Ended(lines, b)
    ensures w < |lines| && EndOf(lines[w]) <= b
  {
    if w > 0 {
      EndedMeans(lines[1..], b, w - 1);
    }
  }

  /** Of two readings from the start of a stream, one is a prefix of the other. */
  lemma LinesAgree(files: seq<File>, k: nat, b: int, k2: nat, v: nat)
    requires Position(files, k, b) && k2 <= k
    requires v < |LinesUpTo(files, k, b)| && v < |ClosedLines(files, k2) + Lines(files[k2])|
    ensures LinesUpTo(files, k, b)[v] == (ClosedLines(files, k2) + Lines(files[k2]))[v]
  {
    hide Cut, Lines;
    if k2 < k {
      hide LinesUpTo;
      ClosedGrow(files, k2, k);
      ClosedFirst(files, k, b);
    } else {
      SameFileAgree(files[k], b);
      var head := Cut(files[k].name, 0, files[k].content[..b]).lines;
      assert (ClosedLines(files, k) + Lines(files[k]))[..|ClosedLines(files, k) + head|] == ClosedLines(files, k) + head;
    }
  }

  lemma ClosedFirst(files: seq<File>, k: nat, b: int)
    requires Position(files, k, b)
    ensures ClosedLines(files, k) <= LinesUpTo(files, k, b)
  {
    hide Cut, ClosedLines;
  }

  lemma SameFileAgree(file: File, b: int)
    requires 0 <= b <= |file.content|
    ensures Cut(file.name, 0, file.content[..b]).lines <= Lines(file)
  {
    hide Cut, Run;
    PartRun(file, b, |file.content|);
    assert file.content[..|file.content|] == file.content;
  }

  /** Before a place that is not after a line's start, at most the lines before that
      line have ended. */
  lemma FewerEnded(files: seq<File>, k: nat, b: int, v: nat, i: nat, k2: nat, e: int)
    requires DistinctNames(files) && Position(files, k, b) && Position(files, k2, e) && k2 <= k
    requires v < |LinesUpTo(files, k, b)| && i < |files| && LinesUpTo(files, k, b)[v].file == files[i].name
    requires NotAfter(k2, e, i, LinesUpTo(files, k, b)[v].offset)
    ensures EndedBy(files, k2, e) <= v
  {
    hide Lines, LinesUpTo, Ended, ClosedLines, NotAfter;
    if v < EndedBy(files, k2, e) {
      LinesAgree(files, k, b, k2, v);
      EndedEarlier(files, k2, e, v, i, LinesUpTo(files, k, b)[v]);
    }
  }

  lemma EndedEarlier(files: seq<File>, k: nat, b: int, v: nat, i: nat, l: Line)
    requires DistinctNames(files) && Position(files, k, b) && i < |files| && l.file == files[i].name
    requires v < EndedBy(files, k, b) && l == (ClosedLines(files, k) + Lines(files[k]))[v]
    ensures !NotAfter(k, b, i, l.offset)
  {
    hide Lines, Ended, WholeLine, ClosedLines;
    var closed, lines := ClosedLines(files, k), Lines(files[k]);
    if v < |closed| {
      ClosedAreWhole(files, k);
      assert l in closed;
      var j :| 0 <= j < k && l.file == files[j].name;
      assert i == j;
    } else {
      EndedMeans(lines, b, v - |closed|);
      LinesExact(files[k]);
      assert l in lines;
      HasText(files[k].content, l);
      assert i == k;
    }
  }

  lemma HasText(content: Bytes, l: Line)
    requires WholeLine(content, l)
    ensures 0 <= l.offset < EndOf(l) <= |content|
  {
  }

  // ----- reconnecting in time

  /** Reconnection i finds the log so soon that at most 64 KiB lie between the start
      of a line and the log's end. */
  predicate InTime(files: seq<File>, sizes: seq<int>, i: nat, l: Line) {
    i < |sizes| && sizes[i] - ByteOf(files, l) <= 0x10000
  }

  /** A reconnection that is in time for a line starts no later than the line does,
      for every backfill: it leaves out at most that line, and it keeps it exactly
      if it does not start inside a file or some line before ends after its start. */
  lemma StartsEarlyEnough(files: seq<File>, k: nat, b: int, sessions: seq<Session>, sizes: seq<int>, backfill: int,
                          i: nat, v: nat)
    requires GoodSessions(files, k, b, sessions) && 0 <= backfill
    requires Starts(files, sessions, sizes, AskedFor(backfill, |sessions|)) && 0 < i < |sessions|
    requires v < |LinesUpTo(files, k, b)| && InTime(files, sizes, i, LinesUpTo(files, k, b)[v])
    ensures Global(files, sessions[i].k, sessions[i].b) <= ByteOf(files, LinesUpTo(files, k, b)[v])
    ensures KeptFrom(files, sessions[i].k, sessions[i].b) <= v + 1
    ensures KeptFrom(files, sessions[i].k, sessions[i].b) <= v <==>
            !InsideFile(files, sessions[i].k, sessions[i].b) || EndedBy(files, sessions[i].k, sessions[i].b) < v
  {
    hide LinesUpTo, Reads, EndedBy, AskedFor, ByteOf, Global, OfFile;
    var s, l := sessions[i], LinesUpTo(files, k, b)[v];
    AskedEnough(backfill, |sessions|, i);
    LinesAreWhole(files, k, b);
    assert l in LinesUpTo(files, k, b);
    var f := FileOf(files, k, b, l);
    ByteIsGlobal(files, f, l);
    NotBelowZero(files, f, l.offset);
    ReadInside(files, k, b, s);
    GlobalOrder(files, s.k, s.b, f, l.offset);
    FewerEnded(files, k, b, v, f, s.k, s.b);
  }

  lemma NotBelowZero(files: seq<File>, k: nat, b: int)
    requires Position(files, k, b)
    ensures Global(files, k, b) >= 0
  {
    SizeGrows(files, 0, k);
  }

  lemma FileOf(files: seq<File>, k: nat, b: int, l: Line) returns (f: nat)
    requires Position(files, k, b) && exists i: nat :: OfFile(files, k, b, i, l)
    ensures f < |files| && l.file == files[f].name && Proper(files, f, l.offset) && 0 <= l.offset
  {
    f :| OfFile(files, k, b, f, l);
    HasText(files[f].content, l);
  }

  lemma ReadInside(files: seq<File>, k: nat, b: int, s: Session)
    requires GoodSession(files, k, b, s)
    ensures s.k <= k && Position(files, s.k, s.b)
  {
  }

  /** Every reconnection is in time for the last line that is stored by then. */
  ghost predicate AllInTime(files: seq<File>, k: nat, b: int, sessions: seq<Session>, sizes: seq<int>)
    requires GoodSessions(files, k, b, sessions) && sessions != []
  {
    var ranges, lines := Ranges(files, k, b, sessions), LinesUpTo(files, k, b);
    forall i :: 1 <= i < |sessions| ==>
      var stored := Reach(ranges[0].end, ranges[1..i]);
      0 < stored <= |lines| && InTime(files, sizes, i, lines[stored - 1])
  }

  lemma {:induction false} NoGapByIndex(upto: nat, ranges: seq<Range>)
    requires forall i :: 0 <= i < |ranges| && ranges[i].from < ranges[i].end ==> ranges[i].from <= Reach(upto, ranges[..i])
    ensures NoGap(upto, ranges)
  {
    hide NoGap, Reach;
    var n := |ranges|;
    if n > 0 {
      var front, last := ranges[..n - 1], ranges[n - 1];
      assert forall i :: 0 <= i < n - 1 ==> front[i] == ranges[i] && front[..i] == ranges[..i];
      NoGapByIndex(upto, front);
      NoGapSnoc(upto, front, last);
      assert front + [last] == ranges;
    } else {
      NothingHasNoGap(upto, ranges);
    }
  }

  lemma NothingHasNoGap(upto: nat, ranges: seq<Range>)
    requires ranges == []
    ensures NoGap(upto, ranges)
  {
  }

  /** Reconnections in time leave no gap, for every backfill, none included. */
  lemma InTimeLeavesNoGap(files: seq<File>, k: nat, b: int, sessions: seq<Session>, sizes: seq<int>, backfill: int)
    requires GoodSessions(files, k, b, sessions) && sessions != [] && 0 <= backfill
    requires Starts(files, sessions, sizes, AskedFor(backfill, |sessions|))
    requires AllInTime(files, k, b, sessions, sizes)
    ensures Overlapping(files, k, b, sessions)
  {
    hide LinesUpTo, Reads, KeptFrom, InTime, Starts, NoGap, Reach, GoodFiles, Emitted, EndedBy;
    var ranges := Ranges(files, k, b, sessions);
    var rest := ranges[1..];
    forall j | 0 <= j < |rest| && rest[j].from < rest[j].end ensures rest[j].from <= Reach(ranges[0].end, rest[..j]) {
      var i := j + 1;
      assert rest[..j] == ranges[1..i] && rest[j] == RangeOf(files, sessions[i]);
      var stored := Reach(ranges[0].end, ranges[1..i]);
      StartsEarlyEnough(files, k, b, sessions, sizes, backfill, i, stored - 1);
    }
    NoGapByIndex(ranges[0].end, rest);
  }

  /** So a stream whose reconnections are all in time is stored exactly, for every
      backfill. */
  lemma InTimeStoresExactly(files: seq<File>, k: nat, b: int, sessions: seq<Session>, sizes: seq<int>, backfill: int,
                            s: TaskStream, t: Snapshot, entries: seq<Row>)
    requires GoodSessions(files, k, b, sessions) && sessions != [] && Emitted(sessions[0].frames) != []
    requires 0 <= backfill && Starts(files, sessions, sizes, AskedFor(backfill, |sessions|))
    requires AllInTime(files, k, b, sessions, sizes)
    requires Separate(s, t.rows + entries) && Mine(s, t.rows) == []
    requires Refs(Mine(s, entries)) == LineRefs(AllSent(sessions))
    ensures HoldsExactly(files, k, b, sessions, Refs(Mine(s, InsertedAll(t, entries).rows)))
  {
    hide LinesUpTo, KeptFrom, GoodSession, Reads, Emitted, Separate, Overlapping, HoldsExactly, InsertedAll, Of, Starts,
         AllInTime, Mine, Refs, LineRefs, AllSent, AskedFor;
    InTimeLeavesNoGap(files, k, b, sessions, sizes, backfill);
    ExactlyOnce(files, k, b, sessions, s, t, entries);
  }
}
