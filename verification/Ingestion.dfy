/** From a stream's connections, through the writer and the table, to the rows
    shown around one. */
module Ingestion {
  import opened Wrappers
  import opened Numerals
  import opened Semantics
  import opened Sequences
  import opened Frames
  import opened Following
  import opened LogFiles
  import opened Table
  import opened Streams
  import opened Reconnect
  import opened Overlap
  import opened Writer

  // ----- what a follower sends

  /** Each connection made reads what the session of the same number says. */
  ghost predicate ReadBy(made: seq<Connection>, sessions: seq<Session>) {
    && |made| == |sessions|
    && (forall i :: 0 <= i < |made| ==> Accepted(made[i].events, false) == sessions[i].frames)
  }

  /** All connections that a follower makes but the last drop and are followed by
      another, and the last is not. */
  lemma {:induction false} MadeGoOn(connections: seq<Connection>)
    ensures Made(connections) <= connections && (connections != [] ==> Made(connections) != [])
    ensures forall i :: 0 <= i < |Made(connections)| - 1 ==> GoesOn(Made(connections)[i])
    ensures var n := |Made(connections)|; n < |connections| ==> !GoesOn(connections[n - 1])
  {
    hide GoesOn;
    if connections != [] {
      MadeGoOn(connections[1..]);
    }
  }

  lemma {:induction false} SentByAll(made: seq<Connection>, sessions: seq<Session>)
    requires ReadBy(made, sessions) && made != [] && forall i :: 0 <= i < |made| - 1 ==> GoesOn(made[i])
    ensures var n := |made| - 1;
            LinesSent(made) == AllSent(sessions[..n]) + SentOn(made[n])
  {
    hide Accepted, Emitted, GoesOn, CancelSeen, BeforeLast, Kept;
    var n := |made| - 1;
    if n == 0 {
      assert made[1..] == [] && sessions[..0] == [];
      assert SentOn(made[0]) + [] == SentOn(made[0]);
      assert [] + SentOn(made[0]) == SentOn(made[0]);
    } else {
      SentByAll(made[1..], sessions[1..]);
      CancelledIsLast(made[0]);
      assert sessions[..n][1..] == sessions[1..][..n - 1];
      assert SentOn(made[0]) == Emitted(sessions[0].frames);
    }
  }

  lemma {:induction false} RefsKept(lines: seq<Line>, mask: seq<bool>)
    ensures LineRefs(Kept(lines, mask)) == Kept(LineRefs(lines), mask)
  {
    hide LineRef;
    if lines != [] && mask != [] {
      RefsKept(lines[1..], mask[1..]);
      assert LineRefs(lines)[1..] == LineRefs(lines[1..]);
      RefsConcat(if mask[0] then [lines[0]] else [], Kept(lines[1..], mask[1..]));
    }
  }

  lemma RefsConcat(a: seq<Line>, c: seq<Line>)
    ensures LineRefs(a + c) == LineRefs(a) + LineRefs(c)
  {
  }

  /** The lines of the last frame that is accepted. */
  function LastFrameLines(s: Session): nat {
    |Emitted(s.frames)| - BeforeLast(s.frames)
  }

  /** The last connection sends its run of lines, with lines of the last frame
      missing if it is cancelled. */
  lemma LastSends(files: seq<File>, k: nat, b: int, c: Connection, s: Session) returns (p: nat, mask: seq<bool>)
    requires GoodSession(files, k, b, s) && Accepted(c.events, false) == s.frames
    ensures var all, r := LineRefs(LinesUpTo(files, k, b)), RangeOf(files, s);
            && r.from <= p <= r.end <= |all| && r.end - p <= LastFrameLines(s)
            && (!CancelSeen(c.events) ==> p == r.end)
            && LineRefs(SentOn(c)) == all[r.from..p] + Kept(all[p..r.end], mask)
  {
    hide Accepted, Emitted, LinesUpTo, RangeOf, GoodSession, BeforeLast, LineRef, Reads;
    SessionSends(files, k, b, s);
    var all, r, lines := LineRefs(LinesUpTo(files, k, b)), RangeOf(files, s), Emitted(s.frames);
    assert |lines| == |LineRefs(lines)| == r.end - r.from;
    if CancelSeen(c.events) {
      var n := BeforeLast(s.frames);
      p, mask := r.from + n, c.sends;
      RefsConcat(lines[..n], Kept(lines[n..], mask));
      RefsKept(lines[n..], mask);
      assert LineRefs(lines[..n]) == LineRefs(lines)[..n] == all[r.from..p];
      assert LineRefs(lines[n..]) == LineRefs(lines)[n..] == all[p..r.end];
    } else {
      p, mask := r.end, [];
      assert all[p..r.end] == [];
      assert all[r.from..p] + [] == all[r.from..p];
    }
  }

  // ----- what is stored

  /** What is required of a stream's connections: they are made one after another
      by the follower, each starting as far before the log's end as it asks; every
      reconnect leaves no gap and is in step with the first connection. */
  ghost predicate WellFollowed(files: seq<File>, k: nat, b: int, connections: seq<Connection>, sessions: seq<Session>,
                               sizes: seq<int>, backfill: int)
    ensures WellFollowed(files, k, b, connections, sessions, sizes, backfill) ==>
              Position(files, k, b) && sessions != [] && |Made(connections)| == |sessions|
  {
    && GoodSessions(files, k, b, sessions) && sessions != [] && Emitted(sessions[0].frames) != []
    && ReadBy(Made(connections), sessions)
    && Starts(files, sessions, sizes, AskedFor(backfill, |sessions|))
    && Overlapping(files, k, b, sessions)
    && forall i :: 1 <= i < |sessions| && Emitted(sessions[i].frames) != [] ==>
         InStep(files, k, b, sessions[0], sessions[i])
  }

  /** Reconnects in time leave no gap, for every backfill. */
  lemma InTimeIsWellFollowed(files: seq<File>, k: nat, b: int, connections: seq<Connection>, sessions: seq<Session>,
                             sizes: seq<int>, backfill: int)
    requires GoodSessions(files, k, b, sessions) && sessions != [] && Emitted(sessions[0].frames) != []
    requires ReadBy(Made(connections), sessions) && 0 <= backfill
    requires Starts(files, sessions, sizes, AskedFor(backfill, |sessions|)) && AllInTime(files, k, b, sessions, sizes)
    requires forall i :: 1 <= i < |sessions| && Emitted(sessions[i].frames) != [] ==>
               InStep(files, k, b, sessions[0], sessions[i])
    ensures WellFollowed(files, k, b, connections, sessions, sizes, backfill)
  {
    hide InStep, Emitted, Starts, AllInTime, Overlapping, ReadBy, AskedFor, GoodSession;
    InTimeLeavesNoGap(files, k, b, sessions, sizes, backfill);
  }

  /** An unbroken run of the log's lines, and then perhaps later ones, in order and
      each once. */
  datatype StoredRun = StoredRun(first: nat, whole: nat, upto: nat, left: seq<bool>)

  predicate IsStoredRun(all: seq<string>, st: StoredRun, refs: seq<string>) {
    && st.first <= st.whole <= st.upto <= |all|
    && refs == all[st.first..st.whole] + Kept(all[st.whole..st.upto], st.left)
  }

  /** With enough backfill a well followed stream is stored in the log's order, each
      line once and without a gap; but for lines of the very last frame, if its
      follower is cancelled there. */
  lemma StoredInOrder(files: seq<File>, k: nat, b: int, connections: seq<Connection>, sessions: seq<Session>,
                      sizes: seq<int>, backfill: int, s: TaskStream, t: Snapshot, entries: seq<Row>)
      returns (st: StoredRun)
    requires WellFollowed(files, k, b, connections, sessions, sizes, backfill) && backfill >= MIN_RECONNECT_OVERLAP
    requires Separate(s, t.rows + entries) && Mine(s, t.rows) == []
    requires Refs(Mine(s, entries)) == LineRefs(LinesSent(Made(connections)))
    ensures IsStoredRun(LineRefs(LinesUpTo(files, k, b)), st, Refs(Mine(s, InsertedAll(t, entries).rows)))
    ensures st.first == KeptFrom(files, sessions[0].k, sessions[0].b)
    ensures st.upto - st.whole <= LastFrameLines(sessions[|sessions| - 1])
    ensures !CancelSeen(Made(connections)[|sessions| - 1].events) ==> st.whole == st.upto
  {
    hide LinesUpTo, KeptFrom, Emitted, Starts, InStep, Separate, Mine, GoodSession, Reads, InsertedAll, BeforeLast, SentOn,
         CancelSeen, Accepted, GoesOn, Made, RangeOf, Merge, GoodFiles, LineRef, Kept, NoneEarlier, NoGap;
    var made := Made(connections);
    var n, all, ranges := |made| - 1, LineRefs(LinesUpTo(files, k, b)), Ranges(files, k, b, sessions);
    var front, last := ranges[..n], ranges[n];
    FirstSends(files, k, b, sessions[0]);
    EnoughBackfillKeepsOrder(files, k, b, sessions, sizes, backfill);
    MadeGoOn(connections);
    SentByAll(made, sessions);
    FrontSends(files, k, b, sessions, n);
    var p, mask := LastSends(files, k, b, made[n], sessions[n]);
    RefsConcat(AllSent(sessions[..n]), SentOn(made[n]));
    InsertMany(s, t, entries);
    assert Refs(Mine(s, t.rows)) == [];
    RefsDistinct(files, k, b);
    if n > 0 {
      assert ranges[1..] == front[1..] + [last];
    }
    var first, whole, upto, left := RunsCutShort(all, front, last, p, mask);
    st := StoredRun(first, whole, upto, left);
  }

  lemma FrontSends(files: seq<File>, k: nat, b: int, sessions: seq<Session>, n: nat)
    requires GoodSessions(files, k, b, sessions) && n <= |sessions|
    ensures var all, front := LineRefs(LinesUpTo(files, k, b)), Ranges(files, k, b, sessions)[..n];
            RangesIn(all, front) && LineRefs(AllSent(sessions[..n])) == Sent(all, front)
  {
    hide LinesUpTo, RangeOf, GoodSession;
    SessionsSend(files, k, b, sessions[..n]);
    assert Ranges(files, k, b, sessions[..n]) == Ranges(files, k, b, sessions)[..n];
  }

  // ----- what is shown

  /** From end to end: when the writer has stopped, the rows shown around any row of
      a well followed stream are in the log's order; and they are consecutive lines
      of it, but for lines of the very last frame before a cancellation. */
  lemma AroundShowsTheLog(files: seq<File>, k: nat, b: int, connections: seq<Connection>, sessions: seq<Session>,
                          sizes: seq<int>, backfill: int, s: TaskStream, t: Snapshot, actions: seq<Action>,
                          row: Row, n: nat)
      returns (st: StoredRun, i: nat, j: nat)
    requires WellFollowed(files, k, b, connections, sessions, sizes, backfill) && backfill >= MIN_RECONNECT_OVERLAP
    requires Behaves(START, actions) && Final(START, actions).stopReturned && Consistent(t)
    requires Separate(s, t.rows + Final(START, actions).sent) && Mine(s, t.rows) == []
    requires Refs(Mine(s, Final(START, actions).sent)) == LineRefs(LinesSent(Made(connections)))
    requires row in InsertedBatches(t, Final(START, actions).writer.handed).rows && Of(s, row)
    ensures st.upto - st.whole <= LastFrameLines(sessions[|sessions| - 1])
    ensures !CancelSeen(Made(connections)[|sessions| - 1].events) ==> st.whole == st.upto
    ensures var all, rows := LineRefs(LinesUpTo(files, k, b)), InsertedBatches(t, Final(START, actions).writer.handed).rows;
            var shown := Refs(Around(rows, row.id, n));
            && IsStoredRun(all, st, Refs(Mine(s, rows))) && i <= j <= |Refs(Mine(s, rows))|
            && shown == Refs(Mine(s, rows))[i..j]
            && (j <= st.whole - st.first ==> shown == all[st.first + i..st.first + j])
  {
    hide LinesUpTo, WellFollowed, Behaves, Final, InsertedAll, InsertedBatches, Mine, Around, Separate, RowWithId,
         Consistent, Kept, CancelSeen, BeforeLast, Emitted, LastFrameLines, Made;
    var sent := Final(START, actions).sent;
    StopStoresEverything(t, actions);
    st := StoredInOrder(files, k, b, connections, sessions, sizes, backfill, s, t, sent);
    var u := InsertedAll(t, sent);
    InsertAllKeeps(t, sent);
    TheRow(u, row);
    assert StreamOf(row) == s;
    var refs := Refs(Mine(s, u.rows));
    assert refs[0..|refs|] == refs;
    i, j := AroundIsLogOrder(u, row.id, n, refs, 0, |refs|);
    if j <= st.whole - st.first {
      PrefixSlice(LineRefs(LinesUpTo(files, k, b)), st, refs, i, j);
    }
  }

  lemma PrefixSlice(all: seq<string>, st: StoredRun, refs: seq<string>, i: nat, j: nat)
    requires IsStoredRun(all, st, refs) && i <= j <= st.whole - st.first
    ensures j <= |refs| && refs[i..j] == all[st.first + i..st.first + j]
  {
    hide Kept;
    var run := all[st.first..st.whole];
    assert forall m :: 0 <= m < |run| ==> refs[m] == run[m] == all[st.first + m];
  }

  lemma TheRow(t: Snapshot, row: Row)
    requires Consistent(t) && row in t.rows
    ensures RowWithId(t.rows, row.id) == Some(row)
  {
    hide Clash;
    assert RowWithId(t.rows, row.id).Some?;
    var found := RowWithId(t.rows, row.id).value;
    var i :| 0 <= i < |t.rows| && t.rows[i] == row;
    var j :| 0 <= j < |t.rows| && t.rows[j] == found;
  }
}
