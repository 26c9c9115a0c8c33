/** Following a task across reconnects, and reading back around a row. */
module Reconnect {
  import opened Wrappers
  import opened Numerals
  import opened Semantics
  import opened Sequences
  import opened Frames
  import opened Following
  import opened LogFiles
  import opened Table
  import opened Streams

  const MIN_RECONNECT_OVERLAP: int := 0x10000

  /** One connection: what happens on it; which of the last frame's lines find the
      writer first when the context is cancelled meanwhile; and whether the pause
      after it ends before the context is cancelled. */
  datatype Connection = Connection(events: seq<Event>, sends: seq<bool>, resumes: bool)

  function Max(a: int, b: int): int {
    if a < b then b else a
  }

  /** Whether another connection follows one that dropped. */
  predicate GoesOn(c: Connection) {
    var outcome := OutcomeOf(c.events, false);
    outcome.Some? && !outcome.value.ContextDone? && c.resumes
  }

  /** Another one follows exactly if the first thing on the connection that is no
      frame ends it, and the pause after it is not cut short. */
  lemma GoesOnMeans(c: Connection, n: nat)
    requires n <= |c.events| && forall i :: 0 <= i < n ==> c.events[i].Arrives?
    requires n < |c.events| ==> !c.events[n].Arrives?
    ensures GoesOn(c) <==> n < |c.events| && (c.events[n].Ends? || c.events[n].Fails?) && c.resumes
  {
    FollowingExact(c.events, n);
  }

  /** The connections that are really made. */
  function Made(connections: seq<Connection>): seq<Connection> {
    if connections == [] then []
    else if GoesOn(connections[0]) then [connections[0]] + Made(connections[1..])
    else [connections[0]]
  }

  /** The lines of one connection that are sent. Once the context is cancelled the
      rest of the last frame's lines may each be sent or dropped. */
  function SentOn(c: Connection): seq<Line> {
    var frames := Accepted(c.events, false);
    var lines, n := Emitted(frames), BeforeLast(frames);
    if CancelSeen(c.events) then lines[..n] + Kept(lines[n..], c.sends) else lines
  }

  function LinesSent(connections: seq<Connection>): seq<Line> {
    if connections == [] then [] else SentOn(connections[0]) + LinesSent(connections[1..])
  }

  /** Nothing follows a connection that is cancelled. */
  lemma CancelledIsLast(c: Connection)
    ensures CancelSeen(c.events) ==> !GoesOn(c)
  {
    CancelledEnds(c.events, false);
  }

  lemma {:induction false} CancelledEnds(events: seq<Event>, cancelled: bool)
    ensures cancelled || CancelSeen(events) ==>
              OutcomeOf(events, cancelled).None? || OutcomeOf(events, cancelled).value.ContextDone?
  {
    if events != [] {
      CancelledEnds(events[1..], cancelled || events[0].Cancels?);
    }
  }

  /** Sends lines to the writer; from an index on the context may be done. */
  method SendLines(lines: seq<Line>, sure: nat, sends: seq<bool>) returns (sent: seq<Line>)
    requires sure <= |lines|
    ensures sent == lines[..sure] + Kept(lines[sure..], sends)
  {
    hide Kept;
    sent := [];
    for i := 0 to sure
      invariant sent == lines[..i]
    {
      sent := sent + [lines[i]];
    }
    assert lines[sure..|lines|] == lines[sure..];
    var mask := sends;
    for i := sure to |lines|
      invariant lines[..sure] + Kept(lines[sure..], sends) == sent + Kept(lines[i..], mask)
    {
      assert lines[i..][0] == lines[i] && lines[i..][1..] == lines[i + 1..];
      KeptHead(lines[i..], mask);
      if mask == [] || mask[0] {
        sent := sent + [lines[i]];
      }
      mask := if mask == [] then [] else mask[1..];
    }
    assert lines[|lines|..] == [] && |Kept<Line>([], mask)| <= 0;
  }

  lemma {:induction false} LinesSentSnoc(cs: seq<Connection>, c: Connection)
    ensures LinesSent(cs + [c]) == LinesSent(cs) + SentOn(c)
  {
    hide SentOn;
    if cs == [] {
      assert cs + [c] == [c] && [c][1..] == [];
    } else {
      LinesSentSnoc(cs[1..], c);
      assert (cs + [c])[1..] == cs[1..] + [c];
    }
  }

  lemma NoLines()
    ensures LinesSent([]) == []
  {
  }

  lemma MadeStep(connections: seq<Connection>, k: nat)
    requires k <= |connections|
    ensures k == |connections| ==> Made(connections[k..]) == []
    ensures k < |connections| ==>
              Made(connections[k..]) == [connections[k]] + if GoesOn(connections[k]) then Made(connections[k + 1..]) else []
    ensures k < |connections| ==>
              (GoesOn(connections[k]) <==>
                 var outcome := OutcomeOf(connections[k].events, false);
                 outcome.Some? && !outcome.value.ContextDone? && connections[k].resumes)
  {
    hide OutcomeOf;
    if k < |connections| {
      assert connections[k..][1..] == connections[k + 1..];
    }
  }

  /** How many bytes before the log's end each connection is asked to start. */
  function AskedFor(backfill: int, n: nat): (r: seq<int>)
    ensures |r| == n
  {
    seq(n, i requires 0 <= i < n => if i == 0 then backfill else Max(backfill, MIN_RECONNECT_OVERLAP))
  }

  /** Only the first connection may ask for less than the overlap, and no reconnect
      asks for more than it needs. */
  lemma AskedEnough(backfill: int, n: nat, i: nat)
    requires i < n
    ensures i == 0 ==> AskedFor(backfill, n)[i] == backfill
    ensures i > 0 ==> AskedFor(backfill, n)[i] >= backfill && AskedFor(backfill, n)[i] >= 0x10000
    ensures AskedFor(backfill, n)[i] == backfill || AskedFor(backfill, n)[i] == 0x10000
  {
    assert AskedFor(backfill, n)[i] == if i == 0 then backfill else Max(backfill, MIN_RECONNECT_OVERLAP);
  }

  /** Follows one target until its context is cancelled. Each connection is asked
      to start a number of bytes before the log's end. */
  method FollowTarget(backfill: int, connections: seq<Connection>) returns (asked: seq<int>, sent: seq<Line>)
    ensures asked == AskedFor(backfill, |Made(connections)|)
    ensures asked != [] ==> asked[0] == backfill
    ensures forall i :: 0 < i < |asked| ==> asked[i] >= backfill && asked[i] >= 0x10000
    ensures sent == LinesSent(Made(connections))
  {
    hide Emitted, Accepted, OutcomeOf, Made, LinesSent, GoesOn, CancelSeen, BeforeLast, Kept;
    asked, sent := [], [];
    NoLines();
    var backBytes := backfill;
    ghost var made: seq<Connection> := [];
    assert connections[0..] == connections;
    for k := 0 to |connections|
      invariant Made(connections) == made + Made(connections[k..])
      invariant |asked| == |made| && sent == LinesSent(made)
      invariant backBytes == if asked == [] then backfill else Max(backfill, MIN_RECONNECT_OVERLAP)
      invariant forall i :: 0 <= i < |asked| ==>
                  asked[i] == if i == 0 then backfill else Max(backfill, MIN_RECONNECT_OVERLAP)
    {
      var c := connections[k];
      MadeStep(connections, k);
      asked := asked + [backBytes];
      var emitted, beforeLast, cancelled, outcome := Follow(c.events);
      if cancelled {
        emitted := SendLines(emitted, beforeLast, c.sends);
      }
      sent := sent + emitted;
      LinesSentSnoc(made, c);
      assert made + ([c] + []) == made + [c];
      assert made + ([c] + Made(connections[k + 1..])) == (made + [c]) + Made(connections[k + 1..]);
      made := made + [c];
      if outcome.None? || outcome.value.ContextDone? {
        return;
      }
      backBytes := Max(backfill, MIN_RECONNECT_OVERLAP);
      if !c.resumes {
        return;
      }
    }
    MadeStep(connections, |connections|);
    assert made + [] == made;
  }

  // ----- where connections start

  /** The byte a connection starts at in a log of some size. */
  function StartAt(size: int, backBytes: int): int {
    Max(0, size - backBytes)
  }

  /** As the log grows no reconnect starts before the first connection did, if and
      only if the backfill is at least the reconnect overlap. */
  lemma BackfillDecides(backfill: int, n: nat, i: nat)
    requires backfill >= 0 && 0 < i < n
    ensures backfill >= 0x10000 <==>
            forall size, later :: 0 <= size <= later ==>
              StartAt(size, AskedFor(backfill, n)[0]) <= StartAt(later, AskedFor(backfill, n)[i])
  {
    var first, next := AskedFor(backfill, n)[0], AskedFor(backfill, n)[i];
    AskedEnough(backfill, n, i);
    if backfill < 0x10000 {
      assert !(StartAt(0x10000, first) <= StartAt(0x10000, next));
    }
  }

  function SizeBefore(files: seq<File>, k: nat): int
    requires k <= |files|
  {
    if k == 0 then 0 else SizeBefore(files, k - 1) + |files[k - 1].content|
  }

  function Global(files: seq<File>, k: nat, b: int): int
    requires Position(files, k, b)
  {
    SizeBefore(files, k) + b
  }

  /** A position inside a file; only the last file has one at its end. */
  predicate Proper(files: seq<File>, k: nat, b: int) {
    Position(files, k, b) && (b < |files[k].content| || k + 1 == |files|)
  }

  lemma {:induction false} SizeGrows(files: seq<File>, k: nat, k2: nat)
    requires k <= k2 <= |files|
    ensures SizeBefore(files, k) <= SizeBefore(files, k2)
  {
    if k < k2 {
      SizeGrows(files, k, k2 - 1);
    }
  }

  lemma GlobalOrder(files: seq<File>, k: nat, b: int, k2: nat, e: int)
    requires Position(files, k, b) && Proper(files, k2, e) && Global(files, k, b) <= Global(files, k2, e)
    ensures NotAfter(k, b, k2, e)
  {
    if k2 < k {
      SizeGrows(files, k2 + 1, k);
    }
  }

  /** Connection i starts as many bytes as it asked for before the end of the log,
      which has sizes[i] bytes then. */
  ghost predicate Starts(files: seq<File>, sessions: seq<Session>, sizes: seq<int>, asked: seq<int>) {
    && |sizes| == |asked| == |sessions|
    && (forall i :: 0 <= i < |sessions| ==> Proper(files, sessions[i].k, sessions[i].b))
    && (forall i :: 0 <= i < |sessions| ==>
          Global(files, sessions[i].k, sessions[i].b) == StartAt(sizes[i], asked[i]))
    && (forall i, j :: 0 <= i < j < |sizes| ==> sizes[i] <= sizes[j])
    && (forall i :: 0 <= i < |sizes| ==> 0 <= sizes[i] <= SizeBefore(files, |files|))
  }

  /** Whether the connection of the second session starts in step with the first. */
  predicate InStep(files: seq<File>, k: nat, b: int, first: Session, s: Session)
    requires GoodSession(files, k, b, first) && GoodSession(files, k, b, s)
  {
    StartsInStep(files, first.k, first.b, s.k, s.b)
  }

  /** With enough backfill no reconnect keeps a line from before the first kept
      one, if and only if each that hands on lines starts in step with the first. */
  lemma EnoughBackfillKeepsOrder(files: seq<File>, k: nat, b: int, sessions: seq<Session>, sizes: seq<int>,
                                 backfill: int)
    requires GoodSessions(files, k, b, sessions) && sessions != []
    requires backfill >= MIN_RECONNECT_OVERLAP && Starts(files, sessions, sizes, AskedFor(backfill, |sessions|))
    requires Emitted(sessions[0].frames) != []
    ensures NoneEarlier(Ranges(files, k, b, sessions)[0].from, Ranges(files, k, b, sessions)[1..]) <==>
            forall i :: 1 <= i < |sessions| && Emitted(sessions[i].frames) != [] ==>
              InStep(files, k, b, sessions[0], sessions[i])
  {
    hide KeptFrom, LinesUpTo, Emitted, Reads, GoodFiles, InStep;
    var ranges := Ranges(files, k, b, sessions);
    FirstSends(files, k, b, sessions[0]);
    forall i | 1 <= i < |ranges|
      ensures ranges[1..][i - 1] == ranges[i]
      ensures ranges[i].from < ranges[i].end <==> Emitted(sessions[i].frames) != []
      ensures Emitted(sessions[i].frames) != [] ==>
                (ranges[0].from <= ranges[i].from <==> InStep(files, k, b, sessions[0], sessions[i]))
    {
      StartsOrdered(files, sessions, sizes, backfill, i);
      SessionSends(files, k, b, sessions[i]);
      if Emitted(sessions[i].frames) != [] {
        OrderedWhenInStep(files, k, b, sessions[0], sessions[i]);
      }
    }
    assert NoneEarlier(ranges[0].from, ranges[1..]) <==>
           forall i :: 1 <= i < |ranges| && ranges[i].from < ranges[i].end ==> ranges[0].from <= ranges[i].from by {
      NoneEarlierOf(ranges);
    }
  }

  lemma StartsOrdered(files: seq<File>, sessions: seq<Session>, sizes: seq<int>, backfill: int, i: nat)
    requires backfill >= MIN_RECONNECT_OVERLAP && Starts(files, sessions, sizes, AskedFor(backfill, |sessions|))
    requires 0 < i < |sessions|
    ensures Global(files, sessions[0].k, sessions[0].b) <= Global(files, sessions[i].k, sessions[i].b)
  {
    var asked := AskedFor(backfill, |sessions|);
    assert Max(backfill, MIN_RECONNECT_OVERLAP) == backfill;
    assert asked[0] == backfill && asked[i] == Max(backfill, MIN_RECONNECT_OVERLAP);
  }

  lemma NoneEarlierOf(ranges: seq<Range>)
    requires ranges != []
    ensures NoneEarlier(ranges[0].from, ranges[1..]) <==>
            forall i :: 1 <= i < |ranges| && ranges[i].from < ranges[i].end ==> ranges[0].from <= ranges[i].from
  {
    if NoneEarlier(ranges[0].from, ranges[1..]) {
      forall i | 1 <= i < |ranges| && ranges[i].from < ranges[i].end ensures ranges[0].from <= ranges[i].from {
        assert ranges[1..][i - 1] == ranges[i];
      }
    }
  }

  lemma OrderedWhenInStep(files: seq<File>, k: nat, b: int, first: Session, s: Session)
    requires GoodSession(files, k, b, first) && GoodSession(files, k, b, s)
    requires Proper(files, first.k, first.b) && Proper(files, s.k, s.b)
    requires Global(files, first.k, first.b) <= Global(files, s.k, s.b)
    requires Emitted(first.frames) != [] && Emitted(s.frames) != []
    ensures RangeOf(files, first).from <= RangeOf(files, s).from <==> InStep(files, k, b, first, s)
  {
    hide KeptFrom, LinesUpTo, Emitted, Reads, GoodFiles, StartsInStep;
    GlobalOrder(files, first.k, first.b, s.k, s.b);
    LaterStartKeepsLater(files, first.k, first.b, s.k, s.b);
  }

  const EARLIER: File := File("a", [97, 10, 10])

  lemma NextLine(file: string, start: int, x: byte, more: Bytes)
    requires x != NEWLINE
    ensures var rest := Cut(file, start + 2, more);
            Cut(file, start, [x, NEWLINE] + more) == Step([Line([x], file, start)] + rest.lines, rest.next)
  {
    hide Cut;
    CutStep(file, start, [x], more);
    assert [x] + [NEWLINE] + more == [x, NEWLINE] + more;
  }

  lemma EarlierLines()
    ensures Lines(EARLIER) == [Line([97], "a", 0)]
  {
    hide Cut;
    NextLine("a", 0, 97, [10]);
    CutStep("a", 2, [], []);
    CutNone("a", 3, []);
    assert [97, NEWLINE] + [10] == EARLIER.content && [] + [NEWLINE] + [] == [10];
  }

  /** A first connection inside the newlines that end a file leaves out the next
      file's first line, and one that later starts with that file keeps it: for
      every next file that is longer than the backfill. */
  lemma EdgeStartKeepsEarlier(later: File, backfill: int)
    requires later.name != "" && later.name != "a" && backfill <= |later.content| <= MAX_INT64
    requires backfill >= MIN_RECONNECT_OVERLAP
    ensures var files := [EARLIER, later];
            && GoodFiles(files) && Proper(files, 0, 2) && Proper(files, 1, 0)
            && Global(files, 0, 2) == StartAt(backfill + 2, backfill)
            && Global(files, 1, 0) == StartAt(backfill + 3, backfill)
            && backfill + 3 <= SizeBefore(files, 2)
            && KeptFrom(files, 0, 2) > KeptFrom(files, 1, 0)
            && !StartsInStep(files, 0, 2, 1, 0)
  {
    hide Lines, Cut;
    var files := [EARLIER, later];
    EarlierLines();
    NoneEndedAtStart(later);
    assert ClosedLines(files, 0) == [] && ClosedLines(files, 1) == Lines(EARLIER);
    assert SizeBefore(files, 0) == 0 && SizeBefore(files, 1) == 3 && SizeBefore(files, 2) == 3 + |later.content|;
    assert Ended([Line([97], "a", 0)], 2) == 1 by { assert [Line([97], "a", 0)][1..] == []; }
  }

  lemma NoneEndedAtStart(file: File)
    ensures Ended(Lines(file), 0) == 0
  {
    hide Cut;
    CutStartsLater(file.name, 0, file.content);
  }

  /** So the lines of any two such connections that hand on lines are stored out of
      order, though the backfill is enough. */
  lemma EdgeRunIsOutOfOrder(later: File, backfill: int, k: nat, b: int, first: Session, second: Session)
    requires later.name != "" && later.name != "a" && backfill <= |later.content| <= MAX_INT64
    requires backfill >= MIN_RECONNECT_OVERLAP
    requires var files := [EARLIER, later]; GoodSessions(files, k, b, [first, second])
    requires first.k == 0 && first.b == 2 && second.k == 1 && second.b == 0
    requires Emitted(first.frames) != [] && Emitted(second.frames) != []
    ensures var files, sessions := [EARLIER, later], [first, second];
            && Starts(files, sessions, [backfill + 2, backfill + 3], AskedFor(backfill, 2))
            && !NoneEarlier(Ranges(files, k, b, sessions)[0].from, Ranges(files, k, b, sessions)[1..])
  {
    hide KeptFrom, LinesUpTo, Emitted, Reads, GoodFiles, StartsInStep;
    var files, sessions := [EARLIER, later], [first, second];
    EdgeStartKeepsEarlier(later, backfill);
    assert Max(backfill, MIN_RECONNECT_OVERLAP) == backfill;
    assert Starts(files, sessions, [backfill + 2, backfill + 3], AskedFor(backfill, 2));
    EnoughBackfillKeepsOrder(files, k, b, sessions, [backfill + 2, backfill + 3], backfill);
    assert !InStep(files, k, b, sessions[0], sessions[1]);
  }

  /** And there are two such connections, when the next file has two complete
      lines. */
  lemma EdgeRunExists(later: File, backfill: int) returns (first: Session, second: Session)
    requires later.name != "" && later.name != "a" && backfill <= |later.content| <= MAX_INT64
    requires backfill >= MIN_RECONNECT_OVERLAP && |Cut(later.name, 0, later.content).lines| >= 2
    ensures var files := [EARLIER, later]; GoodSessions(files, 1, |later.content|, [first, second])
    ensures first.k == 0 && first.b == 2 && second.k == 1 && second.b == 0
    ensures Emitted(first.frames) != [] && Emitted(second.frames) != []
  {
    hide Cut, Stretches, Emitted, Reads, MidLine, KeptFrom, Lines;
    var files, end := [EARLIER, later], |later.content|;
    EdgeStartKeepsEarlier(later, backfill);
    StretchesRead(files, 0, 2, 1, end);
    StretchesRead(files, 1, 0, 1, end);
    first := Session(0, 2, 1, end, Stretches(files, 0, 2, 1, end));
    second := Session(1, 0, 1, end, Stretches(files, 1, 0, 1, end));
    EdgeLines(later);
    var skipped := SessionTheorem(files, 0, 2, 1, end, first.frames);
    var none := SessionTheorem(files, 1, 0, 1, end, second.frames);
  }

  lemma EdgeLines(later: File)
    ensures var files := [EARLIER, later];
            && !MidLine(files, 0, 2) && |LinesUpTo(files, 0, 2)| == 1 && |LinesUpTo(files, 1, 0)| == 1
            && |LinesUpTo(files, 1, |later.content|)| == 1 + |Cut(later.name, 0, later.content).lines|
  {
    hide Cut;
    var files := [EARLIER, later];
    NextLine("a", 0, 97, []);
    CutNone("a", 2, []);
    CutNone(later.name, 0, []);
    assert EARLIER.content[..2] == [97, NEWLINE] + [];
    assert later.content[..0] == [] && later.content[..|later.content|] == later.content;
    EarlierLines();
    assert ClosedLines(files, 0) == [] && ClosedLines(files, 1) == Lines(EARLIER);
  }

  // ----- around a row

  function Reversed<T>(s: seq<T>): (r: seq<T>)
    ensures |r| == |s|
  {
    seq(|s|, i requires 0 <= i < |s| => s[|s| - 1 - i])
  }

  function StreamOf(r: Row): TaskStream {
    TaskStream(r.allocId, r.task, r.stream)
  }

  function RowWithId(rows: seq<Row>, id: int): (r: Option<Row>)
    ensures r.Some? <==> exists x :: x in rows && x.id == id
    ensures r.Some? ==> r.value in rows && r.value.id == id
  {
    if rows == [] then None
    else if rows[0].id == id then Some(rows[0])
    else RowWithId(rows[1..], id)
  }

  /** The neighbours of a row in its stream, at most n either way: the ones before
      it are found newest first and turned round. */
  function Around(rows: seq<Row>, id: int, n: nat): seq<Row> {
    match RowWithId(rows, id)
    case None => []
    case Some(row) =>
      var s := StreamOf(row);
      var before := Take(Reversed(Only(rows, (r: Row) => Of(s, r) && r.id < id)), n);
      var after := Take(Only(rows, (r: Row) => Of(s, r) && r.id >= id), n + 1);
      Reversed(before) + after
  }

  lemma {:induction false} OnlyOnly<T>(s: seq<T>, p: T -> bool, q: T -> bool, both: T -> bool)
    requires forall x :: x in s ==> (both(x) <==> p(x) && q(x))
    ensures Only(s, both) == Only(Only(s, p), q)
  {
    if s != [] {
      OnlyOnly(s[1..], p, q, both);
      OnlyAppend(if p(s[0]) then [s[0]] else [], Only(s[1..], p), q);
      OnlyOne(s[0], q);
    }
  }

  lemma MineKeepsOrder(s: TaskStream, rows: seq<Row>)
    requires Increasing(rows)
    ensures Increasing(Mine(s, rows))
  {
    OnlyIncreasing(rows, (r: Row) => Of(s, r));
  }

  lemma TakeReversed<T>(s: seq<T>, n: nat)
    ensures Reversed(Take(Reversed(s), n)) == if |s| <= n then s else s[|s| - n..]
  {
  }

  /** The rows around one are an unbroken stretch of its stream's rows, with that
      row in it and as many on each side as asked for, where there are so many. */
  lemma AroundIsStretch(t: Snapshot, id: int, n: nat) returns (p: nat)
    requires Consistent(t) && exists r :: r in t.rows && r.id == id
    ensures var row := RowWithId(t.rows, id).value;
            var mine := Mine(StreamOf(row), t.rows);
            && p < |mine| && mine[p] == row
            && Around(t.rows, id, n) == mine[Max(0, p - n)..if p + n + 1 < |mine| then p + n + 1 else |mine|]
  {
    hide Of, Clash, Around, Mine;
    var row := RowWithId(t.rows, id).value;
    var s := StreamOf(row);
    var mine := Mine(s, t.rows);
    OfItself(row);
    MineMembers(s, t.rows);
    MineKeepsOrder(s, t.rows);
    p :| p < |mine| && mine[p] == row;
    AroundFrom(t.rows, row, mine, p, n);
  }

  lemma AroundFrom(rows: seq<Row>, row: Row, mine: seq<Row>, p: nat, n: nat)
    requires RowWithId(rows, row.id) == Some(row) && mine == Mine(StreamOf(row), rows)
    requires Increasing(mine) && p < |mine| && mine[p] == row
    ensures Around(rows, row.id, n) == mine[Max(0, p - n)..if p + n + 1 < |mine| then p + n + 1 else |mine|]
  {
    hide Of, Around, Mine, RowWithId, Increasing;
    AroundOf(rows, row.id, n);
    AroundParts(rows, row);
    SplitById(mine, p, row.id);
    StretchJoins(mine, p, n);
  }

  lemma AroundOf(rows: seq<Row>, id: int, n: nat)
    requires RowWithId(rows, id).Some?
    ensures var s := StreamOf(RowWithId(rows, id).value);
            Around(rows, id, n) == Reversed(Take(Reversed(Only(rows, (r: Row) => Of(s, r) && r.id < id)), n)) +
                                   Take(Only(rows, (r: Row) => Of(s, r) && r.id >= id), n + 1)
  {
  }

  lemma AroundParts(rows: seq<Row>, row: Row)
    ensures var s := StreamOf(row);
            && Only(rows, (r: Row) => Of(s, r) && r.id < row.id) == Only(Mine(s, rows), (r: Row) => r.id < row.id)
            && Only(rows, (r: Row) => Of(s, r) && r.id >= row.id) == Only(Mine(s, rows), (r: Row) => r.id >= row.id)
  {
    hide Of;
    var s := StreamOf(row);
    var of := (r: Row) => Of(s, r);
    OnlyOnly(rows, of, (r: Row) => r.id < row.id, (r: Row) => Of(s, r) && r.id < row.id);
    OnlyOnly(rows, of, (r: Row) => r.id >= row.id, (r: Row) => Of(s, r) && r.id >= row.id);
  }

  lemma StretchJoins<T>(s: seq<T>, p: nat, n: nat)
    requires p < |s|
    ensures Reversed(Take(Reversed(s[..p]), n)) + Take(s[p..], n + 1) ==
            s[Max(0, p - n)..if p + n + 1 < |s| then p + n + 1 else |s|]
  {
    TakeReversed(s[..p], n);
  }

  lemma OfItself(r: Row)
    ensures Of(StreamOf(r), r)
  {
  }

  lemma SplitById(rows: seq<Row>, p: nat, id: int)
    requires Increasing(rows) && p < |rows| && rows[p].id == id
    ensures Only(rows, (r: Row) => r.id < id) == rows[..p]
    ensures Only(rows, (r: Row) => r.id >= id) == rows[p..]
  {
    var below, from := (r: Row) => r.id < id, (r: Row) => r.id >= id;
    assert rows == rows[..p] + rows[p..];
    OnlyAppend(rows[..p], rows[p..], below);
    OnlyAppend(rows[..p], rows[p..], from);
    OnlyAll(rows[..p], below);
    OnlyNone(rows[p..], below);
    OnlyNone(rows[..p], from);
    OnlyAll(rows[p..], from);
  }

  /** The rows shown around one are all of its own stream: they have its allocation,
      its task and its stream, and every row that has can be among them. */
  lemma AroundIsOneStream(t: Snapshot, row: Row, n: nat)
    requires Consistent(t) && RowWithId(t.rows, row.id) == Some(row)
    ensures forall r :: r in Mine(StreamOf(row), t.rows) <==>
              r in t.rows && r.allocId == row.allocId && r.task == row.task && r.stream == row.stream
    ensures forall r :: r in Around(t.rows, row.id, n) ==>
              r in t.rows && r.allocId == row.allocId && r.task == row.task && r.stream == row.stream
    ensures row in Around(t.rows, row.id, n) && |Around(t.rows, row.id, n)| <= 2 * n + 1
  {
    hide Clash, Around, Mine, RowWithId, Consistent;
    var p := AroundIsStretch(t, row.id, n);
    var mine := Mine(StreamOf(row), t.rows);
    MineMembers(StreamOf(row), t.rows);
    var a, c := Max(0, p - n), if p + n + 1 < |mine| then p + n + 1 else |mine|;
    assert forall r :: r in mine[a..c] ==> r in mine;
    assert mine[a..c][p - a] == row;
  }

  lemma RefsSlice(rows: seq<Row>, a: nat, c: nat)
    requires a <= c <= |rows|
    ensures Refs(rows[a..c]) == Refs(rows)[a..c]
  {
  }

  lemma SliceTwice<T>(s: seq<T>, i: nat, j: nat, a: nat, c: nat)
    requires i <= j <= |s| && a <= c <= j - i
    ensures s[i..j][a..c] == s[i + a..i + c]
  {
    assert forall k :: 0 <= k < c - a ==> s[i..j][a..c][k] == s[i..j][a + k] == s[i + a..i + c][k];
  }

  /** If a stream is stored in the log's order, the rows around one of its rows
      are consecutive lines of the log, in that order. */
  lemma AroundIsLogOrder(t: Snapshot, id: int, n: nat, all: seq<string>, first: nat, upto: nat)
      returns (i: nat, j: nat)
    requires Consistent(t) && RowWithId(t.rows, id).Some?
    requires first <= upto <= |all|
    requires Refs(Mine(StreamOf(RowWithId(t.rows, id).value), t.rows)) == all[first..upto]
    ensures i <= j <= |all| && Refs(Around(t.rows, id, n)) == all[i..j]
  {
    hide Of, Clash, Around, Mine, RowWithId, Consistent;
    var p := AroundIsStretch(t, id, n);
    var mine := Mine(StreamOf(RowWithId(t.rows, id).value), t.rows);
    var a, c := Max(0, p - n), if p + n + 1 < |mine| then p + n + 1 else |mine|;
    i, j := first + a, first + c;
    RefsSlice(mine, a, c);
    SliceTwice(all, first, upto, a, c);
  }
}
