/** Streaming rows as they are stored, across reconnects. */
module Live {
  import opened Wrappers
  import opened Numerals
  import opened Semantics
  import opened Where
  import opened Sequences
  import opened Table
  import opened Paging

  const MAX_PAGE_SIZE: nat := 1000

  // ----- events

  /** A batch of rows, with the id of its last one. */
  datatype LiveEvent = LiveEvent(id: int, rows: seq<Row>)

  /** The id a connection resumes after: the last event's, or the one given. */
  function ResumeId(lastEventId: string, after: string): Option<int> {
    match ParseInt(if lastEventId == "" then after else lastEventId)
    case Failure(_) => None
    case Success(id) => if id < 0 then None else Some(id)
  }

  /** A client that has seen an event resumes after it, whatever its first request
      named; one that has seen none resumes after the id its first request named;
      and no negative id is taken. */
  lemma ResumesAfterLastSeen(id: int, after: string)
    requires IsInt64(id)
    ensures ResumeId(FormatInt(id), after) == if id >= 0 then Some(id) else None
    ensures ResumeId("", FormatInt(id)) == if id >= 0 then Some(id) else None
  {
    IntReadsBack(id);
  }

  function LastId(lastId: int, entries: seq<Row>): int {
    if entries == [] then lastId else entries[|entries| - 1].id
  }

  // ----- one poll

  /** Live rows are looked for without a time window. */
  function LiveFilters(f: Filters): Filters {
    f.(since := None, until := None, limit := MAX_PAGE_SIZE)
  }

  /** A live query asks for all that the query keeps, whenever it was logged, at most
      a thousand rows at a time. */
  lemma LiveHasNoWindow(f: Filters, r: Row, nums: Numbers)
    ensures Matching(LiveFilters(f), r, nums) <==> Keeps(f.query, r, nums)
    ensures LimitOf(LiveFilters(f)) == 1000
  {
    hide Keeps;
  }

  function SearchedAfter(t: Snapshot, f: Filters, afterId: int, nums: Numbers): Result<seq<Row>, SearchError> {
    var s :- SearchAfterStatement(f, afterId, nums);
    Success(Take(Only(t.rows, (r: Row) => ChosenBy(s, r, nums)), LimitOf(f)))
  }

  /** A poll finds the oldest matching rows after the last one, as many as fit. */
  lemma PollFinds(t: Snapshot, f: Filters, afterId: int, nums: Numbers)
    requires Consistent(t) && SearchedAfter(t, f, afterId, nums).Success?
    ensures var page := SearchedAfter(t, f, afterId, nums).value;
            && Increasing(page) && |page| <= LimitOf(f)
            && (forall r :: r in page ==> r in t.rows && Matching(f, r, nums) && afterId < r.id <= LastId(afterId, page))
            && (forall r :: r in t.rows && Matching(f, r, nums) && afterId < r.id && r !in page ==>
                  |page| == LimitOf(f) && LastId(afterId, page) < r.id)
  {
    hide SearchAfterStatement, Matching, Clash, Selects, WellBound;
    var s := SearchAfterStatement(f, afterId, nums).value;
    var chosen := (r: Row) => ChosenBy(s, r, nums);
    var wanted := (r: Row) => Matching(f, r, nums) && afterId < r.id;
    forall r: Row ensures chosen(r) <==> wanted(r) {
      SearchAfterSelects(f, afterId, r, nums);
    }
    OnlyMembers(t.rows, chosen);
    OnlyIncreasing(t.rows, chosen);
    FirstOnes(Only(t.rows, chosen), LimitOf(f), afterId);
  }

  lemma FirstOnes(rows: seq<Row>, limit: nat, afterId: int)
    requires Increasing(rows) && limit > 0
    ensures var page := Take(rows, limit);
            && Increasing(page) && |page| <= limit
            && (forall r :: r in page ==> r in rows && r.id <= LastId(afterId, page))
            && (forall r :: r in rows && r !in page ==> |page| == limit && LastId(afterId, page) < r.id)
  {
    var page := Take(rows, limit);
    forall r | r in rows && r !in page ensures |page| == limit && LastId(afterId, page) < r.id {
      var k :| 0 <= k < |rows| && rows[k] == r;
      assert forall i :: 0 <= i < |page| ==> page[i] == rows[i] && page[i] in page;
    }
  }

  // ----- one connection

  /** A tick of the polling loop: the table as it is then, and whether the event
      that comes of it, if any, can be written. */
  datatype Tick = Tick(t: Snapshot, writes: bool)

  /** The events a connection writes, polling for what comes after an id. */
  function Written(f: Filters, nums: Numbers, lastId: int, ticks: seq<Tick>): seq<LiveEvent>
    decreases |ticks|
  {
    if ticks == [] then []
    else
      match SearchedAfter(ticks[0].t, f, lastId, nums)
      case Failure(_) => []
      case Success(page) =>
        if page == [] then Written(f, nums, lastId, ticks[1..])
        else if !ticks[0].writes then []
        else [LiveEvent(LastId(lastId, page), page)] + Written(f, nums, LastId(lastId, page), ticks[1..])
  }

  /** The polling loop: each batch of rows goes out as one event, and the loop ends
      when a search or a write fails. */
  method ServeLive(f: Filters, nums: Numbers, resume: int, ticks: seq<Tick>) returns (events: seq<LiveEvent>)
    ensures events == Written(f, nums, resume, ticks)
  {
    hide SearchedAfter;
    events := [];
    var lastId := resume;
    for k := 0 to |ticks|
      invariant Written(f, nums, resume, ticks) == events + Written(f, nums, lastId, ticks[k..])
    {
      assert ticks[k..][0] == ticks[k] && ticks[k..][1..] == ticks[k + 1..];
      var found := SearchedAfter(ticks[k].t, f, lastId, nums);
      if found.Failure? {
        return;
      }
      var entries := found.value;
      if |entries| == 0 {
        continue;
      }
      lastId := entries[|entries| - 1].id;
      if !ticks[k].writes {
        return;
      }
      events := events + [LiveEvent(lastId, entries)];
    }
  }

  // ----- polls, lost events and reconnects

  /** The id that the client's requests name, the id of the last event it has seen,
      which they send along ("" if it has seen none), what the connection has sent
      up to, what the client has seen up to, whether an event was lost on the way,
      and all rows the client got. */
  datatype Feed = Feed(after: string, lastEventId: string, server: int, client: int, broken: bool,
                       delivered: seq<Row>)

  /** The client gets the event of a poll, if there is one. */
  function Received(s: Feed, page: seq<Row>): Feed {
    s.(lastEventId := if page == [] then s.lastEventId else FormatInt(LastId(s.server, page)),
       server := LastId(s.server, page),
       client := LastId(s.client, page),
       delivered := s.delivered + page)
  }

  datatype Happening =
    | Polls(t: Snapshot)        // a poll whose event, if any, arrives
    | PollsInVain(t: Snapshot)  // a poll whose event is lost; nothing later arrives on the connection
    | Reconnects                // the client asks again, as before but for the last event's id

  ghost predicate Happens(f: Filters, nums: Numbers, s: Feed, h: Happening, u: Feed) {
    match h
    case Polls(t) =>
      && !s.broken && SearchedAfter(t, f, s.server, nums).Success?
      && u == Received(s, SearchedAfter(t, f, s.server, nums).value)
    case PollsInVain(t) =>
      && SearchedAfter(t, f, s.server, nums).Success?
      && var page := SearchedAfter(t, f, s.server, nums).value;
         u == s.(server := LastId(s.server, page), broken := true)
    case Reconnects =>
      && ResumeId(s.lastEventId, s.after).Some?
      && u == s.(server := ResumeId(s.lastEventId, s.after).value, broken := false)
  }

  predicate LaterTable(now: Snapshot, h: Happening) {
    h.Reconnects? || (Consistent(h.t) && IdsFit(h.t) && Evolves(now, h.t))
  }

  function TableAfter(now: Snapshot, h: Happening): Snapshot {
    if h.Reconnects? then now else h.t
  }

  /** A run from a state of the feed and the table to another. */
  ghost predicate Runs(f: Filters, nums: Numbers, s: Feed, now: Snapshot, hs: seq<Happening>, feeds: seq<Feed>)
    ensures Runs(f, nums, s, now, hs, feeds) ==> |feeds| == |hs| + 1 && feeds[0] == s
    decreases |hs|
  {
    && |feeds| == |hs| + 1 && feeds[0] == s
    && (hs != [] ==>
          && LaterTable(now, hs[0]) && Happens(f, nums, s, hs[0], feeds[1])
          && Runs(f, nums, feeds[1], TableAfter(now, hs[0]), hs[1..], feeds[1..]))
  }

  function TableAtEnd(now: Snapshot, hs: seq<Happening>): Snapshot
    decreases |hs|
  {
    if hs == [] then now else TableAtEnd(TableAfter(now, hs[0]), hs[1..])
  }

  /** The id up to which the client has seen is the last event's, or else the one
      its requests name. */
  predicate Remembers(s: Feed) {
    s.lastEventId == FormatInt(s.client) || (s.lastEventId == "" && ParseInt(s.after) == Success(s.client))
  }

  /** What holds of a feed at any time: the rows that came have growing ids, from
      after the start up to the last seen, they match, and they are all the
      matching rows up to there that the table still has. */
  ghost predicate Sound(f: Filters, nums: Numbers, start: int, s: Feed, now: Snapshot) {
    && Consistent(now) && IdsFit(now)
    && 0 <= start <= s.client <= now.last && IsInt64(s.client) && (!s.broken ==> s.server == s.client)
    && s.client <= s.server <= now.last && Remembers(s)
    && Increasing(s.delivered)
    && (forall r :: r in s.delivered ==> start < r.id <= s.client && Matching(f, r, nums))
    && (forall r :: r in now.rows && Matching(f, r, nums) && start < r.id <= s.client ==> r in s.delivered)
  }

  lemma SoundLater(f: Filters, nums: Numbers, start: int, s: Feed, now: Snapshot, t: Snapshot)
    requires Sound(f, nums, start, s, now) && Consistent(t) && IdsFit(t) && Evolves(now, t)
    ensures Sound(f, nums, start, s, t)
  {
    hide Matching, Clash;
  }

  lemma StepKeepsSound(f: Filters, nums: Numbers, start: int, s: Feed, now: Snapshot, h: Happening, u: Feed)
    requires Sound(f, nums, start, s, now) && LaterTable(now, h) && Happens(f, nums, s, h, u)
    ensures Sound(f, nums, start, u, TableAfter(now, h))
    ensures s.delivered <= u.delivered && u.after == s.after
    ensures h.Reconnects? ==> u.server == s.client
  {
    hide Matching, Clash, SearchedAfter;
    match h
    case Polls(t) =>
      SoundLater(f, nums, start, s, now, t);
      PollFinds(t, f, s.server, nums);
      PollKeepsSound(f, nums, start, s, t, SearchedAfter(t, f, s.server, nums).value);
    case PollsInVain(t) =>
      SoundLater(f, nums, start, s, now, t);
      PollFinds(t, f, s.server, nums);
      LastIsThere(s.server, SearchedAfter(t, f, s.server, nums).value);
    case Reconnects =>
      ResumesAfterLastSeen(s.client, s.after);
  }

  lemma LastIsThere(lastId: int, page: seq<Row>)
    ensures page != [] ==> exists r :: r in page && r.id == LastId(lastId, page)
  {
    if page != [] {
      assert page[|page| - 1] in page;
    }
  }

  lemma PollKeepsSound(f: Filters, nums: Numbers, start: int, s: Feed, t: Snapshot, page: seq<Row>)
    requires Sound(f, nums, start, s, t) && !s.broken && Increasing(page)
    requires forall r :: r in page ==> r in t.rows && Matching(f, r, nums) && s.client < r.id <= LastId(s.client, page)
    requires forall r :: r in t.rows && Matching(f, r, nums) && s.client < r.id && r !in page ==> LastId(s.client, page) < r.id
    ensures Sound(f, nums, start, Received(s, page), t)
  {
    hide Matching, Clash;
    LastIsThere(s.client, page);
    assert forall i :: 0 <= i < |page| ==> page[i] in page;
    assert forall i :: 0 <= i < |s.delivered| ==> s.delivered[i] in s.delivered;
  }

  /** Over any polls, lost events, reconnects, inserts and prunes, whatever id the
      client's requests name: ids grow, no row comes twice, and up to the last id
      seen the client has every matching row after the start that is still in the
      table. */
  lemma {:induction false} LiveTheorem(f: Filters, nums: Numbers, start: int, s: Feed, now: Snapshot,
                                       hs: seq<Happening>, feeds: seq<Feed>)
    requires Sound(f, nums, start, s, now) && Runs(f, nums, s, now, hs, feeds)
    ensures Sound(f, nums, start, feeds[|hs|], TableAtEnd(now, hs))
    ensures s.delivered <= feeds[|hs|].delivered && feeds[|hs|].after == s.after
    ensures Evolves(now, TableAtEnd(now, hs))
    decreases |hs|
  {
    hide Sound, Happens, LaterTable;
    if hs != [] {
      StepKeepsSound(f, nums, start, s, now, hs[0], feeds[1]);
      LaterEvolves(now, hs[0]);
      var next := TableAfter(now, hs[0]);
      LiveTheorem(f, nums, start, feeds[1], next, hs[1..], feeds[1..]);
      EvolvesOn(now, next, TableAtEnd(next, hs[1..]));
    }
  }

  lemma LaterEvolves(now: Snapshot, h: Happening)
    requires LaterTable(now, h)
    ensures Evolves(now, TableAfter(now, h))
  {
  }

  /** A poll that arrives and finds less than a full batch catches up with all
      matching rows in the table. */
  lemma ShortPollCatchesUp(f: Filters, nums: Numbers, start: int, s: Feed, now: Snapshot, t: Snapshot, u: Feed)
    requires Sound(f, nums, start, s, now) && LaterTable(now, Polls(t)) && Happens(f, nums, s, Polls(t), u)
    requires |u.delivered| < |s.delivered| + LimitOf(f)
    ensures forall r :: r in t.rows && Matching(f, r, nums) && start < r.id ==> r in u.delivered
  {
    hide Matching, Clash, SearchedAfter;
    PollFinds(t, f, s.server, nums);
    SoundLater(f, nums, start, s, now, t);
  }

  // ----- a connection as part of a run

  function RowsOf(events: seq<LiveEvent>): seq<Row> {
    if events == [] then [] else events[0].rows + RowsOf(events[1..])
  }

  /** The last id a client has seen after some events. */
  function EndId(lastId: int, events: seq<LiveEvent>): int {
    if events == [] then lastId else events[|events| - 1].id
  }

  /** The tables a connection polls, each later than the one before. */
  predicate LaterTables(now: Snapshot, ticks: seq<Tick>)
    decreases |ticks|
  {
    ticks == [] || (LaterTable(now, Polls(ticks[0].t)) && LaterTables(ticks[0].t, ticks[1..]))
  }

  function PollsOf(ticks: seq<Tick>): (hs: seq<Happening>)
    ensures |hs| == |ticks|
  {
    seq(|ticks|, i requires 0 <= i < |ticks| => Polls(ticks[i].t))
  }

  /** What the loop writes to a client that gets all of it is a run of polls: the
      client has the rows of the events, in their order, and has seen up to the
      last one's id. */
  lemma {:induction false} ServingRuns(f: Filters, nums: Numbers, s: Feed, now: Snapshot, ticks: seq<Tick>)
      returns (feeds: seq<Feed>)
    requires !s.broken && s.server == s.client && LaterTables(now, ticks)
    requires SearchAfterStatement(f, s.client, nums).Success? && forall t :: t in ticks ==> t.writes
    ensures Runs(f, nums, s, now, PollsOf(ticks), feeds)
    ensures var u, events := feeds[|ticks|], Written(f, nums, s.client, ticks);
            && !u.broken && u.server == u.client
            && u.delivered == s.delivered + RowsOf(events)
            && u.client == EndId(s.client, events)
    decreases |ticks|
  {
    hide SearchAfterStatement, LaterTable, Runs, Happens, Written, SearchedAfter, RowsOf, LastId, EndId, PollsOf;
    if ticks == [] {
      feeds := [s];
      NothingHappens(f, nums, s, now);
    } else {
      SearchesAlike(ticks[0].t, f, s.client, nums);
      var page := SearchedAfter(ticks[0].t, f, s.client, nums).value;
      var next := Received(s, page);
      StatementsAlike(f, s.client, next.client, nums);
      PollHappens(f, nums, s, ticks[0].t, page);
      var rest := ServingRuns(f, nums, next, ticks[0].t, ticks[1..]);
      feeds := [s] + rest;
      PollsStep(ticks);
      RunsCons(f, nums, s, now, Polls(ticks[0].t), PollsOf(ticks[1..]), rest);
      WrittenStep(f, nums, s.client, ticks, page);
      assert s.delivered + page + RowsOf(Written(f, nums, next.client, ticks[1..])) ==
             s.delivered + (page + RowsOf(Written(f, nums, next.client, ticks[1..])));
    }
  }

  lemma PollsStep(ticks: seq<Tick>)
    requires ticks != []
    ensures PollsOf(ticks) == [Polls(ticks[0].t)] + PollsOf(ticks[1..])
  {
  }

  lemma NothingHappens(f: Filters, nums: Numbers, s: Feed, now: Snapshot)
    ensures Runs(f, nums, s, now, PollsOf([]), [s])
    ensures RowsOf(Written(f, nums, s.client, [])) == [] && EndId(s.client, Written(f, nums, s.client, [])) == s.client
  {
  }

  lemma PollHappens(f: Filters, nums: Numbers, s: Feed, t: Snapshot, page: seq<Row>)
    requires !s.broken && SearchedAfter(t, f, s.server, nums) == Success(page)
    ensures Happens(f, nums, s, Polls(t), Received(s, page))
  {
    hide SearchedAfter;
  }

  lemma RunsCons(f: Filters, nums: Numbers, s: Feed, now: Snapshot, h: Happening, hs: seq<Happening>, feeds: seq<Feed>)
    requires LaterTable(now, h) && |feeds| == |hs| + 1 && Happens(f, nums, s, h, feeds[0])
    requires Runs(f, nums, feeds[0], TableAfter(now, h), hs, feeds)
    ensures Runs(f, nums, s, now, [h] + hs, [s] + feeds)
  {
    hide LaterTable, Happens;
    assert ([h] + hs)[1..] == hs && ([s] + feeds)[1..] == feeds;
  }

  lemma WrittenStep(f: Filters, nums: Numbers, lastId: int, ticks: seq<Tick>, page: seq<Row>)
    requires ticks != [] && ticks[0].writes && SearchedAfter(ticks[0].t, f, lastId, nums) == Success(page)
    ensures var rest := Written(f, nums, LastId(lastId, page), ticks[1..]);
            && RowsOf(Written(f, nums, lastId, ticks)) == page + RowsOf(rest)
            && EndId(lastId, Written(f, nums, lastId, ticks)) == EndId(LastId(lastId, page), rest)
  {
    hide SearchedAfter;
    var rest := Written(f, nums, LastId(lastId, page), ticks[1..]);
    assert [] + RowsOf(rest) == RowsOf(rest);
    assert ([LiveEvent(LastId(lastId, page), page)] + rest)[1..] == rest;
  }

  lemma SearchesAlike(t: Snapshot, f: Filters, afterId: int, nums: Numbers)
    ensures SearchedAfter(t, f, afterId, nums).Success? <==> SearchAfterStatement(f, afterId, nums).Success?
  {
  }

  /** Whether a statement can be made does not depend on the id. */
  lemma StatementsAlike(f: Filters, a: int, b: int, nums: Numbers)
    ensures SearchAfterStatement(f, a, nums).Success? <==> SearchAfterStatement(f, b, nums).Success?
  {
    hide SearchWhere;
  }

  /** One connection from a sound state: what it has written is sound for a client
      that got it all. */
  lemma ServingIsSound(f: Filters, nums: Numbers, start: int, s: Feed, now: Snapshot, ticks: seq<Tick>)
      returns (u: Feed)
    requires Sound(f, nums, start, s, now) && !s.broken && LaterTables(now, ticks)
    requires SearchAfterStatement(f, s.client, nums).Success? && forall t :: t in ticks ==> t.writes
    ensures ResumeId(s.lastEventId, s.after) == Some(s.client)
    ensures u.delivered == s.delivered + RowsOf(Written(f, nums, s.client, ticks))
    ensures Sound(f, nums, start, u, TableAtEnd(now, PollsOf(ticks)))
  {
    hide SearchAfterStatement, Runs, Matching, Clash;
    ResumesAfterLastSeen(s.client, s.after);
    var feeds := ServingRuns(f, nums, s, now, ticks);
    LiveTheorem(f, nums, start, s, now, PollsOf(ticks), feeds);
    u := feeds[|ticks|];
  }

  // ----- the first page and the stream after it

  /** The feed that asks for what comes after the newest id an answer gives. */
  function FeedFrom(v: Visit): Feed {
    Feed(FormatInt(v.answer.maxId), "", v.answer.maxId, v.answer.maxId, false, [])
  }

  lemma StartIsSound(f: Filters, nums: Numbers, v: Visit, now: Snapshot)
    requires v.answer.maxId == Newest(v.before) && Consistent(v.before) && IdsFit(v.before)
    requires Consistent(now) && IdsFit(now) && Evolves(v.before, now)
    ensures Sound(f, nums, v.answer.maxId, FeedFrom(v), now)
  {
    hide Matching, Clash;
    IntReadsBack(v.answer.maxId);
    if v.before.rows != [] {
      assert v.before.rows[|v.before.rows| - 1] in v.before.rows;
    }
  }

  /** The newest id is read before the page's rows, so no row falls between: every
      row of the table that the page's query matches, up to the last id the client
      has seen, was either there for the page to find or came over the stream. */
  lemma NoRowFallsBetween(f: Filters, nums: Numbers, v: Visit, hs: seq<Happening>, feeds: seq<Feed>, r: Row)
    requires Consistent(v.before) && IdsFit(v.before) && Evolves(v.before, v.t) && Visited(f, v, nums)
    requires Runs(LiveFilters(f), nums, FeedFrom(v), v.t, hs, feeds)
    requires r in TableAtEnd(v.t, hs).rows && Matching(f, r, nums) && r.id <= feeds[|hs|].client
    ensures r in v.t.rows || r in feeds[|hs|].delivered
    ensures r in v.answer.rows || !BeforeCursor(v.after, r) || v.answer.nextCursor.Some? || r in feeds[|hs|].delivered
  {
    hide Matching, Clash, Runs, IsPage, Wanted, Sound, BeforeCursor;
    StartIsSound(LiveFilters(f), nums, v, v.t);
    LiveTheorem(LiveFilters(f), nums, v.answer.maxId, FeedFrom(v), v.t, hs, feeds);
    WindowOnlyNarrows(f, r, nums);
    if v.answer.maxId < r.id {
      SoundHas(LiveFilters(f), nums, v.answer.maxId, feeds[|hs|], TableAtEnd(v.t, hs), r);
    } else {
      NewestIsGivenOut(v.before);
      assert r in v.t.rows;
      if r !in v.answer.rows && BeforeCursor(v.after, r) {
        LeftForLater(f, v, nums, r);
      }
    }
  }

  lemma SoundHas(f: Filters, nums: Numbers, start: int, s: Feed, now: Snapshot, r: Row)
    requires Sound(f, nums, start, s, now) && r in now.rows && Matching(f, r, nums) && start < r.id <= s.client
    ensures r in s.delivered
  {
    hide Matching;
  }

  lemma NewestIsGivenOut(t: Snapshot)
    requires Consistent(t)
    ensures Newest(t) <= t.last
  {
  }

  lemma WindowOnlyNarrows(f: Filters, r: Row, nums: Numbers)
    requires Matching(f, r, nums)
    ensures Matching(LiveFilters(f), r, nums)
  {
    hide Keeps;
  }
}
