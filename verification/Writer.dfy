/** One writer for all followers, and how it is shut down. */
module Writer {
  import opened Semantics
  import opened Table

  const MAX_WRITE_BATCH: nat := 1000

  function Concat(batches: seq<seq<Row>>): seq<Row> {
    if batches == [] then [] else batches[0] + Concat(batches[1..])
  }

  lemma {:induction false} ConcatSnoc(batches: seq<seq<Row>>, batch: seq<Row>)
    ensures Concat(batches + [batch]) == Concat(batches) + batch
  {
    if batches == [] {
      assert [] + [batch] == [batch] && [batch][1..] == [];
    } else {
      ConcatSnoc(batches[1..], batch);
      assert (batches + [batch])[1..] == batches[1..] + [batch];
    }
  }

  // ----- the writer

  datatype WriterEvent = Receives(entry: Row) | Ticks | SeesClosed

  /** The writer's pending batch, the batches it has handed to the store, and
      whether it has stopped. */
  datatype WriterState = WriterState(batch: seq<Row>, handed: seq<seq<Row>>, stopped: bool)

  const IDLE: WriterState := WriterState([], [], false)

  function FlushedBatch(w: WriterState): WriterState {
    if w.batch == [] then w else w.(batch := [], handed := w.handed + [w.batch])
  }

  function WriterStep(w: WriterState, e: WriterEvent): WriterState {
    if w.stopped then w
    else
      match e
      case Receives(entry) =>
        var grown := w.(batch := w.batch + [entry]);
        if |grown.batch| >= MAX_WRITE_BATCH then FlushedBatch(grown) else grown
      case Ticks => FlushedBatch(w)
      case SeesClosed => FlushedBatch(w).(stopped := true)
  }

  function WriterRun(w: WriterState, events: seq<WriterEvent>): WriterState
    decreases |events|
  {
    if events == [] then w else WriterRun(WriterStep(w, events[0]), events[1..])
  }

  /** What the writer receives before it stops. */
  function Received(events: seq<WriterEvent>): seq<Row> {
    if events == [] || events[0].SeesClosed? then []
    else (if events[0].Receives? then [events[0].entry] else []) + Received(events[1..])
  }

  /** The writer's loop: every batch it hands over, and what is still pending. */
  method Write(events: seq<WriterEvent>) returns (handed: seq<seq<Row>>, batch: seq<Row>, stopped: bool)
    ensures WriterState(batch, handed, stopped) == WriterRun(IDLE, events)
  {
    handed, batch, stopped := [], [], false;
    for k := 0 to |events|
      invariant WriterRun(IDLE, events) == WriterRun(WriterState(batch, handed, false), events[k..])
    {
      match events[k] {
        case Receives(entry) =>
          batch := batch + [entry];
          if |batch| >= MAX_WRITE_BATCH {
            handed, batch := HandOver(handed, batch);
          }
        case Ticks =>
          handed, batch := HandOver(handed, batch);
        case SeesClosed =>
          handed, batch := HandOver(handed, batch);
          StoppedStays(WriterState(batch, handed, true), events[k + 1..]);
          return handed, batch, true;
      }
    }
    return handed, batch, false;
  }

  method HandOver(handed: seq<seq<Row>>, batch: seq<Row>) returns (h: seq<seq<Row>>, b: seq<Row>)
    ensures b == [] && h == if batch == [] then handed else handed + [batch]
  {
    if |batch| == 0 {
      return handed, batch;
    }
    return handed + [batch], [];
  }

  lemma {:induction false} StoppedStays(w: WriterState, events: seq<WriterEvent>)
    requires w.stopped
    ensures WriterRun(w, events) == w
    decreases |events|
  {
    if events != [] {
      StoppedStays(w, events[1..]);
    }
  }

  /** No batch is empty or longer than the limit, and none pending is full. */
  predicate BatchesFit(w: WriterState) {
    && |w.batch| < MAX_WRITE_BATCH && (w.stopped ==> w.batch == [])
    && forall b :: b in w.handed ==> 0 < |b| <= MAX_WRITE_BATCH
  }

  lemma WriterStepKeeps(w: WriterState, e: WriterEvent)
    requires BatchesFit(w)
    ensures BatchesFit(WriterStep(w, e))
    ensures var u := WriterStep(w, e);
            Concat(u.handed) + u.batch ==
            Concat(w.handed) + w.batch + if e.Receives? && !w.stopped then [e.entry] else []
  {
    ConcatSnoc(w.handed, w.batch);
    if e.Receives? {
      ConcatSnoc(w.handed, w.batch + [e.entry]);
    }
  }

  /** The batches are what is received, in its order, cut into pieces that fit;
      once the channel is closed nothing is pending. */
  lemma {:induction false} WriterTheorem(w: WriterState, events: seq<WriterEvent>)
    requires BatchesFit(w) && !w.stopped
    ensures var u := WriterRun(w, events);
            && BatchesFit(u)
            && Concat(u.handed) + u.batch == Concat(w.handed) + w.batch + Received(events)
            && (u.stopped <==> SeesClosed in events)
    decreases |events|
  {
    hide WriterStep, BatchesFit, Concat;
    if events != [] {
      var e, next := events[0], WriterStep(w, events[0]);
      WriterStepKeeps(w, e);
      OnlyClosingStops(w, e);
      if e.SeesClosed? {
        StoppedStays(next, events[1..]);
      } else {
        WriterTheorem(next, events[1..]);
      }
    }
  }

  lemma OnlyClosingStops(w: WriterState, e: WriterEvent)
    requires !w.stopped
    ensures WriterStep(w, e).stopped <==> e.SeesClosed?
  {
  }

  /** After a tick nothing is pending: what was is the last batch handed over. */
  lemma TickHandsOver(w: WriterState)
    requires !w.stopped
    ensures var u := WriterStep(w, Ticks);
            && u.batch == [] && !u.stopped && Concat(u.handed) == Concat(w.handed) + w.batch
            && (w.batch == [] ==> u.handed == w.handed)
            && (w.batch != [] ==> u.handed == w.handed + [w.batch])
  {
    ConcatSnoc(w.handed, w.batch);
  }

  function Receipts(entries: seq<Row>): (r: seq<WriterEvent>)
    ensures |r| == |entries|
  {
    seq(|entries|, i requires 0 <= i < |entries| => Receives(entries[i]))
  }

  /** Without a tick lines are handed over a thousand at a time. */
  lemma {:induction false} ThousandAreHandedOver(w: WriterState, entries: seq<Row>)
    requires !w.stopped && entries != [] && |w.batch| + |entries| <= 1000
    ensures WriterRun(w, Receipts(entries)) ==
            if |w.batch| + |entries| < 1000 then w.(batch := w.batch + entries)
            else w.(batch := [], handed := w.handed + [w.batch + entries])
    decreases |entries|
  {
    var next := WriterStep(w, Receives(entries[0]));
    assert Receipts(entries)[0] == Receives(entries[0]);
    assert Receipts(entries)[1..] == Receipts(entries[1..]);
    assert w.batch + entries == w.batch + [entries[0]] + entries[1..];
    if |entries| == 1 {
      assert Receipts(entries)[1..] == [];
      assert w.batch + entries == w.batch + [entries[0]];
    } else {
      ThousandAreHandedOver(next, entries[1..]);
    }
  }

  // ----- followers, channel, writer and shutdown together

  /** The channel holds what is sent and not yet received. */
  datatype System = System(
    following: set<nat>, channel: seq<Row>, closed: bool, cancelled: bool, runReturned: bool,
    writer: WriterState, done: bool, stopReturned: bool, sent: seq<Row>)

  datatype Action =
    | StartFollower(id: nat)
    | Send(id: nat, entry: Row)
    | ExitFollower(id: nat)
    | Cancel
    | RunReturns
    | CloseEntries
    | WriterReceives
    | WriterTicks
    | WriterSeesClosed
    | Finish
    | StopReturns

  const START: System := System({}, [], false, false, false, IDLE, false, false, [])

  /** Which actions can happen: discovery starts followers until it returns, which
      takes a cancelled context; the channel has a bounded buffer and is closed
      once discovery has returned and every follower has exited; the writer stops
      when the channel is closed and drained. A send has no condition on the
      channel being open. */
  predicate Enabled(s: System, a: Action) {
    match a
    case StartFollower(id) => !s.runReturned && id !in s.following
    case Send(id, _) => id in s.following && |s.channel| < MAX_WRITE_BATCH
    case ExitFollower(id) => id in s.following
    case Cancel => true
    case RunReturns => s.cancelled
    case CloseEntries => s.runReturned && s.following == {} && !s.closed
    case WriterReceives => s.channel != [] && !s.writer.stopped
    case WriterTicks => !s.writer.stopped
    case WriterSeesClosed => s.closed && s.channel == [] && !s.writer.stopped
    case Finish => s.closed && s.writer.stopped
    case StopReturns => s.cancelled && s.done
  }

  function Next(s: System, a: Action): System
    requires Enabled(s, a)
  {
    match a
    case StartFollower(id) => s.(following := s.following + {id})
    case Send(_, entry) => s.(channel := s.channel + [entry], sent := s.sent + [entry])
    case ExitFollower(id) => s.(following := s.following - {id})
    case Cancel => s.(cancelled := true)
    case RunReturns => s.(runReturned := true)
    case CloseEntries => s.(closed := true)
    case WriterReceives => s.(channel := s.channel[1..], writer := WriterStep(s.writer, Receives(s.channel[0])))
    case WriterTicks => s.(writer := WriterStep(s.writer, Ticks))
    case WriterSeesClosed => s.(writer := WriterStep(s.writer, SeesClosed))
    case Finish => s.(done := true)
    case StopReturns => s.(stopReturned := true)
  }

  predicate Behaves(s: System, actions: seq<Action>)
    decreases |actions|
  {
    actions == [] || (Enabled(s, actions[0]) && Behaves(Next(s, actions[0]), actions[1..]))
  }

  function Final(s: System, actions: seq<Action>): System
    requires Behaves(s, actions)
    decreases |actions|
  {
    if actions == [] then s else Final(Next(s, actions[0]), actions[1..])
  }

  /** Nothing is lost between senders and store, and each stage of the shutdown
      waits for the one before it. */
  predicate Orderly(s: System) {
    && BatchesFit(s.writer)
    && Concat(s.writer.handed) + s.writer.batch + s.channel == s.sent
    && (s.closed ==> s.runReturned && s.following == {})
    && (s.writer.stopped ==> s.closed && s.channel == [])
    && (s.done ==> s.writer.stopped) && (s.stopReturned ==> s.done)
    && |s.channel| <= MAX_WRITE_BATCH
  }

  lemma StepKeepsOrder(s: System, a: Action)
    requires Orderly(s) && Enabled(s, a)
    ensures Orderly(Next(s, a))
    ensures a.Send? ==> !s.closed
  {
    hide WriterStep, BatchesFit, Concat;
    match a
    case WriterReceives =>
      WriterStepKeeps(s.writer, Receives(s.channel[0]));
      OnlyClosingStops(s.writer, Receives(s.channel[0]));
      assert [s.channel[0]] + s.channel[1..] == s.channel;
    case WriterTicks =>
      WriterStepKeeps(s.writer, Ticks);
      OnlyClosingStops(s.writer, Ticks);
    case WriterSeesClosed =>
      WriterStepKeeps(s.writer, SeesClosed);
    case Send(_, entry) =>
    case _ =>
  }

  lemma {:induction false} AlwaysOrderly(s: System, actions: seq<Action>)
    requires Orderly(s) && Behaves(s, actions)
    ensures Orderly(Final(s, actions))
    decreases |actions|
  {
    hide Orderly, Enabled, Next;
    if actions != [] {
      StepKeepsOrder(s, actions[0]);
      AlwaysOrderly(Next(s, actions[0]), actions[1..]);
    }
  }

  /** In every interleaving, no follower sends on the closed channel. */
  lemma NothingSentAfterClose(actions: seq<Action>, a: Action)
    requires Behaves(START, actions) && Enabled(Final(START, actions), a) && a.Send?
    ensures !Final(START, actions).closed
  {
    AlwaysOrderly(START, actions);
  }

  /** When stop returns, everything ever sent has been handed to the store, in the
      order it was sent. */
  lemma StopHandsOverEverything(actions: seq<Action>)
    requires Behaves(START, actions) && Final(START, actions).stopReturned
    ensures var w := Final(START, actions).writer;
            Concat(w.handed) == Final(START, actions).sent && forall b :: b in w.handed ==> 0 < |b| <= MAX_WRITE_BATCH
  {
    AlwaysOrderly(START, actions);
    var s := Final(START, actions);
    assert Concat(s.writer.handed) + [] + [] == Concat(s.writer.handed);
  }

  // ----- stop returns

  lemma {:induction false} FinalAppend(s: System, a: seq<Action>, b: seq<Action>)
    requires Behaves(s, a) && Behaves(Final(s, a), b)
    ensures Behaves(s, a + b) && Final(s, a + b) == Final(Final(s, a), b)
    decreases |a|
  {
    hide Enabled, Next;
    if a == [] {
      assert a + b == b;
    } else {
      assert (a + b)[1..] == a[1..] + b;
      FinalAppend(Next(s, a[0]), a[1..], b);
    }
  }

  lemma Then(s: System, a: seq<Action>, action: Action)
    requires Behaves(s, a) && Enabled(Final(s, a), action)
    ensures Behaves(s, a + [action]) && Final(s, a + [action]) == Next(Final(s, a), action)
  {
    hide Enabled, Next;
    var u := Final(s, a);
    assert [action][1..] == [];
    assert Behaves(Next(u, action), []);
    FinalAppend(s, a, [action]);
  }

  /** Every follower can exit. */
  lemma {:induction false} FollowersExit(s: System) returns (actions: seq<Action>)
    ensures Behaves(s, actions) && Final(s, actions) == s.(following := {})
    decreases |s.following|
  {
    if s.following == {} {
      actions := [];
    } else {
      var id :| id in s.following;
      var next := Next(s, ExitFollower(id));
      var rest := FollowersExit(next);
      actions := [ExitFollower(id)] + rest;
      assert actions[1..] == rest;
    }
  }

  /** The writer can drain the channel. */
  lemma {:induction false} WriterDrains(s: System) returns (actions: seq<Action>)
    requires Orderly(s)
    ensures Behaves(s, actions) && Orderly(Final(s, actions))
    ensures var u := Final(s, actions);
            u == s.(channel := [], writer := u.writer)
    decreases |s.channel|
  {
    hide Orderly, WriterStep;
    if s.channel == [] {
      actions := [];
    } else {
      StoppedIsDrained(s);
      var next := Next(s, WriterReceives);
      StepKeepsOrder(s, WriterReceives);
      var rest := WriterDrains(next);
      actions := [WriterReceives] + rest;
      assert actions[1..] == rest;
    }
  }

  lemma StoppedIsDrained(s: System)
    requires Orderly(s)
    ensures s.writer.stopped ==> s.closed && s.channel == []
  {
  }

  /** From every orderly state in which the context is cancelled, some steps lead to
      the return of stop. */
  lemma StopCanReturn(s: System) returns (actions: seq<Action>)
    requires Orderly(s) && s.cancelled
    ensures Behaves(s, actions) && Final(s, actions).stopReturned
  {
    hide Orderly, WriterStep, Behaves, Final;
    actions := FollowersExit(s);
    Then(s, actions, RunReturns);
    actions := actions + [RunReturns];
    AlwaysOrderly(s, actions);
    var drain := WriterDrains(Final(s, actions));
    FinalAppend(s, actions, drain);
    actions := actions + drain;
    if !Final(s, actions).closed {
      Then(s, actions, CloseEntries);
      actions := actions + [CloseEntries];
    }
    if !Final(s, actions).writer.stopped {
      OnlyClosingStops(Final(s, actions).writer, SeesClosed);
      Then(s, actions, WriterSeesClosed);
      actions := actions + [WriterSeesClosed];
    }
    Then(s, actions, Finish);
    actions := actions + [Finish];
    Then(s, actions, StopReturns);
    actions := actions + [StopReturns];
  }

  /** So it is in every reachable state: stop is never stuck. */
  lemma StopIsNeverStuck(actions: seq<Action>) returns (more: seq<Action>)
    requires Behaves(START, actions) && Final(START, actions).cancelled
    ensures Behaves(START, actions + more) && Final(START, actions + more).stopReturned
  {
    hide Orderly, Behaves, Final;
    StartIsOrderly();
    AlwaysOrderly(START, actions);
    more := StopCanReturn(Final(START, actions));
    FinalAppend(START, actions, more);
  }

  lemma StartIsOrderly()
    ensures Orderly(START)
  {
  }

  /** The table after the batches are inserted one after another. */
  function InsertedBatches(t: Snapshot, batches: seq<seq<Row>>): Snapshot
    decreases |batches|
  {
    if batches == [] then t else InsertedBatches(InsertedAll(t, batches[0]), batches[1..])
  }

  lemma {:induction false} BatchesInsertAll(t: Snapshot, batches: seq<seq<Row>>)
    ensures InsertedBatches(t, batches) == InsertedAll(t, Concat(batches))
    decreases |batches|
  {
    hide InsertedAll;
    if batches == [] {
      InsertNothing(t);
    } else {
      BatchesInsertAll(InsertedAll(t, batches[0]), batches[1..]);
      BatchingDoesNotMatter(t, batches[0], Concat(batches[1..]));
    }
  }

  lemma InsertNothing(t: Snapshot)
    ensures InsertedAll(t, []) == t
  {
  }

  /** So when stop returns and no insert failed, the table is what inserting all
      that was sent, line by line, makes of it. */
  lemma StopStoresEverything(t: Snapshot, actions: seq<Action>)
    requires Behaves(START, actions) && Final(START, actions).stopReturned
    ensures InsertedBatches(t, Final(START, actions).writer.handed) == InsertedAll(t, Final(START, actions).sent)
  {
    StopHandsOverEverything(actions);
    BatchesInsertAll(t, Final(START, actions).writer.handed);
  }
}
