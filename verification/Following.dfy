/** Following one log stream over one connection. */
module Following {
  import opened Wrappers
  import opened Frames

  // ----- one connection

  datatype Event = Arrives(frame: Frame) | Cancels | Ends | Fails(message: string)

  datatype Outcome = ContextDone | StreamEnded | StreamFailed(message: string)

  /** The frames that come in before the context is cancelled. */
  function Accepted(events: seq<Event>, cancelled: bool): seq<Frame> {
    if events == [] || cancelled || !events[0].Arrives? then []
    else [events[0].frame] + Accepted(events[1..], cancelled)
  }

  /** How following ends; None while it goes on. */
  function OutcomeOf(events: seq<Event>, cancelled: bool): Option<Outcome> {
    if events == [] then None
    else
      match events[0]
      case Arrives(_) => OutcomeOf(events[1..], cancelled)
      case Cancels => OutcomeOf(events[1..], true)
      case Ends => Some(if cancelled then ContextDone else StreamEnded)
      case Fails(message) => Some(if cancelled then ContextDone else StreamFailed(message))
  }

  /** Whether the context is cancelled before following ends. */
  predicate CancelSeen(events: seq<Event>) {
    events != [] && (events[0].Cancels? || (events[0].Arrives? && CancelSeen(events[1..])))
  }

  /** What is accepted and how following ends, by the first event that is no frame
      and the first one that ends the stream. */
  lemma {:induction false} FollowingExact(events: seq<Event>, n: nat)
    requires n <= |events| && (forall i :: 0 <= i < n ==> events[i].Arrives?)
    requires n < |events| ==> !events[n].Arrives?
    ensures |Accepted(events, false)| == n && forall i :: 0 <= i < n ==> Accepted(events, false)[i] == events[i].frame
    ensures CancelSeen(events) <==> n < |events| && events[n].Cancels?
    ensures n < |events| && events[n].Ends? ==> OutcomeOf(events, false) == Some(StreamEnded)
    ensures n < |events| && events[n].Fails? ==> OutcomeOf(events, false) == Some(StreamFailed(events[n].message))
    ensures n < |events| && events[n].Cancels? ==>
              OutcomeOf(events, false) ==
              if exists e :: e in events[n..] && (e.Ends? || e.Fails?) then Some(ContextDone) else None
    ensures n == |events| ==> OutcomeOf(events, false) == None
  {
    if n > 0 {
      FollowingExact(events[1..], n - 1);
      assert events[1..][n - 1..] == events[n..];
    } else if events != [] && events[0].Cancels? {
      OnceCancelled(events[1..]);
      assert events[0..] == events;
      assert forall e :: e in events <==> e == events[0] || e in events[1..];
    }
  }

  lemma {:induction false} OnceCancelled(events: seq<Event>)
    ensures OutcomeOf(events, true) ==
            if exists e :: e in events && (e.Ends? || e.Fails?) then Some(ContextDone) else None
  {
    if events != [] {
      OnceCancelled(events[1..]);
      assert forall e :: e in events <==> e == events[0] || e in events[1..];
    }
  }

  function FirstData(frames: seq<Frame>): Option<Frame> {
    if frames == [] then None
    else if frames[0].data != [] then Some(frames[0])
    else FirstData(frames[1..])
  }

  /** Whether reading starts after the beginning of a file. */
  predicate StartsInside(frames: seq<Frame>) {
    FirstData(frames).Some? && Base(FirstData(frames).value) > 0
  }

  function WithoutFirst(drop: bool, lines: seq<Line>): seq<Line> {
    if drop && lines != [] then lines[1..] else lines
  }

  /** What following hands on: the lines of the frames, but for the first when
      reading starts inside a file. */
  function Emitted(frames: seq<Frame>): seq<Line> {
    WithoutFirst(StartsInside(frames), Run(INITIAL, frames).lines)
  }

  lemma {:induction false} RunAppend(s: Splitter, a: seq<Frame>, b: seq<Frame>)
    ensures var first := Run(s, a);
            var second := Run(first.next, b);
            Run(s, a + b) == Step(first.lines + second.lines, second.next)
    decreases |a|
  {
    hide Added;
    if a == [] {
      assert a + b == b;
    } else {
      RunAppend(Added(s, a[0]).next, a[1..], b);
      assert (a + b)[1..] == a[1..] + b;
    }
  }

  lemma RunOne(s: Splitter, f: Frame)
    ensures Run(s, [f]) == Added(s, f)
  {
    hide Added;
    assert [f][1..] == [];
  }

  lemma {:induction false} FirstDataAppend(frames: seq<Frame>, f: Frame)
    ensures FirstData(frames + [f]) ==
            if FirstData(frames).Some? then FirstData(frames) else if f.data != [] then Some(f) else None
  {
    if frames == [] {
      assert frames + [f] == [f];
    } else {
      FirstDataAppend(frames[1..], f);
      assert (frames + [f])[1..] == frames[1..] + [f];
    }
  }

  /** Nothing comes out of frames without data. */
  lemma {:induction false} NoDataNoLines(s: Splitter, frames: seq<Frame>)
    requires FirstData(frames).None?
    ensures Run(s, frames) == Step([], s)
  {
    if frames != [] {
      NoDataNoLines(s, frames[1..]);
    }
  }

  /** The lines of the next frame, with the flag that drops the first. */
  lemma EmittedStep(accepted: seq<Frame>, f: Frame)
    ensures var before, step := Run(INITIAL, accepted), Added(Run(INITIAL, accepted).next, f);
            var drop := StartsInside(accepted + [f]) && before.lines == [];
            && Run(INITIAL, accepted + [f]) == Step(before.lines + step.lines, step.next)
            && Emitted(accepted + [f]) == Emitted(accepted) + WithoutFirst(drop, step.lines)
            && (FirstData(accepted).Some? ==> StartsInside(accepted + [f]) == StartsInside(accepted))
            && (FirstData(accepted).None? ==>
                  before == Step([], INITIAL) && StartsInside(accepted + [f]) == (f.data != [] && Base(f) > 0))
  {
    hide Added;
    RunAppend(INITIAL, accepted, [f]);
    RunOne(Run(INITIAL, accepted).next, f);
    FirstDataAppend(accepted, f);
    if FirstData(accepted).None? {
      NoDataNoLines(INITIAL, accepted);
    }
  }

  /** How many lines are handed on before the last frame that is accepted. */
  function BeforeLast(frames: seq<Frame>): (n: nat)
    ensures n <= |Emitted(frames)|
  {
    if frames == [] then 0
    else
      var earlier := frames[..|frames| - 1];
      EmittedStep(earlier, frames[|frames| - 1]);
      assert earlier + [frames[|frames| - 1]] == frames;
      |Emitted(earlier)|
  }

  /** Hands on the lines of the frames, and says how many of them were handed on
      before the last frame, and whether the context was cancelled. */
  method Follow(events: seq<Event>)
      returns (emitted: seq<Line>, beforeLast: nat, cancelled: bool, outcome: Option<Outcome>)
    ensures emitted == Emitted(Accepted(events, false))
    ensures beforeLast == BeforeLast(Accepted(events, false)) && cancelled == CancelSeen(events)
    ensures outcome == OutcomeOf(events, false)
  {
    hide Run, Added, FirstData, Emitted;
    emitted, beforeLast, cancelled := [], 0, false;
    var lines := new FrameLines();
    var firstFrame, dropPartial := true, false;
    ghost var accepted: seq<Frame> := [];
    NothingYet();
    var k := 0;
    while k < |events|
      invariant k <= |events| && fresh(lines)
      invariant Accepted(events, false) == accepted + Accepted(events[k..], cancelled)
      invariant OutcomeOf(events, false) == OutcomeOf(events[k..], cancelled)
      invariant CancelSeen(events) == (cancelled || CancelSeen(events[k..]))
      invariant emitted == Emitted(accepted) && beforeLast == BeforeLast(accepted)
      invariant lines.State() == Run(INITIAL, accepted).next
      invariant firstFrame == FirstData(accepted).None?
      invariant dropPartial == (StartsInside(accepted) && Run(INITIAL, accepted).lines == [])
    {
      var event := events[k];
      assert events[k..][0] == event && events[k..][1..] == events[k + 1..];
      assert accepted + [] == accepted;
      k := k + 1;
      match event {
        case Arrives(frame) =>
          if !cancelled {
            EmittedStep(accepted, frame);
            accepted := accepted + [frame];
            beforeLast := |emitted|;
            if frame.data == [] {
              AddedNothing(lines.State(), frame);
              FirstDataAppend(accepted[..|accepted| - 1], frame);
              assert accepted[..|accepted| - 1] + [frame] == accepted;
            } else {
              FirstDataAppend(accepted[..|accepted| - 1], frame);
              assert accepted[..|accepted| - 1] + [frame] == accepted;
              if firstFrame {
                firstFrame := false;
                dropPartial := frame.offset > |frame.data|;
              }
              var got := lines.Add(frame);
              emitted, dropPartial := EmitLines(emitted, got, dropPartial);
            }
          }
        case Cancels =>
          cancelled := true;
        case Ends =>
          outcome := Some(if cancelled then ContextDone else StreamEnded);
          return;
        case Fails(message) =>
          outcome := Some(if cancelled then ContextDone else StreamFailed(message));
          return;
      }
    }
    assert accepted + [] == accepted;
    outcome := None;
  }

  lemma NothingYet()
    ensures Emitted([]) == [] && Run(INITIAL, []) == Step([], INITIAL) && FirstData([]).None? && !StartsInside([])
  {
  }

  method EmitLines(emitted: seq<Line>, got: seq<Line>, drop: bool) returns (r: seq<Line>, dropPartial: bool)
    ensures r == emitted + WithoutFirst(drop, got)
    ensures dropPartial == (drop && got == [])
  {
    r, dropPartial := emitted, drop;
    for i := 0 to |got|
      invariant r == emitted + WithoutFirst(drop, got[..i])
      invariant dropPartial == (drop && i == 0)
    {
      if dropPartial {
        dropPartial := false;
      } else {
        r := r + [got[i]];
      }
      assert got[..i + 1] == got[..i] + [got[i]];
    }
    assert got[..|got|] == got;
  }
}
