/** Cutting streamed log frames into lines. */
module Frames {
  import opened Wrappers
  import opened Text

  newtype byte = x: int | 0 <= x < 256
  type Bytes = seq<byte>

  const NEWLINE: byte := 10

  /** Part of a log file; the offset is the one after the data. */
  datatype Frame = Frame(file: string, offset: int, data: Bytes)

  function Base(f: Frame): int {
    f.offset - |f.data|
  }

  datatype Line = Line(text: Bytes, file: string, offset: int)

  /** Where the splitting of a stream stands: the unfinished line, and where it
      starts. */
  datatype Splitter = Splitter(file: string, start: int, partial: Bytes)

  datatype Step = Step(lines: seq<Line>, next: Splitter)

  const INITIAL: Splitter := Splitter("", 0, [])

  function Piece(file: string, start: int, text: Bytes): seq<Line> {
    if text == [] then [] else [Line(text, file, start)]
  }

  function Cut(file: string, start: int, data: Bytes): Step
    decreases |data|
  {
    match IndexOf(data, NEWLINE)
    case None => Step([], Splitter(file, start, data))
    case Some(i) =>
      var rest := Cut(file, start + i + 1, data[i + 1..]);
      Step(Piece(file, start, data[..i]) + rest.lines, rest.next)
  }

  function Flushed(s: Splitter): seq<Line> {
    Piece(s.file, s.start, s.partial)
  }

  function Added(s: Splitter, f: Frame): Step {
    if f.data == [] then Step([], s)
    else if f.file != s.file then
      var c := Cut(f.file, Base(f), f.data);
      Step(Flushed(s) + c.lines, c.next)
    else Cut(s.file, if s.partial == [] then Base(f) else s.start, s.partial + f.data)
  }

  function Run(s: Splitter, frames: seq<Frame>): Step
    decreases |frames|
  {
    if frames == [] then Step([], s)
    else
      var first := Added(s, frames[0]);
      var rest := Run(first.next, frames[1..]);
      Step(first.lines + rest.lines, rest.next)
  }

  /** The splitter, updated in place. */
  class FrameLines {
    var file: string
    var start: int
    var partial: Bytes

    function State(): Splitter
      reads this
    {
      Splitter(file, start, partial)
    }

    constructor ()
      ensures State() == INITIAL
    {
      file, start, partial := "", 0, [];
    }

    method Flush() returns (lines: seq<Line>)
      modifies this
      ensures lines == Flushed(old(State()))
      ensures State() == old(State()).(partial := [])
    {
      lines := [];
      if partial == [] {
        return;
      }
      var line := partial;
      partial := [];
      lines := [Line(line, file, start)];
    }

    method Add(frame: Frame) returns (lines: seq<Line>)
      modifies this
      ensures Step(lines, State()) == Added(old(State()), frame)
    {
      hide Cut;
      lines := [];
      if frame.data == [] {
        return;
      }
      var base := frame.offset - |frame.data|;
      if frame.file != file {
        lines := Flush();
        file := frame.file;
        start := base;
      } else if partial == [] {
        start := base;
      }
      assert [] + frame.data == frame.data;
      partial := partial + frame.data;
      ghost var head, from := lines, State();
      assert Added(old(State()), frame) ==
             Step(head + Cut(file, start, partial).lines, Cut(file, start, partial).next);
      while true
        invariant file == from.file && |partial| <= |from.partial|
        invariant var whole, rest := Cut(file, from.start, from.partial), Cut(file, start, partial);
                  head + whole.lines == lines + rest.lines && whole.next == rest.next
        decreases |partial|
      {
        var i := IndexOf(partial, NEWLINE);
        if i.None? {
          CutNone(file, start, partial);
          return;
        }
        CutStep(file, start, partial[..i.value], partial[i.value + 1..]);
        assert partial == partial[..i.value] + [NEWLINE] + partial[i.value + 1..];
        if i.value > 0 {
          lines := lines + [Line(partial[..i.value], file, start)];
        }
        partial := partial[i.value + 1..];
        start := start + i.value + 1;
      }
    }
  }

  // ----- cutting in pieces

  /** Cutting leaves a tail without a line end, which stands where the data
      ends. */
  lemma {:induction false} CutTail(file: string, start: int, data: Bytes)
    ensures var n := Cut(file, start, data).next;
            && n.file == file && NEWLINE !in n.partial && start <= n.start
            && n.start + |n.partial| == start + |data| && |n.partial| <= |data|
            && n.partial == data[|data| - |n.partial|..]
    decreases |data|
  {
    hide Cut;
    match IndexOf(data, NEWLINE)
    case None =>
      CutNone(file, start, data);
    case Some(i) =>
      var tail := data[i + 1..];
      assert data == data[..i] + [NEWLINE] + tail;
      CutStep(file, start, data[..i], tail);
      CutTail(file, start + i + 1, tail);
  }

  /** Cutting a text in two pieces gives what cutting it at once gives. */
  lemma {:induction false} CutAppend(file: string, start: int, a: Bytes, b: Bytes)
    ensures var first := Cut(file, start, a);
            var second := Cut(file, first.next.start, first.next.partial + b);
            Cut(file, start, a + b) == Step(first.lines + second.lines, second.next)
    decreases |a|
  {
    hide Cut;
    match IndexOf(a, NEWLINE)
    case None =>
      CutNone(file, start, a);
    case Some(i) =>
      var head, tail := a[..i], a[i + 1..];
      CutStep(file, start, head, tail);
      CutStep(file, start, head, tail + b);
      assert a == head + [NEWLINE] + tail;
      assert a + b == head + [NEWLINE] + (tail + b);
      CutAppend(file, start + i + 1, tail, b);
  }

  lemma CutNone(file: string, start: int, data: Bytes)
    requires NEWLINE !in data
    ensures Cut(file, start, data) == Step([], Splitter(file, start, data))
  {
  }

  lemma CutStep(file: string, start: int, head: Bytes, tail: Bytes)
    requires NEWLINE !in head
    ensures var rest := Cut(file, start + |head| + 1, tail);
            Cut(file, start, head + [NEWLINE] + tail) == Step(Piece(file, start, head) + rest.lines, rest.next)
  {
    FirstIndex(head, NEWLINE, tail);
    var data := head + [NEWLINE] + tail;
    assert data[..|head|] == head && data[|head| + 1..] == tail;
  }

  /** s can go on with f: f is of another file, or continues where s stands. */
  predicate Continues(s: Splitter, f: Frame) {
    f.data != [] && f.file == s.file && s.partial != [] ==> s.start + |s.partial| == Base(f)
  }

  function Both(f: Frame, g: Frame): Frame {
    Frame(f.file, g.offset, f.data + g.data)
  }

  lemma AddTwice(s: Splitter, f: Frame, g: Frame)
    requires f.data != [] && g.data != [] && f.file == g.file && Base(g) == f.offset && Continues(s, f)
    ensures Continues(Added(s, f).next, g)
    ensures var first := Added(s, f);
            var second := Added(first.next, g);
            Added(s, Both(f, g)) == Step(first.lines + second.lines, second.next)
  {
    hide Cut;
    var from := if s.file == f.file && s.partial != [] then s.start else Base(f);
    var data := if s.file == f.file then s.partial + f.data else f.data;
    CutTail(f.file, from, data);
    CutAppend(f.file, from, data, g.data);
    assert data + g.data == (if s.file == f.file then s.partial else []) + (f.data + g.data);
  }

  // ----- how frames are split does not matter

  /** Each frame starts where the last one of its file before it ended, unless
      another file came between. */
  predicate Contiguous(seen: Option<Frame>, frames: seq<Frame>)
    decreases |frames|
  {
    frames == []
    || (if frames[0].data == [] then Contiguous(seen, frames[1..])
        else
          && (seen.Some? && seen.value.file == frames[0].file ==> Base(frames[0]) == seen.value.offset)
          && Contiguous(Some(frames[0]), frames[1..]))
  }

  /** One frame for each stretch of a file. */
  function Merged(frames: seq<Frame>): seq<Frame> {
    if frames == [] then []
    else
      var rest := Merged(frames[1..]);
      if frames[0].data == [] then rest
      else if rest != [] && rest[0].file == frames[0].file then [Both(frames[0], rest[0])] + rest[1..]
      else [frames[0]] + rest
  }

  lemma {:induction false} MergedStart(seen: Frame, frames: seq<Frame>)
    requires Contiguous(Some(seen), frames)
    ensures forall f :: f in Merged(frames) ==> f.data != []
    ensures var m := Merged(frames);
            m != [] && m[0].file == seen.file ==> Base(m[0]) == seen.offset
    decreases |frames|
  {
    if frames != [] {
      MergedStart(if frames[0].data == [] then seen else frames[0], frames[1..]);
    }
  }

  predicate Ready(s: Splitter, seen: Option<Frame>) {
    s.partial != [] ==> seen.Some? && seen.value.file == s.file && s.start + |s.partial| == seen.value.offset
  }

  lemma AddReady(s: Splitter, f: Frame)
    requires Continues(s, f) && f.data != []
    ensures Ready(Added(s, f).next, Some(f))
  {
    hide Cut;
    if f.file != s.file {
      CutTail(f.file, Base(f), f.data);
    } else {
      CutTail(s.file, if s.partial == [] then Base(f) else s.start, s.partial + f.data);
    }
  }

  lemma {:induction false} RunMerged(s: Splitter, seen: Option<Frame>, frames: seq<Frame>)
    requires Contiguous(seen, frames) && Ready(s, seen)
    ensures Run(s, frames) == Run(s, Merged(frames))
    decreases |frames|
  {
    hide Added;
    if frames != [] {
      var f, rest := frames[0], frames[1..];
      if f.data == [] {
        AddedNothing(s, f);
        RunMerged(s, seen, rest);
      } else {
        AddReady(s, f);
        RunMerged(Added(s, f).next, Some(f), rest);
        MergedStart(f, rest);
        RunMergedStep(s, f, Merged(rest));
      }
    }
  }

  lemma AddedNothing(s: Splitter, f: Frame)
    requires f.data == []
    ensures Added(s, f) == Step([], s)
  {
  }

  lemma RunMergedStep(s: Splitter, f: Frame, rest: seq<Frame>)
    requires f.data != [] && Continues(s, f)
    requires rest != [] && rest[0].file == f.file ==> rest[0].data != [] && Base(rest[0]) == f.offset
    ensures var merged := if rest != [] && rest[0].file == f.file then [Both(f, rest[0])] + rest[1..] else [f] + rest;
            var first := Added(s, f);
            var then_ := Run(first.next, rest);
            Run(s, merged) == Step(first.lines + then_.lines, then_.next)
  {
    hide Added;
    if rest != [] && rest[0].file == f.file {
      AddTwice(s, f, rest[0]);
      assert ([Both(f, rest[0])] + rest[1..])[1..] == rest[1..];
    } else {
      assert ([f] + rest)[1..] == rest;
    }
  }

  /** Two ways to split the same stretches of the same files into frames give
      the same lines at the same offsets, and leave the same unfinished line. */
  lemma ChunkingDoesNotMatter(a: seq<Frame>, b: seq<Frame>)
    requires Contiguous(None, a) && Contiguous(None, b) && Merged(a) == Merged(b)
    ensures Run(INITIAL, a) == Run(INITIAL, b)
  {
    RunMerged(INITIAL, None, a);
    RunMerged(INITIAL, None, b);
  }
}
