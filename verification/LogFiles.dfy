/** A task stream's log files, and which of their lines one connection hands
    on. */
module LogFiles {
  import opened Wrappers
  import opened Text
  import opened Frames
  import opened Following

  /** A rotated log: each file holds everything written to it. */
  datatype File = File(name: string, content: Bytes)

  // ----- what a line is

  predicate StartsLine(content: Bytes, at: int) {
    0 <= at <= |content| && (at == 0 || content[at - 1] == NEWLINE)
  }

  /** l stands in a file with this content, starts a line there, and has no line
      end in it. */
  predicate StandsIn(content: Bytes, l: Line) {
    && l.text != [] && NEWLINE !in l.text && StartsLine(content, l.offset)
    && l.offset + |l.text| <= |content| && content[l.offset..l.offset + |l.text|] == l.text
  }

  /** A line that has its line end within the first `end` bytes. */
  predicate Terminated(content: Bytes, end: int, l: Line) {
    StandsIn(content, l) && l.offset + |l.text| < end <= |content| && content[l.offset + |l.text|] == NEWLINE
  }

  /** A line that ends at a line end or with the file. */
  predicate WholeLine(content: Bytes, l: Line) {
    && StandsIn(content, l)
    && (l.offset + |l.text| == |content| || content[l.offset + |l.text|] == NEWLINE)
  }

  predicate Rising(lines: seq<Line>) {
    forall i, j :: 0 <= i < j < |lines| ==> lines[i].offset < lines[j].offset
  }

  /** The lines of a closed file. */
  function Lines(file: File): seq<Line> {
    var c := Cut(file.name, 0, file.content);
    c.lines + Flushed(c.next)
  }

  lemma HeadIsOnly(content: Bytes, at: int, end: int, i: nat, l: Line)
    requires 0 <= at && at + i < end <= |content| && content[at + i] == NEWLINE
    requires forall k :: at <= k < at + i ==> content[k] != NEWLINE
    requires at <= l.offset <= at + i && Terminated(content, end, l)
    ensures i > 0 && l.offset == at && l.text == content[at..at + i]
  {
    assert l.text[0] == content[l.offset];
    assert forall k :: l.offset <= k < l.offset + |l.text| ==> content[k] == l.text[k - l.offset];
    assert l.offset == at;
  }

  lemma HeadIsLine(file: string, content: Bytes, at: int, end: int, i: nat)
    requires StartsLine(content, at) && at + i < end <= |content| && content[at + i] == NEWLINE && i > 0
    requires NEWLINE !in content[at..at + i]
    ensures Terminated(content, end, Line(content[at..at + i], file, at))
  {
  }

  /** The lines cut from part of a file are exactly the terminated lines that
      start and end in it, in order. */
  lemma {:induction false} CutExact(file: string, content: Bytes, at: int, end: int)
    requires StartsLine(content, at) && at <= end <= |content|
    ensures var lines := Cut(file, at, content[at..end]).lines;
            (forall l: Line :: l in lines <==> l.file == file && at <= l.offset && Terminated(content, end, l))
            && Rising(lines)
    decreases |content| - at
  {
    hide Cut, Terminated;
    var data := content[at..end];
    match IndexOf(data, NEWLINE)
    case None =>
      CutNone(file, at, data);
      forall l: Line | at <= l.offset ensures !Terminated(content, end, l) {
        NoneTerminated(content, at, end, l);
      }
    case Some(i) =>
      var next := at + i + 1;
      var rest := Cut(file, next, content[next..end]).lines;
      assert data == data[..i] + [NEWLINE] + content[next..end] && data[..i] == content[at..at + i];
      CutStep(file, at, data[..i], content[next..end]);
      CutExact(file, content, next, end);
      HeadExact(file, content, at, end, i, rest);
  }

  lemma NoneTerminated(content: Bytes, at: int, end: int, l: Line)
    requires 0 <= at <= end <= |content| && NEWLINE !in content[at..end] && at <= l.offset
    ensures !Terminated(content, end, l)
  {
    assert forall k :: at <= k < end ==> content[k] == content[at..end][k - at];
  }

  lemma HeadExact(file: string, content: Bytes, at: int, end: int, i: nat, rest: seq<Line>)
    requires StartsLine(content, at) && at + i < end <= |content|
    requires content[at + i] == NEWLINE && NEWLINE !in content[at..at + i]
    requires forall l :: l in rest <==> l.file == file && at + i + 1 <= l.offset && Terminated(content, end, l)
    requires Rising(rest)
    ensures var lines := Piece(file, at, content[at..at + i]) + rest;
            && (forall l: Line :: l in lines <==> l.file == file && at <= l.offset && Terminated(content, end, l))
            && Rising(lines)
  {
    hide Terminated;
    var head := Piece(file, at, content[at..at + i]);
    assert forall k :: at <= k < at + i ==> content[k] == content[at..at + i][k - at];
    if i > 0 {
      HeadIsLine(file, content, at, end, i);
    }
    forall l: Line | l.file == file && at <= l.offset <= at + i && Terminated(content, end, l) ensures l in head {
      HeadIsOnly(content, at, end, i, l);
    }
    assert forall j :: 0 <= j < |rest| ==> rest[j] in rest;
  }

  /** The lines of a file are exactly its whole lines, each once, in order. */
  lemma LinesExact(file: File)
    ensures forall l :: l in Lines(file) <==> l.file == file.name && WholeLine(file.content, l)
    ensures Rising(Lines(file))
  {
    hide Cut;
    var content, end := file.content, |file.content|;
    assert content[0..end] == content;
    CutExact(file.name, content, 0, end);
    CutTail(file.name, 0, content);
    TailStarts(file.name, content);
    var c := Cut(file.name, 0, content);
    assert forall j :: 0 <= j < |c.lines| ==> c.lines[j] in c.lines;
    forall l: Line | l.file == file.name && WholeLine(content, l) && !Terminated(content, end, l) ensures l in Flushed(c.next) {
      LastLine(content, c.next.start, l);
    }
  }

  lemma {:induction false} TailStartsFrom(file: string, content: Bytes, at: int)
    requires StartsLine(content, at)
    ensures StartsLine(content, Cut(file, at, content[at..]).next.start)
    decreases |content| - at
  {
    hide Cut;
    var data := content[at..];
    match IndexOf(data, NEWLINE)
    case None =>
      CutNone(file, at, data);
    case Some(i) =>
      var next := at + i + 1;
      assert data == data[..i] + [NEWLINE] + content[next..];
      CutStep(file, at, data[..i], content[next..]);
      TailStartsFrom(file, content, next);
  }

  lemma TailStarts(file: string, content: Bytes)
    ensures StartsLine(content, Cut(file, 0, content).next.start)
  {
    assert content[0..] == content;
    TailStartsFrom(file, content, 0);
  }

  lemma LastLine(content: Bytes, start: int, l: Line)
    requires StartsLine(content, start) && NEWLINE !in content[start..]
    requires StandsIn(content, l) && l.offset + |l.text| == |content|
    ensures l.offset == start && l.text == content[start..]
  {
    assert forall k :: start <= k < |content| ==> content[k] == content[start..][k - start];
    assert forall k :: l.offset <= k < |content| ==> content[k] == l.text[k - l.offset];
    assert content[|content| - 1] == l.text[|l.text| - 1];
  }

  // ----- reading part of a stream

  predicate Position(files: seq<File>, k: nat, b: int) {
    k < |files| && 0 <= b <= |files[k].content|
  }

  predicate DistinctNames(files: seq<File>) {
    forall i, j :: 0 <= i < j < |files| ==> files[i].name != files[j].name
  }

  function ClosedLines(files: seq<File>, k: nat): seq<Line>
    requires k <= |files|
  {
    if k == 0 then [] else ClosedLines(files, k - 1) + Lines(files[k - 1])
  }

  /** The lines that are complete once a stream is read up to a position. */
  function LinesUpTo(files: seq<File>, k: nat, b: int): seq<Line>
    requires Position(files, k, b)
  {
    ClosedLines(files, k) + Cut(files[k].name, 0, files[k].content[..b]).lines
  }

  function Part(file: File, b: int, e: int): seq<Frame>
    requires 0 <= b <= e <= |file.content|
  {
    if b == e then [] else [Frame(file.name, e, file.content[b..e])]
  }

  predicate Stretch(files: seq<File>, k: nat, b: int, k2: nat, e: int) {
    Position(files, k, b) && Position(files, k2, e) && k <= k2 && (k == k2 ==> b <= e) && (k < k2 ==> 0 < e)
  }

  /** A stretch of the stream as one frame for each file. */
  function Stretches(files: seq<File>, k: nat, b: int, k2: nat, e: int): seq<Frame>
    requires Stretch(files, k, b, k2, e)
    decreases k2 - k
  {
    if k == k2 then Part(files[k], b, e)
    else Part(files[k], b, |files[k].content|) + Stretches(files, k + 1, 0, k2, e)
  }

  /** The frames hold the stretch from one position to another, however split. */
  predicate Reads(files: seq<File>, k: nat, b: int, k2: nat, e: int, frames: seq<Frame>) {
    Stretch(files, k, b, k2, e) && Contiguous(None, frames) && Merged(frames) == Stretches(files, k, b, k2, e)
  }

  lemma PartRun(file: File, b: int, e: int)
    requires 0 <= b <= e <= |file.content|
    ensures var before := Cut(file.name, 0, file.content[..b]);
            var step := Run(before.next, Part(file, b, e));
            Cut(file.name, 0, file.content[..e]) == Step(before.lines + step.lines, step.next)
  {
    hide Cut;
    var head, more := file.content[..b], file.content[b..e];
    var before := Cut(file.name, 0, head);
    CutTail(file.name, 0, head);
    CutAppend(file.name, 0, head, more);
    assert head + more == file.content[..e];
    if b < e {
      RunOne(before.next, Part(file, b, e)[0]);
    }
  }

  lemma {:induction false} StretchesStart(files: seq<File>, k: nat, k2: nat, e: int)
    requires Stretch(files, k, 0, k2, e) && 0 < e
    ensures var s := Stretches(files, k, 0, k2, e);
            s != [] && s[0].data != [] && Base(s[0]) == 0 && exists i :: k <= i < |files| && files[i].name == s[0].file
    decreases k2 - k
  {
    if k < k2 && |files[k].content| == 0 {
      StretchesStart(files, k + 1, k2, e);
    }
  }

  /** Without an unfinished line, a frame is cut alike whatever came before. */
  lemma FreshFrame(t: Splitter, f: Frame)
    requires f.data != [] && t.partial == []
    ensures Added(t, f) == Cut(f.file, Base(f), f.data)
  {
    hide Cut;
    assert t.partial + f.data == f.data;
  }

  lemma OtherFile(s: Splitter, f: Frame)
    requires f.data != [] && f.file != s.file
    ensures var c := Cut(f.file, Base(f), f.data);
            Added(s, f) == Step(Flushed(s) + c.lines, c.next)
  {
    hide Cut;
  }

  /** A frame of another file first hands on the unfinished line. */
  lemma FlushFirst(s: Splitter, frames: seq<Frame>, t: Splitter)
    requires frames != [] && frames[0].data != [] && frames[0].file != s.file && t.partial == []
    ensures var step := Run(t, frames);
            Run(s, frames) == Step(Flushed(s) + step.lines, step.next)
  {
    hide Cut, Run, Added, Flushed;
    FreshFrame(t, frames[0]);
    OtherFile(s, frames[0]);
    RunCons(s, frames);
    RunCons(t, frames);
    var c := Added(t, frames[0]);
    var rest := Run(c.next, frames[1..]);
    assert Flushed(s) + c.lines + rest.lines == Flushed(s) + (c.lines + rest.lines);
  }

  /** Reading on from a position completes exactly the lines that the later
      position has over the earlier one. */
  lemma {:induction false} ReadOn(files: seq<File>, k: nat, b: int, k2: nat, e: int)
    requires DistinctNames(files) && Stretch(files, k, b, k2, e)
    ensures var from := Cut(files[k].name, 0, files[k].content[..b]).next;
            LinesUpTo(files, k, b) + Run(from, Stretches(files, k, b, k2, e)).lines == LinesUpTo(files, k2, e)
    decreases k2 - k
  {
    hide Cut, Run;
    var file := files[k];
    var before := Cut(file.name, 0, file.content[..b]);
    if k == k2 {
      PartRun(file, b, e);
    } else {
      var size := |file.content|;
      PartRun(file, b, size);
      assert file.content[..size] == file.content;
      var rest := Stretches(files, k + 1, 0, k2, e);
      RunAppend(before.next, Part(file, b, size), rest);
      StretchesStart(files, k + 1, k2, e);
      var whole := Cut(file.name, 0, file.content);
      CutTail(file.name, 0, file.content);
      NextFile(files, k);
      var next := Cut(files[k + 1].name, 0, files[k + 1].content[..0]).next;
      FlushFirst(whole.next, rest, next);
      ReadOn(files, k + 1, 0, k2, e);
    }
  }

  lemma NextFile(files: seq<File>, k: nat)
    requires k + 1 < |files|
    ensures Cut(files[k + 1].name, 0, files[k + 1].content[..0]) == Step([], Splitter(files[k + 1].name, 0, []))
    ensures LinesUpTo(files, k + 1, 0) == ClosedLines(files, k) + Lines(files[k])
  {
    assert files[k + 1].content[..0] == [];
  }

  // ----- two readings of the same frames

  /** Two readings with different unfinished lines, one from `at` and one from
      `start`: the first line differs or is gone, and the rest agree. */
  predicate SameButFirst(a: seq<Line>, at: int, b: seq<Line>, start: int, gone: bool) {
    || a == b == []
    || (a != [] && a[0].offset == at
        && if gone then b == a[1..] else b != [] && b[0].offset == start && a[1..] == b[1..])
  }

  lemma TwoCuts(file: string, at: int, p: Bytes, start: int, q: Bytes, data: Bytes)
    requires p != [] && NEWLINE !in p && NEWLINE !in q && data != []
    requires at + |p| == start + |q|
    ensures var a, b := Cut(file, at, p + data), Cut(file, start, q + data);
            if NEWLINE in data then
              a.next == b.next && a.lines != [] && SameButFirst(a.lines, at, b.lines, start, q == [] && data[0] == NEWLINE)
            else
              a == Step([], Splitter(file, at, p + data)) && b == Step([], Splitter(file, start, q + data))
  {
    hide Cut;
    match IndexOf(data, NEWLINE)
    case None =>
      CutNone(file, at, p + data);
      CutNone(file, start, q + data);
    case Some(i) =>
      var head, tail := data[..i], data[i + 1..];
      CutStep(file, at, p + head, tail);
      CutStep(file, start, q + head, tail);
      assert p + head + [NEWLINE] + tail == p + data;
      assert q + head + [NEWLINE] + tail == q + data;
  }

  lemma SameThen(a: seq<Line>, at: int, b: seq<Line>, start: int, gone: bool, rest: seq<Line>)
    requires SameButFirst(a, at, b, start, gone) && a != []
    ensures SameButFirst(a + rest, at, b + rest, start, gone)
  {
    assert (a + rest)[1..] == a[1..] + rest;
    if !gone {
      assert (b + rest)[1..] == b[1..] + rest;
    }
  }

  lemma RunCons(s: Splitter, frames: seq<Frame>)
    requires frames != []
    ensures var first := Added(s, frames[0]);
            var rest := Run(first.next, frames[1..]);
            Run(s, frames) == Step(first.lines + rest.lines, rest.next)
  {
  }

  lemma {:induction false} TwoRuns(s: Splitter, t: Splitter, frames: seq<Frame>)
    requires s.file == t.file && s.partial != [] && t.partial != [] && NEWLINE !in s.partial && NEWLINE !in t.partial
    requires s.start + |s.partial| == t.start + |t.partial|
    ensures SameButFirst(Run(s, frames).lines, s.start, Run(t, frames).lines, t.start, false)
    decreases |frames|
  {
    hide Cut, Run;
    if frames == [] {
      RunNothing(s);
      RunNothing(t);
    } else {
      var f, rest := frames[0], frames[1..];
      RunCons(s, frames);
      RunCons(t, frames);
      if f.data != [] && f.file == s.file {
        TwoCuts(s.file, s.start, s.partial, t.start, t.partial, f.data);
      }
      var a, b := Added(s, f), Added(t, f);
      if a.next == b.next && a.lines != [] {
        SameThen(a.lines, s.start, b.lines, t.start, false, Run(a.next, rest).lines);
      } else {
        TwoRuns(a.next, b.next, rest);
      }
    }
  }

  lemma RunNothing(s: Splitter)
    ensures Run(s, []) == Step([], s)
  {
  }

  /** A new connection against one that was read all along. */
  lemma FreshRun(s: Splitter, frames: seq<Frame>)
    requires s.partial != [] && NEWLINE !in s.partial && frames != [] && frames[0].data != []
    requires frames[0].file == s.file ==> s.start + |s.partial| == Base(frames[0])
    ensures SameButFirst(Run(s, frames).lines, s.start, Run(INITIAL, frames).lines, Base(frames[0]),
                         frames[0].file != s.file || frames[0].data[0] == NEWLINE)
    ensures frames[0].file != s.file ==> Run(s, frames).lines == Flushed(s) + Run(INITIAL, frames).lines
  {
    hide Cut, Run, SameButFirst;
    if frames[0].file != s.file {
      FlushFirst(s, frames, INITIAL);
    }
    var f, rest := frames[0], frames[1..];
    FreshFrame(INITIAL, f);
    RunCons(s, frames);
    RunCons(INITIAL, frames);
    var a, b := Added(s, f), Added(INITIAL, f);
    if f.file != s.file {
      FlushShape(s, b.lines, Base(f));
      SameThen(a.lines, s.start, b.lines, Base(f), true, Run(a.next, rest).lines);
    } else {
      TwoCuts(s.file, s.start, s.partial, Base(f), [], f.data);
      assert [] + f.data == f.data;
      if NEWLINE in f.data {
        SameThen(a.lines, s.start, b.lines, Base(f), f.file != s.file || f.data[0] == NEWLINE, Run(a.next, rest).lines);
      } else {
        TwoRuns(a.next, b.next, rest);
        assert [] + Run(a.next, rest).lines == Run(a.next, rest).lines;
        assert [] + Run(b.next, rest).lines == Run(b.next, rest).lines;
      }
    }
  }

  lemma FlushShape(s: Splitter, lines: seq<Line>, start: int)
    requires s.partial != []
    ensures SameButFirst(Flushed(s) + lines, s.start, lines, start, true)
  {
    assert (Flushed(s) + lines)[1..] == lines;
  }

  // ----- what one connection hands on

  predicate MidLine(files: seq<File>, k: nat, b: int)
    requires Position(files, k, b)
  {
    0 < b && files[k].content[b - 1] != NEWLINE
  }

  lemma UnfinishedAt(files: seq<File>, k: nat, b: int)
    requires Position(files, k, b)
    ensures var s := Cut(files[k].name, 0, files[k].content[..b]).next;
            && s.file == files[k].name && NEWLINE !in s.partial && 0 <= s.start && s.start + |s.partial| == b
            && (s.partial != [] <==> MidLine(files, k, b))
  {
    hide Cut;
    var name, head := files[k].name, files[k].content[..b];
    CutTail(name, 0, head);
    TailStarts(name, head);
    var s := Cut(name, 0, head).next;
    if s.partial != [] {
      assert s.partial[|s.partial| - 1] == head[b - 1];
    }
  }

  lemma FirstStretch(files: seq<File>, k: nat, b: int, k2: nat, e: int)
    requires DistinctNames(files) && Stretch(files, k, b, k2, e)
    ensures var s := Stretches(files, k, b, k2, e);
            s != [] ==>
              && s[0].data != []
              && (s[0].file == files[k].name ==> Base(s[0]) == b)
              && (s[0].file != files[k].name ==> Base(s[0]) == 0)
  {
    if k < k2 && b == |files[k].content| {
      StretchesStart(files, k + 1, k2, e);
    }
  }

  lemma {:induction false} MergedFirst(seen: Option<Frame>, frames: seq<Frame>)
    requires Contiguous(seen, frames)
    ensures var m := Merged(frames);
            && (m == [] <==> FirstData(frames).None?)
            && (m != [] ==> Base(m[0]) == Base(FirstData(frames).value))
    decreases |frames|
  {
    if frames != [] {
      if frames[0].data == [] {
        MergedFirst(seen, frames[1..]);
      } else {
        MergedFirst(Some(frames[0]), frames[1..]);
        MergedStart(frames[0], frames[1..]);
      }
    }
  }

  lemma FreshlyStarted(s: Splitter, frames: seq<Frame>)
    requires s.partial == [] && frames != [] && frames[0].data != []
    ensures Run(s, frames) == Run(INITIAL, frames)
  {
    hide Cut, Run;
    FreshFrame(s, frames[0]);
    FreshFrame(INITIAL, frames[0]);
    RunCons(s, frames);
    RunCons(INITIAL, frames);
  }

  /** Whether the frames begin where the state's unfinished line has its end. */
  predicate LineOver(from: Splitter, frames: seq<Frame>) {
    && from.partial != [] && frames != [] && frames[0].data != []
    && (frames[0].file != from.file || frames[0].data[0] == NEWLINE)
  }

  /** What a new connection leaves out of the lines read on from there. */
  lemma Skipped(from: Splitter, stretches: seq<Frame>, b: int) returns (skipped: seq<Line>)
    requires NEWLINE !in from.partial && 0 <= from.start && from.start + |from.partial| == b
    requires stretches != [] ==> stretches[0].data != []
    requires stretches != [] ==> Base(stretches[0]) == if stretches[0].file == from.file then b else 0
    ensures var raw := Run(INITIAL, stretches).lines;
            var drop := stretches != [] && Base(stretches[0]) > 0;
            var kept := WithoutFirst(drop, raw);
            && Run(from, stretches).lines == skipped + kept
            && (kept != [] ==>
                  |skipped| == (if drop then 1 else 0) + if LineOver(from, stretches) then 1 else 0)
    ensures |skipped| <= (if b > 0 then 1 else 0) + if from.partial != [] then 1 else 0
    ensures from.partial != [] && skipped != [] ==> skipped[0].offset == from.start
  {
    hide Cut, Run;
    RunNothing(from);
    RunNothing(INITIAL);
    var a, raw := Run(from, stretches).lines, Run(INITIAL, stretches).lines;
    if stretches == [] {
      skipped := [];
    } else {
      if from.partial == [] {
        FreshlyStarted(from, stretches);
      } else {
        FreshRun(from, stretches);
      }
      var kept := WithoutFirst(Base(stretches[0]) > 0, raw);
      assert |kept| <= |a| && a[|a| - |kept|..] == kept;
      skipped := a[..|a| - |kept|];
    }
  }

  // ----- which line a connection keeps first

  function EndOf(l: Line): int {
    l.offset + |l.text|
  }

  /** How many lines, from the first, end at or before an offset. */
  function Ended(lines: seq<Line>, b: int): (n: nat)
    ensures n <= |lines|
  {
    if lines == [] || EndOf(lines[0]) > b then 0 else 1 + Ended(lines[1..], b)
  }

  /** How many lines of the stream end at or before a position. */
  function EndedBy(files: seq<File>, k: nat, b: int): nat
    requires Position(files, k, b)
  {
    |ClosedLines(files, k)| + Ended(Lines(files[k]), b)
  }

  /** The index of the first line that a connection from a position can hand on:
      inside a file, the first line that ends after the position is left out. */
  function KeptFrom(files: seq<File>, k: nat, b: int): nat
    requires Position(files, k, b)
  {
    EndedBy(files, k, b) + if InsideFile(files, k, b) then 1 else 0
  }

  lemma {:induction false} EndedAppend(a: seq<Line>, c: seq<Line>, b: int)
    requires forall l :: l in a ==> EndOf(l) <= b
    ensures Ended(a + c, b) == |a| + Ended(c, b)
  {
    if a == [] {
      assert a + c == c;
    } else {
      EndedAppend(a[1..], c, b);
      assert (a + c)[1..] == a[1..] + c;
    }
  }

  lemma {:induction false} EndedGrows(lines: seq<Line>, b: int, c: int)
    requires b <= c
    ensures Ended(lines, b) <= Ended(lines, c)
  {
    if lines != [] {
      EndedGrows(lines[1..], b, c);
    }
  }

  /** The first line cut from an unfinished line and what follows it. */
  lemma FirstEnd(file: string, start: int, p: Bytes, more: Bytes)
    requires NEWLINE !in p
    ensures var c := Cut(file, start, p + more);
            var n := Ended(c.lines + Flushed(c.next), start + |p|);
            n == if p != [] && (more == [] || more[0] == NEWLINE) then 1 else 0
  {
    hide Cut;
    var b := start + |p|;
    match IndexOf(more, NEWLINE)
    case None =>
      CutNone(file, start, p + more);
      assert [] + Flushed(Splitter(file, start, p + more)) == Piece(file, start, p + more);
    case Some(i) =>
      var tail := more[i + 1..];
      CutStep(file, start, p + more[..i], tail);
      assert p + more[..i] + [NEWLINE] + tail == p + more;
      var rest := Cut(file, b + i + 1, tail);
      CutStartsLater(file, b + i + 1, tail);
      var later := rest.lines + Flushed(rest.next);
      assert Piece(file, start, p + more[..i]) + rest.lines + Flushed(rest.next) ==
             Piece(file, start, p + more[..i]) + later;
      PieceEnds(file, start, p + more[..i], later, b);
  }

  lemma PieceEnds(file: string, start: int, text: Bytes, later: seq<Line>, b: int)
    requires later != [] ==> EndOf(later[0]) > b
    ensures Ended(Piece(file, start, text) + later, b) == if text != [] && start + |text| <= b then 1 else 0
  {
    if text == [] {
      assert Piece(file, start, text) + later == later;
    } else {
      assert (Piece(file, start, text) + later)[1..] == later;
    }
  }

  lemma {:induction false} CutStartsLater(file: string, start: int, data: Bytes)
    ensures var c := Cut(file, start, data);
            var lines := c.lines + Flushed(c.next);
            lines != [] ==> start < EndOf(lines[0])
    decreases |data|
  {
    hide Cut;
    match IndexOf(data, NEWLINE)
    case None =>
      CutNone(file, start, data);
    case Some(i) =>
      assert data == data[..i] + [NEWLINE] + data[i + 1..];
      CutStep(file, start, data[..i], data[i + 1..]);
      CutStartsLater(file, start + i + 1, data[i + 1..]);
  }

  /** The lines ended by a position, against the lines complete up to it. */
  lemma EndedAgainstComplete(files: seq<File>, k: nat, b: int)
    requires Position(files, k, b)
    ensures var content := files[k].content;
            EndedBy(files, k, b) == |LinesUpTo(files, k, b)| +
                                    if MidLine(files, k, b) && (b == |content| || content[b] == NEWLINE) then 1 else 0
  {
    hide Cut, Terminated, Ended;
    var name, content := files[k].name, files[k].content;
    var head, more := content[..b], content[b..];
    var before := Cut(name, 0, head);
    UnfinishedAt(files, k, b);
    CutAppend(name, 0, head, more);
    assert head + more == content;
    assert content[0..b] == head;
    CutExact(name, content, 0, b);
    forall l | l in before.lines ensures EndOf(l) <= b {
      TerminatedEnds(content, b, l);
    }
    var after := Cut(name, before.next.start, before.next.partial + more);
    var rest := after.lines + Flushed(after.next);
    assert Lines(files[k]) == before.lines + rest;
    EndedAppend(before.lines, rest, b);
    FirstEnd(name, before.next.start, before.next.partial, more);
  }

  lemma TerminatedEnds(content: Bytes, b: int, l: Line)
    requires Terminated(content, b, l)
    ensures EndOf(l) < b
  {
  }

  // ----- the theorems

  lemma KeptFromStretches(files: seq<File>, k: nat, b: int, k2: nat, e: int)
    requires DistinctNames(files) && Stretch(files, k, b, k2, e)
    ensures var from := Cut(files[k].name, 0, files[k].content[..b]).next;
            var s := Stretches(files, k, b, k2, e);
            s != [] ==> KeptFrom(files, k, b) == |LinesUpTo(files, k, b)| +
                                     (if Base(s[0]) > 0 then 1 else 0) + if LineOver(from, s) then 1 else 0
  {
    hide Cut, LinesUpTo, EndedBy;
    EndedAgainstComplete(files, k, b);
    UnfinishedAt(files, k, b);
    FirstStretch(files, k, b, k2, e);
    FirstByte(files, k, b, k2, e);
  }

  lemma FirstByte(files: seq<File>, k: nat, b: int, k2: nat, e: int)
    requires DistinctNames(files) && Stretch(files, k, b, k2, e)
    ensures var s := Stretches(files, k, b, k2, e);
            s != [] && s[0].data != [] ==>
              && (s[0].file == files[k].name <==> b < |files[k].content|)
              && (b < |files[k].content| ==> s[0].data[0] == files[k].content[b])
  {
    if k < k2 && b == |files[k].content| {
      StretchesStart(files, k + 1, k2, e);
    }
  }

  /** One connection hands on a contiguous run of the stream's lines, ending with
      the last complete one it reads, and KeptFrom says where the run starts. Of
      the lines from its start on it leaves out the one it starts in the middle
      of, and at most one more. */
  lemma SessionTheorem(files: seq<File>, k: nat, b: int, k2: nat, e: int, frames: seq<Frame>)
      returns (skipped: seq<Line>)
    requires DistinctNames(files) && Reads(files, k, b, k2, e, frames)
    ensures LinesUpTo(files, k, b) + skipped + Emitted(frames) == LinesUpTo(files, k2, e)
    ensures Emitted(frames) != [] ==> |LinesUpTo(files, k, b) + skipped| == KeptFrom(files, k, b)
    ensures b == 0 ==> skipped == []
    ensures |skipped| <= if MidLine(files, k, b) then 2 else 1
    ensures MidLine(files, k, b) && skipped != [] ==> skipped[0].offset < b
  {
    hide Cut, Run, Stretches, Merged, Contiguous, FirstData, LinesUpTo, KeptFrom, LineOver;
    var stretches := Stretches(files, k, b, k2, e);
    var from := Cut(files[k].name, 0, files[k].content[..b]).next;
    UnfinishedAt(files, k, b);
    FirstStretch(files, k, b, k2, e);
    MergedFirst(None, frames);
    RunMerged(INITIAL, None, frames);
    ReadOn(files, k, b, k2, e);
    skipped := Skipped(from, stretches, b);
    KeptFromStretches(files, k, b, k2, e);
    RunNothing(INITIAL);
  }

  predicate NotAfter(k: nat, b: int, k2: nat, e: int) {
    k < k2 || (k == k2 && b <= e)
  }

  lemma {:induction false} ClosedGrow(files: seq<File>, k: nat, k2: nat)
    requires k <= k2 <= |files|
    ensures ClosedLines(files, k) <= ClosedLines(files, k2)
    ensures k < k2 ==> ClosedLines(files, k) + Lines(files[k]) <= ClosedLines(files, k2)
  {
    if k < k2 {
      ClosedGrow(files, k, k2 - 1);
    }
  }

  predicate InsideFile(files: seq<File>, k: nat, b: int)
    requires Position(files, k, b)
  {
    0 < b < |files[k].content|
  }

  /** When a connection that starts later may keep as late: if the other does not
      start inside a file, or it does itself, or a line ends between the two. */
  predicate StartsInStep(files: seq<File>, k: nat, b: int, k2: nat, e: int)
    requires Position(files, k, b) && Position(files, k2, e)
  {
    InsideFile(files, k, b) ==> InsideFile(files, k2, e) || EndedBy(files, k, b) < EndedBy(files, k2, e)
  }

  /** A connection that starts later keeps no earlier line, exactly when the two
      starts are in step. */
  lemma LaterStartKeepsLater(files: seq<File>, k: nat, b: int, k2: nat, e: int)
    requires Position(files, k, b) && Position(files, k2, e) && NotAfter(k, b, k2, e)
    ensures KeptFrom(files, k, b) <= KeptFrom(files, k2, e) <==> StartsInStep(files, k, b, k2, e)
  {
    hide Lines;
    if k == k2 {
      EndedGrows(Lines(files[k]), b, e);
    } else {
      ClosedGrow(files, k, k2);
    }
  }

  /** The lines complete at a position are a prefix of those at a later one. */
  lemma LinesGrow(files: seq<File>, k: nat, b: int, k2: nat, e: int)
    requires Position(files, k, b) && Position(files, k2, e) && NotAfter(k, b, k2, e)
    ensures LinesUpTo(files, k, b) <= LinesUpTo(files, k2, e)
  {
    hide Cut;
    if k == k2 {
      PartRun(files[k], b, e);
    } else {
      var size := |files[k].content|;
      PartRun(files[k], b, size);
      assert files[k].content[..size] == files[k].content;
      ClosedGrow(files, k, k2);
    }
  }

  /** Every line complete at a position is a whole line of one of the files; in
      the file the position is in, it has its line end before the position. */
  lemma {:induction false} ClosedAreWhole(files: seq<File>, k: nat)
    requires k <= |files|
    ensures forall l :: l in ClosedLines(files, k) ==>
              exists i :: 0 <= i < k && l.file == files[i].name && WholeLine(files[i].content, l)
  {
    hide Lines, WholeLine;
    if k > 0 {
      ClosedAreWhole(files, k - 1);
      LinesExact(files[k - 1]);
    }
  }

  predicate OfFile(files: seq<File>, k: nat, b: int, i: nat, l: Line)
    requires Position(files, k, b)
  {
    && i <= k && l.file == files[i].name && WholeLine(files[i].content, l)
    && (i == k ==> Terminated(files[k].content, b, l))
  }

  lemma LinesAreWhole(files: seq<File>, k: nat, b: int)
    requires Position(files, k, b)
    ensures forall l :: l in LinesUpTo(files, k, b) ==> exists i: nat :: OfFile(files, k, b, i, l)
  {
    hide Cut, WholeLine, Terminated;
    ClosedAreWhole(files, k);
    var content := files[k].content;
    assert content[0..b] == content[..b];
    CutExact(files[k].name, content, 0, b);
    forall l | l in Cut(files[k].name, 0, content[..b]).lines ensures OfFile(files, k, b, k, l) {
      TerminatedIsWhole(content, b, l);
    }
    forall l | l in ClosedLines(files, k) ensures exists i: nat :: OfFile(files, k, b, i, l) {
      var i :| 0 <= i < k && l.file == files[i].name && WholeLine(files[i].content, l);
      assert OfFile(files, k, b, i, l);
    }
  }

  lemma TerminatedIsWhole(content: Bytes, b: int, l: Line)
    requires Terminated(content, b, l)
    ensures WholeLine(content, l)
  {
  }

  /** No connection hands on part of a line. */
  lemma NoFragments(files: seq<File>, k: nat, b: int, k2: nat, e: int, frames: seq<Frame>)
    requires DistinctNames(files) && Reads(files, k, b, k2, e, frames)
    ensures forall l :: l in Emitted(frames) ==> exists i: nat :: OfFile(files, k2, e, i, l)
  {
    hide Cut, Stretches, Merged, Contiguous, Emitted, LinesUpTo, KeptFrom, OfFile, MidLine;
    var skipped := SessionTheorem(files, k, b, k2, e, frames);
    LinesAreWhole(files, k2, e);
    forall l | l in Emitted(frames) ensures l in LinesUpTo(files, k2, e) {
    }
  }

  // ----- no two lines stand in the same place

  predicate Apart(lines: seq<Line>) {
    forall i, j :: 0 <= i < j < |lines| ==> lines[i].file != lines[j].file || lines[i].offset != lines[j].offset
  }

  lemma {:induction false} ClosedApart(files: seq<File>, k: nat)
    requires DistinctNames(files) && k <= |files|
    ensures Apart(ClosedLines(files, k))
    ensures forall l :: l in ClosedLines(files, k) ==> exists i :: 0 <= i < k && l.file == files[i].name
  {
    hide Lines, WholeLine;
    if k > 0 {
      ClosedApart(files, k - 1);
      LinesExact(files[k - 1]);
      AppendApart(files, k - 1, ClosedLines(files, k - 1), Lines(files[k - 1]));
    }
  }

  lemma AppendApart(files: seq<File>, k: nat, a: seq<Line>, c: seq<Line>)
    requires DistinctNames(files) && k < |files| && Apart(a) && Rising(c)
    requires forall l :: l in a ==> exists i :: 0 <= i < k && l.file == files[i].name
    requires forall l :: l in c ==> l.file == files[k].name
    ensures Apart(a + c)
  {
    assert forall i :: 0 <= i < |a| ==> a[i] in a;
    assert forall i :: 0 <= i < |c| ==> c[i] in c;
  }

  lemma LinesApart(files: seq<File>, k: nat, b: int)
    requires DistinctNames(files) && Position(files, k, b)
    ensures Apart(LinesUpTo(files, k, b))
  {
    hide Cut, Terminated;
    ClosedApart(files, k);
    var content := files[k].content;
    assert content[0..b] == content[..b];
    CutExact(files[k].name, content, 0, b);
    AppendApart(files, k, ClosedLines(files, k), Cut(files[k].name, 0, content[..b]).lines);
  }

  // ----- any stretch can be read

  /** Frames with data, no two neighbours of the same file. */
  predicate OneForEach(frames: seq<Frame>) {
    && (forall i :: 0 <= i < |frames| ==> frames[i].data != [])
    && (forall i :: 0 < i < |frames| ==> frames[i - 1].file != frames[i].file)
  }

  lemma {:induction false} OneForEachReads(seen: Option<Frame>, frames: seq<Frame>)
    requires OneForEach(frames)
    requires seen.Some? && frames != [] ==> seen.value.file != frames[0].file
    ensures Contiguous(seen, frames) && Merged(frames) == frames
    decreases |frames|
  {
    if frames != [] {
      OneForEachReads(Some(frames[0]), frames[1..]);
      assert [frames[0]] + frames[1..] == frames;
    }
  }

  /** Whether a file from the k-th on has a name. */
  predicate NamedFrom(files: seq<File>, k: nat, name: string) {
    exists i | k <= i < |files| :: files[i].name == name
  }

  lemma {:induction false} StretchesOneForEach(files: seq<File>, k: nat, b: int, k2: nat, e: int)
    requires DistinctNames(files) && Stretch(files, k, b, k2, e)
    ensures var s := Stretches(files, k, b, k2, e);
            OneForEach(s) && (s != [] ==> NamedFrom(files, k, s[0].file))
    decreases k2 - k
  {
    hide OneForEach, DistinctNames, NamedFrom;
    var name := files[k].name;
    HasItsName(files, k);
    if k == k2 {
      JoinOneForEach(Part(files[k], b, e), [], name);
      assert Part(files[k], b, e) + [] == Part(files[k], b, e);
    } else {
      StretchesOneForEach(files, k + 1, 0, k2, e);
      var rest := Stretches(files, k + 1, 0, k2, e);
      NoneOfFile(files, k, rest);
      JoinOneForEach(Part(files[k], b, |files[k].content|), rest, name);
    }
  }

  lemma HasItsName(files: seq<File>, k: nat)
    requires k < |files|
    ensures NamedFrom(files, k, files[k].name)
  {
  }

  lemma NoneOfFile(files: seq<File>, k: nat, rest: seq<Frame>)
    requires DistinctNames(files) && k < |files| && (rest != [] ==> NamedFrom(files, k + 1, rest[0].file))
    ensures rest != [] ==> rest[0].file != files[k].name && NamedFrom(files, k, rest[0].file)
  {
  }

  lemma JoinOneForEach(first: seq<Frame>, rest: seq<Frame>, name: string)
    requires (rest == [] || OneForEach(rest)) && |first| <= 1 && (rest != [] ==> rest[0].file != name)
    requires first != [] ==> first[0].data != [] && first[0].file == name
    ensures OneForEach(first + rest)
  {
    assert first == [] ==> first + rest == rest;
  }

  /** One frame for each file reads a stretch. */
  lemma StretchesRead(files: seq<File>, k: nat, b: int, k2: nat, e: int)
    requires DistinctNames(files) && Stretch(files, k, b, k2, e)
    ensures Reads(files, k, b, k2, e, Stretches(files, k, b, k2, e))
  {
    hide Stretches, Contiguous, Merged;
    StretchesOneForEach(files, k, b, k2, e);
    OneForEachReads(None, Stretches(files, k, b, k2, e));
  }
}
