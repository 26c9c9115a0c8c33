/** Rewriting a query as text: when its output reads as the clauses it was
    built from. */
module RewriteText {
  import opened Wrappers
  import opened Text
  import opened Lexer
  import opened LexerFacts
  import opened Syntax
  import opened Locality
  import opened Spans
  import opened Clauses
  import opened Rewrite
  import FieldClauses

  // ----- an unpaired backslash swallows what follows

  lemma {:induction false} WordSwallows(t: string, c: char, u: string)
    requires ReadWord(t).open
    ensures var n := ReadWord(t + [c] + u).len;
            && |t| + 1 <= n
            && (u != "" && !IsDelimiter(u[0]) ==> |t| + 1 < n)
            && (EndsWords(u) ==> n == |t| + 1)
    ensures t != "" && !IsDelimiter(t[0])
  {
    hide ReadWord, IsDelimiter;
    var s := t + [c] + u;
    ReadWordEnds(t);
    ReadWordEnds(u);
    if t == "\\" {
      assert s[2..] == u;
      ReadWordStep(s);
    } else {
      ReadWordStep(t);
      ReadWordStep(s);
      var n := if t[0] == '\\' then 1 else 0;
      WordSwallows(t[n + 1..], c, u);
      assert s[n + 1..] == t[n + 1..] + [c] + u;
    }
  }

  /** A word that covers the character after t, and more if it can. */
  ghost predicate Swallowed(tok: Token, end: int, u: string) {
    && tok.kind in {Word, AndWord, OrWord, NotWord} && tok.pos < end && end + 1 <= tok.end
    && (u != "" && !IsDelimiter(u[0]) ==> end + 1 < tok.end)
    && (EndsWords(u) ==> tok.end == end + 1)
  }

  lemma OneSwallows(t: string, c: char, u: string)
    requires t != "" && !IsWhite(t[0]) && LexOne(t).Some?
    ensures LexOne(t).value.open ==>
              var l := LexOne(t + [c] + u);
              l.Some? && Swallowed(Token(l.value.kind, l.value.value, 0, l.value.len), |t|, u)
    ensures !LexOne(t).value.open && LexOne(t).value.len < |t| ==> LexOne(t + [c] + u) == LexOne(t)
  {
    if LexOne(t).value.open {
      WordSwallows(t, c, u);
    } else if LexOne(t).value.len < |t| {
      LexOneAppend(t, [c] + u);
      assert t + ([c] + u) == t + [c] + u;
    }
  }

  /** Appending to a text that ends in an unpaired backslash merges the next
      character, and the word after it, into the text's last word. */
  lemma {:induction false} Swallow(t: string, at: int, c: char, u: string, ts: seq<Token>) returns (k: nat)
    requires Lex(t, at).Success? && Dangling(t) && Lex(t + [c] + u, at) == Success(ts)
    ensures k + 1 < |ts| && Swallowed(ts[k], at + |t|, u)
    decreases |t|
  {
    hide LexOne, Lex, Dangling, IsDelimiter;
    var s := t + [c] + u;
    DanglingStep(t);
    LexStep(t, at);
    if IsWhite(t[0]) {
      LexStep(s, at);
      assert s[1..] == t[1..] + [c] + u;
      k := Swallow(t[1..], at + 1, c, u, ts);
    } else {
      var l := LexOne(t).value;
      OneSwallows(t, c, u);
      FirstToken(s, at, ts);
      if l.open {
        k := 0;
        assert s != "";
        TokenBounds(s, at, ts, 0);
        LexEnds(s, at);
        LexInOrder(s, at);
      } else {
        assert s[l.len..] == t[l.len..] + [c] + u;
        k := Swallow(t[l.len..], at + l.len, c, u, ts[1..]);
        k := k + 1;
      }
    }
  }

  // ----- the parts of a rewritten query

  /** The clauses come from a query's conjuncts, in order. */
  ghost predicate CutFrom(query: string, root: Option<Node>, kept: seq<Node>)
    ensures CutFrom(query, root, kept) ==> AllInText(query, kept) && Parse(query) == Success(root)
  {
    && Parse(query) == Success(root)
    && (forall c :: c in kept ==> c in Conjuncts(root))
    && (forall i, j :: 0 <= i < j < |kept| ==> kept[i].end <= kept[j].pos)
    && AllInText(query, kept)
  }

  function Slice(query: string, c: Node): string
    requires InText(query, c)
  {
    query[c.pos..c.end]
  }

  /** What a kept clause reads as in its part, at the start of a text. */
  function PartNode(c: Node, many: bool): Node {
    if many && Loose(c) then Grouped(Shift(c, 1 - c.pos), 0, c.end - c.pos + 2) else Shift(c, -c.pos)
  }

  function PartNodes(cs: seq<Node>, many: bool): (r: seq<Node>)
    ensures |r| == |cs|
  {
    seq(|cs|, i requires 0 <= i < |cs| => PartNode(cs[i], many))
  }

  function ExtraNode(extra: string, x: Node): seq<Node> {
    if extra != "" then [x] else []
  }

  /** The clauses the rewritten query is meant to consist of: the kept ones
      and the extra one, each where its text stands. */
  function IntendedClauses(query: string, kept: seq<Node>, extra: string, x: Node): (r: seq<Node>)
    requires AllInText(query, kept)
    ensures |r| == |kept| + |Extra(extra)|
  {
    var many := |kept| + |Extra(extra)| > 1;
    Places(PartsOf(query, kept, many) + Extra(extra), PartNodes(kept, many) + ExtraNode(extra, x), 0)
  }

  /** The rewritten query parses, and to exactly the intended clauses. */
  ghost predicate Reproduces(query: string, kept: seq<Node>, extra: string, x: Node)
    requires AllInText(query, kept)
  {
    var r := Parse(JoinedClauses(query, kept, extra));
    r.Success? && Conjuncts(r.value) == IntendedClauses(query, kept, extra, x)
  }

  /** The last kept clause ends in an unpaired backslash and text follows. */
  predicate Swallows(query: string, kept: seq<Node>, extra: string)
    requires AllInText(query, kept)
  {
    extra != "" && kept != [] && Dangling(Slice(query, kept[|kept| - 1]))
  }

  /** Nothing follows the kept clauses, and each of them is white space to the
      blank test, although not to the tokenizer. */
  predicate Vanishes(query: string, kept: seq<Node>, extra: string)
    requires AllInText(query, kept)
  {
    extra == "" && kept != [] && forall c | c in kept :: IsBlank(Slice(query, c))
  }

  /** A clause a rewrite may append. */
  ghost predicate Appendable(extra: string, x: Node) {
    extra != "" ==>
      ClauseText(extra, 0, x) && Closed(x) && x.pos == 0 && !IsBlank(extra) && !IsDelimiter(extra[0])
  }

  /** What the place of the extra clause rests on. */
  ghost predicate Placed(extra: string, x: Node) {
    extra != "" ==> x.pos == 0 && !IsDelimiter(extra[0])
  }

  /** A conjunct is a clause of its own, or the whole query and an Or. */
  lemma ConjunctKinds(ts: seq<Token>, n: Node, c: Node)
    requires Ordered(ts) && ParseTokens(ts) == Success(n) && c in Operands(true, n)
    ensures Loose(c) ==> c == n && Operands(true, n) == [n]
    ensures !Loose(c) ==> IsUnary(ts, "", c)
  {
    hide ParseOr, Ordered, IsUnary;
    OrOperands(ts, 0, "");
    if !(n.Or? && !n.grouped) {
      UnaryNotLoose(ts, c);
    }
  }

  lemma UnaryNotLoose(ts: seq<Token>, c: Node)
    requires Ordered(ts) && IsUnary(ts, "", c)
    ensures Closed(c)
  {
    hide ParseUnary, Ordered;
    var i: nat :| i <= |ts| && ParseUnary(ts, i, "").Success? && ParseUnary(ts, i, "").value.node == c;
    UnarySpans(ts, i, "");
  }

  lemma QueryMoves(s: string, at: int, n: Node, d: int)
    requires QueryText(s, at, n)
    ensures QueryText(s, at + d, Shift(n, d))
  {
    hide Lex, ParseOr, Shift;
    var ts := Lex(s, at).value;
    var us := ShiftTokens(ts, d);
    LexShift(s, at, d);
    assert Recurs(ts, us, 0, |ts| - 1, 0, d);
    OrLocal(ts, 0, "", us, 0, d);
    assert AsQuery(us, Shift(n, d));
  }

  /** What the slice of one conjunct reads as. */
  lemma SliceReads(query: string, n: Node, c: Node)
    requires Parse(query) == Success(Some(n)) && c in Operands(true, n)
    ensures 0 <= c.pos < c.end <= |query|
    ensures Loose(c) ==> c == n && Operands(true, n) == [n] && QueryText(Slice(query, c), c.pos, c)
    ensures !Loose(c) ==> Closed(c) && ClauseText(Slice(query, c), c.pos, c)
    ensures Dangling(Slice(query, c)) ==> c.end == |query|
  {
    hide Lex, Parse, ParseTokens, Ordered, Dangling, QueryText, ClauseText, IsBlank;
    ParseStep(query);
    var ts := Lex(query, 0).value;
    LexOrdered(query, 0);
    ConjunctKinds(ts, n, c);
    if Loose(c) {
      RootSlice(query, 0, ts, n);
    } else {
      UnarySlice(query, 0, ts, c);
    }
  }

  lemma ClosedMoves(c: Node, d: int)
    ensures Closed(c) ==> Closed(Shift(c, d))
    ensures Loose(c) ==> Loose(Shift(c, d))
  {
  }

  /** Each part reads as its clause, unless a wrapped Or dangles. */
  lemma PartReads(query: string, n: Node, c: Node, many: bool)
    requires Parse(query) == Success(Some(n)) && c in Operands(true, n) && InText(query, c)
    requires Loose(c) ==> many && !Dangling(Slice(query, c))
    ensures ClauseText(PartOf(query, c, many), 0, PartNode(c, many)) && Closed(PartNode(c, many))
    ensures Dangling(PartOf(query, c, many)) ==> c.end == |query| && Dangling(Slice(query, c))
  {
    hide Lex, Parse, Dangling, QueryText, ClauseText, Shift, Closed;
    SliceReads(query, n, c);
    var s := Slice(query, c);
    if Loose(c) {
      QueryMoves(s, c.pos, c, 1 - c.pos);
      WrapText(s, 0, Shift(c, 1 - c.pos));
      ParensEnd(s, 1, Shift(c, 1 - c.pos));
      GroupedClosed(Shift(c, 1 - c.pos), 0, c.end - c.pos + 2);
    } else {
      ClauseMoves(s, c.pos, c, -c.pos);
      ClosedMoves(c, -c.pos);
    }
  }

  lemma GroupedClosed(n: Node, pos: int, end: int)
    ensures Closed(Grouped(n, pos, end))
  {
  }

  lemma ParensEnd(s: string, at: int, n: Node)
    requires QueryText(s, at, n) && !Dangling(s)
    ensures !Dangling("(" + s + ")")
  {
    hide Lex, Dangling, AsQuery;
    FieldClauses.ParensNotDangling(s, at - 1);
  }

  /** The parts can be joined when only the last dangles, and no wrapped one. */
  lemma KeptJoin(query: string, n: Node, kept: seq<Node>, many: bool)
    requires CutFrom(query, Some(n), kept)
    requires forall i :: 0 <= i < |kept| && (Loose(kept[i]) || i < |kept| - 1) ==> !Dangling(Slice(query, kept[i]))
    requires forall i :: 0 <= i < |kept| && Loose(kept[i]) ==> many
    ensures Joinable(PartsOf(query, kept, many), PartNodes(kept, many))
    ensures forall i :: 0 <= i < |kept| && Dangling(PartOf(query, kept[i], many)) ==> Dangling(Slice(query, kept[i]))
  {
    hide Parse, Dangling, ClauseText, Closed, PartNode, PartOf, IsBlank, Loose;
    var parts, nodes := PartsOf(query, kept, many), PartNodes(kept, many);
    forall i | 0 <= i < |kept|
      ensures ClauseText(parts[i], 0, nodes[i]) && Closed(nodes[i])
      ensures Dangling(parts[i]) ==> Dangling(Slice(query, kept[i]))
    {
      assert kept[i] in kept;
      PartReads(query, n, kept[i], many);
      assert parts[i] == PartOf(query, kept[i], many) && nodes[i] == PartNode(kept[i], many);
    }
  }

  /** Under the condition, the parts can be joined with the extra clause. */
  lemma PartsJoin(query: string, n: Node, kept: seq<Node>, extra: string, x: Node, many: bool)
    requires CutFrom(query, Some(n), kept) && Appendable(extra, x) && !Swallows(query, kept, extra)
    requires many == (|kept| + |Extra(extra)| > 1) && (forall i :: 0 <= i < |kept| && Loose(kept[i]) ==> many)
    ensures Joinable(PartsOf(query, kept, many) + Extra(extra), PartNodes(kept, many) + ExtraNode(extra, x))
  {
    hide Parse, Dangling, ClauseText, Closed, PartNode, PartOf, IsBlank, Loose, Slice, CutFrom;
    forall i | 0 <= i < |kept| && (Loose(kept[i]) || i < |kept| - 1)
      ensures !Dangling(Slice(query, kept[i]))
    {
      NotDangling(query, n, kept, extra, i);
    }
    KeptJoin(query, n, kept, many);
    if extra != "" {
      forall i | 0 <= i < |kept|
        ensures !Dangling(PartsOf(query, kept, many)[i])
      {
        NotDangling(query, n, kept, extra, i);
      }
    }
  }

  /** A kept clause that something follows does not dangle. */
  lemma NotDangling(query: string, n: Node, kept: seq<Node>, extra: string, i: nat)
    requires CutFrom(query, Some(n), kept) && !Swallows(query, kept, extra) && i < |kept|
    ensures i < |kept| + |Extra(extra)| - 1 ==> !Dangling(Slice(query, kept[i]))
    ensures Loose(kept[i]) && |kept| + |Extra(extra)| > 1 ==> !Dangling(Slice(query, kept[i]))
  {
    hide Parse, Dangling, ClauseText, QueryText;
    assert kept[i] in kept;
    SliceReads(query, n, kept[i]);
    if i < |kept| - 1 {
      assert kept[i + 1] in kept;
      SliceReads(query, n, kept[i + 1]);
    } else if 0 < i {
      assert kept[0] in kept;
      SliceReads(query, n, kept[0]);
    }
  }

  /** A text is not blank when a part of it is not. */
  lemma PartNotBlank(a: string, b: string, c: string)
    requires !IsBlank(b)
    ensures !IsBlank(a + b + c)
  {
    hide IsSpace, IsBlank;
    BlankMeansAllSpace(b);
    BlankMeansAllSpace(a + b + c);
    var i :| 0 <= i < |b| && !IsSpace(b[i]);
    assert (a + b + c)[|a| + i] == b[i];
  }

  lemma BlankParts(a: string, b: string)
    ensures IsBlank(a + b) <==> IsBlank(a) && IsBlank(b)
  {
    hide IsBlank, IsSpace;
    BlankMeansAllSpace(a);
    BlankMeansAllSpace(b);
    BlankMeansAllSpace(a + b);
    if IsBlank(a + b) {
      assert forall i :: 0 <= i < |a| ==> (a + b)[i] == a[i];
      assert forall i :: 0 <= i < |b| ==> (a + b)[|a| + i] == b[i];
    }
  }

  /** Texts joined by blanks are blank exactly when each of them is. */
  lemma {:induction false} BlankJoin(parts: seq<string>)
    ensures IsBlank(Join(parts, " ")) <==> forall p :: p in parts ==> IsBlank(p)
  {
    hide IsBlank;
    if parts == [] {
      BlankMeansAllSpace("");
    } else if |parts| == 1 {
      assert parts == [parts[0]];
    } else {
      BlankJoin(parts[1..]);
      BlankMeansAllSpace(" ");
      BlankParts(parts[0] + " ", Join(parts[1..], " "));
      BlankParts(parts[0], " ");
      assert forall p :: p in parts <==> p == parts[0] || p in parts[1..];
    }
  }

  /** With nothing added, every part is its clause's own text. */
  lemma PartsAreSlices(query: string, root: Option<Node>, kept: seq<Node>, i: nat)
    requires CutFrom(query, root, kept) && i < |kept|
    ensures PartsOf(query, kept, |kept| > 1)[i] == Slice(query, kept[i])
  {
    hide Parse, Dangling, ClauseText, QueryText;
    if |kept| > 1 {
      var last := kept[|kept| - 1];
      assert last in kept && kept[i] in kept && root.Some?;
      var n := root.value;
      SliceReads(query, n, last);
      if Loose(last) {
        OnlyLoose(query, n, kept);
      } else {
        NoneLoose(query, n, kept);
      }
    }
  }

  lemma KeptBlank(query: string, root: Option<Node>, kept: seq<Node>)
    requires CutFrom(query, root, kept)
    ensures IsBlank(JoinedClauses(query, kept, "")) <==> forall c | c in kept :: IsBlank(Slice(query, c))
  {
    hide CutFrom, IsBlank, PartsOf, Slice, Join;
    var parts := PartsOf(query, kept, |kept| > 1);
    assert parts + [] == parts;
    BlankJoin(parts);
    forall i | 0 <= i < |kept| ensures parts[i] == Slice(query, kept[i]) {
      PartsAreSlices(query, root, kept, i);
    }
    forall c | c in kept ensures Slice(query, c) in parts {
      var i :| 0 <= i < |kept| && kept[i] == c;
      assert parts[i] == Slice(query, c);
    }
    forall p | p in parts ensures exists c :: c in kept && p == Slice(query, c) {
      var i :| 0 <= i < |parts| && parts[i] == p;
      assert kept[i] in kept;
    }
  }

  lemma {:induction false} LastOfJoin(parts: seq<string>, last: string)
    ensures exists head :: Join(parts + [last], " ") == head + last
    decreases |parts|
  {
    if parts == [] {
      assert parts + [last] == [last];
      assert Join([last], " ") == "" + last;
    } else {
      LastOfJoin(parts[1..], last);
      var head :| Join(parts[1..] + [last], " ") == head + last;
      assert (parts + [last])[1..] == parts[1..] + [last];
      assert Join(parts + [last], " ") == (parts[0] + " " + head) + last;
    }
  }

  lemma ExtraNotBlank(query: string, kept: seq<Node>, extra: string)
    requires AllInText(query, kept) && extra != "" && !IsBlank(extra)
    ensures !IsBlank(JoinedClauses(query, kept, extra))
  {
    hide PartsOf, IsBlank;
    var parts := PartsOf(query, kept, |kept| + |Extra(extra)| > 1);
    LastOfJoin(parts, extra);
    var head :| Join(parts + [extra], " ") == head + extra;
    PartNotBlank(head, extra, "");
    assert head + extra + "" == head + extra;
  }

  // ----- the theorem

  /** The output of a rewrite that neither swallows nor vanishes. */
  lemma RewriteReproduces(query: string, root: Option<Node>, kept: seq<Node>, extra: string, x: Node)
    requires CutFrom(query, root, kept) && Appendable(extra, x)
    requires !Swallows(query, kept, extra) && !Vanishes(query, kept, extra)
    ensures Reproduces(query, kept, extra, x)
  {
    hide Parse, Swallows, Joinable, Places, IsBlank, QueryText, PartsOf, PartNodes, Appendable, Slice;
    var many := |kept| + |Extra(extra)| > 1;
    var out := JoinedClauses(query, kept, extra);
    if kept == [] && extra == "" {
      NothingLeft(query);
    } else {
      assert !IsBlank(out) by {
        OutNotBlank(query, root, kept, extra, x);
      }
      if exists c :: c in kept && Loose(c) && !many {
        var c :| c in kept && Loose(c) && !many;
        assert kept == [c] && extra == "";
        LooseAlone(query, root.value, c);
      } else {
        if root.None? {
          NoClauses(query, kept);
          ExtraAlone(extra, x);
        } else {
          PartsJoin(query, root.value, kept, extra, x, many);
        }
        var parts, nodes := PartsOf(query, kept, many) + Extra(extra), PartNodes(kept, many) + ExtraNode(extra, x);
        var n := JoinReads(parts, nodes, 0);
        QueryTextParses(out, n);
      }
    }
  }

  lemma NothingLeft(query: string)
    ensures Reproduces(query, [], "", Term(0, 0, false, "", "", false))
    ensures forall x :: Reproduces(query, [], "", x)
  {
    hide Lex, ParseTokens;
    BlankMeansAllSpace("");
    ParseStep("");
    assert PartsOf(query, [], false) + Extra("") == [];
  }

  lemma OutNotBlank(query: string, root: Option<Node>, kept: seq<Node>, extra: string, x: Node)
    requires CutFrom(query, root, kept) && Appendable(extra, x)
    requires kept != [] || extra != ""
    requires !Vanishes(query, kept, extra)
    ensures !IsBlank(JoinedClauses(query, kept, extra))
  {
    hide IsBlank, ClauseText, JoinedClauses, CutFrom, Slice;
    if extra != "" {
      ExtraNotBlank(query, kept, extra);
    } else {
      KeptBlank(query, root, kept);
    }
  }

  lemma NoClauses(query: string, kept: seq<Node>)
    requires CutFrom(query, None, kept)
    ensures kept == [] && PartsOf(query, kept, false) == [] && PartNodes(kept, false) == []
    ensures PartsOf(query, kept, true) == [] && PartNodes(kept, true) == []
  {
    FirstIsMember(kept);
  }

  lemma FirstIsMember<T>(s: seq<T>)
    ensures s == [] || s[0] in s
  {
  }

  lemma ExtraAlone(extra: string, x: Node)
    requires Appendable(extra, x)
    ensures Joinable([] + Extra(extra), [] + ExtraNode(extra, x))
  {
    hide ClauseText, IsBlank, Dangling;
  }

  /** An Or that is all that is left needs no parentheses. */
  lemma LooseAlone(query: string, n: Node, c: Node)
    requires CutFrom(query, Some(n), [c]) && Loose(c) && !IsBlank(JoinedClauses(query, [c], ""))
    ensures forall x :: Reproduces(query, [c], "", x)
  {
    hide Parse, QueryText, IsBlank, ClauseText, Dangling;
    assert c in [c];
    SliceReads(query, n, c);
    var s := Slice(query, c);
    QueryMoves(s, c.pos, c, -c.pos);
    assert PartsOf(query, [c], false) == [s] && PartNodes([c], false) == [Shift(c, -c.pos)];
    assert [s] + Extra("") == [s];
    QueryTextParses(s, Shift(c, -c.pos));
    ClosedMoves(c, -c.pos);
    ShiftBy0(Shift(c, -c.pos));
    forall x
      ensures IntendedClauses(query, [c], "", x) == [Shift(c, -c.pos)]
    {
      assert [Shift(c, -c.pos)] + ExtraNode("", x) == [Shift(c, -c.pos)];
      assert Places([s], [Shift(c, -c.pos)], 0) == [Shift(c, -c.pos)];
    }
  }

  /** Joining parts leaves the last one at the end. */
  lemma {:induction false} JoinSnoc(parts: seq<string>, last: string)
    requires parts != []
    ensures Join(parts + [last], " ") == Join(parts, " ") + " " + last
  {
    if |parts| == 1 {
      assert (parts + [last])[1..] == [last];
    } else {
      JoinSnoc(parts[1..], last);
      assert (parts + [last])[1..] == parts[1..] + [last];
      assert parts[0] + " " + (Join(parts[1..], " ") + " " + last)
          == (parts[0] + " " + Join(parts[1..], " ")) + " " + last;
    }
  }

  lemma {:induction false} PlacesLast(parts: seq<string>, cs: seq<Node>, last: string, x: Node, at: int)
    requires |parts| == |cs| && parts != []
    ensures var r := Places(parts + [last], cs + [x], at);
            r[|parts|] == Shift(x, at + |Join(parts, " ")| + 1)
    decreases |parts|
  {
    hide Shift;
    assert (parts + [last])[1..] == parts[1..] + [last] && (cs + [x])[1..] == cs[1..] + [x];
    if |parts| > 1 {
      PlacesLast(parts[1..], cs[1..], last, x, at + |parts[0]| + 1);
    } else {
      assert parts[1..] + [last] == [last] && cs[1..] + [x] == [x];
      assert Places([last], [x], at + |parts[0]| + 1)[0] == Shift(x, at + |parts[0]| + 1);
    }
  }

  /** The joined text dangles when the last part does. */
  lemma {:induction false} JoinDangles(parts: seq<string>, cs: seq<Node>, at: int)
    requires Joinable(parts, cs) && parts != []
    ensures Dangling(Join(parts, " ")) == Dangling(parts[|parts| - 1])
    decreases |parts|
  {
    hide Lex, Dangling, Joinable, Shift, Tail, ClauseText;
    JoinIsTail(parts);
    JoinableRest(parts, cs);
    if |parts| > 1 {
      TailEndsWords(parts[1..]);
      ClauseLexes(parts[0], 0, cs[0]);
      DanglingAppend(parts[0], Tail(parts[1..]), 0);
      JoinIsTail(parts[1..]);
      TailStep(parts[1..]);
      DanglingStep(Tail(parts[1..]));
      assert (" " + Join(parts[1..], " "))[1..] == Join(parts[1..], " ");
      JoinDangles(parts[1..], cs[1..], at);
    } else {
      assert parts[0] + "" == parts[0];
      TailEndsWords(parts[1..]);
    }
  }

  lemma ClauseLexes(s: string, at: int, c: Node)
    requires ClauseText(s, at, c)
    ensures Lex(s, at).Success?
  {
  }

  lemma TailStep(parts: seq<string>)
    requires parts != []
    ensures Tail(parts) == " " + (parts[0] + Tail(parts[1..]))
  {
  }

  /** A clause written where the tokens of the output do not break. */
  lemma NoTokenStarts(ts: seq<Token>, k: nat, x: int)
    requires Ordered(ts) && k < |ts| && ts[k].pos < x < ts[k].end
    ensures forall i :: 0 <= i < |ts| ==> ts[i].pos != x
  {
  }

  lemma OneTokenEnds(ts: seq<Token>, k: nat, i: nat)
    requires Ordered(ts) && k + 1 < |ts| && i + 1 < |ts| && ts[k].end == ts[i].end
    ensures i == k
  {
  }

  lemma ConjunctOnBoundaries(ts: seq<Token>, m: Node, c: Node)
    requires WellFormed(ts, m) && c in Operands(true, m)
    ensures OnBoundaries(ts, c)
  {
    hide OnBoundaries, Lined;
  }

  /** Appending after an unpaired backslash: the extra clause is not read. */
  lemma SwallowedExtra(head: string, extra: string, m: Node, c: Node)
    requires Lex(head, 0).Success? && Dangling(head) && extra != "" && !IsDelimiter(extra[0])
    requires Parse(head + " " + extra) == Success(Some(m)) && c in Operands(true, m)
    ensures c.pos != |head| + 1
  {
    hide Lex, Dangling, Parse, ParseTokens, IsDelimiter, WellFormed, Ordered, IsBlank;
    var out := head + " " + extra;
    ParseStep(out);
    var ts := Lex(out, 0).value;
    LexOrdered(out, 0);
    SpanTheorem(out, ts, m);
    ConjunctOnBoundaries(ts, m, c);
    var k := Swallow(head, 0, ' ', extra, ts);
    NoTokenStarts(ts, k, |head| + 1);
  }

  /** Closing a parenthesis after an unpaired backslash: it is not read. */
  lemma SwallowedParen(t: string, u: string, m: Node, c: Node)
    requires Lex(t, 0).Success? && Dangling(t) && EndsWords(u)
    requires Parse(t + ")" + u) == Success(Some(m)) && c in Operands(true, m) && c.grouped
    ensures c.end != |t| + 1
  {
    hide Lex, Dangling, Parse, ParseTokens, EndsWords, WellFormed, Ordered, IsBlank;
    var out := t + ")" + u;
    ParseStep(out);
    var ts := Lex(out, 0).value;
    LexOrdered(out, 0);
    SpanTheorem(out, ts, m);
    ConjunctOnBoundaries(ts, m, c);
    var k := Swallow(t, 0, ')', u, ts);
    var i: nat, j: nat :| Covers(ts, c, i, j);
    if c.end == |t| + 1 {
      OneTokenEnds(ts, k, j - 1);
    }
  }

  lemma SwallowBreaks(query: string, root: Option<Node>, kept: seq<Node>, extra: string, x: Node)
    requires CutFrom(query, root, kept) && Placed(extra, x) && Swallows(query, kept, extra)
    ensures !Reproduces(query, kept, extra, x)
  {
    hide Parse, Lex, Dangling, ClauseText, IsBlank, PartOf, PartNode, Places, Joinable, Placed, Slice;
    var c := kept[|kept| - 1];
    assert c in kept;
    var n := root.value;
    if Reproduces(query, kept, extra, x) {
      var out := JoinedClauses(query, kept, extra);
      var m := Parse(out).value.value;
      SliceReads(query, n, c);
      if Loose(c) {
        OnlyLoose(query, n, kept);
        WrappedBreaks(query, n, kept, extra, x, m);
      } else {
        NoneLoose(query, n, kept);
        UnwrappedBreaks(query, n, kept, extra, x, m);
      }
    }
  }

  lemma OnlyLoose(query: string, n: Node, kept: seq<Node>)
    requires CutFrom(query, Some(n), kept) && kept != [] && Operands(true, n) == [n]
    ensures kept == [n]
  {
    hide Parse, Lex, Dangling, ClauseText, QueryText;
    assert |kept| <= 1 || kept[0].end <= kept[1].pos;
    forall i | 0 <= i < |kept|
      ensures kept[i] == n
    {
      assert kept[i] in kept;
    }
    SliceReads(query, n, n);
  }

  lemma NoneLoose(query: string, n: Node, kept: seq<Node>)
    requires CutFrom(query, Some(n), kept) && kept != [] && !Loose(kept[|kept| - 1])
    ensures forall i :: 0 <= i < |kept| ==> !Loose(kept[i])
    ensures forall i :: 0 <= i < |kept| - 1 ==> !Dangling(Slice(query, kept[i]))
  {
    hide Parse, Lex, Dangling, ClauseText, QueryText;
    assert kept[|kept| - 1] in kept;
    SliceReads(query, n, kept[|kept| - 1]);
    forall i | 0 <= i < |kept|
      ensures !Loose(kept[i])
      ensures i < |kept| - 1 ==> !Dangling(Slice(query, kept[i]))
    {
      assert kept[i] in kept;
      SliceReads(query, n, kept[i]);
    }
  }

  lemma UnwrappedBreaks(query: string, n: Node, kept: seq<Node>, extra: string, x: Node, m: Node)
    requires CutFrom(query, Some(n), kept) && Placed(extra, x) && Swallows(query, kept, extra)
    requires forall i :: 0 <= i < |kept| ==> !Loose(kept[i])
    requires forall i :: 0 <= i < |kept| - 1 ==> !Dangling(Slice(query, kept[i]))
    requires Parse(JoinedClauses(query, kept, extra)) == Success(Some(m))
    ensures Operands(true, m) != IntendedClauses(query, kept, extra, x)
  {
    hide Parse, Lex, Dangling, ClauseText, IsBlank, PartNode, Places, Joinable, Slice, CutFrom, Closed;
    var parts, nodes := PartsOf(query, kept, true), PartNodes(kept, true);
    KeptJoin(query, n, kept, true);
    JoinDangles(parts, nodes, 0);
    var _ := JoinReads(parts, nodes, 0);
    var head := Join(parts, " ");
    JoinSnoc(parts, extra);
    PlacesLast(parts, nodes, extra, x, 0);
    LastDangles(query, kept);
    var intended := IntendedClauses(query, kept, extra, x);
    if Operands(true, m) == intended {
      var last := intended[|parts|];
      assert last in Operands(true, m);
      SwallowedExtra(head, extra, m, last);
    }
  }

  lemma LastDangles(query: string, kept: seq<Node>)
    requires AllInText(query, kept) && kept != [] && !Loose(kept[|kept| - 1])
    ensures PartsOf(query, kept, true)[|kept| - 1] == Slice(query, kept[|kept| - 1])
  {
  }

  lemma WrappedBreaks(query: string, n: Node, kept: seq<Node>, extra: string, x: Node, m: Node)
    requires CutFrom(query, Some(n), kept) && kept == [n] && Swallows(query, kept, extra) && Loose(n)
    requires n in Operands(true, n)
    requires Parse(JoinedClauses(query, kept, extra)) == Success(Some(m))
    ensures Operands(true, m) != IntendedClauses(query, kept, extra, x)
  {
    hide Parse, Lex, Dangling, ClauseText, IsBlank, CutFrom, Shift;
    assert InText(query, kept[0]);
    var s := Slice(query, n);
    SliceReads(query, n, n);
    QueryMoves(s, n.pos, n, 1 - n.pos);
    FieldClauses.LexSymbol('(', LParen, s, 0);
    assert ['('] + s == "(" + s;
    var t, u := "(" + s, " " + extra;
    assert PartsOf(query, kept, true) == [t + ")"];
    assert [t + ")"] + Extra(extra) == [t + ")", extra];
    assert [t + ")", extra][1..] == [extra];
    assert JoinedClauses(query, kept, extra) == Join([t + ")", extra], " ") == t + ")" + u;
    var intended := IntendedClauses(query, kept, extra, x);
    var first := PartNode(n, true);
    FirstPlace([t + ")", extra], PartNodes(kept, true) + ExtraNode(extra, x));
    if Operands(true, m) == intended {
      assert intended[0] in Operands(true, m);
      SwallowedParen(t, u, m, intended[0]);
    }
  }

  lemma FirstPlace(parts: seq<string>, cs: seq<Node>)
    requires |parts| == |cs| && parts != []
    ensures Places(parts, cs, 0)[0] == cs[0]
  {
    ShiftBy0(cs[0]);
  }

  /** A rewritten query parses to exactly the kept clauses and the extra one if
      and only if no unpaired backslash swallows what follows it and the kept
      clauses do not pass for a blank query. */
  lemma RewriteTheorem(query: string, root: Option<Node>, kept: seq<Node>, extra: string, x: Node)
    requires CutFrom(query, root, kept) && Appendable(extra, x)
    ensures Reproduces(query, kept, extra, x) <==> !Swallows(query, kept, extra) && !Vanishes(query, kept, extra)
  {
    hide Swallows, Vanishes, Reproduces, CutFrom, Appendable;
    if Swallows(query, kept, extra) {
      AppendablePlaced(extra, x);
      SwallowBreaks(query, root, kept, extra, x);
    } else if Vanishes(query, kept, extra) {
      VanishBreaks(query, root, kept, extra, x);
    } else {
      RewriteReproduces(query, root, kept, extra, x);
    }
  }

  lemma AppendablePlaced(extra: string, x: Node)
    requires Appendable(extra, x)
    ensures Placed(extra, x)
  {
    hide ClauseText, IsBlank;
  }

  lemma VanishBreaks(query: string, root: Option<Node>, kept: seq<Node>, extra: string, x: Node)
    requires CutFrom(query, root, kept) && Vanishes(query, kept, extra)
    ensures !Reproduces(query, kept, extra, x)
  {
    hide Parse, IsBlank, JoinedClauses, CutFrom, Slice;
    KeptBlank(query, root, kept);
    ParseStep(JoinedClauses(query, kept, extra));
  }
}
