/** Clauses cut out of a query, and clauses joined into one, read as they did. */
module Clauses {
  import opened Wrappers
  import opened Text
  import opened Lexer
  import opened LexerFacts
  import opened Syntax
  import opened Locality
  import opened Spans

  /** The tokens are exactly one clause and the end of the query. */
  ghost predicate AsClause(ts: seq<Token>, c: Node) {
    1 < |ts| && ts[|ts| - 1].kind == EOF && ParseUnary(ts, 0, "") == Success(Parsed(c, |ts| - 1))
  }

  /** The same for a whole query, which may be an Or without parentheses. */
  ghost predicate AsQuery(ts: seq<Token>, n: Node) {
    1 < |ts| && ts[|ts| - 1].kind == EOF && ParseOr(ts, 0, "") == Success(Parsed(n, |ts| - 1))
  }

  /** s, standing at `at`, reads as exactly the clause c. */
  ghost predicate ClauseText(s: string, at: int, c: Node) {
    Lex(s, at).Success? && AsClause(Lex(s, at).value, c)
  }

  ghost predicate QueryText(s: string, at: int, n: Node) {
    Lex(s, at).Success? && AsQuery(Lex(s, at).value, n)
  }

  // ----- cutting

  /** n is what the grammar reads as one clause somewhere in the tokens. */
  ghost predicate IsUnary(ts: seq<Token>, ctx: string, c: Node) {
    exists i: nat :: i <= |ts| && ParseUnary(ts, i, ctx).Success? && ParseUnary(ts, i, ctx).value.node == c
  }

  lemma {:induction false} AndLoopOperands(ts: seq<Token>, p: nat, ctx: string, left: Node)
    requires Ordered(ts) && p <= |ts| && AndLoop(ts, p, ctx, left).Success?
    requires forall c :: c in Operands(true, left) ==> IsUnary(ts, ctx, c)
    ensures forall c :: c in Operands(true, AndLoop(ts, p, ctx, left).value.node) ==> IsUnary(ts, ctx, c)
    decreases |ts| - p
  {
    hide ParseUnary, Ordered;
    var kind := Peek(ts, p).kind;
    if kind == AndWord || StartsTerm(kind) {
      var q := if kind == AndWord then p + 1 else p;
      var r := ParseUnary(ts, q, ctx).value;
      UnarySpans(ts, q, ctx);
      assert IsUnary(ts, ctx, r.node);
      assert Operands(true, r.node) == [r.node];
      AndLoopOperands(ts, r.next, ctx, Combine(true, left, r.node));
    }
  }

  lemma AndOperands(ts: seq<Token>, p: nat, ctx: string)
    requires Ordered(ts) && p <= |ts| && ParseAnd(ts, p, ctx).Success?
    ensures forall c :: c in Operands(true, ParseAnd(ts, p, ctx).value.node) ==> IsUnary(ts, ctx, c)
  {
    hide ParseUnary, Ordered, AndLoop;
    var l := ParseUnary(ts, p, ctx).value;
    UnarySpans(ts, p, ctx);
    assert IsUnary(ts, ctx, l.node);
    assert Operands(true, l.node) == [l.node];
    AndLoopOperands(ts, l.next, ctx, l.node);
  }

  lemma {:induction false} OrLoopIsOr(ts: seq<Token>, p: nat, ctx: string, left: Node)
    requires p <= |ts| && OrLoop(ts, p, ctx, left).Success?
    ensures var n := OrLoop(ts, p, ctx, left).value.node; n == left || (n.Or? && !n.grouped)
    decreases |ts| - p
  {
    hide ParseAnd;
    if Peek(ts, p).kind == OrWord {
      var r := ParseAnd(ts, p + 1, ctx).value;
      OrLoopIsOr(ts, r.next, ctx, Combine(false, left, r.node));
    }
  }

  /** Each conjunct is a clause of its own, unless the query is one Or. */
  lemma OrOperands(ts: seq<Token>, p: nat, ctx: string)
    requires Ordered(ts) && p <= |ts| && ParseOr(ts, p, ctx).Success?
    ensures var n := ParseOr(ts, p, ctx).value.node;
            (n.Or? && !n.grouped) || forall c :: c in Operands(true, n) ==> IsUnary(ts, ctx, c)
  {
    hide ParseAnd, OrLoop, Ordered;
    AndOperands(ts, p, ctx);
    var l := ParseAnd(ts, p, ctx).value;
    OrLoopIsOr(ts, l.next, ctx, l.node);
  }

  /** The tokens of a slice, and how they recur from the query's. */
  lemma SliceRecurs(query: string, at: int, ts: seq<Token>, n: Node, i: nat, j: nat) returns (us: seq<Token>)
    requires Lex(query, at) == Success(ts) && Covers(ts, n, i, j)
    ensures at <= n.pos < n.end <= at + |query|
    ensures Lex(query[n.pos - at..n.end - at], n.pos) == Success(us)
    ensures |us| == j - i + 1 && Recurs(ts, us, i, j, 0 - i, 0) && us[j - i].kind == EOF
    ensures Dangling(query[n.pos - at..n.end - at]) ==> n.end == at + |query| && Dangling(query)
  {
    hide Lex, Dangling;
    LexSlice(query, at, ts, i, j - 1);
    us := ts[i..j] + [EndToken(n.end)];
    forall k | i <= k < j
      ensures us[k - i] == ShiftToken(ts[k], 0)
    {
      assert us[k - i] == ts[i..j][k - i];
    }
  }

  lemma SliceIsClause(ts: seq<Token>, us: seq<Token>, c: Node, i: nat, j: nat)
    requires i < j <= |ts| && ParseUnary(ts, i, "") == Success(Parsed(c, j))
    requires |us| == j - i + 1 && Recurs(ts, us, i, j, 0 - i, 0) && us[j - i].kind == EOF
    ensures AsClause(us, c)
  {
    hide ParseUnary, Recurs;
    UnaryLocal(ts, i, "", us, 0 - i, 0);
    ShiftBy0(c);
  }

  /** The slice of a conjunct that is a clause reads as that clause. */
  lemma UnarySlice(query: string, at: int, ts: seq<Token>, c: Node)
    requires Lex(query, at) == Success(ts) && IsUnary(ts, "", c)
    ensures at <= c.pos < c.end <= at + |query| && Closed(c)
    ensures ClauseText(query[c.pos - at..c.end - at], c.pos, c)
    ensures Dangling(query[c.pos - at..c.end - at]) ==> c.end == at + |query| && Dangling(query)
  {
    hide Lex, Dangling, ParseUnary, Ordered, WellFormed, Recurs;
    LexOrdered(query, at);
    var i: nat :| i <= |ts| && ParseUnary(ts, i, "").Success? && ParseUnary(ts, i, "").value.node == c;
    var j := ParseUnary(ts, i, "").value.next;
    UnarySpans(ts, i, "");
    var us := SliceRecurs(query, at, ts, c, i, j);
    SliceIsClause(ts, us, c, i, j);
  }

  /** The slice of a whole query's tree reads as that tree. */
  lemma RootSlice(query: string, at: int, ts: seq<Token>, n: Node)
    requires Lex(query, at) == Success(ts) && ParseTokens(ts) == Success(n)
    ensures at <= n.pos < n.end <= at + |query|
    ensures QueryText(query[n.pos - at..n.end - at], n.pos, n)
    ensures Dangling(query[n.pos - at..n.end - at]) ==> n.end == at + |query| && Dangling(query)
  {
    hide Lex, Dangling, ParseOr, Ordered, WellFormed;
    LexOrdered(query, at);
    OrSpans(ts, 0, "");
    var j := ParseOr(ts, 0, "").value.next;
    var us := SliceRecurs(query, at, ts, n, 0, j);
    OrLocal(ts, 0, "", us, 0, 0);
    ShiftBy0(n);
    assert AsQuery(us, n);
  }

  // ----- moving, and reading alone

  lemma ClauseMoves(s: string, at: int, c: Node, d: int)
    requires ClauseText(s, at, c)
    ensures ClauseText(s, at + d, Shift(c, d))
    ensures Lex(s, at + d) == ShiftLexed(Lex(s, at), d)
  {
    hide Lex, ParseUnary, Shift;
    var ts := Lex(s, at).value;
    var us := ShiftTokens(ts, d);
    LexShift(s, at, d);
    assert Recurs(ts, us, 0, |ts| - 1, 0, d);
    UnaryLocal(ts, 0, "", us, 0, d);
    assert AsClause(us, Shift(c, d));
  }

  lemma UnaryStarts(ts: seq<Token>, p: nat, ctx: string)
    requires p <= |ts| && ParseUnary(ts, p, ctx).Success?
    ensures StartsTerm(Peek(ts, p).kind)
  {
    hide ParseOr, ParseFieldValue;
  }

  /** An And that the end of the query follows is the whole query. */
  lemma AndEnds(ts: seq<Token>, p: nat, ctx: string, r: Parsed)
    requires p <= |ts| && ParseAnd(ts, p, ctx) == Success(r) && EndsOr(Peek(ts, r.next).kind)
    ensures ParseOr(ts, p, ctx) == Success(r)
  {
    hide ParseAnd;
  }

  lemma UnaryEnds(ts: seq<Token>, p: nat, ctx: string, r: Parsed)
    requires p <= |ts| && ParseUnary(ts, p, ctx) == Success(r) && EndsOr(Peek(ts, r.next).kind)
    ensures ParseOr(ts, p, ctx) == Success(r)
  {
    hide ParseUnary, ParseOr;
    assert ParseAnd(ts, p, ctx) == Success(r);
    AndEnds(ts, p, ctx, r);
  }

  lemma UnaryAlone(ts: seq<Token>, c: Node)
    requires AsClause(ts, c)
    ensures AsQuery(ts, c)
  {
    hide ParseUnary, ParseOr;
    UnaryEnds(ts, 0, "", Parsed(c, |ts| - 1));
  }

  lemma AsQueryParses(ts: seq<Token>, n: Node)
    requires AsQuery(ts, n)
    ensures ParseTokens(ts) == Success(n)
  {
    hide ParseOr;
  }

  lemma QueryTextParses(s: string, n: Node)
    requires QueryText(s, 0, n) && !IsBlank(s)
    ensures Parse(s) == Success(Some(n))
  {
    hide ParseTokens, Lex, IsBlank, AsQuery, Parse;
    ParseStep(s);
    AsQueryParses(Lex(s, 0).value, n);
  }

  // ----- parentheses

  lemma LexParens(s: string, at: int, ts: seq<Token>)
    requires Lex(s, at + 1) == Success(ts) && !Dangling(s)
    ensures Lex("(" + s + ")", at) ==
            Success([Token(LParen, "(", at, at + 1)] + ts[..|ts| - 1]
                    + [Token(RParen, ")", at + 1 + |s|, at + 2 + |s|), EndToken(at + 2 + |s|)])
  {
    hide Lex, Dangling;
    var t := "(" + s + ")";
    var open, close := Token(LParen, "(", at, at + 1), Token(RParen, ")", at + 1 + |s|, at + 2 + |s|);
    LexStep(t, at);
    assert t[1..] == s + ")";
    LexAppend(s, ")", at + 1);
    LexStep(")", at + 1 + |s|);
    assert ")"[1..] == "";
    LexStep("", at + 2 + |s|);
    assert [close] + [EndToken(at + 2 + |s|)] == [close, EndToken(at + 2 + |s|)];
    assert [open] + (ts[..|ts| - 1] + [close, EndToken(at + 2 + |s|)])
        == [open] + ts[..|ts| - 1] + [close, EndToken(at + 2 + |s|)];
  }

  lemma ParensParse(ts: seq<Token>, us: seq<Token>, n: Node, open: Token, close: Token, end: Token)
    requires AsQuery(ts, n)
    requires open.kind == LParen && close.kind == RParen && end.kind == EOF
    requires us == [open] + ts[..|ts| - 1] + [close, end]
    ensures AsClause(us, Grouped(n, open.pos, close.end))
  {
    hide ParseOr;
    assert forall k :: 0 <= k < |ts| - 1 ==> us[k + 1] == ts[k];
    assert us[|ts|] == close;
    OrLocal(ts, 0, "", us, 1, 0);
    ShiftBy0(n);
    ParenUnary(us, 0, "", Parsed(n, |ts|));
  }

  lemma ParenUnary(ts: seq<Token>, p: nat, ctx: string, inner: Parsed)
    requires p < |ts| && ts[p].kind == LParen && ParseOr(ts, p + 1, ctx) == Success(inner)
    requires Peek(ts, inner.next).kind == RParen
    ensures ParseUnary(ts, p, ctx) ==
            Success(Parsed(Grouped(inner.node, ts[p].pos, Peek(ts, inner.next).end), inner.next + 1))
  {
    hide ParseOr;
  }

  lemma WrapText(s: string, at: int, n: Node)
    requires QueryText(s, at + 1, n) && !Dangling(s)
    ensures ClauseText("(" + s + ")", at, Grouped(n, at, at + 2 + |s|))
  {
    hide Lex, Dangling, AsQuery, AsClause;
    var ts := Lex(s, at + 1).value;
    LexParens(s, at, ts);
    ParensParse(ts, Lex("(" + s + ")", at).value, n, Token(LParen, "(", at, at + 1),
                Token(RParen, ")", at + 1 + |s|, at + 2 + |s|), EndToken(at + 2 + |s|));
  }

  // ----- joining

  /** Each part but the first after a blank. */
  function Tail(parts: seq<string>): string {
    if parts == [] then "" else " " + parts[0] + Tail(parts[1..])
  }

  lemma {:induction false} JoinIsTail(parts: seq<string>)
    requires parts != []
    ensures Join(parts, " ") == parts[0] + Tail(parts[1..])
  {
    if |parts| == 1 {
      assert parts[0] + "" == parts[0];
    } else {
      JoinIsTail(parts[1..]);
      assert parts[1..][0] == parts[1] && parts[1..][1..] == parts[2..];
    }
  }

  /** The clauses at their places in the joined text, the first at `at`. */
  function Places(parts: seq<string>, cs: seq<Node>, at: int): (r: seq<Node>)
    requires |parts| == |cs|
    ensures |r| == |cs|
  {
    if parts == [] then []
    else [Shift(cs[0], at)] + Places(parts[1..], cs[1..], at + |parts[0]| + 1)
  }

  /** Parts that read as clauses, none but the last open at its end. */
  ghost predicate Joinable(parts: seq<string>, cs: seq<Node>)
    ensures Joinable(parts, cs) ==> |parts| == |cs|
  {
    && |parts| == |cs|
    && (forall i :: 0 <= i < |parts| ==> ClauseText(parts[i], 0, cs[i]) && Closed(cs[i]))
    && (forall i :: 0 <= i < |parts| - 1 ==> !Dangling(parts[i]))
  }

  lemma JoinableRest(parts: seq<string>, cs: seq<Node>)
    requires Joinable(parts, cs) && parts != []
    ensures Joinable(parts[1..], cs[1..])
    ensures ClauseText(parts[0], 0, cs[0]) && Closed(cs[0])
    ensures 1 < |parts| ==> !Dangling(parts[0])
  {
    hide ClauseText, Dangling, Closed;
  }

  /** The tokens of one part followed by the others. */
  lemma LexPart(part: string, tail: string, at: int, ts: seq<Token>)
    requires Lex(part, at) == Success(ts) && EndsWords(tail) && (tail != "" ==> !Dangling(part))
    requires Lex(tail, at + |part|).Success?
    ensures Lex(part + tail, at) == Success(ts[..|ts| - 1] + Lex(tail, at + |part|).value)
  {
    hide Lex, Dangling;
    if tail == "" {
      assert part + tail == part;
      LexStep(tail, at + |part|);
      LexEnds(part, at);
      assert ts == ts[..|ts| - 1] + [ts[|ts| - 1]];
    } else {
      LexAppend(part, tail, at);
    }
  }

  lemma LexEnds(s: string, at: int)
    requires Lex(s, at).Success?
    ensures var ts := Lex(s, at).value; 0 < |ts| && ts[|ts| - 1] == EndToken(at + |s|)
  {
    hide LexOne;
  }

  lemma {:induction false} TailReads(parts: seq<string>, cs: seq<Node>, at: int)
    requires Joinable(parts, cs)
    ensures Lex(Tail(parts), at).Success?
    ensures var ts := Lex(Tail(parts), at).value;
            0 < |ts| && if parts == [] then ts[0].kind == EOF else StartsTerm(ts[0].kind)
  {
    hide Lex, Dangling, Joinable, Shift, StartsTerm, ParseUnary;
    LexStep(Tail(parts), at);
    if parts != [] {
      JoinableRest(parts, cs);
      ClauseMoves(parts[0], 0, cs[0], at + 1);
      var ts := Lex(parts[0], at + 1).value;
      UnaryStarts(ts, 0, "");
      var tail := Tail(parts[1..]);
      TailReads(parts[1..], cs[1..], at + 1 + |parts[0]|);
      LexPart(parts[0], tail, at + 1, ts);
      assert Tail(parts)[1..] == parts[0] + tail;
    }
  }

  /** Clauses combined from the left. */
  function Fold(conj: bool, left: Node, cs: seq<Node>): Node
    decreases |cs|
  {
    if cs == [] then left else Fold(conj, Combine(conj, left, cs[0]), cs[1..])
  }

  lemma OperandsSnoc(conj: bool, left: Node, c: Node)
    requires Operands(conj, c) == [c]
    ensures Operands(conj, Combine(conj, left, c)) == Operands(conj, left) + [c]
    ensures var n := Combine(conj, left, c); !n.grouped && if conj then n.And? else n.Or?
  {
  }

  lemma {:induction false} FoldOperands(conj: bool, left: Node, cs: seq<Node>)
    requires forall c :: c in cs ==> Operands(conj, c) == [c]
    ensures Operands(conj, Fold(conj, left, cs)) == Operands(conj, left) + cs
    ensures cs != [] ==> var n := Fold(conj, left, cs); !n.grouped && if conj then n.And? else n.Or?
    decreases |cs|
  {
    hide Operands, Combine;
    if cs != [] {
      assert cs[0] in cs;
      OperandsSnoc(conj, left, cs[0]);
      FoldOperands(conj, Combine(conj, left, cs[0]), cs[1..]);
      assert Operands(conj, left) + [cs[0]] + cs[1..] == Operands(conj, left) + cs;
    } else {
      assert Operands(conj, left) + [] == Operands(conj, left);
    }
  }

  /** Reading the first of the parts that stand at position p of the tokens. */
  lemma PartParses(parts: seq<string>, cs: seq<Node>, at: int, all: seq<Token>, p: nat) returns (n: nat)
    requires Joinable(parts, cs) && parts != [] && p <= |all|
    requires Lex(parts[0] + Tail(parts[1..]), at) == Success(all[p..])
    ensures ParseUnary(all, p, "") == Success(Parsed(Shift(cs[0], at), p + n))
    ensures 0 < n && p + n <= |all| && Lex(Tail(parts[1..]), at + |parts[0]|) == Success(all[p + n..])
    ensures p < |all| && StartsTerm(all[p].kind)
  {
    hide Lex, Dangling, Joinable, Shift, StartsTerm, ParseUnary, Tail;
    JoinableRest(parts, cs);
    ClauseMoves(parts[0], 0, cs[0], at);
    var ts := Lex(parts[0], at).value;
    var tail := Tail(parts[1..]);
    TailReads(parts[1..], cs[1..], at + |parts[0]|);
    TailEndsWords(parts[1..]);
    LexPart(parts[0], tail, at, ts);
    n := |ts| - 1;
    var rest := Lex(tail, at + |parts[0]|).value;
    Spread(all, p, ts[..n], rest);
    assert Recurs(ts, all, 0, n, p, 0);
    FirstNotColon(rest[0].kind);
    UnaryLocal(ts, 0, "", all, p, 0);
    ShiftBy0(Shift(cs[0], at));
    UnaryStarts(all, p, "");
  }

  lemma FirstNotColon(kind: Kind)
    ensures kind == EOF || StartsTerm(kind) ==> kind != Colon && kind != OrWord && kind != AndWord
  {
  }

  lemma TailEndsWords(parts: seq<string>)
    ensures EndsWords(Tail(parts))
    ensures |parts| == 0 ==> Tail(parts) == ""
  {
  }

  lemma Spread(all: seq<Token>, p: nat, front: seq<Token>, rest: seq<Token>)
    requires p <= |all| && all[p..] == front + rest
    ensures p + |front| + |rest| == |all| && all[p + |front|..] == rest
    ensures forall k :: 0 <= k < |front| ==> all[k + p] == ShiftToken(front[k], 0)
    ensures rest != [] ==> all[p + |front|] == rest[0]
  {
    forall k | 0 <= k < |front|
      ensures all[k + p] == front[k]
    {
      assert all[p..][k] == front[k];
    }
    assert all[p..][|front|..] == rest;
  }

  lemma AndLoopTakes(all: seq<Token>, p: nat, left: Node, r: Parsed)
    requires p < |all| && p < r.next <= |all| && ParseUnary(all, p, "") == Success(r)
    requires StartsTerm(all[p].kind) && all[p].kind != AndWord
    ensures AndLoop(all, p, "", left) == AndLoop(all, r.next, "", Combine(true, left, r.node))
  {
    hide ParseUnary, StartsTerm, Combine;
  }

  lemma AndLoopStops(all: seq<Token>, p: nat, left: Node)
    requires p < |all| && all[p].kind == EOF
    ensures AndLoop(all, p, "", left) == Success(Parsed(left, p))
  {
    hide ParseUnary;
    EofEnds();
  }

  lemma {:induction false} LoopParses(parts: seq<string>, cs: seq<Node>, at: int, all: seq<Token>, p: nat, left: Node)
    requires Joinable(parts, cs) && p <= |all| && Lex(Tail(parts), at) == Success(all[p..])
    ensures 0 < |all| && all[|all| - 1].kind == EOF
    ensures AndLoop(all, p, "", left) == Success(Parsed(Fold(true, left, Places(parts, cs, at + 1)), |all| - 1))
    decreases |parts|
  {
    hide Lex, Joinable, Shift, StartsTerm, ParseUnary, Combine, AndLoop;
    LexStep(Tail(parts), at);
    if parts == [] {
      assert all[p..] == [EndToken(at)];
      assert all[p] == all[p..][0];
      AndLoopStops(all, p, left);
    } else {
      JoinableRest(parts, cs);
      var tail := Tail(parts[1..]);
      assert Tail(parts)[1..] == parts[0] + tail;
      var n := PartParses(parts, cs, at + 1, all, p);
      FirstNotColon(all[p].kind);
      AndLoopTakes(all, p, left, Parsed(Shift(cs[0], at + 1), p + n));
      LoopParses(parts[1..], cs[1..], at + 1 + |parts[0]|, all, p + n, Combine(true, left, Shift(cs[0], at + 1)));
      var places := Places(parts[1..], cs[1..], at + 2 + |parts[0]|);
      assert Places(parts, cs, at + 1) == [Shift(cs[0], at + 1)] + places;
      assert ([Shift(cs[0], at + 1)] + places)[1..] == places;
    }
  }

  lemma EofEnds()
    ensures !StartsTerm(EOF) && EndsOr(EOF)
  {
  }

  lemma {:induction false} PlacesClosed(parts: seq<string>, cs: seq<Node>, at: int)
    requires |parts| == |cs| && forall i :: 0 <= i < |cs| ==> Closed(cs[i])
    ensures forall c :: c in Places(parts, cs, at) ==> Closed(c)
  {
    if parts != [] {
      PlacesClosed(parts[1..], cs[1..], at + |parts[0]| + 1);
    }
  }

  lemma JoinTokens(parts: seq<string>, cs: seq<Node>, at: int, all: seq<Token>)
    requires Joinable(parts, cs) && parts != []
    requires Lex(parts[0] + Tail(parts[1..]), at) == Success(all)
    ensures AsQuery(all, Fold(true, Shift(cs[0], at), Places(parts[1..], cs[1..], at + |parts[0]| + 1)))
  {
    hide Lex, Joinable, Shift, StartsTerm, ParseUnary, ParseOr, Places, Fold, Tail;
    JoinableRest(parts, cs);
    assert all[0..] == all;
    var n := PartParses(parts, cs, at, all, 0);
    var first := Shift(cs[0], at);
    LoopParses(parts[1..], cs[1..], at + |parts[0]|, all, n, first);
    EofEnds();
    AndEnds(all, 0, "", ParseAnd(all, 0, "").value);
  }

  /** Clauses joined by blanks parse to an And of exactly those clauses. */
  lemma JoinReads(parts: seq<string>, cs: seq<Node>, at: int) returns (root: Node)
    requires Joinable(parts, cs) && parts != []
    ensures QueryText(Join(parts, " "), at, root)
    ensures Operands(true, root) == Places(parts, cs, at)
  {
    hide *;
    JoinIsTail(parts);
    JoinableRest(parts, cs);
    var tail := Tail(parts[1..]);
    JoinLexes(parts, cs, at);
    JoinTokens(parts, cs, at, Lex(parts[0] + tail, at).value);
    JoinPlaces(parts, cs, at);
    root := Fold(true, Shift(cs[0], at), Places(parts[1..], cs[1..], at + |parts[0]| + 1));
    FoldOperands(true, Shift(cs[0], at), Places(parts[1..], cs[1..], at + |parts[0]| + 1));
    AsQueryText(parts[0] + tail, at, root);
  }

  lemma AsQueryText(s: string, at: int, n: Node)
    requires Lex(s, at).Success? && AsQuery(Lex(s, at).value, n)
    ensures QueryText(s, at, n)
  {
  }

  lemma JoinLexes(parts: seq<string>, cs: seq<Node>, at: int)
    requires Joinable(parts, cs) && parts != []
    ensures Lex(parts[0] + Tail(parts[1..]), at).Success?
  {
    hide Lex, Joinable, Shift, Dangling, ParseUnary;
    JoinableRest(parts, cs);
    ClauseMoves(parts[0], 0, cs[0], at);
    TailReads(parts[1..], cs[1..], at + |parts[0]|);
    TailEndsWords(parts[1..]);
    LexPart(parts[0], Tail(parts[1..]), at, Lex(parts[0], at).value);
  }

  lemma JoinPlaces(parts: seq<string>, cs: seq<Node>, at: int)
    requires Joinable(parts, cs) && parts != []
    ensures var rest := Places(parts[1..], cs[1..], at + |parts[0]| + 1);
            && Operands(true, Shift(cs[0], at)) + rest == Places(parts, cs, at)
            && forall c :: c in rest ==> Operands(true, c) == [c]
  {
    hide ClauseText;
    assert Closed(cs[0]);
    PlacesClosed(parts[1..], cs[1..], at + |parts[0]| + 1);
    assert Operands(true, Shift(cs[0], at)) == [Shift(cs[0], at)];
  }
}
