/** Where the clauses of a parse stand in the text, and the shape of the tree. */
module Spans {
  import opened Wrappers
  import opened Lexer
  import opened LexerFacts
  import opened Syntax
  import Text

  /** n is written with the tokens from i up to, not including, j; a grouped
      node ends with its closing parenthesis. */
  ghost predicate Covers(ts: seq<Token>, n: Node, i: nat, j: nat) {
    && i < j < |ts| && n.pos == ts[i].pos && n.end == ts[j - 1].end
    && (n.grouped ==> ts[j - 1].kind == RParen)
  }

  ghost predicate OnBoundaries(ts: seq<Token>, n: Node) {
    exists i: nat, j: nat :: Covers(ts, n, i, j)
  }

  predicate Inside(c: Node, n: Node) {
    n.pos <= c.pos <= c.end <= n.end
  }

  /** Clauses stand inside their parent, in order and without overlap. */
  ghost predicate Lined(n: Node, cs: seq<Node>) {
    && (forall i :: 0 <= i < |cs| ==> Inside(cs[i], n))
    && (forall i, j :: 0 <= i < j < |cs| ==> cs[i].end <= cs[j].pos)
  }

  /** Neither an And nor an Or, unless in parentheses. */
  predicate Closed(n: Node) {
    (n.And? || n.Or?) ==> n.grouped
  }

  predicate BelowOr(n: Node) {
    n.Or? ==> n.grouped
  }

  /** Spans lie on token boundaries, nested and in order; an And or Or has at
      least two children; no child is an ungrouped node of its parent's kind,
      and no And holds an ungrouped Or. */
  ghost predicate WellFormed(ts: seq<Token>, n: Node) {
    && OnBoundaries(ts, n)
    && match n
       case Not(_, _, _, child) => WellFormed(ts, child) && Inside(child, n) && Closed(child)
       case And(_, _, _, cs) =>
         2 <= |cs| && Lined(n, cs) && forall i :: 0 <= i < |cs| ==> Closed(cs[i]) && WellFormed(ts, cs[i])
       case Or(_, _, _, cs) =>
         2 <= |cs| && Lined(n, cs) && forall i :: 0 <= i < |cs| ==> BelowOr(cs[i]) && WellFormed(ts, cs[i])
       case _ => true
  }

  /** Tokens in order, the last and only the last being the end of the query. */
  ghost predicate Ordered(ts: seq<Token>) {
    && 0 < |ts| && ts[|ts| - 1].kind == EOF
    && (forall i :: 0 <= i < |ts| - 1 ==> ts[i].kind != EOF && ts[i].pos < ts[i].end)
    && (forall i :: 0 <= i < |ts| ==> ts[i].pos <= ts[i].end)
    && (forall i, j :: 0 <= i < j < |ts| ==> ts[i].end <= ts[j].pos)
  }

  lemma LexOrdered(t: string, at: int)
    requires Lex(t, at).Success?
    ensures Ordered(Lex(t, at).value)
  {
    hide LexOne, Lex;
    LexInOrder(t, at);
  }

  lemma Consumed(ts: seq<Token>, p: nat)
    requires Ordered(ts) && p <= |ts| && Peek(ts, p).kind != EOF
    ensures p + 1 < |ts|
  {
  }

  lemma Apart(ts: seq<Token>, i: nat, j: nat)
    requires Ordered(ts) && i < j < |ts|
    ensures ts[i].pos < ts[i].end <= ts[j].pos <= ts[j].end
  {
  }

  /** What the grammar promises of a node it reads between i and j. */
  ghost predicate Good(ts: seq<Token>, n: Node, i: nat, j: nat) {
    Covers(ts, n, i, j) && n.pos < n.end && WellFormed(ts, n)
  }

  lemma Leaf(ts: seq<Token>, n: Node, i: nat, j: nat)
    requires Ordered(ts) && Covers(ts, n, i, j) && (n.Term? || n.Compare? || n.Range?)
    ensures Good(ts, n, i, j)
  {
    Apart(ts, i, j);
    Apart(ts, j - 1, j);
    if i < j - 1 { Apart(ts, i, j - 1); }
  }

  lemma Wrapped(ts: seq<Token>, n: Node, i: nat, j: nat, k: nat, l: nat)
    requires Ordered(ts) && Good(ts, n, k, l) && i < k && l < j < |ts| && ts[j - 1].kind == RParen
    ensures Good(ts, Grouped(n, ts[i].pos, ts[j - 1].end), i, j)
  {
    var g := Grouped(n, ts[i].pos, ts[j - 1].end);
    Apart(ts, i, k);
    Apart(ts, l - 1, j - 1);
    assert Covers(ts, g, i, j);
  }

  lemma Negated(ts: seq<Token>, child: Node, i: nat, j: nat)
    requires Ordered(ts) && Good(ts, child, i + 1, j) && Closed(child)
    ensures Good(ts, Not(ts[i].pos, child.end, false, child), i, j)
  {
    var n := Not(ts[i].pos, child.end, false, child);
    Apart(ts, i, i + 1);
    assert Covers(ts, n, i, j);
  }

  lemma Combined(ts: seq<Token>, conj: bool, left: Node, right: Node, i: nat, j: nat, k: nat, l: nat)
    requires Ordered(ts) && Good(ts, left, i, j) && Good(ts, right, k, l) && j <= k
    requires if conj then Closed(right) && BelowOr(left) else BelowOr(right)
    ensures Good(ts, Combine(conj, left, right), i, l)
  {
    hide WellFormed, Ordered, OnBoundaries, Lined;
    var n := Combine(conj, left, right);
    Apart(ts, j - 1, k);
    assert Covers(ts, n, i, l);
    OperandsFit(ts, conj, left);
    OperandsFit(ts, conj, right);
    assert Operands(conj, right) == [right];
    CoversBounds(ts, n, i, l);
    LinedJoin(n, left, right, Operands(conj, left));
    Assembled(ts, n, Operands(conj, left) + [right]);
  }

  lemma CoversBounds(ts: seq<Token>, n: Node, i: nat, j: nat)
    requires Covers(ts, n, i, j)
    ensures OnBoundaries(ts, n)
  {
  }

  lemma LinedJoin(n: Node, left: Node, right: Node, cs: seq<Node>)
    requires Lined(left, cs) && n.pos == left.pos && n.end == right.end
    requires left.pos <= left.end <= right.pos <= right.end
    ensures Lined(n, cs + [right])
  {
  }

  lemma OperandsFit(ts: seq<Token>, conj: bool, n: Node)
    requires WellFormed(ts, n) && n.pos < n.end && (conj ==> BelowOr(n))
    ensures var cs := Operands(conj, n);
            && cs != [] && Lined(n, cs)
            && forall i :: 0 <= i < |cs| ==>
                 WellFormed(ts, cs[i]) && if conj then Closed(cs[i]) else BelowOr(cs[i])
  {
  }

  lemma Assembled(ts: seq<Token>, n: Node, cs: seq<Node>)
    requires (n.And? || n.Or?) && n.children == cs && 2 <= |cs| && OnBoundaries(ts, n) && Lined(n, cs)
    requires forall i :: 0 <= i < |cs| ==>
               WellFormed(ts, cs[i]) && if n.And? then Closed(cs[i]) else BelowOr(cs[i])
    ensures WellFormed(ts, n)
  {
  }

  lemma {:induction false} OrSpans(ts: seq<Token>, p: nat, ctx: string)
    requires Ordered(ts) && p <= |ts| && ParseOr(ts, p, ctx).Success?
    ensures var r := ParseOr(ts, p, ctx).value; Good(ts, r.node, p, r.next)
    decreases |ts| - p, 3
  {
    hide ParseAnd, OrLoop, Good, Ordered;
    AndSpans(ts, p, ctx);
    var l := ParseAnd(ts, p, ctx).value;
    OrLoopSpans(ts, p, l.next, ctx, l.node);
  }

  lemma {:induction false} OrLoopSpans(ts: seq<Token>, start: nat, p: nat, ctx: string, left: Node)
    requires Ordered(ts) && start < p <= |ts| && OrLoop(ts, p, ctx, left).Success?
    requires Good(ts, left, start, p)
    ensures var r := OrLoop(ts, p, ctx, left).value; Good(ts, r.node, start, r.next)
    decreases |ts| - p, 3
  {
    hide ParseAnd, Good, Ordered, Combine;
    if Peek(ts, p).kind == OrWord {
      AndSpans(ts, p + 1, ctx);
      var r := ParseAnd(ts, p + 1, ctx).value;
      Combined(ts, false, left, r.node, start, p, p + 1, r.next);
      OrLoopSpans(ts, start, r.next, ctx, Combine(false, left, r.node));
    }
  }

  lemma {:induction false} AndSpans(ts: seq<Token>, p: nat, ctx: string)
    requires Ordered(ts) && p <= |ts| && ParseAnd(ts, p, ctx).Success?
    ensures var r := ParseAnd(ts, p, ctx).value; Good(ts, r.node, p, r.next) && BelowOr(r.node)
    decreases |ts| - p, 2
  {
    hide ParseUnary, AndLoop, Good, Ordered;
    UnarySpans(ts, p, ctx);
    var l := ParseUnary(ts, p, ctx).value;
    AndLoopSpans(ts, p, l.next, ctx, l.node);
  }

  lemma {:induction false} AndLoopSpans(ts: seq<Token>, start: nat, p: nat, ctx: string, left: Node)
    requires Ordered(ts) && start < p <= |ts| && AndLoop(ts, p, ctx, left).Success?
    requires Good(ts, left, start, p) && BelowOr(left)
    ensures var r := AndLoop(ts, p, ctx, left).value; Good(ts, r.node, start, r.next) && BelowOr(r.node)
    decreases |ts| - p, 2
  {
    hide ParseUnary, Good, Ordered, Operands;
    var kind := Peek(ts, p).kind;
    if kind == AndWord || StartsTerm(kind) {
      var q := if kind == AndWord then p + 1 else p;
      UnarySpans(ts, q, ctx);
      var r := ParseUnary(ts, q, ctx).value;
      Combined(ts, true, left, r.node, start, p, q, r.next);
      AndLoopSpans(ts, start, r.next, ctx, Combine(true, left, r.node));
    }
  }

  lemma {:induction false} UnarySpans(ts: seq<Token>, p: nat, ctx: string)
    requires Ordered(ts) && p <= |ts| && ParseUnary(ts, p, ctx).Success?
    ensures var r := ParseUnary(ts, p, ctx).value; Good(ts, r.node, p, r.next) && Closed(r.node)
    decreases |ts| - p, 1
  {
    hide ParsePrimary, Good, Ordered;
    var tok := Peek(ts, p);
    if tok.kind == Minus || tok.kind == NotWord {
      UnarySpans(ts, p + 1, ctx);
      var r := ParseUnary(ts, p + 1, ctx).value;
      Negated(ts, r.node, p, r.next);
    } else {
      PrimarySpans(ts, p, ctx);
    }
  }

  lemma {:induction false} PrimarySpans(ts: seq<Token>, p: nat, ctx: string)
    requires Ordered(ts) && p <= |ts| && ParsePrimary(ts, p, ctx).Success?
    ensures var r := ParsePrimary(ts, p, ctx).value; Good(ts, r.node, p, r.next) && Closed(r.node)
    decreases |ts| - p, 0
  {
    hide ParseOr, ParseFieldValue, Good, Ordered;
    var r := ParsePrimary(ts, p, ctx).value;
    var tok := Peek(ts, p);
    Consumed(ts, p);
    if tok.kind == LParen {
      OrSpans(ts, p + 1, ctx);
      var inner := ParseOr(ts, p + 1, ctx).value;
      Consumed(ts, inner.next);
      Wrapped(ts, inner.node, p, r.next, p + 1, inner.next);
    } else if Peek(ts, p + 1).kind == Colon {
      FieldValueSpans(ts, p, p + 2, tok);
    } else {
      Leaf(ts, r.node, p, r.next);
    }
  }

  lemma {:induction false} FieldValueSpans(ts: seq<Token>, f: nat, p: nat, field: Token)
    requires Ordered(ts) && f < p <= |ts| && ts[f] == field && ParseFieldValue(ts, p, field).Success?
    ensures var r := ParseFieldValue(ts, p, field).value; Good(ts, r.node, f, r.next) && Closed(r.node)
    decreases |ts| - p, 0
  {
    hide ParseOr, ParseRange, Good, Ordered, Comparison;
    var r := ParseFieldValue(ts, p, field).value;
    var tok := Peek(ts, p);
    Consumed(ts, p);
    if tok.kind == LParen {
      OrSpans(ts, p + 1, field.value);
      var inner := ParseOr(ts, p + 1, field.value).value;
      Consumed(ts, inner.next);
      Wrapped(ts, inner.node, f, r.next, p + 1, inner.next);
    } else if tok.kind == Word && "[" <= tok.value {
      RangeSpans(ts, f, p + 1, field, [tok.value], tok.end);
    } else {
      Leaf(ts, r.node, f, r.next);
    }
  }

  lemma {:induction false} RangeSpans(ts: seq<Token>, f: nat, p: nat, field: Token, parts: seq<string>, end: int)
    requires Ordered(ts) && f < p < |ts| && parts != [] && ts[f] == field && ts[p - 1].end == end
    requires ParseRange(ts, p, field, parts, end).Success?
    ensures var r := ParseRange(ts, p, field, parts, end).value; Good(ts, r.node, f, r.next) && Closed(r.node)
    decreases |ts| - p
  {
    hide Good, Ordered, RangeBounds, Text.HasSuffix;
    var tok := Peek(ts, p);
    if Text.HasSuffix(parts[|parts| - 1], "]") {
      Leaf(ts, ParseRange(ts, p, field, parts, end).value.node, f, p);
    } else {
      Consumed(ts, p);
      RangeSpans(ts, f, p + 1, field, parts + [tok.value], tok.end);
    }
  }

  lemma RootSpans(ts: seq<Token>, n: Node) returns (j: nat)
    requires Ordered(ts) && ParseTokens(ts) == Success(n)
    ensures Good(ts, n, 0, j)
  {
    hide ParseOr, Ordered, Good;
    OrSpans(ts, 0, "");
    j := ParseOr(ts, 0, "").value.next;
  }

  /** What parsing a query comes to, for proofs that hide the definition. */
  lemma ParseStep(query: string)
    ensures Text.IsBlank(query) ==> Parse(query) == Success(None)
    ensures !Text.IsBlank(query) ==>
              match Lex(query, 0)
              case Failure(e) => Parse(query) == Failure(e)
              case Success(ts) =>
                match ParseTokens(ts)
                case Failure(e) => Parse(query) == Failure(e)
                case Success(n) => Parse(query) == Success(Some(n))
  {
    hide Lex, ParseTokens, Text.IsBlank;
  }

  /** The span theorem: the tree of a query is well formed over its tokens. */
  lemma SpanTheorem(query: string, ts: seq<Token>, n: Node)
    requires Parse(query) == Success(Some(n)) && Lex(query, 0) == Success(ts)
    ensures WellFormed(ts, n)
    ensures 0 <= n.pos < n.end <= |query|
  {
    hide Lex, Parse, ParseTokens, ParseOr, Ordered, WellFormed, Text.IsBlank;
    ParseStep(query);
    LexOrdered(query, 0);
    var j := RootSpans(ts, n);
    TokenBounds(query, 0, ts, 0);
    TokenBounds(query, 0, ts, j - 1);
  }
}
