/** Parsing looks only at the tokens it consumes and the kind of the next one,
    so a clause parses alike wherever it stands. */
module Locality {
  import opened Wrappers
  import opened Lexer
  import opened LexerFacts
  import opened Syntax
  import Text

  /** A tree moved by d characters. */
  function Shift(n: Node, d: int): Node {
    match n
    case Term(p, e, g, field, value, quoted) => Term(p + d, e + d, g, field, value, quoted)
    case Compare(p, e, g, field, operator, value) => Compare(p + d, e + d, g, field, operator, value)
    case Range(p, e, g, field, lower, upper) => Range(p + d, e + d, g, field, lower, upper)
    case Not(p, e, g, child) => Not(p + d, e + d, g, Shift(child, d))
    case And(p, e, g, cs) => And(p + d, e + d, g, seq(|cs|, i requires 0 <= i < |cs| => Shift(cs[i], d)))
    case Or(p, e, g, cs) => Or(p + d, e + d, g, seq(|cs|, i requires 0 <= i < |cs| => Shift(cs[i], d)))
  }

  function ShiftAll(ns: seq<Node>, d: int): seq<Node> {
    seq(|ns|, i requires 0 <= i < |ns| => Shift(ns[i], d))
  }

  function ShiftParsed(r: Parsed, d: int, off: int): Parsed
    requires r.next + off >= 0
  {
    Parsed(Shift(r.node, d), r.next + off)
  }

  lemma ShiftOperands(conj: bool, n: Node, d: int)
    ensures Operands(conj, Shift(n, d)) == ShiftAll(Operands(conj, n), d)
  {
  }

  lemma ShiftCombine(conj: bool, left: Node, right: Node, d: int)
    ensures Combine(conj, Shift(left, d), Shift(right, d)) == Shift(Combine(conj, left, right), d)
  {
    ShiftOperands(conj, left, d);
    ShiftOperands(conj, right, d);
    var l, r := Operands(conj, left), Operands(conj, right);
    assert ShiftAll(l + r, d) == ShiftAll(l, d) + ShiftAll(r, d);
  }

  lemma ShiftGrouped(n: Node, pos: int, end: int, d: int)
    ensures Shift(Grouped(n, pos, end), d) == Grouped(Shift(n, d), pos + d, end + d)
  {
  }

  lemma {:induction false} ShiftBy0(n: Node)
    ensures Shift(n, 0) == n
  {
    match n
    case Not(_, _, _, child) => ShiftBy0(child);
    case And(_, _, _, cs) => forall i | 0 <= i < |cs| { ShiftBy0(cs[i]); }
    case Or(_, _, _, cs) => forall i | 0 <= i < |cs| { ShiftBy0(cs[i]); }
    case _ =>
  }

  /** Trees without places and parentheses, which do not bear on meaning. */
  function Erase(n: Node): Node {
    match n
    case Term(_, _, _, field, value, quoted) => Term(0, 0, false, field, value, quoted)
    case Compare(_, _, _, field, operator, value) => Compare(0, 0, false, field, operator, value)
    case Range(_, _, _, field, lower, upper) => Range(0, 0, false, field, lower, upper)
    case Not(_, _, _, child) => Not(0, 0, false, Erase(child))
    case And(_, _, _, cs) => And(0, 0, false, seq(|cs|, i requires 0 <= i < |cs| => Erase(cs[i])))
    case Or(_, _, _, cs) => Or(0, 0, false, seq(|cs|, i requires 0 <= i < |cs| => Erase(cs[i])))
  }

  function EraseAll(ns: seq<Node>): seq<Node> {
    seq(|ns|, i requires 0 <= i < |ns| => Erase(ns[i]))
  }

  lemma EraseGrouped(n: Node, pos: int, end: int)
    ensures Erase(Grouped(n, pos, end)) == Erase(n)
  {
  }

  lemma {:induction false} EraseShift(n: Node, d: int)
    ensures Erase(Shift(n, d)) == Erase(n)
  {
    match n
    case Not(_, _, _, child) => EraseShift(child, d);
    case And(_, _, _, cs) => forall i | 0 <= i < |cs| { EraseShift(cs[i], d); }
    case Or(_, _, _, cs) => forall i | 0 <= i < |cs| { EraseShift(cs[i], d); }
    case _ =>
  }

  /** The tokens of a from lo up to hi recur in b, moved by `off` places in
      the list and d characters in the text. */
  ghost predicate Recurs(a: seq<Token>, b: seq<Token>, lo: nat, hi: nat, off: int, d: int)
    ensures Recurs(a, b, lo, hi, off, d) ==> lo <= hi <= |a| && 0 <= lo + off && hi + off <= |b|
  {
    && lo <= hi <= |a| && 0 <= lo + off && hi + off <= |b|
    && forall k :: lo <= k < hi ==> b[k + off] == ShiftToken(a[k], d)
  }

  lemma Narrow(a: seq<Token>, b: seq<Token>, lo: nat, hi: nat, off: int, d: int, l: nat, h: nat)
    requires Recurs(a, b, lo, hi, off, d) && lo <= l <= h <= hi
    ensures Recurs(a, b, l, h, off, d)
    ensures l < h ==> Peek(b, l + off) == ShiftToken(Peek(a, l), d)
    ensures h < hi ==> Peek(b, h + off).kind == Peek(a, h).kind
  {
  }

  /** After which kinds an And, or an Or, has come to its end. */
  predicate EndsAnd(kind: Kind) {
    kind != Colon && kind != AndWord && !StartsTerm(kind)
  }

  predicate EndsOr(kind: Kind) {
    EndsAnd(kind) && kind != OrWord
  }

  lemma AndGoesOn(ts: seq<Token>, p: nat, ctx: string, left: Node)
    requires p <= |ts| && AndLoop(ts, p, ctx, left).Success?
    ensures AndLoop(ts, p, ctx, left).value.next > p ==>
              Peek(ts, p).kind == AndWord || StartsTerm(Peek(ts, p).kind)
    ensures EndsAnd(Peek(ts, p).kind) ==> AndLoop(ts, p, ctx, left) == Success(Parsed(left, p))
  {
  }

  lemma OrGoesOn(ts: seq<Token>, p: nat, ctx: string, left: Node)
    requires p <= |ts| && OrLoop(ts, p, ctx, left).Success?
    ensures OrLoop(ts, p, ctx, left).value.next > p ==> Peek(ts, p).kind == OrWord
    ensures EndsOr(Peek(ts, p).kind) ==> OrLoop(ts, p, ctx, left) == Success(Parsed(left, p))
  {
  }

  lemma {:induction false} OrLocal(a: seq<Token>, p: nat, ctx: string, b: seq<Token>, off: int, d: int)
    requires p <= |a| && ParseOr(a, p, ctx).Success?
    requires var r := ParseOr(a, p, ctx).value;
             Recurs(a, b, p, r.next, off, d) && EndsOr(Peek(b, r.next + off).kind)
    ensures ParseOr(b, p + off, ctx) == Success(ShiftParsed(ParseOr(a, p, ctx).value, d, off))
    decreases |a| - p, 3
  {
    hide ParseAnd, OrLoop, Shift, Recurs;
    var r, l := ParseOr(a, p, ctx).value, ParseAnd(a, p, ctx).value;
    OrGoesOn(a, l.next, ctx, l.node);
    Narrow(a, b, p, r.next, off, d, p, l.next);
    AndLocal(a, p, ctx, b, off, d);
    Narrow(a, b, p, r.next, off, d, l.next, r.next);
    OrLoopLocal(a, l.next, ctx, l.node, b, off, d);
  }

  lemma {:induction false} OrLoopLocal(a: seq<Token>, p: nat, ctx: string, left: Node,
                                       b: seq<Token>, off: int, d: int)
    requires p <= |a| && OrLoop(a, p, ctx, left).Success?
    requires var r := OrLoop(a, p, ctx, left).value;
             Recurs(a, b, p, r.next, off, d) && EndsOr(Peek(b, r.next + off).kind)
    ensures OrLoop(b, p + off, ctx, Shift(left, d)) == Success(ShiftParsed(OrLoop(a, p, ctx, left).value, d, off))
    decreases |a| - p, 3
  {
    hide ParseAnd, Shift, Recurs, Combine, Peek;
    var r := OrLoop(a, p, ctx, left).value;
    if Peek(a, p).kind == OrWord {
      var next := ParseAnd(a, p + 1, ctx).value;
      OrGoesOn(a, next.next, ctx, Combine(false, left, next.node));
      Narrow(a, b, p, r.next, off, d, p, p + 1);
      Narrow(a, b, p, r.next, off, d, p + 1, next.next);
      AndLocal(a, p + 1, ctx, b, off, d);
      Narrow(a, b, p, r.next, off, d, next.next, r.next);
      ShiftCombine(false, left, next.node, d);
      OrLoopLocal(a, next.next, ctx, Combine(false, left, next.node), b, off, d);
    }
  }

  lemma {:induction false} AndLocal(a: seq<Token>, p: nat, ctx: string, b: seq<Token>, off: int, d: int)
    requires p <= |a| && ParseAnd(a, p, ctx).Success?
    requires var r := ParseAnd(a, p, ctx).value;
             Recurs(a, b, p, r.next, off, d) && EndsAnd(Peek(b, r.next + off).kind)
    ensures ParseAnd(b, p + off, ctx) == Success(ShiftParsed(ParseAnd(a, p, ctx).value, d, off))
    decreases |a| - p, 2
  {
    hide ParseUnary, AndLoop, Shift, Recurs;
    var r, l := ParseAnd(a, p, ctx).value, ParseUnary(a, p, ctx).value;
    AndGoesOn(a, l.next, ctx, l.node);
    Narrow(a, b, p, r.next, off, d, p, l.next);
    UnaryLocal(a, p, ctx, b, off, d);
    Narrow(a, b, p, r.next, off, d, l.next, r.next);
    AndLoopLocal(a, l.next, ctx, l.node, b, off, d);
  }

  /** One step of AndLoop, for proofs that hide its definition. */
  lemma AndLoopStep(ts: seq<Token>, p: nat, ctx: string, left: Node)
    requires p <= |ts|
    ensures var kind := Peek(ts, p).kind;
            if kind == AndWord || StartsTerm(kind) then
              var q := if kind == AndWord then p + 1 else p;
              && q <= |ts|
              && (AndLoop(ts, p, ctx, left).Success? ==> ParseUnary(ts, q, ctx).Success?)
              && (ParseUnary(ts, q, ctx).Success? ==>
                    var r := ParseUnary(ts, q, ctx).value;
                    AndLoop(ts, p, ctx, left) == AndLoop(ts, r.next, ctx, Combine(true, left, r.node)))
            else AndLoop(ts, p, ctx, left) == Success(Parsed(left, p))
  {
    hide ParseUnary, Combine;
  }

  lemma {:induction false} AndLoopLocal(a: seq<Token>, p: nat, ctx: string, left: Node,
                                        b: seq<Token>, off: int, d: int)
    requires p <= |a| && AndLoop(a, p, ctx, left).Success?
    requires var r := AndLoop(a, p, ctx, left).value;
             Recurs(a, b, p, r.next, off, d) && EndsAnd(Peek(b, r.next + off).kind)
    ensures AndLoop(b, p + off, ctx, Shift(left, d)) == Success(ShiftParsed(AndLoop(a, p, ctx, left).value, d, off))
    decreases |a| - p, 2
  {
    hide ParseUnary, Shift, Recurs, Combine, Peek, AndLoop;
    var r := AndLoop(a, p, ctx, left).value;
    var kind := Peek(a, p).kind;
    AndLoopStep(a, p, ctx, left);
    AndLoopStep(b, p + off, ctx, Shift(left, d));
    if kind == AndWord || StartsTerm(kind) {
      var q := if kind == AndWord then p + 1 else p;
      var next := ParseUnary(a, q, ctx).value;
      AndGoesOn(a, next.next, ctx, Combine(true, left, next.node));
      Narrow(a, b, p, r.next, off, d, p, p + 1);
      Narrow(a, b, p, r.next, off, d, q, next.next);
      UnaryLocal(a, q, ctx, b, off, d);
      Narrow(a, b, p, r.next, off, d, next.next, r.next);
      ShiftCombine(true, left, next.node, d);
      AndLoopLocal(a, next.next, ctx, Combine(true, left, next.node), b, off, d);
    }
  }

  lemma {:induction false} UnaryLocal(a: seq<Token>, p: nat, ctx: string, b: seq<Token>, off: int, d: int)
    requires p <= |a| && ParseUnary(a, p, ctx).Success?
    requires var r := ParseUnary(a, p, ctx).value;
             Recurs(a, b, p, r.next, off, d) && Peek(b, r.next + off).kind != Colon
    ensures ParseUnary(b, p + off, ctx) == Success(ShiftParsed(ParseUnary(a, p, ctx).value, d, off))
    decreases |a| - p, 1
  {
    hide ParsePrimary, Recurs, Peek;
    var r := ParseUnary(a, p, ctx).value;
    Narrow(a, b, p, r.next, off, d, p, p + 1);
    var kind := Peek(a, p).kind;
    if kind == Minus || kind == NotWord {
      Narrow(a, b, p, r.next, off, d, p + 1, r.next);
      UnaryLocal(a, p + 1, ctx, b, off, d);
    } else {
      PrimaryLocal(a, p, ctx, b, off, d);
    }
  }

  lemma {:induction false} PrimaryLocal(a: seq<Token>, p: nat, ctx: string, b: seq<Token>, off: int, d: int)
    requires p <= |a| && ParsePrimary(a, p, ctx).Success?
    requires var r := ParsePrimary(a, p, ctx).value;
             Recurs(a, b, p, r.next, off, d) && Peek(b, r.next + off).kind != Colon
    ensures ParsePrimary(b, p + off, ctx) == Success(ShiftParsed(ParsePrimary(a, p, ctx).value, d, off))
    decreases |a| - p, 0
  {
    hide ParseOr, ParseFieldValue, Recurs, Peek, Grouped;
    var r := ParsePrimary(a, p, ctx).value;
    var tok := Peek(a, p);
    Narrow(a, b, p, r.next, off, d, p, p + 1);
    if tok.kind == LParen {
      var inner := ParseOr(a, p + 1, ctx).value;
      Narrow(a, b, p, r.next, off, d, p + 1, inner.next);
      Narrow(a, b, p, r.next, off, d, inner.next, inner.next + 1);
      OrLocal(a, p + 1, ctx, b, off, d);
      ShiftGrouped(inner.node, tok.pos, Peek(a, inner.next).end, d);
    } else if Peek(a, p + 1).kind == Colon {
      Narrow(a, b, p, r.next, off, d, p + 1, p + 2);
      Narrow(a, b, p, r.next, off, d, p + 2, r.next);
      FieldValueLocal(a, p + 2, tok, b, off, d);
    }
  }

  lemma {:induction false} FieldValueLocal(a: seq<Token>, p: nat, field: Token, b: seq<Token>, off: int, d: int)
    requires p <= |a| && ParseFieldValue(a, p, field).Success?
    requires Recurs(a, b, p, ParseFieldValue(a, p, field).value.next, off, d)
    ensures ParseFieldValue(b, p + off, ShiftToken(field, d)) ==
            Success(ShiftParsed(ParseFieldValue(a, p, field).value, d, off))
    decreases |a| - p, 0
  {
    hide ParseOr, ParseRange, Recurs, Peek, Grouped, Comparison;
    var r := ParseFieldValue(a, p, field).value;
    var tok := Peek(a, p);
    Narrow(a, b, p, r.next, off, d, p, p + 1);
    if tok.kind == LParen {
      var inner := ParseOr(a, p + 1, field.value).value;
      Narrow(a, b, p, r.next, off, d, p + 1, inner.next);
      Narrow(a, b, p, r.next, off, d, inner.next, inner.next + 1);
      OrLocal(a, p + 1, field.value, b, off, d);
      ShiftGrouped(inner.node, field.pos, Peek(a, inner.next).end, d);
    } else if tok.kind == Word && "[" <= tok.value {
      Narrow(a, b, p, r.next, off, d, p + 1, r.next);
      RangeLocal(a, p + 1, field, [tok.value], tok.end, b, off, d);
    }
  }

  lemma {:induction false} RangeLocal(a: seq<Token>, p: nat, field: Token, parts: seq<string>, end: int,
                                      b: seq<Token>, off: int, d: int)
    requires p <= |a| && parts != [] && ParseRange(a, p, field, parts, end).Success?
    requires Recurs(a, b, p, ParseRange(a, p, field, parts, end).value.next, off, d)
    ensures ParseRange(b, p + off, ShiftToken(field, d), parts, end + d) ==
            Success(ShiftParsed(ParseRange(a, p, field, parts, end).value, d, off))
    decreases |a| - p
  {
    hide Recurs, Peek, RangeBounds, Text.HasSuffix;
    if !Text.HasSuffix(parts[|parts| - 1], "]") {
      var r := ParseRange(a, p, field, parts, end).value;
      var tok := Peek(a, p);
      Narrow(a, b, p, r.next, off, d, p, p + 1);
      Narrow(a, b, p, r.next, off, d, p + 1, r.next);
      RangeLocal(a, p + 1, field, parts + [tok.value], tok.end, b, off, d);
    }
  }
}
