/** Parse trees of the query language and the grammar its parser follows. */
module Syntax {
  import opened Wrappers
  import opened Text
  import opened Lexer

  /** A tree with the span of text each of its nodes was read from. A grouped node
      had parentheses of its own, and stays one operand of what is around it. */
  datatype Node =
    | Term(pos: int, end: int, grouped: bool, field: string, value: string, quoted: bool)
    | Compare(pos: int, end: int, grouped: bool, field: string, operator: string, value: string)
    | Range(pos: int, end: int, grouped: bool, field: string, lower: string, upper: string)
    | Not(pos: int, end: int, grouped: bool, child: Node)
    | And(pos: int, end: int, grouped: bool, children: seq<Node>)
    | Or(pos: int, end: int, grouped: bool, children: seq<Node>)

  datatype Parsed = Parsed(node: Node, next: nat)

  type Outcome = Result<Parsed, QueryError>

  function Peek(ts: seq<Token>, p: nat): Token {
    if p < |ts| then ts[p] else Token(EOF, "", 0, 0)
  }

  predicate StartsTerm(kind: Kind) {
    kind == Word || kind == Phrase || kind == Minus || kind == NotWord || kind == LParen
  }

  predicate IsText(kind: Kind) {
    kind == Word || kind == Phrase
  }

  /** The clauses a node contributes to a surrounding And or Or. */
  function Operands(conj: bool, n: Node): seq<Node> {
    if (if conj then n.And? else n.Or?) && !n.grouped then n.children else [n]
  }

  function Combine(conj: bool, left: Node, right: Node): Node {
    var children := Operands(conj, left) + Operands(conj, right);
    if conj then And(left.pos, right.end, false, children) else Or(left.pos, right.end, false, children)
  }

  function Grouped(n: Node, pos: int, end: int): Node {
    n.(pos := pos, end := end, grouped := true)
  }

  function Comparison(value: string): Option<(string, string)> {
    if ">=" <= value && |value| > 2 then Some((">=", TrimSpace(value[2..])))
    else if "<=" <= value && |value| > 2 then Some(("<=", TrimSpace(value[2..])))
    else if ">" <= value && |value| > 1 then Some((">", TrimSpace(value[1..])))
    else if "<" <= value && |value| > 1 then Some(("<", TrimSpace(value[1..])))
    else None
  }

  // ----- the grammar, as functions of the tokens and a position in them

  function ParseOr(ts: seq<Token>, p: nat, ctx: string): (r: Outcome)
    requires p <= |ts|
    ensures r.Success? ==> p < r.value.next <= |ts|
    decreases |ts| - p, 3
  {
    var left :- ParseAnd(ts, p, ctx);
    OrLoop(ts, left.next, ctx, left.node)
  }

  function OrLoop(ts: seq<Token>, p: nat, ctx: string, left: Node): (r: Outcome)
    requires p <= |ts|
    ensures r.Success? ==> p <= r.value.next <= |ts|
    decreases |ts| - p, 3
  {
    if Peek(ts, p).kind == OrWord then
      var right :- ParseAnd(ts, p + 1, ctx);
      OrLoop(ts, right.next, ctx, Combine(false, left, right.node))
    else Success(Parsed(left, p))
  }

  function ParseAnd(ts: seq<Token>, p: nat, ctx: string): (r: Outcome)
    requires p <= |ts|
    ensures r.Success? ==> p < r.value.next <= |ts|
    decreases |ts| - p, 2
  {
    var left :- ParseUnary(ts, p, ctx);
    AndLoop(ts, left.next, ctx, left.node)
  }

  function AndLoop(ts: seq<Token>, p: nat, ctx: string, left: Node): (r: Outcome)
    requires p <= |ts|
    ensures r.Success? ==> p <= r.value.next <= |ts|
    decreases |ts| - p, 2
  {
    var kind := Peek(ts, p).kind;
    if kind == AndWord then
      var right :- ParseUnary(ts, p + 1, ctx);
      AndLoop(ts, right.next, ctx, Combine(true, left, right.node))
    else if StartsTerm(kind) then
      var right :- ParseUnary(ts, p, ctx);
      AndLoop(ts, right.next, ctx, Combine(true, left, right.node))
    else Success(Parsed(left, p))
  }

  function ParseUnary(ts: seq<Token>, p: nat, ctx: string): (r: Outcome)
    requires p <= |ts|
    ensures r.Success? ==> p < r.value.next <= |ts|
    decreases |ts| - p, 1
  {
    var tok := Peek(ts, p);
    if tok.kind == Minus || tok.kind == NotWord then
      var child :- ParseUnary(ts, p + 1, ctx);
      Success(Parsed(Not(tok.pos, child.node.end, false, child.node), child.next))
    else ParsePrimary(ts, p, ctx)
  }

  function ParsePrimary(ts: seq<Token>, p: nat, ctx: string): (r: Outcome)
    requires p <= |ts|
    ensures r.Success? ==> p < r.value.next <= |ts|
    decreases |ts| - p, 0
  {
    var tok := Peek(ts, p);
    if tok.kind == LParen then
      var inner :- ParseOr(ts, p + 1, ctx);
      var closing := Peek(ts, inner.next);
      if closing.kind != RParen then Failure(QueryError(tok.pos, UnclosedParenthesis))
      else Success(Parsed(Grouped(inner.node, tok.pos, closing.end), inner.next + 1))
    else if !IsText(tok.kind) then
      Failure(QueryError(tok.pos, if tok.kind == EOF then QueryEnds else ExpectedTerm(tok.value)))
    else if Peek(ts, p + 1).kind == Colon then ParseFieldValue(ts, p + 2, tok)
    else Success(Parsed(Term(tok.pos, tok.end, false, ctx, tok.value, tok.kind == Phrase), p + 1))
  }

  /** What follows `field:`. */
  function ParseFieldValue(ts: seq<Token>, p: nat, field: Token): (r: Outcome)
    requires p <= |ts|
    ensures r.Success? ==> p < r.value.next <= |ts|
    decreases |ts| - p, 0
  {
    var tok := Peek(ts, p);
    if tok.kind == LParen then
      var inner :- ParseOr(ts, p + 1, field.value);
      var closing := Peek(ts, inner.next);
      if closing.kind != RParen then Failure(QueryError(tok.pos, UnclosedGroup(field.value)))
      else Success(Parsed(Grouped(inner.node, field.pos, closing.end), inner.next + 1))
    else if !IsText(tok.kind) then Failure(QueryError(field.pos, ExpectedValue(field.value)))
    else if tok.kind == Word && "[" <= tok.value then ParseRange(ts, p + 1, field, [tok.value], tok.end)
    else if tok.kind == Word && Comparison(tok.value).Some? then
      var (operator, value) := Comparison(tok.value).value;
      Success(Parsed(Compare(field.pos, tok.end, false, field.value, operator, value), p + 1))
    else Success(Parsed(Term(field.pos, tok.end, false, field.value, tok.value, tok.kind == Phrase), p + 1))
  }

  /** The rest of a range whose words so far are `parts`, up to `end`. */
  function ParseRange(ts: seq<Token>, p: nat, field: Token, parts: seq<string>, end: int): (r: Outcome)
    requires p <= |ts| && parts != []
    ensures r.Success? ==> p <= r.value.next <= |ts|
    decreases |ts| - p
  {
    if HasSuffix(parts[|parts| - 1], "]") then
      match RangeBounds(parts)
      case Some((lower, upper)) =>
        Success(Parsed(Range(field.pos, end, false, field.value, lower, upper), p))
      case None => Failure(QueryError(field.pos, MalformedRange(field.value)))
    else
      var tok := Peek(ts, p);
      if !IsText(tok.kind) then Failure(QueryError(field.pos, UnclosedRange(field.value)))
      else ParseRange(ts, p + 1, field, parts + [tok.value], tok.end)
  }

  function RangeBounds(parts: seq<string>): Option<(string, string)> {
    var joined := TrimSpace(Join(parts, " "));
    var stripped := if "[" <= joined then joined[1..] else joined;
    var inside := if HasSuffix(stripped, "]") then stripped[..|stripped| - 1] else stripped;
    var bounds := Split(inside, " TO ");
    if |bounds| == 2 then Some((TrimSpace(bounds[0]), TrimSpace(bounds[1]))) else None
  }

  /** The tree of a token list that ends where the tree does. */
  function ParseTokens(ts: seq<Token>): Result<Node, QueryError> {
    var r :- ParseOr(ts, 0, "");
    var tok := Peek(ts, r.next);
    if tok.kind != EOF then Failure(QueryError(tok.pos, Unexpected(tok.value)))
    else Success(r.node)
  }

  /** The tree of a query; a blank query has none. */
  function Parse(query: string): Result<Option<Node>, QueryError> {
    if IsBlank(query) then Success(None)
    else
      var ts :- Lex(query, 0);
      var node :- ParseTokens(ts);
      Success(Some(node))
  }

  /** The clauses of a query that must all match. */
  function Conjuncts(root: Option<Node>): seq<Node> {
    match root
    case None => []
    case Some(n) => Operands(true, n)
  }
}
