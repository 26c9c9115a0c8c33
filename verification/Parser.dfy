/** The recursive-descent parser, as an object that advances through the
    tokens, proved to follow the grammar. */
module Parser {
  import opened Wrappers
  import opened Text
  import opened Lexer
  import S = Syntax
  import opened Syntax

  class QueryParser {
    const tokens: seq<Token>
    var pos: nat

    constructor (tokens: seq<Token>)
      ensures this.tokens == tokens && pos == 0
    {
      this.tokens := tokens;
      pos := 0;
    }

    ghost predicate Valid()
      reads this
    {
      pos <= |tokens|
    }

    /** The parser stands where the grammar says, having returned what it says. */
    ghost predicate Follows(r: Result<Node, QueryError>, expected: Outcome)
      reads this
    {
      match expected
      case Success(parsed) => r == Success(parsed.node) && pos == parsed.next
      case Failure(e) => r == Failure(e)
    }

    function Current(): Token
      reads this
    {
      Peek(tokens, pos)
    }

    method Next() returns (tok: Token)
      requires Valid()
      modifies this`pos
      ensures Valid() && tok == old(Current())
      ensures pos == if old(pos) < |tokens| then old(pos) + 1 else old(pos)
    {
      tok := Current();
      if pos < |tokens| {
        pos := pos + 1;
      }
    }

    method Match(kind: Kind) returns (matched: bool)
      requires Valid() && kind != EOF
      modifies this`pos
      ensures Valid() && matched == (old(Current()).kind == kind)
      ensures pos == if matched then old(pos) + 1 else old(pos)
    {
      if Current().kind != kind {
        return false;
      }
      pos := pos + 1;
      return true;
    }

    method ParseOr(ctx: string) returns (r: Result<Node, QueryError>)
      requires Valid()
      modifies this`pos
      ensures Valid() && old(pos) <= pos
      ensures Follows(r, S.ParseOr(tokens, old(pos), ctx))
      decreases |tokens| - pos, 3
    {
      hide S.ParseAnd, Combine;
      ghost var start := pos;
      var left :- ParseAnd(ctx);
      var more := Match(OrWord);
      while more
        invariant start < pos <= |tokens| && (more ==> start < pos - 1 && tokens[pos - 1].kind == OrWord)
        invariant !more ==> Current().kind != OrWord
        invariant S.ParseOr(tokens, start, ctx) == OrLoop(tokens, if more then pos - 1 else pos, ctx, left)
        decreases |tokens| - pos, more
      {
        var right :- ParseAnd(ctx);
        left := Combine(false, left, right);
        more := Match(OrWord);
      }
      return Success(left);
    }

    method ParseAnd(ctx: string) returns (r: Result<Node, QueryError>)
      requires Valid()
      modifies this`pos
      ensures Valid() && old(pos) <= pos
      ensures r.Success? ==> old(pos) < pos
      ensures Follows(r, S.ParseAnd(tokens, old(pos), ctx))
      decreases |tokens| - pos, 2
    {
      hide S.ParseUnary, Combine;
      ghost var start := pos;
      var left :- ParseUnary(ctx);
      while true
        invariant start < pos <= |tokens|
        invariant S.ParseAnd(tokens, start, ctx) == AndLoop(tokens, pos, ctx, left)
        decreases |tokens| - pos
      {
        var matched := Match(AndWord);
        if !matched && !StartsTerm(Current().kind) {
          return Success(left);
        }
        var right :- ParseUnary(ctx);
        left := Combine(true, left, right);
      }
    }

    method ParseUnary(ctx: string) returns (r: Result<Node, QueryError>)
      requires Valid()
      modifies this`pos
      ensures Valid() && old(pos) <= pos
      ensures r.Success? ==> old(pos) < pos
      ensures Follows(r, S.ParseUnary(tokens, old(pos), ctx))
      decreases |tokens| - pos, 1
    {
      hide S.ParsePrimary;
      var tok := Current();
      if tok.kind == Minus || tok.kind == NotWord {
        var _ := Next();
        var child :- ParseUnary(ctx);
        return Success(Not(tok.pos, child.end, false, child));
      }
      r := ParsePrimary(ctx);
    }

    method ParsePrimary(ctx: string) returns (r: Result<Node, QueryError>)
      requires Valid()
      modifies this`pos
      ensures Valid() && old(pos) <= pos
      ensures r.Success? ==> old(pos) < pos
      ensures Follows(r, S.ParsePrimary(tokens, old(pos), ctx))
      decreases |tokens| - pos, 0
    {
      hide S.ParseOr, S.ParseFieldValue;
      var open := Current();
      if open.kind == LParen {
        var _ := Next();
        var node :- ParseOr(ctx);
        var closing := Current();
        var matched := Match(RParen);
        if !matched {
          return Failure(QueryError(open.pos, UnclosedParenthesis));
        }
        return Success(Grouped(node, open.pos, closing.end));
      }
      var tok := Next();
      if !IsText(tok.kind) {
        return Failure(QueryError(tok.pos, if tok.kind == EOF then QueryEnds else ExpectedTerm(tok.value)));
      }
      var matched := Match(Colon);
      if matched {
        r := ParseFieldValue(tok);
        return;
      }
      return Success(Term(tok.pos, tok.end, false, ctx, tok.value, tok.kind == Phrase));
    }

    method ParseFieldValue(field: Token) returns (r: Result<Node, QueryError>)
      requires Valid()
      modifies this`pos
      ensures Valid() && old(pos) <= pos
      ensures Follows(r, S.ParseFieldValue(tokens, old(pos), field))
      decreases |tokens| - pos, 0
    {
      hide S.ParseOr, S.ParseRange, Comparison;
      var open := Current();
      if open.kind == LParen {
        var _ := Next();
        var node :- ParseOr(field.value);
        var closing := Current();
        var matched := Match(RParen);
        if !matched {
          return Failure(QueryError(open.pos, UnclosedGroup(field.value)));
        }
        return Success(Grouped(node, field.pos, closing.end));
      }
      var tok := Next();
      if !IsText(tok.kind) {
        return Failure(QueryError(field.pos, ExpectedValue(field.value)));
      }
      if tok.kind == Word && "[" <= tok.value {
        r := ParseRange(field, tok);
        return;
      }
      if tok.kind == Word {
        match Comparison(tok.value) {
          case Some((operator, value)) =>
            return Success(Compare(field.pos, tok.end, false, field.value, operator, value));
          case None =>
        }
      }
      return Success(Term(field.pos, tok.end, false, field.value, tok.value, tok.kind == Phrase));
    }

    method ParseRange(field: Token, first: Token) returns (r: Result<Node, QueryError>)
      requires Valid()
      modifies this`pos
      ensures Valid() && old(pos) <= pos
      ensures Follows(r, S.ParseRange(tokens, old(pos), field, [first.value], first.end))
    {
      hide RangeBounds, HasSuffix;
      ghost var start := pos;
      var parts, end := [first.value], first.end;
      while !HasSuffix(parts[|parts| - 1], "]")
        invariant start <= pos <= |tokens| && parts != []
        invariant S.ParseRange(tokens, start, field, [first.value], first.end) ==
                  S.ParseRange(tokens, pos, field, parts, end)
        decreases |tokens| - pos
      {
        var tok := Next();
        if !IsText(tok.kind) {
          return Failure(QueryError(field.pos, UnclosedRange(field.value)));
        }
        parts := parts + [tok.value];
        end := tok.end;
      }
      match RangeBounds(parts) {
        case Some((lower, upper)) =>
          return Success(Range(field.pos, end, false, field.value, lower, upper));
        case None =>
          return Failure(QueryError(field.pos, MalformedRange(field.value)));
      }
    }
  }

  method ParseLogQuery(query: string) returns (r: Result<Option<Node>, QueryError>)
    ensures r == Parse(query)
  {
    hide S.ParseOr, Lex;
    if TrimSpace(query) == "" {
      return Success(None);
    }
    var tokens :- Tokenize(query);
    var parser := new QueryParser(tokens);
    var node :- parser.ParseOr("");
    var tok := parser.Current();
    if tok.kind != EOF {
      return Failure(QueryError(tok.pos, Unexpected(tok.value)));
    }
    return Success(Some(node));
  }
}
