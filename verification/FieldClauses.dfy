/** The clauses a rewrite writes, `field:v` and `field:(a OR b)`, and how they
    read. */
module FieldClauses {
  import opened Wrappers
  import opened Text
  import opened Lexer
  import opened LexerFacts
  import opened Syntax
  import opened Locality
  import opened Spans
  import opened Clauses
  import opened Quoting

  /** The values quoted, joined by ORs. */
  function OrText(values: seq<string>): string
    requires values != []
  {
    if |values| == 1 then QuoteValue(values[0])
    else QuoteValue(values[0]) + " OR " + OrText(values[1..])
  }

  function Quoted(values: seq<string>): seq<string> {
    seq(|values|, i requires 0 <= i < |values| => QuoteValue(values[i]))
  }

  function FieldClause(field: string, values: seq<string>): string {
    var quoted := Quoted(values);
    if |quoted| == 1 then field + ":" + quoted[0]
    else field + ":(" + Join(quoted, " OR ") + ")"
  }

  lemma {:induction false} JoinIsOrText(values: seq<string>)
    requires values != []
    ensures Join(Quoted(values), " OR ") == OrText(values)
  {
    if |values| > 1 {
      JoinIsOrText(values[1..]);
      assert Quoted(values)[1..] == Quoted(values[1..]);
    }
  }

  // ----- tokens

  function OrTokens(values: seq<string>, at: int): (r: seq<Token>)
    requires values != []
    ensures 0 < |r|
  {
    var token := ValueToken(values[0], at);
    if |values| == 1 then [token]
    else [token, Token(OrWord, "OR", token.end + 1, token.end + 3)] + OrTokens(values[1..], token.end + 4)
  }

  lemma LexOrWord(rest: string, at: int)
    requires Lex(rest, at + 4).Success?
    ensures Lex(" OR " + rest, at) ==
            Success([Token(OrWord, "OR", at + 1, at + 3)] + Lex(rest, at + 4).value)
    ensures Dangling(" OR " + rest) == Dangling(rest)
  {
    hide Lex, Dangling, LexOne;
    var t := " OR " + rest;
    LexStep(t, at);
    DanglingStep(t);
    var u := t[1..];
    assert u == "OR" + (" " + rest);
    ReadOrWord(rest);
    LexStep(u, at + 1);
    DanglingStep(u);
    assert u[2..] == " " + rest;
    LexStep(" " + rest, at + 3);
    DanglingStep(" " + rest);
    assert (" " + rest)[1..] == rest;
  }

  lemma ReadOrWord(rest: string)
    ensures LexOne("OR" + (" " + rest)) == Some(Lexeme(OrWord, "OR", 2, false))
  {
    ReadPlain("OR");
    ReadWordAppend("OR", " " + rest);
  }

  lemma BodyOfOne(q: string, at: int, token: Token)
    requires Lex(q, at) == Success([token, EndToken(at + |q|)])
    ensures Body(q, at) == [token]
  {
    hide Lex;
  }

  lemma {:induction false} LexOrText(values: seq<string>, at: int)
    requires values != []
    ensures Lex(OrText(values), at) ==
            Success(OrTokens(values, at) + [EndToken(at + |OrText(values)|)])
    ensures !Dangling(OrText(values))
  {
    hide Lex, Dangling, QuoteValue, EndsInWord, Body;
    var q := QuoteValue(values[0]);
    QuoteReadsBack(values[0], at);
    var token := ValueToken(values[0], at);
    if |values| == 1 {
      assert [token] + [EndToken(token.end)] == [token, EndToken(token.end)];
    } else {
      var rest := OrText(values[1..]);
      LexOrText(values[1..], token.end + 4);
      var end := EndToken(at + |OrText(values)|);
      OrTextStep(q, rest, at, token, OrTokens(values[1..], token.end + 4), end);
    }
  }

  lemma OrTextStep(q: string, rest: string, at: int, token: Token, tokens: seq<Token>, end: Token)
    requires Lex(q, at) == Success([token, EndToken(at + |q|)]) && !Dangling(q) && token.end == at + |q|
    requires Lex(rest, token.end + 4) == Success(tokens + [end]) && !Dangling(rest)
    ensures Lex(q + " OR " + rest, at) ==
            Success([token, Token(OrWord, "OR", token.end + 1, token.end + 3)] + tokens + [end])
    ensures !Dangling(q + " OR " + rest)
  {
    hide Lex, Dangling, EndsInWord, Body;
    LexOrWord(rest, token.end);
    LexAppend(q, " OR " + rest, at);
    DanglingAppend(q, " OR " + rest, at);
    BodyOfOne(q, at, token);
    var or := Token(OrWord, "OR", token.end + 1, token.end + 3);
    assert q + " OR " + rest == q + (" OR " + rest);
    assert [token] + ([or] + (tokens + [end])) == [token, or] + tokens + [end];
  }

  /** The tokens of `:` and what follows it. */
  lemma LexSymbol(c: char, kind: Kind, rest: string, at: int)
    requires (c, kind) in {(':', Colon), ('(', LParen), (')', RParen), ('-', Minus)}
    requires Lex(rest, at + 1).Success?
    ensures Lex([c] + rest, at) == Success([Token(kind, [c], at, at + 1)] + Lex(rest, at + 1).value)
    ensures Dangling([c] + rest) == Dangling(rest)
  {
    hide Lex, Dangling;
    var t := [c] + rest;
    LexStep(t, at);
    DanglingStep(t);
    assert t[1..] == rest;
    if rest == "" {
      DanglingStep(rest);
    }
  }

  /** The tokens of a plain word followed by a delimiter. */
  lemma LexWordThen(w: string, rest: string, at: int)
    requires Plain(w) && rest != "" && IsDelimiter(rest[0]) && Lex(rest, at + |w|).Success?
    ensures Lex(w + rest, at) == Success([Token(Word, w, at, at + |w|)] + Lex(rest, at + |w|).value)
    ensures Dangling(w + rest) == Dangling(rest)
  {
    hide Lex, Dangling, Plain;
    LexPlain(w, at);
    LexAppend(w, rest, at);
    DanglingAppend(w, rest, at);
    assert Body(w, at) == [Token(Word, w, at, at + |w|)];
  }

  // ----- trees

  /** A term with exactly this value. */
  function ExactTerm(field: string, value: string): Node {
    Term(0, 0, false, field, value, NeedsQuotes(value))
  }

  function ExactTerms(field: string, values: seq<string>): seq<Node> {
    seq(|values|, i requires 0 <= i < |values| => ExactTerm(field, values[i]))
  }

  /** The tree of `field:v`, or of `field:(a OR b)`. */
  function FieldTree(field: string, values: seq<string>): Node {
    if |values| == 1 then ExactTerm(field, values[0]) else Or(0, 0, false, ExactTerms(field, values))
  }

  /** The term a value token makes within a field. */
  function TermOf(ctx: string, token: Token): Node {
    Term(token.pos, token.end, false, ctx, token.value, token.kind == Phrase)
  }

  function TermsOf(ctx: string, tokens: seq<Token>): seq<Node> {
    seq(|tokens|, i requires 0 <= i < |tokens| => TermOf(ctx, tokens[i]))
  }

  lemma ValueParses(ts: seq<Token>, p: nat, ctx: string)
    requires p < |ts| && IsText(ts[p].kind) && Peek(ts, p + 1).kind != Colon
    ensures ParseUnary(ts, p, ctx) == Success(Parsed(TermOf(ctx, ts[p]), p + 1))
  {
    hide ParseOr, ParseFieldValue;
  }

  lemma ValueAnd(ts: seq<Token>, p: nat, ctx: string)
    requires p < |ts| && IsText(ts[p].kind) && EndsAnd(Peek(ts, p + 1).kind)
    ensures ParseAnd(ts, p, ctx) == Success(Parsed(TermOf(ctx, ts[p]), p + 1))
  {
    hide ParseUnary;
    ValueParses(ts, p, ctx);
  }

  /** ORs and values alternate from p on, up to a closing parenthesis. */
  ghost predicate MoreOrs(ts: seq<Token>, p: nat, values: seq<Token>) {
    && p + 2 * |values| < |ts| && ts[p + 2 * |values|].kind == RParen
    && forall k :: 0 <= k < |values| ==>
         ts[p + 2 * k].kind == OrWord && ts[p + 2 * k + 1] == values[k] && IsText(values[k].kind)
  }

  lemma {:induction false} OrsParse(ts: seq<Token>, p: nat, ctx: string, values: seq<Token>, left: Node)
    requires MoreOrs(ts, p, values)
    ensures OrLoop(ts, p, ctx, left) ==
            Success(Parsed(Fold(false, left, TermsOf(ctx, values)), p + 2 * |values|))
    decreases |values|
  {
    hide ParseAnd, Combine;
    if values != [] {
      var term := TermOf(ctx, values[0]);
      assert ts[p + 2 * 0].kind == OrWord && ts[p + 1] == values[0];
      OrThenEnds(ts, p, values);
      ValueAnd(ts, p + 1, ctx);
      OrsParse(ts, p + 2, ctx, values[1..], Combine(false, left, term));
      assert TermsOf(ctx, values)[1..] == TermsOf(ctx, values[1..]);
    }
  }

  lemma OrThenEnds(ts: seq<Token>, p: nat, values: seq<Token>)
    requires MoreOrs(ts, p, values) && values != []
    ensures EndsAnd(Peek(ts, p + 2).kind)
    ensures MoreOrs(ts, p + 2, values[1..])
  {
    if |values| > 1 {
      assert ts[p + 2 * 1].kind == OrWord;
    }
    forall k | 0 <= k < |values[1..]|
      ensures ts[p + 2 + 2 * k].kind == OrWord && ts[p + 2 + 2 * k + 1] == values[1..][k] && IsText(values[1..][k].kind)
    {
      assert ts[p + 2 * (k + 1)].kind == OrWord;
    }
  }

  function ValueTokens(values: seq<string>, at: int): (r: seq<Token>)
    ensures |r| == |values|
  {
    if values == [] then []
    else [ValueToken(values[0], at)] + ValueTokens(values[1..], ValueToken(values[0], at).end + 4)
  }

  lemma {:induction false} OrTokensShape(values: seq<string>, at: int)
    requires values != []
    ensures var ts, vs := OrTokens(values, at), ValueTokens(values, at);
            && |ts| == 2 * |values| - 1
            && (forall k :: 0 <= k < |values| ==> ts[2 * k] == vs[k])
            && (forall k :: 0 < k < |values| ==> ts[2 * k - 1].kind == OrWord)
  {
    hide ValueToken;
    if |values| > 1 {
      var end := ValueToken(values[0], at).end + 4;
      OrTokensShape(values[1..], end);
      var ts, us := OrTokens(values, at), OrTokens(values[1..], end);
      forall k | 0 < k < |values|
        ensures ts[2 * k] == ValueTokens(values, at)[k] && ts[2 * k - 1].kind == OrWord
      {
        assert ts[2 * k] == us[2 * (k - 1)];
        if k > 1 {
          assert ts[2 * k - 1] == us[2 * (k - 1) - 1];
        }
      }
    }
  }

  lemma {:induction false} ValueTokensExact(values: seq<string>, at: int, ctx: string)
    ensures EraseAll(TermsOf(ctx, ValueTokens(values, at))) == ExactTerms(ctx, values)
    ensures forall k :: 0 <= k < |values| ==> IsText(ValueTokens(values, at)[k].kind)
  {
    hide NeedsQuotes, QuoteValue;
    if values != [] {
      var end := ValueToken(values[0], at).end + 4;
      ValueTokensExact(values[1..], end, ctx);
      var vs := ValueTokens(values, at);
      assert vs[1..] == ValueTokens(values[1..], end);
      assert EraseAll(TermsOf(ctx, vs)) == [ExactTerm(ctx, values[0])] + EraseAll(TermsOf(ctx, vs[1..]));
      assert ExactTerms(ctx, values) == [ExactTerm(ctx, values[0])] + ExactTerms(ctx, values[1..]);
    }
  }

  /** Values in parentheses parse to an Or of exactly those values. */
  lemma ValuesParse(ts: seq<Token>, p: nat, ctx: string, values: seq<string>, at: int) returns (n: Node)
    requires 2 <= |values|
    requires var ots := OrTokens(values, at); p + |ots| < |ts| && ts[p..p + |ots|] == ots && ts[p + |ots|].kind == RParen
    ensures ParseOr(ts, p, ctx) == Success(Parsed(n, p + |OrTokens(values, at)|))
    ensures Erase(n) == Or(0, 0, false, ExactTerms(ctx, values))
  {
    hide ParseAnd, OrTokens, ValueTokens, NeedsQuotes, Fold, OrLoop, ParseOr, Erase;
    var ots, vs := OrTokens(values, at), ValueTokens(values, at);
    OrTokensShape(values, at);
    ValueTokensExact(values, at, ctx);
    forall k | 0 <= k < |ots|
      ensures ts[p + k] == ots[k]
    {
      assert ts[p..p + |ots|][k] == ots[k];
    }
    assert ts[p] == ots[2 * 0] == vs[0];
    forall k | 0 <= k < |vs[1..]|
      ensures ts[p + 1 + 2 * k].kind == OrWord && ts[p + 1 + 2 * k + 1] == vs[1..][k]
    {
      assert ts[p + 1 + 2 * k] == ots[2 * (k + 1) - 1] && ts[p + 1 + 2 * k + 1] == ots[2 * (k + 1)];
    }
    OrsAfterFirst(ts, p, ctx, vs);
    n := Fold(false, TermOf(ctx, vs[0]), TermsOf(ctx, vs[1..]));
    FoldTerms(ctx, vs);
  }

  lemma OrsAfterFirst(ts: seq<Token>, p: nat, ctx: string, vs: seq<Token>)
    requires 2 <= |vs| && p < |ts| && ts[p] == vs[0] && IsText(vs[0].kind) && MoreOrs(ts, p + 1, vs[1..])
    ensures ParseOr(ts, p, ctx) ==
            Success(Parsed(Fold(false, TermOf(ctx, vs[0]), TermsOf(ctx, vs[1..])), p + 2 * |vs| - 1))
  {
    hide ParseAnd, Fold, OrLoop;
    assert ts[p + 1 + 2 * 0].kind == OrWord;
    ValueAnd(ts, p, ctx);
    OrsParse(ts, p + 1, ctx, vs[1..], TermOf(ctx, vs[0]));
  }

  lemma FoldTerms(ctx: string, vs: seq<Token>)
    requires 2 <= |vs|
    ensures var n := Fold(false, TermOf(ctx, vs[0]), TermsOf(ctx, vs[1..]));
            Erase(n) == Or(0, 0, false, EraseAll(TermsOf(ctx, vs)))
  {
    var first, rest := TermOf(ctx, vs[0]), TermsOf(ctx, vs[1..]);
    FoldOperands(false, first, rest);
    assert [first] + rest == TermsOf(ctx, vs);
  }

  // ----- whole clauses

  /** `field:value` for a value that is one token. */
  lemma SingleReads(field: string, t: string, at: int, value: Token)
    requires Plain(field) && t != "" && !Dangling(t)
    requires Lex(t, at + |field| + 1) == Success([value, EndToken(value.end)]) && IsText(value.kind)
    requires value.kind == Word ==> !("[" <= value.value) && Comparison(value.value) == None
    ensures ClauseText(field + ":" + t, at, Term(at, value.end, false, field, value.value, value.kind == Phrase))
    ensures !Dangling(field + ":" + t)
  {
    hide Lex, Dangling, Plain, Comparison;
    LexSymbol(':', Colon, t, at + |field|);
    LexWordThen(field, ":" + t, at);
    assert field + ":" + t == field + (":" + t);
    var ts := Lex(field + ":" + t, at).value;
    var word, colon := Token(Word, field, at, at + |field|), Token(Colon, ":", at + |field|, at + |field| + 1);
    assert ts == [word, colon, value, EndToken(value.end)];
    SingleParses(ts);
  }

  lemma SingleParses(ts: seq<Token>)
    requires |ts| == 4 && ts[0].kind == Word && ts[1].kind == Colon && IsText(ts[2].kind) && ts[3].kind == EOF
    requires ts[2].kind == Word ==> !("[" <= ts[2].value) && Comparison(ts[2].value) == None
    ensures AsClause(ts, Term(ts[0].pos, ts[2].end, false, ts[0].value, ts[2].value, ts[2].kind == Phrase))
  {
    hide ParseUnary, ParseRange, Comparison;
    FieldParses(ts, 0, "");
  }

  lemma FieldParses(ts: seq<Token>, p: nat, ctx: string)
    requires p + 1 < |ts| && IsText(ts[p].kind) && ts[p + 1].kind == Colon
    ensures ParseUnary(ts, p, ctx) == ParseFieldValue(ts, p + 2, ts[p])
  {
    hide ParseFieldValue, ParseOr;
    assert ParsePrimary(ts, p, ctx) == ParseFieldValue(ts, p + 2, ts[p]);
  }

  /** `field:v` and `field:(a OR b)` read as the trees they are meant for. */
  lemma FieldClauseReads(field: string, values: seq<string>, at: int) returns (c: Node)
    requires Plain(field) && values != []
    ensures ClauseText(FieldClause(field, values), at, c) && !Dangling(FieldClause(field, values))
    ensures Erase(c) == FieldTree(field, values) && Closed(c)
  {
    hide Lex, Dangling, Plain, Comparison, NeedsQuotes, QuoteValue, OrText, OrTokens, ClauseText;
    if |values| == 1 {
      var value := ValueToken(values[0], at + |field| + 1);
      QuoteReadsBack(values[0], at + |field| + 1);
      if !NeedsQuotes(values[0]) {
        BareIsTerm(values[0]);
      }
      SingleReads(field, QuoteValue(values[0]), at, value);
      c := Term(at, value.end, false, field, value.value, value.kind == Phrase);
    } else {
      JoinIsOrText(values);
      c := GroupReads(field, values, at);
    }
  }

  lemma GroupLexes(field: string, t: string, at: int, ts: seq<Token>)
    requires Plain(field) && Lex(t, at + |field| + 2) == Success(ts) && !Dangling(t)
    ensures var e := at + |field|;
            Lex(field + ":(" + t + ")", at) ==
            Success([Token(Word, field, at, e), Token(Colon, ":", e, e + 1), Token(LParen, "(", e + 1, e + 2)]
                    + ts[..|ts| - 1]
                    + [Token(RParen, ")", e + 2 + |t|, e + 3 + |t|), EndToken(e + 3 + |t|)])
    ensures !Dangling(field + ":(" + t + ")")
  {
    hide Lex, Dangling, Plain;
    var e := at + |field|;
    var word, colon := Token(Word, field, at, e), Token(Colon, ":", e, e + 1);
    LexParens(t, e + 1, ts);
    ParensNotDangling(t, e + 1);
    var inner := "(" + t + ")";
    LexSymbol(':', Colon, inner, e);
    LexWordThen(field, ":" + inner, at);
    assert field + ":(" + t + ")" == field + (":" + inner);
    var us := Lex(inner, e + 1).value;
    var open, tail := Token(LParen, "(", e + 1, e + 2),
                      [Token(RParen, ")", e + 2 + |t|, e + 3 + |t|), EndToken(e + 3 + |t|)];
    assert us == [open] + ts[..|ts| - 1] + tail;
    assert [word] + ([colon] + ([open] + ts[..|ts| - 1] + tail)) == [word, colon, open] + ts[..|ts| - 1] + tail;
  }

  lemma ParensNotDangling(t: string, at: int)
    requires Lex(t, at + 1).Success? && !Dangling(t)
    ensures !Dangling("(" + t + ")")
  {
    hide Lex, Dangling;
    DanglingAppend(t, ")", at + 1);
    LexSymbol(')', RParen, "", 0) by { LexStep("", 1); }
    DanglingStep("");
    assert [')'] + "" == ")";
    LexAppend(t, ")", at + 1);
    LexStep("", at + 2 + |t|);
    LexSymbol(')', RParen, "", at + 1 + |t|);
    LexSymbol('(', LParen, t + ")", at);
    assert ['('] + (t + ")") == "(" + t + ")";
  }

  lemma GroupReads(field: string, values: seq<string>, at: int) returns (c: Node)
    requires Plain(field) && 2 <= |values|
    ensures var s := field + ":(" + OrText(values) + ")"; ClauseText(s, at, c) && !Dangling(s)
    ensures Erase(c) == Or(0, 0, false, ExactTerms(field, values)) && c.grouped
  {
    hide Lex, Dangling, Plain, OrText, OrTokens, ParseOr, AsClause;
    var t := OrText(values);
    var ots := OrTokens(values, at + |field| + 2);
    LexOrText(values, at + |field| + 2);
    var ts := ots + [EndToken(at + |field| + 2 + |t|)];
    GroupLexes(field, t, at, ts);
    assert ts[..|ts| - 1] == ots;
    var us := Lex(field + ":(" + t + ")", at).value;
    assert us[3..3 + |ots|] == ots;
    var n := ValuesParse(us, 3, field, values, at + |field| + 2);
    c := Grouped(n, at, us[3 + |ots|].end);
    GroupParses(us, Parsed(n, 3 + |ots|));
    EraseGrouped(n, at, us[3 + |ots|].end);
  }

  lemma GroupParses(ts: seq<Token>, inner: Parsed)
    requires 4 < |ts| && ts[0].kind == Word && ts[1].kind == Colon && ts[2].kind == LParen
    requires ParseOr(ts, 3, ts[0].value) == Success(inner) && ts[|ts| - 1].kind == EOF
    requires inner.next == |ts| - 2 && ts[inner.next].kind == RParen
    ensures AsClause(ts, Grouped(inner.node, ts[0].pos, ts[inner.next].end))
  {
    hide ParseOr, ParseUnary;
    FieldParses(ts, 0, "");
  }

  /** `-clause` reads as the negation of the clause. */
  lemma NegatedReads(s: string, at: int, c: Node)
    requires ClauseText(s, at + 1, c) && !Dangling(s)
    ensures ClauseText("-" + s, at, Not(at, c.end, false, c)) && !Dangling("-" + s)
  {
    hide Lex, Dangling, ParseUnary;
    LexSymbol('-', Minus, s, at);
    var ts := Lex(s, at + 1).value;
    var us := Lex("-" + s, at).value;
    assert us == [Token(Minus, "-", at, at + 1)] + ts;
    NegatedParses(ts, us, c);
  }

  lemma NegatedParses(ts: seq<Token>, us: seq<Token>, c: Node)
    requires AsClause(ts, c) && us != [] && us[0].kind == Minus && us == [us[0]] + ts
    ensures AsClause(us, Not(us[0].pos, c.end, false, c))
  {
    hide ParsePrimary;
    assert Recurs(ts, us, 0, |ts| - 1, 1, 0);
    UnaryLocal(ts, 0, "", us, 1, 0);
    ShiftBy0(c);
  }
}
