/** How the text of a range or a comparison reads, and which rows it keeps. */
module Reading {
  import opened Wrappers
  import opened Text
  import opened Lexer
  import opened LexerFacts
  import opened Syntax
  import opened Clauses
  import opened Quoting
  import opened FieldClauses
  import opened Spans
  import opened Semantics
  import opened Where

  // ----- words

  /** None of the characters that end a word or stand for another. */
  predicate Bare(w: string) {
    forall i :: 0 <= i < |w| ==> w[i] !in [' ', '\t', '\n', '\r', '(', ')', ':', '"', '\\']
  }

  /** A field's name as it is written without quotes. */
  predicate BareName(f: string) {
    f != "" && Bare(f) && f[0] != '-' && f != "AND" && f != "OR" && f != "NOT"
  }

  lemma BareIsPlain(w: string)
    requires BareName(w)
    ensures Plain(w)
  {
    assert forall i :: 0 <= i < |w| ==> !IsDelimiter(w[i]) && w[i] != '\\';
  }

  /** A word and then a blank and more. */
  lemma LexWordBlank(w: string, rest: string, at: int)
    requires BareName(w) && Lex(rest, at + |w| + 1).Success?
    ensures Lex(w + " " + rest, at) ==
            Success([Token(Word, w, at, at + |w|)] + Lex(rest, at + |w| + 1).value)
    ensures Dangling(w + " " + rest) == Dangling(rest)
  {
    hide Lex, Dangling, BareName, Plain;
    BareIsPlain(w);
    var t := " " + rest;
    LexStep(t, at + |w|);
    DanglingStep(t);
    assert t[0] == ' ' && t[1..] == rest && w + " " + rest == w + t;
    LexWordThen(w, t, at);
  }

  /** A field's name, a colon and more. */
  lemma LexField(f: string, rest: string, at: int)
    requires BareName(f) && Lex(rest, at + |f| + 1).Success?
    ensures Lex(f + ":" + rest, at) ==
            Success([Token(Word, f, at, at + |f|), Token(Colon, ":", at + |f|, at + |f| + 1)] +
                    Lex(rest, at + |f| + 1).value)
    ensures Dangling(f + ":" + rest) == Dangling(rest)
  {
    hide Lex, Dangling, BareName, Plain;
    BareIsPlain(f);
    LexSymbol(':', Colon, rest, at + |f|);
    LexWordThen(f, ":" + rest, at);
    assert f + ":" + rest == f + (":" + rest);
    var word, colon := Token(Word, f, at, at + |f|), Token(Colon, ":", at + |f|, at + |f| + 1);
    assert [word] + ([colon] + Lex(rest, at + |f| + 1).value) == [word, colon] + Lex(rest, at + |f| + 1).value;
  }

  // ----- ranges

  /** `f:[l TO u]`. */
  function RangeText(f: string, l: string, u: string): string {
    f + ":[" + l + " TO " + u + "]"
  }

  predicate BareBounds(l: string, u: string) {
    Bare(l) && Bare(u) && !HasSuffix(l, "]")
  }

  function RangeTokens(f: string, l: string, u: string, at: int): seq<Token> {
    var a := at + |f| + 1;
    var b := a + 1 + |l| + 1;
    [Token(Word, f, at, at + |f|), Token(Colon, ":", at + |f|, a), Token(Word, "[" + l, a, a + 1 + |l|),
     Token(Word, "TO", b, b + 2), Token(Word, u + "]", b + 3, b + 3 + |u| + 1), EndToken(b + 3 + |u| + 1)]
  }

  lemma RangeLexes(f: string, l: string, u: string, at: int)
    requires BareName(f) && BareBounds(l, u) && !("-" <= u)
    ensures Lex(RangeText(f, l, u), at) == Success(RangeTokens(f, l, u, at))
    ensures !Dangling(RangeText(f, l, u))
  {
    hide Lex, Dangling, BareName, Plain;
    var a := at + |f| + 1;
    var b := a + 1 + |l| + 1;
    BoundWords(l, u);
    BareIsPlain(u + "]");
    LexPlain(u + "]", b + 3);
    LexWordBlank("TO", u + "]", b);
    LexWordBlank("[" + l, "TO" + " " + (u + "]"), a);
    LexField(f, "[" + l + " " + ("TO" + " " + (u + "]")), at);
    assert RangeText(f, l, u) == f + ":" + ("[" + l + " " + ("TO" + " " + (u + "]")));
    var ts := Lex(RangeText(f, l, u), at).value;
    assert |ts| == 6 && ts[3] == RangeTokens(f, l, u, at)[3] && ts[4] == RangeTokens(f, l, u, at)[4];
    assert ts == RangeTokens(f, l, u, at);
  }

  lemma BoundWords(l: string, u: string)
    requires BareBounds(l, u)
    ensures BareName("[" + l) && BareName("TO") && (!("-" <= u) ==> BareName(u + "]"))
  {
    assert ("[" + l)[0] == '[' && "AND"[0] == 'A' && "OR"[0] == 'O' && "NOT"[0] == 'N';
    var w := u + "]";
    assert w[|w| - 1] == ']' && "AND"[2] == 'D' && "OR"[1] == 'R' && "NOT"[2] == 'T';
    assert u != "" ==> w[0] == u[0];
  }

  lemma {:induction false} NoBlankNoSplit(head: string, s: string)
    requires ' ' !in s
    ensures SplitFrom(head, s, " TO ") == [head + s]
    decreases |s|
  {
    if s == "" {
      assert head + s == head;
    } else {
      assert s[0] in s;
      NoBlankNoSplit(head + [s[0]], s[1..]);
      assert head + [s[0]] + s[1..] == head + s;
    }
  }

  lemma {:induction false} SplitAtTo(head: string, a: string, rest: string)
    requires ' ' !in a
    ensures SplitFrom(head, a + " TO " + rest, " TO ") == [head + a] + SplitFrom("", rest, " TO ")
    decreases |a|
  {
    var s := a + " TO " + rest;
    if a == "" {
      assert s == " TO " + rest && s[4..] == rest && head + a == head;
    } else {
      assert a[0] in a && s[0] == a[0];
      assert s[1..] == a[1..] + " TO " + rest;
      SplitAtTo(head + [a[0]], a[1..], rest);
      assert head + [a[0]] + a[1..] == head + a;
    }
  }

  lemma BoundsRead(l: string, u: string)
    requires BareBounds(l, u)
    ensures RangeBounds(["[" + l, "TO", u + "]"]) == Some((TrimSpace(l), TrimSpace(u)))
  {
    hide Join, TrimSpace, Split;
    var joined := "[" + l + " TO " + u + "]";
    JoinThree("[" + l, "TO", u + "]");
    assert "[" + l + " " + ("TO" + " " + (u + "]")) == joined;
    TrimClosed(joined);
    assert joined[1..] == l + " TO " + u + "]";
    assert joined[1..][..|joined[1..]| - 1] == l + " TO " + u;
    BoundsSplit(l, u);
  }

  lemma BoundsSplit(l: string, u: string)
    requires Bare(l) && Bare(u)
    ensures Split(l + " TO " + u, " TO ") == [l, u]
  {
    hide SplitFrom;
    assert ' ' !in l && ' ' !in u;
    SplitAtTo("", l, u);
    NoBlankNoSplit("", u);
    assert "" + l == l && "" + u == u;
  }

  lemma JoinThree(a: string, b: string, c: string)
    ensures Join([a, b, c], " ") == a + " " + (b + " " + c)
  {
    assert [a, b, c][1..] == [b, c] && [b, c][1..] == [c];
    assert Join([b, c], " ") == b + " " + Join([c], " ") == b + " " + c;
  }

  lemma TrimClosed(s: string)
    requires |s| > 1 && !IsSpace(s[0]) && !IsSpace(s[|s| - 1])
    ensures TrimSpace(s) == s
  {
  }

  lemma RangeParses(ts: seq<Token>, f: string, l: string, u: string, at: int)
    requires BareBounds(l, u) && ts == RangeTokens(f, l, u, at)
    ensures AsClause(ts, Range(at, at + |RangeText(f, l, u)|, false, f, TrimSpace(l), TrimSpace(u)))
  {
    hide ParseUnary, RangeBounds, ParseRange, TrimSpace;
    FieldParses(ts, 0, "");
    BoundsRead(l, u);
    OpenEnds(l);
    RangeGoesOn(ts, 3, ts[0], ["[" + l], ts[2].end);
    RangeGoesOn(ts, 4, ts[0], ["[" + l, "TO"], ts[3].end);
    assert ["[" + l] + ["TO"] == ["[" + l, "TO"];
    assert ["[" + l, "TO"] + [u + "]"] == ["[" + l, "TO", u + "]"];
    assert (u + "]")[|u|..] == "]";
    RangeStops(ts, 5, ts[0], ["[" + l, "TO", u + "]"], ts[4].end);
  }

  lemma OpenEnds(l: string)
    requires !HasSuffix(l, "]")
    ensures !HasSuffix("[" + l, "]") && !HasSuffix("TO", "]")
  {
    var w := "[" + l;
    assert w[|w| - 1] == if l == "" then '[' else l[|l| - 1];
    if l != "" {
      assert l[|l| - 1..] == [l[|l| - 1]];
    }
  }

  lemma RangeGoesOn(ts: seq<Token>, p: nat, field: Token, parts: seq<string>, end: int)
    requires p < |ts| && parts != [] && !HasSuffix(parts[|parts| - 1], "]") && IsText(ts[p].kind)
    ensures ParseRange(ts, p, field, parts, end) == ParseRange(ts, p + 1, field, parts + [ts[p].value], ts[p].end)
  {
    hide HasSuffix, RangeBounds;
  }

  lemma RangeStops(ts: seq<Token>, p: nat, field: Token, parts: seq<string>, end: int)
    requires p <= |ts| && parts != [] && HasSuffix(parts[|parts| - 1], "]") && RangeBounds(parts).Some?
    ensures var bounds := RangeBounds(parts).value;
            ParseRange(ts, p, field, parts, end) ==
            Success(Parsed(Range(field.pos, end, false, field.value, bounds.0, bounds.1), p))
  {
    hide RangeBounds;
  }

  lemma TextNotBlank(f: string, rest: string)
    requires BareName(f)
    ensures !IsBlank(f + ":" + rest)
  {
    BlankMeansAllSpace(f + ":" + rest);
    assert (f + ":" + rest)[|f|] == ':';
  }

  /** A range reads as the range from its first bound to its second, if the second
      does not start with a minus; then it does not read at all. */
  lemma RangeReads(f: string, l: string, u: string)
    requires BareName(f) && BareBounds(l, u)
    ensures !("-" <= u) ==>
              Parse(RangeText(f, l, u)) ==
              Success(Some(Range(0, |RangeText(f, l, u)|, false, f, TrimSpace(l), TrimSpace(u))))
    ensures "-" <= u ==> Parse(RangeText(f, l, u)) == Failure(QueryError(0, UnclosedRange(f)))
  {
    hide Parse, Lex, Dangling, BareBounds, BareName, TrimSpace, AsClause, ParseTokens;
    var text := RangeText(f, l, u);
    assert text == f + ":" + ("[" + l + " TO " + u + "]");
    TextNotBlank(f, "[" + l + " TO " + u + "]");
    if "-" <= u {
      MinusRangeFails(f, l, u);
    } else {
      RangeLexes(f, l, u, 0);
      var n := Range(0, |text|, false, f, TrimSpace(l), TrimSpace(u));
      RangeParses(Lex(text, 0).value, f, l, u, 0);
      ClauseIsQuery(text, n);
    }
  }

  lemma ClauseIsQuery(s: string, n: Node)
    requires ClauseText(s, 0, n) && !IsBlank(s)
    ensures Parse(s) == Success(Some(n))
  {
    hide Parse, Lex, AsClause, AsQuery, IsBlank;
    UnaryAlone(Lex(s, 0).value, n);
    QueryTextParses(s, n);
  }

  lemma MinusRangeFails(f: string, l: string, u: string)
    requires BareName(f) && BareBounds(l, u) && "-" <= u && !IsBlank(RangeText(f, l, u))
    ensures Parse(RangeText(f, l, u)) == Failure(QueryError(0, UnclosedRange(f)))
  {
    hide Lex, Dangling, BareName, Plain, IsBlank, ParseTokens, Bare, HasSuffix;
    var a := |f| + 1;
    var b := a + 1 + |l| + 1;
    var text, last := RangeText(f, l, u), u[1..] + "]";
    BoundWords(l, u);
    BareTail(u);
    TailLexes(u[1..], b + 4);
    LexSymbol('-', Minus, last, b + 3);
    assert ['-'] + last == u + "]";
    LexWordBlank("TO", u + "]", b);
    LexWordBlank("[" + l, "TO" + " " + (u + "]"), a);
    LexField(f, "[" + l + " " + ("TO" + " " + (u + "]")), 0);
    assert text == f + ":" + ("[" + l + " " + ("TO" + " " + (u + "]")));
    var ts := Lex(text, 0).value;
    MinusRangeStops(ts, f, l);
    ParseStep(text);
  }

  lemma BareTail(w: string)
    requires Bare(w) && w != ""
    ensures Bare(w[1..])
  {
  }

  lemma TailLexes(w: string, at: int)
    ensures Bare(w) ==> Lex(w + "]", at).Success?
    decreases |w|
  {
    if Bare(w) {
      if "-" <= w {
        TailLexes(w[1..], at + 1);
        LexSymbol('-', Minus, w[1..] + "]", at);
        assert ['-'] + (w[1..] + "]") == w + "]";
      } else {
        assert BareName(w + "]") by { BoundWords("", w); }
        BareIsPlain(w + "]");
        LexPlain(w + "]", at);
      }
    }
  }

  lemma MinusRangeStops(ts: seq<Token>, f: string, l: string)
    requires |ts| > 5 && ts[0].kind == Word && ts[1].kind == Colon && ts[2].kind == Word && ts[3].kind == Word
    requires ts[0].value == f && ts[0].pos == 0 && ts[2].value == "[" + l && ts[3].value == "TO" && ts[4].kind == Minus
    requires !HasSuffix(l, "]")
    ensures ParseTokens(ts) == Failure(QueryError(0, UnclosedRange(f)))
  {
    hide ParseUnary, RangeBounds, ParseRange, HasSuffix;
    FieldParses(ts, 0, "");
    OpenEnds(l);
    RangeGoesOn(ts, 3, ts[0], ["[" + l], ts[2].end);
    assert ["[" + l] + ["TO"] == ["[" + l, "TO"];
    RangeUnclosed(ts, 4, ts[0], ["[" + l, "TO"], ts[3].end);
    assert ParseFieldValue(ts, 2, ts[0]) == Failure(QueryError(0, UnclosedRange(f)));
    assert ParseAnd(ts, 0, "") == Failure(QueryError(0, UnclosedRange(f)));
  }

  lemma RangeUnclosed(ts: seq<Token>, p: nat, field: Token, parts: seq<string>, end: int)
    requires p < |ts| && parts != [] && !HasSuffix(parts[|parts| - 1], "]") && !IsText(ts[p].kind)
    ensures ParseRange(ts, p, field, parts, end) == Failure(QueryError(field.pos, UnclosedRange(field.value)))
  {
    hide HasSuffix, RangeBounds;
  }

  // ----- comparisons

  const OPERATORS: seq<string> := [">=", "<=", ">", "<"]

  /** `f:>=v` and the like. */
  function CompareText(f: string, operator: string, v: string): string {
    f + ":" + operator + v
  }

  lemma OperatorRead(operator: string, v: string)
    requires operator in OPERATORS && v != "" && (operator in [">", "<"] ==> !("=" <= v))
    ensures Comparison(operator + v) == Some((operator, TrimSpace(v)))
    ensures !("[" <= operator + v)
  {
    hide TrimSpace;
    var w := operator + v;
    assert w[|operator|..] == v && w[0] == operator[0];
    if operator == ">" || operator == "<" {
      assert w[1] == v[0];
    }
  }

  lemma OperatorWord(operator: string, v: string)
    requires operator in OPERATORS && Bare(v)
    ensures BareName(operator + v)
  {
    var w := operator + v;
    assert w[0] == operator[0] && "AND"[0] == 'A' && "OR"[0] == 'O' && "NOT"[0] == 'N';
    assert forall i :: 0 <= i < |w| ==> w[i] == if i < |operator| then operator[i] else v[i - |operator|];
    assert Bare(operator);
  }

  /** A comparison reads as the comparison by its operator with its value; one by
      `>` or `<` with a value that starts with `=` is one by `>=` or `<=`. */
  lemma CompareReads(f: string, operator: string, v: string)
    requires BareName(f) && operator in OPERATORS && Bare(v) && v != ""
    requires operator in [">", "<"] ==> !("=" <= v)
    ensures Parse(CompareText(f, operator, v)) ==
            Success(Some(Compare(0, |CompareText(f, operator, v)|, false, f, operator, TrimSpace(v))))
  {
    hide Parse, Lex, Dangling, BareName, Bare, TrimSpace, AsClause, Comparison, Plain;
    var text, w := CompareText(f, operator, v), operator + v;
    OperatorWord(operator, v);
    OperatorRead(operator, v);
    BareIsPlain(w);
    LexPlain(w, |f| + 1);
    LexField(f, w, 0);
    assert text == f + ":" + w;
    TextNotBlank(f, w);
    CompareParses(Lex(text, 0).value, operator, TrimSpace(v));
    ClauseIsQuery(text, Compare(0, |text|, false, f, operator, TrimSpace(v)));
  }

  lemma CompareParses(ts: seq<Token>, operator: string, v: string)
    requires |ts| == 4 && ts[0].kind == Word && ts[1].kind == Colon && ts[2].kind == Word && ts[3].kind == EOF
    requires !("[" <= ts[2].value) && Comparison(ts[2].value) == Some((operator, v))
    ensures AsClause(ts, Compare(ts[0].pos, ts[2].end, false, ts[0].value, operator, v))
  {
    hide ParseUnary, ParseRange, Comparison;
    FieldParses(ts, 0, "");
  }

  // ----- the rows they keep

  /** The numbers of the texts are ordered as the database compares them. */
  ghost predicate Orders(nums: Numbers, number: string -> real) {
    forall text, bound ::
      && nums.holds(">=", text, bound) == (number(text) >= number(bound))
      && nums.holds("<=", text, bound) == (number(text) <= number(bound))
      && nums.holds(">", text, bound) == (number(text) > number(bound))
      && nums.holds("<", text, bound) == (number(text) < number(bound))
  }

  predicate AtLeast(x: real, bound: string, number: string -> real) {
    bound == "*" || x >= number(bound)
  }

  predicate AtMost(x: real, bound: string, number: string -> real) {
    bound == "*" || x <= number(bound)
  }

  /** A range keeps exactly the rows with a number there from its first bound to its
      second, a star being no bound; without bounds, those with the attribute. */
  lemma RangeKeeps(f: string, l: string, u: string, row: Row, nums: Numbers, number: string -> real)
    requires BareName(f) && BareBounds(l, u) && !("-" <= u) && Orders(nums, number)
    ensures var lower, upper, text := TrimSpace(l), TrimSpace(u), NumericText(row, f);
            Keeps(RangeText(f, l, u), row, nums) <==>
            if lower == "*" && upper == "*" then AttributePresent(row, f)
            else text.Some? && AtLeast(number(text.value), lower, number) && AtMost(number(text.value), upper, number)
  {
    hide Parse, TrimSpace, BareBounds, BareName, NumericText, KAll, AttributePresent;
    RangeReads(f, l, u);
    var lower, upper := TrimSpace(l), TrimSpace(u);
    var a, b := BoundMeaning(f, ">=", lower, row, nums), BoundMeaning(f, "<=", upper, row, nums);
    KAllTrue(a + b);
    assert |a| == 1 ==> (a + b)[0] == a[0];
    assert |b| == 1 ==> (a + b)[|a|] == b[0];
  }

  /** A comparison keeps exactly the rows with a number there for which it holds. */
  lemma CompareKeeps(f: string, operator: string, v: string, row: Row, nums: Numbers, number: string -> real)
    requires BareName(f) && operator in OPERATORS && Bare(v) && v != "" && Orders(nums, number)
    requires operator in [">", "<"] ==> !("=" <= v)
    ensures var text, bound := NumericText(row, f), number(TrimSpace(v));
            Keeps(CompareText(f, operator, v), row, nums) <==>
            && text.Some?
            && (operator == ">=" ==> number(text.value) >= bound) && (operator == "<=" ==> number(text.value) <= bound)
            && (operator == ">" ==> number(text.value) > bound) && (operator == "<" ==> number(text.value) < bound)
  {
    hide Parse, TrimSpace, BareName, Bare, NumericText;
    CompareReads(f, operator, v);
  }
}
