/** The query language as its users write it: for every text of the language, which
    rows it keeps. */
module Language {
  import opened Wrappers
  import opened Text
  import opened Lexer
  import opened LexerFacts
  import opened Syntax
  import opened Spans
  import opened Clauses
  import opened FieldClauses
  import opened Reading
  import Quoting
  import opened Semantics
  import opened Where

  // ----- what can be written

  /** A text as it is written: bare or between quotes, some of its characters with a
      backslash before them. */
  datatype Spelling = Spelling(value: string, escaped: seq<bool>, quoted: bool)

  datatype Value =
    | Is(text: Spelling)                         // v, "v", or a pattern
    | Compares(operator: string, bound: string)  // >=v
    | Between(lower: string, upper: string)      // [l TO u]
    | Group(inner: Expr)                         // (...)

  datatype Expr =
    | Alone(text: Spelling)
    | In(field: Spelling, value: Value)
    | Neg(dash: bool, gap: string, inner: Expr)
    | Both(left: Expr, gap: string, explicit: bool, right: Expr)
    | Either(left: Expr, gap: string, right: Expr)
    | Paren(inner: Expr)

  function Spelled(value: string, escaped: seq<bool>): string
    requires |escaped| == |value|
  {
    if value == "" then ""
    else (if escaped[0] then ['\\', value[0]] else [value[0]]) + Spelled(value[1..], escaped[1..])
  }

  /** A backslash is needed before a quote or backslash between quotes; before what
      would end a bare text; and before a minus that starts one. A bare keyword is
      no text. */
  predicate GoodSpelling(s: Spelling) {
    && |s.escaped| == |s.value|
    && if s.quoted then forall i :: 0 <= i < |s.value| ==> s.escaped[i] || s.value[i] !in ['"', '\\']
       else
         && s.value != "" && s.value != "AND" && s.value != "OR" && s.value != "NOT"
         && (s.escaped[0] || s.value[0] != '-')
         && forall i :: 0 <= i < |s.value| ==>
              s.escaped[i] || s.value[i] !in [' ', '\t', '\n', '\r', '(', ')', ':', '"', '\\']
  }

  predicate GoodGap(gap: string) {
    gap != "" && forall i :: 0 <= i < |gap| ==> gap[i] in [' ', '\t', '\n', '\r']
  }

  /** A bare value that would be a range or a comparison is no text for a field. */
  predicate GoodValue(v: Value) {
    match v
    case Is(text) =>
      && GoodSpelling(text)
      && (!text.quoted ==> text.value[0] != '[' && (text.value[0] in ['<', '>'] ==> |text.value| == 1))
    case Compares(operator, bound) =>
      operator in OPERATORS && Bare(bound) && bound != "" && (operator in [">", "<"] ==> !("=" <= bound))
    case Between(lower, upper) => BareBounds(lower, upper) && !("-" <= upper)
    case Group(inner) => Good(inner)
  }

  /** The expressions that are written as they bind: a negation takes one clause, AND
      takes clauses, and OR takes conjunctions; parentheses make a clause of any. */
  predicate Good(e: Expr) {
    match e
    case Alone(text) => GoodSpelling(text)
    case In(field, value) => GoodSpelling(field) && GoodValue(value)
    case Neg(_, gap, inner) => GoodGap(gap) && Good(inner) && IsClause(inner)
    case Both(left, gap, _, right) => GoodGap(gap) && Good(left) && Good(right) && !left.Either? && IsClause(right)
    case Either(left, gap, right) => GoodGap(gap) && Good(left) && Good(right) && !right.Either?
    case Paren(inner) => Good(inner)
  }

  predicate IsClause(e: Expr) {
    !e.Both? && !e.Either?
  }

  // ----- how it is written

  function SpellingText(s: Spelling): string
    requires GoodSpelling(s)
  {
    if s.quoted then "\"" + (Spelled(s.value, s.escaped) + "\"") else Spelled(s.value, s.escaped)
  }

  function ValueText(v: Value): string
    requires GoodValue(v)
  {
    match v
    case Is(text) => SpellingText(text)
    case Compares(operator, bound) => operator + bound
    case Between(lower, upper) => "[" + lower + " " + ("TO" + " " + (upper + "]"))
    case Group(inner) => "(" + (ExprText(inner) + ")")
  }

  function ExprText(e: Expr): string
    requires Good(e)
  {
    match e
    case Alone(text) => SpellingText(text)
    case In(field, value) => SpellingText(field) + (":" + ValueText(value))
    case Neg(dash, gap, inner) => if dash then "-" + ExprText(inner) else "NOT" + (gap + ExprText(inner))
    case Both(left, gap, explicit, right) =>
      ExprText(left) + (gap + if explicit then "AND" + (gap + ExprText(right)) else ExprText(right))
    case Either(left, gap, right) => ExprText(left) + (gap + ("OR" + (gap + ExprText(right))))
    case Paren(inner) => "(" + (ExprText(inner) + ")")
  }

  // ----- what it means

  function Not3(t: Truth): Truth {
    if t == True then False else if t == False then True else Unknown
  }

  function And3(a: Truth, b: Truth): Truth {
    if a == True then b else if a == False || b == False then False else Unknown
  }

  function Or3(a: Truth, b: Truth): Truth {
    if a == False then b else if a == True || b == True then True else Unknown
  }

  ghost function ValueTruth(field: string, v: Value, row: Row, nums: Numbers): Truth
    decreases v
  {
    match v
    case Is(text) => TermMeaning(field, text.value, text.quoted, row)
    case Compares(operator, bound) => NumberMeaning(field, operator, TrimSpace(bound), row, nums)
    case Between(lower, upper) => RangeMeaning(field, TrimSpace(lower), TrimSpace(upper), row, nums)
    case Group(inner) => ExprTruth(inner, field, row, nums)
  }

  /** The truth of what is written on a row; a text without a field of its own is
      looked for in the field of the group that it stands in. */
  ghost function ExprTruth(e: Expr, field: string, row: Row, nums: Numbers): Truth
    decreases e
  {
    match e
    case Alone(text) => TermMeaning(field, text.value, text.quoted, row)
    case In(own, value) => ValueTruth(own.value, value, row, nums)
    case Neg(_, _, inner) => Not3(ExprTruth(inner, field, row, nums))
    case Both(left, _, _, right) => And3(ExprTruth(left, field, row, nums), ExprTruth(right, field, row, nums))
    case Either(left, _, right) => Or3(ExprTruth(left, field, row, nums), ExprTruth(right, field, row, nums))
    case Paren(inner) => ExprTruth(inner, field, row, nums)
  }

  // ----- its tokens

  /** A token without its place. */
  datatype Symbol = Symbol(kind: Kind, value: string)

  function SymbolsOf(ts: seq<Token>): (r: seq<Symbol>)
    ensures |r| == |ts|
  {
    seq(|ts|, i requires 0 <= i < |ts| => Symbol(ts[i].kind, ts[i].value))
  }

  const END: Symbol := Symbol(EOF, "")

  function SpellingSymbol(s: Spelling): Symbol {
    Symbol(if s.quoted then Phrase else Word, s.value)
  }

  function ValueSymbols(v: Value): (r: seq<Symbol>)
    ensures r != []
  {
    match v
    case Is(text) => [SpellingSymbol(text)]
    case Compares(operator, bound) => [Symbol(Word, operator + bound)]
    case Between(lower, upper) => [Symbol(Word, "[" + lower), Symbol(Word, "TO"), Symbol(Word, upper + "]")]
    case Group(inner) => [Symbol(LParen, "(")] + (ExprSymbols(inner) + [Symbol(RParen, ")")])
  }

  function ExprSymbols(e: Expr): (r: seq<Symbol>)
    ensures r != [] && StartsTerm(r[0].kind)
  {
    match e
    case Alone(text) => [SpellingSymbol(text)]
    case In(field, value) => [SpellingSymbol(field)] + ([Symbol(Colon, ":")] + ValueSymbols(value))
    case Neg(dash, _, inner) => [if dash then Symbol(Minus, "-") else Symbol(NotWord, "NOT")] + ExprSymbols(inner)
    case Both(left, _, explicit, right) =>
      ExprSymbols(left) + if explicit then [Symbol(AndWord, "AND")] + ExprSymbols(right) else ExprSymbols(right)
    case Either(left, _, right) => ExprSymbols(left) + ([Symbol(OrWord, "OR")] + ExprSymbols(right))
    case Paren(inner) => [Symbol(LParen, "(")] + (ExprSymbols(inner) + [Symbol(RParen, ")")])
  }

  /** The text reads as these tokens, and nothing it ends in is left open. */
  ghost predicate Reads(t: string, symbols: seq<Symbol>) {
    Lex(t, 0).Success? && SymbolsOf(Lex(t, 0).value) == symbols + [END] && !Dangling(t)
  }

  lemma ReadsElsewhere(t: string, symbols: seq<Symbol>, at: int)
    requires Reads(t, symbols)
    ensures Lex(t, at).Success? && SymbolsOf(Lex(t, at).value) == symbols + [END]
  {
    hide Lex, Dangling;
    LexShift(t, 0, at);
    assert SymbolsOf(ShiftTokens(Lex(t, 0).value, at)) == SymbolsOf(Lex(t, 0).value);
  }

  lemma ReadsOn(t: string, a: seq<Symbol>, u: string, b: seq<Symbol>)
    requires Reads(t, a) && Reads(u, b) && (EndsInWord(t) ==> EndsWords(u))
    ensures Reads(t + u, a + b)
  {
    hide Lex, Dangling, EndsInWord, EndsWords;
    LexAppend(t, u, 0);
    DanglingAppend(t, u, 0);
    ReadsElsewhere(u, b, |t|);
    var body, rest := Body(t, 0), Lex(u, |t|).value;
    assert SymbolsOf(body) == SymbolsOf(Lex(t, 0).value)[..|a|] == a;
    assert SymbolsOf(body + rest) == SymbolsOf(body) + SymbolsOf(rest);
    assert a + (b + [END]) == a + b + [END];
  }

  /** A piece of text that is one token. */
  lemma OneReads(t: string, l: Lexeme)
    requires t != "" && !IsWhite(t[0]) && LexOne(t) == Some(l) && l.len == |t| && !l.open
    ensures Reads(t, [Symbol(l.kind, l.value)]) && (EndsInWord(t) ==> IsWord(l.kind))
  {
    hide Lex, Dangling, LexOne, EndsInWord;
    LexStep(t, 0);
    DanglingStep(t);
    EndsInWordStep(t);
    assert t[l.len..] == "";
    LexStep("", |t|);
    var token := Token(l.kind, l.value, 0, |t|);
    assert Lex(t, 0).value == [token, EndToken(|t|)];
  }

  lemma MarkReads(c: char, kind: Kind)
    requires (c, kind) in {(':', Colon), ('(', LParen), (')', RParen), ('-', Minus)}
    ensures Reads([c], [Symbol(kind, [c])]) && !EndsInWord([c])
  {
    hide Lex, Dangling, EndsInWord;
    OneReads([c], Lexeme(kind, [c], 1, false));
  }

  lemma {:induction false} GapReads(gap: string)
    requires forall i :: 0 <= i < |gap| ==> gap[i] in [' ', '\t', '\n', '\r']
    ensures Reads(gap, []) && !EndsInWord(gap)
  {
    hide Lex, Dangling, EndsInWord;
    LexStep(gap, 0);
    DanglingStep(gap);
    EndsInWordStep(gap);
    if gap != "" {
      GapReads(gap[1..]);
      assert IsWhite(gap[0]);
      ReadsElsewhere(gap[1..], [], 1);
    }
  }

  lemma KeywordReads(w: string, kind: Kind)
    requires (w, kind) in {("AND", AndWord), ("OR", OrWord), ("NOT", NotWord)}
    ensures Reads(w, [Symbol(kind, w)])
  {
    hide Lex, Dangling, ReadWord;
    Quoting.ReadPlain(w);
    OneReads(w, Lexeme(kind, w, |w|, false));
  }


  /** A keyword with space before what follows it. */
  lemma KeywordReadsOn(w: string, kind: Kind, gap: string, u: string, b: seq<Symbol>)
    requires (w, kind) in {("AND", AndWord), ("OR", OrWord), ("NOT", NotWord)} && GoodGap(gap) && Reads(u, b)
    ensures Reads(w + (gap + u), [Symbol(kind, w)] + b)
  {
    hide Reads, EndsInWord;
    KeywordReads(w, kind);
    GapReads(gap);
    ReadsOn(gap, [], u, b);
    assert [] + b == b;
    ReadsOn(w, [Symbol(kind, w)], gap + u, b);
  }

  /** What comes after a space. */
  lemma GapReadsOn(t: string, a: seq<Symbol>, gap: string, u: string, b: seq<Symbol>)
    requires Reads(t, a) && GoodGap(gap) && Reads(u, b)
    ensures Reads(t + (gap + u), a + b)
  {
    hide Reads, EndsInWord;
    GapReads(gap);
    ReadsOn(gap, [], u, b);
    assert [] + b == b;
    ReadsOn(t, a, gap + u, b);
  }

  lemma MarkReadsOn(c: char, kind: Kind, u: string, b: seq<Symbol>)
    requires (c, kind) in {(':', Colon), ('(', LParen), (')', RParen), ('-', Minus)} && Reads(u, b)
    ensures Reads([c] + u, [Symbol(kind, [c])] + b)
  {
    hide Reads, EndsInWord;
    MarkReads(c, kind);
    ReadsOn([c], [Symbol(kind, [c])], u, b);
  }

  lemma ParensRead(t: string, a: seq<Symbol>)
    requires Reads(t, a)
    ensures Reads("(" + (t + ")"), [Symbol(LParen, "(")] + (a + [Symbol(RParen, ")")]))
  {
    hide Reads, EndsInWord;
    MarkReads(')', RParen);
    ReadsOn(t, a, ")", [Symbol(RParen, ")")]);
    MarkReadsOn('(', LParen, t + ")", a + [Symbol(RParen, ")")]);
  }

  // ----- reading words

  lemma {:induction false} ReadSpelled(value: string, escaped: seq<bool>)
    requires |escaped| == |value|
    requires forall i :: 0 <= i < |value| ==>
               escaped[i] || value[i] !in [' ', '\t', '\n', '\r', '(', ')', ':', '"', '\\']
    ensures ReadWord(Spelled(value, escaped)) == Lexeme(Word, value, |Spelled(value, escaped)|, false)
  {
    hide ReadWord;
    var t := Spelled(value, escaped);
    if value == "" {
      ReadWordEnds(t);
    } else {
      var rest := Spelled(value[1..], escaped[1..]);
      var n := if escaped[0] then 1 else 0;
      ReadSpelled(value[1..], escaped[1..]);
      SpelledStep(value, escaped);
      ReadWordStep(t);
      assert [value[0]] + value[1..] == value;
    }
  }

  lemma SpelledStep(value: string, escaped: seq<bool>)
    requires |escaped| == |value| && value != ""
    requires escaped[0] || value[0] !in [' ', '\t', '\n', '\r', '(', ')', ':', '"', '\\']
    ensures var t, n := Spelled(value, escaped), if escaped[0] then 1 else 0;
            && n < |t| && t[n] == value[0] && t[n + 1..] == Spelled(value[1..], escaped[1..])
            && !IsDelimiter(t[0]) && t != "\\" && (t[0] == '\\' <==> escaped[0])
  {
  }

  lemma {:induction false} ReadSpelledQuoted(value: string, escaped: seq<bool>)
    requires |escaped| == |value|
    requires forall i :: 0 <= i < |value| ==> escaped[i] || value[i] !in ['"', '\\']
    ensures ReadQuoted(Spelled(value, escaped) + "\"") == Some(Lexeme(Phrase, value, |Spelled(value, escaped)| + 1, false))
  {
    hide ReadQuoted;
    var t := Spelled(value, escaped) + "\"";
    if value == "" {
      Quoting.QuoteCloses("");
      assert "\"" + "" == "\"" == t;
    } else {
      var rest := Spelled(value[1..], escaped[1..]) + "\"";
      var n := if escaped[0] then 1 else 0;
      ReadSpelledQuoted(value[1..], escaped[1..]);
      var head := if escaped[0] then ['\\', value[0]] else [value[0]];
      assert t == head + rest && t[|head|..] == rest;
      ReadQuotedStep(t);
      assert [value[0]] + value[1..] == value;
    }
  }

  /** However a text is spelled, it reads as one token with that text. */
  lemma SpellingReads(s: Spelling)
    requires GoodSpelling(s)
    ensures Reads(SpellingText(s), [SpellingSymbol(s)])
  {
    hide Lex, Dangling, ReadWord, ReadQuoted, EndsInWord;
    var t := SpellingText(s);
    if s.quoted {
      ReadSpelledQuoted(s.value, s.escaped);
      assert t[1..] == Spelled(s.value, s.escaped) + "\"";
      OneReads(t, Lexeme(Phrase, s.value, |t|, false));
    } else {
      ReadSpelled(s.value, s.escaped);
      SpelledStep(s.value, s.escaped);
      OneReads(t, Lexeme(Word, s.value, |t|, false));
    }
  }

  lemma BareReads(w: string)
    requires BareName(w)
    ensures Reads(w, [Symbol(Word, w)])
  {
    hide Lex, Dangling, ReadWord;
    BareIsPlain(w);
    Quoting.ReadPlain(w);
    OneReads(w, Lexeme(Word, w, |w|, false));
  }

  lemma RangeValueReads(lower: string, upper: string)
    requires BareBounds(lower, upper) && !("-" <= upper)
    ensures Reads("[" + lower + " " + ("TO" + " " + (upper + "]")),
                  [Symbol(Word, "[" + lower), Symbol(Word, "TO"), Symbol(Word, upper + "]")])
  {
    hide Reads, BareName;
    BoundWords(lower, upper);
    var a, b, c := Symbol(Word, "[" + lower), Symbol(Word, "TO"), Symbol(Word, upper + "]");
    BareReads("[" + lower);
    BareReads("TO");
    BareReads(upper + "]");
    GapReadsOn("TO", [b], " ", upper + "]", [c]);
    assert "TO" + (" " + (upper + "]")) == "TO" + " " + (upper + "]");
    GapReadsOn("[" + lower, [a], " ", "TO" + " " + (upper + "]"), [b] + [c]);
    assert "[" + lower + (" " + ("TO" + " " + (upper + "]"))) == "[" + lower + " " + ("TO" + " " + (upper + "]"));
    assert [a] + ([b] + [c]) == [a, b, c];
  }

  lemma ValueReads(v: Value)
    requires GoodValue(v)
    ensures Reads(ValueText(v), ValueSymbols(v))
    decreases v, 0
  {
    hide Reads, GoodSpelling, SpellingText;
    match v
    case Is(text) => SpellingReads(text);
    case Compares(operator, bound) =>
      OperatorWord(operator, bound);
      BareReads(operator + bound);
    case Between(lower, upper) => RangeValueReads(lower, upper);
    case Group(inner) =>
      TextReads(inner);
      ParensRead(ExprText(inner), ExprSymbols(inner));
  }

  /** What is written reads as its tokens. */
  lemma {:induction false} TextReads(e: Expr)
    requires Good(e)
    ensures Reads(ExprText(e), ExprSymbols(e))
    decreases e, 1
  {
    hide Reads, GoodSpelling, SpellingText, GoodGap, ExprText, ExprSymbols, ValueText, EndsInWord;
    TextStep(e);
    match e
    case Alone(text) => SpellingReads(text);
    case In(field, value) =>
      SpellingReads(field);
      ValueReads(value);
      MarkReadsOn(':', Colon, ValueText(value), ValueSymbols(value));
      ReadsOn(SpellingText(field), [SpellingSymbol(field)],
              ":" + ValueText(value), [Symbol(Colon, ":")] + ValueSymbols(value));
    case Neg(dash, gap, inner) =>
      TextReads(inner);
      if dash {
        MarkReadsOn('-', Minus, ExprText(inner), ExprSymbols(inner));
      } else {
        KeywordReadsOn("NOT", NotWord, gap, ExprText(inner), ExprSymbols(inner));
      }
    case Both(left, gap, explicit, right) =>
      TextReads(left);
      TextReads(right);
      if explicit {
        KeywordReadsOn("AND", AndWord, gap, ExprText(right), ExprSymbols(right));
        GapReadsOn(ExprText(left), ExprSymbols(left), gap, "AND" + (gap + ExprText(right)),
                   [Symbol(AndWord, "AND")] + ExprSymbols(right));
      } else {
        GapReadsOn(ExprText(left), ExprSymbols(left), gap, ExprText(right), ExprSymbols(right));
      }
    case Either(left, gap, right) =>
      TextReads(left);
      TextReads(right);
      KeywordReadsOn("OR", OrWord, gap, ExprText(right), ExprSymbols(right));
      GapReadsOn(ExprText(left), ExprSymbols(left), gap, "OR" + (gap + ExprText(right)),
                 [Symbol(OrWord, "OR")] + ExprSymbols(right));
    case Paren(inner) =>
      TextReads(inner);
      ParensRead(ExprText(inner), ExprSymbols(inner));
  }

  lemma TextStep(e: Expr)
    requires Good(e)
    ensures e.Alone? ==> ExprText(e) == SpellingText(e.text) && ExprSymbols(e) == [SpellingSymbol(e.text)]
    ensures e.In? ==>
              && ExprText(e) == SpellingText(e.field) + (":" + ValueText(e.value))
              && ExprSymbols(e) == [SpellingSymbol(e.field)] + ([Symbol(Colon, ":")] + ValueSymbols(e.value))
    ensures e.Neg? ==>
              && ExprText(e) == (if e.dash then "-" + ExprText(e.inner) else "NOT" + (e.gap + ExprText(e.inner)))
              && ExprSymbols(e) == [if e.dash then Symbol(Minus, "-") else Symbol(NotWord, "NOT")] + ExprSymbols(e.inner)
    ensures e.Both? ==>
              && ExprText(e) == ExprText(e.left) +
                                (e.gap + if e.explicit then "AND" + (e.gap + ExprText(e.right)) else ExprText(e.right))
              && ExprSymbols(e) == ExprSymbols(e.left) +
                                   if e.explicit then [Symbol(AndWord, "AND")] + ExprSymbols(e.right) else ExprSymbols(e.right)
    ensures e.Either? ==>
              && ExprText(e) == ExprText(e.left) + (e.gap + ("OR" + (e.gap + ExprText(e.right))))
              && ExprSymbols(e) == ExprSymbols(e.left) + ([Symbol(OrWord, "OR")] + ExprSymbols(e.right))
    ensures e.Paren? ==>
              && ExprText(e) == "(" + (ExprText(e.inner) + ")")
              && ExprSymbols(e) == [Symbol(LParen, "(")] + (ExprSymbols(e.inner) + [Symbol(RParen, ")")])
  {
  }

  // ----- the truth of what is parsed

  lemma KAllConcat(a: seq<Truth>, b: seq<Truth>)
    ensures KAll(a + b) == And3(KAll(a), KAll(b))
    ensures KAny(a + b) == Or3(KAny(a), KAny(b))
  {
    assert forall t :: t in a + b <==> t in a || t in b;
  }

  lemma OperandsMean(conj: bool, n: Node, row: Row, nums: Numbers)
    ensures var ts := Meanings(Operands(conj, n), row, nums);
            (if conj then KAll(ts) else KAny(ts)) == Meaning(n, row, nums)
  {
    hide Meaning, KAll, KAny;
    var ts := Meanings(Operands(conj, n), row, nums);
    if (if conj then n.And? else n.Or?) && !n.grouped {
      ChildrenMean(n, row, nums);
    } else {
      assert ts == [Meaning(n, row, nums)];
      OneMeans(Meaning(n, row, nums));
    }
  }

  lemma ChildrenMean(n: Node, row: Row, nums: Numbers)
    ensures n.And? ==> Meaning(n, row, nums) == KAll(Meanings(n.children, row, nums))
    ensures n.Or? ==> Meaning(n, row, nums) == KAny(Meanings(n.children, row, nums))
  {
    hide KAll, KAny;
    if n.And? || n.Or? {
      var cs := n.children;
      assert Meanings(cs, row, nums) == seq(|cs|, i requires 0 <= i < |cs| => Meaning(cs[i], row, nums));
    }
  }

  lemma OneMeans(t: Truth)
    ensures KAll([t]) == t && KAny([t]) == t
  {
    assert t in [t] && forall u :: u in [t] ==> u == t;
  }

  /** Two clauses put together are both or either of them. */
  lemma CombineMeans(conj: bool, left: Node, right: Node, row: Row, nums: Numbers)
    ensures Meaning(Combine(conj, left, right), row, nums) ==
            if conj then And3(Meaning(left, row, nums), Meaning(right, row, nums))
            else Or3(Meaning(left, row, nums), Meaning(right, row, nums))
  {
    hide Meaning, KAll, KAny;
    var a, b := Operands(conj, left), Operands(conj, right);
    OperandsMean(conj, left, row, nums);
    OperandsMean(conj, right, row, nums);
    ChildrenMean(Combine(conj, left, right), row, nums);
    assert Meanings(a + b, row, nums) == Meanings(a, row, nums) + Meanings(b, row, nums);
    KAllConcat(Meanings(a, row, nums), Meanings(b, row, nums));
  }

  ghost predicate Agrees(n: Node, e: Expr, field: string) {
    forall row, nums :: Meaning(n, row, nums) == ExprTruth(e, field, row, nums)
  }

  ghost predicate ValueAgrees(n: Node, field: string, v: Value) {
    forall row, nums :: Meaning(n, row, nums) == ValueTruth(field, v, row, nums)
  }

  lemma CombineAgrees(conj: bool, e: Expr, left: Node, right: Node, field: string)
    requires if conj then e.Both? else e.Either?
    requires Agrees(left, e.left, field) && Agrees(right, e.right, field)
    ensures Agrees(Combine(conj, left, right), e, field)
  {
    hide Meaning, Combine;
    forall row, nums ensures Meaning(Combine(conj, left, right), row, nums) == ExprTruth(e, field, row, nums) {
      CombineMeans(conj, left, right, row, nums);
    }
  }

  lemma GroupedAgrees(n: Node, pos: int, end: int, row: Row, nums: Numbers)
    ensures Meaning(Grouped(n, pos, end), row, nums) == Meaning(n, row, nums)
  {
    hide KAll, KAny;
    if n.And? || n.Or? {
      ChildrenMean(n, row, nums);
      ChildrenMean(Grouped(n, pos, end), row, nums);
    }
  }

  lemma NotAgrees(n: Node, e: Expr, field: string, pos: int, end: int)
    requires e.Neg? && Agrees(n, e.inner, field)
    ensures Agrees(Not(pos, end, false, n), e, field)
  {
    forall row, nums ensures Meaning(Not(pos, end, false, n), row, nums) == ExprTruth(e, field, row, nums) {
    }
  }

  lemma ParenAgrees(n: Node, e: Expr, field: string, pos: int, end: int)
    requires e.Paren? && Agrees(n, e.inner, field)
    ensures Agrees(Grouped(n, pos, end), e, field)
  {
    hide Meaning, Grouped;
    forall row, nums ensures Meaning(Grouped(n, pos, end), row, nums) == ExprTruth(e, field, row, nums) {
      GroupedAgrees(n, pos, end, row, nums);
    }
  }

  lemma GroupAgrees(n: Node, v: Value, field: string, pos: int, end: int)
    requires v.Group? && Agrees(n, v.inner, field)
    ensures ValueAgrees(Grouped(n, pos, end), field, v)
  {
    hide Meaning, Grouped;
    forall row, nums ensures Meaning(Grouped(n, pos, end), row, nums) == ValueTruth(field, v, row, nums) {
      GroupedAgrees(n, pos, end, row, nums);
    }
  }

  // ----- parsing

  /** The tokens from p on are these, wherever they stand in the text. */
  ghost predicate Stands(ts: seq<Token>, p: nat, symbols: seq<Symbol>)
    ensures Stands(ts, p, symbols) ==> p + |symbols| <= |ts|
  {
    && p + |symbols| <= |ts|
    && forall i :: 0 <= i < |symbols| ==> ts[p + i].kind == symbols[i].kind && ts[p + i].value == symbols[i].value
  }

  lemma StandsApart(ts: seq<Token>, p: nat, a: seq<Symbol>, b: seq<Symbol>)
    requires Stands(ts, p, a + b)
    ensures Stands(ts, p, a) && Stands(ts, p + |a|, b)
    ensures a != [] ==> Peek(ts, p).kind == a[0].kind && Peek(ts, p).value == a[0].value
    ensures b != [] ==> Peek(ts, p + |a|).kind == b[0].kind && Peek(ts, p + |a|).value == b[0].value
  {
    assert forall i :: 0 <= i < |a| ==> (a + b)[i] == a[i];
    forall i | 0 <= i < |b| ensures ts[p + |a| + i].kind == b[i].kind && ts[p + |a| + i].value == b[i].value {
      var j := |a| + i;
      assert (a + b)[j] == b[i] && ts[p + j].kind == (a + b)[j].kind;
    }
    if a != [] {
      StandsFirst(ts, p, a);
    }
    if b != [] {
      StandsFirst(ts, p + |a|, b);
    }
  }

  lemma StandsFirst(ts: seq<Token>, p: nat, a: seq<Symbol>)
    requires Stands(ts, p, a) && a != []
    ensures p < |ts| && Peek(ts, p) == ts[p] && ts[p].kind == a[0].kind && ts[p].value == a[0].value
  {
    assert ts[p + 0] == ts[p];
  }

  lemma StandsAt(ts: seq<Token>, p: nat, symbols: seq<Symbol>, i: nat)
    requires Stands(ts, p, symbols) && i < |symbols|
    ensures p + i < |ts| && ts[p + i].kind == symbols[i].kind && ts[p + i].value == symbols[i].value
  {
  }

  lemma NoComparison(value: string)
    requires value != "" && value[0] != '[' && (value[0] in ['<', '>'] ==> |value| == 1)
    ensures Comparison(value) == None && !("[" <= value)
  {
  }

  lemma ValueParses(v: Value, ts: seq<Token>, p: nat, field: Token) returns (n: Node)
    requires GoodValue(v) && Stands(ts, p, ValueSymbols(v))
    ensures ParseFieldValue(ts, p, field) == Success(Parsed(n, p + |ValueSymbols(v)|)) && ValueAgrees(n, field.value, v)
    decreases v, 0
  {
    hide Meaning, ParseOr, ParseRange, Comparison, Agrees, Stands, GoodSpelling, ExprTruth, TermMeaning, NumberMeaning,
         RangeMeaning;
    StandsFirst(ts, p, ValueSymbols(v));
    match v
    case Is(text) =>
      n := Term(field.pos, ts[p].end, false, field.value, text.value, text.quoted);
      if !text.quoted {
        SpelledSomething(text);
        NoComparison(text.value);
      }
      TermAgrees(n, v);
    case Compares(operator, bound) =>
      n := Compare(field.pos, ts[p].end, false, field.value, operator, TrimSpace(bound));
      OperatorRead(operator, bound);
      CompareAgrees(n, v);
    case Between(lower, upper) =>
      n := RangeValueParses(ts, p, field, lower, upper);
      RangeAgrees(n, v);
    case Group(inner) =>
      var open, body, close := [Symbol(LParen, "(")], ExprSymbols(inner), [Symbol(RParen, ")")];
      StandsApart(ts, p, open, body + close);
      StandsApart(ts, p + 1, body, close);
      var m := AllParses(inner, ts, p + 1, field.value);
      n := Grouped(m, field.pos, Peek(ts, p + 1 + |body|).end);
      GroupAgrees(m, v, field.value, field.pos, Peek(ts, p + 1 + |body|).end);
  }

  lemma SpelledSomething(s: Spelling)
    requires GoodSpelling(s) && !s.quoted
    ensures s.value != ""
  {
  }

  lemma TermAgrees(n: Node, v: Value)
    requires v.Is? && n.Term? && n.value == v.text.value && n.quoted == v.text.quoted
    ensures ValueAgrees(n, n.field, v)
  {
    hide TermMeaning;
  }

  lemma CompareAgrees(n: Node, v: Value)
    requires v.Compares? && n.Compare? && n.operator == v.operator && n.value == TrimSpace(v.bound)
    ensures ValueAgrees(n, n.field, v)
  {
    hide NumberMeaning, TrimSpace;
  }

  lemma RangeAgrees(n: Node, v: Value)
    requires v.Between? && n.Range? && n.lower == TrimSpace(v.lower) && n.upper == TrimSpace(v.upper)
    ensures ValueAgrees(n, n.field, v)
  {
    hide RangeMeaning, TrimSpace;
  }

  lemma RangeValueParses(ts: seq<Token>, p: nat, field: Token, lower: string, upper: string) returns (n: Node)
    requires BareBounds(lower, upper)
    requires Stands(ts, p, [Symbol(Word, "[" + lower), Symbol(Word, "TO"), Symbol(Word, upper + "]")])
    ensures n == Range(field.pos, n.end, false, field.value, TrimSpace(lower), TrimSpace(upper))
    ensures ParseFieldValue(ts, p, field) == Success(Parsed(n, p + 3))
  {
    hide ParseRange, RangeBounds, TrimSpace, HasSuffix;
    var symbols := [Symbol(Word, "[" + lower), Symbol(Word, "TO"), Symbol(Word, upper + "]")];
    StandsAt(ts, p, symbols, 0);
    StandsAt(ts, p, symbols, 1);
    StandsAt(ts, p, symbols, 2);
    BoundsRead(lower, upper);
    OpenEnds(lower);
    var a, b, c := "[" + lower, "TO", upper + "]";
    assert "[" <= a;
    RangeGoesOn(ts, p + 1, field, [a], ts[p].end);
    RangeGoesOn(ts, p + 2, field, [a, b], ts[p + 1].end);
    assert [a] + [b] == [a, b] && [a, b] + [c] == [a, b, c];
    ClosesRange(upper);
    RangeStops(ts, p + 3, field, [a, b, c], ts[p + 2].end);
    n := Range(field.pos, ts[p + 2].end, false, field.value, TrimSpace(lower), TrimSpace(upper));
  }

  lemma ClosesRange(upper: string)
    ensures HasSuffix(upper + "]", "]")
  {
    assert (upper + "]")[|upper|..] == "]";
  }

  lemma TextParses(ts: seq<Token>, p: nat, ctx: string)
    requires p < |ts| && IsText(ts[p].kind) && Peek(ts, p + 1).kind != Colon
    ensures ParseUnary(ts, p, ctx) ==
            Success(Parsed(Term(ts[p].pos, ts[p].end, false, ctx, ts[p].value, ts[p].kind == Phrase), p + 1))
  {
    hide ParseFieldValue, ParseOr;
  }

  lemma NotParses(ts: seq<Token>, p: nat, ctx: string, child: Parsed)
    requires p < |ts| && (ts[p].kind == Minus || ts[p].kind == NotWord)
    requires ParseUnary(ts, p + 1, ctx) == Success(child)
    ensures ParseUnary(ts, p, ctx) == Success(Parsed(Not(ts[p].pos, child.node.end, false, child.node), child.next))
  {
    hide ParsePrimary;
  }

  lemma ClauseParses(e: Expr, ts: seq<Token>, p: nat, ctx: string) returns (n: Node)
    requires Good(e) && IsClause(e) && Stands(ts, p, ExprSymbols(e))
    requires Peek(ts, p + |ExprSymbols(e)|).kind != Colon
    ensures ParseUnary(ts, p, ctx) == Success(Parsed(n, p + |ExprSymbols(e)|)) && Agrees(n, e, ctx)
    decreases e, 0
  {
    hide Meaning, ParseOr, ParseUnary, ParsePrimary, ParseFieldValue, Agrees, ValueAgrees, Stands, GoodSpelling, GoodGap,
         ExprTruth, ValueTruth, ValueSymbols, TermMeaning, ExprSymbols, ExprText, ValueText, SpellingText, Grouped;
    TextStep(e);
    StandsFirst(ts, p, ExprSymbols(e));
    match e
    case Alone(text) =>
      n := Term(ts[p].pos, ts[p].end, false, ctx, text.value, text.quoted);
      TextParses(ts, p, ctx);
      AloneAgrees(n, e);
    case In(field, value) =>
      var colon := [Symbol(Colon, ":")];
      StandsApart(ts, p, [SpellingSymbol(field)], colon + ValueSymbols(value));
      StandsApart(ts, p + 1, colon, ValueSymbols(value));
      FieldParses(ts, p, ctx);
      n := ValueParses(value, ts, p + 2, ts[p]);
      InAgrees(n, e, ctx);
    case Neg(dash, _, inner) =>
      StandsApart(ts, p, [if dash then Symbol(Minus, "-") else Symbol(NotWord, "NOT")], ExprSymbols(inner));
      var m := ClauseParses(inner, ts, p + 1, ctx);
      n := Not(ts[p].pos, m.end, false, m);
      NotParses(ts, p, ctx, Parsed(m, p + 1 + |ExprSymbols(inner)|));
      NotAgrees(m, e, ctx, ts[p].pos, m.end);
    case Paren(inner) =>
      var open, body, close := [Symbol(LParen, "(")], ExprSymbols(inner), [Symbol(RParen, ")")];
      StandsApart(ts, p, open, body + close);
      StandsApart(ts, p + 1, body, close);
      var m := AllParses(inner, ts, p + 1, ctx);
      var end := Peek(ts, p + 1 + |body|).end;
      n := Grouped(m, ts[p].pos, end);
      ParenUnary(ts, p, ctx, Parsed(m, p + 1 + |body|));
      ParenAgrees(m, e, ctx, ts[p].pos, end);
  }

  lemma AloneAgrees(n: Node, e: Expr)
    requires e.Alone? && n.Term? && n.value == e.text.value && n.quoted == e.text.quoted
    ensures Agrees(n, e, n.field)
  {
    hide TermMeaning;
  }

  lemma InAgrees(n: Node, e: Expr, ctx: string)
    requires e.In? && ValueAgrees(n, e.field.value, e.value)
    ensures Agrees(n, e, ctx)
  {
    hide Meaning, ValueTruth;
  }

  lemma AndStarts(ts: seq<Token>, p: nat, ctx: string, r: Parsed)
    requires p <= |ts| && ParseUnary(ts, p, ctx) == Success(r)
    ensures ParseAnd(ts, p, ctx) == AndLoop(ts, r.next, ctx, r.node)
  {
    hide ParseUnary, AndLoop;
  }

  lemma AndGoesOn(ts: seq<Token>, q: nat, ctx: string, left: Node, r: Parsed)
    requires q <= |ts|
    requires if Peek(ts, q).kind == AndWord then ParseUnary(ts, q + 1, ctx) == Success(r)
             else StartsTerm(Peek(ts, q).kind) && ParseUnary(ts, q, ctx) == Success(r)
    ensures AndLoop(ts, q, ctx, left) == AndLoop(ts, r.next, ctx, Combine(true, left, r.node))
  {
    hide ParseUnary, Combine;
  }

  lemma AndStops(ts: seq<Token>, q: nat, ctx: string, left: Node)
    requires q <= |ts| && Peek(ts, q).kind != AndWord && !StartsTerm(Peek(ts, q).kind)
    ensures AndLoop(ts, q, ctx, left) == Success(Parsed(left, q))
  {
    hide ParseUnary, Combine;
  }

  lemma OrStarts(ts: seq<Token>, p: nat, ctx: string, r: Parsed)
    requires p <= |ts| && ParseAnd(ts, p, ctx) == Success(r)
    ensures ParseOr(ts, p, ctx) == OrLoop(ts, r.next, ctx, r.node)
  {
    hide ParseAnd, OrLoop;
  }

  lemma OrGoesOn(ts: seq<Token>, q: nat, ctx: string, left: Node, r: Parsed)
    requires q < |ts| && ts[q].kind == OrWord && ParseAnd(ts, q + 1, ctx) == Success(r)
    ensures OrLoop(ts, q, ctx, left) == OrLoop(ts, r.next, ctx, Combine(false, left, r.node))
  {
    hide ParseAnd, Combine;
  }

  lemma OrStops(ts: seq<Token>, q: nat, ctx: string, left: Node)
    requires q <= |ts| && Peek(ts, q).kind != OrWord
    ensures OrLoop(ts, q, ctx, left) == Success(Parsed(left, q))
  {
    hide ParseAnd, Combine;
  }

  lemma ClausesParse(e: Expr, ts: seq<Token>, p: nat, ctx: string) returns (n: Node)
    requires Good(e) && !e.Either? && Stands(ts, p, ExprSymbols(e))
    requires Peek(ts, p + |ExprSymbols(e)|).kind != Colon
    ensures ParseAnd(ts, p, ctx) == AndLoop(ts, p + |ExprSymbols(e)|, ctx, n) && Agrees(n, e, ctx)
    decreases e, 1
  {
    hide Meaning, ParseUnary, ParseAnd, AndLoop, Combine, Agrees, Stands, ExprTruth, GoodGap, ExprSymbols, ExprText;
    TextStep(e);
    if IsClause(e) {
      n := ClauseParses(e, ts, p, ctx);
      AndStarts(ts, p, ctx, Parsed(n, p + |ExprSymbols(e)|));
    } else {
      var left, right := ExprSymbols(e.left), ExprSymbols(e.right);
      var q := p + |left|;
      var and := if e.explicit then [Symbol(AndWord, "AND")] else [];
      assert ExprSymbols(e) == left + (and + right);
      StandsApart(ts, p, left, and + right);
      StandsApart(ts, q, and, right);
      assert (and + right)[0] == if e.explicit then and[0] else right[0];
      var l := ClausesParse(e.left, ts, p, ctx);
      var r := ClauseParses(e.right, ts, q + |and|, ctx);
      AndGoesOn(ts, q, ctx, l, Parsed(r, q + |and| + |right|));
      n := Combine(true, l, r);
      CombineAgrees(true, e, l, r, ctx);
    }
  }

  /** A token after which no conjunction goes on. */
  predicate EndsAll(kind: Kind) {
    kind == EOF || kind == RParen || kind == OrWord
  }

  lemma ChoicesParse(e: Expr, ts: seq<Token>, p: nat, ctx: string) returns (n: Node)
    requires Good(e) && Stands(ts, p, ExprSymbols(e))
    requires EndsAll(Peek(ts, p + |ExprSymbols(e)|).kind)
    ensures ParseOr(ts, p, ctx) == OrLoop(ts, p + |ExprSymbols(e)|, ctx, n) && Agrees(n, e, ctx)
    decreases e, 2
  {
    hide Meaning, ParseOr, ParseAnd, AndLoop, OrLoop, Combine, Agrees, Stands, ExprTruth, GoodGap, ExprSymbols, ExprText;
    TextStep(e);
    if !e.Either? {
      n := ClausesParse(e, ts, p, ctx);
      AndStops(ts, p + |ExprSymbols(e)|, ctx, n);
      OrStarts(ts, p, ctx, Parsed(n, p + |ExprSymbols(e)|));
    } else {
      var left, or, right := ExprSymbols(e.left), [Symbol(OrWord, "OR")], ExprSymbols(e.right);
      var q := p + |left|;
      StandsApart(ts, p, left, or + right);
      StandsApart(ts, q, or, right);
      var l := ChoicesParse(e.left, ts, p, ctx);
      var r := ClausesParse(e.right, ts, q + 1, ctx);
      AndStops(ts, q + 1 + |right|, ctx, r);
      StandsFirst(ts, q, or);
      OrGoesOn(ts, q, ctx, l, Parsed(r, q + 1 + |right|));
      n := Combine(false, l, r);
      CombineAgrees(false, e, l, r, ctx);
    }
  }

  lemma AllParses(e: Expr, ts: seq<Token>, p: nat, ctx: string) returns (n: Node)
    requires Good(e) && Stands(ts, p, ExprSymbols(e))
    requires Peek(ts, p + |ExprSymbols(e)|).kind == EOF || Peek(ts, p + |ExprSymbols(e)|).kind == RParen
    ensures ParseOr(ts, p, ctx) == Success(Parsed(n, p + |ExprSymbols(e)|)) && Agrees(n, e, ctx)
    decreases e, 3
  {
    hide Meaning, ParseOr, OrLoop, Agrees, Stands, ExprTruth;
    n := ChoicesParse(e, ts, p, ctx);
    OrStops(ts, p + |ExprSymbols(e)|, ctx, n);
  }

  // ----- the language

  /** Whatever is written as the language has it parses, and its truth on every row
      is that of the expression: NOT binds closest, then AND or nothing between two
      clauses, then OR, each as in three-valued logic. Only what is blank to the
      trim test, though it may be a text of other white space, has no clause. */
  lemma LanguageTheorem(e: Expr)
    requires Good(e)
    ensures Parse(ExprText(e)).Success?
    ensures Parse(ExprText(e)).value.None? <==> IsBlank(ExprText(e))
    ensures !IsBlank(ExprText(e)) ==>
              forall row, nums :: RootMeaning(Parse(ExprText(e)).value, row, nums) == ExprTruth(e, "", row, nums)
  {
    hide Lex, Dangling, ExprText, ExprSymbols, IsBlank, ParseOr, Meaning, ExprTruth, Good, Parse;
    var text, symbols := ExprText(e), ExprSymbols(e);
    TextReads(e);
    var ts := Lex(text, 0).value;
    TokensStand(ts, symbols);
    var n := AllParses(e, ts, 0, "");
    ParseStep(text);
  }

  lemma TokensStand(ts: seq<Token>, symbols: seq<Symbol>)
    requires SymbolsOf(ts) == symbols + [END]
    ensures Stands(ts, 0, symbols) && Peek(ts, |symbols|).kind == EOF && |ts| == |symbols| + 1
  {
    assert forall i :: 0 <= i < |ts| ==> SymbolsOf(ts)[i] == Symbol(ts[i].kind, ts[i].value);
    assert forall i :: 0 <= i < |symbols| ==> (symbols + [END])[i] == symbols[i];
    assert (symbols + [END])[|symbols|] == END;
  }

  /** So a query keeps exactly the rows on which what is written is true. */
  lemma LanguageKeeps(e: Expr, row: Row, nums: Numbers)
    requires Good(e) && !IsBlank(ExprText(e))
    ensures Keeps(ExprText(e), row, nums) <==> ExprTruth(e, "", row, nums) == True
  {
    hide ExprText, IsBlank, ExprTruth, Good, Parse, RootMeaning;
    LanguageTheorem(e);
  }
}
