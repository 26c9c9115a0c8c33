/** Tokens of the query language. */
module Lexer {
  import opened Wrappers

  datatype Kind = EOF | Word | Phrase | AndWord | OrWord | NotWord | Minus | Colon | LParen | RParen

  /** A token and the text it covers, from `pos` up to `end`. */
  datatype Token = Token(kind: Kind, value: string, pos: int, end: int)

  datatype Problem =
    | UnterminatedQuote
    | Unexpected(token: string)
    | QueryEnds
    | ExpectedTerm(token: string)
    | UnclosedParenthesis
    | UnclosedGroup(field: string)
    | ExpectedValue(field: string)
    | UnclosedRange(field: string)
    | MalformedRange(field: string)

  datatype QueryError = QueryError(pos: int, problem: Problem)

  type Lexed = Result<seq<Token>, QueryError>

  predicate IsWhite(c: char) {
    c == ' ' || c == '\t' || c == '\n' || c == '\r'
  }

  /** The characters that end a word. */
  predicate IsDelimiter(c: char) {
    IsWhite(c) || c == '(' || c == ')' || c == ':' || c == '"'
  }

  /** What reading one token off the front of a text gives. `open` marks a
      word that ends in an unpaired backslash. */
  datatype Lexeme = Lexeme(kind: Kind, value: string, len: nat, open: bool)

  // ----- specification: each function reads from the front of its text

  function ReadWord(t: string): (r: Lexeme)
    ensures r.kind == Word && r.len <= |t|
    ensures t != "" && !IsDelimiter(t[0]) ==> 0 < r.len
    ensures r.open ==> r.len == |t|
    ensures r.len < |t| ==> IsDelimiter(t[r.len])
  {
    if t == "" || IsDelimiter(t[0]) then Lexeme(Word, "", 0, false)
    else if t == "\\" then Lexeme(Word, "\\", 1, true)
    else
      var n := if t[0] == '\\' then 1 else 0;
      var r := ReadWord(t[n + 1..]);
      Lexeme(Word, [t[n]] + r.value, n + 1 + r.len, r.open)
  }

  /** Reads a quoted text whose opening quote is already consumed. */
  function ReadQuoted(t: string): (r: Option<Lexeme>)
    ensures r.Some? ==> r.value.kind == Phrase && 0 < r.value.len <= |t| && !r.value.open
  {
    if t == "" || t == "\\" then None
    else if t[0] == '"' then Some(Lexeme(Phrase, "", 1, false))
    else
      var n := if t[0] == '\\' then 1 else 0;
      match ReadQuoted(t[n + 1..])
      case None => None
      case Some(r) => Some(Lexeme(Phrase, [t[n]] + r.value, n + 1 + r.len, false))
  }

  function WordKind(value: string): Kind {
    match value
    case "AND" => AndWord
    case "OR" => OrWord
    case "NOT" => NotWord
    case _ => Word
  }

  function LexOne(t: string): (r: Option<Lexeme>)
    requires t != "" && !IsWhite(t[0])
    ensures r.Some? ==> 0 < r.value.len <= |t| && r.value.kind != EOF
    ensures r.Some? && r.value.open ==> r.value.len == |t|
  {
    match t[0]
    case '(' => Some(Lexeme(LParen, "(", 1, false))
    case ')' => Some(Lexeme(RParen, ")", 1, false))
    case ':' => Some(Lexeme(Colon, ":", 1, false))
    case '-' => Some(Lexeme(Minus, "-", 1, false))
    case '"' =>
      (match ReadQuoted(t[1..])
       case None => None
       case Some(r) => Some(r.(len := r.len + 1)))
    case _ =>
      var r := ReadWord(t);
      Some(r.(kind := WordKind(r.value)))
  }

  /** The tokens of t, whose first character stands at position `at`. */
  function Lex(t: string, at: int): (r: Lexed)
    ensures r.Success? ==> 0 < |r.value| && r.value[|r.value| - 1] == Token(EOF, "", at + |t|, at + |t|)
  {
    if t == "" then Success([Token(EOF, "", at, at)])
    else if IsWhite(t[0]) then Lex(t[1..], at + 1)
    else
      match LexOne(t)
      case None => Failure(QueryError(at, UnterminatedQuote))
      case Some(l) =>
        var rest :- Lex(t[l.len..], at + l.len);
        Success([Token(l.kind, l.value, at, at + l.len)] + rest)
  }

  /** Whether the last word of t ends in an unpaired backslash, which would
      swallow the next character if text were appended. */
  predicate Dangling(t: string) {
    t != "" &&
    if IsWhite(t[0]) then Dangling(t[1..])
    else
      match LexOne(t)
      case None => false
      case Some(l) => if l.len == |t| then l.open else Dangling(t[l.len..])
  }

  // ----- the loops of the tokenizer

  /** The lexeme that starts with `n` characters reading `head` and goes on
      with `tail`. */
  function Continue(head: string, n: nat, tail: Lexeme): (r: Lexeme)
    ensures head == "" && n == 0 ==> r == tail
  {
    assert "" + tail.value == tail.value;
    tail.(value := head + tail.value, len := n + tail.len)
  }

  function ContinueIf(head: string, n: nat, tail: Option<Lexeme>): (r: Option<Lexeme>)
    ensures head == "" && n == 0 ==> r == tail
  {
    match tail
    case None => None
    case Some(l) => Some(Continue(head, n, l))
  }

  lemma ContinueTwice(a: string, m: nat, b: string, n: nat, tail: Lexeme)
    ensures Continue(a, m, Continue(b, n, tail)) == Continue(a + b, m + n, tail)
  {
    assert a + (b + tail.value) == (a + b) + tail.value;
  }

  lemma ReadWordStep(t: string)
    requires t != "" && !IsDelimiter(t[0])
    ensures t == "\\" ==> ReadWord(t) == Continue("\\", 1, Lexeme(Word, "", 0, true))
    ensures t != "\\" ==> var n := if t[0] == '\\' then 1 else 0;
                          ReadWord(t) == Continue([t[n]], n + 1, ReadWord(t[n + 1..]))
  {
  }

  lemma ReadWordEnds(t: string)
    ensures t == "" || IsDelimiter(t[0]) ==> ReadWord(t) == Lexeme(Word, "", 0, false)
    ensures t == "\\" ==> !IsDelimiter(t[0]) && ReadWord(t) == Lexeme(Word, "\\", 1, true)
  {
  }

  lemma ReadQuotedStep(t: string)
    requires t != "" && t[0] != '"' && t != "\\"
    ensures var n := if t[0] == '\\' then 1 else 0;
            ReadQuoted(t) == ContinueIf([t[n]], n + 1, ReadQuoted(t[n + 1..]))
  {
  }

  /** Reading at `start` gives `head` and goes on with whatever `i` gives. */
  ghost predicate QuotedSoFar(input: string, start: nat, head: string, i: nat)
    requires start <= i <= |input|
  {
    ReadQuoted(input[start..]) == ContinueIf(head, i - start, ReadQuoted(input[i..]))
  }

  lemma QuotedAdvances(input: string, start: nat, head: string, i: nat, n: nat)
    requires start <= i < |input| && input[i] != '"'
    requires n == if input[i] == '\\' then 1 else 0
    requires i + n < |input| && QuotedSoFar(input, start, head, i)
    ensures QuotedSoFar(input, start, head + [input[i + n]], i + n + 1)
  {
    var rest := input[i..];
    ReadQuotedStep(rest);
    assert rest[n + 1..] == input[i + n + 1..];
    if ReadQuoted(rest[n + 1..]).Some? {
      ContinueTwice(head, i - start, [rest[n]], n + 1, ReadQuoted(rest[n + 1..]).value);
    }
  }

  lemma QuotedStops(input: string, start: nat, head: string, i: nat)
    requires start <= i <= |input| && QuotedSoFar(input, start, head, i)
    ensures i < |input| && input[i] == '"' ==>
              ReadQuoted(input[start..]) == Some(Lexeme(Phrase, head, i + 1 - start, false))
    ensures i == |input| || input[i..] == "\\" ==> ReadQuoted(input[start..]).None?
  {
    assert head + "" == head;
  }

  lemma QuotedStarts(input: string, start: nat)
    requires start <= |input|
    ensures QuotedSoFar(input, start, "", start)
    ensures start == |input| ==> ReadQuoted(input[start..]).None?
  {
  }

  method ReadQuotedToken(input: string, start: nat) returns (value: string, next: nat, ok: bool)
    requires start <= |input|
    ensures match ReadQuoted(input[start..])
            case None => !ok && value == "" && next == |input|
            case Some(l) => ok && value == l.value && next == start + l.len
  {
    hide QuotedSoFar, ReadQuoted;
    var b := "";
    var i := start;
    QuotedStarts(input, start);
    while i < |input|
      invariant start <= i <= |input|
      invariant i < |input| ==> QuotedSoFar(input, start, b, i)
      invariant i == |input| ==> ReadQuoted(input[start..]).None?
    {
      QuotedStops(input, start, b, i);
      if input[i] == '"' {
        return b, i + 1, true;
      }
      if input[i] == '\\' && i + 1 >= |input| {
        b := b + [input[i]];
        assert input[i..] == "\\";
      } else {
        ghost var n := if input[i] == '\\' then 1 else 0;
        QuotedAdvances(input, start, b, i, n);
        if input[i] == '\\' {
          i := i + 1;
        }
        b := b + [input[i]];
        QuotedStops(input, start, b, i + 1);
      }
      i := i + 1;
    }
    return "", |input|, false;
  }

  ghost predicate WordSoFar(input: string, start: nat, head: string, i: nat)
    requires start <= i <= |input|
  {
    var all, rest := ReadWord(input[start..]), ReadWord(input[i..]);
    all.value == head + rest.value && all.len == i - start + rest.len
  }

  lemma WordAdvances(input: string, start: nat, head: string, i: nat, n: nat)
    requires start <= i < |input| && !IsDelimiter(input[i])
    requires n == if input[i] == '\\' && i + 1 < |input| then 1 else 0
    requires WordSoFar(input, start, head, i)
    ensures WordSoFar(input, start, head + [input[i + n]], i + n + 1)
  {
    var rest := input[i..];
    ReadWordStep(rest);
    assert rest[n + 1..] == input[i + n + 1..];
    if rest != "\\" {
      ContinueTwice(head, i - start, [rest[n]], n + 1, ReadWord(rest[n + 1..]));
    }
  }

  lemma WordStops(input: string, start: nat, head: string, i: nat)
    requires start <= i <= |input| && WordSoFar(input, start, head, i)
    requires i < |input| ==> IsDelimiter(input[i])
    ensures var all := ReadWord(input[start..]); all.value == head && all.len == i - start
  {
    assert head + "" == head;
  }

  method ReadWordToken(input: string, start: nat) returns (value: string, next: nat)
    requires start <= |input|
    ensures var l := ReadWord(input[start..]); value == l.value && next == start + l.len
  {
    value := "";
    var i := start;
    while i < |input|
      invariant start <= i <= |input|
      invariant WordSoFar(input, start, value, i)
    {
      if IsDelimiter(input[i]) {
        WordStops(input, start, value, i);
        return value, i;
      }
      var n := if input[i] == '\\' && i + 1 < |input| then 1 else 0;
      WordAdvances(input, start, value, i, n);
      value := value + [input[i + n]];
      i := i + n + 1;
    }
    WordStops(input, start, value, i);
    next := |input|;
  }

  /** Puts tokens already read before the outcome of reading the rest. */
  function Before(tokens: seq<Token>, rest: Lexed): (r: Lexed)
    ensures tokens == [] ==> r == rest
  {
    match rest
    case Success(ts) => assert [] + ts == ts; Success(tokens + ts)
    case Failure(e) => Failure(e)
  }

  lemma BeforeTwice(a: seq<Token>, b: seq<Token>, rest: Lexed)
    ensures Before(a, Before(b, rest)) == Before(a + b, rest)
  {
    if rest.Success? {
      assert a + (b + rest.value) == (a + b) + rest.value;
    }
  }

  /** One step of Lex, for proofs that hide its definition. */
  lemma LexStep(t: string, at: int)
    ensures t == "" ==> Lex(t, at) == Success([Token(EOF, "", at, at)])
    ensures t != "" && IsWhite(t[0]) ==> Lex(t, at) == Lex(t[1..], at + 1)
    ensures t != "" && !IsWhite(t[0]) ==>
              match LexOne(t)
              case None => Lex(t, at) == Failure(QueryError(at, UnterminatedQuote))
              case Some(l) => Lex(t, at) == Before([Token(l.kind, l.value, at, at + l.len)],
                                                   Lex(t[l.len..], at + l.len))
  {
    hide LexOne;
  }

  lemma DanglingStep(t: string)
    ensures t == "" ==> !Dangling(t)
    ensures t != "" && IsWhite(t[0]) ==> Dangling(t) == Dangling(t[1..])
    ensures t != "" && !IsWhite(t[0]) ==>
              match LexOne(t)
              case None => !Dangling(t)
              case Some(l) => Dangling(t) == if l.len == |t| then l.open else Dangling(t[l.len..])
  {
    hide LexOne;
  }

  ghost predicate LexedSoFar(input: string, tokens: seq<Token>, i: nat)
    requires i <= |input|
  {
    Lex(input, 0) == Before(tokens, Lex(input[i..], i))
  }

  lemma TokenAdvances(input: string, tokens: seq<Token>, i: nat, l: Lexeme)
    requires i < |input| && !IsWhite(input[i]) && LexedSoFar(input, tokens, i)
    requires LexOne(input[i..]) == Some(l)
    ensures LexedSoFar(input, tokens + [Token(l.kind, l.value, i, i + l.len)], i + l.len)
  {
    hide LexOne, Lex;
    var rest := input[i..];
    LexStep(rest, i);
    BeforeTwice(tokens, [Token(l.kind, l.value, i, i + l.len)], Lex(rest[l.len..], i + l.len));
    assert rest[l.len..] == input[i + l.len..];
    assert rest[l.len..] == input[i + l.len..];
  }

  lemma WhiteAdvances(input: string, tokens: seq<Token>, i: nat)
    requires i < |input| && IsWhite(input[i]) && LexedSoFar(input, tokens, i)
    ensures LexedSoFar(input, tokens, i + 1)
  {
    assert input[i..][1..] == input[i + 1..];
  }

  /** One iteration of the tokenizer's switch: the token at i. */
  method ReadToken(input: string, i: nat) returns (token: Token, ok: bool)
    requires i < |input| && !IsWhite(input[i])
    ensures match LexOne(input[i..])
            case None => !ok
            case Some(l) => ok && token == Token(l.kind, l.value, i, i + l.len)
  {
    ok := true;
    match input[i]
    case '(' =>
      token := Token(LParen, "(", i, i + 1);
    case ')' =>
      token := Token(RParen, ")", i, i + 1);
    case ':' =>
      token := Token(Colon, ":", i, i + 1);
    case '-' =>
      token := Token(Minus, "-", i, i + 1);
    case '"' =>
      var value, next;
      value, next, ok := ReadQuotedToken(input, i + 1);
      token := Token(Phrase, value, i, next);
      assert input[i..][1..] == input[i + 1..];
    case _ =>
      var value, next := ReadWordToken(input, i);
      token := Token(WordKind(value), value, i, next);
  }

  lemma TokensStart(input: string)
    ensures LexedSoFar(input, [], 0)
  {
    assert input[0..] == input;
  }

  lemma TokensEnd(input: string, tokens: seq<Token>, i: nat)
    requires i <= |input| && LexedSoFar(input, tokens, i)
    ensures i == |input| ==> Lex(input, 0) == Success(tokens + [Token(EOF, "", i, i)])
    ensures i < |input| && !IsWhite(input[i]) && LexOne(input[i..]).None? ==>
              Lex(input, 0) == Failure(QueryError(i, UnterminatedQuote))
  {
    hide Lex, LexOne;
    LexStep(input[i..], i);
  }

  method Tokenize(input: string) returns (r: Lexed)
    ensures r == Lex(input, 0)
  {
    hide Lex, LexOne, LexedSoFar, IsWhite;
    var tokens: seq<Token> := [];
    var i := 0;
    TokensStart(input);
    while i < |input|
      invariant 0 <= i <= |input|
      invariant LexedSoFar(input, tokens, i)
    {
      if IsWhite(input[i]) {
        WhiteAdvances(input, tokens, i);
        i := i + 1;
        continue;
      }
      TokensEnd(input, tokens, i);
      var token, ok := ReadToken(input, i);
      if !ok {
        return Failure(QueryError(i, UnterminatedQuote));
      }
      TokenAdvances(input, tokens, i, LexOne(input[i..]).value);
      tokens := tokens + [token];
      i := token.end;
    }
    TokensEnd(input, tokens, i);
    return Success(tokens + [Token(EOF, "", |input|, |input|)]);
  }
}
