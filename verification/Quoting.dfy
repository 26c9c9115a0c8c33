/** Values written into a query so that they read back as themselves. */
module Quoting {
  import opened Wrappers
  import opened Text
  import opened Lexer
  import opened LexerFacts
  import opened Syntax

  const SPECIAL: set<char> := {' ', '\t', '\r', '\n', '(', ')', '"', '\\', ':', '*', '?'}

  /** Whether a value written bare would parse as something else. */
  predicate NeedsQuotes(value: string) {
    || value == "" || value == "AND" || value == "OR" || value == "NOT"
    || "-" <= value || "[" <= value || ">" <= value || "<" <= value
    || ContainsAny(value, SPECIAL)
  }

  function QuoteValue(value: string): string {
    if value == "" then "\"\""
    else if NeedsQuotes(value) then
      "\"" + ReplaceChar(ReplaceChar(value, '\\', "\\\\"), '"', "\\\"") + "\""
    else value
  }

  // ----- reading quoted values back

  function Escape(s: string): string {
    if s == "" then "" else (if s[0] == '\\' || s[0] == '"' then ['\\', s[0]] else [s[0]]) + Escape(s[1..])
  }

  lemma {:induction false} ReplaceAppend(a: string, b: string, c: char, to: string)
    ensures ReplaceChar(a + b, c, to) == ReplaceChar(a, c, to) + ReplaceChar(b, c, to)
  {
    if a == "" {
      assert a + b == b;
    } else {
      assert (a + b)[1..] == a[1..] + b;
      ReplaceAppend(a[1..], b, c, to);
    }
  }

  /** Escaping backslashes first and quotes second escapes each once. */
  lemma {:induction false} TwoPasses(s: string)
    ensures ReplaceChar(ReplaceChar(s, '\\', "\\\\"), '"', "\\\"") == Escape(s)
  {
    if s != "" {
      var head := if s[0] == '\\' then "\\\\" else [s[0]];
      ReplaceAppend(head, ReplaceChar(s[1..], '\\', "\\\\"), '"', "\\\"");
      TwoPasses(s[1..]);
      assert ReplaceChar(head, '"', "\\\"") == if s[0] == '"' then "\\\"" else head by {
        if s[0] == '\\' {
          assert head[1..] == "\\" && head[1..][1..] == "";
        } else {
          assert head[1..] == "";
        }
      }
    }
  }

  lemma {:induction false} ReadEscaped(s: string, u: string)
    ensures ReadQuoted(Escape(s) + "\"" + u) == Some(Lexeme(Phrase, s, |Escape(s)| + 1, false))
  {
    hide Escape, ReadQuoted;
    EscapeStep(s);
    var t := Escape(s) + "\"" + u;
    if s == "" {
      QuoteCloses(u);
      assert t == "\"" + u;
    } else {
      var head := if s[0] == '\\' || s[0] == '"' then ['\\', s[0]] else [s[0]];
      var rest := Escape(s[1..]) + "\"" + u;
      ReadEscaped(s[1..], u);
      assert t == head + rest;
      assert t[|head|..] == rest;
      ReadQuotedStep(t);
      assert [s[0]] + s[1..] == s;
    }
  }

  lemma EscapeStep(s: string)
    ensures s == "" ==> Escape(s) == ""
    ensures s != "" ==>
              Escape(s) == (if s[0] == '\\' || s[0] == '"' then ['\\', s[0]] else [s[0]]) + Escape(s[1..])
  {
  }

  lemma QuoteCloses(u: string)
    ensures ReadQuoted("\"" + u) == Some(Lexeme(Phrase, "", 1, false))
  {
    var t := "\"" + u;
    assert t[0] == '"' && t != "\\";
  }

  /** A text that reads as one word spelled the same. */
  predicate Plain(w: string) {
    w != "" && WordKind(w) == Word && w[0] != '-'
    && forall i :: 0 <= i < |w| ==> !IsDelimiter(w[i]) && w[i] != '\\'
  }

  lemma {:induction false} ReadPlain(w: string)
    requires forall i :: 0 <= i < |w| ==> !IsDelimiter(w[i]) && w[i] != '\\'
    ensures ReadWord(w) == Lexeme(Word, w, |w|, false)
  {
    if w != "" {
      ReadWordStep(w);
      ReadPlain(w[1..]);
      assert [w[0]] + w[1..] == w;
    }
  }

  lemma LexLast(t: string, at: int, l: Lexeme)
    requires t != "" && !IsWhite(t[0]) && LexOne(t) == Some(l) && l.len == |t|
    ensures Lex(t, at) == Success([Token(l.kind, l.value, at, at + |t|), EndToken(at + |t|)])
    ensures Dangling(t) == l.open
  {
    hide LexOne, Lex, Dangling;
    LexStep(t, at);
    DanglingStep(t);
    assert t[l.len..] == "";
    LexStep("", at + |t|);
    var token := Token(l.kind, l.value, at, at + |t|);
    assert [token] + [EndToken(at + |t|)] == [token, EndToken(at + |t|)];
  }

  lemma LexPlain(w: string, at: int)
    requires Plain(w)
    ensures Lex(w, at) == Success([Token(Word, w, at, at + |w|), EndToken(at + |w|)]) && !Dangling(w)
  {
    hide Lex, Dangling;
    ReadPlain(w);
    LexLast(w, at, Lexeme(Word, w, |w|, false));
  }

  lemma BareIsPlain(value: string)
    requires !NeedsQuotes(value)
    ensures Plain(value)
  {
    forall i | 0 <= i < |value|
      ensures !IsDelimiter(value[i]) && value[i] != '\\'
    {
      assert value[i] in value && value[i] !in SPECIAL;
    }
  }

  function ValueToken(value: string, at: int): Token {
    Token(if NeedsQuotes(value) then Phrase else Word, value, at, at + |QuoteValue(value)|)
  }

  /** A value reads back as one token with exactly that value. */
  lemma QuoteReadsBack(value: string, at: int)
    ensures Lex(QuoteValue(value), at) == Success([ValueToken(value, at), EndToken(at + |QuoteValue(value)|)])
    ensures !Dangling(QuoteValue(value)) && QuoteValue(value) != "" && !IsWhite(QuoteValue(value)[0])
  {
    hide Lex, Dangling, NeedsQuotes;
    assert NeedsQuotes("") by { NoValueIsQuoted(); }
    if NeedsQuotes(value) {
      TwoPasses(value);
      ReadEscaped(value, "");
      var t := QuoteValue(value);
      assert t == "\"" + Escape(value) + "\"" && t[1..] == Escape(value) + "\"" + "";
      LexLast(t, at, Lexeme(Phrase, value, |t|, false));
    } else {
      BareIsPlain(value);
      LexPlain(value, at);
    }
  }

  lemma NoValueIsQuoted()
    ensures NeedsQuotes("")
  {
  }

  /** A value left bare is no range, comparison or keyword, and has no wildcard. */
  lemma BareIsTerm(value: string)
    requires !NeedsQuotes(value)
    ensures !("[" <= value) && Comparison(value) == None
    ensures WordKind(value) == Word && !ContainsAny(value, {'*', '?'})
  {
    assert forall c :: c in value ==> c !in SPECIAL;
  }
}
