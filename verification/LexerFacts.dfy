/** How the tokens of a text relate to the tokens of its parts. */
module LexerFacts {
  import opened Wrappers
  import opened Lexer

  function ShiftToken(t: Token, d: int): Token {
    t.(pos := t.pos + d, end := t.end + d)
  }

  function ShiftTokens(ts: seq<Token>, d: int): (r: seq<Token>)
    ensures |r| == |ts|
  {
    seq(|ts|, i requires 0 <= i < |ts| => ShiftToken(ts[i], d))
  }

  function EndToken(at: int): Token {
    Token(EOF, "", at, at)
  }

  function ShiftLexed(r: Lexed, d: int): Lexed {
    match r
    case Success(ts) => Success(ShiftTokens(ts, d))
    case Failure(e) => Failure(e.(pos := e.pos + d))
  }

  lemma ShiftBefore(t: Token, r: Lexed, d: int)
    ensures ShiftLexed(Before([t], r), d) == Before([ShiftToken(t, d)], ShiftLexed(r, d))
  {
    if r.Success? {
      assert ShiftTokens([t] + r.value, d) == [ShiftToken(t, d)] + ShiftTokens(r.value, d);
    }
  }

  /** Tokens do not depend on what precedes a text, only their places do. */
  lemma {:induction false} LexShift(t: string, at: int, d: int)
    ensures Lex(t, at + d) == ShiftLexed(Lex(t, at), d)
  {
    hide LexOne, Lex;
    LexStep(t, at);
    LexStep(t, at + d);
    if t == "" {
      assert ShiftTokens([EndToken(at)], d) == [EndToken(at + d)];
    } else if IsWhite(t[0]) {
      LexShift(t[1..], at + 1, d);
    } else if LexOne(t).Some? {
      var l := LexOne(t).value;
      LexShift(t[l.len..], at + l.len, d);
      ShiftBefore(Token(l.kind, l.value, at, at + l.len), Lex(t[l.len..], at + l.len), d);
    }
  }

  // ----- appending

  predicate EndsWords(u: string) {
    u == "" || IsDelimiter(u[0])
  }

  lemma {:induction false} ReadWordAppend(t: string, u: string)
    requires !ReadWord(t).open
    requires ReadWord(t).len == |t| ==> EndsWords(u)
    ensures ReadWord(t + u) == ReadWord(t)
  {
    hide ReadWord, IsDelimiter;
    ReadWordEnds(t);
    ReadWordEnds(t + u);
    if t == "" {
      assert t + u == u;
    } else if !IsDelimiter(t[0]) {
      assert t != "\\";
      ReadWordStep(t);
      ReadWordStep(t + u);
      var n := if t[0] == '\\' then 1 else 0;
      ReadWordAppend(t[n + 1..], u);
      assert (t + u)[n + 1..] == t[n + 1..] + u;
    }
  }

  lemma {:induction false} ReadQuotedAppend(t: string, u: string)
    requires ReadQuoted(t).Some?
    ensures ReadQuoted(t + u) == ReadQuoted(t)
  {
    if t[0] != '"' {
      var n := if t[0] == '\\' then 1 else 0;
      ReadQuotedAppend(t[n + 1..], u);
      assert (t + u)[n + 1..] == t[n + 1..] + u;
    }
  }

  predicate IsWord(kind: Kind) {
    kind in {Word, AndWord, OrWord, NotWord}
  }

  /** Whether a text ends with a word, so that more letters would belong to it. */
  predicate EndsInWord(t: string) {
    t != "" &&
    if IsWhite(t[0]) then EndsInWord(t[1..])
    else
      match LexOne(t)
      case None => false
      case Some(l) => if l.len == |t| then IsWord(l.kind) else EndsInWord(t[l.len..])
  }

  lemma EndsInWordStep(t: string)
    ensures t == "" ==> !EndsInWord(t)
    ensures t != "" && IsWhite(t[0]) ==> EndsInWord(t) == EndsInWord(t[1..])
    ensures t != "" && !IsWhite(t[0]) && LexOne(t).Some? ==>
              var l := LexOne(t).value;
              EndsInWord(t) == if l.len == |t| then IsWord(l.kind) else EndsInWord(t[l.len..])
  {
    hide LexOne;
  }

  lemma LexOneAppend(t: string, u: string)
    requires t != "" && !IsWhite(t[0]) && LexOne(t).Some? && !LexOne(t).value.open
    requires LexOne(t).value.len == |t| && IsWord(LexOne(t).value.kind) ==> EndsWords(u)
    ensures LexOne(t + u) == LexOne(t)
  {
    if t[0] == '"' {
      ReadQuotedAppend(t[1..], u);
      assert (t + u)[1..] == t[1..] + u;
    } else if !IsDelimiter(t[0]) && t[0] != '-' {
      ReadWordAppend(t, u);
    }
  }

  /** The tokens of a text without the end of the query. */
  function Body(t: string, at: int): seq<Token>
    requires Lex(t, at).Success?
  {
    var ts := Lex(t, at).value;
    ts[..|ts| - 1]
  }

  /** Reading the first token of a text that holds one. */
  lemma BodyStep(t: string, at: int)
    requires t != "" && Lex(t, at).Success? && !IsWhite(t[0])
    ensures var l := LexOne(t).value;
            && LexOne(t).Some?
            && Lex(t[l.len..], at + l.len).Success?
            && Lex(t, at).value == [Token(l.kind, l.value, at, at + l.len)] + Lex(t[l.len..], at + l.len).value
            && Body(t, at) == [Token(l.kind, l.value, at, at + l.len)] + Body(t[l.len..], at + l.len)
  {
    hide LexOne, Lex;
    LexStep(t, at);
  }

  lemma AppendStep(t: string, u: string)
    requires t != "" && !IsWhite(t[0]) && LexOne(t).Some? && !Dangling(t) && (EndsInWord(t) ==> EndsWords(u))
    ensures var l := LexOne(t).value;
            && LexOne(t + u) == LexOne(t)
            && (t + u)[l.len..] == t[l.len..] + u
            && !Dangling(t[l.len..]) && (EndsInWord(t[l.len..]) ==> EndsWords(u))
  {
    hide LexOne, Dangling, EndsInWord;
    DanglingStep(t);
    EndsInWordStep(t);
    EndsInWordStep("");
    LexOneAppend(t, u);
    DanglingStep("");
  }

  /** The tokens of two texts after each other are those of the first and then
      those of the second, unless the first ends in a word that goes on. */
  lemma {:induction false} LexAppend(t: string, u: string, at: int)
    requires Lex(t, at).Success? && !Dangling(t) && (EndsInWord(t) ==> EndsWords(u))
    ensures Lex(t + u, at) == Before(Body(t, at), Lex(u, at + |t|))
  {
    hide LexOne, Lex, Dangling, EndsInWord;
    LexStep(t, at);
    EndsInWordStep(t);
    LexStep(t + u, at);
    DanglingStep(t);
    if t == "" {
      assert t + u == u;
    } else if IsWhite(t[0]) {
      LexAppend(t[1..], u, at + 1);
      assert (t + u)[1..] == t[1..] + u;
    } else {
      var l := LexOne(t).value;
      BodyStep(t, at);
      AppendStep(t, u);
      LexAppend(t[l.len..], u, at + l.len);
      BeforeTwice([Token(l.kind, l.value, at, at + l.len)], Body(t[l.len..], at + l.len), Lex(u, at + |t|));
    }
  }

  lemma {:induction false} WordGoesOn(t: string, u: string)
    requires ReadWord(t).len == |t| && !ReadWord(t).open && !EndsWords(u)
    ensures ReadWord(t + u).len > |t|
  {
    hide ReadWord, IsDelimiter;
    ReadWordEnds(t);
    if t == "" {
      assert t + u == u;
      ReadWordStep(u);
    } else {
      var n := if t[0] == '\\' then 1 else 0;
      ReadWordStep(t);
      ReadWordStep(t + u);
      assert (t + u)[n + 1..] == t[n + 1..] + u;
      WordGoesOn(t[n + 1..], u);
    }
  }

  /** And if it does end in a word that goes on, they are not. */
  lemma {:induction false} LexRunsOn(t: string, u: string, at: int)
    requires Lex(t, at).Success? && !Dangling(t) && EndsInWord(t) && !EndsWords(u)
    ensures Lex(t + u, at).Success? ==> Lex(t + u, at) != Before(Body(t, at), Lex(u, at + |t|))
  {
    hide LexOne, Lex, Dangling, EndsInWord, EndsWords;
    LexStep(t, at);
    LexStep(t + u, at);
    DanglingStep(t);
    EndsInWordStep(t);
    if IsWhite(t[0]) {
      LexRunsOn(t[1..], u, at + 1);
      assert (t + u)[1..] == t[1..] + u;
    } else {
      var l := LexOne(t).value;
      BodyStep(t, at);
      if l.len == |t| {
        LastRunsOn(t, u);
        assert (t + u)[0] == t[0];
        var all := Before(Body(t, at), Lex(u, at + |t|));
        assert all.Success? ==> all.value[0] == Token(l.kind, l.value, at, at + l.len);
        assert Lex(t + u, at).Success? ==> Lex(t + u, at).value[0].end > at + |t|;
      } else {
        LexOneAppend(t, u);
        assert (t + u)[l.len..] == t[l.len..] + u;
        LexRunsOn(t[l.len..], u, at + l.len);
        BeforeCancels(Token(l.kind, l.value, at, at + l.len), Lex(t[l.len..] + u, at + l.len),
                      Before(Body(t[l.len..], at + l.len), Lex(u, at + |t|)));
        BeforeTwice([Token(l.kind, l.value, at, at + l.len)], Body(t[l.len..], at + l.len), Lex(u, at + |t|));
      }
    }
  }

  lemma BeforeCancels(token: Token, a: Lexed, b: Lexed)
    ensures a.Success? && Before([token], a) == Before([token], b) ==> a == b
  {
    if a.Success? && b.Success? {
      assert ([token] + a.value)[1..] == a.value && ([token] + b.value)[1..] == b.value;
    }
  }

  lemma LastRunsOn(t: string, u: string)
    requires t != "" && !IsWhite(t[0]) && LexOne(t).Some? && !LexOne(t).value.open && !EndsWords(u)
    requires LexOne(t).value.len == |t| && IsWord(LexOne(t).value.kind)
    ensures LexOne(t + u).Some? ==> LexOne(t + u).value.len > |t|
  {
    WordGoesOn(t, u);
  }

  lemma {:induction false} DanglingAppend(t: string, u: string, at: int)
    requires Lex(t, at).Success? && !Dangling(t) && (EndsInWord(t) ==> EndsWords(u))
    ensures Dangling(t + u) == Dangling(u)
  {
    hide LexOne, Lex, Dangling, EndsInWord;
    EndsInWordStep(t);
    LexStep(t, at);
    DanglingStep(t);
    DanglingStep(t + u);
    if t == "" {
      assert t + u == u;
    } else if IsWhite(t[0]) {
      DanglingAppend(t[1..], u, at + 1);
      assert (t + u)[1..] == t[1..] + u;
    } else {
      var l := LexOne(t).value;
      BodyStep(t, at);
      AppendStep(t, u);
      DanglingAppend(t[l.len..], u, at + l.len);
      if l.len == |t + u| {
        assert t[l.len..] + u == "" && u == "";
        DanglingStep("");
      }
    }
  }

  // ----- slicing

  lemma {:induction false} ReadWordPrefix(t: string, m: nat)
    requires ReadWord(t).len <= m <= |t|
    ensures ReadWord(t[..m]) == ReadWord(t)
  {
    hide ReadWord, IsDelimiter;
    ReadWordEnds(t);
    ReadWordEnds(t[..m]);
    if t == "" || IsDelimiter(t[0]) {
    } else if t == "\\" {
      assert t[..m] == t;
    } else {
      var n := if t[0] == '\\' then 1 else 0;
      ReadWordStep(t);
      ReadWordPrefix(t[n + 1..], m - n - 1);
      ReadWordStep(t[..m]);
      assert t[..m][n + 1..] == t[n + 1..][..m - n - 1];
    }
  }

  lemma {:induction false} ReadQuotedPrefix(t: string, m: nat)
    requires ReadQuoted(t).Some? && ReadQuoted(t).value.len <= m <= |t|
    ensures ReadQuoted(t[..m]) == ReadQuoted(t)
  {
    if t[0] != '"' {
      var n := if t[0] == '\\' then 1 else 0;
      ReadQuotedPrefix(t[n + 1..], m - n - 1);
      assert t[..m][n + 1..] == t[n + 1..][..m - n - 1];
    }
  }

  lemma LexOnePrefix(t: string, m: nat)
    requires t != "" && !IsWhite(t[0]) && LexOne(t).Some? && LexOne(t).value.len <= m <= |t|
    ensures LexOne(t[..m]) == LexOne(t)
  {
    if t[0] == '"' {
      ReadQuotedPrefix(t[1..], m - 1);
      assert t[..m][1..] == t[1..][..m - 1];
    } else if !IsDelimiter(t[0]) && t[0] != '-' {
      ReadWordPrefix(t, m);
    }
  }

  /** Tokens come in order, without overlap, inside the text, and only the
      last is the end of the query. */
  ghost predicate InOrder(ts: seq<Token>, lo: int, hi: int) {
    && 0 < |ts| && ts[|ts| - 1] == EndToken(hi)
    && (forall i :: 0 <= i < |ts| - 1 ==> ts[i].kind != EOF && lo <= ts[i].pos < ts[i].end <= hi)
    && (forall i, j :: 0 <= i < j < |ts| ==> ts[i].end <= ts[j].pos)
  }

  lemma {:induction false} LexInOrder(t: string, at: int)
    requires Lex(t, at).Success?
    ensures InOrder(Lex(t, at).value, at, at + |t|)
  {
    hide LexOne, Lex;
    LexStep(t, at);
    if t == "" {
    } else if IsWhite(t[0]) {
      LexInOrder(t[1..], at + 1);
    } else {
      var l := LexOne(t).value;
      LexInOrder(t[l.len..], at + l.len);
    }
  }

  lemma TokenBounds(t: string, at: int, ts: seq<Token>, k: nat)
    requires Lex(t, at) == Success(ts) && k < |ts|
    ensures at <= ts[k].pos <= ts[k].end <= at + |t|
    ensures k + 1 < |ts| ==> ts[k].pos < ts[k].end && t != ""
    ensures 0 < k ==> ts[0].end <= ts[k].pos
  {
    LexInOrder(t, at);
  }

  lemma FirstToken(t: string, at: int, ts: seq<Token>)
    requires t != "" && !IsWhite(t[0]) && Lex(t, at) == Success(ts)
    ensures LexOne(t).Some?
    ensures var l := LexOne(t).value;
            && 0 < |ts| && ts[0] == Token(l.kind, l.value, at, at + l.len)
            && Lex(t[l.len..], at + l.len) == Success(ts[1..])
  {
    hide LexOne, Lex;
    LexStep(t, at);
  }

  lemma TakeDrop<T>(s: seq<T>, i: nat, j: nat)
    requires i <= j <= |s|
    ensures s[i..][..j - i] == s[i..j]
  {
  }

  /** Cutting a text just before one of its tokens. */
  lemma {:induction false} LexSuffix(t: string, at: int, ts: seq<Token>, k: nat)
    requires Lex(t, at) == Success(ts) && k < |ts|
    ensures at <= ts[k].pos <= at + |t|
    ensures Lex(t[ts[k].pos - at..], ts[k].pos) == Success(ts[k..])
    ensures Dangling(t[ts[k].pos - at..]) ==> Dangling(t)
  {
    hide LexOne, Lex, Dangling, IsWhite, InOrder;
    TokenBounds(t, at, ts, k);
    LexStep(t, at);
    DanglingStep(t);
    var p := ts[k].pos;
    if t == "" {
    } else if IsWhite(t[0]) {
      LexSuffix(t[1..], at + 1, ts, k);
      assert t[p - at..] == t[1..][p - at - 1..];
    } else if k == 0 {
      FirstToken(t, at, ts);
      assert t[0..] == t;
    } else {
      FirstToken(t, at, ts);
      var n := LexOne(t).value.len;
      LexSuffix(t[n..], at + n, ts[1..], k - 1);
      DropOne(t, ts, n, p - at, k);
      DanglingStep("");
    }
  }

  lemma DropOne(t: string, ts: seq<Token>, n: nat, m: nat, k: nat)
    requires n <= m <= |t| && 0 < k < |ts|
    ensures ts[1..][k - 1] == ts[k] && ts[1..][k - 1..] == ts[k..] && t[n..][m - n..] == t[m..]
  {
  }

  /** Cutting a text just after one of its tokens. */
  lemma {:induction false} LexPrefix(t: string, at: int, ts: seq<Token>, k: nat)
    requires Lex(t, at) == Success(ts) && k + 1 < |ts|
    ensures at < ts[k].end <= at + |t|
    ensures Lex(t[..ts[k].end - at], at) == Success(ts[..k + 1] + [EndToken(ts[k].end)])
  {
    hide LexOne, Lex, Dangling, IsWhite, InOrder;
    TokenBounds(t, at, ts, k);
    LexStep(t, at);
    var e := ts[k].end;
    var u := t[..e - at];
    LexStep(u, at);
    if IsWhite(t[0]) {
      LexPrefix(t[1..], at + 1, ts, k);
      assert u[1..] == t[1..][..e - at - 1];
    } else {
      FirstToken(t, at, ts);
      var n := LexOne(t).value.len;
      LexOnePrefix(t, |u|);
      if k == 0 {
        assert u[n..] == "";
        LexStep("", at + n);
      } else {
        assert ts[1..][k - 1] == ts[k];
        LexPrefix(t[n..], at + n, ts[1..], k - 1);
        assert u[n..] == t[n..][..e - at - n];
        PrefixTokens(ts, k);
      }
    }
  }

  lemma PrefixTokens(ts: seq<Token>, k: nat)
    requires 0 < k < |ts|
    ensures [ts[0]] + (ts[1..][..k] + [EndToken(ts[k].end)]) == ts[..k + 1] + [EndToken(ts[k].end)]
  {
  }

  lemma {:induction false} DanglingPrefix(t: string, at: int, ts: seq<Token>, k: nat)
    requires Lex(t, at) == Success(ts) && k + 1 < |ts|
    requires at < ts[k].end <= at + |t| && Dangling(t[..ts[k].end - at])
    ensures ts[k].end == at + |t| && Dangling(t)
  {
    hide LexOne, Lex, Dangling, IsWhite, InOrder;
    TokenBounds(t, at, ts, k);
    LexStep(t, at);
    DanglingStep(t);
    var e := ts[k].end;
    var u := t[..e - at];
    DanglingStep(u);
    if IsWhite(t[0]) {
      TokenBounds(t[1..], at + 1, ts, k);
      assert u[1..] == t[1..][..e - at - 1];
      DanglingPrefix(t[1..], at + 1, ts, k);
    } else {
      FirstToken(t, at, ts);
      var n := LexOne(t).value.len;
      LexOnePrefix(t, |u|);
      if k == 0 {
        assert u[n..] == "";
      } else {
        assert ts[1..][k - 1] == ts[k];
        assert u[n..] == t[n..][..e - at - n];
        DanglingPrefix(t[n..], at + n, ts[1..], k - 1);
      }
    }
  }

  /** A slice on token boundaries reads as the tokens it covers, and dangles
      only where the text does. */
  lemma LexSlice(t: string, at: int, ts: seq<Token>, i: nat, k: nat)
    requires Lex(t, at) == Success(ts) && i <= k && k + 1 < |ts|
    ensures at <= ts[i].pos < ts[k].end <= at + |t|
    ensures var s := t[ts[i].pos - at..ts[k].end - at];
            && Lex(s, ts[i].pos) == Success(ts[i..k + 1] + [EndToken(ts[k].end)])
            && (Dangling(s) ==> ts[k].end == at + |t| && Dangling(t))
  {
    hide LexOne, Lex, Dangling, IsWhite, InOrder;
    TokenBounds(t, at, ts, i);
    TokenBounds(t, at, ts, k);
    LexSuffix(t, at, ts, i);
    var p, e := ts[i].pos, ts[k].end;
    var s, us := t[p - at..], ts[i..];
    assert Lex(s, p) == Success(us) && us[k - i] == ts[k];
    LexPrefix(s, p, us, k - i);
    TakeDrop(t, p - at, e - at);
    TakeDrop(ts, i, k + 1);
    if Dangling(s[..e - p]) {
      DanglingPrefix(s, p, us, k - i);
    }
  }
}
