/** Adding a filter, as text: the query is narrowed by exactly one term. */
module FilterText {
  import opened Wrappers
  import opened Text
  import opened Lexer
  import opened LexerFacts
  import opened Syntax
  import opened Locality
  import opened Spans
  import opened Clauses
  import opened Quoting
  import opened FieldClauses
  import opened Rewrite
  import opened RewriteText
  import opened SelectionText

  /** A field the filter's guard admits. */
  predicate Admitted(field: string) {
    !IsBlank(field) && !ContainsAny(field, FIELD_BREAKERS)
  }

  /** An admitted field that reads as itself: no keyword, no leading minus, no
      backslash. */
  predicate ReadsAsItself(field: string) {
    field !in {"AND", "OR", "NOT"} && !("-" <= field) && '\\' !in field
  }

  /** The one term a filter is meant to add, or its negation. */
  function FilterTree(field: string, value: string, exclude: bool): Node {
    var term := ExactTerm(field, value);
    if exclude then Not(0, 0, false, term) else term
  }

  /** The output consists of the original clauses and exactly that term. */
  ghost predicate NarrowsExactly(query: string, root: Option<Node>, field: string, value: string, exclude: bool)
    requires AllInText(query, Conjuncts(root))
  {
    exists x: Node :: x.pos == 0 && Erase(x) == FilterTree(field, value, exclude)
                      && Reproduces(query, Conjuncts(root), FilterClause(field, value, exclude), x)
  }

  lemma AdmittedHasNoDelimiters(field: string)
    requires Admitted(field)
    ensures field != "" && forall i :: 0 <= i < |field| ==> !IsDelimiter(field[i])
  {
    hide IsSpace, IsBlank;
    BlankMeansAllSpace("");
    assert forall i :: 0 <= i < |field| ==> field[i] in field && field[i] !in FIELD_BREAKERS;
  }

  lemma ReadsAsItselfIsPlain(field: string)
    requires Admitted(field)
    ensures ReadsAsItself(field) <==> Plain(field)
  {
    AdmittedHasNoDelimiters(field);
    assert '\\' in field <==> exists i :: 0 <= i < |field| && field[i] == '\\';
  }

  /** The clause of a filter on a plain field reads as the term it is for. */
  lemma FilterClauseReads(field: string, value: string, exclude: bool) returns (x: Node)
    requires Plain(field) && Admitted(field)
    ensures Appendable(FilterClause(field, value, exclude), x)
    ensures x.pos == 0 && Erase(x) == FilterTree(field, value, exclude)
  {
    hide Lex, Dangling, ClauseText, Plain, IsBlank, NeedsQuotes, QuoteValue, Admitted;
    var at := if exclude then 1 else 0;
    var token := ValueToken(value, at + |field| + 1);
    QuoteReadsBack(value, at + |field| + 1);
    if !NeedsQuotes(value) {
      BareIsTerm(value);
    }
    SingleReads(field, QuoteValue(value), at, token);
    x := Term(at, token.end, false, field, token.value, token.kind == Phrase);
    var s := field + ":" + QuoteValue(value);
    if exclude {
      NegatedReads(s, 0, x);
      x := Not(0, x.end, false, x);
      assert FilterClause(field, value, exclude) == "-" + s;
    } else {
      assert FilterClause(field, value, exclude) == s;
    }
    FilterClauseStarts(field, value, exclude);
  }

  lemma FilterClauseStarts(field: string, value: string, exclude: bool)
    requires Admitted(field)
    ensures var clause := FilterClause(field, value, exclude);
            clause != "" && !IsBlank(clause) && !IsDelimiter(clause[0])
  {
    hide IsBlank, QuoteValue, IsSpace;
    AdmittedHasNoDelimiters(field);
    var minus := if exclude then "-" else "";
    PartNotBlank(minus, field, ":" + QuoteValue(value));
    assert FilterClause(field, value, exclude) == minus + field + (":" + QuoteValue(value));
  }

  // ----- what a field that does not read as itself does

  /** A word that begins with a field either ends with it or, by an escaped
      colon, goes on into the value. */
  lemma {:induction false} WordThrough(field: string, u: string)
    requires forall i :: 0 <= i < |field| ==> !IsDelimiter(field[i])
    ensures var r := ReadWord(field + ":" + u);
            && (r.len == |field| || r.len == |field| + 1 + ReadWord(u).len)
            && (r.len == |field| ==> |r.value| <= |field| && (r.value == field <==> '\\' !in field))
  {
    hide ReadWord;
    var t := field + ":" + u;
    ReadWordEnds(t);
    if field == "" {
    } else if field == "\\" {
      assert t[2..] == u;
      ReadWordStep(t);
    } else {
      var n := if field[0] == '\\' then 1 else 0;
      assert t[n + 1..] == field[n + 1..] + ":" + u;
      ReadWordStep(t);
      WordThrough(field[n + 1..], u);
      assert field == field[..n + 1] + field[n + 1..];
    }
  }

  lemma ValueWord(value: string)
    ensures var q := QuoteValue(value);
            if NeedsQuotes(value) then q[0] == '"' && ReadWord(q).len == 0 else ReadWord(q).len == |q|
    ensures QuoteValue(value) != ""
  {
    hide NeedsQuotes;
    NoValueIsQuoted();
    if !NeedsQuotes(value) {
      BareIsPlain(value);
      ReadPlain(value);
    }
  }

  /** The first tokens of `field:value`, for an admitted field. */
  lemma FilterTokens(field: string, value: string, at: int, ts: seq<Token>)
    requires Admitted(field) && Lex(field + ":" + QuoteValue(value), at) == Success(ts) && field[0] != '-'
    ensures 2 <= |ts| && ts[0].kind == WordKind(ts[0].value) && ts[0].pos == at
    ensures ts[1].kind != Colon || (
              && 4 == |ts| && IsText(ts[2].kind) && ts[3].kind == EOF
              && (ts[2].kind == Word ==> !("[" <= ts[2].value) && Comparison(ts[2].value) == None)
              && (ts[0].value == field <==> '\\' !in field))
  {
    hide Lex, NeedsQuotes, QuoteValue, Comparison, WordKind, Dangling;
    AdmittedHasNoDelimiters(field);
    var q := QuoteValue(value);
    var t := field + ":" + q;
    WordThrough(field, q);
    ValueWord(value);
    FirstToken(t, at, ts);
    var n := ReadWord(t).len;
    assert LexOne(t) == Some(ReadWord(t).(kind := WordKind(ReadWord(t).value))) by { hide ReadWord; }
    LexEnds(t[n..], at + n);
    if n == |field| {
      assert t[n..] == ":" + q;
      QuoteReadsBack(value, at + n + 1);
      LexSymbol(':', Colon, q, at + n);
      if !NeedsQuotes(value) {
        BareIsTerm(value);
      }
    } else {
      AfterEscapedColon(t[n..], at + n, ts[1..]);
    }
  }

  lemma AfterEscapedColon(s: string, at: int, ts: seq<Token>)
    requires Lex(s, at) == Success(ts) && (s == "" || s[0] == '"')
    ensures 0 < |ts| && ts[0].kind != Colon
  {
    hide Lex, ReadQuoted;
    LexStep(s, at);
  }

  /** When a term with the field is read from its own text, the field reads as
      itself. */
  lemma TermReadsField(field: string, value: string, at: int, us: seq<Token>, ts: seq<Token>, i: nat, c: Node)
    requires Admitted(field) && Lex(field + ":" + QuoteValue(value), at) == Success(us)
    requires i <= |ts| && ts[i..] == us
    requires ParseUnary(ts, i, "").Success? && ParseUnary(ts, i, "").value.node == c
    requires c.Term? && c.field == field
    ensures ReadsAsItself(field)
  {
    hide Lex, QuoteValue, Admitted, ParseUnary, WordKind;
    AdmittedHasNoDelimiters(field);
    LexEnds(field + ":" + QuoteValue(value), at);
    if field[0] == '-' {
      MinusFirst(field + ":" + QuoteValue(value), at, us);
      assert ts[i] == us[0];
      NotTerm(ts, i);
    } else {
      FilterTokens(field, value, at, us);
      assert ts[i] == us[0] && ts[i + 1] == us[1];
      if us[1].kind == Colon {
        assert ts[i + 2] == us[2];
      }
      KeywordKinds(us[0].value);
      WordTerm(ts, i, c);
    }
  }

  lemma KeywordKinds(w: string)
    ensures WordKind(w) == Word <==> w !in {"AND", "OR", "NOT"}
    ensures WordKind(w) in {Word, AndWord, OrWord, NotWord}
  {
  }

  lemma MinusFirst(t: string, at: int, ts: seq<Token>)
    requires t != "" && t[0] == '-' && Lex(t, at) == Success(ts)
    ensures 1 < |ts| && ts[0] == Token(Minus, "-", at, at + 1) && Lex(t[1..], at + 1) == Success(ts[1..])
  {
    hide Lex;
    FirstToken(t, at, ts);
    LexEnds(t[1..], at + 1);
  }

  lemma NotTerm(ts: seq<Token>, i: nat)
    requires i < |ts| && ts[i].kind == Minus && ParseUnary(ts, i, "").Success?
    ensures ParseUnary(ts, i, "").value.node.Not?
    ensures ParseUnary(ts, i + 1, "").Success?
    ensures ParseUnary(ts, i, "").value.node.child == ParseUnary(ts, i + 1, "").value.node
  {
    hide ParsePrimary;
  }

  /** A term that begins with a word token. */
  lemma WordTerm(ts: seq<Token>, i: nat, c: Node)
    requires i + 1 < |ts| && ts[i].kind in {Word, AndWord, OrWord, NotWord}
    requires ParseUnary(ts, i, "").Success? && ParseUnary(ts, i, "").value.node == c && c.Term?
    requires ts[i + 1].kind == Colon ==>
               && i + 3 < |ts| && IsText(ts[i + 2].kind)
               && (ts[i + 2].kind == Word ==> !("[" <= ts[i + 2].value) && Comparison(ts[i + 2].value) == None)
    ensures ts[i].kind == Word && c.field == if ts[i + 1].kind == Colon then ts[i].value else ""
  {
    hide ParseOr, ParseRange, Comparison;
    if ts[i + 1].kind == Colon && ts[i].kind == Word {
      FieldParses(ts, i, "");
    }
  }

  // ----- the theorem

  /** Where the extra clause stands in a rewritten query, and its tokens. */
  lemma ExtraTokens(query: string, root: Option<Node>, kept: seq<Node>, extra: string, x: Node, m: Node)
    returns (at: int, i: nat, ts: seq<Token>)
    requires CutFrom(query, root, kept) && extra != "" && !IsDelimiter(extra[0])
    requires !Swallows(query, kept, extra) && Reproduces(query, kept, extra, x)
    requires Parse(JoinedClauses(query, kept, extra)) == Success(Some(m))
    ensures Lex(JoinedClauses(query, kept, extra), 0) == Success(ts) && i <= |ts|
    ensures Lex(extra, at) == Success(ts[i..])
    ensures Shift(x, at) in Operands(true, m)
  {
    hide Parse, Lex, Dangling, IsBlank, Shift, Swallows, CutFrom, PartsOf, PartNodes, IsDelimiter, ParseTokens, Joinable,
         Slice;
    var out := JoinedClauses(query, kept, extra);
    ParseStep(out);
    ts := Lex(out, 0).value;
    if kept == [] {
      assert PartsOf(query, kept, false) + Extra(extra) == [extra];
      assert PartNodes(kept, false) + ExtraNode(extra, x) == [x];
      FirstPlace([extra], [x]);
      ShiftBy0(x);
      assert IntendedClauses(query, kept, extra, x)[0] == x;
      at, i := 0, 0;
      assert ts[0..] == ts;
    } else {
      var parts, nodes := PartsOf(query, kept, true), PartNodes(kept, true);
      HeadReads(query, root, kept, extra);
      var head := Join(parts, " ");
      JoinSnoc(parts, extra);
      PlacesLast(parts, nodes, extra, x, 0);
      at := |head| + 1;
      i := TailTokens(head, extra, ts);
      assert IntendedClauses(query, kept, extra, x)[|parts|] == Shift(x, at);
    }
  }

  lemma HeadReads(query: string, root: Option<Node>, kept: seq<Node>, extra: string)
    requires CutFrom(query, root, kept) && kept != [] && extra != "" && !Swallows(query, kept, extra)
    ensures var head := Join(PartsOf(query, kept, true), " "); Lex(head, 0).Success? && !Dangling(head)
  {
    hide Parse, Lex, Dangling, Shift, PartNodes, Joinable, AsQuery;
    FirstIsMember(kept);
    var n := root.value;
    forall i | 0 <= i < |kept|
      ensures !Dangling(Slice(query, kept[i]))
    {
      NotDangling(query, n, kept, extra, i);
    }
    KeptJoin(query, n, kept, true);
    var parts := PartsOf(query, kept, true);
    var _ := JoinReads(parts, PartNodes(kept, true), 0);
    JoinDangles(parts, PartNodes(kept, true), 0);
  }

  lemma TailTokens(head: string, extra: string, ts: seq<Token>) returns (i: nat)
    requires Lex(head, 0).Success? && !Dangling(head) && Lex(head + " " + extra, 0) == Success(ts)
    ensures i <= |ts| && Lex(extra, |head| + 1) == Success(ts[i..])
  {
    hide Lex, Dangling;
    var u := " " + extra;
    assert head + " " + extra == head + u;
    LexAppend(head, u, 0);
    LexStep(u, |head|);
    assert u[1..] == extra;
    i := |Body(head, 0)|;
    assert ts[i..] == Lex(extra, |head| + 1).value;
  }

  lemma OneTokenStarts(ts: seq<Token>, i: nat, j: nat)
    requires Ordered(ts) && i + 1 < |ts| && j + 1 < |ts| && ts[i].pos == ts[j].pos
    ensures i == j
  {
  }

  /** A conjunct is read from the token it starts with. */
  lemma ConjunctStarts(ts: seq<Token>, m: Node, c: Node, i: nat)
    requires Ordered(ts) && ParseTokens(ts) == Success(m) && c in Operands(true, m) && !Loose(c)
    requires i + 1 < |ts| && ts[i].pos == c.pos
    ensures ParseUnary(ts, i, "").Success? && ParseUnary(ts, i, "").value.node == c
  {
    hide ParseTokens, ParseUnary, Ordered, WellFormed;
    ConjunctKinds(ts, m, c);
    var j: nat :| j <= |ts| && ParseUnary(ts, j, "").Success? && ParseUnary(ts, j, "").value.node == c;
    UnarySpans(ts, j, "");
    OneTokenStarts(ts, i, j);
  }

  lemma ShiftedTree(x: Node, d: int, field: string, value: string, exclude: bool)
    requires Erase(x) == FilterTree(field, value, exclude)
    ensures var c := Shift(x, d);
            && !Loose(c) && c.pos == x.pos + d
            && (if exclude then c.Not? && c.child.Term? && c.child.field == field else c.Term? && c.field == field)
  {
  }

  lemma NarrowingReadsField(query: string, root: Option<Node>, field: string, value: string, exclude: bool, x: Node)
    requires Parse(query) == Success(root) && CutFrom(query, root, Conjuncts(root)) && Admitted(field)
    requires x.pos == 0 && Erase(x) == FilterTree(field, value, exclude)
    requires !Swallows(query, Conjuncts(root), FilterClause(field, value, exclude))
    requires Reproduces(query, Conjuncts(root), FilterClause(field, value, exclude), x)
    ensures ReadsAsItself(field)
  {
    hide Parse, Lex, Dangling, IsBlank, Swallows, CutFrom, ParseTokens, ParseUnary, Ordered, Admitted, QuoteValue,
         JoinedClauses, IntendedClauses, Shift, Erase;
    var kept, extra := Conjuncts(root), FilterClause(field, value, exclude);
    FilterClauseStarts(field, value, exclude);
    var out := JoinedClauses(query, kept, extra);
    IntendedNotEmpty(query, kept, extra, x);
    var m := Parse(out).value.value;
    var at, i, ts := ExtraTokens(query, root, kept, extra, x, m);
    var c := Shift(x, at);
    ShiftedTree(x, at, field, value, exclude);
    ParseStep(out);
    LexOrdered(out, 0);
    StartToken(extra, at, ts, i);
    ConjunctStarts(ts, m, c, i);
    var s := field + ":" + QuoteValue(value);
    if exclude {
      assert extra == "-" + s && extra[1..] == s;
      MinusFirst(extra, at, ts[i..]);
      NotTerm(ts, i);
      assert ts[i..][1..] == ts[i + 1..];
      TermReadsField(field, value, at + 1, ts[i + 1..], ts, i + 1, c.child);
    } else {
      assert extra == s;
      TermReadsField(field, value, at, ts[i..], ts, i, c);
    }
  }

  lemma IntendedNotEmpty(query: string, kept: seq<Node>, extra: string, x: Node)
    requires AllInText(query, kept) && extra != ""
    ensures IntendedClauses(query, kept, extra, x) != []
  {
    hide Shift;
  }

  lemma StartToken(extra: string, at: int, ts: seq<Token>, i: nat)
    requires extra != "" && !IsDelimiter(extra[0]) && i <= |ts| && Lex(extra, at) == Success(ts[i..])
    ensures i + 1 < |ts| && ts[i].pos == at
  {
    hide Lex;
    FirstToken(extra, at, ts[i..]);
    LexEnds(extra[LexOne(extra).value.len..], at + LexOne(extra).value.len);
  }

  /** Adding a filter narrows the query by exactly one term with that field and
      exactly that value, if and only if the field reads as itself and no
      unpaired backslash ends the query's last clause. */
  lemma AddFilterTheorem(query: string, root: Option<Node>, field: string, value: string, exclude: bool)
    requires Parse(query) == Success(root) && Admitted(field)
    ensures CutFrom(query, root, Conjuncts(root))
    ensures WithFilter(query, field, value, exclude) ==
            Success(JoinedClauses(query, Conjuncts(root), FilterClause(field, value, exclude)))
    ensures NarrowsExactly(query, root, field, value, exclude) <==>
            ReadsAsItself(field) && !Swallows(query, Conjuncts(root), FilterClause(field, value, exclude))
  {
    hide Parse, Swallows, Vanishes, Reproduces, CutFrom, Appendable, FilterClause, FilterTree, Erase, JoinedClauses,
         ReadsAsItself, Conjuncts;
    ConjunctsCutFrom(query, root);
    ReadsAsItselfIsPlain(field);
    var kept, extra := Conjuncts(root), FilterClause(field, value, exclude);
    FilterClauseStarts(field, value, exclude);
    if ReadsAsItself(field) && !Swallows(query, kept, extra) {
      var x := FilterClauseReads(field, value, exclude);
      RewriteTheorem(query, root, kept, extra, x);
      NeverVanishes(query, kept, extra);
    }
    if NarrowsExactly(query, root, field, value, exclude) {
      var x: Node :| x.pos == 0 && Erase(x) == FilterTree(field, value, exclude) && Reproduces(query, kept, extra, x);
      if Swallows(query, kept, extra) {
        SwallowBreaks(query, root, kept, extra, x);
      } else {
        NarrowingReadsField(query, root, field, value, exclude, x);
      }
    }
  }

  lemma NeverVanishes(query: string, kept: seq<Node>, extra: string)
    requires AllInText(query, kept) && extra != ""
    ensures !Vanishes(query, kept, extra)
  {
  }
}
