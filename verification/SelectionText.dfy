/** Setting a selection, as text: which clauses the new query consists of. */
module SelectionText {
  import opened Wrappers
  import opened Text
  import opened Lexer
  import opened Syntax
  import opened Locality
  import opened Spans
  import opened Clauses
  import opened Quoting
  import opened FieldClauses
  import opened Rewrite
  import opened RewriteText
  import LexerFacts

  /** The clauses of a query come in order, without overlap. */
  lemma ConjunctsCutFrom(query: string, root: Option<Node>)
    requires Parse(query) == Success(root)
    ensures CutFrom(query, root, Conjuncts(root))
  {
    hide Parse, Lex, ParseTokens, OnBoundaries, IsBlank;
    ConjunctsInText(query, root);
    if root.Some? {
      ParseStep(query);
      SpanTheorem(query, Lex(query, 0).value, root.value);
    }
  }

  ghost predicate After(c: Node, cs: seq<Node>) {
    forall j :: 0 <= j < |cs| ==> c.end <= cs[j].pos
  }

  ghost predicate InLine(cs: seq<Node>) {
    forall i, j :: 0 <= i < j < |cs| ==> cs[i].end <= cs[j].pos
  }

  lemma {:induction false} KeptAfter(c: Node, cs: seq<Node>, aliases: seq<string>)
    requires After(c, cs)
    ensures After(c, KeptClauses(cs, aliases))
  {
    hide FieldUse;
    if cs != [] {
      KeptAfter(c, cs[1..], aliases);
    }
  }

  lemma InLineCons(c: Node, cs: seq<Node>)
    requires After(c, cs) && InLine(cs)
    ensures InLine([c] + cs)
  {
  }

  lemma {:induction false} KeptInOrder(cs: seq<Node>, aliases: seq<string>)
    requires InLine(cs)
    ensures InLine(KeptClauses(cs, aliases))
  {
    hide FieldUse, InLine, After;
    if cs != [] {
      InLineRest(cs);
      KeptInOrder(cs[1..], aliases);
      KeptAfter(cs[0], cs[1..], aliases);
      InLineCons(cs[0], KeptClauses(cs[1..], aliases));
      assert [] + KeptClauses(cs[1..], aliases) == KeptClauses(cs[1..], aliases);
    }
  }

  lemma InLineRest(cs: seq<Node>)
    requires InLine(cs) && cs != []
    ensures InLine(cs[1..]) && After(cs[0], cs[1..])
  {
  }

  lemma KeptCutFrom(query: string, root: Option<Node>, aliases: seq<string>)
    requires Parse(query) == Success(root)
    ensures CutFrom(query, root, KeptClauses(Conjuncts(root), aliases))
  {
    hide Parse, FieldUse, KeptClauses;
    ConjunctsCutFrom(query, root);
    KeptInOrder(Conjuncts(root), aliases);
    KeptAreClauses(Conjuncts(root), aliases);
    KeptInText(query, Conjuncts(root), aliases);
  }

  /** Whether the selection needs a clause to state it. */
  predicate HasClause(sel: Selection) {
    sel.mode.SelectInclude? || (sel.mode.SelectExclude? && sel.values != [])
  }

  /** The tree of the clause that states a selection. */
  function SelectionTree(field: string, sel: Selection): Node
    requires HasClause(sel)
  {
    if sel.mode.SelectExclude? then Not(0, 0, false, FieldTree(field, sel.values))
    else if sel.values == [] then Not(0, 0, false, Term(0, 0, false, field, "*", false))
    else FieldTree(field, sel.values)
  }

  lemma FacetFieldsArePlain(field: string)
    requires Aliases(field).Some?
    ensures Plain(field) && field != ""
  {
    assert field == "service" || field == "level";
  }

  lemma StarReads(field: string, at: int)
    requires Plain(field)
    ensures var c := Term(at, at + |field| + 2, false, field, "*", false);
            ClauseText(field + ":*", at, c) && !Dangling(field + ":*")
  {
    hide Lex, Dangling, ClauseText, Plain, Comparison;
    var e := at + |field| + 1;
    StarIsPlain();
    LexPlain("*", e);
    assert field + ":*" == field + ":" + "*";
    SingleReads(field, "*", at, Token(Word, "*", e, e + 1));
  }

  lemma StarIsPlain()
    ensures Plain("*") && Comparison("*") == None
  {
  }

  /** The clause for a selection reads as the tree it is meant for. */
  lemma SelectionClauseReads(field: string, sel: Selection) returns (x: Node)
    requires Aliases(field).Some? && !sel.mode.SelectCustom?
    ensures Appendable(SelectionClause(field, sel).value, x)
    ensures (SelectionClause(field, sel).value != "") == HasClause(sel)
    ensures HasClause(sel) ==> Erase(x) == SelectionTree(field, sel)
  {
    hide Lex, Dangling, ClauseText, FieldClause, FieldTree, Plain, IsBlank, Closed;
    FacetFieldsArePlain(field);
    var clause := SelectionClause(field, sel).value;
    x := Term(0, 0, false, "", "", false);
    if sel.values == [] && sel.mode.SelectInclude? {
      StarReads(field, 1);
      x := Term(1, 1 + |field| + 2, false, field, "*", false);
      NegatedReads(field + ":*", 0, x);
      assert clause == "-" + (field + ":*");
      x := Not(0, x.end, false, x);
      NegatedAppends(field + ":*", x);
    } else if sel.mode.SelectInclude? {
      x := FieldClauseReads(field, sel.values, 0);
      FieldClauseAppends(field, sel.values, x);
    } else if sel.mode.SelectExclude? && sel.values != [] {
      var c := FieldClauseReads(field, sel.values, 1);
      NegatedReads(FieldClause(field, sel.values), 0, c);
      x := Not(0, c.end, false, c);
      NegatedAppends(FieldClause(field, sel.values), x);
    }
  }

  lemma NegatedAppends(s: string, x: Node)
    requires ClauseText("-" + s, 0, x) && x.Not? && x.pos == 0
    ensures Appendable("-" + s, x) && "-" + s != ""
  {
    hide ClauseText;
    var t := "-" + s;
    assert t[0] == '-' && !IsSpace(t[0]);
    BlankMeansAllSpace(t);
  }

  lemma FieldClauseAppends(field: string, values: seq<string>, x: Node)
    requires field == "service" || field == "level"
    requires ClauseText(FieldClause(field, values), 0, x) && Closed(x)
    ensures Appendable(FieldClause(field, values), x) && FieldClause(field, values) != ""
  {
    hide ClauseText, QuoteValue, Join, Closed;
    var t := FieldClause(field, values);
    assert t[0] == field[0] && !IsSpace(t[0]);
    BlankMeansAllSpace(t);
    ClauseStarts(t, x);
  }

  /** A clause text that does not begin with a blank begins with its clause. */
  lemma ClauseStarts(t: string, x: Node)
    requires ClauseText(t, 0, x) && t != "" && !IsWhite(t[0])
    ensures x.pos == 0
  {
    hide Lex, ParseUnary, LexOne, Ordered, WellFormed;
    LexOrdered(t, 0);
    UnarySpans(Lex(t, 0).value, 0, "");
    LexerFacts.FirstToken(t, 0, Lex(t, 0).value);
  }

  /** Setting a selection keeps the text of every clause that is not on the
      field alone and adds the clause for the selection, and the new query
      parses to exactly those: unless an unpaired backslash ends the last kept
      clause and a clause follows it, or only Unicode blanks are left. */
  lemma SetSelectionTheorem(query: string, root: Option<Node>, field: string, sel: Selection) returns (x: Node)
    requires Aliases(field).Some? && !sel.mode.SelectCustom? && Parse(query) == Success(root)
    ensures var kept := KeptClauses(Conjuncts(root), Aliases(field).value);
            var clause := SelectionClause(field, sel).value;
            && CutFrom(query, root, kept)
            && WithSelection(query, field, sel) == Success(JoinedClauses(query, kept, clause))
            && (Reproduces(query, kept, clause, x) <==>
                !Swallows(query, kept, clause) && !Vanishes(query, kept, clause))
    ensures HasClause(sel) ==> Erase(x) == SelectionTree(field, sel)
    ensures (SelectionClause(field, sel).value != "") == HasClause(sel)
  {
    hide Parse, FieldUse, KeptClauses, JoinedClauses, Swallows, Vanishes, Reproduces, CutFrom, Appendable;
    x := SelectionClauseReads(field, sel);
    var kept := KeptClauses(Conjuncts(root), Aliases(field).value);
    KeptCutFrom(query, root, Aliases(field).value);
    RewriteTheorem(query, root, kept, SelectionClause(field, sel).value, x);
  }

  /** A query that does not end in an unpaired backslash, and holds no white
      space but what separates its words, meets the condition. */
  lemma OrdinaryQueries(query: string, root: Option<Node>, kept: seq<Node>, extra: string)
    requires CutFrom(query, root, kept)
    ensures !Dangling(query) ==> !Swallows(query, kept, extra)
    ensures (forall i :: 0 <= i < |query| && IsSpace(query[i]) ==> IsWhite(query[i])) ==>
              !Vanishes(query, kept, extra)
  {
    hide Parse, Dangling, IsBlank, IsWhite, IsSpace, JoinedClauses, Lex, ParseTokens, ClauseText, QueryText;
    if kept != [] {
      var last := kept[|kept| - 1];
      assert last in kept && kept[0] in kept && root.Some?;
      SliceDangles(query, root.value, last);
      if extra == "" && forall i :: 0 <= i < |query| && IsSpace(query[i]) ==> IsWhite(query[i]) {
        SliceReads(query, root.value, kept[0]);
        SliceStarts(query, root.value, kept[0]);
        BlankMeansAllSpace(Slice(query, kept[0]));
        assert Slice(query, kept[0])[0] == query[kept[0].pos];
      }
    }
  }

  lemma SliceDangles(query: string, n: Node, c: Node)
    requires Parse(query) == Success(Some(n)) && c in Operands(true, n) && InText(query, c)
    ensures Dangling(Slice(query, c)) ==> Dangling(query)
  {
    hide Lex, Parse, ParseTokens, Ordered, Dangling, QueryText, ClauseText, IsBlank;
    ParseStep(query);
    var ts := Lex(query, 0).value;
    LexOrdered(query, 0);
    ConjunctKinds(ts, n, c);
    if Loose(c) {
      RootSlice(query, 0, ts, n);
    } else {
      UnarySlice(query, 0, ts, c);
    }
  }

  /** A clause's text begins with a character that separates nothing. */
  lemma SliceStarts(query: string, n: Node, c: Node)
    requires Parse(query) == Success(Some(n)) && c in Operands(true, n)
    ensures 0 <= c.pos < |query| && !IsWhite(query[c.pos])
  {
    hide Lex, Parse, ParseTokens, Ordered, WellFormed, IsBlank, IsWhite;
    ParseStep(query);
    var ts := Lex(query, 0).value;
    SpanTheorem(query, ts, n);
    ConjunctOnBoundaries(ts, n, c);
    var i: nat, j: nat :| Covers(ts, c, i, j);
    TokenStarts(query, 0, ts, i);
  }

  lemma WhiteDelays(s: string, at: int, us: seq<Token>)
    requires s != "" && IsWhite(s[0]) && Lex(s, at) == Success(us)
    ensures 0 < |us| && at < us[0].pos
  {
    hide Lex, IsWhite;
    LexStep(s, at);
    LexerFacts.LexInOrder(s[1..], at + 1);
  }

  lemma TokenStarts(t: string, at: int, ts: seq<Token>, k: nat)
    requires Lex(t, at) == Success(ts) && k + 1 < |ts|
    ensures at <= ts[k].pos < at + |t| && !IsWhite(t[ts[k].pos - at])
  {
    hide Lex, Dangling, IsWhite;
    LexerFacts.LexSuffix(t, at, ts, k);
    LexerFacts.TokenBounds(t, at, ts, k);
    var s := t[ts[k].pos - at..];
    if IsWhite(s[0]) {
      WhiteDelays(s, ts[k].pos, ts[k..]);
    }
  }
}
